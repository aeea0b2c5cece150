/**
  Versioned configuration loading with a defaults fallback (`ConfigManager`).

  For every registered config id the manager reads the id's file, checks the
  tree's version against the id's `version` and `minimumVersion`, may run the
  id's updater (writing a backup `old_<fileName>` and the updated file when the
  version moved), maps the tree to the id's class, and otherwise falls back to
  a default instance of that class.
 */
module Configs {
  import opened Wrappers

  /** The identity of a configuration class (Java `Class<? extends Configuration>`). */
  type ClassId = string

  /** A handle naming one versioned updater supplier. */
  type UpdaterId = nat

  /** A parsed configuration file: its version key's value, if it has one, and the rest of its content. */
  datatype Tree = Tree(version: Option<int>, entries: map<string, string>)

  /** What storage holds under a file name: a tree, or text the YAML loader cannot read. */
  datatype FileContent = Readable(tree: Tree) | Unreadable

  /** A typed configuration object, as produced by mapping or by default construction. */
  datatype Configuration = Configuration(clazz: ClassId, fields: map<string, string>)

  /** A registered config id: its file, its target class, its version bounds and its optional updater. */
  datatype ConfigId = ConfigId(
    fileName: string,
    clazz: ClassId,
    version: int,
    minimumVersion: int,
    updater: Option<UpdaterId>)

  /**
    The collaborators the manager calls but whose code is not part of this model:
    the bundled resource copied in for a missing file, the files whose saving
    fails, the updaters' transformation, the mapping of a tree to a class
    (`None` for a null result) and the no-argument constructor of a class
    (`None` when reflective construction fails).
   */
  datatype Env = Env(
    resource: string -> FileContent,
    readOnly: set<string>,
    transform: UpdaterId -> Tree -> Tree,
    mapper: (ClassId, Tree) -> Option<Configuration>,
    defaults: ClassId -> Option<Configuration>)

  /** The state the manager changes: the stored configurations and the files. */
  datatype Store = Store(configurations: map<ClassId, Configuration>, files: map<string, FileContent>)

  /** What `loadConfig` ends with: a boolean result, or an `IOException` thrown to `load`. */
  datatype Outcome = Returned(ok: bool) | Threw

  datatype Step = Step(outcome: Outcome, store: Store)

  /** The name of the backup file written before a migrated file is saved. */
  function BackupName(fileName: string): string {
    "old_" + fileName
  }

  /** The files after `fileOrCopiedFromResource`: a missing file is copied in from the bundled resource. */
  function Prepared(env: Env, c: ConfigId, files: map<string, FileContent>): (r: map<string, FileContent>)
    ensures c.fileName in r
    ensures forall f :: f in files ==> f in r && r[f] == files[f]
    ensures forall f :: f in r && f != c.fileName ==> f in files
  {
    if c.fileName in files then files else files[c.fileName := env.resource(c.fileName)]
  }

  /** How a tree's version relates to the id's bounds, before any updater runs. */
  datatype VersionCheck =
    | Unversioned
    | UpToDate
    | NoUpdater(found: int)
    | OutOfRange(found: int)
    | Migratable(found: int)

  function CheckVersion(c: ConfigId, t: Tree): (r: VersionCheck)
    ensures r.UpToDate? <==> t.version == Some(c.version)
    ensures r.Unversioned? <==> t.version.None?
    ensures r.Migratable? <==> t.version.Some? && t.version.value != c.version && c.updater.Some?
                               && c.minimumVersion <= t.version.value <= c.version
  {
    match t.version
    case None => Unversioned
    case Some(v) =>
      if v == c.version then UpToDate
      else if c.updater.None? then NoUpdater(v)
      else if v < c.minimumVersion || v > c.version then OutOfRange(v)
      else Migratable(v)
  }

  /** `useMinimalDefaults`: store a fresh default of the class, or store nothing and report failure. */
  function MinimalDefaults(env: Env, c: ConfigId, s: Store): (r: Step)
    ensures r.outcome.Returned?
    ensures r.store.files == s.files
    ensures r.outcome.ok <==> env.defaults(c.clazz).Some?
    ensures r.outcome.ok ==> r.store.configurations == s.configurations[c.clazz := env.defaults(c.clazz).value]
    ensures !r.outcome.ok ==> r.store.configurations == s.configurations
  {
    match env.defaults(c.clazz)
    case Some(d) => Step(Returned(true), Store(s.configurations[c.clazz := d], s.files))
    case None => Step(Returned(false), s)
  }

  /** Map a tree at the right version; a null mapping falls back to the defaults. */
  function MapOrDefaults(env: Env, c: ConfigId, t: Tree, s: Store): (r: Step)
    ensures r.outcome.Returned? && r.store.files == s.files
    ensures env.mapper(c.clazz, t).Some? ==>
              r.outcome.ok && r.store.configurations == s.configurations[c.clazz := env.mapper(c.clazz, t).value]
    ensures env.mapper(c.clazz, t).None? ==> r == MinimalDefaults(env, c, s)
  {
    match env.mapper(c.clazz, t)
    case Some(m) => Step(Returned(true), Store(s.configurations[c.clazz := m], s.files))
    case None => MinimalDefaults(env, c, s)
  }

  /**
    Save the pre-update copy to the backup file and then the updated tree to the
    primary file; a failed save throws, leaving the writes made so far.
   */
  function SaveMigrated(env: Env, c: ConfigId, before: Tree, after: Tree, files: map<string, FileContent>)
    : (r: SaveResult)
    ensures r.Saved? <==> BackupName(c.fileName) !in env.readOnly && c.fileName !in env.readOnly
    ensures var m := r.Files();
      forall f :: f != BackupName(c.fileName) && f != c.fileName ==>
        (f in m <==> f in files) && (f in files ==> m[f] == files[f])
    ensures var m := r.Files();
      BackupName(c.fileName) !in env.readOnly ==> BackupName(c.fileName) in m && m[BackupName(c.fileName)] == Readable(before)
    ensures BackupName(c.fileName) in env.readOnly ==> r.Files() == files
    ensures var m := r.Files();
      if r.Saved? then c.fileName in m && m[c.fileName] == Readable(after)
      else (c.fileName in m <==> c.fileName in files) && (c.fileName in files ==> m[c.fileName] == files[c.fileName])
  {
    var backup := BackupName(c.fileName);
    if backup in env.readOnly then Failed(files)
    else if c.fileName in env.readOnly then Failed(files[backup := Readable(before)])
    else Saved(files[backup := Readable(before)][c.fileName := Readable(after)])
  }

  /** The files after a sequence of saves, and whether every save completed. */
  datatype SaveResult = Saved(written: map<string, FileContent>) | Failed(partial: map<string, FileContent>) {
    /** The files as they stand after the saves, complete or not. */
    function Files(): map<string, FileContent> {
      if Saved? then written else partial
    }
  }

  /** What `loadConfig` does for one id, decided by the version check. */
  function LoadConfigSpec(env: Env, c: ConfigId, s: Store): (r: Step)
    ensures r.outcome == Returned(true) ==> c.clazz in r.store.configurations
    ensures r.outcome == Returned(false) ==> env.defaults(c.clazz).None? && r.store.configurations == s.configurations
    ensures r.outcome == Threw ==> r.store.configurations == s.configurations
    ensures forall k :: k != c.clazz ==> (k in r.store.configurations <==> k in s.configurations)
    ensures forall k :: k != c.clazz && k in s.configurations ==> r.store.configurations[k] == s.configurations[k]
  {
    var files := Prepared(env, c, s.files);
    var s1 := Store(s.configurations, files);
    match files[c.fileName]
    case Unreadable => Step(Threw, s1)
    case Readable(t) =>
      match CheckVersion(c, t)
      case UpToDate => MapOrDefaults(env, c, t, s1)
      case Migratable(v) =>
        var updated := env.transform(c.updater.value)(t);
        if updated.version == t.version then
          // the updater did not move the version: nothing is written, and it is still not current
          MinimalDefaults(env, c, s1)
        else
          (match SaveMigrated(env, c, t, updated, files)
           case Failed(partial) => Step(Threw, Store(s.configurations, partial))
           case Saved(written) =>
             var s2 := Store(s.configurations, written);
             if updated.version == Some(c.version) then MapOrDefaults(env, c, updated, s2)
             else MinimalDefaults(env, c, s2))
      case _ => MinimalDefaults(env, c, s1)
  }

  /**
    One iteration of `load`: `loadConfig`, with an `IOException` caught and answered
    by the defaults. An id fails only when its class has no default; a success
    leaves an object under the id's class; no other class is touched.
   */
  function LoadOne(env: Env, c: ConfigId, s: Store): (r: (bool, Store))
    ensures r.0 ==> c.clazz in r.1.configurations
    ensures !r.0 ==> env.defaults(c.clazz).None? && r.1.configurations == s.configurations
    ensures forall k :: k != c.clazz ==> (k in r.1.configurations <==> k in s.configurations)
    ensures forall k :: k != c.clazz && k in s.configurations ==> r.1.configurations[k] == s.configurations[k]
    ensures LoadConfigSpec(env, c, s).outcome == Threw ==>
              && (r.0 <==> env.defaults(c.clazz).Some?)
              && (r.0 ==> r.1.configurations == s.configurations[c.clazz := env.defaults(c.clazz).value])
              && r.1.files == LoadConfigSpec(env, c, s).store.files
  {
    var step := LoadConfigSpec(env, c, s);
    match step.outcome
    case Returned(ok) => (ok, step.store)
    case Threw =>
      var d := MinimalDefaults(env, c, step.store);
      (d.outcome.ok, d.store)
  }

  /** Every id of `order` has an object stored under its class. */
  predicate EveryClassStored(order: seq<ConfigId>, s: Store) {
    forall c :: c in order ==> c.clazz in s.configurations
  }

  /** Some id of `order` names a class that has no usable default. */
  predicate SomeClassWithoutDefault(env: Env, order: seq<ConfigId>) {
    exists c :: c in order && env.defaults(c.clazz).None?
  }

  /** No class stored in `s` is missing from `s'`. */
  predicate KeepsStoredClasses(s: Store, s': Store) {
    forall k :: k in s.configurations ==> k in s'.configurations
  }

  /** `load` over the ids in iteration order: stop at the first id that gets no object. */
  function LoadAll(env: Env, order: seq<ConfigId>, s: Store): (r: (bool, Store))
    ensures r.0 ==> EveryClassStored(order, r.1)
    ensures !r.0 ==> SomeClassWithoutDefault(env, order)
    ensures KeepsStoredClasses(s, r.1)
  {
    if order == [] then (true, s)
    else
      var (ok, s1) := LoadOne(env, order[0], s);
      if !ok then (false, s1) else LoadAll(env, order[1..], s1)
  }

  predicate Distinct(order: seq<ConfigId>) {
    forall i, j :: 0 <= i < j < |order| ==> order[i] != order[j]
  }

  /** `order` lists every element of `ids` exactly once. */
  ghost predicate Enumerates(order: seq<ConfigId>, ids: set<ConfigId>) {
    Distinct(order) && forall x :: x in order <==> x in ids
  }

  /** Some enumeration of a set, standing for a `HashSet`'s unspecified iteration order. */
  ghost function Enumerate(ids: set<ConfigId>): (r: seq<ConfigId>)
    ensures Enumerates(r, ids)
    decreases ids
  {
    if ids == {} then []
    else
      var x :| x in ids;
      var rest := Enumerate(ids - {x});
      EnumeratesExtend([], x, rest, {}, ids - {x});
      assert [] + [x] + rest == [x] + rest;
      assert {} + {x} + (ids - {x}) == ids;
      [x] + rest
  }

  /** Two enumerations of disjoint sets, with a new element between them, enumerate the union. */
  lemma EnumeratesExtend(done: seq<ConfigId>, id: ConfigId, rest: seq<ConfigId>, a: set<ConfigId>, b: set<ConfigId>)
    requires Enumerates(done, a) && Enumerates(rest, b)
    requires id !in a && id !in b && a !! b
    ensures Enumerates(done + [id] + rest, a + {id} + b)
  {
    var r := done + [id] + rest;
    forall i, j | 0 <= i < j < |r| ensures r[i] != r[j] {
      if j < |done| {
      } else if j == |done| {
        assert r[i] in done;
      } else if i < |done| {
        assert r[j] in rest;
        assert r[i] in done;
      } else if i == |done| {
        assert r[j] in rest;
      } else {
        assert r[i] == rest[i - |done| - 1] && r[j] == rest[j - |done| - 1];
      }
    }
    assert forall x :: x in r <==> x in done || x == id || x in rest;
  }

  // ---------------------------------------------------------------------------
  // Properties of a single load

  /** A tree without the version key is never mapped: the id falls back, touching only the copied-in file. */
  lemma UnversionedFallsBack(env: Env, c: ConfigId, s: Store)
    requires var f := Prepared(env, c, s.files); f[c.fileName].Readable? && f[c.fileName].tree.version.None?
    ensures LoadConfigSpec(env, c, s) == MinimalDefaults(env, c, Store(s.configurations, Prepared(env, c, s.files)))
  {
  }

  /**
    A file YAML cannot read makes `loadConfig` throw its `IOException` with the
    configurations untouched; `load` then stores exactly the class's default.
   */
  lemma UnreadableFallsBack(env: Env, c: ConfigId, s: Store)
    requires Prepared(env, c, s.files)[c.fileName].Unreadable?
    ensures LoadConfigSpec(env, c, s) == Step(Threw, Store(s.configurations, Prepared(env, c, s.files)))
    ensures LoadOne(env, c, s).0 <==> env.defaults(c.clazz).Some?
    ensures LoadOne(env, c, s).0 ==>
              LoadOne(env, c, s).1.configurations == s.configurations[c.clazz := env.defaults(c.clazz).value]
  {
  }

  /**
    A migration whose backup or updated file cannot be saved makes `loadConfig`
    throw; `load` then stores exactly the class's default.
   */
  lemma FailedSaveFallsBack(env: Env, c: ConfigId, s: Store)
    requires var f := Prepared(env, c, s.files);
      && f[c.fileName].Readable? && CheckVersion(c, f[c.fileName].tree).Migratable?
      && env.transform(c.updater.value)(f[c.fileName].tree).version != f[c.fileName].tree.version
    requires BackupName(c.fileName) in env.readOnly || c.fileName in env.readOnly
    ensures LoadConfigSpec(env, c, s).outcome == Threw
    ensures LoadConfigSpec(env, c, s).store.configurations == s.configurations
    ensures LoadOne(env, c, s).0 <==> env.defaults(c.clazz).Some?
    ensures LoadOne(env, c, s).0 ==>
              LoadOne(env, c, s).1.configurations == s.configurations[c.clazz := env.defaults(c.clazz).value]
  {
  }

  /**
    A tree at the current version runs no updater and writes no file; its mapped
    object is stored under the id's class, overwriting any earlier value.
   */
  lemma UpToDateIsMapped(env: Env, c: ConfigId, s: Store)
    requires var f := Prepared(env, c, s.files); f[c.fileName].Readable? && f[c.fileName].tree.version == Some(c.version)
    ensures var f := Prepared(env, c, s.files);
            var r := LoadConfigSpec(env, c, s);
            && r.store.files == f
            && (env.mapper(c.clazz, f[c.fileName].tree).Some? ==>
                  r == Step(Returned(true), Store(s.configurations[c.clazz := env.mapper(c.clazz, f[c.fileName].tree).value], f)))
            && (env.mapper(c.clazz, f[c.fileName].tree).None? ==>
                  r == MinimalDefaults(env, c, Store(s.configurations, f)))
  {
  }

  /**
    A version mismatch with no updater, or with a version outside
    `[minimumVersion, version]`, falls back without writing any file.
   */
  lemma MismatchFallsBack(env: Env, c: ConfigId, s: Store)
    requires var f := Prepared(env, c, s.files);
      && f[c.fileName].Readable? && f[c.fileName].tree.version.Some?
      && var v := f[c.fileName].tree.version.value;
         v != c.version && (c.updater.None? || v < c.minimumVersion || v > c.version)
    ensures LoadConfigSpec(env, c, s) == MinimalDefaults(env, c, Store(s.configurations, Prepared(env, c, s.files)))
    ensures LoadConfigSpec(env, c, s).store.files == Prepared(env, c, s.files)
  {
  }

  /**
    During a migration the backup holding the pre-update tree and the updated
    primary file are written if and only if the updater moved the version.
   */
  lemma MigrationWritesIffVersionMoved(env: Env, c: ConfigId, s: Store)
    requires var f := Prepared(env, c, s.files);
      f[c.fileName].Readable? && CheckVersion(c, f[c.fileName].tree).Migratable?
    requires BackupName(c.fileName) !in env.readOnly && c.fileName !in env.readOnly
    ensures var f := Prepared(env, c, s.files);
            var t := f[c.fileName].tree;
            var updated := env.transform(c.updater.value)(t);
            var files' := LoadConfigSpec(env, c, s).store.files;
            && (updated.version != t.version ==>
                  files' == f[BackupName(c.fileName) := Readable(t)][c.fileName := Readable(updated)])
            && (updated.version == t.version ==> files' == f)
  {
  }

  /**
    A migration counts only when the updated version is the current one; otherwise
    the id falls back to the defaults even though the files were already written.
   */
  lemma IncompleteMigrationFallsBack(env: Env, c: ConfigId, s: Store)
    requires var f := Prepared(env, c, s.files);
      f[c.fileName].Readable? && CheckVersion(c, f[c.fileName].tree).Migratable?
    requires BackupName(c.fileName) !in env.readOnly && c.fileName !in env.readOnly
    ensures var f := Prepared(env, c, s.files);
            var t := f[c.fileName].tree;
            var updated := env.transform(c.updater.value)(t);
            var r := LoadConfigSpec(env, c, s);
            && (updated.version != Some(c.version) ==>
                  r == MinimalDefaults(env, c, Store(s.configurations, r.store.files)))
            && (updated.version == Some(c.version) && env.mapper(c.clazz, updated).Some? ==>
                  r.outcome == Returned(true) && r.store.configurations[c.clazz] == env.mapper(c.clazz, updated).value)
            && (updated.version == Some(c.version) && env.mapper(c.clazz, updated).None? ==>
                  r == MinimalDefaults(env, c, Store(s.configurations, r.store.files)))
  {
  }


  // ---------------------------------------------------------------------------
  // Properties of the whole batch

  /** Loading `a` then `b` is loading `a + b`; a failure inside `a` skips all of `b`. */
  lemma {:induction false} LoadAllAppend(env: Env, a: seq<ConfigId>, b: seq<ConfigId>, s: Store)
    ensures LoadAll(env, a + b, s)
         == (var (ok, s1) := LoadAll(env, a, s); if ok then LoadAll(env, b, s1) else (false, s1))
  {
    if a == [] {
      assert a + b == b;
    } else {
      assert (a + b)[0] == a[0];
      assert (a + b)[1..] == a[1..] + b;
      var (ok, s1) := LoadOne(env, a[0], s);
      if ok {
        LoadAllAppend(env, a[1..], b, s1);
      }
    }
  }

  /**
    `load` returns false exactly at the first id that gets no object: when every id
    before position `k` succeeded and id `k` fails, the ids after it are never loaded.
   */
  lemma LoadAllStopsAtFirstFailure(env: Env, order: seq<ConfigId>, s: Store, k: nat)
    requires k < |order| && LoadAll(env, order[..k], s).0
    requires !LoadOne(env, order[k], LoadAll(env, order[..k], s).1).0
    ensures LoadAll(env, order, s) == (false, LoadOne(env, order[k], LoadAll(env, order[..k], s).1).1)
    ensures env.defaults(order[k].clazz).None?
  {
    assert order == order[..k] + order[k..];
    LoadAllAppend(env, order[..k], order[k..], s);
    assert order[k..][0] == order[k];
  }

  // ---------------------------------------------------------------------------
  // The manager object

  class ConfigManager {
    const env: Env
    /** The registered ids (a `HashSet`). */
    var identifiers: set<ConfigId>
    /** The loaded objects, keyed by class. */
    var configurations: map<ClassId, Configuration>
    /** The configuration directory. */
    var files: map<string, FileContent>

    function State(): Store
      reads this
    {
      Store(configurations, files)
    }

    constructor (env: Env, files: map<string, FileContent>)
      ensures this.env == env && this.files == files
      ensures identifiers == {} && configurations == map[]
    {
      this.env := env;
      this.files := files;
      identifiers := {};
      configurations := map[];
    }

    /** `register`: a set insert, so registering an id twice keeps one entry. */
    method Register(id: ConfigId)
      modifies this`identifiers
      ensures identifiers == old(identifiers) + {id}
    {
      identifiers := identifiers + {id};
    }

    /** `getConfig`: nothing for a class not stored yet, the stored object otherwise. */
    function GetConfig(clazz: ClassId): (r: Option<Configuration>)
      reads this
      ensures r.None? <==> clazz !in configurations
      ensures r.Some? ==> r.value == configurations[clazz]
    {
      if clazz in configurations then Some(configurations[clazz]) else None
    }

    /** Save a tree to a file; saving to a read-only file throws and writes nothing. */
    method Save(name: string, t: Tree) returns (ok: bool)
      modifies this`files
      ensures ok <==> name !in env.readOnly
      ensures files == if ok then old(files)[name := Readable(t)] else old(files)
    {
      ok := name !in env.readOnly;
      if ok {
        files := files[name := Readable(t)];
      }
    }

    /** `useMinimalDefaults`. */
    method UseMinimalDefaults(c: ConfigId) returns (ok: bool)
      modifies this`configurations
      ensures Step(Returned(ok), State()) == MinimalDefaults(env, c, old(State()))
    {
      var instance := env.defaults(c.clazz);
      if instance.None? {
        return false;
      }
      configurations := configurations[c.clazz := instance.value];
      return true;
    }

    /** `loadConfig`: read, check and possibly migrate the version, then map or fall back. */
    method LoadConfig(c: ConfigId) returns (out: Outcome)
      modifies this`configurations, this`files
      ensures Step(out, State()) == LoadConfigSpec(env, c, old(State()))
    {
      if c.fileName !in files {
        files := files[c.fileName := env.resource(c.fileName)];
      }
      assert files == Prepared(env, c, old(files));
      var content := files[c.fileName];
      if content.Unreadable? {
        return Threw;
      }
      var nodes := content.tree;
      var correctVersion := true;
      if nodes.version.Some? {
        var currentVersion := nodes.version.value;
        if currentVersion != c.version {
          if c.updater.None? {
            correctVersion := false;
          } else if currentVersion < c.minimumVersion || currentVersion > c.version {
            correctVersion := false;
          } else {
            var copy := nodes;
            var startVersion := nodes.version;
            nodes := env.transform(c.updater.value)(nodes);
            var endVersion := nodes.version;
            if startVersion != endVersion {
              var saved := Save(BackupName(c.fileName), copy);
              if !saved {
                return Threw;
              }
              saved := Save(c.fileName, nodes);
              if !saved {
                return Threw;
              }
            }
            if endVersion != Some(c.version) {
              correctVersion := false;
            }
          }
        }
      } else {
        correctVersion := false;
      }

      var mapped: Option<Configuration> := None;
      if correctVersion {
        mapped := env.mapper(c.clazz, nodes);
      }
      if mapped.None? {
        var ok := UseMinimalDefaults(c);
        return Returned(ok);
      }
      configurations := configurations[c.clazz := mapped.value];
      return Returned(true);
    }

    /** The body of `load`'s loop: `loadConfig`, with an `IOException` answered by the defaults. */
    method LoadOneCaught(id: ConfigId) returns (loaded: bool)
      modifies this`configurations, this`files
      ensures (loaded, State()) == LoadOne(env, id, old(State()))
    {
      var result := LoadConfig(id);
      match result {
        case Returned(b) =>
          loaded := b;
        case Threw =>
          loaded := UseMinimalDefaults(id);
      }
    }

    /**
      `load`: every registered id in the set's (unspecified) iteration order, which
      `order` records; an `IOException` from one id is answered by its defaults, and
      the first id that gets no object ends the batch with false.
     */
    method Load() returns (ok: bool, ghost order: seq<ConfigId>)
      modifies this`configurations, this`files
      ensures Enumerates(order, identifiers)
      ensures (ok, State()) == LoadAll(env, order, old(State()))
    {
      ghost var start := State();
      var remaining := identifiers;
      ghost var done: seq<ConfigId> := [];
      while remaining != {}
        invariant remaining <= identifiers
        invariant Enumerates(done, identifiers - remaining)
        invariant LoadAll(env, done, start) == (true, State())
        decreases remaining
      {
        var id :| id in remaining;
        ghost var seen := identifiers - remaining;
        remaining := remaining - {id};
        assert seen + {id} + remaining == identifiers && seen + {id} == identifiers - remaining;
        ghost var before := State();
        var loaded := LoadOneCaught(id);
        ghost var rest := Enumerate(remaining);
        LoadStep(env, done, id, rest, seen, remaining, identifiers, start, before, loaded, State());
        if !loaded {
          order := done + [id] + rest;
          ok := false;
          return;
        }
        done := done + [id];
      }
      assert identifiers - remaining == identifiers;
      order := done;
      ok := true;
    }
  }

  /**
    One iteration of `load`'s loop: after the ids `done` (enumerating `seen`) all
    succeeded, `id` is loaded; on success the prefix grows by `id`, on failure the
    batch over `done`, `id` and any enumeration of the rest ends there.
   */
  lemma LoadStep(env: Env, done: seq<ConfigId>, id: ConfigId, rest: seq<ConfigId>,
                 seen: set<ConfigId>, remaining: set<ConfigId>, ids: set<ConfigId>,
                 start: Store, before: Store, ok: bool, after: Store)
    requires Enumerates(done, seen) && Enumerates(rest, remaining)
    requires id !in seen && id !in remaining && seen !! remaining && seen + {id} + remaining == ids
    requires LoadAll(env, done, start) == (true, before) && (ok, after) == LoadOne(env, id, before)
    ensures ok ==> Enumerates(done + [id], seen + {id}) && LoadAll(env, done + [id], start) == (true, after)
    ensures !ok ==> Enumerates(done + [id] + rest, ids) && LoadAll(env, done + [id] + rest, start) == (false, after)
  {
    LoadAllExtend(env, done, id, rest, start);
    if ok {
      EnumeratesExtend(done, id, [], seen, {});
      assert done + [id] + [] == done + [id] && seen + {id} + {} == seen + {id};
    } else {
      EnumeratesExtend(done, id, rest, seen, remaining);
    }
  }

  /** One more id after a successful prefix: it is loaded from the prefix's store, and a failure ends the batch. */
  lemma LoadAllExtend(env: Env, done: seq<ConfigId>, id: ConfigId, rest: seq<ConfigId>, s: Store)
    requires LoadAll(env, done, s).0
    ensures LoadAll(env, done + [id], s) == LoadOne(env, id, LoadAll(env, done, s).1)
    ensures !LoadOne(env, id, LoadAll(env, done, s).1).0 ==>
              LoadAll(env, done + [id] + rest, s) == LoadOne(env, id, LoadAll(env, done, s).1)
  {
    LoadAllAppend(env, done, [id], s);
    assert [id][1..] == [];
    LoadAllAppend(env, done + [id], rest, s);
  }
}
