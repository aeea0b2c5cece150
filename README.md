# CrossplatForms core, modelled in Dafny

This project models three parts of the CrossplatForms plugin, a Minecraft server plugin that gives Bedrock and Java players forms and menus:

- **`ConfigManager`** (`config_manager.dfy`, module `Configs`). It loads every registered configuration file into a typed object. On the way it checks the file's `config-version` against the id's current and minimum versions and may run the id's versioned updater. When the version moved, it writes a backup `old_<file>` and then the updated file. When no object can be mapped, it falls back to a default instance of the class ("minimal defaults"). `load` stops at the first id that gets no object at all.
- **`PrettyPrinter`** (`pretty_printer.dfy`, module `PrettyPrinting`). It renders a configuration node tree as indented `key: value` text, then trims the result as Java's `String.trim` does. The recursive rendering is given as functions. A reference layout (one `Line` per node, in pre-order, at its depth) is proved to produce the same text. The `StringBuilder`-based methods are proved to append exactly that text.
- **`CommonMenuListeners`** (`menu_listeners.dfy`, module `MenuListeners`). These are the event rules for access items, the item stacks that open a form:
  - a right click with one cancels the event and opens the item's form;
  - an inventory click on one is cancelled exactly when the item may not move;
  - a drop is cancelled when the item may not be dropped, and the dropped entity is destroyed when it may be dropped but its item says so.
  
  On join, every stack that carries an access-item id is removed from the player's inventory. Each on-join access item is then placed in its slot. When the desired slot is occupied, its stack moves to the first free slot i with 0 <= i < min(10, desired slot), a range that reaches slot 9 just outside the hotbar. The player then holds the slot of the first item placed. Bukkit's `setHeldItemSlot` accepts only the hotbar slots 0 to 8. For any other slot it throws, which ends the handler: the item stays placed, the held slot is unchanged and later on-join items are not placed.

`wrappers.dfy` holds the `Option` type shared by the three modules.

Collaborators whose code is not part of this model are parameters of the model, held in a `Configs.Env` value:

- the bundled resource copied in for a missing file;
- which files cannot be written;
- each updater's transformation;
- the mapping of a tree to a class (`None` for a `null` result);
- the reflective no-argument constructor (`None` when it throws).

The access-item registry is a `Registry` value: an enabled flag and the items in iteration order.

## Model

Paths below are relative to the repository root.

| member | source | states |
|---|---|---|
| Configs.Prepared | core/src/main/java/dev/projectg/crossplatforms/config/ConfigManager.java:111 | after preparing, the id's file exists; every existing file keeps its content; no other file appears |
| Configs.CheckVersion | core/src/main/java/dev/projectg/crossplatforms/config/ConfigManager.java:116-125 | a tree is up to date iff its version equals the id's version; unversioned iff it has no version key; migratable iff versioned, not current, the id has an updater and minimumVersion <= found <= version |
| Configs.MinimalDefaults | core/src/main/java/dev/projectg/crossplatforms/config/ConfigManager.java:167-180 | the fallback returns true iff the class has a default; it then stores exactly that default under the class; otherwise nothing changes; files are never touched |
| Configs.MapOrDefaults | core/src/main/java/dev/projectg/crossplatforms/config/ConfigManager.java:148-163 | a non-null mapped object is stored under the class and true is returned; a null mapping is exactly the defaults fallback; files are never touched |
| Configs.SaveMigrated | core/src/main/java/dev/projectg/crossplatforms/config/ConfigManager.java:131-134 | the backup `old_<file>` is written first and holds the pre-update tree; the primary file holds the updated tree only when both saves succeed; a failed save leaves the primary file as it was; no other file changes |
| Configs.LoadConfigSpec | core/src/main/java/dev/projectg/crossplatforms/config/ConfigManager.java:110-164 | loadConfig touches no class but its own; it returns true only with an object stored under the class, returns false only when the class has no default (storing nothing), and an IOException leaves the configurations unchanged |
| Configs.LoadOne | core/src/main/java/dev/projectg/crossplatforms/config/ConfigManager.java:83-100 | one id fails only when its class has no default, and then stores nothing; a success leaves an object under the id's class; no other class's entry changes; when loadConfig throws, the id succeeds iff its class has a default and then stores exactly that default |
| Configs.Enumerate | core/src/main/java/dev/projectg/crossplatforms/config/ConfigManager.java:82 | some duplicate-free enumeration of the registered ids exists, standing for the HashSet iteration order |
| Configs.LoadAll | core/src/main/java/dev/projectg/crossplatforms/config/ConfigManager.java:82-103 | load over the ids in iteration order: true leaves an object under every id's class; false means some id's class has no usable default; no class stored before is lost |
| Configs.UnversionedFallsBack | core/src/main/java/dev/projectg/crossplatforms/config/ConfigManager.java:143-146 | a tree without a version key is never mapped; the id falls back to the defaults |
| Configs.UnreadableFallsBack | core/src/main/java/dev/projectg/crossplatforms/config/ConfigManager.java:86-113 | a file YAML cannot read makes loadConfig throw with the configurations untouched; load then succeeds iff the class has a default and stores exactly it |
| Configs.FailedSaveFallsBack | core/src/main/java/dev/projectg/crossplatforms/config/ConfigManager.java:86-132 | a migration whose backup or updated file cannot be saved makes loadConfig throw with the configurations untouched; load then succeeds iff the class has a default and stores exactly it |
| Configs.UpToDateIsMapped | core/src/main/java/dev/projectg/crossplatforms/config/ConfigManager.java:148-163 | a tree at the current version writes no file; a non-null mapped object is stored under the class (replacing any earlier one) and true is returned; a null mapping stores nothing mapped and is the defaults fallback |
| Configs.MismatchFallsBack | core/src/main/java/dev/projectg/crossplatforms/config/ConfigManager.java:118-124 | a wrong version with no updater, or outside [minimumVersion, version], falls back to the defaults and writes nothing |
| Configs.MigrationWritesIffVersionMoved | core/src/main/java/dev/projectg/crossplatforms/config/ConfigManager.java:126-134 | during a migration in which neither old_<file> nor the file is read-only, the backup holding the pre-update tree and the updated file are written iff the updater changed the version; otherwise no file changes (a read-only file makes the save throw, see FailedSaveFallsBack) |
| Configs.IncompleteMigrationFallsBack | core/src/main/java/dev/projectg/crossplatforms/config/ConfigManager.java:135-163 | when neither old_<file> nor the file is read-only: an update that does not reach the current version falls back to the defaults; one that does stores the mapped object and returns true, or falls back when the mapping is null (a read-only file makes the save throw, see FailedSaveFallsBack) |
| Configs.LoadAllAppend | core/src/main/java/dev/projectg/crossplatforms/config/ConfigManager.java:82-103 | loading a+b is loading a, then b only if a succeeded |
| Configs.LoadAllStopsAtFirstFailure | core/src/main/java/dev/projectg/crossplatforms/config/ConfigManager.java:84-99 | when id k is the first to fail, load returns false with the state right after id k; later ids are never loaded; id k's class has no default |
| Configs.LoadAllExtend | core/src/main/java/dev/projectg/crossplatforms/config/ConfigManager.java:82-101 | after a successful prefix the next id is loaded from the prefix's state; if it fails, the ids after it change nothing |
| Configs.LoadStep | core/src/main/java/dev/projectg/crossplatforms/config/ConfigManager.java:82-101 | one loop iteration: after a successful prefix, a success extends the prefix by the id; a failure ends the batch with false whatever ids remain |
| Configs.ConfigManager.constructor | core/src/main/java/dev/projectg/crossplatforms/config/ConfigManager.java:38-46 | a new manager has no registered ids and no configurations |
| Configs.ConfigManager.Register | core/src/main/java/dev/projectg/crossplatforms/config/ConfigManager.java:63-65 | registering inserts into the id set; registering twice keeps one entry |
| Configs.ConfigManager.GetConfig | core/src/main/java/dev/projectg/crossplatforms/config/ConfigManager.java:72-74 | empty iff the class has no stored object, otherwise that object |
| Configs.ConfigManager.Save | core/src/main/java/dev/projectg/crossplatforms/config/ConfigManager.java:132-133 | saving succeeds iff the file is writable, and then replaces exactly that file |
| Configs.ConfigManager.UseMinimalDefaults | core/src/main/java/dev/projectg/crossplatforms/config/ConfigManager.java:167-180 | result and new configurations are those of MinimalDefaults |
| Configs.ConfigManager.LoadConfig | core/src/main/java/dev/projectg/crossplatforms/config/ConfigManager.java:110-164 | outcome (value or IOException) and new state equal the version-check / migrate / map-or-fallback specification LoadConfigSpec |
| Configs.ConfigManager.LoadOneCaught | core/src/main/java/dev/projectg/crossplatforms/config/ConfigManager.java:83-100 | one loop iteration, with the IOException caught, matches LoadOne |
| Configs.ConfigManager.Load | core/src/main/java/dev/projectg/crossplatforms/config/ConfigManager.java:81-103 | there is a duplicate-free order of exactly the registered ids under which the result and the final state are LoadAll's (stop at the first failure) |
| PrettyPrinting.Repeat | core/src/main/java/dev/projectg/crossplatforms/config/PrettyPrinter.java:109-111 | String.repeat: length n·|s|, made of s's characters |
| PrettyPrinting.RepeatIsCopies | core/src/main/java/dev/projectg/crossplatforms/config/PrettyPrinter.java:109-111 | String.repeat yields n copies of s: it starts with s and repeats itself with period |s| |
| PrettyPrinting.TrimStart | core/src/main/java/dev/projectg/crossplatforms/config/PrettyPrinter.java:41 | a suffix of s whose removed prefix is all blank (chars <= ' ') and that does not start with a blank |
| PrettyPrinting.TrimEnd | core/src/main/java/dev/projectg/crossplatforms/config/PrettyPrinter.java:41 | a prefix of s whose removed suffix is all blank and that does not end with a blank |
| PrettyPrinting.Trim | core/src/main/java/dev/projectg/crossplatforms/config/PrettyPrinter.java:41 | trim keeps a contiguous middle part of the text, drops only blanks on both sides, and neither starts nor ends with a blank |
| PrettyPrinting.TrimIdempotent | core/src/main/java/dev/projectg/crossplatforms/config/PrettyPrinter.java:41 | trimming twice equals trimming once |
| PrettyPrinting.LinesNested | core/src/main/java/dev/projectg/crossplatforms/config/PrettyPrinter.java:91-107 | a node's own line comes first at its depth; all its descendants' lines are strictly deeper |
| PrettyPrinting.ChildLinesDeeper | core/src/main/java/dev/projectg/crossplatforms/config/PrettyPrinter.java:102-106 | children listed at a depth never produce a line shallower than it |
| PrettyPrinting.FromRaw | core/src/main/java/dev/projectg/crossplatforms/config/PrettyPrinter.java:113-119 | a null raw value gives the empty string; any other gives the value's text |
| PrettyPrinting.Builder.constructor | core/src/main/java/dev/projectg/crossplatforms/config/PrettyPrinter.java:39 | a new builder is empty |
| PrettyPrinting.Builder.Append | core/src/main/java/dev/projectg/crossplatforms/config/PrettyPrinter.java:70 | append adds the text at the end |
| PrettyPrinting.PrettyPrinter.constructor | core/src/main/java/dev/projectg/crossplatforms/config/PrettyPrinter.java:18-21 | default indentation is 2 spaces |
| PrettyPrinting.PrettyPrinter.WithIndent | core/src/main/java/dev/projectg/crossplatforms/config/PrettyPrinter.java:27-30 | the indentation unit is n spaces |
| PrettyPrinting.PrettyPrinter.Indent | core/src/main/java/dev/projectg/crossplatforms/config/PrettyPrinter.java:109-111 | level·indentSize spaces and nothing else |
| PrettyPrinting.PrettyPrinter.AddPretty | core/src/main/java/dev/projectg/crossplatforms/config/PrettyPrinter.java:60-79 | with the key shown the text starts with `key:`; it is empty only for a collection without children printed without its key; otherwise it ends in a newline |
| PrettyPrinting.PrettyPrinter.AddCollection | core/src/main/java/dev/projectg/crossplatforms/config/PrettyPrinter.java:91-107 | with the key the text starts with the `key:` header line; without it the text is the children's text at the same level; empty iff no header and no children; otherwise newline-terminated |
| PrettyPrinting.PrettyPrinter.ChildrenText | core/src/main/java/dev/projectg/crossplatforms/config/PrettyPrinter.java:102-106 | the children's text is empty iff there are no children; otherwise it starts with the level's indentation and ends in a newline |
| PrettyPrinting.PrettyPrinter.ChildrenTextSnoc | core/src/main/java/dev/projectg/crossplatforms/config/PrettyPrinter.java:102-106 | one more loop iteration appends the child's indentation and rendering |
| PrettyPrinting.PrettyPrinter.ChildrenTextAppend | core/src/main/java/dev/projectg/crossplatforms/config/PrettyPrinter.java:102-106 | children render one after the other: the text of a + b is a's text then b's |
| PrettyPrinting.PrettyPrinter.RenderMatchesLayout | core/src/main/java/dev/projectg/crossplatforms/config/PrettyPrinter.java:60-107 | an indented keyed rendering equals the reference layout: one line per node in pre-order, indented by its depth, ending in a newline |
| PrettyPrinting.PrettyPrinter.CollectionMatchesLayout | core/src/main/java/dev/projectg/crossplatforms/config/PrettyPrinter.java:91-107 | a keyed map or list renders as a `key:` header line followed by its children's layouts one level deeper |
| PrettyPrinting.PrettyPrinter.ChildrenMatchLayout | core/src/main/java/dev/projectg/crossplatforms/config/PrettyPrinter.java:102-106 | the children loop renders exactly the reference layout of the children |
| PrettyPrinting.PrettyPrinter.RootWithoutKey | core/src/main/java/dev/projectg/crossplatforms/config/PrettyPrinter.java:62-99 | without the key, a collection's children are listed at the given level with no header; a virtual node renders as a bare newline; a scalar as its raw value |
| PrettyPrinting.PrettyPrinter.NullRawPrintsLikeVirtual | core/src/main/java/dev/projectg/crossplatforms/config/PrettyPrinter.java:68-119 | a scalar with a null raw value prints exactly like a virtual node with the same key, and like a scalar holding the empty string |
| PrettyPrinting.PrettyPrinter.KeyedCollectionText | core/src/main/java/dev/projectg/crossplatforms/config/PrettyPrinter.java:91-106 | a collection printed with its key is its `key:` header line followed by its children's text one level deeper |
| PrettyPrinting.PrettyPrinter.AddPrettyTo | core/src/main/java/dev/projectg/crossplatforms/config/PrettyPrinter.java:60-79 | addPretty appends exactly AddPretty's text to the builder |
| PrettyPrinting.PrettyPrinter.AddCollectionTo | core/src/main/java/dev/projectg/crossplatforms/config/PrettyPrinter.java:91-100 | addCollection appends the optional header and then the children's text at the right level |
| PrettyPrinting.PrettyPrinter.AddChildrenTo | core/src/main/java/dev/projectg/crossplatforms/config/PrettyPrinter.java:102-106 | the children loop appends each child in order, after its indentation, exactly as ChildrenText |
| PrettyPrinting.PrettyPrinter.Pretty | core/src/main/java/dev/projectg/crossplatforms/config/PrettyPrinter.java:38-42 | pretty(node, showKey) is the trimmed level-0 rendering |
| PrettyPrinting.PrettyPrinter.PrettyOf | core/src/main/java/dev/projectg/crossplatforms/config/PrettyPrinter.java:50-52 | pretty(node) shows the key exactly when the node has one |
| PrettyPrinting.PrettyPrinter.PrettyScalar | core/src/main/java/dev/projectg/crossplatforms/config/PrettyPrinter.java:38-42 | a keyed scalar whose key is non-empty and does not start with a blank, and whose value is non-empty and does not end with a blank, prints as `key: value` once trimmed (otherwise trim also strips those blanks) |
| MenuListeners.FindById | src/main/java/dev/projectg/geyserhub/module/menu/CommonMenuListeners.java:39-40 | the first registered access item with the id, or none when no registered item has it |
| MenuListeners.GetAccessItem | src/main/java/dev/projectg/geyserhub/module/menu/CommonMenuListeners.java:39-40 | finds a registered access item whose id the stack carries; finds nothing only when the stack has no id or no registered item has it |
| MenuListeners.StripAccessItems | src/main/java/dev/projectg/geyserhub/module/menu/CommonMenuListeners.java:92-102 | every slot holding a stack with an access-item id becomes empty; every other slot is unchanged |
| MenuListeners.RemoveAll | src/main/java/dev/projectg/geyserhub/module/menu/CommonMenuListeners.java:100 | after Inventory.remove every slot that held the removed stack is empty, and slots holding anything else are unchanged |
| MenuListeners.FirstEmptyFrom | src/main/java/dev/projectg/geyserhub/module/menu/CommonMenuListeners.java:118-125 | the first free slot (empty or air) in the searched range, or none when every slot there is occupied |
| MenuListeners.PlaceAccessItem | src/main/java/dev/projectg/geyserhub/module/menu/CommonMenuListeners.java:107-127 | a free desired slot takes the item; otherwise the occupant moves to the first free slot below min(10, desired slot) and the item takes the desired slot; with no such slot nothing changes and placement fails |
| MenuListeners.PlaceAll | src/main/java/dev/projectg/geyserhub/module/menu/CommonMenuListeners.java:104-134 | placing the on-join items keeps the inventory size; the held slot ends unchanged or at the hotbar slot of an on-join item |
| MenuListeners.OnJoin | src/main/java/dev/projectg/geyserhub/module/menu/CommonMenuListeners.java:85-135 | with the registry disabled nothing changes; otherwise the only stacks carrying an access-item id afterwards are on-join items' stacks, and the held slot is unchanged or an on-join item's hotbar slot |
| MenuListeners.RemovingTaggedStacksStrips | src/main/java/dev/projectg/geyserhub/module/menu/CommonMenuListeners.java:93-102 | removing the snapshot's tagged stacks one at a time empties exactly the slots whose stack is tagged and already seen |
| MenuListeners.HeldSlotSetOnce | src/main/java/dev/projectg/geyserhub/module/menu/CommonMenuListeners.java:128-132 | once the held slot has been set, later placements never change it and nothing throws |
| MenuListeners.FirstSuccessIsHeld | src/main/java/dev/projectg/geyserhub/module/menu/CommonMenuListeners.java:104-132 | after skipped items and items that found no room, the first item placed decides: a hotbar slot becomes the held slot; a slot outside the hotbar throws, ending the join with that item placed and the held slot unchanged |
| MenuListeners.NothingPlacedKeepsHeld | src/main/java/dev/projectg/geyserhub/module/menu/CommonMenuListeners.java:104-133 | when no on-join item can be placed, the inventory and held slot stay as they were and nothing throws |
| MenuListeners.PlaceKeepsOnlyJoinStacks | src/main/java/dev/projectg/geyserhub/module/menu/CommonMenuListeners.java:107-127 | placing an on-join item adds no stack carrying an access-item id except its own |
| MenuListeners.PlaceAllKeepsOnlyJoinStacks | src/main/java/dev/projectg/geyserhub/module/menu/CommonMenuListeners.java:104-134 | the placement loop adds no stack carrying an access-item id except on-join items' stacks |
| MenuListeners.PlacementKeepsItems | src/main/java/dev/projectg/geyserhub/module/menu/CommonMenuListeners.java:116-126 | placement never loses a real stack: occupied slots other than the desired one keep their stack, and the displaced occupant is still in the inventory |
| MenuListeners.PlayerInventory.Remove | src/main/java/dev/projectg/geyserhub/module/menu/CommonMenuListeners.java:100 | the array afterwards is RemoveAll of its old contents |
| MenuListeners.PlayerInventory.SetHeldItemSlot | src/main/java/dev/projectg/geyserhub/module/menu/CommonMenuListeners.java:130 | setting the held slot succeeds iff the slot is a hotbar slot (0 to 8) and then sets it; otherwise it throws and the held slot stays |
| MenuListeners.CommonMenuListeners.constructor | src/main/java/dev/projectg/geyserhub/module/menu/CommonMenuListeners.java:24-28 | the listener keeps the registry it is given |
| MenuListeners.CommonMenuListeners.OnInteract | src/main/java/dev/projectg/geyserhub/module/menu/CommonMenuListeners.java:31-49 | a form is sent iff the registry is enabled, the click is a right click (air or block) and the held stack is a registered access item; the form is that item's form; the event is cancelled exactly when a form is sent (or already was) |
| MenuListeners.CommonMenuListeners.OnInventoryClick | src/main/java/dev/projectg/geyserhub/module/menu/CommonMenuListeners.java:52-65 | clicking a registered access item sets cancelled to !allowMove; any other click, or a disabled registry, leaves the event alone |
| MenuListeners.CommonMenuListeners.OnPlayerDropItem | src/main/java/dev/projectg/geyserhub/module/menu/CommonMenuListeners.java:68-82 | a drop ends cancelled iff it was already cancelled or it is an access item that may not be dropped; the dropped entity ends removed iff it already was or it is an access item that may be dropped with destroyDropped set; the access-item cases apply only while the registry is enabled |
| MenuListeners.CommonMenuListeners.RemoveAccessItems | src/main/java/dev/projectg/geyserhub/module/menu/CommonMenuListeners.java:93-102 | removing each tagged stack of a snapshot of the contents empties exactly the slots holding a stack with an access-item id (StripAccessItems) |
| MenuListeners.CommonMenuListeners.PlaceOnJoin | src/main/java/dev/projectg/geyserhub/module/menu/CommonMenuListeners.java:107-127 | the in-place placement (with its search loop and break) produces exactly PlaceAccessItem's contents and success |
| MenuListeners.CommonMenuListeners.OnPlayerJoin | src/main/java/dev/projectg/geyserhub/module/menu/CommonMenuListeners.java:85-135 | with the registry disabled nothing changes; otherwise the final inventory, held slot and whether setHeldItemSlot threw are those of stripping every access-id stack and then placing the on-join items in registry order (OnJoin) |

## Left out

- YAML parsing, saving and Configurate's type serializers (`serializers`, the loader builder) are not modelled. A file is an abstract `Tree`: an optional integer version plus opaque entries. A file YAML cannot read is `Unreadable`, which raises the IOException.
- The version key is an `Option<int>`. A version value that is present but not an integer (Configurate's `getInt()` then yields 0) is not distinguished. The updater's `version(nodes)` is taken to be the tree's version key.
- Mapping (`nodes.get(clazz)`) is a parameter function. A `SerializationException` from it is modelled like a `null` result, i.e. the defaults fallback, rather than as an IOException.
- Reflective default construction is a parameter function. Any of its four exceptions is `None`.
- A failing `config.updater.get()` supplier is not modelled. Updater handles always yield their transformation.
- A failing `updater.apply(nodes)` (a `ConfigurateException`, caught by `load` as an IOException) is not modelled: `Env.transform` is total. Its outcome, the class's default stored over the prepared files, equals that of an update that leaves the version unchanged.
- Logging and stack traces are not modelled. They do not affect results.
- Configs.LoadOne: with debug mode off, an IOException whose message is null makes `message.contains` throw a NullPointerException out of `load` (ConfigManager.java line 90), skipping the defaults fallback and the remaining ids. The model treats every IOException as caught and answered by the defaults, and does not model the debug flag or exception messages.
- Configs.ConfigManager.Load: the HashSet iteration order is unspecified, so the order is chosen nondeterministically and only proved to be some duplicate-free enumeration of the registered ids.
- The file system beyond a name-to-content map is not modelled (directories, partial writes inside one `save`).
- PrettyPrinting.PrettyPrinter.WithIndent requires `n >= 0`. Java's `String.repeat` throws on a negative count, and that exception is not modelled.
- PrettyPrinting.PrettyPrinter.PrettyOf decides `showKey` from the node's key rather than from `node.parent()`. The two agree when a node has a parent exactly when it has a key, as the method's own documentation says.
- PrettyPrinting: `raw.toString()` is abstracted as the raw value's text. Map children come in their stored order. Cyclic node graphs cannot be expressed.
- `AccessItemRegistry`, `AccessItem.getItemStack(player)` (placeholder rendering) and `MenuUtils.sendForm` are not part of this model.
  - The registry is a value with an enabled flag and its items in `values()` order.
  - Lookup is by the access-item id stored in the stack, taking the first registered item with that id.
  - The rendered stack is a field of each access item.
  - Sending a form is reported as the form name returned by `OnInteract`.
- Bukkit events and inventories are modelled only as far as the listeners touch them. Events are cancelled and removed flags. An inventory is an array of optional stacks plus a held slot.
- MenuListeners.CommonMenuListeners.OnPlayerJoin requires every on-join item's slot to lie inside the inventory. Bukkit would throw for an out-of-range slot, and that is not modelled.
- MenuListeners.PlayerInventory.SetHeldItemSlot: the hotbar bound 0 to 8 is Bukkit's documented contract for `setHeldItemSlot`, whose code is not part of this model. The thrown `IllegalArgumentException` is modelled only as ending the handler; what Bukkit's event bus does with it (logging) is not modelled.
