/**
  Diagnostic rendering of a configuration node tree as indented `key: value` text
  (the `PrettyPrinter` of the configuration core).

  A node is exactly one of virtual, scalar, map or list; map and list nodes hold
  their children in iteration order, each child carrying its own key.
 */
module PrettyPrinting {
  import opened Wrappers

  /** A configuration node. `key` is `None` for a root node (Java `null`). */
  datatype Node =
    | Virtual(key: Option<string>)
    | Scalar(key: Option<string>, raw: Option<string>)
    | MapNode(key: Option<string>, children: seq<Node>)
    | ListNode(key: Option<string>, children: seq<Node>)
  {
    predicate IsCollection() {
      MapNode? || ListNode?
    }
  }

  /** Java string concatenation prints a `null` key as the text "null". */
  function KeyText(key: Option<string>): string {
    match key
    case None => "null"
    case Some(k) => k
  }

  /** The text of a scalar's raw value; a `null` raw value renders as the empty string. */
  function FromRaw(raw: Option<string>): (r: string)
    ensures raw.None? ==> r == ""
    ensures raw.Some? ==> r == raw.value
  {
    match raw
    case None => ""
    case Some(v) => v
  }

  /** `s` repeated `n` times, as Java's `String.repeat`. */
  function Repeat(s: string, n: nat): (r: string)
    ensures |r| == n * |s|
    ensures forall i :: 0 <= i < |r| ==> r[i] in s
  {
    if n == 0 then "" else s + Repeat(s, n - 1)
  }

  /**
    `Repeat(s, n)` is `n` copies of `s` one after another: it starts with `s` and
    from then on repeats itself with period `|s|`.
   */
  lemma {:induction false} RepeatIsCopies(s: string, n: nat)
    ensures var r := Repeat(s, n); n > 0 ==> r[..|s|] == s
    ensures var r := Repeat(s, n); forall i :: |s| <= i < |r| ==> r[i] == r[i - |s|]
  {
    if n > 0 {
      var r, rest := Repeat(s, n), Repeat(s, n - 1);
      assert r == s + rest;
      RepeatIsCopies(s, n - 1);
      forall i | |s| <= i < |r|
        ensures r[i] == r[i - |s|]
      {
        assert r[i] == rest[i - |s|];
        if i - |s| < |s| {
          assert |rest| > 0;
          assert rest[..|s|] == s;
          assert rest[i - |s|] == s[i - |s|];
        } else {
          assert rest[i - |s|] == rest[i - |s| - |s|];
        }
      }
    }
  }

  /** Characters that Java's `String.trim` removes: every code point up to and including the space. */
  predicate Blank(c: char) {
    c <= ' '
  }

  predicate AllBlank(s: string) {
    forall i :: 0 <= i < |s| ==> Blank(s[i])
  }

  /** `s` without its leading blank characters. */
  function TrimStart(s: string): (r: string)
    ensures |r| <= |s| && r == s[|s| - |r|..]
    ensures AllBlank(s[..|s| - |r|])
    ensures r == [] || !Blank(r[0])
  {
    if s != [] && Blank(s[0]) then
      var r := TrimStart(s[1..]);
      assert s[..|s| - |r|] == [s[0]] + s[1..][..|s[1..]| - |r|];
      r
    else s
  }

  /** `s` without its trailing blank characters. */
  function TrimEnd(s: string): (r: string)
    ensures |r| <= |s| && r == s[..|r|]
    ensures AllBlank(s[|r|..])
    ensures r == [] || !Blank(r[|r| - 1])
  {
    if s != [] && Blank(s[|s| - 1]) then
      var r := TrimEnd(s[..|s| - 1]);
      assert s[|r|..] == s[..|s| - 1][|r|..] + [s[|s| - 1]];
      r
    else s
  }

  /** `r` sits in `s` at `i`, with nothing but blanks before it and after it. */
  predicate BlankFramed(s: string, i: nat, r: string) {
    && i + |r| <= |s| && r == s[i..i + |r|]
    && AllBlank(s[..i]) && AllBlank(s[i + |r|..])
  }

  /** `r` neither starts nor ends with a blank. */
  predicate NoBlankEnds(r: string) {
    r == [] || (!Blank(r[0]) && !Blank(r[|r| - 1]))
  }

  /**
    Java's `String.trim`: what remains is the part of `s` that starts after its
    leading blanks and is followed in `s` by nothing but blanks, and it neither
    starts nor ends with a blank.
   */
  function Trim(s: string): (r: string)
    ensures BlankFramed(s, |s| - |TrimStart(s)|, r)
    ensures NoBlankEnds(r)
  {
    TrimShape(s);
    TrimEnd(TrimStart(s))
  }

  lemma TrimShape(s: string)
    ensures BlankFramed(s, |s| - |TrimStart(s)|, TrimEnd(TrimStart(s)))
    ensures NoBlankEnds(TrimEnd(TrimStart(s)))
  {
    var t := TrimStart(s);
    PrefixOfSuffix(s, |s| - |t|, t, TrimEnd(t));
  }

  /** A prefix `r` of the suffix `t` of `s` starting at `i`, followed in `t` by blanks, sits in `s` at `i`. */
  lemma PrefixOfSuffix(s: string, i: nat, t: string, r: string)
    requires i <= |s| && t == s[i..] && AllBlank(s[..i])
    requires |r| <= |t| && r == t[..|r|] && AllBlank(t[|r|..])
    requires t == [] || !Blank(t[0])
    requires r == [] || !Blank(r[|r| - 1])
    ensures BlankFramed(s, i, r) && NoBlankEnds(r)
  {
    assert t[|r|..] == s[i + |r|..];
    if r != [] {
      assert r[0] == t[0];
    }
  }

  /** Trimming a text twice changes nothing more. */
  lemma TrimIdempotent(s: string)
    ensures Trim(Trim(s)) == Trim(s)
  {
    var r := Trim(s);
    if r != [] {
      assert TrimStart(r) == r;
      assert TrimEnd(r) == r;
    }
  }

  lemma AppendAssoc(x: string, y: string, z: string)
    ensures (x + y) + z == x + (y + z)
  {
  }

  /** Regrouping a concatenation of three texts. */
  lemma ConcatRegroup(a: string, h: string, x: string, p: string, l: string)
    requires p == h + "\n" + x && l == a + h + "\n" + x
    ensures a + p == l
  {
  }

  /** `p` is a prefix of `t`. */
  predicate StartsWith(t: string, p: string) {
    |p| <= |t| && t[..|p|] == p
  }

  /** `t` is a non-empty text whose last character is a newline. */
  predicate NewlineTerminated(t: string) {
    t != [] && t[|t| - 1] == '\n'
  }

  /** The shape of a leaf's text: the optional `key: ` prefix, the value, a newline. */
  lemma LeafShape(k: string, showKey: bool, prefix: string, v: string)
    requires prefix == if showKey then k + ": " else ""
    ensures NewlineTerminated(prefix + v + "\n") && (showKey ==> StartsWith(prefix + v + "\n", k + ":"))
    ensures NewlineTerminated(prefix + "\n") && (showKey ==> StartsWith(prefix + "\n", k + ":"))
  {
    if showKey {
      assert (prefix + v + "\n")[..|k| + 1] == prefix[..|k| + 1];
      assert (prefix + "\n")[..|k| + 1] == prefix[..|k| + 1];
    }
  }

  /** The shape of a collection's text: the optional `key:` header line, then newline-terminated children. */
  lemma CollectionShape(k: string, key: bool, c: string)
    requires c == [] || NewlineTerminated(c)
    ensures var t := (if key then k + ":\n" else "") + c;
      && (key ==> StartsWith(t, k + ":\n"))
      && (!key ==> t == c)
      && (t == [] <==> !key && c == [])
      && (t != [] ==> NewlineTerminated(t))
  {
    var t := (if key then k + ":\n" else "") + c;
    if key {
      assert t[..|k| + 2] == k + ":\n";
    } else {
      assert t == c;
    }
  }

  /** A `key:` header line starts with `key:`. */
  lemma HeaderStartsWithKey(t: string, k: string)
    requires StartsWith(t, k + ":\n")
    ensures StartsWith(t, k + ":")
  {
    assert t[..|k| + 1] == (k + ":\n")[..|k| + 1];
  }

  /** The shape of the children's text: the first child's indentation, then newline-terminated text. */
  lemma ChildShape(ind: string, p: string, rest: string)
    requires NewlineTerminated(p) && (rest == [] || NewlineTerminated(rest))
    ensures StartsWith(ind + p + rest, ind) && NewlineTerminated(ind + p + rest)
  {
    var t := ind + p + rest;
    assert t[..|ind|] == ind;
  }

  /** One output line of the reference layout: its nesting depth and its text without indentation. */
  datatype Line = Line(depth: nat, text: string)

  /** The line a node contributes for itself when its key is shown. */
  function HeaderText(n: Node): string {
    match n
    case Virtual(k) => KeyText(k) + ": "
    case Scalar(k, raw) => KeyText(k) + ": " + FromRaw(raw)
    case MapNode(k, _) => KeyText(k) + ":"
    case ListNode(k, _) => KeyText(k) + ":"
  }

  /**
    Reference layout of a node shown with its key at `depth`: its own line, then
    (for a map or list) the lines of its children one level deeper, in pre-order.
   */
  function Lines(n: Node, depth: nat): seq<Line>
    decreases n, 1
  {
    if n.IsCollection() then [Line(depth, HeaderText(n))] + ChildLines(n.children, depth + 1)
    else [Line(depth, HeaderText(n))]
  }

  function ChildLines(cs: seq<Node>, depth: nat): seq<Line>
    decreases cs, 0
  {
    if cs == [] then [] else Lines(cs[0], depth) + ChildLines(cs[1..], depth)
  }

  /** A node's own line comes first, at its depth; every later line is nested strictly deeper. */
  lemma {:induction false} LinesNested(n: Node, depth: nat)
    ensures |Lines(n, depth)| >= 1 && Lines(n, depth)[0] == Line(depth, HeaderText(n))
    ensures forall j :: 1 <= j < |Lines(n, depth)| ==> Lines(n, depth)[j].depth > depth
    decreases n, 1
  {
    if n.IsCollection() {
      ChildLinesDeeper(n.children, depth + 1);
    }
  }

  lemma {:induction false} ChildLinesDeeper(cs: seq<Node>, depth: nat)
    ensures forall j :: 0 <= j < |ChildLines(cs, depth)| ==> ChildLines(cs, depth)[j].depth >= depth
    decreases cs, 0
  {
    if cs != [] {
      LinesNested(cs[0], depth);
      ChildLinesDeeper(cs[1..], depth);
      var a: seq<Line>, b: seq<Line> := Lines(cs[0], depth), ChildLines(cs[1..], depth);
      forall j | 0 <= j < |a + b| ensures (a + b)[j].depth >= depth {
        if j >= |a| {
          assert (a + b)[j] == b[j - |a|];
        }
      }
    }
  }

  /** A string builder: the text appended so far. */
  class Builder {
    var text: string

    constructor ()
      ensures text == ""
    {
      text := "";
    }

    method Append(s: string)
      modifies this
      ensures text == old(text) + s
    {
      text := text + s;
    }
  }

  /** Renders nodes with a fixed indentation unit. */
  class PrettyPrinter {
    const indentSize: int
    const indent: string

    /** The indentation unit is `indentSize` spaces. */
    ghost predicate Valid() {
      indentSize >= 0 && indent == Repeat(" ", indentSize)
    }

    /** The default printer indents by two spaces. */
    constructor ()
      ensures Valid() && indentSize == 2 && indent == "  "
    {
      indentSize := 2;
      indent := "  ";
    }

    /** A printer indenting by `n` spaces; Java's `String.repeat` refuses a negative count. */
    constructor WithIndent(n: int)
      requires n >= 0
      ensures Valid() && indentSize == n
    {
      indentSize := n;
      indent := Repeat(" ", n);
    }

    /** The indentation of nesting level `level`: exactly `level * indentSize` spaces. */
    function Indent(level: nat): (r: string)
      requires Valid()
      ensures |r| == level * indentSize
      ensures forall i :: 0 <= i < |r| ==> r[i] == ' '
    {
      var r := Repeat(indent, level);
      assert forall i :: 0 <= i < |r| ==> r[i] in indent;
      r
    }

    /** The text `addPretty` appends for `n` printed at nesting level `level`. */
    function AddPretty(n: Node, level: nat, showKey: bool): (r: string)
      requires Valid()
      ensures showKey ==> StartsWith(r, KeyText(n.key) + ":")
      ensures r == [] <==> !showKey && n.IsCollection() && n.children == []
      ensures r != [] ==> NewlineTerminated(r)
      decreases n, 2
    {
      var prefix := if showKey then KeyText(n.key) + ": " else "";
      match n
      case Virtual(_) => LeafShape(KeyText(n.key), showKey, prefix, ""); prefix + "\n"
      case Scalar(_, raw) => LeafShape(KeyText(n.key), showKey, prefix, FromRaw(raw)); prefix + FromRaw(raw) + "\n"
      case MapNode(_, _) =>
        if showKey then HeaderStartsWithKey(AddCollection(n, level, true), KeyText(n.key)); AddCollection(n, level, showKey)
        else AddCollection(n, level, showKey)
      case ListNode(_, _) =>
        if showKey then HeaderStartsWithKey(AddCollection(n, level, true), KeyText(n.key)); AddCollection(n, level, showKey)
        else AddCollection(n, level, showKey)
    }

    /**
      The text `addCollection` appends for a map or list node: with the key, a header
      line and the children one level deeper; without it, the children at `level`.
     */
    function AddCollection(n: Node, level: nat, key: bool): (r: string)
      requires Valid() && n.IsCollection()
      ensures key ==> StartsWith(r, KeyText(n.key) + ":\n")
      ensures !key ==> r == ChildrenText(n.children, level)
      ensures r == [] <==> !key && n.children == []
      ensures r != [] ==> NewlineTerminated(r)
      decreases n, 1
    {
      CollectionShape(KeyText(n.key), key, ChildrenText(n.children, if key then level + 1 else level));
      (if key then KeyText(n.key) + ":\n" else "")
      + ChildrenText(n.children, if key then level + 1 else level)
    }

    /** Each child, in order, preceded by the indentation of `level` and printed with its key. */
    function ChildrenText(cs: seq<Node>, level: nat): (r: string)
      requires Valid()
      ensures r == [] <==> cs == []
      ensures cs != [] ==> StartsWith(r, Indent(level))
      ensures r != [] ==> NewlineTerminated(r)
      decreases cs, 0
    {
      if cs == [] then ""
      else
        ChildShape(Indent(level), AddPretty(cs[0], level, true), ChildrenText(cs[1..], level));
        Indent(level) + AddPretty(cs[0], level, true) + ChildrenText(cs[1..], level)
    }

    /** Indented, newline-terminated text of a sequence of lines. */
    function Layout(ls: seq<Line>): string
      requires Valid()
    {
      if ls == [] then "" else Indent(ls[0].depth) + ls[0].text + "\n" + Layout(ls[1..])
    }

    lemma {:induction false} LayoutAppend(a: seq<Line>, b: seq<Line>)
      requires Valid()
      ensures Layout(a + b) == Layout(a) + Layout(b)
    {
      if a == [] {
        assert a + b == b;
      } else {
        assert (a + b)[0] == a[0];
        assert (a + b)[1..] == a[1..] + b;
        LayoutAppend(a[1..], b);
      }
    }

    lemma LayoutSingle(l: Line)
      requires Valid()
      ensures Layout([l]) == Indent(l.depth) + l.text + "\n"
    {
      assert [l][1..] == [];
    }

    /** Printing one more child appends its indentation and its text. */
    lemma ChildrenTextSnoc(cs: seq<Node>, i: nat, level: nat)
      requires Valid() && i < |cs|
      ensures ChildrenText(cs[..i + 1], level) == ChildrenText(cs[..i], level) + (Indent(level) + AddPretty(cs[i], level, true))
    {
      assert cs[..i + 1] == cs[..i] + [cs[i]];
      ChildrenTextAppend(cs[..i], [cs[i]], level);
      assert [cs[i]][1..] == [];
    }

    /** One iteration of the children loop extends the text by the next child's indentation and rendering. */
    lemma ChildrenStep(start: string, cs: seq<Node>, i: nat, level: nat, before: string, after: string)
      requires Valid() && i < |cs|
      requires before == start + ChildrenText(cs[..i], level)
      requires after == before + Indent(level) + AddPretty(cs[i], level, true)
      ensures after == start + ChildrenText(cs[..i + 1], level)
    {
      ChildrenTextSnoc(cs, i, level);
      AppendAssoc(before, Indent(level), AddPretty(cs[i], level, true));
      AppendAssoc(start, ChildrenText(cs[..i], level), Indent(level) + AddPretty(cs[i], level, true));
    }

    /** Children are printed one after another: the text of a concatenation is the concatenated text. */
    lemma {:induction false} ChildrenTextAppend(a: seq<Node>, b: seq<Node>, level: nat)
      requires Valid()
      ensures ChildrenText(a + b, level) == ChildrenText(a, level) + ChildrenText(b, level)
    {
      if a == [] {
        assert a + b == b;
      } else {
        assert (a + b)[0] == a[0];
        assert (a + b)[1..] == a[1..] + b;
        ChildrenTextAppend(a[1..], b, level);
      }
    }

    /**
      The renderer agrees with the reference layout: a node printed with its key at
      level `depth`, after the indentation its parent writes, is exactly its lines.
     */
    lemma {:induction false} RenderMatchesLayout(n: Node, depth: nat)
      requires Valid()
      ensures Indent(depth) + AddPretty(n, depth, true) == Layout(Lines(n, depth))
      decreases n, 1
    {
      var head := Line(depth, HeaderText(n));
      LayoutSingle(head);
      match n
      case Virtual(_) =>
        assert AddPretty(n, depth, true) == HeaderText(n) + "\n";
        assert Lines(n, depth) == [head];
      case Scalar(_, _) =>
        assert AddPretty(n, depth, true) == HeaderText(n) + "\n";
        assert Lines(n, depth) == [head];
      case _ =>
        CollectionMatchesLayout(n, depth);
    }

    lemma {:induction false} CollectionMatchesLayout(n: Node, depth: nat)
      requires Valid() && n.IsCollection()
      ensures Indent(depth) + AddPretty(n, depth, true) == Layout(Lines(n, depth))
      decreases n, 0
    {
      ChildrenMatchLayout(n.children, depth + 1);
      CollectionLayoutSplit(n, depth);
      KeyedCollectionText(n, depth);
      ConcatRegroup(Indent(depth), HeaderText(n), ChildrenText(n.children, depth + 1),
                    AddPretty(n, depth, true), Layout(Lines(n, depth)));
    }

    /** The layout of a map or list is its header line followed by its children's layout. */
    lemma CollectionLayoutSplit(n: Node, depth: nat)
      requires Valid() && n.IsCollection()
      requires ChildrenText(n.children, depth + 1) == Layout(ChildLines(n.children, depth + 1))
      ensures Layout(Lines(n, depth)) == Indent(depth) + HeaderText(n) + "\n" + ChildrenText(n.children, depth + 1)
    {
      var head := Line(depth, HeaderText(n));
      assert Lines(n, depth) == [head] + ChildLines(n.children, depth + 1);
      LayoutAppend([head], ChildLines(n.children, depth + 1));
      LayoutSingle(head);
    }

    /** With its key, a map or list prints its header line and then its children one level deeper. */
    lemma KeyedCollectionText(n: Node, depth: nat)
      requires Valid() && n.IsCollection()
      ensures AddPretty(n, depth, true) == HeaderText(n) + "\n" + ChildrenText(n.children, depth + 1)
    {
      assert AddPretty(n, depth, true) == AddCollection(n, depth, true);
      assert HeaderText(n) + "\n" == KeyText(n.key) + ":\n";
    }

    lemma {:induction false} ChildrenMatchLayout(cs: seq<Node>, depth: nat)
      requires Valid()
      ensures ChildrenText(cs, depth) == Layout(ChildLines(cs, depth))
      decreases cs, 0
    {
      if cs != [] {
        RenderMatchesLayout(cs[0], depth);
        ChildrenMatchLayout(cs[1..], depth);
        LayoutAppend(Lines(cs[0], depth), ChildLines(cs[1..], depth));
      }
    }

    /**
      Without its key, a map or list prints no header: its children's lines at the
      same level; a leaf prints only its value and a newline.
     */
    lemma RootWithoutKey(n: Node, level: nat)
      requires Valid()
      ensures n.IsCollection() ==> AddPretty(n, level, false) == Layout(ChildLines(n.children, level))
      ensures n.Virtual? ==> AddPretty(n, level, false) == "\n"
      ensures n.Scalar? ==> AddPretty(n, level, false) == FromRaw(n.raw) + "\n"
    {
      if n.IsCollection() {
        ChildrenMatchLayout(n.children, level);
      }
    }

    /**
      A scalar whose raw value is null prints exactly like a virtual node with the
      same key, and like a scalar holding the empty string.
     */
    lemma NullRawPrintsLikeVirtual(key: Option<string>, level: nat, showKey: bool)
      requires Valid()
      ensures AddPretty(Scalar(key, None), level, showKey) == AddPretty(Virtual(key), level, showKey)
      ensures AddPretty(Scalar(key, None), level, showKey) == AddPretty(Scalar(key, Some("")), level, showKey)
    {
    }

    /** `addPretty` appends to the builder exactly the text `AddPretty` describes. */
    method AddPrettyTo(b: Builder, n: Node, level: nat, showKey: bool)
      requires Valid()
      modifies b
      ensures b.text == old(b.text) + AddPretty(n, level, showKey)
      decreases n, 2
    {
      var prefix := if showKey then KeyText(n.key) + ": " else "";
      if n.Virtual? {
        b.Append(prefix);
        b.Append("\n");
        AppendAssoc(old(b.text), prefix, "\n");
      } else if n.MapNode? || n.ListNode? {
        AddCollectionTo(b, n, level, showKey);
      } else {
        b.Append(prefix);
        b.Append(FromRaw(n.raw));
        b.Append("\n");
        AppendAssoc(old(b.text) + prefix, FromRaw(n.raw), "\n");
        AppendAssoc(old(b.text), prefix, FromRaw(n.raw) + "\n");
        AppendAssoc(prefix, FromRaw(n.raw), "\n");
      }
    }

    /** `addCollection`: the optional header, then each child in order after its indentation. */
    method AddCollectionTo(b: Builder, n: Node, level: nat, key: bool)
      requires Valid() && n.IsCollection()
      modifies b
      ensures b.text == old(b.text) + AddCollection(n, level, key)
      decreases n, 1
    {
      var childIndent := level;
      ghost var header := if key then KeyText(n.key) + ":\n" else "";
      if key {
        childIndent := level + 1;
        b.Append(KeyText(n.key));
        b.Append(":\n");
        AppendAssoc(old(b.text), KeyText(n.key), ":\n");
      } else {
        assert old(b.text) + header == old(b.text);
      }
      AddChildrenTo(b, n, childIndent);
      CollectionTextSplit(n, level, key);
      AppendAssoc(old(b.text), header, ChildrenText(n.children, childIndent));
    }

    /** The loop of `addCollection`: each child of `n` in order, after the indentation of `level`. */
    method AddChildrenTo(b: Builder, n: Node, level: nat)
      requires Valid() && n.IsCollection()
      modifies b
      ensures b.text == old(b.text) + ChildrenText(n.children, level)
      decreases n, 0
    {
      var cs := n.children;
      var i := 0;
      while i < |cs|
        invariant 0 <= i <= |cs|
        invariant b.text == old(b.text) + ChildrenText(cs[..i], level)
      {
        ghost var before := b.text;
        b.Append(Indent(level));
        AddPrettyTo(b, cs[i], level, true);
        ChildrenStep(old(b.text), cs, i, level, before, b.text);
        i := i + 1;
      }
      assert cs[..i] == cs;
    }

    /** The text of a map or list is its optional header followed by the children's text. */
    lemma CollectionTextSplit(n: Node, level: nat, key: bool)
      requires Valid() && n.IsCollection()
      ensures AddCollection(n, level, key)
           == (if key then KeyText(n.key) + ":\n" else "") + ChildrenText(n.children, if key then level + 1 else level)
    {
    }

    /** `pretty(node, showKey)`: the rendering of `node` at level 0 with surrounding blanks trimmed. */
    method Pretty(node: Node, showKey: bool) returns (r: string)
      requires Valid()
      ensures r == Trim(AddPretty(node, 0, showKey))
    {
      var b := new Builder();
      AddPrettyTo(b, node, 0, showKey);
      assert b.text == AddPretty(node, 0, showKey);
      r := Trim(b.text);
    }

    /** `pretty(node)`: the key is shown exactly when the node has a parent, i.e. a non-null key. */
    method PrettyOf(node: Node) returns (r: string)
      requires Valid()
      ensures r == Trim(AddPretty(node, 0, node.key.Some?))
    {
      r := Pretty(node, node.key != None);
    }

    /** A keyed scalar whose key and value do not begin or end with blanks prints as `key: value`. */
    lemma PrettyScalar(k: string, v: string)
      requires Valid()
      requires k != [] && !Blank(k[0]) && v != [] && !Blank(v[|v| - 1])
      ensures Trim(AddPretty(Scalar(Some(k), Some(v)), 0, true)) == k + ": " + v
    {
      var line := k + ": " + v;
      var t := line + "\n";
      assert AddPretty(Scalar(Some(k), Some(v)), 0, true) == t;
      assert t[0] == k[0];
      assert TrimStart(t) == t;
      assert t[..|t| - 1] == line;
      assert line[|line| - 1] == v[|v| - 1];
      assert TrimEnd(line) == line;
    }
  }
}
