/**
 Set statements, the ordered trie they build, and the brace text it is shown as.
 A dict is a sequence of children in insertion order, keys distinct.
 */
module ConfigTree {
  import opened Basics
  import opened Text

  type Path = seq<string>

  datatype Tree = Node(kids: seq<Kid>)

  datatype Kid = Kid(key: string, sub: Tree)

  const LEAF := Node([])

  // ---- Building the trie ----

  function KeyIndex(kids: seq<Kid>, key: string): (i: nat)
    ensures i <= |kids| && (i < |kids| ==> kids[i].key == key)
    ensures forall j :: 0 <= j < i ==> kids[j].key != key
  {
    if kids == [] || kids[0].key == key then 0 else 1 + KeyIndex(kids[1..], key)
  }

  /** Walks `setdefault` down a path: missing nodes are appended as last child. */
  function Insert(t: Tree, path: Path): Tree
    decreases |path|
  {
    if path == [] then t
    else
      var i := KeyIndex(t.kids, path[0]);
      if i < |t.kids| then Node(t.kids[i := Kid(path[0], Insert(t.kids[i].sub, path[1..]))])
      else Node(t.kids + [Kid(path[0], Insert(LEAF, path[1..]))])
  }

  function InsertAll(t: Tree, paths: seq<Path>): Tree {
    if paths == [] then t else Insert(InsertAll(t, paths[..|paths| - 1]), paths[|paths| - 1])
  }

  function Build(paths: seq<Path>): Tree {
    InsertAll(LEAF, paths)
  }

  ghost predicate DistinctKeys(kids: seq<Kid>) {
    forall i, j :: 0 <= i < j < |kids| ==> kids[i].key != kids[j].key
  }

  /** What every dict of dicts satisfies: keys are distinct at every level. */
  ghost predicate IsDict(t: Tree) {
    DistinctKeys(t.kids) && forall i :: 0 <= i < |t.kids| ==> IsDict(t.kids[i].sub)
  }

  ghost predicate HasPath(t: Tree, path: Path)
    decreases |path|
  {
    path == [] ||
    exists i :: 0 <= i < |t.kids| && t.kids[i].key == path[0] && HasPath(t.kids[i].sub, path[1..])
  }

  lemma {:induction false} InsertIsDict(t: Tree, path: Path)
    requires IsDict(t)
    ensures IsDict(Insert(t, path))
    decreases |path|
  {
    if path != [] {
      var i := KeyIndex(t.kids, path[0]);
      if i < |t.kids| {
        InsertIsDict(t.kids[i].sub, path[1..]);
      } else {
        InsertIsDict(LEAF, path[1..]);
      }
    }
  }

  lemma {:induction false} InsertAllIsDict(t: Tree, paths: seq<Path>)
    requires IsDict(t)
    ensures IsDict(InsertAll(t, paths))
  {
    if paths != [] {
      InsertAllIsDict(t, paths[..|paths| - 1]);
      InsertIsDict(InsertAll(t, paths[..|paths| - 1]), paths[|paths| - 1]);
    }
  }

  /** Inserting p adds exactly the prefixes of p. */
  lemma {:induction false} InsertPaths(t: Tree, p: Path, q: Path)
    requires IsDict(t)
    ensures HasPath(Insert(t, p), q) <==> HasPath(t, q) || q <= p
    decreases |p|
  {
    if p != [] && q != [] {
      var i, t' := KeyIndex(t.kids, p[0]), Insert(t, p);
      var below := if i < |t.kids| then t.kids[i].sub else LEAF;
      InsertPaths(below, p[1..], q[1..]);
      assert q <= p <==> q[0] == p[0] && q[1..] <= p[1..] by {
        if q[0] == p[0] && q[1..] <= p[1..] {
          assert p == [p[0]] + p[1..] && q == [q[0]] + q[1..];
        }
      }
      assert t'.kids[i] == Kid(p[0], Insert(below, p[1..]));
      if q[0] == p[0] {
        OnlyAt(t, q, i);
        OnlyAt(t', q, i);
      } else {
        forall j | 0 <= j < |t'.kids| && t'.kids[j].key == q[0]
          ensures j < |t.kids| && t'.kids[j] == t.kids[j]
        {
        }
        assert forall j :: 0 <= j < |t.kids| && t.kids[j].key == q[0] ==> t'.kids[j] == t.kids[j];
      }
    }
  }

  /** With distinct keys a path can only go through the one child of that name. */
  lemma OnlyAt(t: Tree, q: Path, i: nat)
    requires q != [] && i <= |t.kids| && (i < |t.kids| ==> t.kids[i].key == q[0])
    requires forall j :: 0 <= j < |t.kids| && j != i ==> t.kids[j].key != q[0]
    ensures HasPath(t, q) <==> i < |t.kids| && HasPath(t.kids[i].sub, q[1..])
  {
  }

  /** The paths of the trie are exactly the prefixes of the statements. */
  lemma {:induction false} PathsArePrefixes(paths: seq<Path>, q: Path)
    ensures HasPath(Build(paths), q) <==> q == [] || exists k :: 0 <= k < |paths| && q <= paths[k]
  {
    if paths != [] {
      var init, last := paths[..|paths| - 1], paths[|paths| - 1];
      PathsArePrefixes(init, q);
      InsertAllIsDict(LEAF, init);
      InsertPaths(Build(init), last, q);
      assert forall k :: 0 <= k < |init| ==> init[k] == paths[k];
      if q <= last {
        assert q <= paths[|paths| - 1];
      }
      if k :| 0 <= k < |paths| && q <= paths[k] && k < |init| {
        assert q <= init[k];
      }
    }
  }

  // ---- Flattening back to statements ----

  /** The leaf paths of a tree, depth first, in child order. */
  function Flatten(t: Tree): seq<Path> {
    FlattenKids(t.kids)
  }

  function FlattenKids(kids: seq<Kid>): seq<Path> {
    if kids == [] then []
    else
      var last := kids[|kids| - 1];
      FlattenKids(kids[..|kids| - 1])
      + if last.sub.kids == [] then [[last.key]] else Prepend(last.key, FlattenKids(last.sub.kids))
  }

  function Prepend(key: string, paths: seq<Path>): (r: seq<Path>)
    ensures |r| == |paths| && forall i :: 0 <= i < |r| ==> r[i] == [key] + paths[i]
  {
    seq(|paths|, i requires 0 <= i < |paths| => [key] + paths[i])
  }

  lemma {:induction false} InsertAllAppend(t: Tree, a: seq<Path>, b: seq<Path>)
    ensures InsertAll(t, a + b) == InsertAll(InsertAll(t, a), b)
    decreases |b|
  {
    if b == [] {
      assert a + b == a;
    } else {
      var init, last := b[..|b| - 1], b[|b| - 1];
      InsertAllAppend(t, a, init);
      assert (a + b)[..|a + b| - 1] == a + init;
    }
  }

  lemma KeyIndexLast(kids: seq<Kid>, k: Kid)
    requires forall i :: 0 <= i < |kids| ==> kids[i].key != k.key
    ensures KeyIndex(kids + [k], k.key) == |kids|
  {
    var now := kids + [k];
    var i := KeyIndex(now, k.key);
    assert now[|kids|].key == k.key;
  }

  /** Paths under one key, inserted where that key is the last child, only work on that child. */
  lemma {:induction false} InsertUnderLast(kids: seq<Kid>, key: string, sub: Tree, paths: seq<Path>)
    requires forall i :: 0 <= i < |kids| ==> kids[i].key != key
    ensures InsertAll(Node(kids + [Kid(key, sub)]), Prepend(key, paths))
            == Node(kids + [Kid(key, InsertAll(sub, paths))])
    decreases |paths|
  {
    if paths != [] {
      var init, last := paths[..|paths| - 1], paths[|paths| - 1];
      InsertUnderLast(kids, key, sub, init);
      assert Prepend(key, paths)[..|paths| - 1] == Prepend(key, init);
      var now := kids + [Kid(key, InsertAll(sub, init))];
      KeyIndexLast(kids, now[|kids|]);
      assert ([key] + last)[1..] == last;
      assert now[|kids| := Kid(key, InsertAll(sub, paths))] == kids + [Kid(key, InsertAll(sub, paths))];
    }
  }

  lemma InsertAllOne(t: Tree, path: Path)
    ensures InsertAll(t, [path]) == Insert(t, path)
  {
    assert [path][..0] == [];
  }

  lemma InsertNewKey(kids: seq<Kid>, key: string, path: Path)
    requires forall i :: 0 <= i < |kids| ==> kids[i].key != key
    ensures Insert(Node(kids), [key] + path) == Node(kids + [Kid(key, Insert(LEAF, path))])
  {
    assert ([key] + path)[1..] == path;
    assert KeyIndex(kids, key) == |kids|;
  }

  lemma InsertAllFirst(t: Tree, paths: seq<Path>)
    requires paths != []
    ensures InsertAll(t, paths) == InsertAll(Insert(t, paths[0]), paths[1..])
  {
    hide Insert;
    InsertAllAppend(t, [paths[0]], paths[1..]);
    InsertAllOne(t, paths[0]);
    assert paths == [paths[0]] + paths[1..];
  }

  lemma PrependFirst(key: string, paths: seq<Path>)
    requires paths != []
    ensures Prepend(key, paths)[0] == [key] + paths[0]
    ensures Prepend(key, paths)[1..] == Prepend(key, paths[1..])
  {
  }

  /** The first path under a new key creates it; the rest fill it. */
  lemma InsertUnderNew(kids: seq<Kid>, key: string, paths: seq<Path>)
    requires paths != [] && forall i :: 0 <= i < |kids| ==> kids[i].key != key
    ensures InsertAll(Node(kids), Prepend(key, paths)) == Node(kids + [Kid(key, InsertAll(LEAF, paths))])
  {
    hide Insert, InsertAll, KeyIndex;
    PrependFirst(key, paths);
    InsertAllFirst(Node(kids), Prepend(key, paths));
    InsertNewKey(kids, key, paths[0]);
    InsertUnderLast(kids, key, Insert(LEAF, paths[0]), paths[1..]);
    InsertAllFirst(LEAF, paths);
  }

  lemma {:induction false} FlattenNonEmpty(kids: seq<Kid>)
    requires kids != []
    ensures FlattenKids(kids) != []
  {
    var last := kids[|kids| - 1];
    if last.sub.kids != [] {
      FlattenNonEmpty(last.sub.kids);
    }
  }

  /** Flattening a dict to set statements and building the trie again gives the same dict, order included. */
  lemma {:induction false} BuildFlatten(t: Tree)
    requires IsDict(t)
    ensures Build(Flatten(t)) == t
    decreases t
  {
    BuildFlattenKids(t.kids);
  }

  lemma {:induction false} BuildFlattenKids(kids: seq<Kid>)
    requires IsDict(Node(kids))
    ensures Build(FlattenKids(kids)) == Node(kids)
    decreases kids
  {
    if kids != [] {
      var init, last := kids[..|kids| - 1], kids[|kids| - 1];
      SubDicts(kids);
      BuildFlattenKids(init);
      var mine := BelowLast(kids);
      hide IsDict, Insert, InsertAll, FlattenKids;
      assert last.sub == Node(last.sub.kids);
      if last.sub.kids == [] {
        InsertAllOne(LEAF, []);
        InsertNothing(LEAF);
      } else {
        BuildFlattenKids(last.sub.kids);
      }
      RebuildLast(init, last, mine);
      assert init + [last] == kids;
    }
  }

  lemma InsertNothing(t: Tree)
    ensures Insert(t, []) == t
  {
  }

  lemma SubDicts(kids: seq<Kid>)
    requires IsDict(Node(kids)) && kids != []
    ensures var init, last := kids[..|kids| - 1], kids[|kids| - 1];
      && IsDict(Node(init)) && IsDict(last.sub)
      && forall i :: 0 <= i < |init| ==> init[i].key != last.key
  {
    assert Node(kids).kids[|kids| - 1] == kids[|kids| - 1];
  }

  /** The paths below the last child; a leaf has just the empty one. */
  lemma BelowLast(kids: seq<Kid>) returns (mine: seq<Path>)
    requires kids != []
    ensures var last := kids[|kids| - 1];
      && mine != [] && mine == (if last.sub.kids == [] then [[]] else FlattenKids(last.sub.kids))
      && FlattenKids(kids) == FlattenKids(kids[..|kids| - 1]) + Prepend(last.key, mine)
  {
    var last := kids[|kids| - 1];
    if last.sub.kids == [] {
      mine := [[]];
      assert [last.key] + mine[0] == [last.key];
      assert Prepend(last.key, mine) == [[last.key]];
    } else {
      mine := FlattenKids(last.sub.kids);
      FlattenNonEmpty(last.sub.kids);
    }
  }

  lemma RebuildLast(init: seq<Kid>, last: Kid, mine: seq<Path>)
    requires Build(FlattenKids(init)) == Node(init) && mine != [] && Build(mine) == last.sub
    requires forall i :: 0 <= i < |init| ==> init[i].key != last.key
    ensures Build(FlattenKids(init) + Prepend(last.key, mine)) == Node(init + [last])
  {
    InsertAllAppend(LEAF, FlattenKids(init), Prepend(last.key, mine));
    InsertUnderNew(init, last.key, mine);
  }

  // ---- Rendering ----

  function Pad(indent: nat): string {
    seq(4 * indent, _ => ' ')
  }

  /** One line per leaf, an opening and a closing line per inner node. */
  function Render(kids: seq<Kid>, indent: nat): seq<string> {
    if kids == [] then []
    else
      var k := kids[0];
      (if k.sub.kids == [] then [Pad(indent) + k.key + ";"]
       else [Pad(indent) + k.key + " {"] + Render(k.sub.kids, indent + 1) + [Pad(indent) + "}"])
      + Render(kids[1..], indent)
  }

  predicate EndsWith(s: string, suffix: string) {
    |suffix| <= |s| && s[|s| - |suffix|..] == suffix
  }

  /**
   A reader for rendered text, written from the layout alone: a line is a leaf, an
   opening or a closing line by its last characters.
   */
  function ParseKids(lines: seq<string>, indent: nat): (r: (seq<Kid>, seq<string>))
    ensures |r.1| <= |lines|
    decreases |lines|
  {
    if lines == [] || |lines[0]| < 4 * indent || lines[0][4 * indent..] == "}" then ([], lines)
    else
      var line := lines[0][4 * indent..];
      if EndsWith(line, ";") then
        var (kids, rest) := ParseKids(lines[1..], indent);
        ([Kid(line[..|line| - 1], LEAF)] + kids, rest)
      else if EndsWith(line, " {") then
        var (sub, after) := ParseKids(lines[1..], indent + 1);
        if after == [] then ([], [])
        else
          var (kids, rest) := ParseKids(after[1..], indent);
          ([Kid(line[..|line| - 2], Node(sub))] + kids, rest)
      else ([], lines)
  }

  /** What may follow a block: nothing, or the closing line of the level above. */
  predicate Closes(rest: seq<string>, indent: nat) {
    rest == [] || (indent > 0 && rest[0] == Pad(indent - 1) + "}")
  }

  lemma ParseAtClose(rest: seq<string>, indent: nat)
    requires Closes(rest, indent)
    ensures ParseKids(rest, indent) == ([], rest)
  {
    if rest != [] {
      assert |rest[0]| == 4 * indent - 3;
    }
  }

  lemma LeafLine(key: string, indent: nat)
    ensures var l := (Pad(indent) + key + ";")[4 * indent..];
      l == key + ";" && l != "}" && EndsWith(l, ";") && l[..|l| - 1] == key
  {
    assert (Pad(indent) + key + ";") == Pad(indent) + (key + ";");
    var l := key + ";";
    assert l[|l| - 1] == ';';
  }

  lemma OpenLine(key: string, indent: nat)
    ensures var l := (Pad(indent) + key + " {")[4 * indent..];
      l == key + " {" && l != "}" && !EndsWith(l, ";") && EndsWith(l, " {") && l[..|l| - 2] == key
  {
    assert (Pad(indent) + key + " {") == Pad(indent) + (key + " {");
    var l := key + " {";
    assert l[|l| - 1] == '{' && l[|l| - 1..] == "{";
  }

  /** The reader recovers the tree from its lines, whatever the keys are. */
  lemma {:induction false} ParseRender(kids: seq<Kid>, indent: nat, rest: seq<string>)
    requires Closes(rest, indent)
    ensures ParseKids(Render(kids, indent) + rest, indent) == (kids, rest)
    decreases kids
  {
    hide ParseKids;
    if kids == [] {
      assert Render(kids, indent) + rest == rest;
      ParseAtClose(rest, indent);
    } else {
      var k, more := kids[0], Render(kids[1..], indent) + rest;
      ParseRender(kids[1..], indent, rest);
      assert kids == [k] + kids[1..];
      assert k.sub == Node(k.sub.kids);
      if k.sub.kids == [] {
        ParseLeaf(k.key, indent, more);
        assert Render(kids, indent) + rest == [Pad(indent) + k.key + ";"] + more;
      } else {
        ParseBlock(k, indent, more);
        assert Render(kids, indent) + rest == BlockLines(k, indent) + more;
      }
    }
  }

  function BlockLines(k: Kid, indent: nat): seq<string> {
    [Pad(indent) + k.key + " {"] + Render(k.sub.kids, indent + 1) + [Pad(indent) + "}"]
  }

  lemma ParseLeaf(key: string, indent: nat, more: seq<string>)
    ensures var (kids, rest) := ParseKids(more, indent);
      ParseKids([Pad(indent) + key + ";"] + more, indent) == ([Kid(key, LEAF)] + kids, rest)
  {
    LeafLine(key, indent);
    assert ([Pad(indent) + key + ";"] + more)[1..] == more;
  }

  lemma {:induction false} ParseBlock(k: Kid, indent: nat, more: seq<string>)
    requires k.sub.kids != []
    ensures var (kids, rest) := ParseKids(more, indent);
      ParseKids(BlockLines(k, indent) + more, indent) == ([Kid(k.key, Node(k.sub.kids))] + kids, rest)
    decreases k
  {
    hide Render, EndsWith;
    var after := [Pad(indent) + "}"] + more;
    OpenLine(k.key, indent);
    ParseRender(k.sub.kids, indent + 1, after);
    var lines := BlockLines(k, indent) + more;
    assert lines[0] == Pad(indent) + k.key + " {";
    assert lines[1..] == Render(k.sub.kids, indent + 1) + after;
    assert after[1..] == more;
  }

  // ---- The text of show configuration ----

  /** "\n".join(lines) */
  function JoinLines(lines: seq<string>): string {
    if lines == [] then ""
    else if |lines| == 1 then lines[0]
    else lines[0] + "\n" + JoinLines(lines[1..])
  }

  /** Length of the first line. */
  function LineLength(s: string): (n: nat)
    ensures n <= |s| && '\n' !in s[..n] && (n < |s| ==> s[n] == '\n')
  {
    if s == "" || s[0] == '\n' then 0
    else
      assert s[..1 + LineLength(s[1..])] == [s[0]] + s[1..][..LineLength(s[1..])];
      1 + LineLength(s[1..])
  }

  /** The lines of a text; the empty text has none. */
  function SplitLines(s: string): seq<string>
    decreases |s|
  {
    if s == "" then []
    else
      var n := LineLength(s);
      [s[..n]] + if n < |s| then (if n + 1 == |s| then [""] else SplitLines(s[n + 1..])) else []
  }

  lemma {:induction false} LineLengthOf(line: string, rest: string)
    requires '\n' !in line && (rest == "" || rest[0] == '\n')
    ensures LineLength(line + rest) == |line|
  {
    if line == "" {
      assert line + rest == rest;
    } else {
      assert (line + rest)[1..] == line[1..] + rest;
      LineLengthOf(line[1..], rest);
    }
  }

  predicate CleanLines(lines: seq<string>) {
    forall i :: 0 <= i < |lines| ==> lines[i] != "" && '\n' !in lines[i]
  }

  lemma JoinLinesNonEmpty(lines: seq<string>)
    requires CleanLines(lines) && lines != []
    ensures JoinLines(lines) != ""
  {
  }

  lemma {:induction false} SplitJoinLines(lines: seq<string>)
    requires CleanLines(lines)
    ensures SplitLines(JoinLines(lines)) == lines
  {
    if |lines| == 1 {
      LineLengthOf(lines[0], "");
      assert lines[0] + "" == lines[0] && lines[0][..|lines[0]|] == lines[0];
    } else if |lines| > 1 {
      var rest := JoinLines(lines[1..]);
      SplitJoinLines(lines[1..]);
      JoinLinesNonEmpty(lines[1..]);
      LineLengthOf(lines[0], "\n" + rest);
      var s := lines[0] + "\n" + rest;
      assert s == lines[0] + ("\n" + rest);
      assert s[..|lines[0]|] == lines[0] && s[|lines[0]| + 1..] == rest;
    }
  }

  /** No key holds a line break. */
  ghost predicate OneLineKeys(kids: seq<Kid>) {
    forall i :: 0 <= i < |kids| ==> '\n' !in kids[i].key && OneLineKeys(kids[i].sub.kids)
  }

  lemma CleanAppend(a: seq<string>, b: seq<string>)
    requires CleanLines(a) && CleanLines(b)
    ensures CleanLines(a + b)
  {
  }

  /** The lines of one child around those of its own children. */
  lemma CleanAround(k: Kid, indent: nat, inner: seq<string>)
    requires '\n' !in k.key && CleanLines(inner)
    ensures CleanLines([Pad(indent) + k.key + ";"])
    ensures CleanLines([Pad(indent) + k.key + " {"] + inner + [Pad(indent) + "}"])
  {
    assert '\n' !in Pad(indent);
  }

  lemma {:induction false} RenderIsClean(kids: seq<Kid>, indent: nat)
    requires OneLineKeys(kids)
    ensures CleanLines(Render(kids, indent))
    decreases kids
  {
    if kids != [] {
      var k := kids[0];
      assert k in kids;
      RenderIsClean(kids[1..], indent);
      RenderSubIsClean(k, indent + 1);
      hide CleanLines, OneLineKeys;
      CleanAround(k, indent, Render(k.sub.kids, indent + 1));
      CleanAppend(if k.sub.kids == [] then [Pad(indent) + k.key + ";"] else BlockLines(k, indent),
                  Render(kids[1..], indent));
    }
  }

  lemma {:induction false} RenderSubIsClean(k: Kid, indent: nat)
    requires OneLineKeys(k.sub.kids)
    ensures CleanLines(Render(k.sub.kids, indent))
    decreases k
  {
    RenderIsClean(k.sub.kids, indent);
  }

  function Show(t: Tree): string {
    JoinLines(Render(t.kids, 0))
  }

  function ReadBack(text: string): Tree {
    Node(ParseKids(SplitLines(text), 0).0)
  }

  /** The text shown determines the ordered tree. */
  lemma ShowReadsBack(t: Tree)
    requires OneLineKeys(t.kids)
    ensures ReadBack(Show(t)) == t
  {
    RenderIsClean(t.kids, 0);
    SplitJoinLines(Render(t.kids, 0));
    ParseRender(t.kids, 0, []);
    assert Render(t.kids, 0) + [] == Render(t.kids, 0);
  }

  /** Two configurations that show the same are the same. */
  lemma ShowIsInjective(t: Tree, u: Tree)
    requires OneLineKeys(t.kids) && OneLineKeys(u.kids) && Show(t) == Show(u)
    ensures t == u
  {
    ShowReadsBack(t);
    ShowReadsBack(u);
  }

  // ---- Statements as text ----

  /** A set line in normal form: single spaces between the tokens of its path. */
  function Statement(path: Path): string {
    "set " + Join(path)
  }

  function TokensOf(line: string): Path {
    if StartsWith(line, "set ") then Split(line[4..]) else []
  }

  predicate IsNormal(line: string) {
    StartsWith(line, "set ") && TokensOf(line) != [] && AllTokens(TokensOf(line)) && line == Statement(TokensOf(line))
  }

  predicate AllNormal(lines: seq<string>) {
    forall i :: 0 <= i < |lines| ==> IsNormal(lines[i])
  }

  lemma StatementIsNormal(path: Path)
    requires path != [] && AllTokens(path)
    ensures IsNormal(Statement(path)) && TokensOf(Statement(path)) == path
  {
    SplitJoin(path);
    assert Statement(path)[4..] == Join(path);
  }

  /** The paths set_to_tree inserts: every set line's tokens, other lines skipped. */
  function PathsOf(lines: seq<string>): seq<Path> {
    if lines == [] then []
    else PathsOf(lines[..|lines| - 1])
         + if StartsWith(lines[|lines| - 1], "set ") then [TokensOf(lines[|lines| - 1])] else []
  }

  function SetToTree(lines: seq<string>): Tree {
    Build(PathsOf(lines))
  }

  lemma {:induction false} PathsOfAppend(lines: seq<string>, line: string)
    ensures PathsOf(lines + [line]) == PathsOf(lines) + if StartsWith(line, "set ") then [TokensOf(line)] else []
  {
    assert (lines + [line])[..|lines|] == lines;
  }

  /** A dict whose keys could have been typed. */
  ghost predicate TokenKeys(kids: seq<Kid>) {
    forall i :: 0 <= i < |kids| ==> IsToken(kids[i].key) && TokenKeys(kids[i].sub.kids)
  }

  /** The set lines of a tree, one per leaf. */
  function SetLines(paths: seq<Path>): seq<string> {
    seq(|paths|, i requires 0 <= i < |paths| => Statement(paths[i]))
  }

  predicate Typeable(paths: seq<Path>) {
    forall i :: 0 <= i < |paths| ==> paths[i] != [] && AllTokens(paths[i])
  }

  lemma {:induction false} FlattenTypeable(kids: seq<Kid>)
    requires TokenKeys(kids)
    ensures Typeable(FlattenKids(kids))
    decreases kids
  {
    if kids != [] {
      var init, last := kids[..|kids| - 1], kids[|kids| - 1];
      assert last == kids[|kids| - 1] && IsToken(last.key) && TokenKeys(last.sub.kids);
      FlattenTypeable(init);
      hide IsToken, TokenKeys;
      if last.sub.kids != [] {
        FlattenBelowTypeable(last);
      }
    }
  }

  lemma {:induction false} FlattenBelowTypeable(k: Kid)
    requires TokenKeys(k.sub.kids) && IsToken(k.key)
    ensures Typeable(Prepend(k.key, FlattenKids(k.sub.kids)))
    decreases k
  {
    FlattenTypeable(k.sub.kids);
  }

  lemma {:induction false} SetLinesReadBack(paths: seq<Path>)
    requires Typeable(paths)
    ensures PathsOf(SetLines(paths)) == paths
  {
    hide TokensOf, Split, IsToken, Join;
    if paths != [] {
      var init, last := paths[..|paths| - 1], paths[|paths| - 1];
      SetLinesReadBack(init);
      StatementIsNormal(last);
      PathsOfAppend(SetLines(init), Statement(last));
      assert SetLines(paths) == SetLines(init) + [Statement(last)];
    }
  }

  /** Text and all: the set lines of a tree's leaves, given back to set_to_tree, rebuild the tree. */
  lemma SetLinesRebuild(t: Tree)
    requires IsDict(t) && TokenKeys(t.kids)
    ensures SetToTree(SetLines(Flatten(t))) == t
  {
    FlattenTypeable(t.kids);
    SetLinesReadBack(Flatten(t));
    BuildFlatten(t);
  }
}
