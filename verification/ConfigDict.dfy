/** The nested dicts set_to_tree builds in place. */
module ConfigDict {
  import opened Basics
  import opened Text
  import opened ConfigTree

  /** `setdefault` of one key. */
  function WithKey(t: Tree, key: string): Tree {
    if KeyIndex(t.kids, key) < |t.kids| then t else Node(t.kids + [Kid(key, LEAF)])
  }

  /** Inserting a path makes its first key and inserts the rest below it. */
  lemma InsertVia(t: Tree, path: Path)
    requires path != []
    ensures var t1, i := WithKey(t, path[0]), KeyIndex(t.kids, path[0]);
      && i < |t1.kids| && t1.kids[i].key == path[0]
      && Insert(t, path) == Node(t1.kids[i := Kid(path[0], Insert(t1.kids[i].sub, path[1..]))])
  {
  }

  class Dict {
    var keys: seq<string>
    var kids: map<string, Dict>
    ghost var repr: set<Dict>

    constructor ()
      ensures Valid() && repr == {this} && Model() == LEAF
    {
      keys, kids, repr := [], map[], {this};
    }

    /** Keys in insertion order; subdicts own disjoint parts of the heap. */
    ghost predicate Valid()
      reads this, repr
      decreases repr
    {
      this in repr && KeysListed() && (forall k :: k in kids ==> Owns(k)) && Apart()
    }

    ghost predicate KeysListed()
      reads this
    {
      Distinct(keys) && forall k :: k in keys <==> k in kids
    }

    /** The subdict is a valid dict inside this one. */
    ghost predicate Owns(k: string)
      requires this in repr && k in kids
      reads this, repr
      decreases repr, 0
    {
      kids[k] in repr && kids[k].repr < repr && this !in kids[k].repr && kids[k].Valid()
    }

    /** Different keys, disjoint subdicts. */
    ghost predicate Apart()
      reads this, kids.Values
    {
      forall j, k :: j in kids && k in kids && j != k ==> kids[j].repr !! kids[k].repr
    }

    /** The ordered tree this dict stands for. */
    ghost function Model(): Tree
      requires Valid()
      reads this, repr
      decreases repr
    {
      Node(seq(|keys|, i requires 0 <= i < |keys| && Valid() reads this, repr =>
        assert keys[i] in kids; Kid(keys[i], ChildModel(keys[i]))))
    }

    ghost function ChildModel(k: string): Tree
      requires Valid() && k in kids
      reads this, repr
      decreases repr, 0
    {
      assert Owns(k);
      kids[k].Model()
    }

    lemma PositionOf(key: string) returns (i: nat)
      requires Valid()
      ensures i == KeyIndex(Model().kids, key)
      ensures key in kids ==> i < |keys| && keys[i] == key
      ensures key !in kids ==> i == |keys|
    {
      i := KeyIndex(Model().kids, key);
      assert forall j :: 0 <= j < |keys| ==> Model().kids[j].key == keys[j] && keys[j] in keys;
      if key in kids {
        var j :| 0 <= j < |keys| && keys[j] == key;
        assert Model().kids[j].key == key;
      }
    }

    /** node.setdefault(key, {}) */
    method SetDefault(key: string) returns (child: Dict)
      requires Valid()
      modifies this
      ensures Valid() && fresh(repr - old(repr))
      ensures key in kids && child == kids[key]
      ensures Model() == WithKey(old(Model()), key)
    {
      ghost var i := PositionOf(key);
      if key !in kids {
        AddEmpty(key);
      }
      child := kids[key];
    }

    /** The model, child by child. */
    lemma ModelIs(t: Tree)
      requires Valid() && |t.kids| == |keys|
      requires forall j :: 0 <= j < |keys| ==>
        keys[j] in kids && t.kids[j] == Kid(keys[j], ChildModel(keys[j]))
      ensures Model() == t
    {
    }

    method AddEmpty(key: string)
      requires Valid() && key !in kids
      modifies this
      ensures Valid() && fresh(repr - old(repr)) && key in kids
      ensures Model() == Node(old(Model()).kids + [Kid(key, LEAF)])
    {
      ghost var before := Model();
      var d := new Dict();
      PutEmpty(key, d);
      hide KeyIndex, Insert, Owns, Apart, Valid;
      AppendedModel(before);
    }

    /** The model after a key was added to an old one. */
    twostate lemma AppendedModel(before: Tree)
      requires old(Valid()) && Valid() && before == old(Model())
      requires |keys| == |old(keys)| + 1 && keys[..|old(keys)|] == old(keys)
      requires keys[|old(keys)|] in kids && ChildModel(keys[|old(keys)|]) == LEAF
      requires forall k :: k in old(kids) ==> k in kids && ChildModel(k) == old(ChildModel(k))
      ensures Model() == Node(before.kids + [Kid(keys[|old(keys)|], LEAF)])
    {
      hide KeyIndex, Insert, ChildModel, Owns, Apart;
      var after := Node(before.kids + [Kid(keys[|old(keys)|], LEAF)]);
      forall j | 0 <= j < |keys|
        ensures keys[j] in kids && after.kids[j] == Kid(keys[j], ChildModel(keys[j]))
      {
        assert keys[j] in keys;
        if j < |old(keys)| {
          assert keys[j] == old(keys)[j] && old(keys)[j] in old(keys);
        }
      }
      ModelIs(after);
    }

    /** node[key] = d for a new key; nothing below the other keys changes. */
    method PutEmpty(key: string, d: Dict)
      requires Valid() && key !in kids
      requires d !in repr && d.Valid() && d.repr == {d} && d.Model() == LEAF
      modifies this
      ensures Valid() && repr == old(repr) + {d}
      ensures keys == old(keys) + [key] && key in kids && ChildModel(key) == LEAF
      ensures forall k :: k in old(kids) ==> k in kids && ChildModel(k) == old(ChildModel(k))
    {
      hide KeyIndex, Insert, Model;
      keys, kids, repr := keys + [key], kids[key := d], repr + {d};
      forall k | k in old(kids)
        ensures kids[k] == old(kids[k]) && kids[k].repr == old(kids[k].repr) && d !in kids[k].repr
        ensures Owns(k) && kids[k].Model() == old(kids[k].Model())
      {
        assert old(Owns(k)) && unchanged(kids[k].repr);
      }
      assert Owns(key);
      hide Owns;
      assert Apart() && KeysListed();
      hide Apart;
    }

    /** The walk `node = node.setdefault(tok, {})` down a path. */
    method SetDefaults(path: Path)
      requires Valid()
      modifies repr
      ensures Valid() && fresh(repr - old(repr))
      ensures Model() == Insert(old(Model()), path)
      decreases |path|
    {
      if path == [] {
        return;
      }
      InsertVia(Model(), path);
      ghost var i := PositionOf(path[0]);
      var child := SetDefault(path[0]);
      Descend(child, path, i);
    }

    /** Continues the walk in the child and accounts for what it added. */
    method Descend(child: Dict, path: Path, ghost i: nat)
      requires Valid() && path != [] && path[0] in kids && child == kids[path[0]]
      requires i < |keys| && keys[i] == path[0]
      modifies repr
      ensures Valid() && fresh(repr - old(repr))
      ensures Model() == Node(old(Model()).kids[i := Kid(path[0], Insert(old(ChildModel(path[0])), path[1..]))])
      decreases |path|, 1
    {
      ghost var before, sub := Model(), ChildModel(path[0]);
      DescendInto(child, path);
      hide KeyIndex, Insert, ChildModel, Owns, Apart;
      ghost var after := Node(before.kids[i := Kid(path[0], Insert(sub, path[1..]))]);
      forall j | 0 <= j < |keys|
        ensures keys[j] in kids && after.kids[j] == Kid(keys[j], ChildModel(keys[j]))
      {
        assert keys[j] in keys;
      }
      ModelIs(after);
    }

    method DescendInto(child: Dict, path: Path)
      requires Valid() && path != [] && path[0] in kids && child == kids[path[0]]
      modifies repr
      ensures Valid() && fresh(repr - old(repr)) && keys == old(keys) && kids == old(kids)
      ensures ChildModel(path[0]) == Insert(old(ChildModel(path[0])), path[1..])
      ensures forall k :: k in kids && k != path[0] ==> ChildModel(k) == old(ChildModel(k))
      decreases |path|, 0
    {
      hide KeyIndex, Insert, Model;
      assert Owns(path[0]);
      forall k | k in kids && k != path[0]
        ensures Owns(k) && kids[k] in kids[k].repr && kids[k].repr !! child.repr
      {
        assert Owns(k);
      }
      child.SetDefaults(path[1..]);
      repr := repr + child.repr;
      forall k | k in kids && k != path[0]
        ensures kids[k].repr == old(kids[k].repr) && kids[k].repr !! child.repr
        ensures Owns(k) && kids[k].Model() == old(kids[k].Model())
      {
        assert old(Owns(k)) && unchanged(kids[k].repr);
      }
      assert Owns(path[0]);
      hide Owns;
      assert Apart() && KeysListed();
      hide Apart;
    }
  }

  lemma OneMoreLine(lines: seq<string>, line: string)
    ensures SetToTree(lines + [line]) ==
      if StartsWith(line, "set ") then Insert(SetToTree(lines), TokensOf(line)) else SetToTree(lines)
  {
    hide Insert, TokensOf;
    PathsOfAppend(lines, line);
    var paths := PathsOf(lines);
    assert paths + [] == paths && (paths + [TokensOf(line)])[..|paths|] == paths;
  }

  /** set_to_tree: every set line's tokens, one walk each. */
  method BuildInPlace(lines: seq<string>) returns (tree: Dict)
    ensures fresh(tree.repr) && tree.Valid() && tree.Model() == SetToTree(lines)
  {
    tree := new Dict();
    for n := 0 to |lines|
      invariant fresh(tree.repr) && tree.Valid() && tree.Model() == SetToTree(lines[..n])
    {
      OneMoreLine(lines[..n], lines[n]);
      assert lines[..n + 1] == lines[..n] + [lines[n]];
      hide SetToTree, Insert, TokensOf;
      if !StartsWith(lines[n], "set ") {
        continue;
      }
      tree.SetDefaults(TokensOf(lines[n]));
    }
    assert lines[..|lines|] == lines;
  }
}
