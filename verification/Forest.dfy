/**
 The dependency graph: each device row points at most at one parent. `parent_id`
 chains are walked upwards; the monitor needs them to end.
 */
module Forest {
  import opened Basics

  type Parents = map<Id, Option<Id>>

  function Next(g: Parents, x: Id): Option<Id> {
    if x in g then g[x] else None
  }

  /** The n-th ancestor of x, if the chain is that long. */
  function Up(g: Parents, x: Id, n: nat): Option<Id>
    decreases n
  {
    if n == 0 then Some(x)
    else match Next(g, x)
      case None => None
      case Some(p) => Up(g, p, n - 1)
  }

  ghost predicate Reaches(g: Parents, x: Id, y: Id) {
    exists n: nat :: Up(g, x, n) == Some(y)
  }

  /** No chain comes back to where it started. */
  ghost predicate NoCycle(g: Parents) {
    forall x: Id, n: nat :: n > 0 ==> Up(g, x, n) != Some(x)
  }

  /** Every parent is a row of the table (the foreign key). */
  ghost predicate Closed(g: Parents) {
    forall x :: x in g && g[x].Some? ==> g[x].value in g
  }

  ghost predicate IsForest(g: Parents) {
    Closed(g) && NoCycle(g)
  }

  lemma {:induction false} UpAdd(g: Parents, x: Id, m: nat, n: nat)
    requires Up(g, x, m).Some?
    ensures Up(g, x, m + n) == Up(g, Up(g, x, m).value, n)
    decreases m
  {
    if m > 0 {
      UpAdd(g, Next(g, x).value, m - 1, n);
    }
  }

  lemma {:induction false} UpPrefix(g: Parents, x: Id, m: nat, n: nat)
    requires m <= n && Up(g, x, n).Some?
    ensures Up(g, x, m).Some?
    decreases m
  {
    if m > 0 {
      UpPrefix(g, Next(g, x).value, m - 1, n - 1);
    }
  }

  lemma ReachesStep(g: Parents, x: Id, p: Id, y: Id)
    requires Next(g, x) == Some(p) && Reaches(g, p, y)
    ensures Reaches(g, x, y)
  {
    var n: nat :| Up(g, p, n) == Some(y);
    assert Up(g, x, n + 1) == Some(y);
  }

  /** A set closed under "parent of" keeps every chain that enters it. */
  lemma {:induction false} ClosedSetTraps(g: Parents, s: set<Id>, x: Id, n: nat)
    requires x in s
    requires forall y :: y in s && Next(g, y).Some? ==> Next(g, y).value in s
    ensures Up(g, x, n).Some? ==> Up(g, x, n).value in s
    decreases n
  {
    if n > 0 && Next(g, x).Some? {
      ClosedSetTraps(g, s, Next(g, x).value, n - 1);
    }
  }

  // ---- Ranks: the constructive form of "no cycle" ----

  ghost predicate Ranked(g: Parents, rank: map<Id, nat>) {
    && rank.Keys == g.Keys
    && forall x :: x in g && g[x].Some? && g[x].value in g ==> rank[g[x].value] < rank[x]
  }

  lemma {:induction false} RankDescends(g: Parents, rank: map<Id, nat>, x: Id, n: nat)
    requires Ranked(g, rank) && n > 0
    requires Up(g, x, n).Some? && Up(g, x, n).value in g
    ensures x in g && rank[Up(g, x, n).value] < rank[x]
    decreases n
  {
    var p := Next(g, x).value;
    if n > 1 {
      RankDescends(g, rank, p, n - 1);
    }
  }

  lemma RankedHasNoCycle(g: Parents, rank: map<Id, nat>)
    requires Ranked(g, rank)
    ensures NoCycle(g)
  {
    forall x: Id, n: nat | n > 0
      ensures Up(g, x, n) != Some(x)
    {
      if Up(g, x, n) == Some(x) {
        assert Next(g, x).Some?;
        RankDescends(g, rank, x, n);
        assert false;
      }
    }
  }

  /** Pigeonhole: without a cycle, a chain is no longer than the table. */
  lemma ChainsEnd(g: Parents, x: Id)
    requires NoCycle(g)
    ensures Up(g, x, |g| + 1) == None
  {
    assert |g.Keys| == |g|;
    if Up(g, x, |g| + 1).Some? {
      var n := |g| + 1;
      forall i | 0 <= i < n
        ensures Up(g, x, i).Some? && Up(g, x, i).value in g
      {
        UpPrefix(g, x, i, n);
        UpAdd(g, x, i, n - i);
        assert Next(g, Up(g, x, i).value).Some?;
      }
      var chain := seq(n, i requires 0 <= i < n => Up(g, x, i).value);
      forall i, j | 0 <= i < j < n
        ensures chain[i] != chain[j]
      {
        UpAdd(g, x, i, j - i);
        assert Up(g, chain[i], j - i) == Some(chain[j]);
      }
      ElementsCardinality(chain);
      SubsetCardinality(Elements(chain), g.Keys);
      assert false;
    }
  }

  /** How many ancestors x has. */
  ghost function Height(g: Parents, x: Id, bound: nat): nat
    decreases bound
  {
    if bound == 0 || Next(g, x).None? then 0
    else 1 + Height(g, Next(g, x).value, bound - 1)
  }

  lemma {:induction false} HeightStable(g: Parents, x: Id, a: nat, b: nat)
    requires Up(g, x, a) == None && a <= b
    ensures Height(g, x, a) == Height(g, x, b)
    decreases a
  {
    if Next(g, x).Some? {
      HeightStable(g, Next(g, x).value, a - 1, b - 1);
    }
  }

  /** The absence of a cycle is the same thing as the existence of a rank. */
  lemma NoCycleHasRank(g: Parents) returns (rank: map<Id, nat>)
    requires NoCycle(g)
    ensures Ranked(g, rank)
  {
    var n := |g| + 1;
    rank := map x | x in g :: Height(g, x, n);
    forall x | x in g && g[x].Some? && g[x].value in g
      ensures rank[g[x].value] < rank[x]
    {
      var p := g[x].value;
      ChainsEnd(g, x);
      ChainsEnd(g, p);
      assert Up(g, p, n - 1) == None;
      HeightStable(g, p, n - 1, n);
      assert Height(g, x, n) == 1 + Height(g, p, n - 1);
    }
  }

  // ---- What re-parenting does to the forest ----

  lemma AttachKeepsNoCycle(g: Parents, d: Id, p: Id)
    requires Closed(g) && NoCycle(g)
    requires !Reaches(g, p, d)
    ensures NoCycle(g[d := Some(p)])
  {
    var rank := NoCycleHasRank(g);
    var g' := g[d := Some(p)];
    var r := map x | x in g' :: if x in rank then rank[x] else 0;
    var lift: nat := (if p in r then r[p] else 0) + 1;
    var rank': map<Id, nat> := map x | x in g' :: if Reaches(g, x, d) then r[x] + lift else r[x];
    forall x | x in g' && g'[x].Some? && g'[x].value in g'
      ensures rank'[g'[x].value] < rank'[x]
    {
      var q := g'[x].value;
      if x == d {
        assert Up(g, d, 0) == Some(d);
      } else {
        assert q in g;
        if Reaches(g, q, d) {
          ReachesStep(g, x, q, d);
        }
      }
    }
    assert Ranked(g', rank');
    RankedHasNoCycle(g', rank');
  }

  /** A chain that has not met d yet is the same in both graphs. */
  lemma {:induction false} UpAgrees(g: Parents, g': Parents, d: Id, x: Id, n: nat)
    requires forall y :: y != d ==> Next(g, y) == Next(g', y)
    requires forall i: nat :: i < n ==> Up(g, x, i) != Some(d)
    ensures Up(g, x, n) == Up(g', x, n)
    decreases n
  {
    if n > 0 {
      assert Up(g, x, 0) != Some(d);
      if Next(g, x).Some? {
        var p := Next(g, x).value;
        forall i: nat | i < n - 1
          ensures Up(g, p, i) != Some(d)
        {
          assert Up(g, x, i + 1) == Up(g, p, i);
        }
        UpAgrees(g, g', d, p, n - 1);
      }
    }
  }

  lemma AttachClosesCycle(g: Parents, d: Id, p: Id)
    requires Reaches(g, p, d)
    ensures !NoCycle(g[d := Some(p)])
  {
    var g' := g[d := Some(p)];
    var n: nat :| Up(g, p, n) == Some(d);
    var k := FirstHit(g, p, d, n);
    UpAgrees(g, g', d, p, k);
    assert Up(g', d, k + 1) == Up(g', p, k) == Some(d);
  }

  lemma {:induction false} FirstHit(g: Parents, x: Id, d: Id, n: nat) returns (k: nat)
    requires Up(g, x, n) == Some(d)
    ensures Up(g, x, k) == Some(d) && forall i: nat :: i < k ==> Up(g, x, i) != Some(d)
    decreases n
  {
    if i: nat :| i < n && Up(g, x, i) == Some(d) {
      k := FirstHit(g, x, d, i);
    } else {
      k := n;
    }
  }

  /**
   The parent check is exact: hanging d under p keeps a forest a forest if and
   only if d is not p or one of p's ancestors.
   */
  lemma AttachSafeIff(g: Parents, d: Id, p: Id)
    requires IsForest(g) && p in g
    ensures IsForest(g[d := Some(p)]) <==> !Reaches(g, p, d)
  {
    if Reaches(g, p, d) {
      AttachClosesCycle(g, d, p);
    } else {
      AttachKeepsNoCycle(g, d, p);
    }
  }

  /** Making a row a root cannot close a chain. */
  lemma DetachKeepsForest(g: Parents, d: Id)
    requires IsForest(g)
    ensures IsForest(g[d := None])
  {
    var rank := NoCycleHasRank(g);
    var g' := g[d := None];
    RankedHasNoCycle(g', if d in rank then rank else rank[d := 0]);
  }

  /** Deleting a row and nulling its children's parent (ON DELETE SET NULL). */
  function Without(g: Parents, d: Id): Parents {
    map x | x in g && x != d :: if g[x] == Some(d) then None else g[x]
  }

  lemma WithoutKeepsForest(g: Parents, d: Id)
    requires IsForest(g)
    ensures IsForest(Without(g, d))
  {
    var rank := NoCycleHasRank(g);
    RankedHasNoCycle(Without(g, d), map x | x in rank && x != d :: rank[x]);
  }
}
