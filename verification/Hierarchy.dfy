/**
 Self-referencing tables: each row names at most one parent.  Departments and
 menus share these facts about chains of parents, cycles and bounded searches.
*/
module Hierarchy {
  import opened Common

  type Parents = map<nat, Option<nat>>

  /** The parent column only holds ids of the table. */
  ghost predicate Closed(g: Parents) {
    forall n :: n in g && g[n].Some? ==> g[n].value in g
  }

  function Up(g: Parents, n: Option<nat>): Option<nat> {
    if n.None? || n.value !in g then None else g[n.value]
  }

  /** The k-th ancestor; a row is its own ancestor 0. */
  function Ancestor(g: Parents, n: nat, k: nat): Option<nat> {
    if k == 0 then Some(n) else Up(g, Ancestor(g, n, k - 1))
  }

  /** The chain of parents ends. */
  ghost predicate Rooted(g: Parents, n: nat) {
    exists k: nat :: Ancestor(g, n, k).None?
  }

  ghost predicate OnCycle(g: Parents, n: nat) {
    exists k: nat :: k > 0 && Ancestor(g, n, k) == Some(n)
  }

  /** A forest: every chain of parents ends. */
  ghost predicate Acyclic(g: Parents) {
    forall n :: n in g ==> Rooted(g, n)
  }

  ghost predicate IsAncestor(g: Parents, a: nat, n: nat) {
    exists k: nat :: Ancestor(g, n, k) == Some(a)
  }

  // ---------------------------------------------------------------- chains

  lemma {:induction false} AncestorPlus(g: Parents, n: nat, j: nat, k: nat)
    requires Ancestor(g, n, j).Some?
    ensures Ancestor(g, n, j + k) == Ancestor(g, Ancestor(g, n, j).value, k)
    decreases k
  {
    if k > 0 {
      AncestorPlus(g, n, j, k - 1);
    }
  }

  lemma {:induction false} EndedStaysEnded(g: Parents, n: nat, k: nat, m: nat)
    requires k <= m && Ancestor(g, n, k).None?
    ensures Ancestor(g, n, m).None?
    decreases m
  {
    if k < m {
      EndedStaysEnded(g, n, k, m - 1);
    }
  }

  lemma {:induction false} CycleRepeats(g: Parents, n: nat, k: nat, times: nat)
    requires Ancestor(g, n, k) == Some(n)
    ensures Ancestor(g, n, times * k) == Some(n)
    decreases times
  {
    if times == 0 {
      assert times * k == 0;
    } else {
      CycleRepeats(g, n, k, times - 1);
      assert times * k == (times - 1) * k + k;
      AncestorPlus(g, n, (times - 1) * k, k);
    }
  }

  lemma CycleIsNotRooted(g: Parents, n: nat)
    requires OnCycle(g, n)
    ensures !Rooted(g, n)
  {
    var k: nat :| k > 0 && Ancestor(g, n, k) == Some(n);
    if Rooted(g, n) {
      var m: nat :| Ancestor(g, n, m).None?;
      CycleRepeats(g, n, k, m);
      assert m * k >= m;
      EndedStaysEnded(g, n, m, m * k);
      assert false;
    }
  }

  /** On a chain that ends, no row occurs twice. */
  lemma RootedChainIsInjective(g: Parents, n: nat, i: nat, j: nat)
    requires Rooted(g, n) && i < j && Ancestor(g, n, i).Some?
    ensures Ancestor(g, n, i) != Ancestor(g, n, j)
  {
    if Ancestor(g, n, i) == Ancestor(g, n, j) {
      var a := Ancestor(g, n, i).value;
      AncestorPlus(g, n, i, j - i);
      CycleIsNotRooted(g, a);
      var m: nat :| Ancestor(g, n, m).None?;
      EndedStaysEnded(g, n, m, m + i);
      AncestorPlus(g, n, i, m);
      assert false;
    }
  }

  lemma {:induction false} AncestorsAreRows(g: Parents, n: nat, k: nat)
    requires Closed(g) && n in g && Ancestor(g, n, k).Some?
    ensures Ancestor(g, n, k).value in g
    decreases k
  {
    if k > 0 {
      AncestorsAreRows(g, n, k - 1);
    }
  }

  /** The ancestors 0 to k - 1, as far as the chain goes. */
  function Collect(g: Parents, n: nat, k: nat): set<nat> {
    if k == 0 then {}
    else Collect(g, n, k - 1) + match Ancestor(g, n, k - 1) case None => {} case Some(a) => {a}
  }

  lemma {:induction false} CollectedAt(g: Parents, n: nat, k: nat, x: nat) returns (i: nat)
    requires x in Collect(g, n, k)
    ensures i < k && Ancestor(g, n, i) == Some(x)
  {
    if Ancestor(g, n, k - 1) == Some(x) {
      i := k - 1;
    } else {
      i := CollectedAt(g, n, k - 1, x);
    }
  }

  /** The first k ancestors of a row, as long as the chain lasts, are k different rows. */
  lemma {:induction false} DistinctAncestors(g: Parents, n: nat, k: nat)
    requires Closed(g) && n in g && Rooted(g, n) && (k > 0 ==> Ancestor(g, n, k - 1).Some?)
    ensures |Collect(g, n, k)| == k && Collect(g, n, k) <= g.Keys
    decreases k
  {
    if k > 0 {
      DistinctAncestors(g, n, k - 1);
      AncestorsAreRows(g, n, k - 1);
      var a := Ancestor(g, n, k - 1).value;
      if a in Collect(g, n, k - 1) {
        var i := CollectedAt(g, n, k - 1, a);
        RootedChainIsInjective(g, n, i, k - 1);
        assert false;
      }
    }
  }

  lemma SubsetSize(a: set<nat>, b: set<nat>)
    requires a <= b
    ensures |a| <= |b|
  {
    if a != {} {
      var x :| x in a;
      SubsetSize(a - {x}, b - {x});
    }
  }

  /** In a forest of N rows every chain ends within N steps. */
  lemma ForestDepth(g: Parents, n: nat)
    requires Closed(g) && n in g && Rooted(g, n)
    ensures Ancestor(g, n, |g|).None?
  {
    assert |g.Keys| == |g|;
    if Ancestor(g, n, |g|).Some? {
      DistinctAncestors(g, n, |g| + 1);
      SubsetSize(Collect(g, n, |g| + 1), g.Keys);
      assert false;
    }
  }

  /** A finite table without cycles is a forest. */
  lemma AcyclicIffNoCycle(g: Parents)
    requires Closed(g)
    ensures Acyclic(g) <==> forall n :: n in g ==> !OnCycle(g, n)
  {
    if Acyclic(g) {
      forall n | n in g
        ensures !OnCycle(g, n)
      {
        if OnCycle(g, n) {
          CycleIsNotRooted(g, n);
          assert false;
        }
      }
    }
    if forall n :: n in g ==> !OnCycle(g, n) {
      forall n | n in g
        ensures Rooted(g, n)
      {
        WalkEnds(g, n, 0);
      }
    }
  }

  lemma {:induction false} WalkEnds(g: Parents, n: nat, k: nat)
    requires Closed(g) && n in g && (forall m :: m in g ==> !OnCycle(g, m))
    requires Collect(g, n, k) <= g.Keys
    ensures Rooted(g, n)
    decreases g.Keys - Collect(g, n, k)
  {
    if Ancestor(g, n, k).Some? {
      AncestorsAreRows(g, n, k);
      var a := Ancestor(g, n, k).value;
      if a in Collect(g, n, k) {
        var i := CollectedAt(g, n, k, a);
        AncestorPlus(g, n, i, k - i);
        assert false;
      }
      WalkEnds(g, n, k + 1);
    }
  }

  // ---------------------------------------------------------------- searching down and up

  function ChildrenOf(g: Parents, ids: set<nat>): set<nat> {
    set n | n in g && g[n].Some? && g[n].value in ids
  }

  function ParentsOf(g: Parents, ids: set<nat>): set<nat> {
    set n | n in ids && n in g && g[n].Some? :: g[n].value
  }

  /** `ids` and everything at most k child edges below. */
  function Below(g: Parents, ids: set<nat>, k: nat): set<nat> {
    if k == 0 then ids else Below(g, ids, k - 1) + ChildrenOf(g, Below(g, ids, k - 1))
  }

  /** `ids` and everything at most k parent edges above. */
  function Above(g: Parents, ids: set<nat>, k: nat): set<nat> {
    if k == 0 then ids else Above(g, ids, k - 1) + ParentsOf(g, Above(g, ids, k - 1))
  }

  ghost predicate ReachesWithin(g: Parents, n: nat, a: nat, k: nat) {
    exists j :: 0 <= j <= k && Ancestor(g, n, j) == Some(a)
  }

  lemma {:induction false} BelowIsDescendants(g: Parents, ids: set<nat>, k: nat, n: nat)
    ensures n in Below(g, ids, k) <==> exists a :: a in ids && ReachesWithin(g, n, a, k)
    decreases k
  {
    if k == 0 {
      assert Ancestor(g, n, 0) == Some(n);
      if n in ids {
        assert ReachesWithin(g, n, n, 0);
      }
    } else {
      BelowIsDescendants(g, ids, k - 1, n);
      if n in g && g[n].Some? {
        BelowIsDescendants(g, ids, k - 1, g[n].value);
      }
      if n in Below(g, ids, k) {
        if n in Below(g, ids, k - 1) {
          var a :| a in ids && ReachesWithin(g, n, a, k - 1);
          assert ReachesWithin(g, n, a, k);
        } else {
          var a :| a in ids && ReachesWithin(g, g[n].value, a, k - 1);
          var j :| 0 <= j <= k - 1 && Ancestor(g, g[n].value, j) == Some(a);
          OneUp(g, n, j);
          assert ReachesWithin(g, n, a, k);
        }
      }
      if a: nat :| a in ids && ReachesWithin(g, n, a, k) {
        var j :| 0 <= j <= k && Ancestor(g, n, j) == Some(a);
        if j == 0 {
          assert ReachesWithin(g, n, a, k - 1);
        } else {
          EndedStaysEndedBack(g, n, 1, j);
          OneUp(g, n, j - 1);
          assert ReachesWithin(g, g[n].value, a, k - 1);
        }
      }
    }
  }

  lemma OneUp(g: Parents, n: nat, j: nat)
    requires n in g && g[n].Some?
    ensures Ancestor(g, n, j + 1) == Ancestor(g, g[n].value, j)
  {
    assert Ancestor(g, n, 0) == Some(n);
    assert Ancestor(g, n, 1) == g[n];
    AncestorPlus(g, n, 1, j);
  }

  lemma EndedStaysEndedBack(g: Parents, n: nat, k: nat, m: nat)
    requires k <= m && Ancestor(g, n, m).Some?
    ensures Ancestor(g, n, k).Some?
    ensures k == 1 ==> n in g && g[n].Some?
  {
    if Ancestor(g, n, k).None? {
      EndedStaysEnded(g, n, k, m);
      assert false;
    }
    assert Ancestor(g, n, 0) == Some(n);
  }

  lemma {:induction false} AboveIsAncestors(g: Parents, ids: set<nat>, k: nat, a: nat)
    ensures a in Above(g, ids, k) <==> exists n :: n in ids && ReachesWithin(g, n, a, k)
    decreases k
  {
    if k == 0 {
      if a in ids {
        assert Ancestor(g, a, 0) == Some(a);
        assert ReachesWithin(g, a, a, 0);
      }
    } else {
      if a in Above(g, ids, k) {
        if a in Above(g, ids, k - 1) {
          AboveIsAncestors(g, ids, k - 1, a);
          var n :| n in ids && ReachesWithin(g, n, a, k - 1);
          assert ReachesWithin(g, n, a, k);
        } else {
          var b :| b in Above(g, ids, k - 1) && b in g && g[b] == Some(a);
          AboveIsAncestors(g, ids, k - 1, b);
          var n :| n in ids && ReachesWithin(g, n, b, k - 1);
          var j :| 0 <= j <= k - 1 && Ancestor(g, n, j) == Some(b);
          assert Ancestor(g, n, j + 1) == Some(a);
          assert ReachesWithin(g, n, a, k);
        }
      }
      if n: nat :| n in ids && ReachesWithin(g, n, a, k) {
        var j :| 0 <= j <= k && Ancestor(g, n, j) == Some(a);
        if j <= k - 1 {
          assert ReachesWithin(g, n, a, k - 1);
          AboveIsAncestors(g, ids, k - 1, a);
        } else {
          var b := Ancestor(g, n, j - 1).value;
          AboveIsAncestors(g, ids, k - 1, b);
          assert ReachesWithin(g, n, b, k - 1);
          assert b in Above(g, ids, k - 1) && b in g && g[b] == Some(a);
        }
      }
    }
  }

  lemma {:induction false} BelowSettles(g: Parents, ids: set<nat>, k: nat, m: nat)
    requires k <= m && ChildrenOf(g, Below(g, ids, k)) <= Below(g, ids, k)
    ensures Below(g, ids, m) == Below(g, ids, k)
    decreases m
  {
    if k < m {
      BelowSettles(g, ids, k, m - 1);
    }
  }

  lemma {:induction false} AboveSettles(g: Parents, ids: set<nat>, k: nat, m: nat)
    requires k <= m && ParentsOf(g, Above(g, ids, k)) <= Above(g, ids, k)
    ensures Above(g, ids, m) == Above(g, ids, k)
    decreases m
  {
    if k < m {
      AboveSettles(g, ids, k, m - 1);
    }
  }
}
