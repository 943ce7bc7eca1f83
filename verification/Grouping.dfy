/**
 GROUP BY with SUM, and grouping the groups again.  The one law behind every
 aggregate of the platform: adding up cells gives what adding up rows gives.
*/
module Grouping {

  ghost predicate Distinct<K>(ks: seq<K>) {
    forall i, j :: 0 <= i < j < |ks| ==> ks[i] != ks[j]
  }

  ghost predicate Covers<T(!new), K>(ks: seq<K>, xs: seq<T>, key: T -> K) {
    forall i :: 0 <= i < |xs| ==> key(xs[i]) in ks
  }

  /** No empty cells: GROUP BY only returns keys that some row has. */
  ghost predicate Inhabited<T(!new), K>(ks: seq<K>, xs: seq<T>, key: T -> K) {
    forall k :: k in ks ==> exists i :: 0 <= i < |xs| && key(xs[i]) == k
  }

  /** Sum of `f` over the rows of one cell. */
  function CellSum<T, K(==)>(xs: seq<T>, key: T -> K, k: K, f: T -> int): int {
    if xs == [] then 0
    else CellSum(xs[..|xs| - 1], key, k, f) + if key(xs[|xs| - 1]) == k then f(xs[|xs| - 1]) else 0
  }

  /** Sum of `f` over the rows whose key is selected. */
  function SumIf<T, K>(xs: seq<T>, key: T -> K, p: K -> bool, f: T -> int): int {
    if xs == [] then 0
    else SumIf(xs[..|xs| - 1], key, p, f) + if p(key(xs[|xs| - 1])) then f(xs[|xs| - 1]) else 0
  }

  function Sum<T>(xs: seq<T>, f: T -> int): int {
    if xs == [] then 0 else Sum(xs[..|xs| - 1], f) + f(xs[|xs| - 1])
  }

  /** Sum of the selected cells. */
  function SumCells<T, K(==)>(ks: seq<K>, p: K -> bool, xs: seq<T>, key: T -> K, f: T -> int): int {
    if ks == [] then 0
    else
      var k := ks[|ks| - 1];
      SumCells(ks[..|ks| - 1], p, xs, key, f) + if p(k) then CellSum(xs, key, k, f) else 0
  }

  lemma {:induction false} OneMoreRow<T, K>(ks: seq<K>, p: K -> bool, xs: seq<T>, key: T -> K, f: T -> int)
    requires Distinct(ks) && xs != []
    ensures
      var before, x := xs[..|xs| - 1], xs[|xs| - 1];
      SumCells(ks, p, xs, key, f)
        == SumCells(ks, p, before, key, f) + if key(x) in ks && p(key(x)) then f(x) else 0
    decreases |ks|
  {
    if ks != [] {
      var fewer, k := ks[..|ks| - 1], ks[|ks| - 1];
      assert k !in fewer;
      assert forall y :: y in ks <==> y in fewer || y == k;
      OneMoreRow(fewer, p, xs, key, f);
    }
  }

  /** Adding up the selected cells of a grouping is adding up the selected rows. */
  lemma {:induction false} Regroup<T(!new), K>(ks: seq<K>, p: K -> bool, xs: seq<T>, key: T -> K, f: T -> int)
    requires Distinct(ks) && Covers(ks, xs, key)
    ensures SumCells(ks, p, xs, key, f) == SumIf(xs, key, p, f)
    decreases |xs|
  {
    if xs == [] {
      NoRows(ks, p, xs, key, f);
    } else {
      OneMoreRow(ks, p, xs, key, f);
      assert key(xs[|xs| - 1]) in ks;
      Regroup(ks, p, xs[..|xs| - 1], key, f);
    }
  }

  lemma {:induction false} NoRows<T, K>(ks: seq<K>, p: K -> bool, xs: seq<T>, key: T -> K, f: T -> int)
    requires xs == []
    ensures SumCells(ks, p, xs, key, f) == 0
    decreases |ks|
  {
    if ks != [] {
      NoRows(ks[..|ks| - 1], p, xs, key, f);
    }
  }

  lemma {:induction false} SelectAll<T, K>(xs: seq<T>, key: T -> K, p: K -> bool, f: T -> int)
    requires forall i :: 0 <= i < |xs| ==> p(key(xs[i]))
    ensures SumIf(xs, key, p, f) == Sum(xs, f)
    decreases |xs|
  {
    if xs != [] {
      SelectAll(xs[..|xs| - 1], key, p, f);
    }
  }

  /** Rows selected by their fine cell are the rows of one coarse cell. */
  lemma {:induction false} SelectionIsCell<T(!new), K, L>(
      xs: seq<T>, key: T -> K, p: K -> bool, coarse: T -> L, l: L, f: T -> int)
    requires forall x :: p(key(x)) <==> coarse(x) == l
    ensures SumIf(xs, key, p, f) == CellSum(xs, coarse, l, f)
    decreases |xs|
  {
    if xs != [] {
      SelectionIsCell(xs[..|xs| - 1], key, p, coarse, l, f);
    }
  }
}
