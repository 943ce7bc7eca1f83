/**
 Live statistics of acquired readings: shift to business time, truncate to the
 hour or the day, shift back, and aggregate by point and bucket.  Nothing is
 stored, so every figure must agree with the raw readings.
*/
module ReadingStatistics {
  import opened Common
  import opened Grouping
  import Rounding

  /** Microseconds. */
  const HOUR: int := 3600 * 1000000
  const DAY: int := 24 * HOUR
  const ROW_LIMIT := 500
  const MAX_ROW_LIMIT := 2000
  const MAX_BUCKETS := 200

  datatype Granularity = Hourly | Daily

  function Size(g: Granularity): int {
    if g.Hourly? then HOUR else DAY
  }

  /** The truncation of a wall-clock time, as the database does it. */
  function Truncate(wall: int, size: int): int
    requires size > 0
  {
    wall - wall % size
  }

  /** Shift, truncate, unshift: the instant a reading's bucket starts. */
  function BucketStart(t: int, offset: int, size: int): int
    requires size > 0
  {
    Truncate(t + offset, size) - offset
  }

  /** `start` is a bucket boundary of the business clock and its bucket holds `t`. */
  predicate IsBucketOf(start: int, t: int, offset: int, size: int)
    requires size > 0
  {
    (start + offset) % size == 0 && start <= t < start + size
  }

  /** The computed bucket is the only aligned one that contains the reading. */
  lemma BucketIsTheOne(t: int, offset: int, g: Granularity, start: int)
    ensures IsBucketOf(start, t, offset, Size(g)) <==> start == BucketStart(t, offset, Size(g))
  {
    TruncationIsUnique(t + offset, start + offset, Size(g));
  }

  lemma TruncationIsUnique(wall: int, a: int, size: int)
    requires size > 0
    ensures a % size == 0 && a <= wall < a + size <==> a == Truncate(wall, size)
  {
    Rounding.FloorSplit(wall, size);
    Rounding.FloorSplit(a, size);
    var diff := wall / size - a / size;
    assert size * diff == size * (wall / size) - size * (a / size);
    Rounding.MulBounds(size, diff);
    if a == Truncate(wall, size) {
      Rounding.SameQuotient(wall / size, a / size, a % size, size);
    }
  }

  // ---------------------------------------------------------------- cells

  datatype Reading = Reading(point: nat, time: int, value: int, isSimulated: bool)

  datatype Cell = Cell(bucket: int, point: nat)

  function CellOf(offset: int, g: Granularity): Reading -> Cell {
    (r: Reading) => Cell(BucketStart(r.time, offset, Size(g)), r.point)
  }

  function BucketOf(offset: int, g: Granularity): Reading -> int {
    (r: Reading) => BucketStart(r.time, offset, Size(g))
  }

  function ValueOf(): Reading -> int {
    (r: Reading) => r.value
  }

  function One(): Reading -> int {
    (r: Reading) => 1
  }

  function SimulatedOne(): Reading -> int {
    (r: Reading) => if r.isSimulated then 1 else 0
  }

  function Any<K>(): K -> bool {
    k => true
  }

  function Least<K(==)>(rs: seq<Reading>, key: Reading -> K, k: K): Option<int> {
    if rs == [] then None
    else
      var best, r := Least(rs[..|rs| - 1], key, k), rs[|rs| - 1];
      if key(r) == k && (best.None? || r.value < best.value) then Some(r.value) else best
  }

  function Greatest<K(==)>(rs: seq<Reading>, key: Reading -> K, k: K): Option<int> {
    if rs == [] then None
    else
      var best, r := Greatest(rs[..|rs| - 1], key, k), rs[|rs| - 1];
      if key(r) == k && (best.None? || r.value > best.value) then Some(r.value) else best
  }

  datatype Limits = Limits(upper: Option<int>, lower: Option<int>)

  function Average(sum: int, count: int): int {
    if count <= 0 then 0 else Rounding.HalfUp(sum, count)
  }

  function IsOverLimit(limits: Limits, least: Option<int>, greatest: Option<int>): bool {
    || (limits.upper.Some? && greatest.Some? && greatest.value > limits.upper.value)
    || (limits.lower.Some? && least.Some? && least.value < limits.lower.value)
  }

  lemma {:induction false} ExtremesBound<K>(rs: seq<Reading>, key: Reading -> K, k: K)
    ensures
      var lo, hi, n := Least(rs, key, k), Greatest(rs, key, k), CellSum(rs, key, k, One());
      && n >= 0 && (n == 0 ==> CellSum(rs, key, k, ValueOf()) == 0) && (n > 0 <==> lo.Some?) && (n > 0 <==> hi.Some?)
      && (forall i :: 0 <= i < |rs| && key(rs[i]) == k ==> n > 0 && lo.value <= rs[i].value <= hi.value)
      && (lo.Some? ==> exists i :: 0 <= i < |rs| && key(rs[i]) == k && rs[i].value == lo.value)
      && (hi.Some? ==> exists i :: 0 <= i < |rs| && key(rs[i]) == k && rs[i].value == hi.value)
      && (n > 0 ==> lo.value <= hi.value && n * lo.value <= CellSum(rs, key, k, ValueOf()) <= n * hi.value)
    decreases |rs|
  {
    if rs != [] {
      var before, r := rs[..|rs| - 1], rs[|rs| - 1];
      ExtremesBound(before, key, k);
      var n := CellSum(before, key, k, One());
      assert forall i :: 0 <= i < |before| ==> before[i] == rs[i];
      if key(r) == k && n > 0 {
        var lo, hi := Least(before, key, k).value, Greatest(before, key, k).value;
        var lo', hi' := Least(rs, key, k).value, Greatest(rs, key, k).value;
        Widen(n, lo, lo');
        Widen(n, hi', hi);
      }
    }
  }

  lemma Widen(n: int, lo: int, lo': int)
    requires n >= 0 && lo' <= lo
    ensures n * lo' <= n * lo && (n + 1) * lo == n * lo + lo && (n + 1) * lo' == n * lo' + lo'
  {
  }

  /** The rounded mean of a cell stays between its extremes. */
  lemma MeanIsBetween<K>(rs: seq<Reading>, key: Reading -> K, k: K)
    requires CellSum(rs, key, k, One()) > 0
    ensures Least(rs, key, k).Some? && Greatest(rs, key, k).Some?
    ensures Least(rs, key, k).value
         <= Average(CellSum(rs, key, k, ValueOf()), CellSum(rs, key, k, One()))
         <= Greatest(rs, key, k).value
  {
    ExtremesBound(rs, key, k);
    Rounding.HalfUpStaysBetween(CellSum(rs, key, k, ValueOf()), CellSum(rs, key, k, One()),
                                Least(rs, key, k).value, Greatest(rs, key, k).value);
  }

  ghost predicate Breaks(limits: Limits, value: int) {
    (limits.upper.Some? && value > limits.upper.value) || (limits.lower.Some? && value < limits.lower.value)
  }

  /** The flag of a row holds exactly when one of its readings breaks a limit. */
  lemma {:induction false} OverLimitIff<K>(rs: seq<Reading>, key: Reading -> K, k: K, limits: Limits)
    ensures IsOverLimit(limits, Least(rs, key, k), Greatest(rs, key, k))
       <==> exists i :: 0 <= i < |rs| && key(rs[i]) == k && Breaks(limits, rs[i].value)
  {
    ExtremesBound(rs, key, k);
  }

  /** A row counts as simulated exactly when all its readings are. */
  lemma {:induction false} SimulatedIff<K>(rs: seq<Reading>, key: Reading -> K, k: K)
    ensures CellSum(rs, key, k, SimulatedOne()) <= CellSum(rs, key, k, One())
    ensures CellSum(rs, key, k, SimulatedOne()) >= CellSum(rs, key, k, One())
       <==> forall i :: 0 <= i < |rs| && key(rs[i]) == k ==> rs[i].isSimulated
    decreases |rs|
  {
    if rs != [] {
      var before := rs[..|rs| - 1];
      assert forall i :: 0 <= i < |before| ==> before[i] == rs[i];
      SimulatedIff(before, key, k);
    }
  }

  // ---------------------------------------------------------------- totals

  /** Counts and sums over all cells are the counts and sums over all readings. */
  lemma CellsConserve<K>(ks: seq<K>, rs: seq<Reading>, key: Reading -> K)
    requires Distinct(ks) && Covers(ks, rs, key)
    ensures SumCells(ks, Any(), rs, key, One()) == |rs|
    ensures SumCells(ks, Any(), rs, key, ValueOf()) == Sum(rs, ValueOf())
    ensures SumCells(ks, Any(), rs, key, SimulatedOne()) == Sum(rs, SimulatedOne())
  {
    Regroup(ks, Any(), rs, key, One());
    Regroup(ks, Any(), rs, key, ValueOf());
    Regroup(ks, Any(), rs, key, SimulatedOne());
    SelectAll(rs, key, Any(), One());
    SelectAll(rs, key, Any(), ValueOf());
    SelectAll(rs, key, Any(), SimulatedOne());
    CountIsLength(rs);
  }

  function InBucket(b: int): Cell -> bool {
    (c: Cell) => c.bucket == b
  }

  /** The detail cells of a bucket add up to the trend of that bucket: in counts, simulated counts and sums. */
  lemma TrendMatchesDetail(cells: seq<Cell>, rs: seq<Reading>, offset: int, g: Granularity, b: int)
    requires Distinct(cells) && Covers(cells, rs, CellOf(offset, g))
    ensures SumCells(cells, InBucket(b), rs, CellOf(offset, g), One()) == CellSum(rs, BucketOf(offset, g), b, One())
    ensures SumCells(cells, InBucket(b), rs, CellOf(offset, g), SimulatedOne())
         == CellSum(rs, BucketOf(offset, g), b, SimulatedOne())
    ensures SumCells(cells, InBucket(b), rs, CellOf(offset, g), ValueOf())
         == CellSum(rs, BucketOf(offset, g), b, ValueOf())
  {
    BucketCells(cells, rs, offset, g, b, One());
    BucketCells(cells, rs, offset, g, b, SimulatedOne());
    BucketCells(cells, rs, offset, g, b, ValueOf());
  }

  lemma BucketCells(cells: seq<Cell>, rs: seq<Reading>, offset: int, g: Granularity, b: int, f: Reading -> int)
    requires Distinct(cells) && Covers(cells, rs, CellOf(offset, g))
    ensures SumCells(cells, InBucket(b), rs, CellOf(offset, g), f) == CellSum(rs, BucketOf(offset, g), b, f)
  {
    Regroup(cells, InBucket(b), rs, CellOf(offset, g), f);
    SelectionIsCell(rs, CellOf(offset, g), InBucket(b), BucketOf(offset, g), b, f);
  }

  lemma {:induction false} CountIsLength(rs: seq<Reading>)
    ensures Sum(rs, One()) == |rs|
  {
    if rs != [] {
      CountIsLength(rs[..|rs| - 1]);
    }
  }

  lemma {:induction false} CutLosesRows<K>(ks: seq<K>, n: nat, rs: seq<Reading>, key: Reading -> K)
    requires n <= |ks| && Inhabited(ks, rs, key)
    ensures SumCells(ks[..n], Any(), rs, key, One()) + (|ks| - n) <= SumCells(ks, Any(), rs, key, One())
    decreases |ks| - n
  {
    if n == |ks| {
      assert ks[..n] == ks;
    } else {
      CutLosesRows(ks, n + 1, rs, key);
      assert ks[..n + 1][..n] == ks[..n];
      assert ks[n] in ks;
      var i :| 0 <= i < |rs| && key(rs[i]) == ks[n];
      ExtremesBound(rs, key, ks[n]);
    }
  }

  /** A listing cut to `limit` cells adds up to the overall count exactly when nothing was cut. */
  lemma CutAddsUpIff<K>(ks: seq<K>, limit: nat, rs: seq<Reading>, key: Reading -> K)
    requires Distinct(ks) && Covers(ks, rs, key) && Inhabited(ks, rs, key)
    ensures SumCells(if |ks| <= limit then ks else ks[..limit], Any(), rs, key, One()) == |rs| <==> |ks| <= limit
  {
    CellsConserve(ks, rs, key);
    if |ks| > limit {
      CutLosesRows(ks, limit, rs, key);
    }
  }

  /**
   The trend list is cut at MAX_BUCKETS without any mark in the answer: its
   counts add up to the overall count exactly when there are no more buckets.
  */
  lemma TrendAddsUpIff(buckets: seq<int>, rs: seq<Reading>, offset: int, g: Granularity)
    requires Distinct(buckets) && Covers(buckets, rs, BucketOf(offset, g))
    requires Inhabited(buckets, rs, BucketOf(offset, g))
    ensures SumCells(if |buckets| <= MAX_BUCKETS then buckets else buckets[..MAX_BUCKETS],
                     Any(), rs, BucketOf(offset, g), One()) == |rs|
       <==> |buckets| <= 200
  {
    CutAddsUpIff(buckets, MAX_BUCKETS, rs, BucketOf(offset, g));
  }

  // ---------------------------------------------------------------- the query

  datatype Row = Row(cell: Cell, sampleCount: int, simulatedCount: int, valueSum: int,
                     valueMin: Option<int>, valueMax: Option<int>, valueAvg: int, isOverLimit: bool, isSimulated: bool)

  function RowOf(rs: seq<Reading>, key: Reading -> Cell, limits: nat -> Limits, c: Cell): Row {
    var n, simulated := CellSum(rs, key, c, One()), CellSum(rs, key, c, SimulatedOne());
    var sum := CellSum(rs, key, c, ValueOf());
    var lo, hi := Least(rs, key, c), Greatest(rs, key, c);
    Row(c, n, simulated, sum, lo, hi, Average(sum, n), IsOverLimit(limits(c.point), lo, hi), simulated >= n)
  }

  function CountsOf(rows: seq<Row>): int {
    if rows == [] then 0 else CountsOf(rows[..|rows| - 1]) + rows[|rows| - 1].sampleCount
  }

  lemma {:induction false} RowCountsAreCells(rs: seq<Reading>, key: Reading -> Cell, limits: nat -> Limits,
                                             cells: seq<Cell>, rows: seq<Row>)
    requires |rows| == |cells| && forall i :: 0 <= i < |rows| ==> rows[i] == RowOf(rs, key, limits, cells[i])
    ensures CountsOf(rows) == SumCells(cells, Any(), rs, key, One())
    decreases |rows|
  {
    if rows != [] {
      RowCountsAreCells(rs, key, limits, cells[..|cells| - 1], rows[..|rows| - 1]);
    }
  }

  // ---------------------------------------------------------------- what a row says

  /** The readings of the point whose time lies in the bucket. */
  function InCell(rs: seq<Reading>, offset: int, g: Granularity, c: Cell): seq<Reading> {
    if rs == [] then []
    else
      var r := rs[|rs| - 1];
      InCell(rs[..|rs| - 1], offset, g, c)
        + if r.point == c.point && IsBucketOf(c.bucket, r.time, offset, if g.Hourly? then 3600000000 else 86400000000)
          then [r] else []
  }

  function SumOfValues(rs: seq<Reading>): int {
    if rs == [] then 0 else SumOfValues(rs[..|rs| - 1]) + rs[|rs| - 1].value
  }

  function CountOfSimulated(rs: seq<Reading>): int {
    if rs == [] then 0 else CountOfSimulated(rs[..|rs| - 1]) + if rs[|rs| - 1].isSimulated then 1 else 0
  }

  lemma InCellIff(r: Reading, offset: int, g: Granularity, c: Cell)
    ensures CellOf(offset, g)(r) == c
       <==> r.point == c.point && IsBucketOf(c.bucket, r.time, offset, if g.Hourly? then 3600000000 else 86400000000)
  {
    BucketIsTheOne(r.time, offset, g, c.bucket);
  }

  lemma AppendSums(rs: seq<Reading>, r: Reading)
    ensures SumOfValues(rs + [r]) == SumOfValues(rs) + r.value
    ensures CountOfSimulated(rs + [r]) == CountOfSimulated(rs) + if r.isSimulated then 1 else 0
  {
    assert (rs + [r])[..|rs|] == rs;
  }

  lemma {:induction false} CellIsInCell(rs: seq<Reading>, offset: int, g: Granularity, c: Cell)
    ensures
      var mine, key := InCell(rs, offset, g, c), CellOf(offset, g);
      && CellSum(rs, key, c, One()) == |mine|
      && CellSum(rs, key, c, ValueOf()) == SumOfValues(mine)
      && CellSum(rs, key, c, SimulatedOne()) == CountOfSimulated(mine)
  {
    if rs != [] {
      var before, r := rs[..|rs| - 1], rs[|rs| - 1];
      CellIsInCell(before, offset, g, c);
      InCellIff(r, offset, g, c);
      AppendSums(InCell(before, offset, g, c), r);
      assert InCell(before, offset, g, c) + [] == InCell(before, offset, g, c);
    }
  }

  lemma {:induction false} InCellHas(rs: seq<Reading>, offset: int, g: Granularity, c: Cell, r: Reading)
    ensures r in InCell(rs, offset, g, c) <==> exists i :: 0 <= i < |rs| && rs[i] == r && CellOf(offset, g)(rs[i]) == c
  {
    if rs != [] {
      var before, last := rs[..|rs| - 1], rs[|rs| - 1];
      InCellHas(before, offset, g, c, r);
      InCellIff(last, offset, g, c);
      if i :| 0 <= i < |rs| && rs[i] == r && CellOf(offset, g)(rs[i]) == c {
        assert i < |before| ==> before[i] == rs[i];
      }
      if i :| 0 <= i < |before| && before[i] == r && CellOf(offset, g)(before[i]) == c {
        assert rs[i] == before[i];
      }
    }
  }

  /** A row: count, sum, extremes, mean and flags of exactly the readings in its cell. */
  ghost predicate RowMeans(row: Row, c: Cell, mine: seq<Reading>, limits: Limits) {
    && row.cell == c && row.sampleCount == |mine| && row.valueSum == SumOfValues(mine)
    && row.simulatedCount == CountOfSimulated(mine)
    && (mine == [] <==> row.valueMin.None?) && (mine == [] <==> row.valueMax.None?)
    && (row.valueMin.Some? ==>
          && (exists r :: r in mine && r.value == row.valueMin.value)
          && forall r :: r in mine ==> row.valueMin.value <= r.value)
    && (row.valueMax.Some? ==>
          && (exists r :: r in mine && r.value == row.valueMax.value)
          && forall r :: r in mine ==> r.value <= row.valueMax.value)
    && (mine != [] ==> Rounding.IsHalfUp(row.valueAvg, SumOfValues(mine), |mine|))
    && (row.isOverLimit <==> exists r :: r in mine && Breaks(limits, r.value))
    && (row.isSimulated <==> forall r :: r in mine ==> r.isSimulated)
  }

  lemma RowOfMeans(rs: seq<Reading>, offset: int, g: Granularity, limits: nat -> Limits, c: Cell)
    ensures RowMeans(RowOf(rs, CellOf(offset, g), limits, c), c, InCell(rs, offset, g, c), limits(c.point))
  {
    var key, mine := CellOf(offset, g), InCell(rs, offset, g, c);
    CellIsInCell(rs, offset, g, c);
    ExtremesMean(rs, offset, g, c);
    FlagsMean(rs, offset, g, c, limits(c.point));
    if mine != [] {
      Rounding.RoundsByItsRule(SumOfValues(mine), |mine|);
    }
  }

  lemma ExtremesMean(rs: seq<Reading>, offset: int, g: Granularity, c: Cell)
    ensures
      var mine, lo, hi := InCell(rs, offset, g, c), Least(rs, CellOf(offset, g), c), Greatest(rs, CellOf(offset, g), c);
      && (mine == [] <==> lo.None?) && (mine == [] <==> hi.None?)
      && (lo.Some? ==> (exists r :: r in mine && r.value == lo.value) && forall r :: r in mine ==> lo.value <= r.value)
      && (hi.Some? ==> (exists r :: r in mine && r.value == hi.value) && forall r :: r in mine ==> r.value <= hi.value)
  {
    var key, mine := CellOf(offset, g), InCell(rs, offset, g, c);
    var lo, hi := Least(rs, key, c), Greatest(rs, key, c);
    ExtremesBound(rs, key, c);
    CellIsInCell(rs, offset, g, c);
    if lo.Some? {
      var i :| 0 <= i < |rs| && key(rs[i]) == c && rs[i].value == lo.value;
      InCellHas(rs, offset, g, c, rs[i]);
      var j :| 0 <= j < |rs| && key(rs[j]) == c && rs[j].value == hi.value;
      InCellHas(rs, offset, g, c, rs[j]);
      forall r | r in mine
        ensures lo.value <= r.value <= hi.value
      {
        InCellHas(rs, offset, g, c, r);
      }
    }
  }

  lemma FlagsMean(rs: seq<Reading>, offset: int, g: Granularity, c: Cell, limits: Limits)
    ensures
      var key, mine := CellOf(offset, g), InCell(rs, offset, g, c);
      && (IsOverLimit(limits, Least(rs, key, c), Greatest(rs, key, c))
          <==> exists r :: r in mine && Breaks(limits, r.value))
      && (CellSum(rs, key, c, SimulatedOne()) >= CellSum(rs, key, c, One())
          <==> forall r :: r in mine ==> r.isSimulated)
  {
    var key, mine := CellOf(offset, g), InCell(rs, offset, g, c);
    OverLimitIff(rs, key, c, limits);
    SimulatedIff(rs, key, c);
    forall i | 0 <= i < |rs| && key(rs[i]) == c
      ensures rs[i] in mine
    {
      InCellHas(rs, offset, g, c, rs[i]);
    }
    forall r | r in mine
      ensures exists i :: 0 <= i < |rs| && rs[i] == r && key(rs[i]) == c
    {
      InCellHas(rs, offset, g, c, r);
    }
  }

  /**
   The detail rows of reading_statistics, from the cells in the order the
   database returns them: fetch one more than the limit, note whether it was
   there, and drop it again.
  */
  method DetailRows(
      rs: seq<Reading>, offset: int, g: Granularity, limits: nat -> Limits, cells: seq<Cell>, limit: Option<int>)
    returns (rows: seq<Row>, truncated: bool)
    requires Distinct(cells) && Covers(cells, rs, CellOf(offset, g)) && Inhabited(cells, rs, CellOf(offset, g))
    ensures
      var wanted := if limit.None? || limit.value == 0 then 500 else limit.value;
      var rowLimit := if wanted < 1 then 1 else if wanted < 2000 then wanted else 2000;
      && |rows| == (if |cells| <= rowLimit then |cells| else rowLimit)
      && (truncated <==> |cells| > rowLimit)
    ensures forall i :: 0 <= i < |rows| ==> rows[i] == RowOf(rs, CellOf(offset, g), limits, cells[i])
    ensures forall i :: 0 <= i < |rows| ==>
              RowMeans(rows[i], cells[i], InCell(rs, offset, g, cells[i]), limits(cells[i].point))
    ensures CountsOf(rows) == |rs| <==> !truncated
  {
    var wanted := if limit.Some? && limit.value != 0 then limit.value else ROW_LIMIT;
    var rowLimit := Max(1, if wanted < MAX_ROW_LIMIT then wanted else MAX_ROW_LIMIT);
    var fetched := if |cells| <= rowLimit + 1 then cells else cells[..rowLimit + 1];
    rows := [];
    for i := 0 to |fetched|
      invariant |rows| == i
      invariant forall j :: 0 <= j < i ==> rows[j] == RowOf(rs, CellOf(offset, g), limits, cells[j])
    {
      rows := rows + [RowOf(rs, CellOf(offset, g), limits, fetched[i])];
    }
    forall c: Cell
      ensures RowMeans(RowOf(rs, CellOf(offset, g), limits, c), c, InCell(rs, offset, g, c), limits(c.point))
    {
      RowOfMeans(rs, offset, g, limits, c);
    }
    truncated := |rows| > rowLimit;
    rows := if |rows| <= rowLimit then rows else rows[..rowLimit];
    CutAddsUpIff(cells, rowLimit, rs, CellOf(offset, g));
    RowCountsAreCells(rs, CellOf(offset, g), limits, if |cells| <= rowLimit then cells else cells[..rowLimit], rows);
  }
}
