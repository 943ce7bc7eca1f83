/**
 Energy reports: the database groups the raw readings finely, and a loop merges
 these groups into buckets of the wanted dimension, pricing each group on its
 way.  Quantities, prices and money are integers scaled by 10^6, 10^6 and 10^4;
 a date is the integer yyyymmdd.
*/
module Consumption {
  import opened Common
  import opened Grouping
  import Rounding

  const MONEY_STEP: int := 100000000

  type Date = int

  datatype Dimension = ByMeter | ByArea | ByDepartment | ByEquipment | ByDay | ByMonth | ByYear

  /** A meter reading joined with its meter. */
  datatype Reading = Reading(
    meter: nat, area: Option<nat>, department: Option<nat>, equipment: Option<nat>,
    medium: nat, unit: string, tariff: nat, company: nat, day: Date, consumption: int)

  datatype Price = Price(
    company: nat, medium: nat, tariff: nat, isActive: bool, effectiveFrom: Date, effectiveTo: Option<Date>,
    unitPrice: nat)

  // ---------------------------------------------------------------- prices

  predicate Effective(p: Price, company: nat, medium: nat, tariff: nat, on: Date) {
    && p.company == company && p.medium == medium && p.tariff == tariff && p.isActive
    && p.effectiveFrom <= on && (p.effectiveTo.None? || on <= p.effectiveTo.value)
  }

  /** The effective price with the latest start, and of equal starts the newest row. */
  function ResolvePrice(prices: seq<Price>, company: nat, medium: nat, tariff: nat, on: Date): Option<Price> {
    if prices == [] then None
    else
      var best, p := ResolvePrice(prices[..|prices| - 1], company, medium, tariff, on), prices[|prices| - 1];
      if Effective(p, company, medium, tariff, on) && (best.None? || best.value.effectiveFrom <= p.effectiveFrom)
      then Some(p) else best
  }

  lemma {:induction false} PriceIsLatestEffective(prices: seq<Price>, company: nat, medium: nat, tariff: nat, on: Date)
    ensures
      var best := ResolvePrice(prices, company, medium, tariff, on);
      && (best.Some? ==> best.value in prices && Effective(best.value, company, medium, tariff, on))
      && (forall p :: p in prices && Effective(p, company, medium, tariff, on)
                      ==> best.Some? && p.effectiveFrom <= best.value.effectiveFrom)
    decreases |prices|
  {
    if prices != [] {
      PriceIsLatestEffective(prices[..|prices| - 1], company, medium, tariff, on);
      assert forall p :: p in prices <==> p in prices[..|prices| - 1] || p == prices[|prices| - 1];
    }
  }

  function EstimateCost(price: Option<Price>, usage: int): int {
    if price.None? then 0 else Rounding.HalfUp(usage * price.value.unitPrice, MONEY_STEP)
  }

  /** The cost before rounding, scaled by 10^12. */
  function RawCost(price: Option<Price>, usage: int): int {
    if price.None? then 0 else usage * price.value.unitPrice
  }

  // ---------------------------------------------------------------- keys

  datatype Key = Entity(id: Option<nat>) | Period(from: Date)

  /** What the database groups by. */
  datatype FineKey = Fine(key: Key, medium: nat, unit: string, tariff: nat, company: nat)

  /** What the merge loop groups by: an entity alone, or a period for each medium and unit. */
  datatype BucketKey = EntityBucket(id: Option<nat>) | PeriodBucket(from: Date, medium: nat, unit: string)

  function Truncate(d: Dimension, day: Date): Date {
    if d.ByMonth? then day - day % 100 + 1 else if d.ByYear? then day - day % 10000 + 101 else day
  }

  function DimensionKey(d: Dimension, r: Reading): Key {
    match d
    case ByMeter => Entity(Some(r.meter))
    case ByArea => Entity(r.area)
    case ByDepartment => Entity(r.department)
    case ByEquipment => Entity(r.equipment)
    case _ => Period(Truncate(d, r.day))
  }

  function FineKeyOf(d: Dimension): Reading -> FineKey {
    (r: Reading) => Fine(DimensionKey(d, r), r.medium, r.unit, r.tariff, r.company)
  }

  function BucketKeyOf(k: FineKey): BucketKey {
    match k.key
    case Entity(id) => EntityBucket(id)
    case Period(from) => PeriodBucket(from, k.medium, k.unit)
  }

  function ConsumptionOf(): Reading -> int {
    (r: Reading) => r.consumption
  }

  /** One group returned by the database. */
  datatype Row = Row(key: FineKey, usage: int)

  /** Entities are priced on one day for the whole report, periods on the first day of each. */
  function PriceDate(k: FineKey, onDate: Date): Date {
    if k.key.Period? then k.key.from else onDate
  }

  function RowPrice(prices: seq<Price>, onDate: Date, k: FineKey): Option<Price> {
    ResolvePrice(prices, k.company, k.medium, k.tariff, PriceDate(k, onDate))
  }

  function KeysOf(rows: seq<Row>): seq<FineKey> {
    if rows == [] then [] else KeysOf(rows[..|rows| - 1]) + [rows[|rows| - 1].key]
  }

  /** `rows` is what GROUP BY and SUM give for these readings, in some order. */
  ghost predicate IsGrouping(rows: seq<Row>, readings: seq<Reading>, d: Dimension) {
    && Distinct(KeysOf(rows))
    && Covers(KeysOf(rows), readings, FineKeyOf(d))
    && forall i :: 0 <= i < |rows| ==> rows[i].usage == CellSum(readings, FineKeyOf(d), rows[i].key, ConsumptionOf())
  }

  // ---------------------------------------------------------------- merging

  datatype Bucket = Bucket(consumption: int, cost: int, priced: bool, periods: seq<(nat, int)>)

  const EmptyBucket := Bucket(0, 0, true, [])

  function AddRow(b: Bucket, row: Row, price: Option<Price>): Bucket {
    Bucket(b.consumption + row.usage,
           b.cost + EstimateCost(price, row.usage),
           b.priced && price.Some?,
           b.periods + [(row.key.tariff, row.usage)])
  }

  /** The bucket `k` after merging the rows; None while no row belongs to it. */
  function Merged(rows: seq<Row>, prices: seq<Price>, onDate: Date, k: BucketKey): Option<Bucket> {
    if rows == [] then None
    else
      var before, row := Merged(rows[..|rows| - 1], prices, onDate, k), rows[|rows| - 1];
      if BucketKeyOf(row.key) != k then before
      else Some(AddRow(if before.Some? then before.value else EmptyBucket, row, RowPrice(prices, onDate, row.key)))
  }

  function InBucket(k: BucketKey): FineKey -> bool {
    (f: FineKey) => BucketKeyOf(f) == k
  }

  function RawCosts(rows: seq<Row>, prices: seq<Price>, onDate: Date, k: BucketKey): int {
    if rows == [] then 0
    else
      var row := rows[|rows| - 1];
      RawCosts(rows[..|rows| - 1], prices, onDate, k)
        + if BucketKeyOf(row.key) == k then RawCost(RowPrice(prices, onDate, row.key), row.usage) else 0
  }

  function GroupsIn(rows: seq<Row>, k: BucketKey): nat {
    if rows == [] then 0
    else GroupsIn(rows[..|rows| - 1], k) + if BucketKeyOf(rows[|rows| - 1].key) == k then 1 else 0
  }

  /** The merged consumption of a bucket, in terms of the groups. */
  lemma {:induction false} MergedIsCellSum(rows: seq<Row>, readings: seq<Reading>, d: Dimension,
                                           prices: seq<Price>, onDate: Date, k: BucketKey)
    requires forall i :: 0 <= i < |rows| ==>
      rows[i].usage == CellSum(readings, FineKeyOf(d), rows[i].key, ConsumptionOf())
    ensures (match Merged(rows, prices, onDate, k) case None => 0 case Some(b) => b.consumption)
         == SumCells(KeysOf(rows), InBucket(k), readings, FineKeyOf(d), ConsumptionOf())
    decreases |rows|
  {
    if rows != [] {
      var before := rows[..|rows| - 1];
      assert forall i :: 0 <= i < |before| ==> before[i] == rows[i];
      MergedIsCellSum(before, readings, d, prices, onDate, k);
      var keys := KeysOf(rows);
      assert keys[..|keys| - 1] == KeysOf(before) && keys[|keys| - 1] == rows[|rows| - 1].key;
    }
  }

  /** A bucket holds the consumption of exactly the raw readings that belong to it. */
  lemma BucketMatchesReadings(rows: seq<Row>, readings: seq<Reading>, d: Dimension,
                              prices: seq<Price>, onDate: Date, k: BucketKey)
    requires IsGrouping(rows, readings, d)
    ensures (match Merged(rows, prices, onDate, k) case None => 0 case Some(b) => b.consumption)
         == SumIf(readings, FineKeyOf(d), InBucket(k), ConsumptionOf())
  {
    MergedIsCellSum(rows, readings, d, prices, onDate, k);
    Regroup(KeysOf(rows), InBucket(k), readings, FineKeyOf(d), ConsumptionOf());
  }

  /** `priced` is false exactly when some group of the bucket has no effective price. */
  lemma {:induction false} PricedIff(rows: seq<Row>, prices: seq<Price>, onDate: Date, k: BucketKey)
    ensures Merged(rows, prices, onDate, k).Some? <==> exists i :: 0 <= i < |rows| && BucketKeyOf(rows[i].key) == k
    ensures Merged(rows, prices, onDate, k).Some? && !Merged(rows, prices, onDate, k).value.priced
       <==> exists i :: 0 <= i < |rows| && BucketKeyOf(rows[i].key) == k && RowPrice(prices, onDate, rows[i].key).None?
    decreases |rows|
  {
    if rows != [] {
      var before, row := rows[..|rows| - 1], rows[|rows| - 1];
      PricedIff(before, prices, onDate, k);
      assert forall i :: 0 <= i < |before| ==> before[i] == rows[i];
      if BucketKeyOf(row.key) == k {
        assert rows[|rows| - 1] == row;
      }
    }
  }

  /** The cost of a bucket is within half a hundredth of a cent for each of its groups. */
  lemma {:induction false} CostIsClose(rows: seq<Row>, prices: seq<Price>, onDate: Date, k: BucketKey)
    ensures
      var cost := match Merged(rows, prices, onDate, k) case None => 0 case Some(b) => b.cost;
      var error := 2 * (MONEY_STEP * cost - RawCosts(rows, prices, onDate, k));
      -MONEY_STEP * GroupsIn(rows, k) <= error <= MONEY_STEP * GroupsIn(rows, k)
    decreases |rows|
  {
    if rows != [] {
      var row := rows[|rows| - 1];
      var price := RowPrice(prices, onDate, row.key);
      CostIsClose(rows[..|rows| - 1], prices, onDate, k);
      if price.Some? {
        Rounding.RoundsToNearest(row.usage * price.value.unitPrice, MONEY_STEP);
      }
    }
  }

  // ---------------------------------------------------------------- the total of a report

  function TotalOf(ks: seq<BucketKey>, merged: map<BucketKey, Bucket>): int
    requires forall k :: k in ks ==> k in merged
  {
    if ks == [] then 0
    else
      assert forall k :: k in ks[..|ks| - 1] ==> k in ks;
      TotalOf(ks[..|ks| - 1], merged) + merged[ks[|ks| - 1]].consumption
  }

  function BucketOfReading(d: Dimension): Reading -> BucketKey {
    (r: Reading) => BucketKeyOf(FineKeyOf(d)(r))
  }

  function Any(): BucketKey -> bool {
    (k: BucketKey) => true
  }

  lemma {:induction false} TotalIsCells(
      ks: seq<BucketKey>, merged: map<BucketKey, Bucket>, readings: seq<Reading>, d: Dimension)
    requires forall k :: k in ks ==>
      k in merged && merged[k].consumption == CellSum(readings, BucketOfReading(d), k, ConsumptionOf())
    ensures TotalOf(ks, merged) == SumCells(ks, Any(), readings, BucketOfReading(d), ConsumptionOf())
    decreases |ks|
  {
    if ks != [] {
      assert forall k :: k in ks[..|ks| - 1] ==> k in ks;
      assert ks[|ks| - 1] in ks;
      TotalIsCells(ks[..|ks| - 1], merged, readings, d);
    }
  }

  /** The buckets a merge leaves, and their keys. */
  ghost predicate IsReport(
      ks: seq<BucketKey>, merged: map<BucketKey, Bucket>, rows: seq<Row>, prices: seq<Price>, onDate: Date) {
    && Distinct(ks)
    && (forall k :: k in ks <==> k in merged)
    && (forall k :: k in merged <==> Merged(rows, prices, onDate, k).Some?)
    && (forall k :: k in merged ==> Some(merged[k]) == Merged(rows, prices, onDate, k))
  }

  lemma {:induction false} RowKeysAreKeys(rows: seq<Row>, f: FineKey)
    requires f in KeysOf(rows)
    ensures exists i :: 0 <= i < |rows| && rows[i].key == f
    decreases |rows|
  {
    if rows != [] && f != rows[|rows| - 1].key {
      RowKeysAreKeys(rows[..|rows| - 1], f);
      var i :| 0 <= i < |rows| - 1 && rows[..|rows| - 1][i].key == f;
      assert rows[i].key == f;
    }
  }

  /** Whatever the dimension, the buckets of a report add up to the raw readings. */
  lemma ReportConserves(ks: seq<BucketKey>, merged: map<BucketKey, Bucket>, rows: seq<Row>, readings: seq<Reading>,
                        d: Dimension, prices: seq<Price>, onDate: Date)
    requires IsGrouping(rows, readings, d) && IsReport(ks, merged, rows, prices, onDate)
    ensures forall k :: k in ks ==> k in merged
    ensures TotalOf(ks, merged) == Sum(readings, ConsumptionOf())
  {
    forall k | k in ks
      ensures k in merged && merged[k].consumption == CellSum(readings, BucketOfReading(d), k, ConsumptionOf())
    {
      BucketMatchesReadings(rows, readings, d, prices, onDate, k);
      SelectionIsCell(readings, FineKeyOf(d), InBucket(k), BucketOfReading(d), k, ConsumptionOf());
    }
    TotalIsCells(ks, merged, readings, d);
    forall i | 0 <= i < |readings|
      ensures BucketOfReading(d)(readings[i]) in ks
    {
      var f := FineKeyOf(d)(readings[i]);
      RowKeysAreKeys(rows, f);
      PricedIff(rows, prices, onDate, BucketKeyOf(f));
    }
    Regroup(ks, Any(), readings, BucketOfReading(d), ConsumptionOf());
    SelectAll(readings, BucketOfReading(d), Any(), ConsumptionOf());
  }

  /** Two reports over the same readings agree on the total, in whatever dimensions and at whatever prices. */
  lemma DimensionsAgree(
      readings: seq<Reading>,
      d1: Dimension, rows1: seq<Row>, ks1: seq<BucketKey>, merged1: map<BucketKey, Bucket>, prices1: seq<Price>,
      on1: Date,
      d2: Dimension, rows2: seq<Row>, ks2: seq<BucketKey>, merged2: map<BucketKey, Bucket>, prices2: seq<Price>,
      on2: Date)
    requires IsGrouping(rows1, readings, d1) && IsReport(ks1, merged1, rows1, prices1, on1)
    requires IsGrouping(rows2, readings, d2) && IsReport(ks2, merged2, rows2, prices2, on2)
    ensures TotalOf(ks1, merged1) == TotalOf(ks2, merged2)
  {
    ReportConserves(ks1, merged1, rows1, readings, d1, prices1, on1);
    ReportConserves(ks2, merged2, rows2, readings, d2, prices2, on2);
  }

  // ---------------------------------------------------------------- a report in terms of the readings

  /** The reading belongs to the bucket: by its own column, or by its day, month or year with medium and unit. */
  predicate BelongsTo(r: Reading, d: Dimension, k: BucketKey) {
    match d
    case ByMeter => k == EntityBucket(Some(r.meter))
    case ByArea => k == EntityBucket(r.area)
    case ByDepartment => k == EntityBucket(r.department)
    case ByEquipment => k == EntityBucket(r.equipment)
    case ByDay => k == PeriodBucket(r.day, r.medium, r.unit)
    case ByMonth =>
      && k.PeriodBucket? && k.medium == r.medium && k.unit == r.unit
      && k.from / 100 == r.day / 100 && k.from % 100 == 1
    case ByYear =>
      && k.PeriodBucket? && k.medium == r.medium && k.unit == r.unit
      && k.from / 10000 == r.day / 10000 && k.from % 10000 == 101
  }

  lemma BelongsIff(r: Reading, d: Dimension, k: BucketKey)
    ensures BucketOfReading(d)(r) == k <==> BelongsTo(r, d, k)
  {
    var key := BucketKeyOf(FineKeyOf(d)(r));
    if d.ByDay? || d.ByMonth? || d.ByYear? {
      assert key == PeriodBucket(Truncate(d, r.day), r.medium, r.unit);
      if k.PeriodBucket? {
        FirstDayIff(r.day, k.from);
      }
    } else {
      assert key == EntityBucket(DimensionKey(d, r).id);
    }
  }

  /** The first day of a month, or of a year, by its digits. */
  lemma FirstDayIff(day: Date, from: Date)
    ensures from == Truncate(ByMonth, day) <==> from / 100 == day / 100 && from % 100 == 1
    ensures from == Truncate(ByYear, day) <==> from / 10000 == day / 10000 && from % 10000 == 101
  {
    assert day == 100 * (day / 100) + day % 100 && from == 100 * (from / 100) + from % 100;
    assert day == 10000 * (day / 10000) + day % 10000 && from == 10000 * (from / 10000) + from % 10000;
  }

  function Belonging(readings: seq<Reading>, d: Dimension, k: BucketKey): seq<Reading> {
    if readings == [] then []
    else
      var r := readings[|readings| - 1];
      Belonging(readings[..|readings| - 1], d, k) + if BelongsTo(r, d, k) then [r] else []
  }

  function UsageOf(readings: seq<Reading>): int {
    if readings == [] then 0 else UsageOf(readings[..|readings| - 1]) + readings[|readings| - 1].consumption
  }

  lemma UsageAppend(readings: seq<Reading>, r: Reading)
    ensures UsageOf(readings + [r]) == UsageOf(readings) + r.consumption
  {
    assert (readings + [r])[..|readings|] == readings;
  }

  lemma {:induction false} CellIsBelonging(readings: seq<Reading>, d: Dimension, k: BucketKey)
    ensures CellSum(readings, BucketOfReading(d), k, ConsumptionOf()) == UsageOf(Belonging(readings, d, k))
  {
    if readings != [] {
      var r, before := readings[|readings| - 1], Belonging(readings[..|readings| - 1], d, k);
      CellIsBelonging(readings[..|readings| - 1], d, k);
      BelongsIff(r, d, k);
      UsageAppend(before, r);
      assert before + [] == before;
    }
  }

  /** The day on which a reading is priced: the report's for an entity, the first of its period otherwise. */
  function PricedOn(k: BucketKey, onDate: Date): Date {
    if k.PeriodBucket? then k.from else onDate
  }

  /** Some active price of the reading's company, medium and tariff is in force on the day. */
  ghost predicate HasPrice(prices: seq<Price>, r: Reading, on: Date) {
    exists p :: p in prices && p.isActive && p.company == r.company && p.medium == r.medium && p.tariff == r.tariff
                && p.effectiveFrom <= on && (p.effectiveTo.Some? ==> on <= p.effectiveTo.value)
  }

  lemma HasPriceIff(prices: seq<Price>, d: Dimension, r: Reading, k: BucketKey, onDate: Date)
    requires BelongsTo(r, d, k)
    ensures RowPrice(prices, onDate, FineKeyOf(d)(r)).Some? <==> HasPrice(prices, r, PricedOn(k, onDate))
  {
    var f := FineKeyOf(d)(r);
    BelongsIff(r, d, k);
    PriceIsLatestEffective(prices, f.company, f.medium, f.tariff, PriceDate(f, onDate));
    if HasPrice(prices, r, PricedOn(k, onDate)) {
      var p :| p in prices && p.isActive && p.company == r.company && p.medium == r.medium && p.tariff == r.tariff
               && p.effectiveFrom <= PricedOn(k, onDate)
               && (p.effectiveTo.Some? ==> PricedOn(k, onDate) <= p.effectiveTo.value);
      assert Effective(p, f.company, f.medium, f.tariff, PriceDate(f, onDate));
    }
  }

  /** Groups of a bucket and readings that belong to it find each other. */
  lemma RowOfReading(rows: seq<Row>, readings: seq<Reading>, d: Dimension, k: BucketKey, i: nat) returns (j: nat)
    requires IsGrouping(rows, readings, d) && i < |readings| && BelongsTo(readings[i], d, k)
    ensures j < |rows| && rows[j].key == FineKeyOf(d)(readings[i]) && BucketKeyOf(rows[j].key) == k
  {
    BelongsIff(readings[i], d, k);
    RowKeysAreKeys(rows, FineKeyOf(d)(readings[i]));
    j :| 0 <= j < |rows| && rows[j].key == FineKeyOf(d)(readings[i]);
  }

  lemma ReadingOfRow(rows: seq<Row>, readings: seq<Reading>, d: Dimension, k: BucketKey, j: nat) returns (i: nat)
    requires Inhabited(KeysOf(rows), readings, FineKeyOf(d)) && j < |rows| && BucketKeyOf(rows[j].key) == k
    ensures i < |readings| && rows[j].key == FineKeyOf(d)(readings[i]) && BelongsTo(readings[i], d, k)
  {
    RowIsKey(rows, j);
    i :| 0 <= i < |readings| && FineKeyOf(d)(readings[i]) == rows[j].key;
    BelongsIff(readings[i], d, k);
  }

  lemma BucketExistsIff(
      rows: seq<Row>, readings: seq<Reading>, d: Dimension, prices: seq<Price>, onDate: Date, k: BucketKey)
    requires IsGrouping(rows, readings, d) && Inhabited(KeysOf(rows), readings, FineKeyOf(d))
    ensures Merged(rows, prices, onDate, k).Some? <==> exists i :: 0 <= i < |readings| && BelongsTo(readings[i], d, k)
  {
    PricedIff(rows, prices, onDate, k);
    if i :| 0 <= i < |readings| && BelongsTo(readings[i], d, k) {
      var j := RowOfReading(rows, readings, d, k, i);
      assert BucketKeyOf(rows[j].key) == k;
    }
    if j :| 0 <= j < |rows| && BucketKeyOf(rows[j].key) == k {
      var i := ReadingOfRow(rows, readings, d, k, j);
      assert BelongsTo(readings[i], d, k);
    }
  }

  ghost predicate AllPriced(readings: seq<Reading>, d: Dimension, prices: seq<Price>, onDate: Date, k: BucketKey) {
    forall i :: 0 <= i < |readings| && BelongsTo(readings[i], d, k)
           ==> HasPrice(prices, readings[i], PricedOn(k, onDate))
  }

  lemma PricedMeans(
      rows: seq<Row>, readings: seq<Reading>, d: Dimension, prices: seq<Price>, onDate: Date, k: BucketKey)
    requires IsGrouping(rows, readings, d) && Inhabited(KeysOf(rows), readings, FineKeyOf(d))
    requires Merged(rows, prices, onDate, k).Some?
    ensures Merged(rows, prices, onDate, k).value.priced <==> AllPriced(readings, d, prices, onDate, k)
  {
    PricedIff(rows, prices, onDate, k);
    if !Merged(rows, prices, onDate, k).value.priced {
      var j :| 0 <= j < |rows| && BucketKeyOf(rows[j].key) == k && RowPrice(prices, onDate, rows[j].key).None?;
      var i := ReadingOfRow(rows, readings, d, k, j);
      HasPriceIff(prices, d, readings[i], k, onDate);
      assert BelongsTo(readings[i], d, k) && !HasPrice(prices, readings[i], PricedOn(k, onDate));
    }
    if !AllPriced(readings, d, prices, onDate, k) {
      var i :| 0 <= i < |readings| && BelongsTo(readings[i], d, k)
               && !HasPrice(prices, readings[i], PricedOn(k, onDate));
      var j := RowOfReading(rows, readings, d, k, i);
      HasPriceIff(prices, d, readings[i], k, onDate);
      assert BucketKeyOf(rows[j].key) == k && RowPrice(prices, onDate, rows[j].key).None?;
    }
  }

  /**
   A report over what GROUP BY returns: there is a bucket exactly where some
   reading belongs; it holds the consumption of the readings that belong, and
   is priced exactly when each of them has a price in force.
  */
  lemma ReportMeans(ks: seq<BucketKey>, merged: map<BucketKey, Bucket>, rows: seq<Row>, readings: seq<Reading>,
                    d: Dimension, prices: seq<Price>, onDate: Date, k: BucketKey)
    requires IsGrouping(rows, readings, d) && IsReport(ks, merged, rows, prices, onDate)
    requires Inhabited(KeysOf(rows), readings, FineKeyOf(d))
    ensures k in merged <==> exists i :: 0 <= i < |readings| && BelongsTo(readings[i], d, k)
    ensures k in merged ==>
              && merged[k].consumption == UsageOf(Belonging(readings, d, k))
              && (merged[k].priced <==> AllPriced(readings, d, prices, onDate, k))
  {
    BucketExistsIff(rows, readings, d, prices, onDate, k);
    if k in merged {
      BucketMatchesReadings(rows, readings, d, prices, onDate, k);
      SelectionIsCell(readings, FineKeyOf(d), InBucket(k), BucketOfReading(d), k, ConsumptionOf());
      CellIsBelonging(readings, d, k);
      PricedMeans(rows, readings, d, prices, onDate, k);
    }
  }

  lemma {:induction false} RowIsKey(rows: seq<Row>, j: nat)
    requires j < |rows|
    ensures rows[j].key in KeysOf(rows)
  {
    if j < |rows| - 1 {
      RowIsKey(rows[..|rows| - 1], j);
    }
  }

  /** Row i is the best price: in force, with the latest start, and of equal starts the newest. */
  ghost predicate IsBestPrice(prices: seq<Price>, company: nat, medium: nat, tariff: nat, on: Date, i: int) {
    && 0 <= i < |prices| && Effective(prices[i], company, medium, tariff, on)
    && forall j :: 0 <= j < |prices| && Effective(prices[j], company, medium, tariff, on) ==>
         || prices[j].effectiveFrom < prices[i].effectiveFrom
         || (prices[j].effectiveFrom == prices[i].effectiveFrom && j <= i)
  }

  lemma {:induction false} ResolvedPriceIsBest(
      prices: seq<Price>, company: nat, medium: nat, tariff: nat, on: Date, i: int)
    requires IsBestPrice(prices, company, medium, tariff, on, i)
    ensures ResolvePrice(prices, company, medium, tariff, on) == Some(prices[i])
  {
    var before := prices[..|prices| - 1];
    if i < |prices| - 1 {
      assert forall j :: 0 <= j < |before| ==> before[j] == prices[j];
      ResolvedPriceIsBest(before, company, medium, tariff, on, i);
    } else {
      PriceIsLatestEffective(before, company, medium, tariff, on);
      if ResolvePrice(before, company, medium, tariff, on).Some? {
        var p := ResolvePrice(before, company, medium, tariff, on).value;
        var j :| 0 <= j < |before| && before[j] == p;
        assert prices[j] == p;
      }
    }
  }

  function UnitPriceOf(prices: seq<Price>, onDate: Date, f: FineKey): nat {
    match RowPrice(prices, onDate, f) case None => 0 case Some(p) => p.unitPrice
  }

  /** A reading's consumption at its price, before rounding. */
  function CostOf(prices: seq<Price>, onDate: Date, d: Dimension): Reading -> int {
    (r: Reading) => r.consumption * UnitPriceOf(prices, onDate, FineKeyOf(d)(r))
  }

  lemma {:induction false} CellCostScales(
      readings: seq<Reading>, d: Dimension, prices: seq<Price>, onDate: Date, f: FineKey)
    ensures CellSum(readings, FineKeyOf(d), f, CostOf(prices, onDate, d))
         == CellSum(readings, FineKeyOf(d), f, ConsumptionOf()) * UnitPriceOf(prices, onDate, f)
  {
    if readings != [] {
      var r, unit := readings[|readings| - 1], UnitPriceOf(prices, onDate, f);
      CellCostScales(readings[..|readings| - 1], d, prices, onDate, f);
      OneMoreProduct(CellSum(readings[..|readings| - 1], FineKeyOf(d), f, ConsumptionOf()), r.consumption, unit);
    }
  }

  lemma OneMoreProduct(a: int, b: int, c: int)
    ensures (a + b) * c == a * c + b * c
  {
  }

  lemma RawCostIsProduct(prices: seq<Price>, onDate: Date, f: FineKey, usage: int)
    ensures RawCost(RowPrice(prices, onDate, f), usage) == usage * UnitPriceOf(prices, onDate, f)
  {
  }

  lemma OneMoreCell(
      ks: seq<FineKey>, f: FineKey, k: BucketKey, readings: seq<Reading>, d: Dimension, cost: Reading -> int)
    ensures SumCells(ks + [f], InBucket(k), readings, FineKeyOf(d), cost)
         == SumCells(ks, InBucket(k), readings, FineKeyOf(d), cost)
            + if BucketKeyOf(f) == k then CellSum(readings, FineKeyOf(d), f, cost) else 0
  {
    assert (ks + [f])[..|ks|] == ks;
  }

  lemma PriceOfReading(prices: seq<Price>, d: Dimension, r: Reading, k: BucketKey, onDate: Date)
    requires BelongsTo(r, d, k)
    ensures CostOf(prices, onDate, d)(r)
         == match ResolvePrice(prices, r.company, r.medium, r.tariff, PricedOn(k, onDate))
            case None => 0 case Some(p) => r.consumption * p.unitPrice
  {
    BelongsIff(r, d, k);
    assert PriceDate(FineKeyOf(d)(r), onDate) == PricedOn(k, onDate);
  }

  lemma {:induction false} RawCostsAreCells(rows: seq<Row>, readings: seq<Reading>, d: Dimension,
                                            prices: seq<Price>, onDate: Date, k: BucketKey)
    requires forall i :: 0 <= i < |rows| ==>
      rows[i].usage == CellSum(readings, FineKeyOf(d), rows[i].key, ConsumptionOf())
    ensures RawCosts(rows, prices, onDate, k)
         == SumCells(KeysOf(rows), InBucket(k), readings, FineKeyOf(d), CostOf(prices, onDate, d))
    decreases |rows|
  {
    if rows != [] {
      var before, row := rows[..|rows| - 1], rows[|rows| - 1];
      assert forall i :: 0 <= i < |before| ==> before[i] == rows[i];
      RawCostsAreCells(before, readings, d, prices, onDate, k);
      CellCostScales(readings, d, prices, onDate, row.key);
      RawCostIsProduct(prices, onDate, row.key, row.usage);
      OneMoreCell(KeysOf(before), row.key, k, readings, d, CostOf(prices, onDate, d));
    }
  }

  /** The consumption of a reading at its price; without a price it costs nothing. */
  function CostOfReading(r: Reading, prices: seq<Price>, on: Date): int {
    match ResolvePrice(prices, r.company, r.medium, r.tariff, on)
    case None => 0
    case Some(p) => r.consumption * p.unitPrice
  }

  /** The readings' consumption, each at the price of its company, medium and tariff on the day of the bucket. */
  function CostOfReadings(readings: seq<Reading>, prices: seq<Price>, on: Date): int {
    if readings == [] then 0
    else
      CostOfReadings(readings[..|readings| - 1], prices, on) + CostOfReading(readings[|readings| - 1], prices, on)
  }

  lemma CostAppend(readings: seq<Reading>, r: Reading, prices: seq<Price>, on: Date)
    ensures CostOfReadings(readings + [r], prices, on)
         == CostOfReadings(readings, prices, on) + CostOfReading(r, prices, on)
  {
    assert (readings + [r])[..|readings|] == readings;
  }

  lemma {:induction false} CellCostIsBelonging(
      readings: seq<Reading>, d: Dimension, prices: seq<Price>, onDate: Date, k: BucketKey)
    ensures CellSum(readings, BucketOfReading(d), k, CostOf(prices, onDate, d))
         == CostOfReadings(Belonging(readings, d, k), prices, PricedOn(k, onDate))
  {
    if readings != [] {
      var r, before := readings[|readings| - 1], Belonging(readings[..|readings| - 1], d, k);
      CellCostIsBelonging(readings[..|readings| - 1], d, prices, onDate, k);
      BelongsIff(r, d, k);
      if BelongsTo(r, d, k) {
        PriceOfReading(prices, d, r, k, onDate);
      }
      CostAppend(before, r, prices, PricedOn(k, onDate));
      assert before + [] == before;
    }
  }

  /** A bucket's cost is that of its readings, up to half of the fourth decimal for each of its groups. */
  lemma ReportCostIsClose(ks: seq<BucketKey>, merged: map<BucketKey, Bucket>, rows: seq<Row>, readings: seq<Reading>,
                          d: Dimension, prices: seq<Price>, onDate: Date, k: BucketKey)
    requires IsGrouping(rows, readings, d) && IsReport(ks, merged, rows, prices, onDate) && k in merged
    ensures
      var exact := CostOfReadings(Belonging(readings, d, k), prices, PricedOn(k, onDate));
      var error := 2 * (100000000 * merged[k].cost - exact);
      -100000000 * GroupsIn(rows, k) <= error <= 100000000 * GroupsIn(rows, k)
  {
    CostIsClose(rows, prices, onDate, k);
    RawCostsAreCells(rows, readings, d, prices, onDate, k);
    Regroup(KeysOf(rows), InBucket(k), readings, FineKeyOf(d), CostOf(prices, onDate, d));
    SelectionIsCell(readings, FineKeyOf(d), InBucket(k), BucketOfReading(d), k, CostOf(prices, onDate, d));
    CellCostIsBelonging(readings, d, prices, onDate, k);
  }

  /** The groups of the bucket, with their tariff and usage, in the order in which they were merged. */
  function PeriodsOf(rows: seq<Row>, k: BucketKey): seq<(nat, int)> {
    if rows == [] then []
    else
      var row := rows[|rows| - 1];
      PeriodsOf(rows[..|rows| - 1], k) + if BucketKeyOf(row.key) == k then [(row.key.tariff, row.usage)] else []
  }

  lemma {:induction false} PeriodsMean(rows: seq<Row>, prices: seq<Price>, onDate: Date, k: BucketKey)
    ensures Merged(rows, prices, onDate, k).Some? ==>
              Merged(rows, prices, onDate, k).value.periods == PeriodsOf(rows, k)
    ensures Merged(rows, prices, onDate, k).None? ==> PeriodsOf(rows, k) == []
  {
    if rows != [] {
      PeriodsMean(rows[..|rows| - 1], prices, onDate, k);
    }
  }

  /** Four decimals, half up, of the usage at its price; nothing without a price. */
  lemma EstimateMeans(price: Option<Price>, usage: int)
    ensures price.None? ==> EstimateCost(price, usage) == 0
    ensures price.Some? ==> Rounding.IsHalfUp(EstimateCost(price, usage), usage * price.value.unitPrice, 100000000)
  {
    if price.Some? {
      Rounding.RoundsByItsRule(usage * price.value.unitPrice, MONEY_STEP);
    }
  }

  // ---------------------------------------------------------------- the loop

  /** The merge loop of consumption_rows and _period_rows; the order is that of the dictionary. */
  method MergeRows(rows: seq<Row>, prices: seq<Price>, onDate: Date)
    returns (order: seq<BucketKey>, merged: map<BucketKey, Bucket>)
    ensures IsReport(order, merged, rows, prices, onDate)
  {
    order, merged := [], map[];
    for i := 0 to |rows|
      invariant IsReport(order, merged, rows[..i], prices, onDate)
    {
      var row := rows[i];
      assert rows[..i + 1][..i] == rows[..i];
      var k := BucketKeyOf(row.key);
      if k !in merged {
        merged := merged[k := EmptyBucket];
        order := order + [k];
      }
      var bucket := merged[k];
      bucket := bucket.(consumption := bucket.consumption + row.usage);
      var price := RowPrice(prices, onDate, row.key);
      if price.None? {
        bucket := bucket.(priced := false);
      }
      bucket := bucket.(cost := bucket.cost + EstimateCost(price, row.usage));
      bucket := bucket.(periods := bucket.periods + [(row.key.tariff, row.usage)]);
      merged := merged[k := bucket];
    }
    assert rows[..|rows|] == rows;
  }
}
