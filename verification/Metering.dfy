/**
 Meter readings.  Each reading freezes the consumption since the previous one,
 rounded to six decimals; summed over time these consumptions telescope up to
 the accumulated rounding.  Readings, multiplier and consumption are integers
 scaled by 10^6, 10^10 and 10^6.
*/
module Metering {
  import opened Common
  import opened Rounding
  import AlarmLedger

  const RATE_SCALE: int := 10000000000

  datatype MeterStatus = Online | Offline | Stopped

  datatype Reading = Reading(at: int, value: int, consumption: int)

  datatype Meter = Meter(multiplier: nat, status: MeterStatus, lastReadingAt: Option<int>)

  datatype Error = ReadingNegative | ReadingRollback

  /** The reading with the greatest (time, id) not after `moment`. */
  function Previous(rs: seq<Reading>, moment: int): Option<Reading> {
    if rs == [] then None
    else
      var best, r := Previous(rs[..|rs| - 1], moment), rs[|rs| - 1];
      if r.at <= moment && (best.None? || best.value.at <= r.at) then Some(r) else best
  }

  function Consumption(previous: Option<Reading>, value: int, multiplier: nat): int {
    var delta := if previous.Some? then value - previous.value.value else 0;
    HalfEven(delta * multiplier, RATE_SCALE)
  }

  function Record(rs: seq<Reading>, multiplier: nat, value: int, moment: int): Result<Reading, Error> {
    if value < 0 then Err(ReadingNegative)
    else
      var previous := Previous(rs, moment);
      if previous.Some? && value < previous.value.value then Err(ReadingRollback)
      else Ok(Reading(moment, value, Consumption(previous, value, multiplier)))
  }

  datatype Input = Input(value: int, moment: int)

  /** A run of meter readings; refused ones leave no row. */
  function RecordAll(rs: seq<Reading>, multiplier: nat, inputs: seq<Input>): seq<Reading>
    decreases |inputs|
  {
    if inputs == [] then rs
    else
      var r := Record(rs, multiplier, inputs[0].value, inputs[0].moment);
      RecordAll(if r.Ok? then rs + [r.value] else rs, multiplier, inputs[1..])
  }

  function Total(rs: seq<Reading>): int {
    if rs == [] then 0 else Total(rs[..|rs| - 1]) + rs[|rs| - 1].consumption
  }

  // ---------------------------------------------------------------- what one reading means

  /** Row i is the last up to `moment`: none is later, and none at the same time was inserted after it. */
  ghost predicate IsLatestUpTo(rs: seq<Reading>, moment: int, i: int) {
    && 0 <= i < |rs| && rs[i].at <= moment
    && forall j :: 0 <= j < |rs| && rs[j].at <= moment ==> rs[j].at < rs[i].at || (rs[j].at == rs[i].at && j <= i)
  }

  lemma {:induction false} PreviousIs(rs: seq<Reading>, moment: int)
    ensures Previous(rs, moment).Some? <==> exists i :: 0 <= i < |rs| && rs[i].at <= moment
    ensures Previous(rs, moment).Some? ==>
              exists i :: IsLatestUpTo(rs, moment, i) && Previous(rs, moment) == Some(rs[i])
  {
    if rs != [] {
      var before, last := rs[..|rs| - 1], rs[|rs| - 1];
      PreviousIs(before, moment);
      if last.at <= moment && (Previous(before, moment).None? || Previous(before, moment).value.at <= last.at) {
        forall j | 0 <= j < |rs| && rs[j].at <= moment
          ensures rs[j].at < last.at || (rs[j].at == last.at && j <= |rs| - 1)
        {
          if j < |rs| - 1 {
            assert before[j] == rs[j];
          }
        }
        assert IsLatestUpTo(rs, moment, |rs| - 1);
      } else if Previous(before, moment).Some? {
        var i :| IsLatestUpTo(before, moment, i) && Previous(before, moment) == Some(before[i]);
        assert rs[i] == before[i];
        forall j | 0 <= j < |rs| && rs[j].at <= moment
          ensures rs[j].at < rs[i].at || (rs[j].at == rs[i].at && j <= i)
        {
          if j < |rs| - 1 {
            assert before[j] == rs[j];
          }
        }
        assert IsLatestUpTo(rs, moment, i);
      }
      forall i | 0 <= i < |rs| && rs[i].at <= moment
        ensures Previous(rs, moment).Some?
      {
        if i < |rs| - 1 {
          assert before[i] == rs[i];
        }
      }
    }
  }

  lemma LatestIsUnique(rs: seq<Reading>, moment: int, i: int, j: int)
    requires IsLatestUpTo(rs, moment, i) && IsLatestUpTo(rs, moment, j)
    ensures i == j
  {
  }

  /** A reading that follows row i: refused if lower, else its consumption is the rounded product of the advance. */
  ghost predicate FollowsRow(rs: seq<Reading>, m: nat, value: int, moment: int, i: int, r: Result<Reading, Error>)
    requires 0 <= i < |rs|
  {
    if value < rs[i].value then r == Err(ReadingRollback)
    else
      && r.Ok? && r.value.at == moment && r.value.value == value
      && IsHalfEven(r.value.consumption, (value - rs[i].value) * m, 10000000000)
  }

  lemma RecordMeans(rs: seq<Reading>, m: nat, value: int, moment: int)
    ensures
      var r := Record(rs, m, value, moment);
      && (r == Err(ReadingNegative) <==> value < 0)
      && (value >= 0 && (forall i :: 0 <= i < |rs| ==> rs[i].at > moment) ==> r == Ok(Reading(moment, value, 0)))
      && forall i :: value >= 0 && IsLatestUpTo(rs, moment, i) ==> FollowsRow(rs, m, value, moment, i, r)
  {
    PreviousIs(rs, moment);
    RoundsExactly(0, RATE_SCALE);
    forall i | value >= 0 && IsLatestUpTo(rs, moment, i)
      ensures FollowsRow(rs, m, value, moment, i, Record(rs, m, value, moment))
    {
      var j :| IsLatestUpTo(rs, moment, j) && Previous(rs, moment) == Some(rs[j]);
      LatestIsUnique(rs, moment, i, j);
      RoundsByItsRule((value - rs[i].value) * m, RATE_SCALE);
    }
  }

  // ---------------------------------------------------------------- properties of any run

  lemma {:induction false} PreviousIsLatest(rs: seq<Reading>, moment: int)
    ensures
      var p := Previous(rs, moment);
      && (p.Some? ==> p.value in rs && p.value.at <= moment)
      && (forall i :: 0 <= i < |rs| && rs[i].at <= moment ==> p.Some? && rs[i].at <= p.value.at)
  {
    if rs != [] {
      PreviousIsLatest(rs[..|rs| - 1], moment);
    }
  }

  predicate NonNegative(rs: seq<Reading>) {
    forall i :: 0 <= i < |rs| ==> rs[i].value >= 0 && rs[i].consumption >= 0
  }

  /** In whatever order readings are entered, no consumption is negative. */
  lemma {:induction false} ConsumptionNeverNegative(rs: seq<Reading>, multiplier: nat, inputs: seq<Input>)
    requires NonNegative(rs)
    ensures NonNegative(RecordAll(rs, multiplier, inputs))
    decreases |inputs|
  {
    if inputs != [] {
      var previous := Previous(rs, inputs[0].moment);
      var delta := if previous.Some? then inputs[0].value - previous.value.value else 0;
      if delta >= 0 {
        HalfEvenNonNegative(delta * multiplier, RATE_SCALE);
      }
      var r := Record(rs, multiplier, inputs[0].value, inputs[0].moment);
      var after := if r.Ok? then rs + [r.value] else rs;
      assert NonNegative(after);
      ConsumptionNeverNegative(after, multiplier, inputs[1..]);
    }
  }

  // ---------------------------------------------------------------- readings in time order

  predicate InOrder(rs: seq<Reading>) {
    forall i, j :: 0 <= i < j < |rs| ==> rs[i].at <= rs[j].at && rs[i].value <= rs[j].value
  }

  predicate TimeOrdered(inputs: seq<Input>, from: Option<int>) {
    && (forall i, j :: 0 <= i < j < |inputs| ==> inputs[i].moment <= inputs[j].moment)
    && (from.Some? && inputs != [] ==> from.value <= inputs[0].moment)
  }

  function LastTime(rs: seq<Reading>): Option<int> {
    if rs == [] then None else Some(rs[|rs| - 1].at)
  }

  function Advance(rs: seq<Reading>): int {
    if rs == [] then 0 else rs[|rs| - 1].value - rs[0].value
  }

  /** Total consumption against multiplier times the advance of the counter: off by at most half a unit a step. */
  predicate Telescopes(rs: seq<Reading>, multiplier: nat) {
    var steps := if rs == [] then 0 else |rs| - 1;
    -RATE_SCALE * steps <= 2 * (RATE_SCALE * Total(rs) - multiplier * Advance(rs)) <= RATE_SCALE * steps
  }

  lemma InOrderPrevious(rs: seq<Reading>, moment: int)
    requires InOrder(rs) && rs != [] && rs[|rs| - 1].at <= moment
    ensures Previous(rs, moment) == Some(rs[|rs| - 1])
  {
    PreviousIsLatest(rs[..|rs| - 1], moment);
  }

  lemma AppendKeepsOrder(rs: seq<Reading>, row: Reading)
    requires InOrder(rs) && (rs != [] ==> rs[|rs| - 1].at <= row.at && rs[|rs| - 1].value <= row.value)
    ensures InOrder(rs + [row])
  {
  }

  /** The row carries the consumption since the last one. */
  lemma AppendKeepsTelescope(rs: seq<Reading>, multiplier: nat, row: Reading)
    requires Telescopes(rs, multiplier)
    requires row.consumption
          == HalfEven((if rs == [] then 0 else row.value - rs[|rs| - 1].value) * multiplier, RATE_SCALE)
    ensures Telescopes(rs + [row], multiplier)
  {
    var after := rs + [row];
    assert after[..|after| - 1] == rs;
    if rs == [] {
      RoundsExactly(0, RATE_SCALE);
    } else {
      var delta := row.value - rs[|rs| - 1].value;
      assert Advance(after) == Advance(rs) + delta;
      ErrorGrows(Total(rs), Advance(rs), |rs| - 1, delta, multiplier);
    }
  }

  lemma OrderedStep(rs: seq<Reading>, multiplier: nat, input: Input)
    requires InOrder(rs) && Telescopes(rs, multiplier) && (rs != [] ==> rs[|rs| - 1].at <= input.moment)
    ensures
      var r := Record(rs, multiplier, input.value, input.moment);
      r.Ok? ==> InOrder(rs + [r.value]) && Telescopes(rs + [r.value], multiplier)
  {
    var r := Record(rs, multiplier, input.value, input.moment);
    if r.Ok? {
      if rs != [] {
        InOrderPrevious(rs, input.moment);
      }
      AppendKeepsOrder(rs, r.value);
      AppendKeepsTelescope(rs, multiplier, r.value);
    }
  }

  lemma ErrorGrows(total: int, advance: int, steps: nat, delta: int, m: nat)
    requires -RATE_SCALE * steps <= 2 * (RATE_SCALE * total - m * advance) <= RATE_SCALE * steps
    ensures
      var error := 2 * (RATE_SCALE * (total + HalfEven(delta * m, RATE_SCALE)) - m * (advance + delta));
      -RATE_SCALE * (steps + 1) <= error <= RATE_SCALE * (steps + 1)
  {
    RoundsToNearest(delta * m, RATE_SCALE);
    Distribute(m, advance, delta);
  }

  lemma Distribute(m: int, a: int, b: int)
    ensures m * (a + b) == m * a + b * m
  {
  }

  /**
   Readings taken in time order never go back, and their total consumption is
   the counter's advance times the multiplier up to half of the sixth decimal
   for each step.
  */
  lemma {:induction false} MeteringTelescopes(rs: seq<Reading>, multiplier: nat, inputs: seq<Input>)
    requires InOrder(rs) && Telescopes(rs, multiplier) && TimeOrdered(inputs, LastTime(rs))
    ensures InOrder(RecordAll(rs, multiplier, inputs)) && Telescopes(RecordAll(rs, multiplier, inputs), multiplier)
    decreases |inputs|
  {
    if inputs != [] {
      OrderedStep(rs, multiplier, inputs[0]);
      var r := Record(rs, multiplier, inputs[0].value, inputs[0].moment);
      MeteringTelescopes(if r.Ok? then rs + [r.value] else rs, multiplier, inputs[1..]);
    }
  }

  /** Every product of a step lies on the six-decimal grid. */
  predicate OnGrid(rs: seq<Reading>, multiplier: nat) {
    forall i :: 0 <= i < |rs| - 1 ==> ((rs[i + 1].value - rs[i].value) * multiplier) % RATE_SCALE == 0
  }

  predicate Exact(rs: seq<Reading>, multiplier: nat) {
    RATE_SCALE * Total(rs) == multiplier * Advance(rs)
  }

  /** Each row carries the consumption since the row before it. */
  predicate Chained(rs: seq<Reading>, multiplier: nat) {
    rs != [] ==>
      var before, last := rs[..|rs| - 1], rs[|rs| - 1];
      && Chained(before, multiplier)
      && last.consumption
           == Consumption(if before == [] then None else Some(before[|before| - 1]), last.value, multiplier)
  }

  lemma ChainedStep(rs: seq<Reading>, multiplier: nat, input: Input)
    requires InOrder(rs) && Chained(rs, multiplier) && (rs != [] ==> rs[|rs| - 1].at <= input.moment)
    ensures
      var r := Record(rs, multiplier, input.value, input.moment);
      r.Ok? ==> InOrder(rs + [r.value]) && Chained(rs + [r.value], multiplier)
  {
    var r := Record(rs, multiplier, input.value, input.moment);
    if rs != [] {
      InOrderPrevious(rs, input.moment);
    }
    if r.Ok? {
      assert (rs + [r.value])[..|rs|] == rs;
    }
  }

  lemma {:induction false} OrderedRunIsChained(rs: seq<Reading>, multiplier: nat, inputs: seq<Input>)
    requires InOrder(rs) && Chained(rs, multiplier) && TimeOrdered(inputs, LastTime(rs))
    ensures Chained(RecordAll(rs, multiplier, inputs), multiplier)
    decreases |inputs|
  {
    if inputs != [] {
      var r := Record(rs, multiplier, inputs[0].value, inputs[0].moment);
      ChainedStep(rs, multiplier, inputs[0]);
      OrderedRunIsChained(if r.Ok? then rs + [r.value] else rs, multiplier, inputs[1..]);
    }
  }

  lemma {:induction false} ExactOnGrid(rs: seq<Reading>, multiplier: nat)
    requires Chained(rs, multiplier) && OnGrid(rs, multiplier)
    ensures Exact(rs, multiplier)
  {
    if rs != [] {
      var before, last := rs[..|rs| - 1], rs[|rs| - 1];
      assert forall i :: 0 <= i < |before| ==> before[i] == rs[i];
      ExactOnGrid(before, multiplier);
      if before == [] {
        RoundsExactly(0, RATE_SCALE);
      } else {
        var delta := last.value - before[|before| - 1].value;
        assert (delta * multiplier) % RATE_SCALE == 0;
        RoundsExactly(delta * multiplier / RATE_SCALE, RATE_SCALE);
        Distribute(multiplier, Advance(before), delta);
        assert Advance(rs) == Advance(before) + delta;
      }
    }
  }

  lemma OrderedRunIsExactOnGrid(multiplier: nat, inputs: seq<Input>)
    requires TimeOrdered(inputs, None) && OnGrid(RecordAll([], multiplier, inputs), multiplier)
    ensures Exact(RecordAll([], multiplier, inputs), multiplier)
  {
    OrderedRunIsChained([], multiplier, inputs);
    ExactOnGrid(RecordAll([], multiplier, inputs), multiplier);
  }

  // ---------------------------------------------------------------- late readings

  /** The first row by (time, id). */
  function FirstInTime(rs: seq<Reading>): Reading
    requires rs != []
  {
    if |rs| == 1 then rs[0]
    else
      var first, r := FirstInTime(rs[..|rs| - 1]), rs[|rs| - 1];
      if r.at < first.at then r else first
  }

  /** The last row by (time, id). */
  function LastInTime(rs: seq<Reading>): Reading
    requires rs != []
  {
    if |rs| == 1 then rs[0]
    else
      var last, r := LastInTime(rs[..|rs| - 1]), rs[|rs| - 1];
      if last.at <= r.at then r else last
  }

  /**
   Total consumption is exactly the multiplier times the advance of the counter
   between the first and the last time.
  */
  predicate ExactInTime(rs: seq<Reading>, multiplier: nat)
    requires rs != []
  {
    RATE_SCALE * Total(rs) == multiplier * (LastInTime(rs).value - FirstInTime(rs).value)
  }

  /** For rows in time order this is what Exact says. */
  lemma {:induction false} ExactInOrder(rs: seq<Reading>, multiplier: nat)
    requires rs != [] && InOrder(rs)
    ensures FirstInTime(rs) == rs[0] && LastInTime(rs) == rs[|rs| - 1]
    ensures ExactInTime(rs, multiplier) <==> Exact(rs, multiplier)
  {
    if |rs| > 1 {
      ExactInOrder(rs[..|rs| - 1], multiplier);
    }
  }

  lemma {:induction false} PreviousIffNotFirst(rs: seq<Reading>, moment: int)
    requires rs != []
    ensures Previous(rs, moment).Some? <==> FirstInTime(rs).at <= moment
  {
    if |rs| > 1 {
      PreviousIffNotFirst(rs[..|rs| - 1], moment);
    }
  }

  /** In any table, for any multiplier: a new reading leaves the total alone exactly when what it adds rounds away. */
  lemma TotalUnchangedIff(rs: seq<Reading>, multiplier: nat, input: Input)
    requires Record(rs, multiplier, input.value, input.moment).Ok?
    ensures
      var previous, row := Previous(rs, input.moment), Record(rs, multiplier, input.value, input.moment).value;
      Total(rs + [row]) == Total(rs)
      <==> (previous.Some? ==> 2 * ((input.value - previous.value.value) * multiplier) <= RATE_SCALE)
  {
    var previous, row := Previous(rs, input.moment), Record(rs, multiplier, input.value, input.moment).value;
    assert (rs + [row])[..|rs|] == rs;
    var delta := if previous.Some? then input.value - previous.value.value else 0;
    assert delta * multiplier >= 0;
    HalfEvenIsZeroIff(delta * multiplier, RATE_SCALE);
  }

  /**
   A reading entered late, in whatever table: later rows are not recomputed, so
   an exact total stays exact if and only if the consumption the reading adds
   rounds away or, for one before every row, it repeats the first value.
  */
  lemma LateReadingKeepsTotalIff(rs: seq<Reading>, multiplier: nat, input: Input)
    requires rs != [] && ExactInTime(rs, multiplier) && input.moment < LastInTime(rs).at
    requires Record(rs, multiplier, input.value, input.moment).Ok?
    ensures
      var first, previous := FirstInTime(rs), Previous(rs, input.moment);
      ExactInTime(rs + [Record(rs, multiplier, input.value, input.moment).value], multiplier)
      <==> if input.moment < first.at then multiplier == 0 || input.value == first.value
           else previous.Some? && 2 * ((input.value - previous.value.value) * multiplier) <= RATE_SCALE
  {
    var row := Record(rs, multiplier, input.value, input.moment).value;
    var first, last := FirstInTime(rs), LastInTime(rs);
    assert (rs + [row])[..|rs|] == rs;
    PreviousIffNotFirst(rs, input.moment);
    TotalUnchangedIff(rs, multiplier, input);
    if input.moment < first.at {
      SameProductIff(multiplier, last.value - first.value, last.value - input.value);
    }
  }

  lemma SameProductIff(m: nat, a: int, b: int)
    ensures m * a == m * b <==> m == 0 || a == b
  {
    if m * a == m * b {
      assert m * (a - b) == 0;
    }
  }

  /** With a multiplier above one half, so with every whole one, nothing but a repeated value rounds away. */
  lemma LateReadingMustRepeatIff(rs: seq<Reading>, multiplier: nat, input: Input)
    requires rs != [] && ExactInTime(rs, multiplier) && 2 * multiplier > RATE_SCALE
    requires FirstInTime(rs).at <= input.moment < LastInTime(rs).at
    requires Record(rs, multiplier, input.value, input.moment).Ok?
    ensures
      var previous := Previous(rs, input.moment);
      && previous.Some?
      && (ExactInTime(rs + [Record(rs, multiplier, input.value, input.moment).value], multiplier)
          <==> input.value == previous.value.value)
  {
    PreviousIffNotFirst(rs, input.moment);
    LateReadingKeepsTotalIff(rs, multiplier, input);
    HalfStepIsKept(input.value - Previous(rs, input.moment).value.value, multiplier);
  }

  lemma HalfStepIsKept(delta: nat, multiplier: nat)
    requires 2 * multiplier > RATE_SCALE
    ensures 2 * (delta * multiplier) <= RATE_SCALE <==> delta == 0
  {
    if delta > 0 {
      assert delta * multiplier == multiplier + (delta - 1) * multiplier;
      assert (delta - 1) * multiplier >= 0;
    }
  }

  lemma UnitConsumption(previous: Option<Reading>, value: int)
    ensures Consumption(previous, value, RATE_SCALE) == if previous.Some? then value - previous.value.value else 0
  {
    var delta := if previous.Some? then value - previous.value.value else 0;
    assert delta * RATE_SCALE == RATE_SCALE * delta;
    RoundsExactly(delta, RATE_SCALE);
  }

  /**
   A plain case: readings 0 and 10 with multiplier one, and 4 entered late for
   a time between; the total becomes 14.
  */
  lemma LateReadingCountsTwice()
    ensures
      var rs, input := RecordAll([], RATE_SCALE, [Input(0, 0), Input(10, 10)]), Input(4, 5);
      && ExactInTime(rs, RATE_SCALE) && Total(rs) == 10
      && Record(rs, RATE_SCALE, input.value, input.moment) == Ok(Reading(5, 4, 4))
      && Total(rs + [Reading(5, 4, 4)]) == 14 && !ExactInTime(rs + [Reading(5, 4, 4)], RATE_SCALE)
  {
    var first, second, late := Reading(0, 0, 0), Reading(10, 10, 10), Reading(5, 4, 4);
    UnitConsumption(None, 0);
    UnitConsumption(Some(first), 10);
    UnitConsumption(Some(first), 4);
    assert [] + [first] == [first] && [first] + [second] == [first, second];
    assert [first][..0] == [] && [first, second][..1] == [first];
    assert Previous([], 10) == None && Previous([], 5) == None;
    assert Previous([first], 10) == Some(first) && Previous([first], 5) == Some(first);
    assert Record([], RATE_SCALE, 0, 0) == Ok(first);
    assert Record([first], RATE_SCALE, 10, 10) == Ok(second);
    assert [Input(0, 0), Input(10, 10)][1..] == [Input(10, 10)] && [Input(10, 10)][1..] == [];
    assert RecordAll([first], RATE_SCALE, [Input(10, 10)]) == [first, second];
    assert RecordAll([], RATE_SCALE, [Input(0, 0), Input(10, 10)]) == [first, second];
    assert Previous([first, second], 5) == Some(first);
    TotalAppend([], first);
    TotalAppend([first], second);
    TotalAppend([first, second], late);
    assert Total([]) == 0 && Total([first, second]) == 10;
    assert FirstInTime([first]) == LastInTime([first]) == first;
    assert FirstInTime([first, second]) == first && LastInTime([first, second]) == second;
    LateReadingMustRepeatIff([first, second], RATE_SCALE, Input(4, 5));
  }

  // ---------------------------------------------------------------- thresholds

  datatype Threshold = Threshold(upper: Option<int>, lower: Option<int>, dailyLimit: Option<int>)

  /** Consumption of the meter from midnight up to and including `moment`. */
  function DayUsage(rs: seq<Reading>, moment: int): int {
    if rs == [] then 0
    else
      var r := rs[|rs| - 1];
      DayUsage(rs[..|rs| - 1], moment) + if AlarmLedger.DayStart(moment) <= r.at <= moment then r.consumption else 0
  }

  function MeterCall(company: nat, meter: nat, kind: AlarmLedger.AlarmType, moment: int): AlarmLedger.Call {
    AlarmLedger.Call(AlarmLedger.Key(company, kind, Some(meter), ""), moment, None)
  }

  /** The alarms one threshold asks for; the ledger decides which of them are kept. */
  function ThresholdCalls(company: nat, meter: nat, t: Threshold, r: Reading, usage: int): seq<AlarmLedger.Call> {
    (if t.upper.Some? && r.value > t.upper.value then [MeterCall(company, meter, AlarmLedger.OverLimit, r.at)] else [])
    + (if t.lower.Some? && r.value < t.lower.value
       then [MeterCall(company, meter, AlarmLedger.OverLimit, r.at)] else [])
    + (if t.dailyLimit.Some? && usage > t.dailyLimit.value
       then [MeterCall(company, meter, AlarmLedger.EnergyConsumption, r.at)] else [])
  }

  function AllThresholdCalls(
      company: nat, meter: nat, ts: seq<Threshold>, r: Reading, usage: int): seq<AlarmLedger.Call> {
    if ts == [] then []
    else AllThresholdCalls(company, meter, ts[..|ts| - 1], r, usage)
         + ThresholdCalls(company, meter, ts[|ts| - 1], r, usage)
  }

  lemma {:induction false} RaiseAllAppend(
      ledger: seq<AlarmLedger.Alarm>, a: seq<AlarmLedger.Call>, b: seq<AlarmLedger.Call>)
    ensures AlarmLedger.RaiseAll(ledger, a + b) == AlarmLedger.RaiseAll(AlarmLedger.RaiseAll(ledger, a), b)
    decreases |a|
  {
    if a == [] {
      assert a + b == b;
    } else {
      assert (a + b)[0] == a[0] && (a + b)[1..] == a[1..] + b;
      RaiseAllAppend(AlarmLedger.Raise(ledger, a[0]), a[1..], b);
    }
  }

  lemma ThresholdCallsInTurn(
      ledger: seq<AlarmLedger.Alarm>, company: nat, meter: nat, t: Threshold, r: Reading, usage: int)
    ensures
      var over := MeterCall(company, meter, AlarmLedger.OverLimit, r.at);
      var daily := MeterCall(company, meter, AlarmLedger.EnergyConsumption, r.at);
      var l1 := if t.upper.Some? && r.value > t.upper.value then AlarmLedger.Raise(ledger, over) else ledger;
      var l2 := if t.lower.Some? && r.value < t.lower.value then AlarmLedger.Raise(l1, over) else l1;
      var l3 := if t.dailyLimit.Some? && usage > t.dailyLimit.value then AlarmLedger.Raise(l2, daily) else l2;
      AlarmLedger.RaiseAll(ledger, ThresholdCalls(company, meter, t, r, usage)) == l3
  {
    var over := MeterCall(company, meter, AlarmLedger.OverLimit, r.at);
    var daily := MeterCall(company, meter, AlarmLedger.EnergyConsumption, r.at);
    var a := if t.upper.Some? && r.value > t.upper.value then [over] else [];
    var b := if t.lower.Some? && r.value < t.lower.value then [over] else [];
    var c := if t.dailyLimit.Some? && usage > t.dailyLimit.value then [daily] else [];
    RaiseAllAppend(ledger, a + b, c);
    RaiseAllAppend(ledger, a, b);
    RaiseAtMostOne(ledger, a);
    RaiseAtMostOne(AlarmLedger.RaiseAll(ledger, a), b);
    RaiseAtMostOne(AlarmLedger.RaiseAll(ledger, a + b), c);
  }

  lemma RaiseAtMostOne(ledger: seq<AlarmLedger.Alarm>, calls: seq<AlarmLedger.Call>)
    requires |calls| <= 1
    ensures AlarmLedger.RaiseAll(ledger, calls) == if calls == [] then ledger else AlarmLedger.Raise(ledger, calls[0])
  {
    assert |calls| == 1 ==> calls[1..] == [];
  }

  // ---------------------------------------------------------------- which readings raise an alarm

  /** The rows of the same calendar day, up to the moment. */
  function SameDay(rs: seq<Reading>, moment: int): seq<Reading> {
    if rs == [] then []
    else
      var r := rs[|rs| - 1];
      SameDay(rs[..|rs| - 1], moment)
        + if r.at / AlarmLedger.DAY == moment / AlarmLedger.DAY && r.at <= moment then [r] else []
  }

  lemma SameDayIff(at: int, moment: int)
    ensures AlarmLedger.DayStart(moment) <= at <= moment
       <==> at / AlarmLedger.DAY == moment / AlarmLedger.DAY && at <= moment
  {
    AlarmLedger.DayStartIsMidnight(moment);
    AlarmLedger.DayStartIsMidnight(at);
  }

  lemma TotalAppend(rs: seq<Reading>, r: Reading)
    ensures Total(rs + [r]) == Total(rs) + r.consumption
  {
    assert (rs + [r])[..|rs|] == rs;
  }

  /** The usage of the day is the consumption of exactly these rows. */
  lemma {:induction false} DayUsageIs(rs: seq<Reading>, moment: int)
    ensures DayUsage(rs, moment) == Total(SameDay(rs, moment))
  {
    if rs != [] {
      var r, before := rs[|rs| - 1], SameDay(rs[..|rs| - 1], moment);
      DayUsageIs(rs[..|rs| - 1], moment);
      SameDayIff(r.at, moment);
      TotalAppend(before, r);
      assert before + [] == before;
    }
  }

  predicate BreaksThreshold(t: Threshold, value: int) {
    (t.upper.Some? && value > t.upper.value) || (t.lower.Some? && value < t.lower.value)
  }

  predicate ExceedsDay(t: Threshold, usage: int) {
    t.dailyLimit.Some? && usage > t.dailyLimit.value
  }

  ghost predicate HasAlarmOfDay(ledger: seq<AlarmLedger.Alarm>, key: AlarmLedger.Key, t: int) {
    exists a :: 0 <= a < |ledger| && ledger[a].key == key
                && ledger[a].occurredAt / AlarmLedger.DAY >= t / AlarmLedger.DAY
  }

  function MeterKey(company: nat, meter: nat, kind: AlarmLedger.AlarmType): AlarmLedger.Key {
    AlarmLedger.Key(company, kind, Some(meter), "")
  }

  lemma RaiseForMeter(ledger: seq<AlarmLedger.Alarm>, company: nat, meter: nat, kind: AlarmLedger.AlarmType, t: int)
    ensures
      var after, key := AlarmLedger.Raise(ledger, MeterCall(company, meter, kind, t)), MeterKey(company, meter, kind);
      && HasAlarmOfDay(after, key, t)
      && (after == ledger || after == ledger + [AlarmLedger.Alarm(key, t)])
  {
    var c, key := MeterCall(company, meter, kind, t), MeterKey(company, meter, kind);
    var after := AlarmLedger.Raise(ledger, c);
    AlarmLedger.SuppressedIff(ledger, c);
    if after == ledger {
      assert AlarmLedger.Suppressed(ledger, c);
      var a :| 0 <= a < |ledger| && ledger[a].key == c.key && AlarmLedger.Covers(ledger[a], c);
      assert ledger[a].key == key;
    } else {
      assert after[|ledger|] == AlarmLedger.Alarm(key, t);
    }
  }

  lemma AlarmOfDayLasts(
      ledger: seq<AlarmLedger.Alarm>, more: seq<AlarmLedger.Alarm>, key: AlarmLedger.Key, t: int)
    requires HasAlarmOfDay(ledger, key, t) && ledger <= more
    ensures HasAlarmOfDay(more, key, t)
  {
    var a :| 0 <= a < |ledger| && ledger[a].key == key && ledger[a].occurredAt / AlarmLedger.DAY >= t / AlarmLedger.DAY;
    assert more[a] == ledger[a];
  }

  /** A new alarm has the time of the reading, and a threshold it breaks. */
  ghost predicate IsDueTo(
      company: nat, meter: nat, ts: seq<Threshold>, r: Reading, usage: int, a: AlarmLedger.Alarm)
  {
    && a.occurredAt == r.at
    && exists k :: 0 <= k < |ts| &&
         ((a.key == MeterKey(company, meter, AlarmLedger.OverLimit) && BreaksThreshold(ts[k], r.value))
          || (a.key == MeterKey(company, meter, AlarmLedger.EnergyConsumption) && ExceedsDay(ts[k], usage)))
  }

  /** After a reading was judged: all that is broken has an alarm of the day or later, all that is new a reason. */
  ghost predicate Judged(
      company: nat, meter: nat, ts: seq<Threshold>, r: Reading, usage: int,
      before: seq<AlarmLedger.Alarm>, after: seq<AlarmLedger.Alarm>)
  {
    && before <= after
    && (forall k :: 0 <= k < |ts| && BreaksThreshold(ts[k], r.value) ==>
          HasAlarmOfDay(after, MeterKey(company, meter, AlarmLedger.OverLimit), r.at))
    && (forall k :: 0 <= k < |ts| && ExceedsDay(ts[k], usage) ==>
          HasAlarmOfDay(after, MeterKey(company, meter, AlarmLedger.EnergyConsumption), r.at))
    && (forall a :: |before| <= a < |after| ==> IsDueTo(company, meter, ts, r, usage, after[a]))
  }

  function RaiseIf(
      asked: bool, ledger: seq<AlarmLedger.Alarm>, company: nat, meter: nat, kind: AlarmLedger.AlarmType, t: int)
    : seq<AlarmLedger.Alarm>
  {
    if asked then AlarmLedger.Raise(ledger, MeterCall(company, meter, kind, t)) else ledger
  }

  lemma RaiseIfMeans(
      asked: bool, ledger: seq<AlarmLedger.Alarm>, company: nat, meter: nat, kind: AlarmLedger.AlarmType, t: int)
    ensures
      var after, key := RaiseIf(asked, ledger, company, meter, kind, t), MeterKey(company, meter, kind);
      && ledger <= after
      && (asked ==> HasAlarmOfDay(after, key, t))
      && forall a :: |ledger| <= a < |after| ==> asked && after[a] == AlarmLedger.Alarm(key, t)
  {
    RaiseForMeter(ledger, company, meter, kind, t);
  }

  /** The three ledgers of one threshold. */
  function AfterUpper(
      ledger: seq<AlarmLedger.Alarm>, company: nat, meter: nat, t: Threshold, r: Reading): seq<AlarmLedger.Alarm>
  {
    RaiseIf(t.upper.Some? && r.value > t.upper.value, ledger, company, meter, AlarmLedger.OverLimit, r.at)
  }

  function AfterLower(
      ledger: seq<AlarmLedger.Alarm>, company: nat, meter: nat, t: Threshold, r: Reading): seq<AlarmLedger.Alarm>
  {
    RaiseIf(t.lower.Some? && r.value < t.lower.value, AfterUpper(ledger, company, meter, t, r), company, meter,
            AlarmLedger.OverLimit, r.at)
  }

  function AfterDaily(
      ledger: seq<AlarmLedger.Alarm>, company: nat, meter: nat, t: Threshold, r: Reading, usage: int)
    : seq<AlarmLedger.Alarm>
  {
    RaiseIf(ExceedsDay(t, usage), AfterLower(ledger, company, meter, t, r), company, meter,
            AlarmLedger.EnergyConsumption, r.at)
  }

  lemma LimitsOfThreshold(ledger: seq<AlarmLedger.Alarm>, company: nat, meter: nat, t: Threshold, r: Reading)
    ensures
      var l2, key := AfterLower(ledger, company, meter, t, r), MeterKey(company, meter, AlarmLedger.OverLimit);
      && ledger <= l2 && (BreaksThreshold(t, r.value) ==> HasAlarmOfDay(l2, key, r.at))
      && forall a :: |ledger| <= a < |l2| ==> BreaksThreshold(t, r.value) && l2[a] == AlarmLedger.Alarm(key, r.at)
  {
    var l1, key := AfterUpper(ledger, company, meter, t, r), MeterKey(company, meter, AlarmLedger.OverLimit);
    RaiseIfMeans(t.upper.Some? && r.value > t.upper.value, ledger, company, meter, AlarmLedger.OverLimit, r.at);
    RaiseIfMeans(t.lower.Some? && r.value < t.lower.value, l1, company, meter, AlarmLedger.OverLimit, r.at);
    if HasAlarmOfDay(l1, key, r.at) {
      AlarmOfDayLasts(l1, AfterLower(ledger, company, meter, t, r), key, r.at);
    }
  }

  lemma OneThresholdMeans(
      ledger: seq<AlarmLedger.Alarm>, company: nat, meter: nat, t: Threshold, r: Reading, usage: int)
    ensures Judged(company, meter, [t], r, usage, ledger,
                   AlarmLedger.RaiseAll(ledger, ThresholdCalls(company, meter, t, r, usage)))
  {
    var l2, l3 := AfterLower(ledger, company, meter, t, r), AfterDaily(ledger, company, meter, t, r, usage);
    ThresholdCallsInTurn(ledger, company, meter, t, r, usage);
    LimitsOfThreshold(ledger, company, meter, t, r);
    RaiseIfMeans(ExceedsDay(t, usage), l2, company, meter, AlarmLedger.EnergyConsumption, r.at);
    JudgedInTurn(company, meter, t, r, usage, ledger, l2, l3);
  }

  lemma JudgedInTurn(
      company: nat, meter: nat, t: Threshold, r: Reading, usage: int,
      l0: seq<AlarmLedger.Alarm>, l2: seq<AlarmLedger.Alarm>, l3: seq<AlarmLedger.Alarm>)
    requires l0 <= l2 <= l3
    requires BreaksThreshold(t, r.value) ==> HasAlarmOfDay(l2, MeterKey(company, meter, AlarmLedger.OverLimit), r.at)
    requires ExceedsDay(t, usage) ==> HasAlarmOfDay(l3, MeterKey(company, meter, AlarmLedger.EnergyConsumption), r.at)
    requires forall a :: |l0| <= a < |l2| ==>
      BreaksThreshold(t, r.value) && l2[a] == AlarmLedger.Alarm(MeterKey(company, meter, AlarmLedger.OverLimit), r.at)
    requires forall a :: |l2| <= a < |l3| ==>
      ExceedsDay(t, usage)
      && l3[a] == AlarmLedger.Alarm(MeterKey(company, meter, AlarmLedger.EnergyConsumption), r.at)
    ensures Judged(company, meter, [t], r, usage, l0, l3)
  {
    var key := MeterKey(company, meter, AlarmLedger.OverLimit);
    if BreaksThreshold(t, r.value) {
      AlarmOfDayLasts(l2, l3, key, r.at);
    }
    forall a | |l0| <= a < |l3|
      ensures IsDueTo(company, meter, [t], r, usage, l3[a])
    {
      assert [t][0] == t;
      assert a < |l2| ==> l3[a] == l2[a];
    }
  }

  lemma {:induction false} ThresholdsMean(
      ledger: seq<AlarmLedger.Alarm>, company: nat, meter: nat, ts: seq<Threshold>, r: Reading, usage: int)
    ensures Judged(company, meter, ts, r, usage, ledger,
                   AlarmLedger.RaiseAll(ledger, AllThresholdCalls(company, meter, ts, r, usage)))
  {
    if ts != [] {
      var before, t := ts[..|ts| - 1], ts[|ts| - 1];
      var mid := AlarmLedger.RaiseAll(ledger, AllThresholdCalls(company, meter, before, r, usage));
      ThresholdsMean(ledger, company, meter, before, r, usage);
      RaiseAllAppend(ledger, AllThresholdCalls(company, meter, before, r, usage),
                     ThresholdCalls(company, meter, t, r, usage));
      OneThresholdMeans(mid, company, meter, t, r, usage);
      JoinJudged(company, meter, before, t, r, usage, ledger, mid,
                 AlarmLedger.RaiseAll(mid, ThresholdCalls(company, meter, t, r, usage)));
      assert ts == before + [t];
    }
  }

  lemma JoinJudged(
      company: nat, meter: nat, ts: seq<Threshold>, t: Threshold, r: Reading, usage: int,
      before: seq<AlarmLedger.Alarm>, mid: seq<AlarmLedger.Alarm>, after: seq<AlarmLedger.Alarm>)
    requires Judged(company, meter, ts, r, usage, before, mid) && Judged(company, meter, [t], r, usage, mid, after)
    ensures Judged(company, meter, ts + [t], r, usage, before, after)
  {
    var over := MeterKey(company, meter, AlarmLedger.OverLimit);
    var daily := MeterKey(company, meter, AlarmLedger.EnergyConsumption);
    var all := ts + [t];
    assert [t][0] == t;
    forall k | 0 <= k < |all| && BreaksThreshold(all[k], r.value)
      ensures HasAlarmOfDay(after, over, r.at)
    {
      if k < |ts| {
        assert all[k] == ts[k];
        AlarmOfDayLasts(mid, after, over, r.at);
      }
    }
    forall k | 0 <= k < |all| && ExceedsDay(all[k], usage)
      ensures HasAlarmOfDay(after, daily, r.at)
    {
      if k < |ts| {
        assert all[k] == ts[k];
        AlarmOfDayLasts(mid, after, daily, r.at);
      }
    }
    forall a | |before| <= a < |after|
      ensures IsDueTo(company, meter, all, r, usage, after[a])
    {
      if a < |mid| {
        assert after[a] == mid[a];
        DueToMore(company, meter, ts, t, r, usage, mid[a]);
      } else {
        assert all[|ts|] == t;
      }
    }
  }

  lemma DueToMore(
      company: nat, meter: nat, ts: seq<Threshold>, t: Threshold, r: Reading, usage: int, a: AlarmLedger.Alarm)
    requires IsDueTo(company, meter, ts, r, usage, a)
    ensures IsDueTo(company, meter, ts + [t], r, usage, a)
  {
    var k :| 0 <= k < |ts| &&
      ((a.key == MeterKey(company, meter, AlarmLedger.OverLimit) && BreaksThreshold(ts[k], r.value))
       || (a.key == MeterKey(company, meter, AlarmLedger.EnergyConsumption) && ExceedsDay(ts[k], usage)));
    assert (ts + [t])[k] == ts[k];
  }

  // ---------------------------------------------------------------- the service

  class MeterBook {
    const company: nat
    const id: nat
    const multiplier: nat
    const thresholds: seq<Threshold>
    var readings: seq<Reading>
    var status: MeterStatus
    var lastReadingAt: Option<int>
    const book: AlarmLedger.AlarmBook

    constructor (company: nat, id: nat, multiplier: nat, thresholds: seq<Threshold>, book: AlarmLedger.AlarmBook)
      ensures this.multiplier == multiplier && this.thresholds == thresholds && this.book == book
      ensures readings == [] && lastReadingAt == None && status == Online
    {
      this.company, this.id, this.multiplier, this.thresholds, this.book := company, id, multiplier, thresholds, book;
      readings, status, lastReadingAt := [], Online, None;
    }

    /** record_reading: a refused value changes nothing, an accepted one is appended, marks the meter and is judged. */
    method RecordReading(value: int, moment: int) returns (r: Result<Reading, Error>)
      modifies this, book
      ensures r == Record(old(readings), multiplier, value, moment)
      ensures r.Err? ==> unchanged(this) && unchanged(book)
      ensures r.Ok? ==>
                && readings == old(readings) + [r.value]
                && lastReadingAt == Some(moment)
                && status == (if old(status) == Stopped then Stopped else Online)
                && book.alarms == AlarmLedger.RaiseAll(old(book.alarms),
                     AllThresholdCalls(company, id, thresholds, r.value, DayUsage(readings, moment)))
      ensures r == Err(ReadingNegative) <==> value < 0
      ensures value >= 0 && (forall i :: 0 <= i < |old(readings)| ==> old(readings)[i].at > moment) ==>
                r == Ok(Reading(moment, value, 0))
      ensures forall i :: value >= 0 && IsLatestUpTo(old(readings), moment, i) ==>
                FollowsRow(old(readings), multiplier, value, moment, i, r)
      ensures r.Ok? ==> Judged(company, id, thresholds, r.value, Total(SameDay(readings, moment)),
                               old(book.alarms), book.alarms)
    {
      RecordMeans(readings, multiplier, value, moment);
      if value < 0 {
        return Err(ReadingNegative);
      }
      var previous := LatestUpTo(moment);
      if previous.Some? && value < previous.value.value {
        return Err(ReadingRollback);
      }
      var delta := if previous.Some? then value - previous.value.value else 0;
      var row := Reading(moment, value, HalfEven(delta * multiplier, RATE_SCALE));
      readings := readings + [row];
      lastReadingAt := Some(moment);
      if status != Stopped {
        status := Online;
      }
      ghost var ledger := book.alarms;
      EvaluateThresholds(row);
      DayUsageIs(readings, moment);
      ThresholdsMean(ledger, company, id, thresholds, row, DayUsage(readings, moment));
      r := Ok(row);
    }

    method LatestUpTo(moment: int) returns (best: Option<Reading>)
      ensures best == Previous(readings, moment)
    {
      best := None;
      for i := 0 to |readings|
        invariant best == Previous(readings[..i], moment)
      {
        assert readings[..i + 1][..i] == readings[..i];
        if readings[i].at <= moment && (best.None? || best.value.at <= readings[i].at) {
          best := Some(readings[i]);
        }
      }
      assert readings[..|readings|] == readings;
    }

    method EvaluateThresholds(row: Reading)
      modifies book
      ensures book.alarms == AlarmLedger.RaiseAll(old(book.alarms),
                AllThresholdCalls(company, id, thresholds, row, DayUsage(readings, row.at)))
    {
      var usage := DayUsage(readings, row.at);
      ghost var start := book.alarms;
      for i := 0 to |thresholds|
        invariant book.alarms
               == AlarmLedger.RaiseAll(start, AllThresholdCalls(company, id, thresholds[..i], row, usage))
      {
        var t := thresholds[i];
        ghost var before := book.alarms;
        if t.upper.Some? && row.value > t.upper.value {
          var _ := book.RaiseAlarm(MeterCall(company, id, AlarmLedger.OverLimit, row.at));
        }
        if t.lower.Some? && row.value < t.lower.value {
          var _ := book.RaiseAlarm(MeterCall(company, id, AlarmLedger.OverLimit, row.at));
        }
        if t.dailyLimit.Some? && usage > t.dailyLimit.value {
          var _ := book.RaiseAlarm(MeterCall(company, id, AlarmLedger.EnergyConsumption, row.at));
        }
        ThresholdCallsInTurn(before, company, id, t, row, usage);
        assert thresholds[..i + 1][..i] == thresholds[..i];
        RaiseAllAppend(start, AllThresholdCalls(company, id, thresholds[..i], row, usage),
                       ThresholdCalls(company, id, t, row, usage));
      }
      assert thresholds[..|thresholds|] == thresholds;
    }
  }
}
