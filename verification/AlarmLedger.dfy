/**
 The alarm ledger.  raise_alarm looks only backwards from the event time of the
 call, so the check is one-sided; spacing and coverage over whole runs follow
 from it whatever the order in which events arrive.
*/
module AlarmLedger {
  import opened Common

  /** Microseconds in the one time zone of the deployment. */
  const DAY: int := 24 * 3600 * 1000000
  const HOUR: int := 3600 * 1000000
  const REF_LIMIT := 128

  datatype AlarmType = OverLimit | Offline | UnitConsumption | EnergyConsumption

  datatype Key = Key(company: nat, alarmType: AlarmType, meter: Option<nat>, sourceRef: string)

  datatype Alarm = Alarm(key: Key, occurredAt: int)

  /** `window` is the dedup window of the call; None stands for the calendar day of the event. */
  datatype Call = Call(key: Key, occurredAt: int, window: Option<nat>)

  function DayStart(t: int): int {
    t - t % DAY
  }

  function WindowStart(t: int, window: Option<nat>): int {
    if window.None? then DayStart(t) else t - window.value
  }

  /** The column keeps only the first 128 characters of the source reference. */
  function StoredKey(k: Key): Key {
    if |k.sourceRef| <= REF_LIMIT then k else k.(sourceRef := k.sourceRef[..REF_LIMIT])
  }

  predicate Suppressed(ledger: seq<Alarm>, c: Call) {
    exists i ::
      0 <= i < |ledger| && ledger[i].key == c.key && ledger[i].occurredAt >= WindowStart(c.occurredAt, c.window)
  }

  function Raise(ledger: seq<Alarm>, c: Call): seq<Alarm> {
    if Suppressed(ledger, c) then ledger else ledger + [Alarm(StoredKey(c.key), c.occurredAt)]
  }

  function RaiseAll(ledger: seq<Alarm>, calls: seq<Call>): seq<Alarm>
    decreases |calls|
  {
    if calls == [] then ledger else RaiseAll(Raise(ledger, calls[0]), calls[1..])
  }

  /**
   Of two alarms of the key, the one stored later lies outside the window of no
   later call: it starts after the first.
  */
  ghost predicate Spaced(ledger: seq<Alarm>, key: Key, window: Option<nat>) {
    forall i, j :: 0 <= i < j < |ledger| && ledger[i].key == ledger[j].key == key
      ==> ledger[i].occurredAt < WindowStart(ledger[j].occurredAt, window)
  }

  /** Every call that is stored under `key` names it in full and uses the one window. */
  ghost predicate Uniform(calls: seq<Call>, key: Key, window: Option<nat>) {
    forall i :: 0 <= i < |calls| && StoredKey(calls[i].key) == key ==> calls[i].key == key && calls[i].window == window
  }

  lemma {:induction false} SpacingHolds(ledger: seq<Alarm>, calls: seq<Call>, key: Key, window: Option<nat>)
    requires Spaced(ledger, key, window) && Uniform(calls, key, window)
    ensures Spaced(RaiseAll(ledger, calls), key, window)
    decreases |calls|
  {
    if calls != [] {
      SpacingHolds(Raise(ledger, calls[0]), calls[1..], key, window);
    }
  }

  /** From an empty ledger: event times of one key grow by more than the window, in storage order. */
  lemma AlarmsAreSpaced(calls: seq<Call>, key: Key, w: nat, i: nat, j: nat)
    requires Uniform(calls, key, Some(w))
    requires i < j < |RaiseAll([], calls)| && RaiseAll([], calls)[i].key == RaiseAll([], calls)[j].key == key
    ensures RaiseAll([], calls)[i].occurredAt + w < RaiseAll([], calls)[j].occurredAt
  {
    SpacingHolds([], calls, key, Some(w));
  }

  /** The default window starts at the midnight before. */
  lemma DayStartIsMidnight(t: int)
    ensures DayStart(t) == (t / DAY) * DAY && DayStart(t) <= t < DayStart(t) + DAY && DAY == 86400 * 1000000
  {
  }

  /** With the default window, at most one alarm of a key for each calendar day, and the days only move forward. */
  lemma OneAlarmPerDay(calls: seq<Call>, key: Key, i: nat, j: nat)
    requires Uniform(calls, key, None)
    requires i < j < |RaiseAll([], calls)| && RaiseAll([], calls)[i].key == RaiseAll([], calls)[j].key == key
    ensures RaiseAll([], calls)[i].occurredAt / DAY < RaiseAll([], calls)[j].occurredAt / DAY
  {
    SpacingHolds([], calls, key, None);
    DayStartIsMidnight(RaiseAll([], calls)[i].occurredAt);
    DayStartIsMidnight(RaiseAll([], calls)[j].occurredAt);
  }

  lemma {:induction false} LedgerGrows(ledger: seq<Alarm>, calls: seq<Call>)
    ensures ledger <= RaiseAll(ledger, calls)
    decreases |calls|
  {
    if calls != [] {
      LedgerGrows(Raise(ledger, calls[0]), calls[1..]);
    }
  }

  /** The alarm is of the call's company, type, meter and (as far as it is stored) source. */
  predicate IsOf(a: Alarm, c: Call) {
    && a.key.company == c.key.company && a.key.alarmType == c.key.alarmType && a.key.meter == c.key.meter
    && (if |c.key.sourceRef| <= 128 then a.key.sourceRef == c.key.sourceRef
        else |a.key.sourceRef| >= 128 && a.key.sourceRef[..128] == c.key.sourceRef[..128])
  }

  /** No earlier than the window says: so long before the call, or on the same calendar day. */
  predicate Covers(a: Alarm, c: Call) {
    && IsOf(a, c)
    && match c.window
       case Some(w) => a.occurredAt >= c.occurredAt - w
       case None => a.occurredAt / DAY >= c.occurredAt / DAY
  }

  /** Nothing is lost: every call of a run is answered by a stored alarm no earlier than the start of its window. */
  lemma {:induction false} EveryCallIsCovered(ledger: seq<Alarm>, calls: seq<Call>, n: nat)
    requires n < |calls|
    ensures exists i :: 0 <= i < |RaiseAll(ledger, calls)| && Covers(RaiseAll(ledger, calls)[i], calls[n])
    decreases |calls|
  {
    var next := Raise(ledger, calls[0]);
    if n == 0 {
      LedgerGrows(next, calls[1..]);
      var i: nat;
      if Suppressed(ledger, calls[0]) {
        i :| 0 <= i < |ledger| && ledger[i].key == calls[0].key
             && ledger[i].occurredAt >= WindowStart(calls[0].occurredAt, calls[0].window);
      } else {
        i := |ledger|;
        StoredKeyIsStable(calls[0].key);
        WindowStartsBefore(calls[0].occurredAt, calls[0].window);
      }
      assert Covers(next[i], calls[0]);
      assert RaiseAll(ledger, calls)[i] == next[i];
    } else {
      assert calls[1..][n - 1] == calls[n];
      EveryCallIsCovered(next, calls[1..], n - 1);
      assert RaiseAll(ledger, calls) == RaiseAll(next, calls[1..]);
    }
  }

  lemma WindowIff(a: Alarm, c: Call)
    requires IsOf(a, c)
    ensures a.occurredAt >= WindowStart(c.occurredAt, c.window) <==> Covers(a, c)
  {
    DayStartIsMidnight(a.occurredAt);
    DayStartIsMidnight(c.occurredAt);
  }

  lemma SuppressedIff(ledger: seq<Alarm>, c: Call)
    ensures Suppressed(ledger, c) <==> exists i :: 0 <= i < |ledger| && ledger[i].key == c.key && Covers(ledger[i], c)
  {
    forall i | 0 <= i < |ledger| && ledger[i].key == c.key
      ensures ledger[i].occurredAt >= WindowStart(c.occurredAt, c.window) <==> Covers(ledger[i], c)
    {
      WindowIff(ledger[i], c);
    }
  }

  lemma StoredKeyIsStable(k: Key)
    ensures StoredKey(StoredKey(k)) == StoredKey(k)
  {
  }

  lemma WindowStartsBefore(t: int, window: Option<nat>)
    ensures WindowStart(t, window) <= t
  {
  }

  /**
   Repeating a call is harmless for every ledger exactly when its source
   reference fits the column: a longer one is stored cut off but looked up in full.
  */
  lemma RepeatIsHarmlessIff(c: Call)
    ensures (forall ledger :: Raise(Raise(ledger, c), c) == Raise(ledger, c)) <==> |c.key.sourceRef| <= REF_LIMIT
  {
    WindowStartsBefore(c.occurredAt, c.window);
    if |c.key.sourceRef| <= REF_LIMIT {
      forall ledger
        ensures Raise(Raise(ledger, c), c) == Raise(ledger, c)
      {
        var once := Raise(ledger, c);
        if !Suppressed(ledger, c) {
          assert once[|ledger|] == Alarm(c.key, c.occurredAt);
        }
      }
    } else {
      var once := Raise([], c);
      assert once == [Alarm(StoredKey(c.key), c.occurredAt)];
      assert !Suppressed(once, c);
      assert |Raise(once, c)| == 2;
    }
  }

  /** The ledger as the services share it. */
  class AlarmBook {
    var alarms: seq<Alarm>

    constructor ()
      ensures alarms == []
    {
      alarms := [];
    }

    method RaiseAlarm(c: Call) returns (created: Option<Alarm>)
      modifies this
      ensures alarms == Raise(old(alarms), c)
      ensures created.None? <==>
                exists i :: 0 <= i < |old(alarms)| && old(alarms)[i].key == c.key && Covers(old(alarms)[i], c)
      ensures created.None? ==> alarms == old(alarms)
      ensures created.Some? ==>
                && alarms == old(alarms) + [created.value]
                && created.value.occurredAt == c.occurredAt && IsOf(created.value, c)
    {
      SuppressedIff(alarms, c);
      var windowStart := if c.window.None? then DayStart(c.occurredAt) else c.occurredAt - c.window.value;
      if exists i :: 0 <= i < |alarms| && alarms[i].key == c.key && alarms[i].occurredAt >= windowStart {
        return None;
      }
      var alarm := Alarm(StoredKey(c.key), c.occurredAt);
      alarms := alarms + [alarm];
      created := Some(alarm);
    }
  }
}
