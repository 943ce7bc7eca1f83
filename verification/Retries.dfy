/**
 Retries of the outbox over whole runs: when a failed event is due again, when
 it is given up, and that an event which always fails is delivered exactly as
 often as it may be.
*/
module Retries {
  import opened Common
  import opened Outbox
  import opened Dispatch

  // ---------------------------------------------------------------- what a status says

  /** A dead event has used up its attempts; a failed one has not, and knows when it is due again. */
  ghost predicate StatusesMean(s: System) {
    forall e :: e in s.events ==>
      && (s.events[e].status == Dead ==> s.events[e].attempts >= Max(1, s.events[e].maxAttempts))
      && (s.events[e].status == Dead ==> s.events[e].nextRetryAt.None?)
      && (s.events[e].status == Failed ==> 1 <= s.events[e].attempts < s.events[e].maxAttempts)
      && (s.events[e].status == Failed ==> s.events[e].nextRetryAt.Some?)
  }

  lemma StepKeepsStatuses(s: System, step: Step)
    requires Good(s) && Guarded(s, step) && StatusesMean(s)
    ensures StatusesMean(Apply(s, step))
  {
  }

  /** Over any guarded run: DEAD means no attempt is left, FAILED that one is and when. */
  lemma {:induction false} RunKeepsStatuses(s: System, trace: seq<Step>)
    requires Good(s) && AllGuarded(s, trace) && StatusesMean(s)
    ensures StatusesMean(Run(s, trace))
    decreases |trace|
  {
    if trace != [] {
      StepKeepsStatuses(s, trace[0]);
      StepKeepsGood(s, trace[0]);
      RunKeepsStatuses(Apply(s, trace[0]), trace[1..]);
    }
  }

  /** When an event may be delivered at a given time. */
  predicate MayBeDelivered(ev: Event, at: int) {
    (ev.status == Pending || ev.status == Failed) && (ev.nextRetryAt.None? || ev.nextRetryAt.value <= at)
  }

  /** The k-th failure makes the event due again from 10, 20, 40, .. after its mark on, or never if it was the last. */
  lemma RetrySchedule(s: System, w: WorkerId, now: int, at: int)
    requires Good(s) && w in s.workers && s.workers[w].Handled? && !s.workers[w].succeeded
    ensures
      var e := s.workers[w].event;
      && e in s.events && e in Apply(s, Mark(w, now)).events
      && var k, after := s.events[e].attempts + 1, Apply(s, Mark(w, now)).events[e];
         && after.attempts == k
         && (MayBeDelivered(after, at) <==> k < s.events[e].maxAttempts && at >= now + RetryDelay(k))
  {
    DelayDoubles(s.workers[w].attempts + 1);
  }

  /** What a saved replay leaves: due at once, whatever was there, with its history. */
  lemma ReplayMakesDue(s: System, v: ViewerId, now: int, at: int)
    requires v in s.viewers && s.viewers[v].seen != Done && s.viewers[v].event in s.events
    ensures
      var e := s.viewers[v].event;
      var after := Apply(s, Save(v, now)).events[e];
      && (MayBeDelivered(after, at) <==> at >= now)
      && after.attempts == s.events[e].attempts && after.maxAttempts == s.events[e].maxAttempts
      && forall x :: x in s.events && x != e ==> Apply(s, Save(v, now)).events[x] == s.events[x]
  {
  }

  /** A published event may be delivered at once and has no attempt behind it; a taken dedup key publishes nothing. */
  lemma PublishedIsDue(s: System, key: Option<string>, maxAttempts: nat, at: int)
    requires IdsBelowNext(s)
    ensures
      var t := Apply(s, Publish(key, maxAttempts));
      if key.Some? && exists e :: e in s.events && s.events[e].dedupKey == key then t == s
      else
        && s.nextId !in s.events && t.events.Keys == s.events.Keys + {s.nextId}
        && MayBeDelivered(t.events[s.nextId], at) && t.events[s.nextId].attempts == 0
        && t.events[s.nextId].maxAttempts == maxAttempts && t.events[s.nextId].dedupKey == key
        && forall e :: e in s.events ==> t.events[e] == s.events[e]
  {
  }

  // ---------------------------------------------------------------- exactly as often as it may be

  /** One when a worker has run the handler of `e` and not marked it. */
  ghost function Unmarked(s: System, e: EventId): nat {
    if exists w :: HeldBy(s, w, e) && s.workers[w].Handled? then 1 else 0
  }

  lemma StepUnmarked(s: System, step: Step, e: EventId)
    requires Good(s) && Guarded(s, step)
    ensures (if Happens(s, step, FailureOf, e) then 1 else 0) + Unmarked(Apply(s, step), e)
         <= (if Happens(s, step, DeliveryOf, e) then 1 else 0) + Unmarked(s, e)
  {
    var t := Apply(s, step);
    StepKeepsExclusive(s, step);
    if Happens(s, step, FailureOf, e) {
      assert HeldBy(s, step.w, e);
      if w :| HeldBy(t, w, e) && t.workers[w].Handled? {
        assert HeldBy(s, w, e);
      }
    } else if Unmarked(t, e) == 1 && !Happens(s, step, DeliveryOf, e) {
      var w :| HeldBy(t, w, e) && t.workers[w].Handled?;
      assert HeldBy(s, w, e) && s.workers[w].Handled?;
    }
  }

  /** Each failure has a delivery of its own. */
  lemma {:induction false} FailuresNeedDeliveries(s: System, trace: seq<Step>, e: EventId)
    requires Good(s) && AllGuarded(s, trace)
    ensures Count(s, trace, FailureOf, e) + Unmarked(Run(s, trace), e)
         <= Count(s, trace, DeliveryOf, e) + Unmarked(s, e)
    decreases |trace|
  {
    if trace != [] {
      StepKeepsGood(s, trace[0]);
      StepUnmarked(s, trace[0], e);
      FailuresNeedDeliveries(Apply(s, trace[0]), trace[1..], e);
    }
  }

  /** An event that is dead without a replay was delivered exactly max(1, max_attempts) times, and failed each time. */
  lemma DeadWasDeliveredExactly(trace: seq<Step>, e: EventId)
    requires AllGuarded(Empty, trace) && Count(Empty, trace, RequeueOf, e) == 0
    requires e in Run(Empty, trace).events && Run(Empty, trace).events[e].status == Dead
    ensures Count(Empty, trace, DeliveryOf, e) == Max(1, Run(Empty, trace).events[e].maxAttempts)
    ensures Count(Empty, trace, FailureOf, e) == Max(1, Run(Empty, trace).events[e].maxAttempts)
  {
    OutboxSafety(trace, e);
    RunKeepsStatuses(Empty, trace);
    FailuresNeedDeliveries(Empty, trace, e);
  }

  lemma {:induction false} WithoutSaves(s: System, trace: seq<Step>, e: EventId)
    requires forall i :: 0 <= i < |trace| ==> !trace[i].Save?
    ensures AllGuarded(s, trace) && Count(s, trace, RequeueOf, e) == 0
    decreases |trace|
  {
    if trace != [] {
      WithoutSaves(Apply(s, trace[0]), trace[1..], e);
    }
  }

  lemma {:induction false} RunConcat(s: System, a: seq<Step>, b: seq<Step>)
    ensures Run(s, a + b) == Run(Run(s, a), b)
    decreases |a|
  {
    if a == [] {
      assert a + b == b;
    } else {
      assert (a + b)[0] == a[0] && (a + b)[1..] == a[1..] + b;
      RunConcat(Apply(s, a[0]), a[1..], b);
    }
  }

  /** The table holds one event, which is due, and its worker is free. */
  ghost predicate OnlyDue(s: System, w: WorkerId, now: int) {
    && s.events.Keys == {0} && s.nextId == 1 && (w in s.workers ==> s.workers[w].Scanning?)
    && MayBeDelivered(s.events[0], now)
  }

  function Round(w: WorkerId, now: int): seq<Step> {
    [Scan(w, now, 1)] + ([Claim(w), Load(w)] + [Deliver(w, Raises), Mark(w, now)])
  }

  lemma OnlyCandidate(events: map<EventId, Event>, now: int)
    requires events.Keys == {0} && MayBeDelivered(events[0], now)
    ensures Candidates(events, 1, now, 1) == [0]
  {
    assert DueBelow(events, 0, now) == [];
    assert DueBelow(events, 1, now) == [0];
  }

  /** One failing round at a due time: one more attempt, and then dead or due again after the delay. */
  lemma FailingRound(s: System, w: WorkerId, now: int)
    requires OnlyDue(s, w, now)
    ensures
      var t := Run(s, Round(w, now));
      && t.events.Keys == {0} && t.nextId == 1 && w in t.workers && t.workers[w].Scanning?
      && IsFailedOnce(s.events[0], t.events[0], now)
  {
    var scanned := Apply(s, Scan(w, now, 1));
    OnlyCandidate(s.events, now);
    assert Round(w, now)[0] == Scan(w, now, 1);
    assert Round(w, now)[1..] == [Claim(w), Load(w)] + [Deliver(w, Raises), Mark(w, now)];
    UndisturbedDelivery(scanned, w, Raises, now);
    SettledMeans(s.events[0], Raises, now);
  }

  /** Failing at each due time ends with a dead event. */
  lemma {:induction false} FailUntilDead(s: System, w: WorkerId, now: int) returns (trace: seq<Step>)
    requires OnlyDue(s, w, now)
    ensures forall i :: 0 <= i < |trace| ==> !trace[i].Save?
    ensures Run(s, trace).events.Keys == {0} && Run(s, trace).events[0].status == Dead
    ensures Run(s, trace).events[0].maxAttempts == s.events[0].maxAttempts
    decreases s.events[0].maxAttempts - s.events[0].attempts
  {
    FailingRound(s, w, now);
    var t := Run(s, Round(w, now));
    if t.events[0].status == Dead {
      trace := Round(w, now);
    } else {
      var rest := FailUntilDead(t, w, now + RetryDelay(t.events[0].attempts));
      trace := Round(w, now) + rest;
      RunConcat(s, Round(w, now), rest);
    }
  }

  /** The bound of OutboxSafety is met: an event that fails whenever it is due gets max(1, max_attempts) deliveries. */
  lemma OutboxBoundIsMet(maxAttempts: nat) returns (trace: seq<Step>)
    ensures AllGuarded(Empty, trace) && Count(Empty, trace, RequeueOf, 0) == 0
    ensures 0 in Run(Empty, trace).events && Run(Empty, trace).events[0].maxAttempts == maxAttempts
    ensures Count(Empty, trace, DeliveryOf, 0) == Max(1, maxAttempts)
  {
    var start := [Publish(None, maxAttempts)];
    var s := Apply(Empty, Publish(None, maxAttempts));
    assert start[1..] == [] && Run(Empty, start) == s;
    assert s.events.Keys == {0};
    var rest := FailUntilDead(s, 0, 0);
    trace := start + rest;
    RunConcat(Empty, start, rest);
    WithoutSaves(Empty, trace, 0);
    DeadWasDeliveredExactly(trace, 0);
  }
}
