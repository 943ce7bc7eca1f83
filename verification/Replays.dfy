/**
 The retry view of the outbox looks at an event and saves it later.  When such
 a replay is safe: exactly which states, and which seen statuses, keep every
 continuation free of a second delivery.
*/
module Replays {
  import opened Common
  import opened Outbox

  // ---------------------------------------------------------------- replaying an event that is held

  lemma {:induction false} DueShrinks(events: map<EventId, Event>, n: nat, now: int, d: EventId, taken: Event)
    requires d in events && IsDue(events[d], now) && !IsDue(taken, now)
    ensures |DueBelow(events[d := taken], n, now)| == |DueBelow(events, n, now)| - if d < n then 1 else 0
  {
    if n > 0 {
      DueShrinks(events, n - 1, now, d, taken);
    }
  }

  lemma FreshAbove(ws: set<nat>)
    ensures exists w: nat :: w !in ws
  {
    var bound := BoundOf(ws);
    assert bound !in ws;
  }

  lemma BoundOf(ws: set<nat>) returns (bound: nat)
    ensures forall w :: w in ws ==> w < bound
  {
    bound := 0;
    var rest := ws;
    while rest != {}
      invariant rest <= ws
      invariant forall w :: w in ws && w !in rest ==> w < bound
      decreases rest
    {
      var w :| w in rest;
      rest := rest - {w};
      bound := Max(bound, w + 1);
    }
  }

  lemma FreshWorkerClaimsFirstDue(s: System, w: WorkerId, now: int, d: EventId)
    requires w !in s.workers && Candidates(s.events, s.nextId, now, 1) == [d] && d in s.events && Claimable(s.events[d])
    ensures Apply(Apply(s, Scan(w, now, 1)), Claim(w))
         == s.(events := s.events[d := s.events[d].(status := Processing)], workers := s.workers[w := Claimed(d, [])])
  {
    var scanned := Apply(s, Scan(w, now, 1));
    assert scanned.workers[w] == Scanning([d]) && [d][1..] == [];
    assert s.workers[w := Scanning([d])][w := Claimed(d, [])] == s.workers[w := Claimed(d, [])];
  }

  lemma FirstCandidate(s: System, e: EventId, now: int) returns (d: EventId)
    requires IdsBelowNext(s) && e in s.events && IsDue(s.events[e], now)
    ensures Candidates(s.events, s.nextId, now, 1) == [d] && d <= e && d in s.events && IsDue(s.events[d], now)
  {
    DueIsPrefix(s.events, e + 1, s.nextId, now);
    DueIsPrefix(s.events, e + 1, e + 1, now);
    var below := DueBelow(s.events, e + 1, now);
    d := below[0];
    assert d in below;
  }

  /** Steps of workers alone. */
  predicate OfWorkers(trace: seq<Step>) {
    forall i :: 0 <= i < |trace| ==> !trace[i].LookUp? && !trace[i].Save?
  }

  /** A due event gets held: fresh workers claim what comes before it and crash, the last one claims it. */
  lemma {:induction false} ReachHolder(s: System, e: EventId, now: int) returns (trace: seq<Step>, w2: WorkerId)
    requires IdsBelowNext(s) && e in s.events && IsDue(s.events[e], now)
    ensures AllGuarded(s, trace) && OfWorkers(trace)
    ensures w2 !in s.workers && HeldBy(Run(s, trace), w2, e)
    ensures forall w :: w in s.workers ==> w in Run(s, trace).workers && Run(s, trace).workers[w] == s.workers[w]
    ensures Run(s, trace).viewers == s.viewers && e in Run(s, trace).events
    decreases |DueBelow(s.events, e, now)|
  {
    FreshAbove(s.workers.Keys);
    w2 :| w2 !in s.workers;
    var d := FirstCandidate(s, e, now);
    FreshWorkerClaimsFirstDue(s, w2, now, d);
    var taken := Apply(Apply(s, Scan(w2, now, 1)), Claim(w2));
    if d == e {
      RunTwo(s, Scan(w2, now, 1), Claim(w2), []);
      trace := [Scan(w2, now, 1), Claim(w2)] + [];
    } else {
      var crashed := ClaimAndCrash(s, w2, now, d);
      DueShrinks(s.events, e, now, d, s.events[d].(status := Processing));
      var rest, w := ReachHolder(crashed, e, now);
      var tail := [Crash(w2)] + rest;
      assert tail[0] == Crash(w2) && tail[1..] == rest;
      RunTwo(s, Scan(w2, now, 1), Claim(w2), tail);
      trace := [Scan(w2, now, 1), Claim(w2)] + tail;
      w2 := w;
    }
  }

  lemma ClaimAndCrash(s: System, w: WorkerId, now: int, d: EventId) returns (crashed: System)
    requires w !in s.workers && Candidates(s.events, s.nextId, now, 1) == [d] && d in s.events && Claimable(s.events[d])
    ensures crashed == Apply(Apply(Apply(s, Scan(w, now, 1)), Claim(w)), Crash(w))
    ensures crashed == s.(events := s.events[d := s.events[d].(status := Processing)])
  {
    FreshWorkerClaimsFirstDue(s, w, now, d);
    crashed := Apply(Apply(Apply(s, Scan(w, now, 1)), Claim(w)), Crash(w));
    assert s.workers[w := Claimed(d, [])] - {w} == s.workers;
  }

  /** Once a held event is claimable again, fresh workers reach it and claim it a second time. */
  lemma SecondHolder(s: System, e: EventId, now: int, w1: WorkerId) returns (trace: seq<Step>)
    requires IdsBelowNext(s) && HeldBy(s, w1, e) && e in s.events && IsDue(s.events[e], now)
    ensures AllGuarded(s, trace) && !Exclusive(Run(s, trace))
  {
    var w2;
    trace, w2 := ReachHolder(s, e, now);
    assert HeldBy(Run(s, trace), w1, e);
  }

  /** The save leaves a finished event finished, and no continuation ever holds an event twice. */
  ghost predicate ReplayIsSafe(s: System, v: ViewerId, now: int)
    requires v in s.viewers
  {
    var t, e := Apply(s, Save(v, now)), s.viewers[v].event;
    && (e in s.events && s.events[e].status == Done ==> t.events[e].status == Done)
    && forall trace :: AllGuarded(t, trace) ==> Exclusive(Run(t, trace))
  }

  /** From a good state, saving a replay is safe exactly when by then no worker holds the event or has finished it. */
  lemma ReplayIsSafeIff(s: System, v: ViewerId, now: int)
    requires Good(s) && v in s.viewers && s.viewers[v].seen != Done && s.viewers[v].event in s.events
    ensures ReplayIsSafe(s, v, now) <==> !IsHeld(s, s.viewers[v].event) && s.events[s.viewers[v].event].status != Done
  {
    var t, e := Apply(s, Save(v, now)), s.viewers[v].event;
    if !IsHeld(s, e) && s.events[e].status != Done {
      StepKeepsGood(s, Save(v, now));
      forall trace | AllGuarded(t, trace)
        ensures Exclusive(Run(t, trace))
      {
        RunKeepsGood(t, trace);
      }
    } else if s.events[e].status != Done {
      var w1 :| HeldBy(s, w1, e);
      assert HeldBy(t, w1, e);
      var trace := SecondHolder(t, e, now, w1);
      assert AllGuarded(t, trace) && !Exclusive(Run(t, trace));
    }
  }

  // ---------------------------------------------------------------- what the retry view can rely on

  /** An event that is shown as neither in processing nor done is with no worker. */
  lemma ShownIdleIsNotHeld(s: System, e: EventId)
    requires Good(s) && e in s.events && s.events[e].status != Processing
    ensures !IsHeld(s, e)
  {
    if w :| HeldBy(s, w, e) {
      assert false;
    }
  }

  /** Every save hits an event whose status is then neither PROCESSING nor DONE. */
  ghost predicate SavesHitIdle(s: System, trace: seq<Step>)
    decreases |trace|
  {
    trace == []
    || ((forall e :: Replays(s, trace[0], e) ==> s.events[e].status != Processing && s.events[e].status != Done)
        && SavesHitIdle(Apply(s, trace[0]), trace[1..]))
  }

  lemma {:induction false} IdleSavesAreGuarded(s: System, trace: seq<Step>)
    requires Good(s) && SavesHitIdle(s, trace)
    ensures AllGuarded(s, trace)
    decreases |trace|
  {
    if trace != [] {
      forall e | Replays(s, trace[0], e)
        ensures !IsHeld(s, e)
      {
        ShownIdleIsNotHeld(s, e);
      }
      StepKeepsGood(s, trace[0]);
      IdleSavesAreGuarded(Apply(s, trace[0]), trace[1..]);
    }
  }

  /** So all of OutboxSafety holds when replays save only over PENDING, FAILED and DEAD. */
  lemma IdleReplaysAreSafe(trace: seq<Step>, e: EventId)
    requires SavesHitIdle(Empty, trace)
    ensures Good(Run(Empty, trace))
    ensures Attempts(Run(Empty, trace), e) == Count(Empty, trace, FailureOf, e)
    ensures e in Run(Empty, trace).events ==>
              Count(Empty, trace, DeliveryOf, e)
                <= Max(1, Run(Empty, trace).events[e].maxAttempts) + Count(Empty, trace, RequeueOf, e)
  {
    IdleSavesAreGuarded(Empty, trace);
    OutboxSafety(trace, e);
  }

  /** Viewer `v` neither starts over nor saves yet. */
  ghost predicate Waits(trace: seq<Step>, v: ViewerId) {
    forall i :: 0 <= i < |trace| ==>
      !(trace[i].LookUp? && trace[i].v == v) && !(trace[i].Save? && trace[i].v == v)
  }

  /** Viewer `v` waits, and no other viewer saves a replay of `e`. */
  ghost predicate Leaves(s: System, trace: seq<Step>, v: ViewerId, e: EventId)
    decreases |trace|
  {
    trace == []
    || (!Replays(s, trace[0], e) && !(trace[0].LookUp? && trace[0].v == v) && !(trace[0].Save? && trace[0].v == v)
        && Leaves(Apply(s, trace[0]), trace[1..], v, e))
  }

  /** Whatever happens between the look and the save, the save will be guarded. */
  ghost predicate SightIsSafe(s: System, v: ViewerId, e: EventId, now: int) {
    var seen := Apply(s, LookUp(v, e));
    forall between :: AllGuarded(seen, between) && Waits(between, v)
      ==> Guarded(Run(seen, between), Save(v, now))
  }

  /** The same, if replays of one event follow each other. */
  ghost predicate SightIsSafeAlone(s: System, v: ViewerId, e: EventId, now: int) {
    var seen := Apply(s, LookUp(v, e));
    forall between :: AllGuarded(seen, between) && Leaves(seen, between, v, e)
      ==> Guarded(Run(seen, between), Save(v, now))
  }

  lemma {:induction false} SightLasts(s: System, trace: seq<Step>, v: ViewerId, e: EventId)
    requires Good(s) && AllGuarded(s, trace) && Leaves(s, trace, v, e) && e in s.events
    requires v in s.viewers && s.viewers[v].event == e
    requires s.events[e].status == Dead || (s.events[e].status == Processing && !IsHeld(s, e))
    ensures
      var t := Run(s, trace);
      && e in t.events && t.events[e].status == s.events[e].status && !IsHeld(t, e)
      && v in t.viewers && t.viewers[v] == s.viewers[v]
    decreases |trace|
  {
    if s.events[e].status == Dead {
      ShownIdleIsNotHeld(s, e);
    }
    if trace != [] {
      StepKeepsGood(s, trace[0]);
      UnheldStays(s, trace[0], e);
      SightLasts(Apply(s, trace[0]), trace[1..], v, e);
    }
  }

  lemma UnheldStays(s: System, step: Step, e: EventId)
    requires Good(s) && e in s.events && !IsHeld(s, e) && !Claimable(s.events[e]) && !Replays(s, step, e)
    ensures e in Apply(s, step).events && Apply(s, step).events[e] == s.events[e] && !IsHeld(Apply(s, step), e)
  {
    var t := Apply(s, step);
    if w :| HeldBy(t, w, e) {
      assert HeldBy(s, w, e);
      assert false;
    }
    if step.Mark? && step.w in s.workers && s.workers[step.w].Handled? {
      assert HeldBy(s, step.w, s.workers[step.w].event);
    }
  }

  /**
   What the view may conclude from the status it saw if no other replay of the
   event is saved before its own: a DEAD event stays replayable, an event left
   in processing by a crashed worker too, and a DONE one is refused.  Any other
   event may be claimed in between.
  */
  lemma SightIsSafeAloneIff(s: System, v: ViewerId, e: EventId, now: int)
    requires Good(s) && e in s.events
    ensures SightIsSafeAlone(s, v, e, now)
       <==> || s.events[e].status == Dead || s.events[e].status == Done
            || (s.events[e].status == Processing && !IsHeld(s, e))
  {
    var seen := Apply(s, LookUp(v, e));
    StepKeepsGood(s, LookUp(v, e));
    assert forall w :: HeldBy(seen, w, e) <==> HeldBy(s, w, e);
    if s.events[e].status == Done {
      forall between | AllGuarded(seen, between) && Leaves(seen, between, v, e)
        ensures Guarded(Run(seen, between), Save(v, now))
      {
        ViewerLasts(seen, between, v, e);
      }
    } else if s.events[e].status == Dead || (s.events[e].status == Processing && !IsHeld(s, e)) {
      forall between | AllGuarded(seen, between) && Leaves(seen, between, v, e)
        ensures Guarded(Run(seen, between), Save(v, now))
      {
        SightLasts(seen, between, v, e);
      }
    } else {
      var between := HeldAtSave(seen, v, e);
      assert Replays(Run(seen, between), Save(v, now), e);
    }
  }

  /**
   With other replays about, no status is enough but DONE, which is refused: a
   second viewer saves first, a worker claims the event, and the save of the
   first hits a held one.
  */
  lemma SightIsSafeIff(s: System, v: ViewerId, e: EventId, now: int)
    requires Good(s) && e in s.events
    ensures SightIsSafe(s, v, e, now) <==> s.events[e].status == Done
  {
    var seen := Apply(s, LookUp(v, e));
    StepKeepsGood(s, LookUp(v, e));
    assert forall w :: HeldBy(seen, w, e) <==> HeldBy(s, w, e);
    if s.events[e].status == Done {
      forall between | AllGuarded(seen, between) && Waits(between, v)
        ensures Guarded(Run(seen, between), Save(v, now))
      {
        WaitingViewerLasts(seen, between, v);
      }
    } else {
      var between: seq<Step>;
      if Claimable(s.events[e]) || IsHeld(s, e) {
        between := HeldAtSave(seen, v, e);
      } else {
        between := OvertakenSave(seen, v, e);
      }
      assert Replays(Run(seen, between), Save(v, now), e);
      assert !Guarded(Run(seen, between), Save(v, now));
    }
  }

  lemma {:induction false} WaitingViewerLasts(s: System, trace: seq<Step>, v: ViewerId)
    requires Waits(trace, v) && v in s.viewers
    ensures v in Run(s, trace).viewers && Run(s, trace).viewers[v] == s.viewers[v]
    decreases |trace|
  {
    if trace != [] {
      assert !(trace[0].LookUp? && trace[0].v == v) && !(trace[0].Save? && trace[0].v == v);
      WaitingViewerLasts(Apply(s, trace[0]), trace[1..], v);
    }
  }

  /** Another viewer looks and saves first, and a worker claims the event. */
  lemma OvertakenSave(s: System, v: ViewerId, e: EventId) returns (between: seq<Step>)
    requires Good(s) && e in s.events && v in s.viewers && s.viewers[v].event == e
    requires s.events[e].status != Done && !IsHeld(s, e)
    ensures AllGuarded(s, between) && Waits(between, v)
    ensures IsHeld(Run(s, between), e) && e in Run(s, between).events
    ensures v in Run(s, between).viewers && Run(s, between).viewers[v] == s.viewers[v]
  {
    FreshAbove(s.viewers.Keys);
    var v2: nat :| v2 !in s.viewers;
    var looked := Apply(s, LookUp(v2, e));
    var saved := Apply(looked, Save(v2, 0));
    StepKeepsGood(s, LookUp(v2, e));
    assert forall w :: HeldBy(looked, w, e) <==> HeldBy(s, w, e);
    StepKeepsGood(looked, Save(v2, 0));
    var rest, w := ReachHolder(saved, e, 0);
    RunTwo(s, LookUp(v2, e), Save(v2, 0), rest);
    between := [LookUp(v2, e), Save(v2, 0)] + rest;
    assert saved.viewers[v] == s.viewers[v];
  }

  lemma {:induction false} ViewerLasts(s: System, trace: seq<Step>, v: ViewerId, e: EventId)
    requires Leaves(s, trace, v, e) && v in s.viewers
    ensures v in Run(s, trace).viewers && Run(s, trace).viewers[v] == s.viewers[v]
    decreases |trace|
  {
    if trace != [] {
      ViewerLasts(Apply(s, trace[0]), trace[1..], v, e);
    }
  }

  lemma {:induction false} WorkersLeave(s: System, trace: seq<Step>, v: ViewerId, e: EventId)
    requires OfWorkers(trace)
    ensures Leaves(s, trace, v, e)
    decreases |trace|
  {
    if trace != [] {
      WorkersLeave(Apply(s, trace[0]), trace[1..], v, e);
    }
  }

  /** An event that is claimable, or held, can be held when the view saves. */
  lemma HeldAtSave(s: System, v: ViewerId, e: EventId) returns (between: seq<Step>)
    requires Good(s) && e in s.events && v in s.viewers && s.viewers[v] == Viewer(e, s.events[e].status)
    requires Claimable(s.events[e]) || IsHeld(s, e)
    ensures AllGuarded(s, between) && Leaves(s, between, v, e) && Waits(between, v)
    ensures IsHeld(Run(s, between), e) && Run(s, between).viewers == s.viewers && e in Run(s, between).events
  {
    if IsHeld(s, e) {
      between := [];
    } else {
      var due := if s.events[e].nextRetryAt.Some? then s.events[e].nextRetryAt.value else 0;
      var w;
      between, w := ReachHolder(s, e, due);
      WorkersLeave(s, between, v, e);
    }
  }
}
