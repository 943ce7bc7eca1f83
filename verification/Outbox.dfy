/**
 The transactional outbox: events are published with the business data, then
 delivered at least once by any number of competing workers.  Every database
 statement of a worker is one atomic step, so a run is a sequence of steps in
 any order of the workers.  A worker's candidate list is read once and may be
 arbitrarily stale by the time a candidate is claimed.  A replay by hand is two
 steps: a look at the event and a later save.
*/
module Outbox {
  import opened Common

  type EventId = nat
  type WorkerId = nat
  type ViewerId = nat

  datatype Status = Pending | Processing | Done | Failed | Dead

  datatype Event = Event(
    status: Status,
    attempts: nat,
    maxAttempts: nat,
    nextRetryAt: Option<int>,
    dedupKey: Option<string>)

  datatype Notification = Notification(recipient: nat, source: EventId)

  /** How far one worker is inside its dispatch loop; `todo` is the rest of its candidate list. */
  datatype Worker =
    | Scanning(todo: seq<EventId>)
    | Claimed(event: EventId, todo: seq<EventId>)
    | Loaded(event: EventId, attempts: nat, maxAttempts: nat, todo: seq<EventId>)
    | Handled(event: EventId, attempts: nat, maxAttempts: nat, succeeded: bool, todo: seq<EventId>)
  {
    predicate Holds(e: EventId) {
      !Scanning? && event == e
    }
  }

  /** A request of the retry view: it loads the event, looks at its status and saves later. */
  datatype Viewer = Viewer(event: EventId, seen: Status)

  datatype System = System(
    events: map<EventId, Event>,
    nextId: EventId,
    workers: map<WorkerId, Worker>,
    viewers: map<ViewerId, Viewer>,
    notifications: seq<Notification>)

  /** What calling the registered handler does: a raised error rolls its notifications back. */
  datatype Outcome = NoHandler | Raises | Notifies(recipients: seq<nat>)

  datatype Step =
    | Publish(dedupKey: Option<string>, maxAttempts: nat)
    | Scan(w: WorkerId, now: int, limit: nat)
    | Claim(w: WorkerId)
    | Load(w: WorkerId)
    | Deliver(w: WorkerId, outcome: Outcome)
    | Mark(w: WorkerId, now: int)
    | Crash(w: WorkerId)
    | LookUp(v: ViewerId, e: EventId)
    | Save(v: ViewerId, now: int)

  // ---------------------------------------------------------------- the pieces of a step

  predicate Claimable(ev: Event) {
    ev.status == Pending || ev.status == Failed
  }

  predicate IsDue(ev: Event, now: int) {
    Claimable(ev) && (ev.nextRetryAt.None? || ev.nextRetryAt.value <= now)
  }

  /** The due events with an id below `n`, in id order. */
  function DueBelow(events: map<EventId, Event>, n: nat, now: int): seq<EventId> {
    if n == 0 then []
    else DueBelow(events, n - 1, now) + if n - 1 in events && IsDue(events[n - 1], now) then [n - 1] else []
  }

  function Candidates(events: map<EventId, Event>, nextId: EventId, now: int, limit: nat): seq<EventId> {
    var due := DueBelow(events, nextId, now);
    if |due| <= limit then due else due[..limit]
  }

  function Pow2(n: nat): nat {
    if n == 0 then 1 else 2 * Pow2(n - 1)
  }

  /** mark_event_failed on the copy of the event that was loaded after the claim. */
  function MarkedFailed(ev: Event, loadedAttempts: nat, loadedMax: nat, now: int): Event {
    var attempts := loadedAttempts + 1;
    if attempts >= loadedMax then ev.(attempts := attempts, status := Dead, nextRetryAt := None)
    else ev.(attempts := attempts, status := Failed, nextRetryAt := Some(now + 10 * Pow2(attempts - 1)))
  }

  predicate HasRow(ns: seq<Notification>, source: EventId) {
    exists i :: 0 <= i < |ns| && ns[i].source == source
  }

  /** create_notification: the unique key on the source event turns a second insert into nothing. */
  function CreateNotification(ns: seq<Notification>, recipient: nat, source: EventId): seq<Notification> {
    if HasRow(ns, source) then ns else ns + [Notification(recipient, source)]
  }

  function NotifyAll(ns: seq<Notification>, recipients: seq<nat>, source: EventId): seq<Notification>
    decreases |recipients|
  {
    if recipients == [] then ns
    else NotifyAll(CreateNotification(ns, recipients[0], source), recipients[1..], source)
  }

  predicate DedupTaken(events: map<EventId, Event>, key: Option<string>) {
    key.Some? && exists e :: e in events && events[e].dedupKey == key
  }

  // ---------------------------------------------------------------- one step, and runs

  /** One atomic step.  A step whose guard does not hold changes nothing. */
  function Apply(s: System, step: Step): System {
    match step
    case Publish(key, maxAttempts) =>
      if DedupTaken(s.events, key) then s
      else s.(events := s.events[s.nextId := Event(Pending, 0, maxAttempts, None, key)], nextId := s.nextId + 1)
    case Scan(w, now, limit) =>
      if w in s.workers && !s.workers[w].Scanning? then s
      else s.(workers := s.workers[w := Scanning(Candidates(s.events, s.nextId, now, limit))])
    case Claim(w) =>
      if w in s.workers && s.workers[w].Scanning? && s.workers[w].todo != [] then
        var e, rest := s.workers[w].todo[0], s.workers[w].todo[1..];
        if e in s.events && Claimable(s.events[e]) then
          s.(events := s.events[e := s.events[e].(status := Processing)],
             workers := s.workers[w := Claimed(e, rest)])
        else
          s.(workers := s.workers[w := Scanning(rest)])
      else s
    case Load(w) =>
      if w in s.workers && s.workers[w].Claimed? && s.workers[w].event in s.events then
        var k := s.workers[w];
        var ev := s.events[k.event];
        s.(workers := s.workers[w := Loaded(k.event, ev.attempts, ev.maxAttempts, k.todo)])
      else s
    case Deliver(w, outcome) =>
      if w in s.workers && s.workers[w].Loaded? then
        var k := s.workers[w];
        s.(workers := s.workers[w := Handled(k.event, k.attempts, k.maxAttempts, outcome.Notifies?, k.todo)],
           notifications := if outcome.Notifies? then NotifyAll(s.notifications, outcome.recipients, k.event)
                            else s.notifications)
      else s
    case Mark(w, now) =>
      if w in s.workers && s.workers[w].Handled? && s.workers[w].event in s.events then
        var k := s.workers[w];
        var ev := s.events[k.event];
        var marked := if k.succeeded then ev.(status := Done) else MarkedFailed(ev, k.attempts, k.maxAttempts, now);
        s.(events := s.events[k.event := marked], workers := s.workers[w := Scanning(k.todo)])
      else s
    case Crash(w) =>
      s.(workers := s.workers - {w})
    case LookUp(v, e) =>
      if e in s.events then s.(viewers := s.viewers[v := Viewer(e, s.events[e].status)]) else s
    case Save(v, now) =>
      if v !in s.viewers then s
      else
        var e := s.viewers[v].event;
        s.(viewers := s.viewers - {v},
           events := if e in s.events && s.viewers[v].seen != Done
                     then s.events[e := s.events[e].(status := Pending, nextRetryAt := Some(now))]
                     else s.events)
  }

  function Run(s: System, trace: seq<Step>): System
    decreases |trace|
  {
    if trace == [] then s else Run(Apply(s, trace[0]), trace[1..])
  }

  const Empty := System(map[], 0, map[], map[], [])

  lemma RunTwo(s: System, a: Step, b: Step, rest: seq<Step>)
    ensures Run(s, [a, b] + rest) == Run(Apply(Apply(s, a), b), rest)
    ensures AllGuarded(s, [a, b] + rest)
       <==> Guarded(s, a) && Guarded(Apply(s, a), b) && AllGuarded(Apply(Apply(s, a), b), rest)
  {
    var both := [a, b] + rest;
    assert both[0] == a && both[1..] == [b] + rest;
    assert both[1..][0] == b && both[1..][1..] == rest;
  }

  // ---------------------------------------------------------------- what is claimed of a state

  ghost predicate HeldBy(s: System, w: WorkerId, e: EventId) {
    w in s.workers && s.workers[w].Holds(e)
  }

  ghost predicate IsHeld(s: System, e: EventId) {
    exists w :: HeldBy(s, w, e)
  }

  /** No event is held by two workers. */
  ghost predicate Exclusive(s: System) {
    forall e, w1, w2 :: HeldBy(s, w1, e) && HeldBy(s, w2, e) ==> w1 == w2
  }

  /** A held event is in processing, and the copy its holder loaded is up to date. */
  ghost predicate HoldersCurrent(s: System) {
    forall w :: w in s.workers && !s.workers[w].Scanning? ==>
      var k := s.workers[w];
      && k.event in s.events
      && s.events[k.event].status == Processing
      && (k.Loaded? || k.Handled? ==>
            k.attempts == s.events[k.event].attempts && k.maxAttempts == s.events[k.event].maxAttempts)
  }

  ghost predicate IdsBelowNext(s: System) {
    forall e :: e in s.events ==> e < s.nextId
  }

  ghost predicate DedupUnique(s: System) {
    forall e1, e2 :: (e1 in s.events && e2 in s.events && s.events[e1].dedupKey.Some?
                        && s.events[e1].dedupKey == s.events[e2].dedupKey) ==> e1 == e2
  }

  ghost predicate OneRowPerSource(ns: seq<Notification>) {
    forall i, j :: 0 <= i < j < |ns| ==> ns[i].source != ns[j].source
  }

  ghost predicate Good(s: System) {
    Exclusive(s) && HoldersCurrent(s) && IdsBelowNext(s) && DedupUnique(s) && OneRowPerSource(s.notifications)
  }

  /** The save of a replay takes effect on event `e`: only a status seen as DONE was refused. */
  predicate Replays(s: System, step: Step, e: EventId) {
    && step.Save? && step.v in s.viewers && s.viewers[step.v].event == e
    && s.viewers[step.v].seen != Done && e in s.events
  }

  /** The only steps left out: saving a replay of an event that a worker holds by now, or has finished. */
  ghost predicate Guarded(s: System, step: Step) {
    forall e :: Replays(s, step, e) ==> !IsHeld(s, e) && s.events[e].status != Done
  }

  ghost predicate AllGuarded(s: System, trace: seq<Step>)
    decreases |trace|
  {
    trace == [] || (Guarded(s, trace[0]) && AllGuarded(Apply(s, trace[0]), trace[1..]))
  }

  // ---------------------------------------------------------------- counting over a run

  datatype Kind = ClaimOf | DeliveryOf | FailureOf | RequeueOf

  /** The step takes effect in `s`, on event `e`, in the given role. */
  predicate Happens(s: System, step: Step, kind: Kind, e: EventId) {
    match kind
    case ClaimOf =>
      && step.Claim? && step.w in s.workers && s.workers[step.w].Scanning? && s.workers[step.w].todo != []
      && s.workers[step.w].todo[0] == e && e in s.events && Claimable(s.events[e])
    case DeliveryOf =>
      step.Deliver? && step.w in s.workers && s.workers[step.w].Loaded? && s.workers[step.w].event == e
    case FailureOf =>
      && step.Mark? && step.w in s.workers && s.workers[step.w].Handled? && s.workers[step.w].event == e
      && e in s.events && !s.workers[step.w].succeeded
    case RequeueOf =>
      Replays(s, step, e)
  }

  function Count(s: System, trace: seq<Step>, kind: Kind, e: EventId): nat
    decreases |trace|
  {
    if trace == [] then 0
    else (if Happens(s, trace[0], kind, e) then 1 else 0) + Count(Apply(s, trace[0]), trace[1..], kind, e)
  }

  function Attempts(s: System, e: EventId): nat {
    if e in s.events then s.events[e].attempts else 0
  }

  // ---------------------------------------------------------------- notifications

  lemma {:induction false} NotifyAllEffect(ns: seq<Notification>, recipients: seq<nat>, e: EventId)
    requires OneRowPerSource(ns)
    ensures OneRowPerSource(NotifyAll(ns, recipients, e))
    ensures NotifyAll(ns, recipients, e)
         == if recipients == [] || HasRow(ns, e) then ns else ns + [Notification(recipients[0], e)]
    decreases |recipients|
  {
    if recipients != [] {
      var next := CreateNotification(ns, recipients[0], e);
      if !HasRow(ns, e) {
        assert next[|ns|].source == e;
      }
      assert HasRow(next, e);
      NotifyAllEffect(next, recipients[1..], e);
    }
  }

  // ---------------------------------------------------------------- preservation

  lemma StepKeepsExclusive(s: System, step: Step)
    requires Exclusive(s) && HoldersCurrent(s)
    ensures Exclusive(Apply(s, step))
  {
    var t := Apply(s, step);
    forall e, w1, w2 | HeldBy(t, w1, e) && HeldBy(t, w2, e)
      ensures w1 == w2
    {
      if Happens(s, step, ClaimOf, e) {
        assert !HeldBy(s, w1, e) && !HeldBy(s, w2, e);
      } else {
        assert HeldBy(s, w1, e) && HeldBy(s, w2, e);
      }
    }
  }

  lemma StepKeepsHoldersCurrent(s: System, step: Step)
    requires Exclusive(s) && HoldersCurrent(s) && IdsBelowNext(s) && Guarded(s, step)
    ensures HoldersCurrent(Apply(s, step))
  {
    var t := Apply(s, step);
    forall w | w in t.workers && !t.workers[w].Scanning?
      ensures
        var k := t.workers[w];
        && k.event in t.events
        && t.events[k.event].status == Processing
        && (k.Loaded? || k.Handled? ==>
              k.attempts == t.events[k.event].attempts && k.maxAttempts == t.events[k.event].maxAttempts)
    {
      var e := t.workers[w].event;
      if !Happens(s, step, ClaimOf, e) {
        assert HeldBy(s, w, e);
        if step.Mark? && w != step.w && HeldBy(s, step.w, e) {
          assert false;
        }
      }
    }
  }

  lemma StepKeepsGood(s: System, step: Step)
    requires Good(s) && Guarded(s, step)
    ensures Good(Apply(s, step))
  {
    StepKeepsExclusive(s, step);
    StepKeepsHoldersCurrent(s, step);
    if step.Deliver? && step.w in s.workers && s.workers[step.w].Loaded? && step.outcome.Notifies? {
      NotifyAllEffect(s.notifications, step.outcome.recipients, s.workers[step.w].event);
    }
  }

  /** Main invariant: over every interleaving, no event is ever held twice. */
  lemma {:induction false} RunKeepsGood(s: System, trace: seq<Step>)
    requires Good(s) && AllGuarded(s, trace)
    ensures Good(Run(s, trace))
    decreases |trace|
  {
    if trace != [] {
      StepKeepsGood(s, trace[0]);
      RunKeepsGood(Apply(s, trace[0]), trace[1..]);
    }
  }

  // ---------------------------------------------------------------- status is never lost

  /** DONE is final, and DEAD is left by nothing but a requeue. */
  lemma StepKeepsSettled(s: System, step: Step, e: EventId)
    requires Good(s) && Guarded(s, step) && e in s.events
    ensures e in Apply(s, step).events
    ensures s.events[e].status == Done ==> Apply(s, step).events[e] == s.events[e]
    ensures s.events[e].status == Dead && !Happens(s, step, RequeueOf, e) ==> Apply(s, step).events[e] == s.events[e]
  {
  }

  lemma {:induction false} DoneIsFinal(s: System, trace: seq<Step>, e: EventId)
    requires Good(s) && AllGuarded(s, trace) && e in s.events && s.events[e].status == Done
    ensures e in Run(s, trace).events && Run(s, trace).events[e] == s.events[e]
    ensures Count(s, trace, ClaimOf, e) == 0
    decreases |trace|
  {
    if trace != [] {
      StepKeepsGood(s, trace[0]);
      StepKeepsSettled(s, trace[0], e);
      DoneIsFinal(Apply(s, trace[0]), trace[1..], e);
    }
  }

  lemma {:induction false} DeadNeedsRequeue(s: System, trace: seq<Step>, e: EventId)
    requires Good(s) && AllGuarded(s, trace) && e in s.events && s.events[e].status == Dead
    requires Count(s, trace, RequeueOf, e) == 0
    ensures e in Run(s, trace).events && Run(s, trace).events[e] == s.events[e]
    decreases |trace|
  {
    if trace != [] {
      StepKeepsGood(s, trace[0]);
      StepKeepsSettled(s, trace[0], e);
      DeadNeedsRequeue(Apply(s, trace[0]), trace[1..], e);
    }
  }

  // ---------------------------------------------------------------- accounting

  /** One when the last claim of `e` has neither failed nor been replayed yet. */
  function Open(s: System, e: EventId): nat {
    if e in s.events && (s.events[e].status == Processing || s.events[e].status == Done) then 1 else 0
  }

  /** One when `e` is with a worker that has not run its handler yet. */
  ghost function Undelivered(s: System, e: EventId): nat {
    if exists w :: HeldBy(s, w, e) && !s.workers[w].Handled? then 1 else 0
  }

  /** A replay of an event whose worker died half-way. */
  predicate IsRecovery(s: System, step: Step, e: EventId) {
    Happens(s, step, RequeueOf, e) && s.events[e].status == Processing
  }

  function Recoveries(s: System, trace: seq<Step>, e: EventId): nat
    decreases |trace|
  {
    if trace == [] then 0
    else (if IsRecovery(s, trace[0], e) then 1 else 0) + Recoveries(Apply(s, trace[0]), trace[1..], e)
  }

  /** What is left of the retry budget: a dead event has used its last attempt. */
  ghost predicate WithinBudget(s: System, e: EventId, spent: nat, granted: nat) {
    spent <= granted && (e in s.events ==>
      s.events[e].attempts + spent + (if s.events[e].status == Dead then 0 else 1)
        <= Max(1, s.events[e].maxAttempts) + granted)
  }

  lemma StepAccounting(s: System, step: Step, e: EventId)
    requires Good(s) && Guarded(s, step)
    ensures
      var t := Apply(s, step);
      && Attempts(t, e) == Attempts(s, e) + (if Happens(s, step, FailureOf, e) then 1 else 0)
      && (if Happens(s, step, ClaimOf, e) then 1 else 0) + Open(s, e)
           == (if Happens(s, step, FailureOf, e) then 1 else 0) + (if IsRecovery(s, step, e) then 1 else 0) + Open(t, e)
      && (e in s.events ==> e in t.events && t.events[e].maxAttempts == s.events[e].maxAttempts)
  {
    if step.Mark? && step.w in s.workers && s.workers[step.w].Handled? {
      assert HeldBy(s, step.w, s.workers[step.w].event);
    }
  }

  lemma StepBudget(s: System, step: Step, e: EventId, spent: nat, granted: nat)
    requires Good(s) && Guarded(s, step) && WithinBudget(s, e, spent, granted)
    requires e !in s.events ==> spent == 0
    ensures WithinBudget(Apply(s, step), e,
                         spent + (if IsRecovery(s, step, e) then 1 else 0),
                         granted + (if Happens(s, step, RequeueOf, e) then 1 else 0))
  {
  }

  /** `attempts` is the number of failed deliveries, whatever the interleaving. */
  lemma {:induction false} AttemptsAreFailures(s: System, trace: seq<Step>, e: EventId)
    requires Good(s) && AllGuarded(s, trace)
    ensures Attempts(Run(s, trace), e) == Attempts(s, e) + Count(s, trace, FailureOf, e)
    decreases |trace|
  {
    if trace != [] {
      StepKeepsGood(s, trace[0]);
      StepAccounting(s, trace[0], e);
      AttemptsAreFailures(Apply(s, trace[0]), trace[1..], e);
    }
  }

  /** Every claim ends in exactly one of: a failure, a recovery, or the open state. */
  lemma {:induction false} ClaimsBalance(s: System, trace: seq<Step>, e: EventId)
    requires Good(s) && AllGuarded(s, trace)
    ensures Count(s, trace, ClaimOf, e) + Open(s, e)
         == Count(s, trace, FailureOf, e) + Recoveries(s, trace, e) + Open(Run(s, trace), e)
    decreases |trace|
  {
    if trace != [] {
      StepKeepsGood(s, trace[0]);
      StepAccounting(s, trace[0], e);
      ClaimsBalance(Apply(s, trace[0]), trace[1..], e);
    }
  }

  lemma {:induction false} BudgetHolds(s: System, trace: seq<Step>, e: EventId, spent: nat, granted: nat)
    requires Good(s) && AllGuarded(s, trace) && WithinBudget(s, e, spent, granted)
    requires e !in s.events ==> spent == 0
    ensures WithinBudget(Run(s, trace), e,
                         spent + Recoveries(s, trace, e), granted + Count(s, trace, RequeueOf, e))
    decreases |trace|
  {
    if trace != [] {
      StepKeepsGood(s, trace[0]);
      StepAccounting(s, trace[0], e);
      StepBudget(s, trace[0], e, spent, granted);
      BudgetHolds(Apply(s, trace[0]), trace[1..], e,
                  spent + (if IsRecovery(s, trace[0], e) then 1 else 0),
                  granted + (if Happens(s, trace[0], RequeueOf, e) then 1 else 0));
    }
  }

  lemma StepUndelivered(s: System, step: Step, e: EventId)
    requires Good(s) && Guarded(s, step)
    ensures (if Happens(s, step, DeliveryOf, e) then 1 else 0) + Undelivered(Apply(s, step), e)
         <= (if Happens(s, step, ClaimOf, e) then 1 else 0) + Undelivered(s, e)
  {
    var t := Apply(s, step);
    StepKeepsExclusive(s, step);
    if Happens(s, step, DeliveryOf, e) {
      assert HeldBy(s, step.w, e) && HeldBy(t, step.w, e);
    } else if Undelivered(t, e) == 1 && !Happens(s, step, ClaimOf, e) {
      var w :| HeldBy(t, w, e) && !t.workers[w].Handled?;
      assert HeldBy(s, w, e) && !s.workers[w].Handled?;
    }
  }

  /** The handler runs at most once for each claim. */
  lemma {:induction false} DeliveriesNeedClaims(s: System, trace: seq<Step>, e: EventId)
    requires Good(s) && AllGuarded(s, trace)
    ensures Count(s, trace, DeliveryOf, e) + Undelivered(Run(s, trace), e)
         <= Count(s, trace, ClaimOf, e) + Undelivered(s, e)
    decreases |trace|
  {
    if trace != [] {
      StepKeepsGood(s, trace[0]);
      StepUndelivered(s, trace[0], e);
      DeliveriesNeedClaims(Apply(s, trace[0]), trace[1..], e);
    }
  }

  /**
   The whole claim for runs from an empty outbox: exclusive delivery, honest
   attempt counts, and at most max(1, max_attempts) deliveries plus one for
   each manual replay.
  */
  lemma OutboxSafety(trace: seq<Step>, e: EventId)
    requires AllGuarded(Empty, trace)
    ensures Good(Run(Empty, trace))
    ensures Attempts(Run(Empty, trace), e) == Count(Empty, trace, FailureOf, e)
    ensures e in Run(Empty, trace).events ==>
              Count(Empty, trace, DeliveryOf, e)
                <= Max(1, Run(Empty, trace).events[e].maxAttempts) + Count(Empty, trace, RequeueOf, e)
  {
    RunKeepsGood(Empty, trace);
    AttemptsAreFailures(Empty, trace, e);
    ClaimsBalance(Empty, trace, e);
    BudgetHolds(Empty, trace, e, 0, 0);
    DeliveriesNeedClaims(Empty, trace, e);
  }

  // ---------------------------------------------------------------- notifications over a run

  /** The notification rows only grow, stay one per event, and a written row is never joined by another. */
  lemma {:induction false} NotificationsSettle(s: System, trace: seq<Step>)
    requires OneRowPerSource(s.notifications)
    ensures OneRowPerSource(Run(s, trace).notifications)
    ensures s.notifications <= Run(s, trace).notifications
    decreases |trace|
  {
    if trace != [] {
      var step := trace[0];
      if step.Deliver? && step.w in s.workers && s.workers[step.w].Loaded? && step.outcome.Notifies? {
        NotifyAllEffect(s.notifications, step.outcome.recipients, s.workers[step.w].event);
      }
      NotificationsSettle(Apply(s, step), trace[1..]);
    }
  }

  /**
   Of the recipients of one event only the first of the first successful
   delivery ever gets a row: the unique key is per event, not per recipient.
  */
  lemma OnlyFirstRecipientIsNotified(s: System, w: WorkerId, recipients: seq<nat>, trace: seq<Step>, r: nat)
    requires OneRowPerSource(s.notifications)
    requires w in s.workers && s.workers[w].Loaded? && !HasRow(s.notifications, s.workers[w].event)
    requires recipients != []
    ensures Notification(r, s.workers[w].event) in Run(s, [Deliver(w, Notifies(recipients))] + trace).notifications
       <==> r == recipients[0]
  {
    var e := s.workers[w].event;
    var step := Deliver(w, Notifies(recipients));
    var full := [step] + trace;
    var t := Apply(s, step);
    assert full[0] == step && full[1..] == trace;
    NotifyAllEffect(s.notifications, recipients, e);
    assert t.notifications[|s.notifications|] == Notification(recipients[0], e);
    NotificationsSettle(t, trace);
    var final := Run(t, trace).notifications;
    assert final[|s.notifications|] == Notification(recipients[0], e);
    if Notification(r, e) in final {
      var i :| 0 <= i < |final| && final[i] == Notification(r, e);
      assert i == |s.notifications|;
    }
  }

  // ---------------------------------------------------------------- the due events

  lemma {:induction false} DueIsPrefix(events: map<EventId, Event>, n: nat, m: nat, now: int)
    requires n <= m
    ensures DueBelow(events, n, now) <= DueBelow(events, m, now)
    ensures forall x :: x in DueBelow(events, n, now) ==> x < n && x in events && IsDue(events[x], now)
    decreases m
  {
    if n < m {
      DueIsPrefix(events, n, m - 1, now);
    } else if n > 0 {
      DueIsPrefix(events, n - 1, n - 1, now);
    }
  }
}
