/**
 dispatch_due_events as one worker runs it undisturbed: which events are its
 candidates, what each of them becomes, and which notifications it leaves.
*/
module Dispatch {
  import opened Common
  import opened Outbox

  // ---------------------------------------------------------------- the dispatch loop itself

  lemma {:induction false} DueIsIncreasing(events: map<EventId, Event>, n: nat, now: int)
    ensures var due := DueBelow(events, n, now); forall i, j :: 0 <= i < j < |due| ==> due[i] < due[j]
  {
    if n > 0 {
      DueIsIncreasing(events, n - 1, now);
      DueIsPrefix(events, n - 1, n - 1, now);
      var due := DueBelow(events, n - 1, now);
      assert forall i :: 0 <= i < |due| ==> due[i] in due;
    }
  }

  /** What one undisturbed delivery leaves of an event. */
  function Settled(ev: Event, outcome: Outcome, now: int): Event {
    if outcome.Notifies? then ev.(status := Done) else MarkedFailed(ev, ev.attempts, ev.maxAttempts, now)
  }

  /** 10 seconds after the first failure, and twice as long after each further one. */
  ghost function RetryDelay(failures: nat): int {
    if failures <= 1 then 10 else 2 * RetryDelay(failures - 1)
  }

  lemma {:induction false} DelayDoubles(k: nat)
    requires k >= 1
    ensures 10 * Pow2(k - 1) == RetryDelay(k)
  {
    if k > 1 {
      DelayDoubles(k - 1);
    }
  }

  /** What a delivery must leave: one more attempt, and then either a retry time or the end. */
  ghost predicate IsFailedOnce(before: Event, after: Event, at: int) {
    && after.attempts == before.attempts + 1
    && after.maxAttempts == before.maxAttempts && after.dedupKey == before.dedupKey
    && (after.attempts < before.maxAttempts ==>
          after.status == Failed && after.nextRetryAt == Some(at + RetryDelay(after.attempts)))
    && (after.attempts >= before.maxAttempts ==> after.status == Dead && after.nextRetryAt == None)
  }

  ghost predicate IsDelivered(before: Event, after: Event) {
    && after.status == Done && after.attempts == before.attempts && after.maxAttempts == before.maxAttempts
    && after.nextRetryAt == before.nextRetryAt && after.dedupKey == before.dedupKey
  }

  lemma SettledMeans(ev: Event, outcome: Outcome, now: int)
    ensures outcome.Notifies? ==> IsDelivered(ev, Settled(ev, outcome, now))
    ensures !outcome.Notifies? ==> IsFailedOnce(ev, Settled(ev, outcome, now), now)
  {
    DelayDoubles(ev.attempts + 1);
  }

  // ---------------------------------------------------------------- which events are candidates

  ghost function DueBefore(events: map<EventId, Event>, n: nat, now: int): set<EventId> {
    set e | e in events && e < n && (events[e].status == Pending || events[e].status == Failed)
            && (events[e].nextRetryAt.None? || events[e].nextRetryAt.value <= now)
  }

  lemma {:induction false} DueBelowIsDueBefore(events: map<EventId, Event>, n: nat, now: int)
    ensures |DueBelow(events, n, now)| == |DueBefore(events, n, now)|
    ensures forall e :: e in DueBelow(events, n, now) <==> e in DueBefore(events, n, now)
  {
    if n > 0 {
      DueBelowIsDueBefore(events, n - 1, now);
      if n - 1 in DueBefore(events, n, now) {
        assert DueBefore(events, n, now) == DueBefore(events, n - 1, now) + {n - 1};
      } else {
        assert DueBefore(events, n, now) == DueBefore(events, n - 1, now);
      }
    } else {
      assert DueBefore(events, 0, now) == {};
    }
  }

  /** An event is a candidate exactly when it is due and fewer than `limit` events with a smaller id are. */
  lemma {:induction false} CandidateIff(events: map<EventId, Event>, n: nat, now: int, limit: nat, e: EventId)
    requires forall x :: x in events ==> x < n
    ensures e in Candidates(events, n, now, limit)
       <==> e in DueBefore(events, n, now) && |DueBefore(events, e, now)| < limit
  {
    DueBelowIsDueBefore(events, n, now);
    var due := DueBelow(events, n, now);
    if e in due {
      DueIsPrefix(events, e, n, now);
      DueIsPrefix(events, e + 1, n, now);
      DueBelowIsDueBefore(events, e, now);
      DueBelowIsDueBefore(events, e + 1, now);
      var i := |DueBelow(events, e, now)|;
      assert DueBelow(events, e + 1, now) == DueBelow(events, e, now) + [e];
      assert due[i] == e;
      DueIsIncreasing(events, n, now);
    }
  }

  /** The tables a dispatch loop changes, with its three counters. */
  datatype Tables = Tables(
    events: map<EventId, Event>, notifications: seq<Notification>, claimed: nat, done: nat, failed: nat)

  function DispatchOne(t: Tables, e: EventId, outcome: Outcome, now: int): Tables {
    if e !in t.events || !Claimable(t.events[e]) then t
    else if outcome.Notifies? then
      t.(events := t.events[e := Settled(t.events[e], outcome, now)],
         notifications := NotifyAll(t.notifications, outcome.recipients, e),
         claimed := t.claimed + 1, done := t.done + 1)
    else
      t.(events := t.events[e := Settled(t.events[e], outcome, now)],
         claimed := t.claimed + 1, failed := t.failed + 1)
  }

  function DispatchAll(t: Tables, ids: seq<EventId>, outcome: EventId -> Outcome, clock: EventId -> int): Tables {
    if ids == [] then t
    else
      var e := ids[|ids| - 1];
      DispatchOne(DispatchAll(t, ids[..|ids| - 1], outcome, clock), e, outcome(e), clock(e))
  }

  /** The four steps of one worker on its next candidate do exactly what the loop body does. */
  lemma UndisturbedDelivery(s: System, w: WorkerId, outcome: Outcome, now: int)
    requires w in s.workers && s.workers[w].Scanning? && s.workers[w].todo != []
    requires s.workers[w].todo[0] in s.events && Claimable(s.events[s.workers[w].todo[0]])
    ensures
      var e, rest := s.workers[w].todo[0], s.workers[w].todo[1..];
      Run(s, [Claim(w), Load(w)] + [Deliver(w, outcome), Mark(w, now)])
        == s.(events := s.events[e := Settled(s.events[e], outcome, now)],
              workers := s.workers[w := Scanning(rest)],
              notifications := if outcome.Notifies? then NotifyAll(s.notifications, outcome.recipients, e)
                               else s.notifications)
  {
    RunTwo(s, Claim(w), Load(w), [Deliver(w, outcome), Mark(w, now)]);
    var loaded := Apply(Apply(s, Claim(w)), Load(w));
    RunTwo(loaded, Deliver(w, outcome), Mark(w, now), []);
    assert [Deliver(w, outcome), Mark(w, now)] + [] == [Deliver(w, outcome), Mark(w, now)];
    var e, rest := s.workers[w].todo[0], s.workers[w].todo[1..];
    var marked := Apply(Apply(loaded, Deliver(w, outcome)), Mark(w, now));
    assert marked.events == s.events[e := Settled(s.events[e], outcome, now)];
    assert marked.workers == s.workers[w := Scanning(rest)];
  }

  /** The row a delivery of `e` adds, if it is the first to notify anybody. */
  predicate IsNewRow(ns: seq<Notification>, ids: seq<EventId>, outcome: EventId -> Outcome, n: Notification) {
    && n.source in ids && !HasRow(ns, n.source)
    && outcome(n.source).Notifies? && outcome(n.source).recipients != []
    && n.recipient == outcome(n.source).recipients[0]
  }

  /**
   One undisturbed loop over the due events claims and settles every one of
   them once, touches nothing else, and its counters say so.
  */
  lemma {:induction false} DueEventsAreSettled(
      t: Tables, ids: seq<EventId>, outcome: EventId -> Outcome, clock: EventId -> int)
    requires forall i, j :: 0 <= i < j < |ids| ==> ids[i] < ids[j]
    requires forall e :: e in ids ==> e in t.events && Claimable(t.events[e])
    ensures
      var u := DispatchAll(t, ids, outcome, clock);
      && u.claimed == t.claimed + |ids|
      && u.claimed - t.claimed == (u.done - t.done) + (u.failed - t.failed)
      && u.events.Keys == t.events.Keys
      && forall e :: e in t.events ==>
           u.events[e] == if e in ids then Settled(t.events[e], outcome(e), clock(e)) else t.events[e]
  {
    if ids != [] {
      var e, before := ids[|ids| - 1], ids[..|ids| - 1];
      assert forall x :: x in ids <==> x == e || x in before;
      assert e !in before;
      DueEventsAreSettled(t, before, outcome, clock);
    }
  }

  /** Its notifications: the old rows, and one to the first recipient of each event that had none. */
  lemma {:induction false} LoopNotifiesOnce(
      t: Tables, ids: seq<EventId>, outcome: EventId -> Outcome, clock: EventId -> int)
    requires OneRowPerSource(t.notifications)
    requires forall i, j :: 0 <= i < j < |ids| ==> ids[i] < ids[j]
    requires forall e :: e in ids ==> e in t.events && Claimable(t.events[e])
    ensures
      var u := DispatchAll(t, ids, outcome, clock);
      && OneRowPerSource(u.notifications) && t.notifications <= u.notifications
      && forall n :: n in u.notifications <==> n in t.notifications || IsNewRow(t.notifications, ids, outcome, n)
  {
    if ids != [] {
      var e, before := ids[|ids| - 1], ids[..|ids| - 1];
      var mid := DispatchAll(t, before, outcome, clock);
      assert forall x :: x in ids <==> x == e || x in before;
      assert e !in before;
      LoopNotifiesOnce(t, before, outcome, clock);
      DueEventsAreSettled(t, before, outcome, clock);
      RowsAgree(mid.notifications, t.notifications, before, outcome, e);
      if outcome(e).Notifies? {
        NotifyAllEffect(mid.notifications, outcome(e).recipients, e);
      }
    }
  }

  lemma RowsAgree(
      mid: seq<Notification>, start: seq<Notification>, before: seq<EventId>, outcome: EventId -> Outcome, e: EventId)
    requires e !in before
    requires forall n :: n in mid <==> n in start || IsNewRow(start, before, outcome, n)
    ensures HasRow(mid, e) <==> HasRow(start, e)
  {
    if HasRow(mid, e) {
      var i :| 0 <= i < |mid| && mid[i].source == e;
      assert mid[i] in start;
    }
    if HasRow(start, e) {
      var i :| 0 <= i < |start| && start[i].source == e;
      assert start[i] in mid;
    }
  }

  /** dispatch_due_events over tables that only this worker touches. */
  class Dispatcher {
    var events: map<EventId, Event>
    var nextId: EventId
    var notifications: seq<Notification>

    constructor (events: map<EventId, Event>, nextId: EventId, notifications: seq<Notification>)
      ensures this.events == events && this.nextId == nextId && this.notifications == notifications
    {
      this.events, this.nextId, this.notifications := events, nextId, notifications;
    }

    /** The claim, handle and mark loop over any candidate list, however stale. */
    method DispatchCandidates(candidates: seq<EventId>, outcome: EventId -> Outcome, clock: EventId -> int)
      returns (claimed: nat, done: nat, failed: nat)
      modifies this`events, this`notifications
      ensures Tables(events, notifications, claimed, done, failed)
           == DispatchAll(Tables(old(events), old(notifications), 0, 0, 0), candidates, outcome, clock)
    {
      claimed, done, failed := 0, 0, 0;
      ghost var start := Tables(events, notifications, 0, 0, 0);
      for i := 0 to |candidates|
        invariant Tables(events, notifications, claimed, done, failed)
               == DispatchAll(start, candidates[..i], outcome, clock)
      {
        var e := candidates[i];
        assert candidates[..i + 1][..i] == candidates[..i];
        if e in events && Claimable(events[e]) {
          ghost var before := events;
          events := events[e := events[e].(status := Processing)];
          claimed := claimed + 1;
          var loaded := events[e];
          match outcome(e)
          case Notifies(recipients) =>
            notifications := NotifyAll(notifications, recipients, e);
            events := events[e := loaded.(status := Done)];
            done := done + 1;
            assert events == before[e := Settled(before[e], outcome(e), clock(e))];
          case _ =>
            events := events[e := MarkedFailed(loaded, loaded.attempts, loaded.maxAttempts, clock(e))];
            failed := failed + 1;
            assert events == before[e := Settled(before[e], outcome(e), clock(e))];
        }
      }
      assert candidates[..|candidates|] == candidates;
    }

    /** `now` is read once for the query; `clock` gives the time at which each event is marked. */
    method DispatchDueEvents(now: int, limit: nat, outcome: EventId -> Outcome, clock: EventId -> int)
      returns (claimed: nat, done: nat, failed: nat)
      modifies this`events, this`notifications
      ensures
        var candidates := Candidates(old(events), nextId, now, limit);
        && claimed == |candidates| == done + failed
        && events.Keys == old(events).Keys
        && (forall e :: e in candidates ==> e in events)
        && (forall e :: e in candidates && outcome(e).Notifies? ==> IsDelivered(old(events)[e], events[e]))
        && (forall e :: e in candidates && !outcome(e).Notifies? ==> IsFailedOnce(old(events)[e], events[e], clock(e)))
        && (forall e :: e in events ==>
              events[e] == if e in candidates then Settled(old(events)[e], outcome(e), clock(e)) else old(events)[e])
        && (OneRowPerSource(old(notifications)) ==>
              && OneRowPerSource(notifications) && old(notifications) <= notifications
              && forall n :: n in notifications
                   <==> n in old(notifications) || IsNewRow(old(notifications), candidates, outcome, n))
    {
      var candidates := Candidates(events, nextId, now, limit);
      DueIsPrefix(events, nextId, nextId, now);
      DueIsIncreasing(events, nextId, now);
      assert forall e :: e in candidates ==> e in DueBelow(events, nextId, now);
      DueEventsAreSettled(Tables(events, notifications, 0, 0, 0), candidates, outcome, clock);
      if OneRowPerSource(notifications) {
        LoopNotifiesOnce(Tables(events, notifications, 0, 0, 0), candidates, outcome, clock);
      }
      forall e | e in candidates
        ensures outcome(e).Notifies? ==> IsDelivered(events[e], Settled(events[e], outcome(e), clock(e)))
        ensures !outcome(e).Notifies? ==> IsFailedOnce(events[e], Settled(events[e], outcome(e), clock(e)), clock(e))
      {
        SettledMeans(events[e], outcome(e), clock(e));
      }
      claimed, done, failed := DispatchCandidates(candidates, outcome, clock);
    }
  }
}
