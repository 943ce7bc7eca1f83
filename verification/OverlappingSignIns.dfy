/**
 The lockout when sign-ins overlap.  Each one judges and later saves the account
 as it was loaded, so a slow failure can write back an older count and lift a
 lock.  With a bound on how many are under way at a time, the number of wrong
 passwords that are looked at is still bounded.
*/
module OverlappingSignIns {
  import opened Common
  import opened Lockout

  /** The account, and the loaded copies of the sign-ins that passed the lock and have not been decided. */
  datatype Desk = Desk(account: Account, open: seq<Account>)

  datatype Event =
    | Begin(at: int)
    | Miss(k: nat, at: int)
    | Succeed(k: nat, at: int)
    | Lift(at: int)
    | SetActive(at: int, active: bool)

  function Without(open: seq<Account>, k: nat): seq<Account>
    requires k < |open|
  {
    open[..k] + open[k + 1..]
  }

  /** register_login_failure saves the count and the lock of the loaded copy. */
  function SavedFailure(cfg: Config, account: Account, loaded: Account, now: int): Account {
    loaded.Failed(cfg, now).(isActive := account.isActive)
  }

  function Apply(cfg: Config, d: Desk, e: Event): Desk {
    match e
    case Begin(at) =>
      if d.account.IsLocked(at) || !d.account.isActive then d else d.(open := d.open + [d.account])
    case Miss(k, at) =>
      if k >= |d.open| then d else Desk(SavedFailure(cfg, d.account, d.open[k], at), Without(d.open, k))
    case Succeed(k, at) =>
      if k >= |d.open| then d else Desk(d.account.Reset(), Without(d.open, k))
    case Lift(at) => d.(account := d.account.Reset())
    case SetActive(at, active) => d.(account := d.account.WithActive(active))
  }

  predicate Misses(d: Desk, e: Event) {
    e.Miss? && e.k < |d.open|
  }

  predicate Resets(d: Desk, e: Event) {
    e.Lift? || (e.SetActive? && !e.active) || (e.Succeed? && e.k < |d.open|)
  }

  function MissCount(cfg: Config, d: Desk, events: seq<Event>): nat
    decreases |events|
  {
    if events == [] then 0
    else (if Misses(d, events[0]) then 1 else 0) + MissCount(cfg, Apply(cfg, d, events[0]), events[1..])
  }

  function ResetCount(cfg: Config, d: Desk, events: seq<Event>): nat
    decreases |events|
  {
    if events == [] then 0
    else (if Resets(d, events[0]) then 1 else 0) + ResetCount(cfg, Apply(cfg, d, events[0]), events[1..])
  }

  predicate InOrder(now: int, events: seq<Event>)
    decreases |events|
  {
    events == [] || (now <= events[0].at && InOrder(events[0].at, events[1..]))
  }

  function Finish(now: int, events: seq<Event>): int
    decreases |events|
  {
    if events == [] then now else Finish(events[0].at, events[1..])
  }

  /** Never more than `most` sign-ins are under way. */
  predicate Overlap(cfg: Config, d: Desk, events: seq<Event>, most: nat)
    decreases |events|
  {
    |d.open| <= most && (events == [] || Overlap(cfg, Apply(cfg, d, events[0]), events[1..], most))
  }

  /** A sign-in is loaded exactly on an active account without a lock in force, and copies it as it is. */
  lemma BeginIff(cfg: Config, d: Desk, at: int)
    ensures
      var t := Apply(cfg, d, Begin(at));
      && t.account == d.account
      && t.open == if d.account.isActive && (d.account.lockedUntil.None? || d.account.lockedUntil.value <= at)
                   then d.open + [d.account] else d.open
  {
  }

  /** A decided sign-in is gone; a miss leaves one more than its loaded count, a success leaves none. */
  lemma DecisionMeans(cfg: Config, d: Desk, k: nat, at: int)
    requires k < |d.open|
    ensures
      var missed, passed, loaded := Apply(cfg, d, Miss(k, at)), Apply(cfg, d, Succeed(k, at)), d.open[k];
      && missed.open == passed.open == d.open[..k] + d.open[k + 1..]
      && missed.account.failures == loaded.failures + 1
      && missed.account.lockedUntil
         == (if loaded.failures + 1 >= cfg.limit then Some(at + cfg.lock) else loaded.lockedUntil)
      && passed.account.failures == 0 && passed.account.lockedUntil == None
      && missed.account.isActive == passed.account.isActive == d.account.isActive
  {
  }

  // ---------------------------------------------------------------- what a place at the desk is worth

  /**
   How many misses can still come of one of `most` places at count `v`: the miss
   itself, and whatever all places are worth at the next count, to which it may
   set the account back.
  */
  function Worth(cfg: Config, most: nat, v: nat): nat
    decreases Free(cfg) - v
  {
    if v >= Free(cfg) - 1 then 1 else most * Worth(cfg, most, v + 1) + 1
  }

  function OpenWorth(cfg: Config, most: nat, open: seq<Account>): nat {
    if open == [] then 0
    else OpenWorth(cfg, most, open[..|open| - 1]) + Worth(cfg, most, open[|open| - 1].failures)
  }

  /** A free place is worth what the account's count says, and nothing while the lock holds. */
  function FreeWorth(cfg: Config, most: nat, a: Account, now: int): nat {
    if a.IsLocked(now) then 0 else Worth(cfg, most, a.failures)
  }

  function Total(cfg: Config, most: nat, d: Desk, now: int): int {
    OpenWorth(cfg, most, d.open) + (most - |d.open|) * FreeWorth(cfg, most, d.account, now)
  }

  /** The lock in force began here; without one, time is paid up to now. */
  function Since(cfg: Config, a: Account, now: int): int {
    if a.IsLocked(now) then a.lockedUntil.value - cfg.lock else now
  }

  /** A lock comes from a failure at the limit; no copy was loaded under a lock that still holds. */
  predicate Sane(cfg: Config, d: Desk, now: int) {
    && (d.account.IsLocked(now) ==> d.account.failures >= Free(cfg) && d.account.lockedUntil.value <= now + cfg.lock)
    && forall i :: 0 <= i < |d.open| ==> !d.open[i].IsLocked(now)
  }

  lemma {:induction false} WorthShrinks(cfg: Config, most: nat, v: nat, w: nat)
    requires v <= w && most > 0
    ensures 1 <= Worth(cfg, most, w) <= Worth(cfg, most, v)
    decreases Free(cfg) - v
  {
    if v < Free(cfg) - 1 {
      if v < w {
        WorthShrinks(cfg, most, v + 1, w);
        AtLeastOnce(most, Worth(cfg, most, v + 1));
      }
    }
  }

  lemma AtLeastOnce(k: nat, x: nat)
    requires k > 0
    ensures x <= k * x
  {
  }

  lemma {:induction false} OpenWorthBound(cfg: Config, most: nat, open: seq<Account>)
    requires most > 0
    ensures OpenWorth(cfg, most, open) <= |open| * Worth(cfg, most, 0)
  {
    if open != [] {
      OpenWorthBound(cfg, most, open[..|open| - 1]);
      WorthShrinks(cfg, most, 0, open[|open| - 1].failures);
      var top := Worth(cfg, most, 0);
      assert (|open| - 1) * top + top == |open| * top;
    }
  }

  lemma {:induction false} OpenWorthConcat(cfg: Config, most: nat, a: seq<Account>, b: seq<Account>)
    ensures OpenWorth(cfg, most, a + b) == OpenWorth(cfg, most, a) + OpenWorth(cfg, most, b)
  {
    if b == [] {
      assert a + b == a;
    } else {
      assert (a + b)[..|a + b| - 1] == a + b[..|b| - 1];
      OpenWorthConcat(cfg, most, a, b[..|b| - 1]);
    }
  }

  lemma OpenWorthWithout(cfg: Config, most: nat, open: seq<Account>, k: nat)
    requires k < |open|
    ensures OpenWorth(cfg, most, open) == OpenWorth(cfg, most, Without(open, k)) + Worth(cfg, most, open[k].failures)
  {
    assert open == open[..k] + ([open[k]] + open[k + 1..]);
    OpenWorthConcat(cfg, most, open[..k], [open[k]] + open[k + 1..]);
    OpenWorthConcat(cfg, most, [open[k]], open[k + 1..]);
    OpenWorthConcat(cfg, most, open[..k], open[k + 1..]);
    assert [open[k]][..0] == [];
  }

  lemma TotalBound(cfg: Config, most: nat, d: Desk, now: int)
    requires 0 < most && |d.open| <= most
    ensures 0 <= Total(cfg, most, d, now) <= most * Worth(cfg, most, 0)
  {
    OpenWorthBound(cfg, most, d.open);
    WorthShrinks(cfg, most, 0, d.account.failures);
    Places(|d.open|, most, OpenWorth(cfg, most, d.open), FreeWorth(cfg, most, d.account, now), Worth(cfg, most, 0));
  }

  lemma Places(taken: nat, most: nat, open: nat, free: nat, top: nat)
    requires taken <= most && open <= taken * top && free <= top
    ensures 0 <= open + (most - taken) * free <= most * top
  {
    Scale(most - taken, free, top);
    assert taken * top + (most - taken) * top == most * top;
  }

  lemma Scale(k: nat, x: nat, y: nat)
    requires x <= y
    ensures 0 <= k * x <= k * y
  {
  }

  // ---------------------------------------------------------------- what events cost

  /** A miss uses up its own place: it locks, or sets all places back to what its place was worth, less one. */
  lemma MissCosts(cfg: Config, most: nat, d: Desk, k: nat, now: int)
    requires cfg.lock > 0 && |d.open| <= most && k < |d.open| && Sane(cfg, d, now)
    ensures Total(cfg, most, Apply(cfg, d, Miss(k, now)), now) + 1 <= Total(cfg, most, d, now)
  {
    var t := Apply(cfg, d, Miss(k, now));
    OpenWorthWithout(cfg, most, d.open, k);
    SetBack(cfg, most, d.open[k].failures, most - |t.open|, t.account, now);
    Scale(most - |d.open|, 0, FreeWorth(cfg, most, d.account, now));
  }

  lemma SetBack(cfg: Config, most: nat, v: nat, places: nat, a: Account, now: int)
    requires places <= most && a.failures == v + 1 && (v + 1 >= cfg.limit ==> a.IsLocked(now))
    ensures places * FreeWorth(cfg, most, a, now) + 1 <= Worth(cfg, most, v)
  {
    if !a.IsLocked(now) {
      var next := Worth(cfg, most, v + 1);
      assert most * next - places * next == (most - places) * next;
      Scale(most - places, 0, next);
    } else if v < Free(cfg) - 1 {
      Scale(most, 0, Worth(cfg, most, v + 1));
    }
  }

  /** As time passes a lock may end: each free place is then worth one more miss, for a whole lock time paid. */
  lemma TimePasses(cfg: Config, most: nat, d: Desk, now: int, later: int, end: int)
    requires cfg.lock > 0 && |d.open| <= most && Sane(cfg, d, now) && now <= later <= end
    ensures Total(cfg, most, d, later) + most * ((end - Since(cfg, d.account, later)) / cfg.lock)
         <= Total(cfg, most, d, now) + most * ((end - Since(cfg, d.account, now)) / cfg.lock)
  {
    var x, y := end - Since(cfg, d.account, now), end - Since(cfg, d.account, later);
    if d.account.IsLocked(now) && !d.account.IsLocked(later) {
      OneLess(x, y, cfg.lock);
      Scale(most, y / cfg.lock, x / cfg.lock - 1);
      assert most * (x / cfg.lock - 1) == most * (x / cfg.lock) - most;
    } else {
      Quotients(y, x, cfg.lock);
      Scale(most, y / cfg.lock, x / cfg.lock);
    }
  }

  lemma Quotients(y: int, x: int, lock: int)
    requires lock > 0 && 0 <= y <= x
    ensures 0 <= y / lock <= x / lock
  {
    assert (y / lock) * lock <= y && x < (x / lock) * lock + lock == (x / lock + 1) * lock;
    CancelFactor(y / lock, x / lock + 1, lock);
  }

  lemma OneLess(x: int, y: int, lock: int)
    requires lock > 0 && 0 <= y && y + lock <= x
    ensures 0 <= y / lock <= x / lock - 1
  {
    Quotients(y + lock, x, lock);
    Shift(y, lock);
  }

  lemma Shift(y: int, lock: int)
    requires lock > 0
    ensures (y + lock) / lock == y / lock + 1
  {
    var q := (y + lock) / lock;
    assert q * lock <= y + lock < q * lock + lock;
    assert (y / lock) * lock <= y < (y / lock) * lock + lock;
    assert (y / lock + 1) * lock == (y / lock) * lock + lock;
    assert (y / lock + 2) * lock == (y / lock) * lock + lock + lock;
    assert (q + 1) * lock == q * lock + lock;
    CancelFactor(q, y / lock + 2, lock);
    CancelFactor(y / lock + 1, q + 1, lock);
  }

  lemma SaneLater(cfg: Config, d: Desk, now: int, later: int)
    requires Sane(cfg, d, now) && now <= later
    ensures Sane(cfg, d, later)
  {
  }

  lemma StepKeepsSane(cfg: Config, d: Desk, e: Event)
    requires cfg.lock > 0 && Sane(cfg, d, e.at)
    ensures Sane(cfg, Apply(cfg, d, e), e.at)
    ensures Since(cfg, d.account, e.at) <= Since(cfg, Apply(cfg, d, e).account, e.at) <= e.at
  {
  }

  lemma BeginIsFree(cfg: Config, most: nat, d: Desk, now: int)
    requires |Apply(cfg, d, Begin(now)).open| <= most
    ensures Total(cfg, most, Apply(cfg, d, Begin(now)), now) == Total(cfg, most, d, now)
  {
    var t := Apply(cfg, d, Begin(now));
    if t != d {
      assert t.open[..|t.open| - 1] == d.open;
      var worth := Worth(cfg, most, d.account.failures);
      assert (most - |d.open|) * worth == (most - |t.open|) * worth + worth;
    }
  }

  /** One event: a miss is paid for, and a reset makes all places worth at most a fresh start. */
  lemma StepCosts(cfg: Config, most: nat, d: Desk, e: Event)
    requires cfg.lock > 0 && most > 0 && Sane(cfg, d, e.at)
    requires |d.open| <= most && |Apply(cfg, d, e).open| <= most
    ensures (if Misses(d, e) then 1 else 0) + Total(cfg, most, Apply(cfg, d, e), e.at)
         <= Total(cfg, most, d, e.at) + if Resets(d, e) then most * Worth(cfg, most, 0) else 0
  {
    if Misses(d, e) {
      MissCosts(cfg, most, d, e.k, e.at);
    } else if Resets(d, e) {
      TotalBound(cfg, most, d, e.at);
      TotalBound(cfg, most, Apply(cfg, d, e), e.at);
    } else if e.Begin? {
      BeginIsFree(cfg, most, d, e.at);
    }
  }

  lemma {:induction false} FinishIsLater(now: int, events: seq<Event>)
    requires InOrder(now, events)
    ensures now <= Finish(now, events)
    decreases |events|
  {
    if events != [] {
      FinishIsLater(events[0].at, events[1..]);
    }
  }

  /** All misses of a run are paid: by what the places were worth, by resets, or by lock times that passed. */
  lemma {:induction false} MissesArePaid(cfg: Config, most: nat, d: Desk, events: seq<Event>, now: int)
    requires cfg.lock > 0 && most > 0 && Sane(cfg, d, now)
    requires InOrder(now, events) && Overlap(cfg, d, events, most)
    ensures MissCount(cfg, d, events)
         <= Total(cfg, most, d, now) + ResetCount(cfg, d, events) * (most * Worth(cfg, most, 0))
            + most * ((Finish(now, events) - Since(cfg, d.account, now)) / cfg.lock)
    decreases |events|
  {
    var end := Finish(now, events);
    FinishIsLater(now, events);
    if events == [] {
      TotalBound(cfg, most, d, now);
      Quotients(0, end - Since(cfg, d.account, now), cfg.lock);
      Scale(most, 0, (end - Since(cfg, d.account, now)) / cfg.lock);
    } else {
      var e, rest := events[0], events[1..];
      var t := Apply(cfg, d, e);
      FinishIsLater(e.at, rest);
      TimePasses(cfg, most, d, now, e.at, end);
      SaneLater(cfg, d, now, e.at);
      StepKeepsSane(cfg, d, e);
      StepCosts(cfg, most, d, e);
      MissesArePaid(cfg, most, t, rest, e.at);
      PaidLater(cfg, most, end, Since(cfg, d.account, e.at), Since(cfg, t.account, e.at));
      OneMore(ResetCount(cfg, t, rest), most * Worth(cfg, most, 0));
    }
  }

  lemma PaidLater(cfg: Config, most: nat, end: int, since: int, later: int)
    requires cfg.lock > 0 && since <= later <= end
    ensures most * ((end - later) / cfg.lock) <= most * ((end - since) / cfg.lock)
  {
    Quotients(end - later, end - since, cfg.lock);
    Scale(most, (end - later) / cfg.lock, (end - since) / cfg.lock);
  }

  lemma OneMore(n: nat, x: int)
    ensures (1 + n) * x == x + n * x
  {
  }

  /**
   The lockout rate for overlapping sign-ins.  From an account that is not locked, with
   at most `most` sign-ins under way at a time: a fixed number of wrong
   passwords for the start and each reset, and `most` for each lock time that
   passes.
  */
  lemma OverlappingLockoutRate(cfg: Config, most: nat, a: Account, events: seq<Event>, start: int)
    requires cfg.lock > 0 && most > 0 && !a.IsLocked(start)
    requires InOrder(start, events) && Overlap(cfg, Desk(a, []), events, most)
    ensures MissCount(cfg, Desk(a, []), events)
         <= (1 + ResetCount(cfg, Desk(a, []), events)) * (most * Worth(cfg, most, 0))
            + most * ((Finish(start, events) - start) / cfg.lock)
  {
    MissesArePaid(cfg, most, Desk(a, []), events, start);
    TotalBound(cfg, most, Desk(a, []), start);
    OneMore(ResetCount(cfg, Desk(a, []), events), most * Worth(cfg, most, 0));
  }

  function Pow(base: nat, n: nat): nat {
    if n == 0 then 1 else base * Pow(base, n - 1)
  }

  /** The worth of a place is the geometric sum of the powers of `most` below the counts that are left. */
  lemma {:induction false} WorthIsGeometric(cfg: Config, most: nat, v: nat)
    requires v < Free(cfg)
    ensures (most - 1) * Worth(cfg, most, v) == Pow(most, Free(cfg) - v) - 1
    decreases Free(cfg) - v
  {
    if v < Free(cfg) - 1 {
      WorthIsGeometric(cfg, most, v + 1);
      GeometricStep(most, Worth(cfg, most, v + 1), Pow(most, Free(cfg) - v - 1));
    } else {
      assert Pow(most, 1) == most * Pow(most, 0);
    }
  }

  lemma GeometricStep(most: nat, next: int, pow: int)
    requires (most - 1) * next == pow - 1
    ensures (most - 1) * (most * next + 1) == most * pow - 1
  {
    var x := most * next;
    assert (most - 1) * (x + 1) == (most - 1) * x + (most - 1);
    assert (most - 1) * (most * next) == most * ((most - 1) * next);
    assert most * (pow - 1) == most * pow - most;
  }

  /** One at a time, the fixed number is the limit itself. */
  lemma {:induction false} WorthAlone(cfg: Config, v: nat)
    requires v < Free(cfg)
    ensures Worth(cfg, 1, v) == Free(cfg) - v
    decreases Free(cfg) - v
  {
    if v < Free(cfg) - 1 {
      WorthAlone(cfg, v + 1);
    }
  }

  // ---------------------------------------------------------------- sign-ins that are loaded together

  /** All at one moment, without a reset, and with so many misses. */
  predicate Tally(cfg: Config, most: nat, d: Desk, events: seq<Event>, at: int, misses: nat) {
    && InOrder(at, events) && Finish(at, events) == at && Overlap(cfg, d, events, most)
    && ResetCount(cfg, d, events) == 0 && MissCount(cfg, d, events) == misses
  }

  lemma TallyStep(cfg: Config, most: nat, d: Desk, e: Event, rest: seq<Event>, at: int, misses: nat)
    requires e.at == at && !Resets(d, e) && |d.open| <= most && Tally(cfg, most, Apply(cfg, d, e), rest, at, misses)
    ensures Tally(cfg, most, d, [e] + rest, at, misses + if Misses(d, e) then 1 else 0)
  {
    assert ([e] + rest)[0] == e && ([e] + rest)[1..] == rest;
  }

  lemma {:induction false} MissAll(cfg: Config, most: nat, d: Desk, at: int) returns (events: seq<Event>)
    requires |d.open| <= most
    ensures Tally(cfg, most, d, events, at, |d.open|)
    decreases |d.open|
  {
    if d.open == [] {
      events := [];
    } else {
      var rest := MissAll(cfg, most, Apply(cfg, d, Miss(0, at)), at);
      events := [Miss(0, at)] + rest;
      TallyStep(cfg, most, d, Miss(0, at), rest, at, |d.open| - 1);
    }
  }

  lemma {:induction false} BeginThenMissAll(
      cfg: Config, most: nat, d: Desk, n: nat, at: int) returns (events: seq<Event>)
    requires |d.open| + n <= most && !d.account.IsLocked(at) && d.account.isActive
    ensures Tally(cfg, most, d, events, at, |d.open| + n)
    decreases n
  {
    if n == 0 {
      events := MissAll(cfg, most, d, at);
    } else {
      var rest := BeginThenMissAll(cfg, most, Apply(cfg, d, Begin(at)), n - 1, at);
      events := [Begin(at)] + rest;
      TallyStep(cfg, most, d, Begin(at), rest, at, |d.open| + n);
    }
  }

  /**
   Sign-ins that are loaded together all get their look at the password,
   whatever the limit, so the rate for sign-ins one after the other does not
   bound them; with a limit of one this is the bound above.
  */
  lemma LoadedTogetherMissTogether(cfg: Config, most: nat, at: int) returns (events: seq<Event>)
    ensures Tally(cfg, most, Desk(Account(0, None, true), []), events, at, most)
    ensures cfg.limit <= 1 ==> most == most * Worth(cfg, most, 0)
  {
    events := BeginThenMissAll(cfg, most, Desk(Account(0, None, true), []), most, at);
  }
}
