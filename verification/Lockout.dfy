/**
 Failed sign-ins lock an account for a while.  The check looks only at the
 account as it is now; how often a password can be checked over a whole run of
 sign-ins, unlocks and deactivations follows from it.
*/
module Lockout {
  import opened Common

  /** `limit` failures lock the account for `lock` time units. */
  datatype Config = Config(limit: int, lock: int)

  datatype Account = Account(failures: nat, lockedUntil: Option<int>, isActive: bool) {
    predicate IsLocked(now: int) {
      lockedUntil.Some? && lockedUntil.value > now
    }

    function Failed(cfg: Config, now: int): Account {
      this.(failures := failures + 1,
            lockedUntil := if failures + 1 >= cfg.limit then Some(now + cfg.lock) else lockedUntil)
    }

    function Reset(): Account {
      this.(failures := 0, lockedUntil := None)
    }

    /** set_user_active: a deactivation clears the count and the lock, an activation keeps them. */
    function WithActive(active: bool): Account {
      (if active then this else Reset()).(isActive := active)
    }
  }

  /** The lock is looked up at `checkedAt`; the outcome is recorded at `decidedAt`, after the password check. */
  datatype Event =
    | Try(checkedAt: int, decidedAt: int, correct: bool)
    | Unlock(at: int)
    | SetActive(at: int, active: bool)
  {
    function Start(): int { if Try? then checkedAt else at }
    function End(): int { if Try? then decidedAt else at }

    /** An administrator clears the count and the lock: by unlocking, or by deactivating the account. */
    predicate Lifts() { Unlock? || (SetActive? && !active) }
  }

  datatype Error = CredentialsRequired | AccountLocked | AccountDisabled | InvalidCredentials

  function Login(cfg: Config, a: Account, e: Event): (Account, Result<(), Error>)
    requires e.Try?
  {
    if a.IsLocked(e.checkedAt) then (a, Err(AccountLocked))
    else if !a.isActive then (a, Err(AccountDisabled))
    else if !e.correct then (a.Failed(cfg, e.decidedAt), Err(InvalidCredentials))
    else (a.Reset(), Ok(()))
  }

  function Step(cfg: Config, a: Account, e: Event): Account {
    match e
    case Try(_, _, _) => Login(cfg, a, e).0
    case Unlock(_) => a.Reset()
    case SetActive(_, active) => a.WithActive(active)
  }

  function Run(cfg: Config, a: Account, events: seq<Event>): Account
    decreases |events|
  {
    if events == [] then a else Run(cfg, Step(cfg, a, events[0]), events[1..])
  }

  /** The password is looked at, and found wrong. */
  predicate Misses(cfg: Config, a: Account, e: Event) {
    e.Try? && Login(cfg, a, e).1 == Err(InvalidCredentials)
  }

  /** The count of failures starts again. */
  predicate Resets(cfg: Config, a: Account, e: Event) {
    e.Lifts() || (e.Try? && Login(cfg, a, e).1.Ok?)
  }

  function MissCount(cfg: Config, a: Account, events: seq<Event>): nat
    decreases |events|
  {
    if events == [] then 0
    else (if Misses(cfg, a, events[0]) then 1 else 0) + MissCount(cfg, Step(cfg, a, events[0]), events[1..])
  }

  function ResetCount(cfg: Config, a: Account, events: seq<Event>): nat
    decreases |events|
  {
    if events == [] then 0
    else (if Resets(cfg, a, events[0]) then 1 else 0) + ResetCount(cfg, Step(cfg, a, events[0]), events[1..])
  }

  /** The events of one account follow each other, from `now` on. */
  predicate InOrder(now: int, events: seq<Event>)
    decreases |events|
  {
    events == [] || (now <= events[0].Start() <= events[0].End() && InOrder(events[0].End(), events[1..]))
  }

  function Finish(now: int, events: seq<Event>): int
    decreases |events|
  {
    if events == [] then now else Finish(events[0].End(), events[1..])
  }

  // ---------------------------------------------------------------- a lock holds

  /** Until the lock ends or is lifted nothing changes it: no password is looked at, not even a right one. */
  lemma {:induction false} LockHolds(cfg: Config, a: Account, events: seq<Event>, until: int)
    requires a.lockedUntil == Some(until)
    requires forall i :: 0 <= i < |events| ==> !events[i].Lifts() && events[i].Start() < until
    ensures Run(cfg, a, events).failures == a.failures && Run(cfg, a, events).lockedUntil == Some(until)
    ensures MissCount(cfg, a, events) == 0 && ResetCount(cfg, a, events) == 0
    decreases |events|
  {
    if events != [] {
      LockHolds(cfg, Step(cfg, a, events[0]), events[1..], until);
    }
  }

  /** From the failure that reaches the limit, the next password check is at least the lock time away. */
  lemma {:induction false} NextCheckWaits(cfg: Config, a: Account, miss: Event, between: seq<Event>, next: Event)
    requires Misses(cfg, a, miss) && a.failures + 1 >= cfg.limit
    requires forall i :: 0 <= i < |between| ==> !between[i].Lifts()
    requires forall i :: 0 <= i < |between| ==> between[i].Start() <= next.Start()
    requires next.Try? && Login(cfg, Run(cfg, Step(cfg, a, miss), between), next).1 != Err(AccountLocked)
    ensures next.checkedAt >= miss.decidedAt + cfg.lock
  {
    var until := miss.decidedAt + cfg.lock;
    if next.checkedAt < until {
      LockHolds(cfg, Step(cfg, a, miss), between, until);
    }
  }

  /** Either way of lifting ends the wait: with the account active again, the next sign-in is checked at once. */
  lemma LiftedLockIsGone(cfg: Config, a: Account, lift: Event, next: Event)
    requires lift.Lifts() && next.Try?
    ensures
      var lifted := Run(cfg, a, [lift, SetActive(lift.End(), true)]);
      && lifted == Account(0, None, true)
      && Login(cfg, lifted, next).1 == if next.correct then Ok(()) else Err(InvalidCredentials)
  {
    var events := [lift, SetActive(lift.End(), true)];
    assert events[1..] == [events[1]] && events[1..][1..] == [];
    assert Run(cfg, Step(cfg, a, lift), events[1..]) == Run(cfg, Step(cfg, Step(cfg, a, lift), events[1]), []);
  }

  /** Fewer failures than the limit since the last reset never lock the account. */
  lemma {:induction false} FewMissesDoNotLock(cfg: Config, a: Account, events: seq<Event>)
    requires a.lockedUntil.None? && ResetCount(cfg, a, events) == 0
    requires a.failures + MissCount(cfg, a, events) < cfg.limit
    ensures Run(cfg, a, events).lockedUntil.None?
    ensures Run(cfg, a, events).failures == a.failures + MissCount(cfg, a, events)
    decreases |events|
  {
    if events != [] {
      FewMissesDoNotLock(cfg, Step(cfg, a, events[0]), events[1..]);
    }
  }

  // ---------------------------------------------------------------- a disabled account

  /** Some password is looked at: the sign-in succeeds, or is refused for the password. */
  predicate LooksAtPassword(cfg: Config, a: Account, e: Event) {
    e.Try? && (Login(cfg, a, e).1.Ok? || Login(cfg, a, e).1 == Err(InvalidCredentials))
  }

  /** How often a password is looked at. */
  function LookCount(cfg: Config, a: Account, events: seq<Event>): nat
    decreases |events|
  {
    if events == [] then 0
    else (if LooksAtPassword(cfg, a, events[0]) then 1 else 0) + LookCount(cfg, Step(cfg, a, events[0]), events[1..])
  }

  /** A password is looked at exactly on an active account without a lock in force. */
  lemma LooksAtPasswordIff(cfg: Config, a: Account, e: Event)
    requires e.Try?
    ensures LooksAtPassword(cfg, a, e)
       <==> a.isActive && (a.lockedUntil.None? || a.lockedUntil.value <= e.checkedAt)
    ensures Login(cfg, a, e).1.Ok? <==> LooksAtPassword(cfg, a, e) && e.correct
    ensures !LooksAtPassword(cfg, a, e) ==> Step(cfg, a, e) == a
  {
  }

  /** After a deactivation nobody signs in and no password is looked at, until an activation. */
  lemma {:induction false} DisabledStaysOut(cfg: Config, a: Account, at: int, events: seq<Event>)
    requires forall i :: 0 <= i < |events| ==> !(events[i].SetActive? && events[i].active)
    ensures LookCount(cfg, Step(cfg, a, SetActive(at, false)), events) == 0
    ensures !Run(cfg, Step(cfg, a, SetActive(at, false)), events).isActive
  {
    InactiveStaysOut(cfg, Step(cfg, a, SetActive(at, false)), events);
  }

  lemma {:induction false} InactiveStaysOut(cfg: Config, a: Account, events: seq<Event>)
    requires !a.isActive && forall i :: 0 <= i < |events| ==> !(events[i].SetActive? && events[i].active)
    ensures LookCount(cfg, a, events) == 0 && !Run(cfg, a, events).isActive
    decreases |events|
  {
    if events != [] {
      InactiveStaysOut(cfg, Step(cfg, a, events[0]), events[1..]);
    }
  }

  // ---------------------------------------------------------------- how many passwords can be checked

  function Free(cfg: Config): int {
    Max(1, cfg.limit)
  }

  /** Since `since` there were `misses` failures without a reset; each one past the limit has paid a lock time. */
  ghost predicate Paid(cfg: Config, a: Account, misses: nat, since: int, now: int) {
    && since <= now && misses <= a.failures
    && (misses >= Free(cfg) ==>
          && a.lockedUntil.Some?
          && since + (misses - Free(cfg) + 1) * cfg.lock <= a.lockedUntil.value <= now + cfg.lock)
  }

  lemma PaidBound(cfg: Config, a: Account, misses: nat, since: int, now: int)
    requires cfg.lock >= 0 && Paid(cfg, a, misses, since, now)
    ensures misses * cfg.lock <= Free(cfg) * cfg.lock + now - since
  {
    if misses >= Free(cfg) {
      assert (misses - Free(cfg) + 1) * cfg.lock == misses * cfg.lock - Free(cfg) * cfg.lock + cfg.lock;
    } else {
      assert (Free(cfg) - misses) * cfg.lock >= 0;
      assert (Free(cfg) - misses) * cfg.lock == Free(cfg) * cfg.lock - misses * cfg.lock;
    }
  }

  lemma MissKeepsPaid(cfg: Config, a: Account, misses: nat, since: int, now: int, e: Event)
    requires cfg.lock >= 0 && Paid(cfg, a, misses, since, now)
    requires Misses(cfg, a, e) && now <= e.checkedAt <= e.decidedAt
    ensures Paid(cfg, Step(cfg, a, e), misses + 1, since, e.decidedAt)
  {
    var free := Free(cfg);
    if misses >= free {
      assert (misses + 1 - free + 1) * cfg.lock == (misses - free + 1) * cfg.lock + cfg.lock;
    } else if misses + 1 == free {
      assert (misses + 1 - free + 1) * cfg.lock == cfg.lock;
    }
  }

  lemma {:induction false} MissesArePaid(cfg: Config, a: Account, events: seq<Event>, misses: nat, since: int, now: int)
    requires cfg.lock >= 0 && InOrder(now, events) && Paid(cfg, a, misses, since, now)
    ensures (misses + MissCount(cfg, a, events)) * cfg.lock
         <= (1 + ResetCount(cfg, a, events)) * (Free(cfg) * cfg.lock) + Finish(now, events) - since
    decreases |events|
  {
    PaidBound(cfg, a, misses, since, now);
    if events != [] {
      var e, rest := events[0], events[1..];
      var a' := Step(cfg, a, e);
      if Misses(cfg, a, e) {
        MissKeepsPaid(cfg, a, misses, since, now, e);
        MissesArePaid(cfg, a', rest, misses + 1, since, e.End());
      } else if Resets(cfg, a, e) {
        MissesArePaid(cfg, a', rest, 0, e.End(), e.End());
        Rearrange(misses, MissCount(cfg, a', rest), ResetCount(cfg, a', rest), cfg.lock, Free(cfg) * cfg.lock);
      } else {
        MissesArePaid(cfg, a', rest, misses, since, e.End());
      }
    }
  }

  lemma Rearrange(misses: nat, more: nat, resets: nat, lock: int, free: int)
    ensures (misses + more) * lock == misses * lock + more * lock
    ensures (1 + (1 + resets)) * free == free + (1 + resets) * free
  {
  }

  /**
   The lockout rate.  From any state of an account, in any stretch of events,
   the wrong passwords that are looked at number at most `limit` for the start
   and each reset, plus one for each lock time that passes.
  */
  lemma LockoutRate(cfg: Config, a: Account, events: seq<Event>, start: int)
    requires cfg.lock > 0 && InOrder(start, events)
    ensures MissCount(cfg, a, events)
         <= (1 + ResetCount(cfg, a, events)) * Free(cfg) + (Finish(start, events) - start) / cfg.lock
  {
    MissesArePaid(cfg, a, events, 0, start, start);
    DivideBound(MissCount(cfg, a, events), 1 + ResetCount(cfg, a, events), Free(cfg),
                Finish(start, events) - start, cfg.lock);
  }

  lemma DivideBound(n: int, periods: int, free: int, time: int, lock: int)
    requires lock > 0 && n * lock <= periods * (free * lock) + time
    ensures n <= periods * free + time / lock
  {
    var q, paid := time / lock, n - periods * free;
    assert periods * (free * lock) == (periods * free) * lock;
    assert paid * lock == n * lock - (periods * free) * lock;
    assert time < q * lock + lock == (q + 1) * lock;
    CancelFactor(paid, q + 1, lock);
  }

  lemma CancelFactor(a: int, b: int, k: int)
    requires k > 0 && a * k < b * k
    ensures a < b
  {
  }

  /** `free` wrong passwords at once, then one at the end of each of `later` locks. */
  function Guesses(cfg: Config, at: int, free: nat, later: nat): seq<Event>
    decreases free + later
  {
    if free > 0 then [Try(at, at, false)] + Guesses(cfg, at, free - 1, later)
    else if later > 0 then [Try(at + cfg.lock, at + cfg.lock, false)] + Guesses(cfg, at + cfg.lock, 0, later - 1)
    else []
  }

  lemma {:induction false} GuessesAllMiss(cfg: Config, a: Account, at: int, free: nat, later: nat)
    requires cfg.lock > 0 && a.isActive
    requires free > 0 ==> a.lockedUntil.None? && a.failures + free == Free(cfg)
    requires free == 0 ==> a.lockedUntil == Some(at + cfg.lock) && a.failures >= Free(cfg)
    ensures
      var events := Guesses(cfg, at, free, later);
      && InOrder(at, events) && Finish(at, events) == at + later * cfg.lock
      && MissCount(cfg, a, events) == free + later && ResetCount(cfg, a, events) == 0
    decreases free + later
  {
    if free > 0 {
      GuessesAllMiss(cfg, a.Failed(cfg, at), at, free - 1, later);
    } else if later > 0 {
      assert later * cfg.lock == (later - 1) * cfg.lock + cfg.lock;
      GuessesAllMiss(cfg, a.Failed(cfg, at + cfg.lock), at + cfg.lock, 0, later - 1);
    }
  }

  /** No smaller bound holds: a steady guesser gets exactly as many checks as LockoutRate allows. */
  lemma LockoutRateIsMet(cfg: Config, start: int, later: nat)
    requires cfg.lock > 0
    ensures
      var a, events := Account(0, None, true), Guesses(cfg, start, Free(cfg), later);
      && InOrder(start, events)
      && MissCount(cfg, a, events)
         == (1 + ResetCount(cfg, a, events)) * Free(cfg) + (Finish(start, events) - start) / cfg.lock
  {
    GuessesAllMiss(cfg, Account(0, None, true), start, Free(cfg), later);
    ExactQuotient(later, cfg.lock);
  }

  lemma ExactQuotient(k: int, lock: int)
    requires lock > 0
    ensures (k * lock) / lock == k
  {
    var q := (k * lock) / lock;
    assert q * lock <= k * lock < q * lock + lock == (q + 1) * lock;
    CancelFactor(k, q + 1, lock);
    assert (k + 1) * lock == k * lock + lock;
    CancelFactor(q, k + 1, lock);
  }

  // ---------------------------------------------------------------- the account that is updated in place

  class User {
    var failedLoginCount: nat
    var lockedUntil: Option<int>
    var isActive: bool

    function State(): Account
      reads this
    {
      Account(failedLoginCount, lockedUntil, isActive)
    }

    constructor ()
      ensures State() == Account(0, None, true)
    {
      failedLoginCount, lockedUntil, isActive := 0, None, true;
    }

    method RegisterLoginFailure(limit: int, lock: int, now: int)
      modifies this
      ensures State() == old(State()).Failed(Config(limit, lock), now)
      ensures failedLoginCount == old(failedLoginCount) + 1 && isActive == old(isActive)
      ensures lockedUntil == if failedLoginCount >= limit then Some(now + lock) else old(lockedUntil)
    {
      failedLoginCount := failedLoginCount + 1;
      if failedLoginCount >= limit {
        lockedUntil := Some(now + lock);
      }
    }

    method RegisterLoginSuccess()
      modifies this
      ensures State() == old(State()).Reset()
      ensures failedLoginCount == 0 && lockedUntil == None && isActive == old(isActive)
    {
      failedLoginCount := 0;
      lockedUntil := None;
    }

    method Unlock()
      modifies this
      ensures State() == old(State()).Reset()
      ensures failedLoginCount == 0 && lockedUntil == None && isActive == old(isActive)
    {
      failedLoginCount := 0;
      lockedUntil := None;
    }

    method SetUserActive(active: bool)
      modifies this
      ensures State() == old(State()).WithActive(active)
      ensures isActive == active
      ensures failedLoginCount == (if active then old(failedLoginCount) else 0)
      ensures lockedUntil == (if active then old(lockedUntil) else None)
    {
      isActive := active;
      if !active {
        lockedUntil := None;
        failedLoginCount := 0;
      }
    }
  }

  /**
   login_user after the name was looked up: `user` is null for an unknown name.
   A wrong password is recorded before the error is raised, so it stays counted.
  */
  method LoginUser(cfg: Config, user: User?, given: bool, matches: bool, checkedAt: int, decidedAt: int)
      returns (r: Result<(), Error>)
    requires matches ==> user != null
    modifies user
    ensures !given ==> r == Err(CredentialsRequired) && (user != null ==> user.State() == old(user.State()))
    ensures given && user == null ==> r == Err(InvalidCredentials)
    ensures given && user != null ==>
              (user.State(), r) == Login(cfg, old(user.State()), Try(checkedAt, decidedAt, matches))
    ensures r.Ok? <==>
              && given && user != null && matches && old(user.isActive)
              && (old(user.lockedUntil).None? || old(user.lockedUntil).value <= checkedAt)
    ensures given && user != null ==>
              if old(user.lockedUntil).Some? && old(user.lockedUntil).value > checkedAt then
                r == Err(AccountLocked) && user.State() == old(user.State())
              else if !old(user.isActive) then r == Err(AccountDisabled) && user.State() == old(user.State())
              else if matches then user.State() == Account(0, None, true)
              else
                && r == Err(InvalidCredentials) && user.isActive
                && user.failedLoginCount == old(user.failedLoginCount) + 1
                && user.lockedUntil == if user.failedLoginCount >= cfg.limit then Some(decidedAt + cfg.lock)
                                       else old(user.lockedUntil)
  {
    if !given {
      return Err(CredentialsRequired);
    }
    if user != null && user.State().IsLocked(checkedAt) {
      return Err(AccountLocked);
    }
    if user != null && !user.isActive {
      return Err(AccountDisabled);
    }
    if !matches {
      if user != null {
        user.RegisterLoginFailure(cfg.limit, cfg.lock, decidedAt);
      }
      return Err(InvalidCredentials);
    }
    user.RegisterLoginSuccess();
    return Ok(());
  }
}
