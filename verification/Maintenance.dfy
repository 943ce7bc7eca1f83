/**
 The maintenance scheduler: a capped catch-up loop over the cycle dates of a
 plan.  Calling it again and again, with any cap and any limits on the way,
 must come to what one call without a cap would have done.
*/
module Maintenance {
  import opened Common

  const MAX_TASKS_PER_GENERATION := 60

  datatype Error = InvalidCycle

  /** Dates are day numbers; `tasks` are the dates of the plan's tasks in the order they were created. */
  datatype Plan = Plan(cycleDays: int, nextDate: Option<int>, tasks: seq<int>)

  // ---------------------------------------------------------------- what is due

  /** The cycle dates from `from` up to the limit that have no task. */
  function Missing(tasks: seq<int>, from: int, cycle: int, limit: int): seq<int>
    requires cycle > 0
    decreases limit - from
  {
    if from > limit then []
    else (if from in tasks then [] else [from]) + Missing(tasks, from + cycle, cycle, limit)
  }

  /** The first cycle date past the limit. */
  function FirstPast(from: int, cycle: int, limit: int): int
    requires cycle > 0
    decreases limit - from
  {
    if from > limit then from else FirstPast(from + cycle, cycle, limit)
  }

  function Take(s: seq<int>, cap: nat): seq<int> {
    if |s| <= cap then s else s[..cap]
  }

  /** Where a call stops: past the limit, or right after the last task the cap allows. */
  function StopsAt(tasks: seq<int>, from: int, cycle: int, limit: int, cap: nat): int
    requires cycle > 0
  {
    var missing := Missing(tasks, from, cycle, limit);
    if cap == 0 then from
    else if |missing| < cap then FirstPast(from, cycle, limit)
    else missing[cap - 1] + cycle
  }

  /** One call. */
  function Generate(p: Plan, limit: int, cap: nat): Plan {
    if p.cycleDays <= 0 || p.nextDate.None? then p
    else p.(tasks := p.tasks + Take(Missing(p.tasks, p.nextDate.value, p.cycleDays, limit), cap),
            nextDate := Some(StopsAt(p.tasks, p.nextDate.value, p.cycleDays, limit, cap)))
  }

  /** One call without a cap: every missing date gets its task and the plan moves past the limit. */
  function Uncapped(p: Plan, limit: int): Plan {
    if p.cycleDays <= 0 || p.nextDate.None? then p
    else p.(tasks := p.tasks + Missing(p.tasks, p.nextDate.value, p.cycleDays, limit),
            nextDate := Some(FirstPast(p.nextDate.value, p.cycleDays, limit)))
  }

  datatype Call = Call(limit: int, cap: nat)

  function Run(p: Plan, calls: seq<Call>): Plan
    decreases |calls|
  {
    if calls == [] then p else Run(Generate(p, calls[0].limit, calls[0].cap), calls[1..])
  }

  function Repeat(p: Plan, limit: int, cap: nat, times: nat): Plan
    decreases times
  {
    if times == 0 then p else Repeat(Generate(p, limit, cap), limit, cap, times - 1)
  }

  /** How many tasks are still to be made. */
  function Backlog(p: Plan, limit: int): nat {
    if p.cycleDays <= 0 || p.nextDate.None? then 0 else |Missing(p.tasks, p.nextDate.value, p.cycleDays, limit)|
  }

  // ---------------------------------------------------------------- meaning of the two functions

  ghost predicate OnCycle(from: int, cycle: int, d: int) {
    exists k: nat :: d == from + k * cycle
  }

  lemma OnCycleStep(from: int, cycle: int, d: int)
    requires cycle > 0
    ensures OnCycle(from, cycle, d) <==> d == from || OnCycle(from + cycle, cycle, d)
  {
    if OnCycle(from, cycle, d) && d != from {
      var k: nat :| d == from + k * cycle;
      assert k > 0;
      assert k * cycle == (k - 1) * cycle + cycle;
      assert d == from + cycle + (k - 1) * cycle;
    }
    if OnCycle(from + cycle, cycle, d) {
      var k: nat :| d == from + cycle + k * cycle;
      assert (k + 1) * cycle == k * cycle + cycle;
      assert d == from + (k + 1) * cycle;
    }
    if d == from {
      assert d == from + 0 * cycle;
    }
  }

  lemma CycleIsLater(from: int, cycle: int, d: int)
    requires cycle > 0 && OnCycle(from, cycle, d)
    ensures d >= from
  {
  }

  /** Exactly the cycle dates without a task, each once, in order. */
  lemma {:induction false} MissingIff(tasks: seq<int>, from: int, cycle: int, limit: int, d: int)
    requires cycle > 0
    ensures d in Missing(tasks, from, cycle, limit) <==> OnCycle(from, cycle, d) && d <= limit && d !in tasks
    decreases limit - from
  {
    if from > limit {
      if OnCycle(from, cycle, d) {
        CycleIsLater(from, cycle, d);
      }
    } else {
      OnCycleStep(from, cycle, d);
      MissingIff(tasks, from + cycle, cycle, limit, d);
    }
  }

  ghost predicate Ascending(s: seq<int>) {
    forall i, j :: 0 <= i < j < |s| ==> s[i] < s[j]
  }

  lemma {:induction false} MissingAscends(tasks: seq<int>, from: int, cycle: int, limit: int)
    requires cycle > 0
    ensures Ascending(Missing(tasks, from, cycle, limit))
    ensures forall d :: d in Missing(tasks, from, cycle, limit) ==> from <= d <= limit && d !in tasks
    decreases limit - from
  {
    if from <= limit {
      MissingAscends(tasks, from + cycle, cycle, limit);
      AscendsFrom(from, Missing(tasks, from + cycle, cycle, limit));
    }
  }

  lemma AscendsFrom(x: int, s: seq<int>)
    requires Ascending(s) && forall d :: d in s ==> x < d
    ensures Ascending([x] + s)
  {
    assert forall j :: 0 <= j < |s| ==> s[j] in s;
  }

  /** The first date of the cycle past the limit: one cycle earlier was due, unless nothing was. */
  lemma {:induction false} FirstPastIsFirst(from: int, cycle: int, limit: int)
    requires cycle > 0
    ensures OnCycle(from, cycle, FirstPast(from, cycle, limit)) && FirstPast(from, cycle, limit) > limit
    ensures FirstPast(from, cycle, limit) == from || FirstPast(from, cycle, limit) - cycle <= limit
    decreases limit - from
  {
    OnCycleStep(from, cycle, FirstPast(from, cycle, limit));
    if from <= limit {
      FirstPastIsFirst(from + cycle, cycle, limit);
    }
  }

  // ---------------------------------------------------------------- capped calls add up

  lemma {:induction false} PastTasksDoNotMatter(a: seq<int>, b: seq<int>, from: int, cycle: int, limit: int)
    requires cycle > 0 && forall d :: d >= from ==> (d in a <==> d in b)
    ensures Missing(a, from, cycle, limit) == Missing(b, from, cycle, limit)
    decreases limit - from
  {
    if from <= limit {
      PastTasksDoNotMatter(a, b, from + cycle, cycle, limit);
    }
  }

  lemma StopIsPast(tasks: seq<int>, from: int, cycle: int, limit: int, cap: nat)
    requires cycle > 0
    ensures forall d :: d in Take(Missing(tasks, from, cycle, limit), cap) ==>
              d < StopsAt(tasks, from, cycle, limit, cap)
  {
    MissingAscends(tasks, from, cycle, limit);
    FirstPastIsFirst(from, cycle, limit);
  }

  lemma StopIfPresent(tasks: seq<int>, from: int, cycle: int, limit: int, cap: nat)
    requires cycle > 0 && from <= limit && from in tasks && cap > 0
    ensures Missing(tasks, from, cycle, limit) == Missing(tasks, from + cycle, cycle, limit)
    ensures StopsAt(tasks, from, cycle, limit, cap) == StopsAt(tasks, from + cycle, cycle, limit, cap)
  {
  }

  lemma StopIfMissing(tasks: seq<int>, from: int, cycle: int, limit: int, cap: nat)
    requires cycle > 0 && from <= limit && from !in tasks && cap > 0
    ensures Take(Missing(tasks, from, cycle, limit), cap)
         == [from] + Take(Missing(tasks, from + cycle, cycle, limit), cap - 1)
    ensures StopsAt(tasks, from, cycle, limit, cap) == StopsAt(tasks, from + cycle, cycle, limit, cap - 1)
  {
    assert Missing(tasks, from, cycle, limit) == [from] + Missing(tasks, from + cycle, cycle, limit);
  }

  /** What a capped call leaves behind continues where it stopped, also towards a later limit. */
  ghost predicate Continues(tasks: seq<int>, from: int, cycle: int, made: seq<int>, stop: int, later: int)
    requires cycle > 0
  {
    && Missing(tasks, from, cycle, later) == made + Missing(tasks, stop, cycle, later)
    && FirstPast(from, cycle, later) == FirstPast(stop, cycle, later)
  }

  lemma ContinuesEarlier(tasks: seq<int>, from: int, cycle: int, made: seq<int>, stop: int, later: int)
    requires cycle > 0 && from <= later && Continues(tasks, from + cycle, cycle, made, stop, later)
    ensures Continues(tasks, from, cycle, (if from in tasks then [] else [from]) + made, stop, later)
  {
    var head := if from in tasks then [] else [from];
    assert head + (made + Missing(tasks, stop, cycle, later)) == (head + made) + Missing(tasks, stop, cycle, later);
  }

  lemma {:induction false} Resumes(tasks: seq<int>, from: int, cycle: int, limit: int, cap: nat, later: int)
    requires cycle > 0 && limit <= later
    ensures Continues(tasks, from, cycle, Take(Missing(tasks, from, cycle, limit), cap),
                      StopsAt(tasks, from, cycle, limit, cap), later)
    decreases limit - from
  {
    if from > limit || cap == 0 {
      assert Take(Missing(tasks, from, cycle, limit), cap) == [];
      assert StopsAt(tasks, from, cycle, limit, cap) == from;
    } else {
      var cap' := if from in tasks then cap else cap - 1;
      var made' := Take(Missing(tasks, from + cycle, cycle, limit), cap');
      var stop' := StopsAt(tasks, from + cycle, cycle, limit, cap');
      Resumes(tasks, from + cycle, cycle, limit, cap', later);
      ContinuesEarlier(tasks, from, cycle, made', stop', later);
      if from in tasks {
        StopIfPresent(tasks, from, cycle, limit, cap);
        assert [] + made' == made';
      } else {
        StopIfMissing(tasks, from, cycle, limit, cap);
      }
    }
  }

  lemma Leaves(tasks: seq<int>, from: int, cycle: int, limit: int, cap: nat, later: int)
    requires cycle > 0 && limit <= later
    ensures
      var stop := StopsAt(tasks, from, cycle, limit, cap);
      var made := Take(Missing(tasks, from, cycle, limit), cap);
      && Missing(tasks, from, cycle, later) == made + Missing(tasks + made, stop, cycle, later)
      && FirstPast(from, cycle, later) == FirstPast(stop, cycle, later)
  {
    Resumes(tasks, from, cycle, limit, cap, later);
    StopIsPast(tasks, from, cycle, limit, cap);
    var made := Take(Missing(tasks, from, cycle, limit), cap);
    PastTasksDoNotMatter(tasks, tasks + made, StopsAt(tasks, from, cycle, limit, cap), cycle, later);
  }

  /** A call towards any limit up to `later`, with any cap, changes nothing of what the plan comes to at `later`. */
  lemma CallKeepsOutcome(p: Plan, limit: int, cap: nat, later: int)
    requires limit <= later
    ensures Uncapped(Generate(p, limit, cap), later) == Uncapped(p, later)
  {
    if p.cycleDays > 0 && p.nextDate.Some? {
      Leaves(p.tasks, p.nextDate.value, p.cycleDays, limit, cap, later);
    }
  }

  /** Over any run of calls with limits up to `later`. */
  lemma {:induction false} RunKeepsOutcome(p: Plan, calls: seq<Call>, later: int)
    requires forall i :: 0 <= i < |calls| ==> calls[i].limit <= later
    ensures Uncapped(Run(p, calls), later) == Uncapped(p, later)
    decreases |calls|
  {
    if calls != [] {
      CallKeepsOutcome(p, calls[0].limit, calls[0].cap, later);
      RunKeepsOutcome(Generate(p, calls[0].limit, calls[0].cap), calls[1..], later);
    }
  }

  /** A call works off the backlog by its cap; with room to spare it finishes. */
  lemma CallShrinksBacklog(p: Plan, limit: int, cap: nat)
    ensures Backlog(Generate(p, limit, cap), limit) == if Backlog(p, limit) <= cap then 0 else Backlog(p, limit) - cap
    ensures Backlog(p, limit) < cap ==> Generate(p, limit, cap) == Uncapped(p, limit)
  {
    if p.cycleDays > 0 && p.nextDate.Some? {
      Leaves(p.tasks, p.nextDate.value, p.cycleDays, limit, cap, limit);
    }
  }

  /** A plan that is past the limit stays as it is. */
  lemma {:induction false} FinishedStays(p: Plan, limit: int, cap: nat, times: nat)
    requires p.nextDate.Some? ==> p.nextDate.value > limit
    ensures Repeat(p, limit, cap, times) == p
    decreases times
  {
    if times > 0 {
      assert p.tasks + [] == p.tasks;
      FinishedStays(p, limit, cap, times - 1);
    }
  }

  /**
   Repeated capped calls end, and end where one uncapped call would: as soon as
   the calls have room for more than the backlog.
  */
  lemma {:induction false} CappedEqualsUncapped(p: Plan, limit: int, cap: nat, times: nat)
    requires times * cap > Backlog(p, limit)
    ensures Repeat(p, limit, cap, times) == Uncapped(p, limit)
    decreases times
  {
    var q := Generate(p, limit, cap);
    CallShrinksBacklog(p, limit, cap);
    CallKeepsOutcome(p, limit, cap, limit);
    if Backlog(p, limit) < cap {
      if p.cycleDays > 0 && p.nextDate.Some? {
        FirstPastIsFirst(p.nextDate.value, p.cycleDays, limit);
        FinishedStays(q, limit, cap, times - 1);
      } else {
        UnplannedStays(p, limit, cap, times);
      }
    } else {
      assert times * cap == (times - 1) * cap + cap;
      CappedEqualsUncapped(q, limit, cap, times - 1);
    }
  }

  lemma {:induction false} UnplannedStays(p: Plan, limit: int, cap: nat, times: nat)
    requires p.cycleDays <= 0 || p.nextDate.None?
    ensures Repeat(p, limit, cap, times) == p
    decreases times
  {
    if times > 0 {
      UnplannedStays(p, limit, cap, times - 1);
    }
  }

  ghost predicate Distinct(s: seq<int>) {
    forall i, j :: 0 <= i < j < |s| ==> s[i] != s[j]
  }

  /** (plan, date) stays unique over every run of calls. */
  lemma {:induction false} NoDateTwice(p: Plan, calls: seq<Call>)
    requires Distinct(p.tasks)
    ensures Distinct(Run(p, calls).tasks)
    decreases |calls|
  {
    if calls != [] {
      if p.cycleDays > 0 && p.nextDate.Some? {
        MissingAscends(p.tasks, p.nextDate.value, p.cycleDays, calls[0].limit);
        DistinctConcat(p.tasks, Take(Missing(p.tasks, p.nextDate.value, p.cycleDays, calls[0].limit), calls[0].cap));
      }
      NoDateTwice(Generate(p, calls[0].limit, calls[0].cap), calls[1..]);
    }
  }

  lemma DistinctConcat(a: seq<int>, b: seq<int>)
    requires Distinct(a) && Ascending(b) && forall d :: d in b ==> d !in a
    ensures Distinct(a + b)
  {
    var s := a + b;
    forall i, j | 0 <= i < j < |s|
      ensures s[i] != s[j]
    {
      if i < |a| <= j {
        assert b[j - |a|] in b && a[i] in a;
      }
    }
  }

  // ---------------------------------------------------------------- the plan that is updated in place

  class MaintenancePlan {
    const cycleDays: int
    var nextDate: Option<int>
    var tasks: seq<int>

    function State(): Plan
      reads this
    {
      Plan(cycleDays, nextDate, tasks)
    }

    constructor (cycleDays: int, nextDate: Option<int>)
      ensures State() == Plan(cycleDays, nextDate, [])
    {
      this.cycleDays, this.nextDate, this.tasks := cycleDays, nextDate, [];
    }

    /** generate_maintenance_tasks: returns the dates of the tasks it created. */
    method GenerateMaintenanceTasks(limit: int) returns (r: Result<seq<int>, Error>)
      modifies this
      ensures State() == Generate(old(State()), limit, 60)
      ensures cycleDays <= 0 ==> r == Err(InvalidCycle)
      ensures cycleDays > 0 ==> r.Ok? && tasks == old(tasks) + r.value && |r.value| <= 60
    {
      if cycleDays <= 0 {
        return Err(InvalidCycle);
      }
      if nextDate.None? {
        return Ok([]);
      }
      var created := CatchUp(limit, MAX_TASKS_PER_GENERATION);
      return Ok(created);
    }

    method CatchUp(limit: int, cap: nat) returns (created: seq<int>)
      requires cycleDays > 0 && nextDate.Some?
      modifies this
      ensures State() == Generate(old(State()), limit, cap)
      ensures tasks == old(tasks) + created && |created| <= cap
    {
      var cursor := nextDate.value;
      created := [];
      ghost var had, start := tasks, cursor;
      assert [] + Walk(had, start, cycleDays, limit, cap).0 == Walk(had, start, cycleDays, limit, cap).0;
      while cursor <= limit && |created| < cap
        invariant |created| <= cap && tasks == had + created && nextDate == Some(start)
        invariant forall d :: d in created ==> d < cursor
        invariant Walk(had, start, cycleDays, limit, cap)
             == Prepend(created, Walk(had, cursor, cycleDays, limit, cap - |created|))
        decreases limit - cursor
      {
        WalkStep(had, created, cursor, cycleDays, limit, cap);
        if cursor !in tasks {
          created := created + [cursor];
          tasks := tasks + [cursor];
        }
        cursor := cursor + cycleDays;
      }
      nextDate := Some(cursor);
      WalkIsCapped(had, start, cycleDays, limit, cap);
    }
  }

  /** The loop as a recursion: the dates it adds and where its cursor stops. */
  function Walk(tasks: seq<int>, cursor: int, cycle: int, limit: int, cap: nat): (seq<int>, int)
    requires cycle > 0
    decreases limit - cursor
  {
    if cursor > limit || cap == 0 then ([], cursor)
    else if cursor in tasks then Walk(tasks, cursor + cycle, cycle, limit, cap)
    else
      Prepend([cursor], Walk(tasks, cursor + cycle, cycle, limit, cap - 1))
  }

  function Prepend(made: seq<int>, rest: (seq<int>, int)): (seq<int>, int) {
    (made + rest.0, rest.1)
  }

  lemma WalkStep(tasks: seq<int>, made: seq<int>, cursor: int, cycle: int, limit: int, cap: nat)
    requires cycle > 0 && cursor <= limit && |made| < cap
    ensures Prepend(made, Walk(tasks, cursor, cycle, limit, cap - |made|))
         == var made' := if cursor in tasks then made else made + [cursor];
            Prepend(made', Walk(tasks, cursor + cycle, cycle, limit, cap - |made'|))
  {
    if cursor !in tasks {
      var rest := Walk(tasks, cursor + cycle, cycle, limit, cap - |made| - 1).0;
      assert made + ([cursor] + rest) == (made + [cursor]) + rest;
    }
  }

  lemma {:induction false} WalkIsCapped(tasks: seq<int>, cursor: int, cycle: int, limit: int, cap: nat)
    requires cycle > 0
    ensures Walk(tasks, cursor, cycle, limit, cap)
         == (Take(Missing(tasks, cursor, cycle, limit), cap), StopsAt(tasks, cursor, cycle, limit, cap))
    decreases limit - cursor
  {
    if cursor <= limit && cap > 0 {
      if cursor in tasks {
        StopIfPresent(tasks, cursor, cycle, limit, cap);
        WalkIsCapped(tasks, cursor + cycle, cycle, limit, cap);
      } else {
        StopIfMissing(tasks, cursor, cycle, limit, cap);
        WalkIsCapped(tasks, cursor + cycle, cycle, limit, cap - 1);
      }
    }
  }
}
