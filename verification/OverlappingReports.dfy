/**
 The rate limit and the message dedup when reports overlap.  A transaction sees
 the messages that are committed, and its own message is seen by others only
 after its commit, so several can pass one count, or one look for their id.  The
 excess is bounded by the transactions that were open at a time.
*/
module OverlappingReports {
  import opened Ingest

  /** The committed messages, and those of transactions that have counted and not finished. */
  datatype Gate = Gate(messages: seq<Message>, open: seq<Message>)

  datatype Step = Admit(m: Message) | Commit(k: nat) | RollBack(k: nat)

  function Without(ms: seq<Message>, k: nat): seq<Message>
    requires k < |ms|
  {
    ms[..k] + ms[k + 1..]
  }

  /** The new message is a duplicate if a committed one has its id. */
  function Judged(messages: seq<Message>, m: Message): Message {
    m.(status := if SeenBefore(messages, m.gateway, m.messageId) then Duplicated else Received)
  }

  /** A report that the count refuses opens nothing. */
  function Apply(gateways: map<nat, Gateway>, s: Gate, step: Step): Gate {
    match step
    case Admit(m) =>
      if m.gateway !in gateways then s
      else if RateExceeded(s.messages, m.gateway, gateways[m.gateway].connection, m.receivedAt) then s
      else s.(open := s.open + [Judged(s.messages, m)])
    case Commit(k) =>
      if k < |s.open| then Gate(s.messages + [s.open[k]], Without(s.open, k)) else s
    case RollBack(k) =>
      if k < |s.open| then s.(open := Without(s.open, k)) else s
  }

  /**
   A report is let in unless the committed messages of the last minute reach
   a positive limit, as a duplicate if a committed one has its id.  A commit adds
   the message at the end, a roll-back forgets it.
  */
  lemma StepsMean(gateways: map<nat, Gateway>, s: Gate, m: Message, k: nat)
    requires m.gateway in gateways && k < |s.open|
    ensures
      var c, t := gateways[m.gateway].connection, Apply(gateways, s, Admit(m));
      if c.Some? && c.value.rateLimit > 0
         && |ReceivedFrom(s.messages, m.gateway, m.receivedAt - 60000000)| >= c.value.rateLimit then t == s
      else
        && t.messages == s.messages && |t.open| == |s.open| + 1 && s.open <= t.open
        && t.open[|s.open|].(status := m.status) == m
        && (t.open[|s.open|].status == Duplicated <==>
              exists i :: 0 <= i < |s.messages| && s.messages[i].gateway == m.gateway
                          && s.messages[i].messageId == m.messageId)
    ensures Apply(gateways, s, Commit(k)) == Gate(s.messages + [s.open[k]], s.open[..k] + s.open[k + 1..])
    ensures Apply(gateways, s, RollBack(k)) == Gate(s.messages, s.open[..k] + s.open[k + 1..])
  {
    ReceivedSinceCounts(s.messages, m.gateway, m.receivedAt - MINUTE);
  }

  function Run(gateways: map<nat, Gateway>, s: Gate, trace: seq<Step>): Gate
    decreases |trace|
  {
    if trace == [] then s else Run(gateways, Apply(gateways, s, trace[0]), trace[1..])
  }

  function OpenOf(open: seq<Message>, g: nat): nat {
    if open == [] then 0 else OpenOf(open[..|open| - 1], g) + if open[|open| - 1].gateway == g then 1 else 0
  }

  /** Never more than `most` transactions of the gateway are open. */
  predicate Overlap(gateways: map<nat, Gateway>, s: Gate, trace: seq<Step>, g: nat, most: nat)
    decreases |trace|
  {
    OpenOf(s.open, g) <= most && (trace == [] || Overlap(gateways, Apply(gateways, s, trace[0]), trace[1..], g, most))
  }

  /** Stored and open messages of any closed minute. */
  ghost predicate MinuteBounded(s: Gate, g: nat, bound: nat) {
    forall from :: ReceivedWithin(s.messages, g, from) + ReceivedWithin(s.open, g, from) <= bound
  }

  lemma {:induction false} WithinConcat(a: seq<Message>, b: seq<Message>, g: nat, from: int)
    ensures ReceivedWithin(a + b, g, from) == ReceivedWithin(a, g, from) + ReceivedWithin(b, g, from)
  {
    if b == [] {
      assert a + b == a;
    } else {
      assert (a + b)[..|a + b| - 1] == a + b[..|b| - 1];
      WithinConcat(a, b[..|b| - 1], g, from);
    }
  }

  lemma {:induction false} WithinIsOpen(open: seq<Message>, g: nat, from: int)
    ensures ReceivedWithin(open, g, from) <= OpenOf(open, g)
  {
    if open != [] {
      WithinIsOpen(open[..|open| - 1], g, from);
    }
  }

  lemma WithinSplit(open: seq<Message>, k: nat, g: nat, from: int)
    requires k < |open|
    ensures ReceivedWithin(open, g, from) == ReceivedWithin(Without(open, k), g, from)
         + ReceivedWithin([open[k]], g, from)
  {
    assert open == open[..k] + ([open[k]] + open[k + 1..]);
    WithinConcat(open[..k], [open[k]] + open[k + 1..], g, from);
    WithinConcat([open[k]], open[k + 1..], g, from);
    WithinConcat(open[..k], open[k + 1..], g, from);
  }

  lemma WithinOne(m: Message, g: nat, from: int)
    ensures ReceivedWithin([m], g, from) == if m.gateway == g && from <= m.receivedAt <= from + MINUTE then 1 else 0
  {
    assert [m][..0] == [];
  }

  /** The count looks at committed messages only; the open ones are bounded by their number. */
  lemma AdmitKeepsBound(gateways: map<nat, Gateway>, s: Gate, m: Message, g: nat, limit: nat, most: nat)
    requires g in gateways && gateways[g].connection.Some? && gateways[g].connection.value.rateLimit == limit > 0
    requires MinuteBounded(s, g, limit - 1 + most) && OpenOf(Apply(gateways, s, Admit(m)).open, g) <= most
    ensures MinuteBounded(Apply(gateways, s, Admit(m)), g, limit - 1 + most)
  {
    var t := Apply(gateways, s, Admit(m));
    if t != s {
      forall from
        ensures ReceivedWithin(t.messages, g, from) + ReceivedWithin(t.open, g, from) <= limit - 1 + most
      {
        WithinConcat(s.open, [Judged(s.messages, m)], g, from);
        WithinOne(Judged(s.messages, m), g, from);
        WithinIsOpen(t.open, g, from);
        if m.gateway == g && from <= m.receivedAt <= from + MINUTE {
          WithinIsSince(s.messages, g, from, m.receivedAt - MINUTE);
        }
      }
    }
  }

  lemma StepKeepsBound(gateways: map<nat, Gateway>, s: Gate, step: Step, g: nat, limit: nat, most: nat)
    requires g in gateways && gateways[g].connection.Some? && gateways[g].connection.value.rateLimit == limit > 0
    requires MinuteBounded(s, g, limit - 1 + most) && OpenOf(Apply(gateways, s, step).open, g) <= most
    ensures MinuteBounded(Apply(gateways, s, step), g, limit - 1 + most)
  {
    var t := Apply(gateways, s, step);
    if step.Admit? {
      AdmitKeepsBound(gateways, s, step.m, g, limit, most);
    } else if step.k < |s.open| {
      forall from
        ensures ReceivedWithin(t.messages, g, from) + ReceivedWithin(t.open, g, from) <= limit - 1 + most
      {
        WithinSplit(s.open, step.k, g, from);
        WithinConcat(s.messages, [s.open[step.k]], g, from);
      }
    }
  }

  /**
   With at most `most` transactions of the gateway open at a time, no closed
   minute ever holds more than limit - 1 + most stored messages; with one at a
   time that is the limit itself.
  */
  lemma {:induction false} OverlapBound(
      gateways: map<nat, Gateway>, s: Gate, trace: seq<Step>, g: nat, limit: nat, most: nat)
    requires g in gateways && gateways[g].connection.Some? && gateways[g].connection.value.rateLimit == limit > 0
    requires MinuteBounded(s, g, limit - 1 + most) && Overlap(gateways, s, trace, g, most)
    ensures MinuteBounded(Run(gateways, s, trace), g, limit - 1 + most)
    ensures MinuteLimited(Run(gateways, s, trace).messages, g, limit - 1 + most)
    decreases |trace|
  {
    if trace != [] {
      StepKeepsBound(gateways, s, trace[0], g, limit, most);
      OverlapBound(gateways, Apply(gateways, s, trace[0]), trace[1..], g, limit, most);
    }
  }

  // ---------------------------------------------------------------- one id in overlapping reports

  /** Messages of one id that are processed as the first of it. */
  function OriginalsOf(ms: seq<Message>, g: nat, id: string): nat {
    if ms == [] then 0
    else
      var m := ms[|ms| - 1];
      OriginalsOf(ms[..|ms| - 1], g, id)
        + if m.gateway == g && m.messageId == id && m.status != Duplicated then 1 else 0
  }

  lemma {:induction false} OriginalsConcat(a: seq<Message>, b: seq<Message>, g: nat, id: string)
    ensures OriginalsOf(a + b, g, id) == OriginalsOf(a, g, id) + OriginalsOf(b, g, id)
  {
    if b == [] {
      assert a + b == a;
    } else {
      assert (a + b)[..|a + b| - 1] == a + b[..|b| - 1];
      OriginalsConcat(a, b[..|b| - 1], g, id);
    }
  }

  lemma OriginalsSplit(open: seq<Message>, k: nat, g: nat, id: string)
    requires k < |open|
    ensures OriginalsOf(open, g, id) == OriginalsOf(Without(open, k), g, id) + OriginalsOf([open[k]], g, id)
  {
    assert open == open[..k] + ([open[k]] + open[k + 1..]);
    OriginalsConcat(open[..k], [open[k]] + open[k + 1..], g, id);
    OriginalsConcat([open[k]], open[k + 1..], g, id);
    OriginalsConcat(open[..k], open[k + 1..], g, id);
  }

  lemma {:induction false} UnseenHasNoOriginal(ms: seq<Message>, g: nat, id: string)
    requires !SeenBefore(ms, g, id)
    ensures OriginalsOf(ms, g, id) == 0
  {
    if ms != [] {
      UnseenHasNoOriginal(ms[..|ms| - 1], g, id);
    }
  }

  lemma {:induction false} OriginalsAreOpen(open: seq<Message>, g: nat, id: string)
    ensures OriginalsOf(open, g, id) <= OpenOf(open, g)
  {
    if open != [] {
      OriginalsAreOpen(open[..|open| - 1], g, id);
    }
  }

  lemma StepKeepsOriginals(gateways: map<nat, Gateway>, s: Gate, step: Step, g: nat, id: string, most: nat)
    requires OriginalsOf(s.messages, g, id) + OriginalsOf(s.open, g, id) <= most
    requires OpenOf(Apply(gateways, s, step).open, g) <= most
    ensures
      var t := Apply(gateways, s, step);
      OriginalsOf(t.messages, g, id) + OriginalsOf(t.open, g, id) <= most
  {
    var t := Apply(gateways, s, step);
    if step.Admit? {
      if t != s {
        OriginalsConcat(s.open, [Judged(s.messages, step.m)], g, id);
        OriginalsAreOpen(t.open, g, id);
        if !SeenBefore(s.messages, g, id) {
          UnseenHasNoOriginal(s.messages, g, id);
        } else {
          assert [Judged(s.messages, step.m)][..0] == [];
        }
      }
    } else if step.k < |s.open| {
      OriginalsSplit(s.open, step.k, g, id);
      OriginalsConcat(s.messages, [s.open[step.k]], g, id);
    }
  }

  /**
   With at most `most` transactions of the gateway open at a time, at most
   `most` messages of an id are ever processed.
  */
  lemma {:induction false} OriginalsBound(
      gateways: map<nat, Gateway>, s: Gate, trace: seq<Step>, g: nat, id: string, most: nat)
    requires OriginalsOf(s.messages, g, id) + OriginalsOf(s.open, g, id) <= most && Overlap(gateways, s, trace, g, most)
    ensures OriginalsOf(Run(gateways, s, trace).messages, g, id) <= most
    decreases |trace|
  {
    if trace != [] {
      StepKeepsOriginals(gateways, s, trace[0], g, id, most);
      OriginalsBound(gateways, Apply(gateways, s, trace[0]), trace[1..], g, id, most);
    }
  }

  // ---------------------------------------------------------------- the bounds are met

  /** A run from s to t with never more than `most` transactions of the gateway open. */
  predicate Leads(gateways: map<nat, Gateway>, s: Gate, trace: seq<Step>, t: Gate, g: nat, most: nat) {
    Run(gateways, s, trace) == t && Overlap(gateways, s, trace, g, most)
  }

  lemma StepLeads(gateways: map<nat, Gateway>, s: Gate, step: Step, rest: seq<Step>, t: Gate, g: nat, most: nat)
    requires OpenOf(s.open, g) <= most && Leads(gateways, Apply(gateways, s, step), rest, t, g, most)
    ensures Leads(gateways, s, [step] + rest, t, g, most)
  {
    var trace := [step] + rest;
    assert trace[0] == step && trace[1..] == rest;
  }

  lemma {:induction false} LeadsOn(
      gateways: map<nat, Gateway>, s: Gate, a: seq<Step>, mid: Gate, b: seq<Step>, t: Gate, g: nat, most: nat)
    requires Leads(gateways, s, a, mid, g, most) && Leads(gateways, mid, b, t, g, most)
    ensures Leads(gateways, s, a + b, t, g, most)
    decreases |a|
  {
    if a == [] {
      assert a + b == b;
    } else {
      assert a + b == [a[0]] + (a[1..] + b);
      LeadsOn(gateways, Apply(gateways, s, a[0]), a[1..], mid, b, t, g, most);
      StepLeads(gateways, s, a[0], a[1..] + b, t, g, most);
    }
  }

  lemma AdmitOne(gateways: map<nat, Gateway>, s: Gate, m: Message)
    requires m.gateway in gateways
    requires !RateExceeded(s.messages, m.gateway, gateways[m.gateway].connection, m.receivedAt)
    ensures
      var t := Apply(gateways, s, Admit(m));
      && t.messages == s.messages && OpenOf(t.open, m.gateway) == OpenOf(s.open, m.gateway) + 1
      && ReceivedWithin(t.open, m.gateway, m.receivedAt) == ReceivedWithin(s.open, m.gateway, m.receivedAt) + 1
      && (!SeenBefore(s.messages, m.gateway, m.messageId) ==>
            OriginalsOf(t.open, m.gateway, m.messageId) == OriginalsOf(s.open, m.gateway, m.messageId) + 1)
  {
    var t := Apply(gateways, s, Admit(m));
    assert t.open[..|t.open| - 1] == s.open;
  }

  /** Reports that count before any of them commits are all let in. */
  lemma {:induction false} AdmitMany(gateways: map<nat, Gateway>, s: Gate, m: Message, n: nat, most: nat)
    returns (trace: seq<Step>, t: Gate)
    requires m.gateway in gateways && OpenOf(s.open, m.gateway) + n <= most
    requires !RateExceeded(s.messages, m.gateway, gateways[m.gateway].connection, m.receivedAt)
    ensures Leads(gateways, s, trace, t, m.gateway, most) && t.messages == s.messages
    ensures OpenOf(t.open, m.gateway) == OpenOf(s.open, m.gateway) + n
    ensures ReceivedWithin(t.open, m.gateway, m.receivedAt) == ReceivedWithin(s.open, m.gateway, m.receivedAt) + n
    ensures !SeenBefore(s.messages, m.gateway, m.messageId) ==>
              OriginalsOf(t.open, m.gateway, m.messageId) == OriginalsOf(s.open, m.gateway, m.messageId) + n
    decreases n
  {
    if n == 0 {
      trace, t := [], s;
    } else {
      var next := Apply(gateways, s, Admit(m));
      AdmitOne(gateways, s, m);
      var rest;
      rest, t := AdmitMany(gateways, next, m, n - 1, most);
      trace := [Admit(m)] + rest;
      StepLeads(gateways, s, Admit(m), rest, t, m.gateway, most);
    }
  }

  lemma {:induction false} LastOpenCommits(gateways: map<nat, Gateway>, s: Gate, g: nat, from: int, id: string)
    requires s.open != []
    ensures
      var t := Apply(gateways, s, Commit(|s.open| - 1));
      && t.open == s.open[..|s.open| - 1] && OpenOf(t.open, g) <= OpenOf(s.open, g)
      && ReceivedWithin(t.messages, g, from) + ReceivedWithin(t.open, g, from)
         == ReceivedWithin(s.messages, g, from) + ReceivedWithin(s.open, g, from)
      && OriginalsOf(t.messages, g, id) + OriginalsOf(t.open, g, id)
         == OriginalsOf(s.messages, g, id) + OriginalsOf(s.open, g, id)
  {
    var k := |s.open| - 1;
    OriginalsConcat(s.messages, [s.open[k]], g, id);
    OriginalsSplit(s.open, k, g, id);
    assert Without(s.open, k) == s.open[..k];
    WithinConcat(s.messages, [s.open[k]], g, from);
    WithinSplit(s.open, k, g, from);
  }

  lemma {:induction false} CommitAll(gateways: map<nat, Gateway>, s: Gate, g: nat, from: int, id: string, most: nat)
    returns (trace: seq<Step>, t: Gate)
    requires OpenOf(s.open, g) <= most
    ensures Leads(gateways, s, trace, t, g, most) && t.open == []
    ensures ReceivedWithin(t.messages, g, from) == ReceivedWithin(s.messages, g, from) + ReceivedWithin(s.open, g, from)
    ensures OriginalsOf(t.messages, g, id) == OriginalsOf(s.messages, g, id) + OriginalsOf(s.open, g, id)
    decreases |s.open|
  {
    if s.open == [] {
      trace, t := [], s;
    } else {
      var step := Commit(|s.open| - 1);
      LastOpenCommits(gateways, s, g, from, id);
      var rest;
      rest, t := CommitAll(gateways, Apply(gateways, s, step), g, from, id, most);
      trace := [step] + rest;
      StepLeads(gateways, s, step, rest, t, g, most);
    }
  }

  /**
   No smaller bounds hold: from limit - 1 stored messages, `most` reports of
   one new id that look together reach both.
  */
  lemma OverlapBoundIsMet(gateways: map<nat, Gateway>, messages: seq<Message>, m: Message, limit: nat, most: nat)
    returns (trace: seq<Step>, t: Gate)
    requires m.gateway in gateways && gateways[m.gateway].connection.Some?
    requires gateways[m.gateway].connection.value.rateLimit == limit > 0
    requires ReceivedWithin(messages, m.gateway, m.receivedAt) == limit - 1
    requires ReceivedSince(messages, m.gateway, m.receivedAt - MINUTE) == limit - 1
    ensures Leads(gateways, Gate(messages, []), trace, t, m.gateway, most)
    ensures ReceivedWithin(t.messages, m.gateway, m.receivedAt) == limit - 1 + most
    ensures !SeenBefore(messages, m.gateway, m.messageId) ==> OriginalsOf(t.messages, m.gateway, m.messageId) == most
  {
    var a, mid := AdmitMany(gateways, Gate(messages, []), m, most, most);
    var b;
    b, t := CommitAll(gateways, mid, m.gateway, m.receivedAt, m.messageId, most);
    trace := a + b;
    LeadsOn(gateways, Gate(messages, []), a, mid, b, t, m.gateway, most);
    if !SeenBefore(messages, m.gateway, m.messageId) {
      UnseenHasNoOriginal(messages, m.gateway, m.messageId);
    }
  }
}
