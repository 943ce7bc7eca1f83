/**
 Idempotent execution: the idempotency record, the business effect and the
 stored response commit together, so a key runs its effect once and every later
 call gets the first response back.  What is stored is the serialised response,
 hence the whole contract rests on serialisation being idempotent.
*/
module Idempotency {
  import opened Common

  // ---------------------------------------------------------------- serialisation

  /** A mapping key, and the text `str(key)` gives for it. */
  datatype Key = Text(text: string) | NonText(text: string)

  /** Python values as far as serialise_value tells them apart; texts are what str() or isoformat() give. */
  datatype Value =
    | Null
    | Bool(b: bool)
    | Int(i: int)
    | Float(repr: string)
    | Str(text: string)
    | Decimal(text: string)
    | Moment(iso: string)
    | Row(pk: string)
    | Dict(items: seq<Entry>)
    | List(elems: seq<Value>)
    | Other(text: string)

  datatype Entry = Entry(key: Key, value: Value)

  /** `d[key] = v` in a dict comprehension: a later equal key replaces the value and keeps its place. */
  function Put(items: seq<Entry>, key: string, v: Value): seq<Entry> {
    if items == [] then [Entry(Text(key), v)]
    else if items[0].key == Text(key) then [Entry(Text(key), v)] + items[1..]
    else [items[0]] + Put(items[1..], key, v)
  }

  function Serialise(v: Value): Value
    decreases v, 1
  {
    match v
    case Decimal(text) => Str(text)
    case Moment(iso) => Str(iso)
    case Row(pk) => Str(pk)
    case Dict(items) => Dict(SerialiseItems(items))
    case List(elems) => List(SerialiseElems(elems))
    case Other(text) => Str(text)
    case _ => v
  }

  function SerialiseItems(items: seq<Entry>): seq<Entry>
    decreases items, 0
  {
    if items == [] then []
    else
      var last := items[|items| - 1];
      Put(SerialiseItems(items[..|items| - 1]), last.key.text, SerialisedValue(last))
  }

  function SerialisedValue(e: Entry): Value
    decreases e, 0
  {
    Serialise(e.value)
  }

  function SerialiseElems(elems: seq<Value>): seq<Value>
    decreases elems, 0
  {
    if elems == [] then [] else [Serialise(elems[0])] + SerialiseElems(elems[1..])
  }

  predicate DistinctTextKeys(items: seq<Entry>) {
    && (forall i :: 0 <= i < |items| ==> items[i].key.Text?)
    && (forall i, j :: 0 <= i < j < |items| ==> items[i].key != items[j].key)
  }

  /** What a JSON column can hold. */
  predicate IsJson(v: Value)
    decreases v
  {
    match v
    case Dict(items) => DistinctTextKeys(items) && forall i :: 0 <= i < |items| ==> IsJson(items[i].value)
    case List(elems) => forall i :: 0 <= i < |elems| ==> IsJson(elems[i])
    case Decimal(_) => false
    case Moment(_) => false
    case Row(_) => false
    case Other(_) => false
    case _ => true
  }

  predicate JsonItems(items: seq<Entry>) {
    DistinctTextKeys(items) && forall i :: 0 <= i < |items| ==> IsJson(items[i].value)
  }

  lemma {:induction false} PutKeepsJson(items: seq<Entry>, key: string, v: Value)
    requires JsonItems(items) && IsJson(v)
    ensures JsonItems(Put(items, key, v))
    ensures forall e :: e in Put(items, key, v) ==> e.key == Text(key) || e in items
  {
    if items != [] && items[0].key != Text(key) {
      PutKeepsJson(items[1..], key, v);
      var put := Put(items[1..], key, v);
      forall j | 0 <= j < |put|
        ensures put[j].key != items[0].key
      {
        assert put[j] in put;
      }
    }
  }

  lemma {:induction false} PutFresh(items: seq<Entry>, key: string, v: Value)
    requires forall i :: 0 <= i < |items| ==> items[i].key != Text(key)
    ensures Put(items, key, v) == items + [Entry(Text(key), v)]
  {
    if items != [] {
      PutFresh(items[1..], key, v);
    }
  }

  /** Whatever goes in, what comes out can be stored. */
  lemma {:induction false} SerialisedIsJson(v: Value)
    ensures IsJson(Serialise(v))
    decreases v, 1
  {
    match v
    case Dict(items) => SerialisedItemsAreJson(items);
    case List(elems) => SerialisedElemsAreJson(elems);
    case _ =>
  }

  lemma {:induction false} SerialisedItemsAreJson(items: seq<Entry>)
    ensures JsonItems(SerialiseItems(items))
    decreases items, 0
  {
    if items != [] {
      var last := items[|items| - 1];
      SerialisedItemsAreJson(items[..|items| - 1]);
      SerialisedEntryIsJson(last);
      PutKeepsJson(SerialiseItems(items[..|items| - 1]), last.key.text, SerialisedValue(last));
    }
  }

  lemma {:induction false} SerialisedEntryIsJson(e: Entry)
    ensures IsJson(SerialisedValue(e))
    decreases e, 0
  {
    SerialisedIsJson(e.value);
  }

  lemma {:induction false} SerialisedElemsAreJson(elems: seq<Value>)
    ensures forall i :: 0 <= i < |SerialiseElems(elems)| ==> IsJson(SerialiseElems(elems)[i])
    decreases elems, 0
  {
    if elems != [] {
      SerialisedIsJson(elems[0]);
      SerialisedElemsAreJson(elems[1..]);
    }
  }

  lemma {:induction false} JsonIsFixed(v: Value)
    requires IsJson(v)
    ensures Serialise(v) == v
    decreases v, 1
  {
    match v
    case Dict(items) => JsonItemsAreFixed(items);
    case List(elems) => JsonElemsAreFixed(elems);
    case _ =>
  }

  lemma {:induction false} JsonItemsAreFixed(items: seq<Entry>)
    requires JsonItems(items)
    ensures SerialiseItems(items) == items
    decreases items, 0
  {
    if items != [] {
      var before, last := items[..|items| - 1], items[|items| - 1];
      JsonItemsAreFixed(before);
      JsonEntryIsFixed(last);
      PutFresh(before, last.key.text, last.value);
      assert items == before + [last];
    }
  }

  lemma {:induction false} JsonEntryIsFixed(e: Entry)
    requires IsJson(e.value)
    ensures SerialisedValue(e) == e.value
    decreases e, 0
  {
    JsonIsFixed(e.value);
  }

  lemma {:induction false} JsonElemsAreFixed(elems: seq<Value>)
    requires forall i :: 0 <= i < |elems| ==> IsJson(elems[i])
    ensures SerialiseElems(elems) == elems
    decreases elems, 0
  {
    if elems != [] {
      JsonIsFixed(elems[0]);
      JsonElemsAreFixed(elems[1..]);
    }
  }

  lemma SerialiseIsIdempotent(v: Value)
    ensures Serialise(Serialise(v)) == Serialise(v)
  {
    SerialisedIsJson(v);
    JsonIsFixed(Serialise(v));
  }

  // ---------------------------------------------------------------- what serialising keeps

  /** The text a value is printed with, for those that are stored as text. */
  function PrintedText(v: Value): Option<string> {
    match v
    case Str(text) => Some(text)
    case Decimal(text) => Some(text)
    case Moment(iso) => Some(iso)
    case Row(pk) => Some(pk)
    case Other(text) => Some(text)
    case _ => None
  }

  /** Scalars stay, everything else that is no container becomes its own text, lists keep their elements. */
  lemma SerialiseKeeps(v: Value)
    ensures PrintedText(v).Some? ==> Serialise(v) == Str(PrintedText(v).value)
    ensures v.Null? || v.Bool? || v.Int? || v.Float? ==> Serialise(v) == v
    ensures v.Dict? <==> Serialise(v).Dict?
    ensures v.List? ==> Serialise(v).List? && |Serialise(v).elems| == |v.elems|
    ensures v.List? ==> forall i :: 0 <= i < |v.elems| ==> Serialise(v).elems[i] == Serialise(v.elems[i])
  {
    if v.List? {
      ElementsAreKept(v.elems);
    }
  }

  lemma {:induction false} ElementsAreKept(elems: seq<Value>)
    ensures |SerialiseElems(elems)| == |elems|
    ensures forall i :: 0 <= i < |elems| ==> SerialiseElems(elems)[i] == Serialise(elems[i])
  {
    if elems != [] {
      ElementsAreKept(elems[1..]);
    }
  }

  /** The value under a text key. */
  function Lookup(items: seq<Entry>, key: string): Option<Value> {
    if items == [] then None
    else if items[0].key == Text(key) then Some(items[0].value) else Lookup(items[1..], key)
  }

  /** The value of the last entry whose key prints as `key`. */
  function LastUnder(items: seq<Entry>, key: string): Option<Value> {
    if items == [] then None
    else
      var last := items[|items| - 1];
      if last.key.text == key then Some(last.value) else LastUnder(items[..|items| - 1], key)
  }

  lemma {:induction false} LookupAfterPut(items: seq<Entry>, key: string, v: Value, other: string)
    ensures Lookup(Put(items, key, v), other) == if other == key then Some(v) else Lookup(items, other)
  {
    if items != [] && items[0].key != Text(key) {
      LookupAfterPut(items[1..], key, v, other);
    }
  }

  /** A mapping answers each text key with the serialised value of the last entry that prints so, and no other key. */
  lemma {:induction false} MappingIsKept(items: seq<Entry>, key: string)
    ensures Lookup(SerialiseItems(items), key)
         == match LastUnder(items, key) case None => None case Some(v) => Some(Serialise(v))
  {
    if items != [] {
      var before, last := items[..|items| - 1], items[|items| - 1];
      MappingIsKept(before, key);
      LookupAfterPut(SerialiseItems(before), last.key.text, SerialisedValue(last), key);
    }
  }

  // ---------------------------------------------------------------- one call

  type Body = seq<Entry>

  type RecordKey = (string, string)

  datatype Record = Record(payload: string, status: Option<nat>, body: Body, expiresAt: int)

  datatype Effect = Effect(at: RecordKey, status: nat, body: Body)

  /** `effects` is the business data the wrapped functions committed. */
  datatype Store = Store(records: map<RecordKey, Record>, effects: seq<Effect>)

  /** What the wrapped function does; a duplicate-key error of its own is told apart from other errors. */
  datatype Outcome = Returns(status: nat, body: Body) | HitsDuplicateKey | Raises

  datatype Call = Call(scope: string, key: Option<string>, payload: string, outcome: Outcome, now: int)

  datatype Reply = Reply(status: nat, body: Body, replayed: bool)

  datatype Error = KeyRequired | KeyTooLong | PayloadConflict | InProgress | FunctionFailed

  const TTL: int := 24 * 3600
  const KEY_LIMIT := 128

  predicate KeyAccepted(key: Option<string>) {
    key.Some? && key.value != "" && |key.value| <= KEY_LIMIT
  }

  function Execute(st: Store, c: Call): (Store, Result<Reply, Error>) {
    if c.key.None? || c.key.value == "" then (st, Err(KeyRequired))
    else if |c.key.value| > KEY_LIMIT then (st, Err(KeyTooLong))
    else
      var at := (c.scope, c.key.value);
      if at in st.records then
        var r := st.records[at];
        if r.payload != c.payload then (st, Err(PayloadConflict))
        else if r.status.None? then (st, Err(InProgress))
        else (st, Ok(Reply(r.status.value, r.body, true)))
      else
        match c.outcome
        case Raises => (st, Err(FunctionFailed))
        case HitsDuplicateKey => (st, Err(InProgress))
        case Returns(status, body) =>
          (Store(st.records[at := Record(c.payload, Some(status), SerialiseItems(body), c.now + TTL)],
                 st.effects + [Effect(at, status, body)]),
           Ok(Reply(status, body, false)))
  }

  /** A batch of the nightly clean-up deletes some of the expired records. */
  datatype Step = Do(call: Call) | Cleanup(now: int, batch: set<RecordKey>)

  predicate Removes(st: Store, step: Step, at: RecordKey) {
    step.Cleanup? && at in step.batch && at in st.records && st.records[at].expiresAt < step.now
  }

  function Apply(st: Store, step: Step): Store {
    match step
    case Do(call) => Execute(st, call).0
    case Cleanup(now, batch) =>
      st.(records := map at | at in st.records && !(at in batch && st.records[at].expiresAt < now) :: st.records[at])
  }

  function Run(st: Store, trace: seq<Step>): Store
    decreases |trace|
  {
    if trace == [] then st else Run(Apply(st, trace[0]), trace[1..])
  }

  function Removals(st: Store, trace: seq<Step>, at: RecordKey): nat
    decreases |trace|
  {
    if trace == [] then 0
    else (if Removes(st, trace[0], at) then 1 else 0) + Removals(Apply(st, trace[0]), trace[1..], at)
  }

  function EffectsOf(effects: seq<Effect>, at: RecordKey): nat {
    if effects == [] then 0
    else EffectsOf(effects[..|effects| - 1], at) + if effects[|effects| - 1].at == at then 1 else 0
  }

  // ---------------------------------------------------------------- whole runs

  predicate Complete(st: Store) {
    forall at :: at in st.records ==> st.records[at].status.Some? && JsonItems(st.records[at].body)
  }

  /** Only a first, successful call of a key changes anything at all. */
  lemma FailedOrReplayedLeavesNoTrace(st: Store, c: Call)
    ensures Execute(st, c).1.Err? || Execute(st, c).1.value.replayed ==> Execute(st, c).0 == st
    ensures Execute(st, c).0 != st <==>
              KeyAccepted(c.key) && (c.scope, c.key.value) !in st.records && c.outcome.Returns?
  {
    if KeyAccepted(c.key) && (c.scope, c.key.value) !in st.records && c.outcome.Returns? {
      assert |Execute(st, c).0.effects| == |st.effects| + 1;
    }
  }

  predicate IsFirstSuccess(st: Store, step: Step) {
    step.Do? && Execute(st, step.call).1.Ok? && !Execute(st, step.call).1.value.replayed
  }

  /** The trace without the calls that fail or are answered from a record. */
  function FirstSuccesses(st: Store, trace: seq<Step>): seq<Step>
    decreases |trace|
  {
    if trace == [] then []
    else
      (if IsFirstSuccess(st, trace[0]) || trace[0].Cleanup? then [trace[0]] else [])
      + FirstSuccesses(Apply(st, trace[0]), trace[1..])
  }

  function Calls(trace: seq<Step>): nat {
    if trace == [] then 0 else Calls(trace[1..]) + if trace[0].Do? then 1 else 0
  }

  /**
   No trace of a failure: leaving out every failed or replayed call of a run
   leads to the same store, and each call that remains commits one effect.
  */
  lemma {:induction false} OnlyFirstSuccessesMatter(st: Store, trace: seq<Step>)
    ensures Run(st, FirstSuccesses(st, trace)) == Run(st, trace)
    ensures |Run(st, trace).effects| == |st.effects| + Calls(FirstSuccesses(st, trace))
    decreases |trace|
  {
    if trace != [] {
      var step, rest := trace[0], FirstSuccesses(Apply(st, trace[0]), trace[1..]);
      OnlyFirstSuccessesMatter(Apply(st, step), trace[1..]);
      if IsFirstSuccess(st, step) || step.Cleanup? {
        assert ([step] + rest)[0] == step && ([step] + rest)[1..] == rest;
      } else {
        FailedOrReplayedLeavesNoTrace(st, step.call);
        assert [] + rest == rest;
      }
    }
  }

  lemma {:induction false} RecordsStayComplete(st: Store, trace: seq<Step>)
    requires Complete(st)
    ensures Complete(Run(st, trace))
    decreases |trace|
  {
    if trace != [] {
      if trace[0].Do? && trace[0].call.outcome.Returns? {
        SerialisedItemsAreJson(trace[0].call.outcome.body);
      }
      RecordsStayComplete(Apply(st, trace[0]), trace[1..]);
    }
  }

  lemma StepBalance(st: Store, step: Step, at: RecordKey)
    ensures
      var t := Apply(st, step);
      EffectsOf(t.effects, at) + (if at in st.records then 1 else 0)
        == EffectsOf(st.effects, at) + (if Removes(st, step, at) then 1 else 0) + (if at in t.records then 1 else 0)
  {
    var t := Apply(st, step);
    if |t.effects| > |st.effects| {
      assert t.effects[..|t.effects| - 1] == st.effects;
    }
  }

  /**
   Conservation over any run: the effects of a key are its present record plus
   the records of it that were cleaned up.
  */
  lemma {:induction false} EffectsBalance(st: Store, trace: seq<Step>, at: RecordKey)
    ensures EffectsOf(Run(st, trace).effects, at) + (if at in st.records then 1 else 0)
         == EffectsOf(st.effects, at) + Removals(st, trace, at) + (if at in Run(st, trace).records then 1 else 0)
    decreases |trace|
  {
    if trace != [] {
      StepBalance(st, trace[0], at);
      EffectsBalance(Apply(st, trace[0]), trace[1..], at);
    }
  }

  /** Starting from an empty table, a key that was never cleaned up has committed its effect at most once. */
  lemma AtMostOnce(trace: seq<Step>, at: RecordKey)
    requires Removals(Store(map[], []), trace, at) == 0
    ensures EffectsOf(Run(Store(map[], []), trace).effects, at) <= 1
  {
    EffectsBalance(Store(map[], []), trace, at);
  }

  lemma {:induction false} RecordIsKept(st: Store, trace: seq<Step>, at: RecordKey)
    requires at in st.records && Removals(st, trace, at) == 0
    ensures at in Run(st, trace).records && Run(st, trace).records[at] == st.records[at]
    decreases |trace|
  {
    if trace != [] {
      RecordIsKept(Apply(st, trace[0]), trace[1..], at);
    }
  }

  /**
   After a first success, and any run that does not clean the key up, the same
   payload gets the serialised first response and any other payload is refused;
   either way nothing changes, and serialising the replay again changes nothing.
  */
  lemma FirstResponseIsFinal(st: Store, first: Call, trace: seq<Step>, again: Call)
    requires Execute(st, first).1.Ok? && !Execute(st, first).1.value.replayed
    requires again.scope == first.scope && again.key == first.key
    requires Removals(Execute(st, first).0, trace, (first.scope, first.key.value)) == 0
    ensures
      var later := Run(Execute(st, first).0, trace);
      var reply := Execute(st, first).1.value;
      && Execute(later, again).0 == later
      && (again.payload == first.payload ==>
            Execute(later, again).1 == Ok(Reply(reply.status, SerialiseItems(reply.body), true)))
      && (again.payload != first.payload ==> Execute(later, again).1 == Err(PayloadConflict))
      && SerialiseItems(SerialiseItems(reply.body)) == SerialiseItems(reply.body)
  {
    RecordIsKept(Execute(st, first).0, trace, (first.scope, first.key.value));
    SerialisedItemsAreJson(Execute(st, first).1.value.body);
    JsonItemsAreFixed(SerialiseItems(Execute(st, first).1.value.body));
  }

  /** A record outlives every clean-up of the next 24 hours, so FirstResponseIsFinal holds at least that long. */
  lemma {:induction false} RecordLastsADay(st: Store, trace: seq<Step>, at: RecordKey, since: int)
    requires at in st.records && st.records[at].expiresAt >= since + 86400
    requires forall i :: 0 <= i < |trace| && trace[i].Cleanup? ==> trace[i].now <= since + 86400
    ensures Removals(st, trace, at) == 0
    decreases |trace|
  {
    if trace != [] {
      RecordLastsADay(Apply(st, trace[0]), trace[1..], at, since);
    }
  }

  /** A first success writes a record for a day; a clean-up after that frees the key again. */
  lemma FirstSuccessLastsADay(st: Store, first: Call, trace: seq<Step>)
    requires Execute(st, first).1.Ok? && !Execute(st, first).1.value.replayed
    requires forall i :: 0 <= i < |trace| && trace[i].Cleanup? ==> trace[i].now <= first.now + 86400
    ensures Removals(Execute(st, first).0, trace, (first.scope, first.key.value)) == 0
    ensures forall late, batch :: late > first.now + 86400 && (first.scope, first.key.value) in batch ==>
              (first.scope, first.key.value) !in Apply(Execute(st, first).0, Cleanup(late, batch)).records
  {
    RecordLastsADay(Execute(st, first).0, trace, (first.scope, first.key.value), first.now);
  }

  // ---------------------------------------------------------------- the service

  /** idempotent_execute against its table; a rolled-back transaction restores both fields. */
  class Executor {
    var records: map<RecordKey, Record>
    var effects: seq<Effect>

    constructor ()
      ensures records == map[] && effects == []
    {
      records, effects := map[], [];
    }

    method IdempotentExecute(c: Call) returns (r: Result<Reply, Error>)
      modifies this
      ensures (Store(records, effects), r) == Execute(Store(old(records), old(effects)), c)
      ensures (c.key.None? || c.key.value == "") <==> r == Err(KeyRequired)
      ensures c.key.Some? && |c.key.value| > 128 <==> r == Err(KeyTooLong)
      ensures c.key.Some? && 0 < |c.key.value| <= 128 ==>
                var at := (c.scope, c.key.value);
                if at in old(records) then
                  var was := old(records)[at];
                  r == if was.payload != c.payload then Err(PayloadConflict)
                       else if was.status.None? then Err(InProgress)
                       else Ok(Reply(was.status.value, was.body, true))
                else match c.outcome
                  case Raises => r == Err(FunctionFailed)
                  case HitsDuplicateKey => r == Err(InProgress)
                  case Returns(status, body) =>
                    && r == Ok(Reply(status, body, false)) && effects == old(effects) + [Effect(at, status, body)]
                    && records
                       == old(records)[at := Record(c.payload, Some(status), SerialiseItems(body), c.now + 86400)]
      ensures r.Err? || r.value.replayed ==> records == old(records) && effects == old(effects)
    {
      if c.key.None? || c.key.value == "" {
        return Err(KeyRequired);
      }
      if |c.key.value| > KEY_LIMIT {
        return Err(KeyTooLong);
      }
      var at := (c.scope, c.key.value);
      if at in records {
        var existing := records[at];
        if existing.payload != c.payload {
          return Err(PayloadConflict);
        }
        if existing.status.None? {
          return Err(InProgress);
        }
        return Ok(Reply(existing.status.value, existing.body, true));
      }
      var savepoint := records;
      records := records[at := Record(c.payload, None, [], c.now + TTL)];
      match c.outcome
      case Raises =>
        records := savepoint;
        r := Err(FunctionFailed);
      case HitsDuplicateKey =>
        records := savepoint;
        r := Err(InProgress);
      case Returns(status, body) =>
        effects := effects + [Effect(at, status, body)];
        records := records[at := records[at].(status := Some(status), body := SerialiseItems(body))];
        assert records == savepoint[at := Record(c.payload, Some(status), SerialiseItems(body), c.now + TTL)];
        r := Ok(Reply(status, body, false));
    }
  }
}
