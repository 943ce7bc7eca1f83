/**
 The data-acquisition entry.  A report passes protocol, batch and rate checks,
 then a first dedup layer on (gateway, message id) and, point by point, a second
 one on (point, device time); accepted readings may raise alarms.
*/
module Ingest {
  import opened Common
  import AlarmLedger

  type Alarms = seq<AlarmLedger.Alarm>

  /** Microseconds. */
  const MINUTE: int := 60 * 1000000
  const DEFAULT_BATCH_LIMIT := 200
  const MESSAGE_ID_LIMIT := 64

  datatype Protocol = Http | Simulator | Mqtt | Modbus

  datatype Connection = Connection(
      isEnabled: bool, protocol: Protocol, batchLimit: nat, rateLimit: nat, isSimulated: bool)

  /** Values and limits are scaled integers. */
  datatype Point = Point(id: nat, upper: Option<int>, lower: Option<int>, alarmEnabled: bool)

  /** `points` holds the active points by code. */
  datatype Gateway = Gateway(
    company: nat, code: string, isActive: bool, isSimulated: bool, connection: Option<Connection>,
    points: map<string, Point>)

  datatype Item = NotObject | Item(code: string, value: Option<int>)

  datatype Stamp = Absent | Malformed | At(time: int)

  datatype Report = Report(
      isJsonObject: bool, messageId: string, points: Option<seq<Item>>, deviceTime: Stamp, simulated: bool)

  datatype MessageStatus = Received | Processed | Duplicated | Failed

  datatype Message = Message(
    gateway: nat, messageId: string, receivedAt: int, deviceTime: int, pointCount: nat, status: MessageStatus,
    isSimulated: bool)

  datatype Reading = Reading(point: nat, deviceTime: int, receivedAt: int, value: int, message: nat, isSimulated: bool)

  datatype Problem = NotAnObject | UnknownPoint(code: string) | BadValue(code: string) | AlreadyRead(code: string)

  datatype Error =
    | NotAuthenticated | PayloadInvalid | ConnectionDisabled | ProtocolNotImplemented | MessageIdRequired
    | PointsRequired | BatchTooLarge | RateLimitExceeded | DeviceTimeInvalid

  datatype Summary = Summary(status: MessageStatus, accepted: nat, skipped: int, alarms: nat, problems: seq<Problem>)

  /** `seenAt` is last_seen_at; a gateway in it is online. */
  datatype Db = Db(messages: seq<Message>, readings: seq<Reading>, alarms: Alarms, seenAt: map<nat, int>)

  // ---------------------------------------------------------------- the checks before anything is stored

  function StoredId(messageId: string): string {
    if |messageId| <= MESSAGE_ID_LIMIT then messageId else messageId[..MESSAGE_ID_LIMIT]
  }

  /** Messages of the gateway received at or after `since`: there is no upper bound in the query. */
  function ReceivedSince(messages: seq<Message>, gateway: nat, since: int): nat {
    if messages == [] then 0
    else
      var m := messages[|messages| - 1];
      ReceivedSince(messages[..|messages| - 1], gateway, since)
        + if m.gateway == gateway && m.receivedAt >= since then 1 else 0
  }

  /** These messages themselves. */
  function ReceivedFrom(messages: seq<Message>, gateway: nat, since: int): seq<Message> {
    if messages == [] then []
    else
      var m := messages[|messages| - 1];
      ReceivedFrom(messages[..|messages| - 1], gateway, since)
        + if m.gateway == gateway && since <= m.receivedAt then [m] else []
  }

  lemma {:induction false} ReceivedSinceCounts(messages: seq<Message>, gateway: nat, since: int)
    ensures ReceivedSince(messages, gateway, since) == |ReceivedFrom(messages, gateway, since)|
  {
    if messages != [] {
      ReceivedSinceCounts(messages[..|messages| - 1], gateway, since);
    }
  }

  predicate RateExceeded(messages: seq<Message>, gateway: nat, c: Option<Connection>, now: int) {
    c.Some? && c.value.rateLimit > 0 && ReceivedSince(messages, gateway, now - MINUTE) >= c.value.rateLimit
  }

  function BatchLimit(c: Option<Connection>): nat {
    if c.Some? then c.value.batchLimit else DEFAULT_BATCH_LIMIT
  }

  function Check(gateways: map<nat, Gateway>, db: Db, g: nat, report: Report, now: int): Option<Error> {
    if g !in gateways || !gateways[g].isActive then Some(NotAuthenticated)
    else
      var c := gateways[g].connection;
      if !report.isJsonObject then Some(PayloadInvalid)
      else if c.Some? && !c.value.isEnabled then Some(ConnectionDisabled)
      else if c.Some? && c.value.protocol != Http && c.value.protocol != Simulator then Some(ProtocolNotImplemented)
      else if report.messageId == "" then Some(MessageIdRequired)
      else if report.points.None? || report.points.value == [] then Some(PointsRequired)
      else if |report.points.value| > BatchLimit(c) then Some(BatchTooLarge)
      else if RateExceeded(db.messages, g, c, now) then Some(RateLimitExceeded)
      else if report.deviceTime.Malformed? then Some(DeviceTimeInvalid)
      else None
  }

  // ---------------------------------------------------------------- what a refusal tells the sender

  /** What each refusal says of the report, whichever other faults it has. */
  predicate IsFault(e: Error, gateways: map<nat, Gateway>, db: Db, g: nat, report: Report, now: int) {
    if g !in gateways then e == NotAuthenticated
    else
      var gw, c := gateways[g], gateways[g].connection;
      match e
      case NotAuthenticated => !gw.isActive
      case PayloadInvalid => !report.isJsonObject
      case ConnectionDisabled => c.Some? && !c.value.isEnabled
      case ProtocolNotImplemented => c.Some? && c.value.protocol != Http && c.value.protocol != Simulator
      case MessageIdRequired => report.messageId == ""
      case PointsRequired => report.points.None? || report.points.value == []
      case BatchTooLarge =>
        report.points.Some? && |report.points.value| > if c.Some? then c.value.batchLimit else 200
      case RateLimitExceeded => RateExceeded(db.messages, g, c, now)
      case DeviceTimeInvalid => report.deviceTime.Malformed?
  }

  /** The order in which faults are looked for. */
  function Turn(e: Error): nat {
    match e
    case NotAuthenticated => 0
    case PayloadInvalid => 1
    case ConnectionDisabled => 2
    case ProtocolNotImplemented => 3
    case MessageIdRequired => 4
    case PointsRequired => 5
    case BatchTooLarge => 6
    case RateLimitExceeded => 7
    case DeviceTimeInvalid => 8
  }

  /** A report is refused exactly when it has some fault, and for the first of those it has. */
  lemma RefusedIffFaulty(gateways: map<nat, Gateway>, db: Db, g: nat, report: Report, now: int)
    ensures Check(gateways, db, g, report, now).Some? <==> exists e :: IsFault(e, gateways, db, g, report, now)
    ensures var refused := Check(gateways, db, g, report, now);
            refused.Some? ==>
              && IsFault(refused.value, gateways, db, g, report, now)
              && forall e :: IsFault(e, gateways, db, g, report, now) ==> Turn(refused.value) <= Turn(e)
  {
    var refused := Check(gateways, db, g, report, now);
    if refused.Some? {
      assert IsFault(refused.value, gateways, db, g, report, now);
    }
  }

  /**
   Sending a refused report again, at any time and whatever was stored
   meanwhile: a fault of its own is answered alike, a malformed time possibly by
   the rate limit instead, and a rate limit lifts once the gateway has been quiet for
   a minute.
  */
  lemma RetryAfterRefusal(gateways: map<nat, Gateway>, db: Db, db': Db, g: nat, report: Report, now: int, now': int)
    requires Check(gateways, db, g, report, now).Some?
    ensures
      var e, retry := Check(gateways, db, g, report, now).value, Check(gateways, db', g, report, now');
      match e
      case DeviceTimeInvalid => retry == Some(DeviceTimeInvalid) || retry == Some(RateLimitExceeded)
      case RateLimitExceeded =>
        ReceivedSince(db'.messages, g, now' - MINUTE) == 0 ==>
          retry == if report.deviceTime.Malformed? then Some(DeviceTimeInvalid) else None
      case _ => retry == Some(e)
  {
  }

  // ---------------------------------------------------------------- one point

  predicate HasReading(readings: seq<Reading>, point: nat, t: int) {
    exists i :: 0 <= i < |readings| && readings[i].point == point && readings[i].deviceTime == t
  }

  function LimitCall(g: Gateway, code: string, t: int): AlarmLedger.Call {
    AlarmLedger.Call(
      AlarmLedger.Key(g.company, AlarmLedger.OverLimit, None, "iot:" + g.code + ":" + code), t, Some(AlarmLedger.HOUR))
  }

  /** evaluate_point_limits: the two checks share one dedup key. */
  function EvaluateLimits(alarms: Alarms, g: Gateway, code: string, p: Point, value: int, t: int): Alarms {
    if !p.alarmEnabled then alarms
    else
      var call := LimitCall(g, code, t);
      var high := if p.upper.Some? && value > p.upper.value then AlarmLedger.Raise(alarms, call) else alarms;
      if p.lower.Some? && value < p.lower.value then AlarmLedger.Raise(high, LimitCall(g, code, t)) else high
  }

  datatype Progress = Progress(readings: seq<Reading>, alarms: Alarms, accepted: nat, problems: seq<Problem>)

  /** What the points of one message have in common. */
  datatype Context = Context(gateway: Gateway, deviceTime: int, receivedAt: int, message: nat, isSimulated: bool)

  function TakeItem(p: Progress, ctx: Context, item: Item): Progress {
    if item.NotObject? then p.(problems := p.problems + [NotAnObject])
    else if item.code !in ctx.gateway.points then p.(problems := p.problems + [UnknownPoint(item.code)])
    else if item.value.None? then p.(problems := p.problems + [BadValue(item.code)])
    else
      var point := ctx.gateway.points[item.code];
      if HasReading(p.readings, point.id, ctx.deviceTime) then p.(problems := p.problems + [AlreadyRead(item.code)])
      else
        p.(readings := p.readings
             + [Reading(point.id, ctx.deviceTime, ctx.receivedAt, item.value.value, ctx.message, ctx.isSimulated)],
           alarms := EvaluateLimits(p.alarms, ctx.gateway, item.code, point, item.value.value, ctx.deviceTime),
           accepted := p.accepted + 1)
  }

  function TakeItems(p: Progress, ctx: Context, items: seq<Item>): Progress {
    if items == [] then p else TakeItem(TakeItems(p, ctx, items[..|items| - 1]), ctx, items[|items| - 1])
  }

  // ---------------------------------------------------------------- one report, and runs

  predicate SeenBefore(messages: seq<Message>, gateway: nat, id: string) {
    exists i :: 0 <= i < |messages| && messages[i].gateway == gateway && messages[i].messageId == id
  }

  function EffectiveTime(report: Report, now: int): int {
    if report.deviceTime.At? then report.deviceTime.time else now
  }

  function ContextOf(gateways: map<nat, Gateway>, db: Db, g: nat, report: Report, now: int): Context
    requires g in gateways
  {
    var c := gateways[g].connection;
    Context(gateways[g], EffectiveTime(report, now), now, |db.messages|,
            report.simulated || gateways[g].isSimulated || (c.Some? && c.value.isSimulated))
  }

  function NewMessage(g: nat, report: Report, ctx: Context, status: MessageStatus): Message
    requires report.points.Some?
  {
    Message(g, StoredId(report.messageId), ctx.receivedAt, ctx.deviceTime, |report.points.value|, status,
      ctx.isSimulated)
  }

  function Ingest(gateways: map<nat, Gateway>, db: Db, g: nat, report: Report, now: int): (Db, Result<Summary, Error>) {
    var refused := Check(gateways, db, g, report, now);
    if refused.Some? then (db, Err(refused.value))
    else
      var ctx := ContextOf(gateways, db, g, report, now);
      var items := report.points.value;
      if SeenBefore(db.messages, g, StoredId(report.messageId)) then
        (db.(messages := db.messages + [NewMessage(g, report, ctx, Duplicated)]),
         Ok(Summary(Duplicated, 0, |items|, 0, [])))
      else
        var p := TakeItems(Progress(db.readings, db.alarms, 0, []), ctx, items);
        var status := if p.accepted > 0 then Processed else Failed;
        (Db(db.messages + [NewMessage(g, report, ctx, status)], p.readings, p.alarms, db.seenAt[g := now]),
         Ok(Summary(status, p.accepted, |items| - p.accepted, Max(0, |p.alarms| - |db.alarms|), p.problems)))
  }

  datatype Submission = Submission(gateway: nat, report: Report, now: int)

  function Run(gateways: map<nat, Gateway>, db: Db, subs: seq<Submission>): Db
    decreases |subs|
  {
    if subs == [] then db
    else Run(gateways, Ingest(gateways, db, subs[0].gateway, subs[0].report, subs[0].now).0, subs[1..])
  }

  // ---------------------------------------------------------------- the rate limit over a run

  function ReceivedWithin(messages: seq<Message>, gateway: nat, from: int): nat {
    if messages == [] then 0
    else
      var m := messages[|messages| - 1];
      ReceivedWithin(messages[..|messages| - 1], gateway, from)
        + if m.gateway == gateway && from <= m.receivedAt <= from + MINUTE then 1 else 0
  }

  /** Every closed minute, wherever it starts, holds at most `limit` stored messages of the gateway. */
  ghost predicate MinuteLimited(messages: seq<Message>, gateway: nat, limit: nat) {
    forall from :: ReceivedWithin(messages, gateway, from) <= limit
  }

  lemma {:induction false} WithinIsSince(messages: seq<Message>, gateway: nat, from: int, since: int)
    requires since <= from
    ensures ReceivedWithin(messages, gateway, from) <= ReceivedSince(messages, gateway, since)
  {
    if messages != [] {
      WithinIsSince(messages[..|messages| - 1], gateway, from, since);
    }
  }

  lemma IngestKeepsLimit(gateways: map<nat, Gateway>, db: Db, sub: Submission, g: nat, limit: nat)
    requires g in gateways && gateways[g].connection.Some? && gateways[g].connection.value.rateLimit == limit > 0
    requires MinuteLimited(db.messages, g, limit)
    ensures MinuteLimited(Ingest(gateways, db, sub.gateway, sub.report, sub.now).0.messages, g, limit)
  {
    var after := Ingest(gateways, db, sub.gateway, sub.report, sub.now).0.messages;
    if after != db.messages {
      assert after[..|after| - 1] == db.messages;
      forall from
        ensures ReceivedWithin(after, g, from) <= limit
      {
        if sub.gateway == g && from <= sub.now <= from + MINUTE {
          WithinIsSince(db.messages, g, from, sub.now - MINUTE);
        }
      }
    }
  }

  /**
   The sliding window: although a call only counts back from its own receive
   time, no closed minute anywhere in the run exceeds the limit, in whatever
   order the receive times come.
  */
  lemma {:induction false} SlidingWindow(gateways: map<nat, Gateway>, db: Db, subs: seq<Submission>, g: nat, limit: nat)
    requires g in gateways && gateways[g].connection.Some? && gateways[g].connection.value.rateLimit == limit > 0
    requires MinuteLimited(db.messages, g, limit)
    ensures MinuteLimited(Run(gateways, db, subs).messages, g, limit)
    decreases |subs|
  {
    if subs != [] {
      IngestKeepsLimit(gateways, db, subs[0], g, limit);
      var after := Ingest(gateways, db, subs[0].gateway, subs[0].report, subs[0].now).0;
      SlidingWindow(gateways, after, subs[1..], g, limit);
    }
  }

  // ---------------------------------------------------------------- both dedup layers over a run

  ghost predicate ReadingsUnique(readings: seq<Reading>) {
    forall i, j :: 0 <= i < j < |readings| ==>
      readings[i].point != readings[j].point || readings[i].deviceTime != readings[j].deviceTime
  }

  /** The earliest message of an id is the only one that is not marked as a duplicate. */
  ghost predicate EarliestIsOriginal(messages: seq<Message>) {
    forall i :: 0 <= i < |messages| ==>
      (messages[i].status == Duplicated <==> SeenBefore(messages[..i], messages[i].gateway, messages[i].messageId))
  }

  lemma {:induction false} TakeItemsEffect(p: Progress, ctx: Context, items: seq<Item>)
    ensures
      var q := TakeItems(p, ctx, items);
      && (ReadingsUnique(p.readings) ==> ReadingsUnique(q.readings))
      && p.readings <= q.readings
      && p.alarms <= q.alarms
      && |q.readings| - |p.readings| == q.accepted - p.accepted >= 0
      && (q.accepted - p.accepted) + (|q.problems| - |p.problems|) == |items|
      && p.problems <= q.problems
  {
    if items != [] {
      TakeItemsEffect(p, ctx, items[..|items| - 1]);
    }
  }

  lemma IngestKeepsUnique(gateways: map<nat, Gateway>, db: Db, g: nat, report: Report, now: int)
    requires ReadingsUnique(db.readings) && EarliestIsOriginal(db.messages)
    ensures
      var after := Ingest(gateways, db, g, report, now).0;
      && ReadingsUnique(after.readings) && EarliestIsOriginal(after.messages)
      && db.readings <= after.readings && db.messages <= after.messages && db.alarms <= after.alarms
  {
    var after := Ingest(gateways, db, g, report, now).0;
    if Check(gateways, db, g, report, now).None? {
      TakeItemsEffect(Progress(db.readings, db.alarms, 0, []), ContextOf(gateways, db, g, report, now),
        report.points.value);
      forall i | 0 <= i < |after.messages|
        ensures after.messages[i].status == Duplicated
           <==> SeenBefore(after.messages[..i], after.messages[i].gateway, after.messages[i].messageId)
      {
        assert after.messages[..i] == db.messages[..i];
        assert i == |db.messages| ==> db.messages[..i] == db.messages;
      }
    }
  }

  lemma {:induction false} DedupHolds(gateways: map<nat, Gateway>, db: Db, subs: seq<Submission>)
    requires ReadingsUnique(db.readings) && EarliestIsOriginal(db.messages)
    ensures ReadingsUnique(Run(gateways, db, subs).readings) && EarliestIsOriginal(Run(gateways, db, subs).messages)
    ensures db.readings <= Run(gateways, db, subs).readings
    decreases |subs|
  {
    if subs != [] {
      var sub := subs[0];
      IngestKeepsUnique(gateways, db, sub.gateway, sub.report, sub.now);
      DedupHolds(gateways, Ingest(gateways, db, sub.gateway, sub.report, sub.now).0, subs[1..]);
    }
  }

  /** A refused report leaves nothing behind; a stored one accounts for each of its points. */
  lemma ReportAccounting(gateways: map<nat, Gateway>, db: Db, g: nat, report: Report, now: int)
    ensures
      var (after, answer) := Ingest(gateways, db, g, report, now);
      && (answer.Err? ==> after == db)
      && (answer.Ok? ==> |after.messages| == |db.messages| + 1 && report.points.Some?)
      && (answer.Ok? && answer.value.status == Duplicated ==>
            after.readings == db.readings && after.alarms == db.alarms && after.seenAt == db.seenAt)
      && (answer.Ok? && answer.value.status != Duplicated ==>
            && answer.value.accepted + |answer.value.problems| == |report.points.value|
            && |after.readings| == |db.readings| + answer.value.accepted
            && |after.alarms| == |db.alarms| + answer.value.alarms
            && (answer.value.status == Processed <==> answer.value.accepted > 0))
  {
    if Check(gateways, db, g, report, now).None? {
      TakeItemsEffect(Progress(db.readings, db.alarms, 0, []), ContextOf(gateways, db, g, report, now),
        report.points.value);
    }
  }

  // ---------------------------------------------------------------- sending a report again

  predicate Storable(g: Gateway, item: Item) {
    item.Item? && item.code in g.points && item.value.Some?
  }

  /** Every point of the report that can be stored has been, at this device time. */
  ghost predicate AllStored(readings: seq<Reading>, g: Gateway, items: seq<Item>, t: int) {
    forall i :: 0 <= i < |items| && Storable(g, items[i]) ==> HasReading(readings, g.points[items[i].code].id, t)
  }

  lemma HasReadingGrows(readings: seq<Reading>, more: seq<Reading>, point: nat, t: int)
    requires readings <= more && HasReading(readings, point, t)
    ensures HasReading(more, point, t)
  {
    var i :| 0 <= i < |readings| && readings[i].point == point && readings[i].deviceTime == t;
    assert more[i] == readings[i];
  }

  lemma {:induction false} TakeItemsStores(p: Progress, ctx: Context, items: seq<Item>)
    ensures AllStored(TakeItems(p, ctx, items).readings, ctx.gateway, items, ctx.deviceTime)
  {
    if items != [] {
      var before := TakeItems(p, ctx, items[..|items| - 1]);
      var after := TakeItems(p, ctx, items);
      TakeItemsStores(p, ctx, items[..|items| - 1]);
      forall i | 0 <= i < |items| && Storable(ctx.gateway, items[i])
        ensures HasReading(after.readings, ctx.gateway.points[items[i].code].id, ctx.deviceTime)
      {
        if i < |items| - 1 {
          assert items[..|items| - 1][i] == items[i];
          HasReadingGrows(before.readings, after.readings, ctx.gateway.points[items[i].code].id, ctx.deviceTime);
        } else if !HasReading(before.readings, ctx.gateway.points[items[i].code].id, ctx.deviceTime) {
          assert after.readings[|before.readings|].point == ctx.gateway.points[items[i].code].id;
        }
      }
    }
  }

  lemma {:induction false} NothingNewToTake(p: Progress, ctx: Context, items: seq<Item>)
    requires AllStored(p.readings, ctx.gateway, items, ctx.deviceTime)
    ensures
      var q := TakeItems(p, ctx, items);
      q.readings == p.readings && q.alarms == p.alarms && q.accepted == p.accepted
  {
    if items != [] {
      var before := items[..|items| - 1];
      assert forall i :: 0 <= i < |before| ==> before[i] == items[i];
      NothingNewToTake(p, ctx, before);
    }
  }

  /**
   Re-sending a report that was taken once adds no reading and no alarm, after
   any further run, even under a new message id and at any receive time, as
   long as it names the same device time.
  */
  lemma ResendIsHarmless(
      gateways: map<nat, Gateway>, db: Db, first: Submission, subs: seq<Submission>, again: Submission)
    requires
      var answer := Ingest(gateways, db, first.gateway, first.report, first.now).1;
      answer.Ok? && answer.value.status != Duplicated
    requires again.gateway == first.gateway && again.report.points == first.report.points
    requires again.report.deviceTime == At(EffectiveTime(first.report, first.now))
    ensures
      var taken := Ingest(gateways, db, first.gateway, first.report, first.now).0;
      var later := Run(gateways, taken, subs);
      var after := Ingest(gateways, later, again.gateway, again.report, again.now).0;
      after.readings == later.readings && after.alarms == later.alarms
  {
    var g, items := gateways[first.gateway], first.report.points.value;
    var taken := Ingest(gateways, db, first.gateway, first.report, first.now).0;
    var t := EffectiveTime(first.report, first.now);
    TakeItemsStores(Progress(db.readings, db.alarms, 0, []),
                    ContextOf(gateways, db, first.gateway, first.report, first.now), items);
    assert AllStored(taken.readings, g, items, t);
    ReadingsOnlyGrow(gateways, taken, subs);
    var later := Run(gateways, taken, subs);
    forall i | 0 <= i < |items| && Storable(g, items[i])
      ensures HasReading(later.readings, g.points[items[i].code].id, t)
    {
      HasReadingGrows(taken.readings, later.readings, g.points[items[i].code].id, t);
    }
    if Check(gateways, later, again.gateway, again.report, again.now).None? {
      NothingNewToTake(Progress(later.readings, later.alarms, 0, []),
                       ContextOf(gateways, later, again.gateway, again.report, again.now), items);
    }
  }

  lemma {:induction false} ReadingsOnlyGrow(gateways: map<nat, Gateway>, db: Db, subs: seq<Submission>)
    ensures db.readings <= Run(gateways, db, subs).readings
    decreases |subs|
  {
    if subs != [] {
      var sub := subs[0];
      var after := Ingest(gateways, db, sub.gateway, sub.report, sub.now).0;
      if Check(gateways, db, sub.gateway, sub.report, sub.now).None? {
        TakeItemsEffect(Progress(db.readings, db.alarms, 0, []),
                        ContextOf(gateways, db, sub.gateway, sub.report, sub.now), sub.report.points.value);
      }
      ReadingsOnlyGrow(gateways, after, subs[1..]);
    }
  }

  // ---------------------------------------------------------------- which readings raise an alarm

  predicate BreaksLimit(p: Point, value: int) {
    p.alarmEnabled && ((p.upper.Some? && value > p.upper.value) || (p.lower.Some? && value < p.lower.value))
  }

  /** The key under which the alarms of a point are stored. */
  function PointKey(gw: Gateway, code: string): AlarmLedger.Key {
    AlarmLedger.Key(gw.company, AlarmLedger.OverLimit, None, "iot:" + gw.code + ":" + code)
  }

  /** There is an alarm of the point from an hour before `t` on. */
  ghost predicate HasAlarmSince(alarms: Alarms, key: AlarmLedger.Key, t: int) {
    exists a :: 0 <= a < |alarms| && alarms[a].key == key && alarms[a].occurredAt >= t - 3600 * 1000000
  }

  lemma RaiseMeans(alarms: Alarms, gw: Gateway, code: string, t: int)
    requires |gw.code| <= CODE_LIMIT && |code| <= CODE_LIMIT
    ensures
      var after := AlarmLedger.Raise(alarms, LimitCall(gw, code, t));
      && HasAlarmSince(after, PointKey(gw, code), t)
      && (after == alarms || after == alarms + [AlarmLedger.Alarm(PointKey(gw, code), t)])
  {
    var after := AlarmLedger.Raise(alarms, LimitCall(gw, code, t));
    if after != alarms {
      assert after[|alarms|].key == PointKey(gw, code);
    }
  }

  /** One reading: inside its limits it raises nothing; outside there is an alarm of the hour before it or later. */
  lemma LimitsMean(alarms: Alarms, gw: Gateway, code: string, p: Point, value: int, t: int)
    requires |gw.code| <= CODE_LIMIT && |code| <= CODE_LIMIT
    ensures
      var after := EvaluateLimits(alarms, gw, code, p, value, t);
      && (!BreaksLimit(p, value) ==> after == alarms)
      && (BreaksLimit(p, value) ==> HasAlarmSince(after, PointKey(gw, code), t))
      && alarms <= after
      && forall a :: |alarms| <= a < |after| ==> after[a] == AlarmLedger.Alarm(PointKey(gw, code), t)
  {
    RaiseMeans(alarms, gw, code, t);
    RaiseMeans(AlarmLedger.Raise(alarms, LimitCall(gw, code, t)), gw, code, t);
  }

  ghost predicate IsAnsweredAt(gw: Gateway, code: string, r: Reading, alarms: Alarms) {
    && code in gw.points && gw.points[code].id == r.point
    && (BreaksLimit(gw.points[code], r.value) ==> HasAlarmSince(alarms, PointKey(gw, code), r.deviceTime))
  }

  /** The reading is of a known point; if it breaks a limit there is an alarm no earlier than an hour before. */
  ghost predicate IsAnswered(gateways: map<nat, Gateway>, r: Reading, alarms: Alarms) {
    exists g, code :: g in gateways && IsAnsweredAt(gateways[g], code, r, alarms)
  }

  predicate IsCausedAt(gw: Gateway, code: string, r: Reading, a: AlarmLedger.Alarm) {
    && code in gw.points && gw.points[code].id == r.point && BreaksLimit(gw.points[code], r.value)
    && a.key == PointKey(gw, code) && a.occurredAt == r.deviceTime
  }

  /** The alarm has the key and the device time of a reading that breaks a limit. */
  ghost predicate IsCaused(gateways: map<nat, Gateway>, readings: seq<Reading>, from: nat, a: AlarmLedger.Alarm) {
    exists i, g, code :: from <= i < |readings| && g in gateways && IsCausedAt(gateways[g], code, readings[i], a)
  }

  /** Of the readings from r0 on and the alarms from a0 on: each reading is answered, each alarm has a cause. */
  ghost predicate AlarmsFit(gateways: map<nat, Gateway>, readings: seq<Reading>, alarms: Alarms, r0: nat, a0: nat) {
    && (forall i :: r0 <= i < |readings| ==> IsAnswered(gateways, readings[i], alarms))
    && (forall a :: a0 <= a < |alarms| ==> IsCaused(gateways, readings, r0, alarms[a]))
  }

  lemma AnsweredGrows(gateways: map<nat, Gateway>, r: Reading, alarms: Alarms, more: Alarms)
    requires IsAnswered(gateways, r, alarms) && alarms <= more
    ensures IsAnswered(gateways, r, more)
  {
    var g, code :| g in gateways && IsAnsweredAt(gateways[g], code, r, alarms);
    var key := PointKey(gateways[g], code);
    if HasAlarmSince(alarms, key, r.deviceTime) {
      var a :| 0 <= a < |alarms| && alarms[a].key == key && alarms[a].occurredAt >= r.deviceTime - 3600 * 1000000;
      assert more[a] == alarms[a];
      assert HasAlarmSince(more, key, r.deviceTime);
    }
    assert IsAnsweredAt(gateways[g], code, r, more);
  }

  lemma CauseLasts(
      gateways: map<nat, Gateway>, readings: seq<Reading>, more: seq<Reading>, r0: nat, a: AlarmLedger.Alarm)
    requires IsCaused(gateways, readings, r0, a) && readings <= more
    ensures IsCaused(gateways, more, r0, a)
  {
    var i, g, code :| r0 <= i < |readings| && g in gateways && IsCausedAt(gateways[g], code, readings[i], a);
    assert more[i] == readings[i];
  }

  /** One accepted reading. */
  lemma ReadingFits(
      gateways: map<nat, Gateway>, g: nat, code: string, readings: seq<Reading>, alarms: Alarms, r: Reading, r0: nat,
      a0: nat)
    requires AlarmsFit(gateways, readings, alarms, r0, a0) && r0 <= |readings| && a0 <= |alarms|
    requires g in gateways && CodesFit(gateways[g]) && code in gateways[g].points
    requires r.point == gateways[g].points[code].id
    ensures
      var after := EvaluateLimits(alarms, gateways[g], code, gateways[g].points[code], r.value, r.deviceTime);
      AlarmsFit(gateways, readings + [r], after, r0, a0)
  {
    var gw := gateways[g];
    var after := EvaluateLimits(alarms, gw, code, gw.points[code], r.value, r.deviceTime);
    LimitsMean(alarms, gw, code, gw.points[code], r.value, r.deviceTime);
    forall i | r0 <= i < |readings + [r]|
      ensures IsAnswered(gateways, (readings + [r])[i], after)
    {
      if i < |readings| {
        AnsweredGrows(gateways, readings[i], alarms, after);
      } else {
        assert IsAnsweredAt(gw, code, r, after);
      }
    }
    forall a | a0 <= a < |after|
      ensures IsCaused(gateways, readings + [r], r0, after[a])
    {
      if a < |alarms| {
        CauseLasts(gateways, readings, readings + [r], r0, alarms[a]);
      } else {
        assert (readings + [r])[|readings|] == r && IsCausedAt(gw, code, r, after[a]);
      }
    }
  }

  lemma {:induction false} ItemsFit(
      gateways: map<nat, Gateway>, g: nat, p: Progress, ctx: Context, items: seq<Item>, r0: nat, a0: nat)
    requires AlarmsFit(gateways, p.readings, p.alarms, r0, a0) && r0 <= |p.readings| && a0 <= |p.alarms|
    requires g in gateways && ctx.gateway == gateways[g] && CodesFit(gateways[g])
    ensures
      var q := TakeItems(p, ctx, items);
      AlarmsFit(gateways, q.readings, q.alarms, r0, a0) && r0 <= |q.readings| && a0 <= |q.alarms|
  {
    if items != [] {
      var before, item := TakeItems(p, ctx, items[..|items| - 1]), items[|items| - 1];
      ItemsFit(gateways, g, p, ctx, items[..|items| - 1], r0, a0);
      var after := TakeItem(before, ctx, item);
      if after.readings != before.readings {
        var r := after.readings[|before.readings|];
        ReadingFits(gateways, g, item.code, before.readings, before.alarms, r, r0, a0);
        LimitsMean(before.alarms, ctx.gateway, item.code, ctx.gateway.points[item.code], r.value, r.deviceTime);
      }
    }
  }

  /**
   Over any run of reports: every accepted reading that breaks a limit of its
   point has a stored alarm of the point no earlier than an hour before it, and
   every alarm of the run has the key and the time of such a reading.
  */
  lemma {:induction false} AlarmsFitReadings(
      gateways: map<nat, Gateway>, db: Db, subs: seq<Submission>, r0: nat, a0: nat)
    requires AlarmsFit(gateways, db.readings, db.alarms, r0, a0) && r0 <= |db.readings| && a0 <= |db.alarms|
    requires forall g :: g in gateways ==> CodesFit(gateways[g])
    ensures
      var later := Run(gateways, db, subs);
      AlarmsFit(gateways, later.readings, later.alarms, r0, a0)
    decreases |subs|
  {
    if subs != [] {
      var sub := subs[0];
      var after := Ingest(gateways, db, sub.gateway, sub.report, sub.now).0;
      if Check(gateways, db, sub.gateway, sub.report, sub.now).None? {
        ItemsFit(gateways, sub.gateway, Progress(db.readings, db.alarms, 0, []),
                 ContextOf(gateways, db, sub.gateway, sub.report, sub.now), sub.report.points.value, r0, a0);
      }
      AlarmsFitReadings(gateways, after, subs[1..], r0, a0);
    }
  }

  // ---------------------------------------------------------------- what a stored report leaves

  /** A reading of this report: one of its items, of a point of the gateway, with the times and flags of the report. */
  ghost predicate IsReadingOf(
      gw: Gateway, items: seq<Item>, r: Reading, t: int, now: int, message: nat, simulated: bool) {
    && r.deviceTime == t && r.receivedAt == now && r.message == message && r.isSimulated == simulated
    && exists i :: 0 <= i < |items| && items[i].Item? && items[i].code in gw.points
                   && items[i].value == Some(r.value) && gw.points[items[i].code].id == r.point
  }

  lemma {:induction false} ItemsBecomeReadings(p: Progress, ctx: Context, items: seq<Item>, r: nat)
    requires |p.readings| <= r < |TakeItems(p, ctx, items).readings|
    ensures IsReadingOf(ctx.gateway, items, TakeItems(p, ctx, items).readings[r], ctx.deviceTime, ctx.receivedAt,
                        ctx.message, ctx.isSimulated)
  {
    var before := TakeItems(p, ctx, items[..|items| - 1]);
    if r < |before.readings| {
      ItemsBecomeReadings(p, ctx, items[..|items| - 1], r);
      var i :| 0 <= i < |items[..|items| - 1]| && items[..|items| - 1][i].Item?
               && items[..|items| - 1][i].code in ctx.gateway.points
               && items[..|items| - 1][i].value == Some(before.readings[r].value)
               && ctx.gateway.points[items[..|items| - 1][i].code].id == before.readings[r].point;
      assert items[i] == items[..|items| - 1][i];
    } else {
      assert items[|items| - 1].Item?;
    }
  }

  /** A problem is told of an item that has it. */
  ghost predicate IsProblemOf(gw: Gateway, item: Item, readings: seq<Reading>, t: int, problem: Problem) {
    match problem
    case NotAnObject => item.NotObject?
    case UnknownPoint(code) => item.Item? && item.code == code && code !in gw.points
    case BadValue(code) => item.Item? && item.code == code && code in gw.points && item.value.None?
    case AlreadyRead(code) =>
      && item.Item? && item.code == code && code in gw.points && item.value.Some?
      && HasReading(readings, gw.points[code].id, t)
  }

  /** Whatever one item adds to the problems is its own; what was a problem stays one. */
  lemma ItemProblemMeans(p: Progress, ctx: Context, item: Item)
    ensures
      var after := TakeItem(p, ctx, item);
      && p.problems <= after.problems && |after.problems| <= |p.problems| + 1
      && (|after.problems| > |p.problems| ==>
            IsProblemOf(ctx.gateway, item, after.readings, ctx.deviceTime, after.problems[|p.problems|]))
    ensures forall other, problem ::
              IsProblemOf(ctx.gateway, other, p.readings, ctx.deviceTime, problem)
              ==> IsProblemOf(ctx.gateway, other, TakeItem(p, ctx, item).readings, ctx.deviceTime, problem)
  {
    assert p.readings <= TakeItem(p, ctx, item).readings;
  }

  lemma {:induction false} ProblemsMean(p: Progress, ctx: Context, items: seq<Item>, k: nat)
    requires |p.problems| <= k < |TakeItems(p, ctx, items).problems|
    ensures exists i :: 0 <= i < |items| && IsProblemOf(ctx.gateway, items[i], TakeItems(p, ctx, items).readings,
                                                        ctx.deviceTime, TakeItems(p, ctx, items).problems[k])
  {
    var front, last := items[..|items| - 1], |items| - 1;
    var before := TakeItems(p, ctx, front);
    ItemProblemMeans(before, ctx, items[last]);
    if k < |before.problems| {
      ProblemsMean(p, ctx, front, k);
      var i :| 0 <= i < |front| && IsProblemOf(ctx.gateway, front[i], before.readings, ctx.deviceTime,
                                               before.problems[k]);
      assert items[i] == front[i];
    }
  }

  /** The device time of a report, or the time of its receipt. */
  predicate IsTimeOf(report: Report, now: int, t: int) {
    if report.deviceTime.At? then t == report.deviceTime.time else t == now
  }

  predicate IsSimulated(gw: Gateway, report: Report) {
    report.simulated || gw.isSimulated || (gw.connection.Some? && gw.connection.value.isSimulated)
  }

  /**
   A stored report adds one message row that names it, and a duplicate nothing
   else.  Otherwise its new readings are those of its items, each storable item
   has a reading at the report's time, and the gateway was seen.
  */
  lemma StoredReportMeans(gateways: map<nat, Gateway>, db: Db, g: nat, report: Report, now: int)
    requires Ingest(gateways, db, g, report, now).1.Ok?
    ensures
      var (after, answer) := Ingest(gateways, db, g, report, now);
      && g in gateways && report.points.Some? && db.messages <= after.messages && |after.messages| == |db.messages| + 1
      && var row := after.messages[|db.messages|];
         && row.gateway == g && row.receivedAt == now && IsTimeOf(report, now, row.deviceTime)
         && row.messageId == (if |report.messageId| <= 64 then report.messageId else report.messageId[..64])
         && row.pointCount == |report.points.value| && row.isSimulated == IsSimulated(gateways[g], report)
         && row.status == answer.value.status
         && (row.status == Duplicated <==>
               exists i :: 0 <= i < |db.messages| && db.messages[i].gateway == g
                           && db.messages[i].messageId == row.messageId)
         && (row.status != Duplicated ==>
               && after.seenAt == db.seenAt[g := now] && db.readings <= after.readings
               && AllStored(after.readings, gateways[g], report.points.value, row.deviceTime)
               && (forall k :: 0 <= k < |answer.value.problems| ==>
                     exists i :: 0 <= i < |report.points.value| &&
                       IsProblemOf(gateways[g], report.points.value[i], after.readings, row.deviceTime,
                                   answer.value.problems[k]))
               && forall r :: |db.readings| <= r < |after.readings| ==>
                    IsReadingOf(gateways[g], report.points.value, after.readings[r], row.deviceTime, now, |db.messages|,
                                IsSimulated(gateways[g], report)))
  {
    var ctx := ContextOf(gateways, db, g, report, now);
    var items := report.points.value;
    var start := Progress(db.readings, db.alarms, 0, []);
    var (after, answer) := Ingest(gateways, db, g, report, now);
    TakeItemsEffect(start, ctx, items);
    TakeItemsStores(start, ctx, items);
    if answer.value.status != Duplicated {
      forall r | |db.readings| <= r < |after.readings|
        ensures IsReadingOf(gateways[g], items, after.readings[r], ctx.deviceTime, now, |db.messages|,
                            IsSimulated(gateways[g], report))
      {
        ItemsBecomeReadings(start, ctx, items, r);
      }
      forall k | 0 <= k < |answer.value.problems|
        ensures exists i :: 0 <= i < |items| &&
                  IsProblemOf(gateways[g], items[i], after.readings, ctx.deviceTime, answer.value.problems[k])
      {
        ProblemsMean(start, ctx, items, k);
      }
    }
  }

  // ---------------------------------------------------------------- reports that can never be stored

  /** A fault of the report or its gateway, whatever is stored. */
  ghost predicate HasOwnFault(gateways: map<nat, Gateway>, sub: Submission) {
    exists e :: e != RateLimitExceeded
                && IsFault(e, gateways, Db([], [], [], map[]), sub.gateway, sub.report, sub.now)
  }

  lemma OwnFaultIsRefused(gateways: map<nat, Gateway>, db: Db, sub: Submission)
    requires HasOwnFault(gateways, sub)
    ensures Ingest(gateways, db, sub.gateway, sub.report, sub.now).0 == db
  {
    var e :| e != RateLimitExceeded && IsFault(e, gateways, Db([], [], [], map[]), sub.gateway, sub.report, sub.now);
    assert IsFault(e, gateways, db, sub.gateway, sub.report, sub.now);
    RefusedIffFaulty(gateways, db, sub.gateway, sub.report, sub.now);
  }

  ghost function Sound(gateways: map<nat, Gateway>, subs: seq<Submission>): seq<Submission> {
    if subs == [] then []
    else (if HasOwnFault(gateways, subs[0]) then [] else [subs[0]]) + Sound(gateways, subs[1..])
  }

  /**
   Leaving every report with a fault of its own out of a run changes nothing
   that is stored, not even through the rate limit.
  */
  lemma {:induction false} FaultyReportsLeaveNoTrace(gateways: map<nat, Gateway>, db: Db, subs: seq<Submission>)
    ensures Run(gateways, db, Sound(gateways, subs)) == Run(gateways, db, subs)
    decreases |subs|
  {
    if subs != [] {
      var sub, rest := subs[0], Sound(gateways, subs[1..]);
      FaultyReportsLeaveNoTrace(gateways, Ingest(gateways, db, sub.gateway, sub.report, sub.now).0, subs[1..]);
      if HasOwnFault(gateways, sub) {
        OwnFaultIsRefused(gateways, db, sub);
        assert [] + rest == rest;
      } else {
        assert ([sub] + rest)[0] == sub && ([sub] + rest)[1..] == rest;
      }
    }
  }

  // ---------------------------------------------------------------- alarms of one point

  const CODE_LIMIT := 32

  /** The code columns hold at most 32 characters, so no source reference is ever cut off. */
  ghost predicate CodesFit(g: Gateway) {
    |g.code| <= CODE_LIMIT && forall code :: code in g.points ==> |code| <= CODE_LIMIT
  }

  ghost predicate Hourly(alarms: Alarms, key: AlarmLedger.Key) {
    AlarmLedger.Spaced(alarms, key, Some(3600 * 1000000))
  }

  lemma RaiseKeepsHourly(alarms: Alarms, g: Gateway, code: string, t: int, key: AlarmLedger.Key)
    requires Hourly(alarms, key) && |g.code| <= CODE_LIMIT && |code| <= CODE_LIMIT
    ensures Hourly(AlarmLedger.Raise(alarms, LimitCall(g, code, t)), key)
  {
    var call := LimitCall(g, code, t);
    assert AlarmLedger.StoredKey(call.key) == call.key;
    AlarmLedger.SpacingHolds(alarms, [call], key, Some(AlarmLedger.HOUR));
    assert AlarmLedger.RaiseAll(alarms, [call]) == AlarmLedger.RaiseAll(AlarmLedger.Raise(alarms, call), []);
  }

  lemma LimitsKeepHourly(alarms: Alarms, g: Gateway, code: string, p: Point, value: int, t: int, key: AlarmLedger.Key)
    requires Hourly(alarms, key) && |g.code| <= CODE_LIMIT && |code| <= CODE_LIMIT
    ensures Hourly(EvaluateLimits(alarms, g, code, p, value, t), key)
  {
    RaiseKeepsHourly(alarms, g, code, t, key);
    RaiseKeepsHourly(AlarmLedger.Raise(alarms, LimitCall(g, code, t)), g, code, t, key);
  }

  lemma {:induction false} ItemsKeepHourly(p: Progress, ctx: Context, items: seq<Item>, key: AlarmLedger.Key)
    requires Hourly(p.alarms, key) && CodesFit(ctx.gateway)
    ensures Hourly(TakeItems(p, ctx, items).alarms, key)
  {
    if items != [] {
      var before, item := TakeItems(p, ctx, items[..|items| - 1]), items[|items| - 1];
      ItemsKeepHourly(p, ctx, items[..|items| - 1], key);
      if Storable(ctx.gateway, item) {
        var point := ctx.gateway.points[item.code];
        LimitsKeepHourly(before.alarms, ctx.gateway, item.code, point, item.value.value, ctx.deviceTime, key);
      }
    }
  }

  /**
   Over any run of reports, with device times in any order: two limit alarms of
   one point are more than an hour apart, and only move forward in storage order.
  */
  lemma {:induction false} PointAlarmsAreHourly(
      gateways: map<nat, Gateway>, db: Db, subs: seq<Submission>, key: AlarmLedger.Key)
    requires Hourly(db.alarms, key) && forall g :: g in gateways ==> CodesFit(gateways[g])
    ensures Hourly(Run(gateways, db, subs).alarms, key)
    decreases |subs|
  {
    if subs != [] {
      var sub := subs[0];
      var after := Ingest(gateways, db, sub.gateway, sub.report, sub.now).0;
      if Check(gateways, db, sub.gateway, sub.report, sub.now).None? {
        ItemsKeepHourly(Progress(db.readings, db.alarms, 0, []),
                        ContextOf(gateways, db, sub.gateway, sub.report, sub.now), sub.report.points.value, key);
      }
      PointAlarmsAreHourly(gateways, after, subs[1..], key);
    }
  }

  // ---------------------------------------------------------------- the service

  /** ingest_report against its tables; the gateway configuration is fixed. */
  class Collector {
    const gateways: map<nat, Gateway>
    var messages: seq<Message>
    var readings: seq<Reading>
    var book: AlarmLedger.AlarmBook
    var seenAt: map<nat, int>

    constructor (gateways: map<nat, Gateway>)
      ensures this.gateways == gateways && Snapshot() == Db([], [], [], map[]) && fresh(book)
    {
      this.gateways := gateways;
      messages, readings, seenAt := [], [], map[];
      book := new AlarmLedger.AlarmBook();
    }

    ghost function Snapshot(): Db
      reads this, book
    {
      Db(messages, readings, book.alarms, seenAt)
    }

    method EnforceRateLimit(g: nat, now: int) returns (exceeded: bool)
      requires g in gateways
      ensures exceeded <==> RateExceeded(messages, g, gateways[g].connection, now)
      ensures exceeded <==>
                && gateways[g].connection.Some? && gateways[g].connection.value.rateLimit > 0
                && |ReceivedFrom(messages, g, now - 60 * 1000000)| >= gateways[g].connection.value.rateLimit
    {
      ReceivedSinceCounts(messages, g, now - MINUTE);
      var c := gateways[g].connection;
      if c.None? || c.value.rateLimit == 0 {
        return false;
      }
      var recent := 0;
      for i := 0 to |messages|
        invariant recent == ReceivedSince(messages[..i], g, now - MINUTE)
      {
        assert messages[..i + 1][..i] == messages[..i];
        if messages[i].gateway == g && messages[i].receivedAt >= now - MINUTE {
          recent := recent + 1;
        }
      }
      assert messages[..|messages|] == messages;
      exceeded := recent >= c.value.rateLimit;
    }

    method EvaluatePointLimits(g: Gateway, code: string, p: Point, value: int, t: int) returns (raised: nat)
      modifies book
      ensures book.alarms == EvaluateLimits(old(book.alarms), g, code, p, value, t)
      ensures raised == |book.alarms| - |old(book.alarms)|
      ensures !BreaksLimit(p, value) ==> book.alarms == old(book.alarms)
      ensures CodesFit(g) && code in g.points && BreaksLimit(p, value)
              ==> HasAlarmSince(book.alarms, PointKey(g, code), t)
      ensures CodesFit(g) && code in g.points ==>
                forall a :: |old(book.alarms)| <= a < |book.alarms| ==>
                  book.alarms[a] == AlarmLedger.Alarm(PointKey(g, code), t)
    {
      if CodesFit(g) && code in g.points {
        LimitsMean(book.alarms, g, code, p, value, t);
      }
      raised := 0;
      if !p.alarmEnabled {
        return;
      }
      if p.upper.Some? && value > p.upper.value {
        var alarm := book.RaiseAlarm(LimitCall(g, code, t));
        raised := if alarm.Some? then 1 else 0;
      }
      if p.lower.Some? && value < p.lower.value {
        var alarm := book.RaiseAlarm(LimitCall(g, code, t));
        raised := raised + if alarm.Some? then 1 else 0;
      }
    }

    /** Everything that can refuse a report before a row is written. */
    method CheckReport(g: nat, report: Report, now: int) returns (refused: Option<Error>)
      ensures refused == Check(gateways, Snapshot(), g, report, now)
      ensures refused.Some? <==> exists e :: IsFault(e, gateways, Snapshot(), g, report, now)
      ensures refused.Some? ==> IsFault(refused.value, gateways, Snapshot(), g, report, now)
    {
      RefusedIffFaulty(gateways, Snapshot(), g, report, now);
      if g !in gateways || !gateways[g].isActive {
        return Some(NotAuthenticated);
      }
      var c := gateways[g].connection;
      if !report.isJsonObject {
        return Some(PayloadInvalid);
      }
      if c.Some? {
        if !c.value.isEnabled {
          return Some(ConnectionDisabled);
        }
        if c.value.protocol != Http && c.value.protocol != Simulator {
          return Some(ProtocolNotImplemented);
        }
      }
      if report.messageId == "" {
        return Some(MessageIdRequired);
      }
      if report.points.None? || report.points.value == [] {
        return Some(PointsRequired);
      }
      if |report.points.value| > BatchLimit(c) {
        return Some(BatchTooLarge);
      }
      var exceeded := EnforceRateLimit(g, now);
      if exceeded {
        return Some(RateLimitExceeded);
      }
      refused := if report.deviceTime.Malformed? then Some(DeviceTimeInvalid) else None;
    }

    /** The loop over the points of one message. */
    method TakePoints(ctx: Context, items: seq<Item>) returns (accepted: nat, problems: seq<Problem>, alarmCount: int)
      modifies this`readings, book
      ensures Progress(readings, book.alarms, accepted, problems)
           == TakeItems(Progress(old(readings), old(book.alarms), 0, []), ctx, items)
      ensures alarmCount == |book.alarms| - |old(book.alarms)|
    {
      accepted, problems, alarmCount := 0, [], 0;
      ghost var start := Progress(readings, book.alarms, 0, []);
      for i := 0 to |items|
        invariant Progress(readings, book.alarms, accepted, problems) == TakeItems(start, ctx, items[..i])
        invariant alarmCount == |book.alarms| - |old(book.alarms)|
      {
        var item := items[i];
        assert items[..i + 1][..i] == items[..i];
        if item.NotObject? {
          problems := problems + [NotAnObject];
        } else if item.code !in ctx.gateway.points {
          problems := problems + [UnknownPoint(item.code)];
        } else if item.value.None? {
          problems := problems + [BadValue(item.code)];
        } else {
          var point := ctx.gateway.points[item.code];
          if HasReading(readings, point.id, ctx.deviceTime) {
            problems := problems + [AlreadyRead(item.code)];
          } else {
            readings := readings
              + [Reading(point.id, ctx.deviceTime, ctx.receivedAt, item.value.value, ctx.message, ctx.isSimulated)];
            accepted := accepted + 1;
            var raised := EvaluatePointLimits(ctx.gateway, item.code, point, item.value.value, ctx.deviceTime);
            alarmCount := alarmCount + raised;
          }
        }
      }
      assert items[..|items|] == items;
    }

    /** message.save: the row inserted last gets its final status. */
    method SaveStatus(status: MessageStatus)
      requires messages != []
      modifies this`messages
      ensures messages == old(messages)[..|old(messages)| - 1] + [old(messages)[|old(messages)| - 1].(status := status)]
    {
      var last := |messages| - 1;
      messages := messages[last := messages[last].(status := status)];
    }

    /** The part after the message dedup: the new message is already there as received. */
    method AcceptMessage(g: nat, ctx: Context, items: seq<Item>) returns (summary: Summary)
      requires messages != []
      modifies this`messages, this`readings, this`seenAt, book
      ensures
        var p := TakeItems(Progress(old(readings), old(book.alarms), 0, []), ctx, items);
        var status := if p.accepted > 0 then Processed else Failed;
        var last := |old(messages)| - 1;
        && Snapshot() == Db(old(messages)[..last] + [old(messages)[last].(status := status)], p.readings, p.alarms,
                            old(seenAt)[g := ctx.receivedAt])
        && summary
           == Summary(status, p.accepted, |items| - p.accepted, Max(0, |p.alarms| - |old(book.alarms)|), p.problems)
    {
      var accepted, problems, alarmCount := TakePoints(ctx, items);
      TakeItemsEffect(Progress(old(readings), old(book.alarms), 0, []), ctx, items);
      var status := if accepted > 0 then Processed else Failed;
      SaveStatus(status);
      seenAt := seenAt[g := ctx.receivedAt];
      summary := Summary(status, accepted, |items| - accepted, alarmCount, problems);
    }

    method IngestReport(g: nat, report: Report, now: int) returns (r: Result<Summary, Error>)
      modifies this`messages, this`readings, this`seenAt, book
      ensures (Snapshot(), r) == Ingest(gateways, old(Snapshot()), g, report, now)
    {
      var refused := CheckReport(g, report, now);
      if refused.Some? {
        return Err(refused.value);
      }
      var gw := gateways[g];
      var items := report.points.value;
      var ctx := Context(gw, EffectiveTime(report, now), now, |messages|,
                         || report.simulated || gw.isSimulated
                         || (gw.connection.Some? && gw.connection.value.isSimulated));
      var message := NewMessage(g, report, ctx, Received);
      messages := messages + [message];
      assert messages[..|messages| - 1] == old(messages);
      if SeenBefore(messages[..|messages| - 1], g, message.messageId) {
        SaveStatus(Duplicated);
        return Ok(Summary(Duplicated, 0, |items|, 0, []));
      }
      var summary := AcceptMessage(g, ctx, items);
      r := Ok(summary);
    }
  }
}
