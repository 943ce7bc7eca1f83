# Yishang manufacturing platform: a verified model of its hard core

The repository is a Django back end for a manufacturing company: an event
outbox, numbering rules, device data acquisition, energy metering, roles and
data scopes, and maintenance plans. This project models the parts of it whose
correctness cannot be read off one function, and proves what they promise over
every input, every run or every interleaving.

| file | what it models |
|---|---|
| `Outbox.dfy` | publish, claim, deliver, mark and crash as atomic steps of any number of workers with stale candidate lists, and the retry view as a look and a later save |
| `Replays.dfy` | when a replay by hand is safe |
| `Dispatch.dfy` | the dispatch loop as a class, and which events it takes |
| `Retries.dfy` | what a failed delivery leaves: retry times, the last attempt, and how often an event is delivered at most and exactly |
| `Idempotency.dfy` | `serialise_value` over nested values, and the idempotent-execution wrapper over runs with clean-ups |
| `CodeRules.dfy` | code patterns as token lists, zero-padded numbers, reset periods, the numbering service |
| `AlarmLedger.dfy` | the one-sided alarm dedup window |
| `Ingest.dfy` | the report entry with rate limit, message dedup, reading dedup and point limits |
| `OverlappingReports.dfy` | the rate limit and the message dedup when report transactions overlap |
| `Rounding.dfy`, `Metering.dfy` | meter readings, rounded consumption, thresholds |
| `Grouping.dfy`, `ReadingStatistics.dfy`, `Consumption.dfy` | grouped sums, time buckets, the consumption and cost reports |
| `PermissionCache.dfy` | the versioned permission cache, read in five separate steps |
| `Hierarchy.dfy`, `Departments.dfy`, `MenuTree.dfy` | parent chains, cycles, bounded searches; the department cycle check, full path and subtree; the navigation menu |
| `DataScope.dfy`, `RoleChanges.dfy` | merging roles into a data scope and applying it to a query; what one more role shows or hides |
| `Lockout.dfy`, `OverlappingSignIns.dfy` | failed sign-ins, locks, unlocks and deactivations, one after the other and overlapping |
| `Maintenance.dfy` | the capped catch-up loop of maintenance plans |

Code that updates fields is a class whose methods are proved against functions
of the old state (`Dispatcher`, `Executor`, `Numbering`, `AlarmBook`,
`Collector`, `MeterBook`, `AuthStore`, `User`, `MaintenancePlan`); loops over
local variables are methods. The theorems are lemmas about those functions.

Units: times are integers in one time zone (microseconds, seconds or day
numbers as the code needs), decimals are integers scaled to the grid the code
rounds to, tables are maps or sequences in insertion order, and a
`transaction.atomic` block is one all-or-nothing step.

## What turned out not to hold

Each is stated with the exact condition under which the code does meet it.

- The retry view refuses only an event it saw as finished, and saves later.
  The save is safe exactly when by then no worker holds the event or has
  finished it (`Replays.ReplayIsSafeIff`). The status the view saw is never
  enough for that, except DONE, because another replay of the event may be
  saved and claimed in between (`Replays.SightIsSafeIff`). If replays of one
  event follow each other, a dead event is safe to replay, a pending or failed
  one is not, and one in processing is exactly when its worker has crashed
  (`Replays.SightIsSafeAloneIff`).
- Of several recipients of one approval event only the first is notified: the
  row's unique key is the event (`Outbox.OnlyFirstRecipientIsNotified`).
- Codes of an active rule are unique for ever, however many it has issued,
  exactly when its pattern shows its reset period; a two-digit year does not
  show the year (`CodeRules.UniqueForeverIff`).
- `raise_alarm` stores the source reference cut to 128 characters but looks it
  up in full, so a repeated call is suppressed exactly when the reference fits
  (`AlarmLedger.RepeatIsHarmlessIff`). Today every caller passes at most 69
  characters, two 32-character codes and a prefix, or none, so no present call
  is affected; `Ingest.PointAlarmsAreHourly` rests on that.
- Switching a role on or off does not invalidate cached permissions. The cache
  is right afterwards, over every continuation, exactly when the role adds
  nothing to the other active roles of each user who has a current entry or a
  read in flight that has already seen roles
  (`PermissionCache.RoleSwitchKeepsCacheIff`); it is right whatever is cached or
  being read exactly when the role adds nothing for any user
  (`PermissionCache.RoleSwitchIsSafeIff`).
- `update_user` writes back the whole user row as it was loaded, with its
  permission version. Whatever is cached or being read, this is safe exactly
  when that version is still the present one (`PermissionCache.SaveIsSafeIff`);
  otherwise it can revive an entry that a role change had retired
  (`PermissionCache.StaleSaveRevivesEntry`).
- Two departments whose new parents are both checked before either is saved can
  end on a cycle: exactly when each moves below the other
  (`Departments.OverlappingReparentsIff`).
- A late meter reading is added to the total while later rows stay as they are.
  An exact total stays exact exactly when the added consumption rounds to zero,
  that is, when it is at most half of the sixth decimal; for a reading before
  every row, exactly when it repeats the first value
  (`Metering.LateReadingKeepsTotalIff`).
- A further role can hide rows that were visible. A role no wider than the
  present tier hides some exactly when it brings the first known company, or
  the first object of a custom scope. A wider one, unless it shows everything,
  hides some exactly when the user so far saw own rows only, or it does not
  cover the companies and objects the user was confined to
  (`RoleChanges.ExtraRoleHidesIff`).
- The rate limit holds for reports that follow each other. With `most` of them
  open at a time a minute holds at most limit - 1 + most messages, and that
  many can occur; likewise up to `most` messages of one id are processed
  (`OverlappingReports.OverlapBound`, `OverlappingReports.OriginalsBound`,
  `OverlappingReports.OverlapBoundIsMet`).
- The lockout rate holds for sign-ins that follow each other. Sign-ins that are
  loaded together all get their look at the password
  (`OverlappingSignIns.LoadedTogetherMissTogether`), and a slow one writes an
  older count back; with a bound on how many are under way there is still a
  rate (`OverlappingSignIns.OverlappingLockoutRate`).
- The trend and the detail rows of the reading statistics add up to the totals
  exactly when nothing was cut off (`ReadingStatistics.CutAddsUpIff`,
  `ReadingStatistics.TrendAddsUpIff`).

Where code and text disagree, the model follows the code: the docstring of
`ingest_report` says every failure leaves a message row, but the checks before
the insert leave none; `idempotent_execute` answers "in progress" when the
wrapped function itself runs into a duplicate key; `permission_codes` promises
immediate invalidation on role changes, which switching a role does not give.

## Model

| member | source | states |
|---|---|---|
| Outbox.RunKeepsGood | backend/apps/integration/tasks.py:22-62 | over every interleaving of workers with stale lists, crashes and replay requests, with replays saved only over events no worker holds or has finished, no event is ever held by two workers, a held event's loaded counters are current, and no two notifications share an event |
| Outbox.StepKeepsSettled | backend/apps/core/services.py:331-358 | one guarded step leaves a DONE event untouched, and a DEAD one too unless it is a replay of it |
| Outbox.DoneIsFinal | backend/apps/core/services.py:331-335 | over any guarded run a DONE event never changes again and is never claimed again |
| Outbox.DeadNeedsRequeue | backend/apps/core/services.py:338-358 | without a replay a DEAD event never changes |
| Outbox.AttemptsAreFailures | backend/apps/core/services.py:338-349 | the attempts counter grows by exactly the number of failed deliveries, although it is computed from a copy loaded earlier |
| Outbox.ClaimsBalance | backend/apps/integration/tasks.py:36-60 | conservation: claims equal failures plus recoveries plus the change in events that are open (processing or done) |
| Outbox.DeliveriesNeedClaims | backend/apps/integration/tasks.py:36-52 | the handler runs at most once for each claim |
| Outbox.OutboxSafety | backend/apps/integration/tasks.py:22-62 | from the empty table: the invariant, the meaning of attempts, and at most max(1, max_attempts) plus replays deliveries of each event |
| Outbox.NotifyAllEffect | backend/apps/integration/handlers.py:44-82 | a handler's loop over its recipients writes at most the row of the first one, and none if the event has a row already |
| Outbox.NotificationsSettle | backend/apps/core/services.py:366-390 | over any run there is at most one notification row for each event and rows only get appended |
| Outbox.OnlyFirstRecipientIsNotified | backend/apps/core/models.py:357 | after a first successful delivery, and for ever, exactly the first recipient of the event has a notification |
| Replays.ReplayIsSafeIff | backend/apps/integration/views.py:35-41 | from a good state, the save of a replay leaves a finished event finished and keeps every continuation free of double holding if and only if at that moment no worker holds the event or has finished it |
| Replays.IdleReplaysAreSafe | backend/apps/core/services.py:352-358 | if every replay saves over a status that is then neither PROCESSING nor DONE, the whole of OutboxSafety holds |
| Replays.SightIsSafeIff | backend/apps/integration/views.py:35-41 | a replay decided on the status the view saw is safe, whatever workers and other replays do before the save, if and only if that status was DONE and it is refused |
| Replays.SightIsSafeAloneIff | backend/apps/integration/views.py:35-41 | if no other replay of the event is saved in between, it is safe if and only if the status was DEAD or DONE, or PROCESSING with no worker at it |
| Replays.SecondHolder | backend/apps/integration/tasks.py:36-43 | if a held event is due, however many events come before it, there is a run after which two workers hold one event |
| Dispatch.UndisturbedDelivery | backend/apps/integration/tasks.py:36-60 | the four atomic steps of a worker on a claimable candidate compose to one pass of the loop body |
| Dispatch.CandidateIff | backend/apps/integration/tasks.py:22-33 | an event is a candidate if and only if it is pending or failed, its retry time is none or has come, and fewer than `limit` such events have a smaller id |
| Dispatch.DueEventsAreSettled | backend/apps/integration/tasks.py:36-62 | the loop over distinct claimable candidates settles each exactly once with the time of its own mark, leaves all others alone, and claimed = done + failed; what a settled event looks like is stated by Dispatch.Dispatcher.DispatchDueEvents |
| Dispatch.Dispatcher.DispatchCandidates | backend/apps/integration/tasks.py:35-60 | the in-place loop over any candidate list, distinct or not, equals the specification that the lemmas on it are about, and skips what it cannot claim |
| Dispatch.LoopNotifiesOnce | backend/apps/integration/handlers.py:44-82 | after the loop the notifications are the old rows and one row, to the first recipient, for each delivered event that had none |
| Dispatch.Dispatcher.DispatchDueEvents | backend/apps/integration/tasks.py:22-62 | one undisturbed pass, from the fields of the old events: each of the first `limit` due events in id order ends DONE with its attempts kept if its handler succeeds; else with one attempt more, FAILED and due 10, 20, 40, .. seconds after its own mark while that is below max_attempts, DEAD without a retry time from then on; no other event changes, the counters match, and it notifies as above |
| Retries.RunKeepsStatuses | backend/apps/core/services.py:338-349 | over any guarded run: a DEAD event has used up max_attempts and has no retry time, a FAILED one has attempts left and a retry time |
| Retries.RetrySchedule | backend/apps/core/services.py:338-349 | the k-th failure of an event makes it due again from exactly 10, 20, 40, .. seconds after its mark on, or never if k reaches max_attempts |
| Retries.ReplayMakesDue | backend/apps/core/services.py:352-358 | a saved replay makes the event due at once with its attempts kept, and touches no other event |
| Retries.PublishedIsDue | backend/apps/core/services.py:301-328 | a published event is due at once with no attempt behind it; a dedup key that is taken publishes nothing |
| Retries.DeadWasDeliveredExactly | backend/apps/integration/tasks.py:22-62 | in any guarded run an event that ends DEAD without a replay was delivered exactly max(1, max_attempts) times and failed each time |
| Retries.OutboxBoundIsMet | backend/apps/integration/tasks.py:22-62 | for every max_attempts there is a run, of a handler that fails whenever the event is due, in which the event gets exactly max(1, max_attempts) deliveries, so the bound of Outbox.OutboxSafety is the least |
| Idempotency.SerialisedIsJson | backend/apps/core/services.py:114-128 | whatever nested value goes in, the result holds only storable values under distinct text keys |
| Idempotency.JsonIsFixed | backend/apps/core/services.py:114-128 | a storable value is left as it is |
| Idempotency.SerialiseIsIdempotent | backend/apps/core/services.py:114-128 | serialising twice is serialising once |
| Idempotency.SerialiseKeeps | backend/apps/core/services.py:114-128 | decimals, dates, times, rows and other objects become exactly their printed text, scalars stay, lists keep length and order of their serialised elements, and only mappings become mappings |
| Idempotency.MappingIsKept | backend/apps/core/services.py:114-128 | in the result each text key holds the serialised value of the last entry whose key prints so, and no other key occurs |
| Idempotency.OnlyFirstSuccessesMatter | backend/apps/core/services.py:518-579 | leaving every failed or replayed call out of a run leads to the same store, and each remaining call commits exactly one effect |
| Idempotency.RecordsStayComplete | backend/apps/core/services.py:545-561 | no committed record ever lacks a status code or holds a body that cannot be stored |
| Idempotency.EffectsBalance | backend/apps/core/services.py:518-600 | conservation over any run: the committed effects of a key are its present record plus its cleaned-up records |
| Idempotency.AtMostOnce | backend/apps/core/services.py:518-579 | without clean-up of the key its effect is committed at most once |
| Idempotency.FirstResponseIsFinal | backend/apps/core/services.py:562-579 | after the first success, and any run in between, the same payload gets the serialised first response, any other payload is refused, and nothing changes |
| Idempotency.FirstSuccessLastsADay | backend/apps/core/services.py:545-600 | no clean-up of the 24 hours after a first success removes its record; a clean-up after that frees the key |
| Idempotency.Executor.IdempotentExecute | backend/apps/core/services.py:518-579 | the method with its insert, roll-back and update equals the specification on every path, and plainly: no key is refused, a stored key with the same payload replays what is stored and one with another payload is refused, a new success stores status, body and an expiry a day later with one effect, and everything else changes nothing |
| CodeRules.PaddedIsInjective | backend/apps/core/services.py:445 | two zero-filled numbers of one width are equal only if the numbers are |
| CodeRules.StampShows | backend/apps/core/services.py:439-444 | two dates print the same date token exactly when they agree in the parts the token shows |
| CodeRules.StampReads | backend/apps/core/services.py:439-444 | a date token has its fixed width and reads back as the year, 100 * year + month, 10000 * year + 100 * month + day, and so on for all six |
| CodeRules.PeriodKeyIff | backend/apps/core/services.py:402-409 | two dates share a sequence if and only if they lie in the same day, month or year, as the rule says |
| CodeRules.WidthsAlign | backend/apps/core/services.py:436-447 | slots never shrink as the sequence grows, so codes of equal length line up token by token |
| CodeRules.RenderIsInjective | backend/apps/core/services.py:436-447 | two codes of a pattern are equal if and only if every token prints the same |
| CodeRules.RenderShowsPattern | backend/apps/core/services.py:436-447 | a code is its parts in the order of the pattern and nothing else: each literal as it is, each date readable, each slot reading back as the number in at least its width |
| CodeRules.ExampleCode | backend/apps/core/services.py:436-447 | a concrete case: on 21 September 2026 the first code of {YYYYMMDD}{SEQ:4} is 202609210001 |
| CodeRules.VisiblePeriodFixesKey | backend/apps/core/services.py:402-409 | if the pattern shows the reset period, equal prints mean the same sequence row |
| CodeRules.SequencesGrow | backend/apps/core/services.py:467-474 | over any run of requests for any rules the counters never go back and the rules stay |
| CodeRules.IssuedCodesDiffer | backend/apps/core/services.py:450-477 | for a rule whose pattern shows its reset period, the codes issued in any run, with dates in any order, are pairwise distinct |
| CodeRules.InvisiblePeriodCollides | backend/apps/core/services.py:402-477 | a served rule whose pattern hides its reset period issues some code twice, however far its sequences have come |
| CodeRules.UniqueForeverIff | backend/apps/core/services.py:402-477 | in any state of the tables, the codes of a rule are unique for ever if and only if its pattern shows its reset period, or no request for it is ever answered |
| CodeRules.Numbering.GenerateCode | backend/apps/core/services.py:450-477 | the method equals the specification, and plainly: it answers exactly for a known active rule with a good pattern; the counter of the period of the date is then one higher and all others stay; and the code carries, at the offset of each token, that literal, the date read back as a number, or the new counter; a refusal changes nothing |
| AlarmLedger.SpacingHolds | backend/apps/ems/services.py:120-170 | the one-sided window keeps all alarms of a key spaced over any run, in whatever order events arrive |
| AlarmLedger.AlarmsAreSpaced | backend/apps/ems/services.py:141-155 | with one window w, alarms of a key have event times more than w apart, growing in storage order |
| AlarmLedger.DayStartIsMidnight | backend/apps/ems/services.py:141-145 | the default window starts at the last midnight before the event |
| AlarmLedger.OneAlarmPerDay | backend/apps/ems/services.py:141-155 | with the default window at most one alarm of a key for each calendar day |
| AlarmLedger.EveryCallIsCovered | backend/apps/ems/services.py:146-155 | every call of a run, stored or suppressed, is answered by a stored alarm no earlier than the start of its window |
| AlarmLedger.SuppressedIff | backend/apps/ems/services.py:146-155 | a call is suppressed if and only if some stored alarm of its key lies on its calendar day or later or, with a window, at most the window before it |
| AlarmLedger.RepeatIsHarmlessIff | backend/apps/ems/services.py:146-166 | repeating a call changes nothing for every ledger if and only if its source reference has at most 128 characters |
| AlarmLedger.AlarmBook.RaiseAlarm | backend/apps/ems/services.py:120-170 | the method stores exactly the alarms that no earlier one suppresses, each with the time, company, type, meter and cut reference of its call, at the end of the ledger |
| Ingest.SlidingWindow | backend/apps/iot/services.py:142-157 | for reports that follow each other, no closed one-minute window of a run holds more than `limit` stored messages of a gateway, even when receive times jump back |
| OverlappingReports.OverlapBound | backend/apps/iot/services.py:142-157 | with at most `most` transactions of a gateway between their count and their end, in any interleaving, no closed minute holds more than limit - 1 + most stored messages |
| OverlappingReports.OriginalsBound | backend/apps/iot/services.py:219-246 | in the same runs at most `most` messages of one (gateway, id) are ever processed as the first of it |
| OverlappingReports.StepsMean | backend/apps/iot/services.py:142-157 | a report is let in unless the committed messages of the last minute reach a positive limit, as a duplicate if and only if a committed message has its id; a commit adds the message, a roll-back forgets it |
| OverlappingReports.OverlapBoundIsMet | backend/apps/iot/services.py:209-246 | reports of one new id that look before any of them commits reach both bounds, so no smaller ones hold |
| Ingest.DedupHolds | backend/apps/iot/services.py:219-279 | over any run of reports that follow each other (point, device time) stays unique and exactly the earliest message of each (gateway, id) is not a duplicate |
| Ingest.ReportAccounting | backend/apps/iot/services.py:160-314 | a refused report changes nothing; a stored one accounts for every point as accepted or as a problem, and for every alarm |
| Ingest.ResendIsHarmless | backend/apps/iot/services.py:219-279 | sending the points of a processed report again with its device time, under any id, after any run, adds no reading and no alarm |
| Ingest.Collector.EnforceRateLimit | backend/apps/iot/services.py:142-157 | refuses exactly when a positive limit is reached since one minute before now |
| Ingest.Collector.EvaluatePointLimits | backend/apps/iot/services.py:322-366 | raises an upper and a lower alarm of one source in that order and counts the stored ones; plainly, a value inside the limits stores nothing, one outside leaves an alarm of the point no earlier than an hour before, and whatever is stored has the key of the point and the device time |
| Ingest.RefusedIffFaulty | backend/apps/iot/services.py:170-212 | a report is refused if and only if it has one of nine faults, and the answer always names one it has |
| Ingest.FaultyReportsLeaveNoTrace | backend/apps/iot/services.py:160-212 | leaving every report with a fault of its own out of a run leads to the same tables, so refused reports do not count towards the rate limit either |
| Ingest.PointAlarmsAreHourly | backend/apps/iot/services.py:322-366 | over any run of reports with device times in any order, two limit alarms of one point are more than an hour apart |
| Ingest.LimitsMean | backend/apps/iot/services.py:322-366 | a value inside its limits, or on a point without alarms, adds no alarm; one above the upper or below the lower limit leaves an alarm of the point from an hour before the device time on |
| Ingest.AlarmsFitReadings | backend/apps/iot/services.py:160-366 | over any run of reports, both ways: every accepted reading that breaks a limit of its enabled point has a stored alarm of the point no earlier than an hour before it, and every alarm of the run has the point and the device time of an accepted reading that breaks a limit |
| Ingest.StoredReportMeans | backend/apps/iot/services.py:209-314 | what a stored report leaves, from its own fields: one message row; if it is a duplicate nothing else; otherwise a reading of each item that can be stored, no other reading, problems only of items that have them, and the gateway seen |
| Ingest.ProblemsMean | backend/apps/iot/services.py:248-279 | each problem is told of an item that has it |
| Ingest.ReceivedSinceCounts | backend/apps/iot/services.py:142-157 | what the rate limit counts is the number of stored messages of the gateway received since then |
| Ingest.Collector.TakePoints | backend/apps/iot/services.py:240-282 | the loop over points stores, skips and alarms as the specification says; which readings raise an alarm over whole runs is Ingest.AlarmsFitReadings, what becomes of each item Ingest.StoredReportMeans |
| Ingest.Collector.IngestReport | backend/apps/iot/services.py:160-314 | the method with its insert and later status update equals the specification of one report, of which Ingest.RefusedIffFaulty, Ingest.StoredReportMeans and Ingest.AlarmsFitReadings say what it means |
| Rounding.RoundsToNearest | backend/apps/ems/services.py:347 | half-even rounding picks a nearest multiple, off by at most half a step |
| Rounding.HalfEvenIsTheOne | backend/apps/ems/services.py:347 | the nearest multiple that is even on a tie: no other value meets the rule |
| Rounding.HalfUpStaysBetween | backend/apps/iot/selectors.py:73-78 | a half-up quotient of a sum between n times a and n times b lies between a and b |
| Rounding.HalfUpIsTheOne | backend/apps/iot/selectors.py:73-78 | the nearest multiple that lies away from zero on a tie: no other value meets the rule |
| Metering.PreviousIsLatest | backend/apps/ems/services.py:334-339 | the previous reading is the latest row up to the moment |
| Metering.RecordMeans | backend/apps/ems/services.py:330-352 | a negative value is refused; a first reading consumes nothing; any other is refused exactly if it is below the latest row up to its moment, and else consumes the half-even rounded product of the advance and the multiplier |
| Metering.ConsumptionNeverNegative | backend/apps/ems/services.py:340-347 | in whatever order readings are entered, no stored consumption is negative |
| Metering.MeteringTelescopes | backend/apps/ems/services.py:313-367 | entered in time order, readings never go back and total consumption differs from multiplier times the counter's advance by at most half of the sixth decimal a step |
| Metering.OrderedRunIsExactOnGrid | backend/apps/ems/services.py:346-347 | the total is exact when every product lies on the six-decimal grid |
| Metering.ExactInOrder | backend/apps/ems/services.py:334-347 | for rows in time order the first and last row by time are the first and last inserted, so both notions of an exact total agree |
| Metering.TotalUnchangedIff | backend/apps/ems/services.py:334-347 | in any table, for any multiplier, an accepted reading leaves the total consumption alone if and only if what it adds is at most half of the sixth decimal |
| Metering.LateReadingKeepsTotalIff | backend/apps/ems/services.py:334-347 | in any table with an exact total, for any multiplier, a reading earlier than the last keeps the total exact if and only if what it adds is at most half of the sixth decimal or, before every row, it repeats the first value (or the multiplier is zero) |
| Metering.LateReadingMustRepeatIff | backend/apps/ems/services.py:334-347 | with a multiplier above one half, if and only if it repeats the value of the reading before it |
| Metering.LateReadingCountsTwice | backend/apps/ems/services.py:334-347 | a concrete case: 0 and 10 recorded in order give 10, and 4 entered late in between makes it 14 |
| Rounding.HalfEvenIsZeroIff | backend/apps/ems/services.py:347 | half-even rounding gives zero exactly up to half a step, the tie included |
| Metering.ThresholdCallsInTurn | backend/apps/ems/services.py:173-226 | the alarms of a threshold are asked for in the order upper, lower, daily |
| Metering.DayUsageIs | backend/apps/ems/services.py:204-211 | the usage that is compared with the daily limit is the total of exactly the rows of the same calendar day up to the time of the reading |
| Metering.ThresholdsMean | backend/apps/ems/services.py:173-226 | after a reading was judged every threshold it breaks, above, below or by the day, has an alarm of that day or later, and every alarm that is new belongs to a threshold that is broken |
| Metering.MeterBook.RecordReading | backend/apps/ems/services.py:313-367 | a refused value changes nothing; an accepted one is appended, marks the meter and raises exactly the threshold alarms of the new state; refusal and consumption are said from the latest row, the alarms from the thresholds that are broken |
| Metering.MeterBook.LatestUpTo | backend/apps/ems/services.py:334-339 | the search over the table finds the specified row, ties going to the last inserted |
| Metering.MeterBook.EvaluateThresholds | backend/apps/ems/services.py:173-226 | the loop over thresholds leaves the ledger of all their calls |
| Grouping.Regroup | backend/apps/ems/selectors.py:147-207 | summing groups that satisfy a condition equals summing the rows whose group satisfies it |
| Grouping.SelectionIsCell | backend/apps/ems/selectors.py:155-185 | rows selected by their fine group are the rows of one coarse group |
| ReadingStatistics.BucketIsTheOne | backend/apps/iot/selectors.py:86-101 | shift, truncate and shift back give the one bucket, aligned in business time, that contains the reading |
| ReadingStatistics.MeanIsBetween | backend/apps/iot/selectors.py:73-78 | the rounded mean of a cell lies between its least and greatest value |
| ReadingStatistics.OverLimitIff | backend/apps/iot/selectors.py:104-109 | the flag computed from extremes holds if and only if some reading of the cell breaks a limit |
| ReadingStatistics.SimulatedIff | backend/apps/iot/selectors.py:225 | a row is marked simulated if and only if all its readings are |
| ReadingStatistics.RowOfMeans | backend/apps/iot/selectors.py:202-225 | each field of a row from the readings of its bucket: their number, the simulated ones, their sum, least, greatest and half-up mean, whether one of them breaks a limit and whether all are simulated |
| ReadingStatistics.CellsConserve | backend/apps/iot/selectors.py:179-256 | counts, simulated counts and sums over all cells equal those over all readings |
| ReadingStatistics.CutAddsUpIff | backend/apps/iot/selectors.py:202-228 | a cut listing adds up to the overall count if and only if nothing was cut |
| ReadingStatistics.TrendMatchesDetail | backend/apps/iot/selectors.py:179-247 | in every bucket the detail cells add up to the trend row: in counts, simulated counts and sums |
| ReadingStatistics.TrendAddsUpIff | backend/apps/iot/selectors.py:230-247 | the same for the buckets of the trend |
| ReadingStatistics.DetailRows | backend/apps/iot/selectors.py:174-228 | the loop returns the rows of the first cells up to the limit, which is 500 if none or 0 is given and is kept between 1 and 2000, each with the fields of its own readings, and says whether it cut, which is when counts fall short |
| Consumption.PriceIsLatestEffective | backend/apps/ems/services.py:68-88 | the price found is effective on the date, none effective starts later, and none is found only if none is effective |
| Consumption.ResolvedPriceIsBest | backend/apps/ems/services.py:68-88 | of several effective prices with the latest start the last inserted is found |
| Consumption.EstimateMeans | backend/apps/ems/services.py:91-108 | without a price the cost is zero, with one the half-up rounded product at four decimals |
| Consumption.BucketMatchesReadings | backend/apps/ems/selectors.py:155-185 | a merged bucket holds the consumption of exactly the raw readings that belong to it |
| Consumption.PricedIff | backend/apps/ems/selectors.py:177-180 | a bucket is unpriced if and only if one of its groups has no effective price |
| Consumption.CostIsClose | backend/apps/ems/selectors.py:181-187 | a bucket's cost is within half of the fourth decimal a group of the unrounded cost |
| Consumption.ReportMeans | backend/apps/ems/selectors.py:105-207 | a report over grouped rows has a bucket if and only if a reading belongs there by the column of the dimension; it holds the consumption of exactly those readings and is priced if and only if each of them has a price in force |
| Consumption.ReportCostIsClose | backend/apps/ems/selectors.py:105-207 | its cost is that of those readings at their own prices, up to half of the fourth decimal for each group |
| Consumption.PeriodsMean | backend/apps/ems/selectors.py:190-197 | the listed periods of a bucket are tariff and usage of its groups in the order of the rows |
| Consumption.ReportConserves | backend/apps/ems/selectors.py:105-283 | in every dimension the buckets of a report add up to the raw readings |
| Consumption.DimensionsAgree | backend/apps/ems/selectors.py:105-283 | two reports over the same readings have the same total in whatever dimensions and at whatever prices |
| Consumption.MergeRows | backend/apps/ems/selectors.py:155-200 | the merge loop builds exactly the specified buckets, each key once |
| PermissionCache.StableOrBumped | backend/apps/identity/services.py:357-459 | every step but a role switch and a stale save raises a user's version or leaves the user's active roles and codes as they are |
| PermissionCache.CacheAgrees | backend/apps/identity/models.py:184-211 | over every interleaving of split reads, role changes, code changes, deletions, evictions and saves of user rows, without role switches and saves of a row whose version has moved on, an entry under a current version equals the fresh code set |
| PermissionCache.RunKeepsSound | backend/apps/identity/models.py:184-211 | the agreement also survives when readers carry roles that were switched meanwhile, as long as their codes are still right |
| PermissionCache.RoleSwitchKeepsCacheIff | backend/apps/identity/services.py:403-423 | a role switch keeps the cache right now and over every continuation without another switch or a stale save if and only if the role is covered by the other active roles of each linked user with a current entry or a read in flight that has seen roles or codes |
| PermissionCache.RoleSwitchIsSafeIff | backend/apps/identity/services.py:403-423 | it does so for every cache and all reads in flight over given tables if and only if the role is covered for every user |
| PermissionCache.SwitchEffect | backend/apps/identity/models.py:200-209 | switching a role changes a user's fresh codes exactly when it adds something to the other active roles |
| PermissionCache.FreshIff | backend/apps/identity/models.py:200-209 | a user has a code if and only if some active role the user is linked to holds it |
| PermissionCache.ReplacedCodesApply | backend/apps/identity/services.py:441-459 | after the codes of a role were replaced a user has exactly the new ones, if linked to the role while it is active, and those of the other active roles |
| PermissionCache.SyncedRolesApply | backend/apps/identity/services.py:357-372 | after the roles of a user were set the user has exactly the codes of those roles |
| PermissionCache.UndisturbedRead | backend/apps/identity/models.py:190-211 | five steps of a read that nothing disturbs, from the cache or from the tables, answer nothing for an inactive user, the wildcard for a superuser, and the fresh codes for anybody else |
| PermissionCache.TouchMovesVersions | backend/apps/identity/services.py:463-546 | new menus or scopes of a role raise the versions of exactly its users by one and change nothing else |
| PermissionCache.SwitchedUserReadsNothing | backend/apps/identity/services.py:307-331 | a switch of a user sets the flag alone, keeps the cache right without a version, and from a deactivation on the user is answered nothing |
| PermissionCache.NewRowsAreEmpty | backend/apps/identity/services.py:237-400 | a new role holds no code and a new user has none |
| PermissionCache.SaveIsSafeIff | backend/apps/identity/services.py:272-303 | saving a loaded user row keeps the cache right, for every cache and all reads in flight and over every continuation, if and only if its permission version is still the present one |
| PermissionCache.StaleSaveRevivesEntry | backend/apps/identity/services.py:272-303 | after any change that moved a cached user's version on and changed the codes, saving the row as loaded before puts a wrong entry under the current version |
| PermissionCache.AuthStore.PermissionCodes | backend/apps/identity/models.py:190-211 | an undisturbed read answers nothing for an inactive user, the wildcard for a superuser, and else exactly the codes of the active roles the user is linked to; it leaves the cache in agreement and keeps its entries |
| PermissionCache.AuthStore.HasPermissionCodes | backend/apps/identity/models.py:213-221 | allowed exactly when nothing is required, everything is owned, or the wildcard is |
| PermissionCache.AuthStore.SyncUserRoles | backend/apps/identity/services.py:357-372 | all or nothing, with the error said from the tables: the user's links become exactly those given, other users keep theirs, the version of that user alone moves on by one, and the cache stays in agreement |
| PermissionCache.AuthStore.SetRolePermissions | backend/apps/identity/services.py:441-459 | exactly if the role and all permissions exist, the role's codes are the given ones, its flags and every other role stay, the versions of exactly the linked users move on by one, links stay and the cache stays in agreement; otherwise nothing changes |
| PermissionCache.AuthStore.DeleteRole | backend/apps/identity/services.py:427-437 | deletes exactly a role that is not a system role and has no link, with the error said from the tables, and the cache stays in agreement although no version moves |
| Hierarchy.RootedChainIsInjective | backend/apps/factory/serializers.py:52-58 | on a chain of parents that ends no row occurs twice |
| Hierarchy.ForestDepth | backend/apps/factory/serializers.py:68-76 | in a forest of N rows every chain ends within N steps |
| Hierarchy.AcyclicIffNoCycle | backend/apps/factory/serializers.py:44-61 | a finite table is a forest if and only if no row is its own proper ancestor |
| Hierarchy.BelowIsDescendants | backend/apps/core/selectors.py:54-69 | what k rounds of the child search collect is exactly what lies at most k child edges below |
| Hierarchy.AboveIsAncestors | backend/apps/identity/selectors.py:49-67 | what k rounds of the parent search collect is exactly what lies at most k parent edges above |
| Departments.Validate | backend/apps/factory/serializers.py:44-61 | the walk ends on every table, cyclic ones too, and each error is raised exactly in its case |
| Departments.ReparentKeepsForestIff | backend/apps/factory/serializers.py:50-59 | in a forest a new parent keeps the forest if and only if the department is not at or above that parent |
| Departments.WalkRefusesExactlyCycles | backend/apps/factory/serializers.py:50-59 | from a forest the walk refuses a parent if and only if saving it would put a row on a cycle |
| Departments.RequestsKeepForest | backend/apps/factory/serializers.py:44-61 | over any run of creations and changes, each checked and saved before the next, the departments stay a forest with valid parents |
| Departments.RequestMovesTo | backend/apps/factory/serializers.py:44-61 | an accepted request leaves the row with the name, parent and company it gives, keeps what it does not give, and touches no other row |
| Departments.RenamingMovesNothing | backend/apps/factory/serializers.py:44-61 | a request with neither parent nor company is always accepted and changes the name alone |
| Departments.SaveKeepsForestIff | backend/apps/factory/serializers.py:44-61 | whenever it was checked, saving a row keeps the forest if and only if by then the row is not at or above its new parent |
| Departments.OverlappingReparentsIff | backend/apps/factory/serializers.py:44-61 | two changes checked on one forest and then both saved keep it if and only if they do not move each department below the other |
| Departments.GetFullPath | backend/apps/factory/serializers.py:68-76 | the loop ends on every table with the names up to where the chain first ends or repeats; where it ends, exactly the names from the root down |
| Departments.PathExtendsParent | backend/apps/factory/serializers.py:68-76 | the path of a root is its name, any other path is that of the parent, a separator and the name |
| Departments.DepartmentDescendants | backend/apps/core/selectors.py:54-69 | the frontier loop returns exactly the departments at most 32 child edges below the roots |
| Departments.ShallowExpansionIsClosure | backend/apps/core/selectors.py:54-69 | if no chain is longer than 32 edges this is the whole transitive closure, and closed under children |
| MenuTree.WithAncestorDirectories | backend/apps/identity/selectors.py:49-67 | the frontier loop returns exactly the menus at most 16 parent edges above the given ones |
| MenuTree.MyMenusIff | backend/apps/identity/selectors.py:70-84 | a user sees exactly the active menus that are granted or lie at most 16 parents above a granted one |
| MenuTree.OnlyInactiveParentsPromote | backend/apps/identity/selectors.py:49-84 | with at most 16 levels above each granted menu, a seen menu loses its parent if and only if it has none or the parent is inactive |
| MenuTree.RootsLackActiveParents | backend/apps/identity/selectors.py:12-84 | in the tree built over a user's menus a menu is a root if and only if it has no parent or its parent is inactive |
| MenuTree.BuildMenuTree | backend/apps/identity/selectors.py:12-43 | roots and children lists hold exactly the siblings of each parent inside the list, in list order |
| MenuTree.TreeMeans | backend/apps/identity/selectors.py:12-43 | the tree has a node for each listed menu; a child is a listed menu that names the node as its parent, a root one whose parent is none or not listed |
| MenuTree.SiblingsKeepOrder | backend/apps/identity/selectors.py:33-42 | of two siblings the one that comes first in the input comes first in the tree |
| MenuTree.NestingIsPermutation | backend/apps/identity/selectors.py:12-43 | for acyclic parents, listing the built tree depth-first is a permutation of the input |
| MenuTree.NodeCount | backend/apps/identity/selectors.py:34-42 | a node leads to a menu through itself or through exactly one child, exactly when it is on the menu's chain |
| MenuTree.ListOfForestIsForest | backend/apps/identity/selectors.py:12-43 | any list taken from an acyclic table, with absent parents dropped, is acyclic |
| DataScope.FilterMatchesRule | backend/apps/core/selectors.py:144-200 | the conjunction of clauses that is built passes exactly the rows the documented rule allows, for every scope and set of columns |
| DataScope.VisibleIff | backend/apps/core/selectors.py:72-200 | resolving and filtering together: a row is visible if and only if the user is a superuser or the widest tier of the roles shows it, said with roles, grants and chains of departments only |
| DataScope.SingleDimensionFailsClosed | backend/apps/core/selectors.py:122-134 | a factory, department or warehouse scope without a grant, or on a model without the column, shows nothing |
| DataScope.EffectiveIsWidest | backend/apps/identity/models.py:32-43 | the role that decides the tier is one of the widest |
| DataScope.TierIsFirstOf | backend/apps/identity/models.py:32-43 | the tier is the first of all, company, custom, factory, warehouse, department and self that some role has |
| DataScope.OnlyTheSetOfRolesMatters | backend/apps/core/selectors.py:72-141 | neither the order of roles nor a repeated role changes the resolved scope |
| RoleChanges.CanShowIff | backend/apps/core/selectors.py:160-200 | some row can be visible if and only if the scope is unrestricted, asks for own rows of a model with an owner column, or names an id for a column the model has |
| RoleChanges.NeverHidesIff | backend/apps/core/selectors.py:144-200 | for any two scopes of one user, every row of the first is in the second if and only if the first shows nothing or each clause of the second filter is implied by one of the first |
| RoleChanges.NarrowerRoleGrowsScope | backend/apps/core/selectors.py:89-141 | a further role no wider than the widest keeps the tier and adds exactly its own company and, among custom roles, the companies it grants |
| RoleChanges.WiderRoleReplacesScope | backend/apps/core/selectors.py:86-141 | a wider role sets the tier; the ids are then those of its own grants alone, while the companies of all roles still count |
| RoleChanges.ExtraRoleHidesIff | backend/apps/core/selectors.py:72-200 | one more role of any type hides no visible row if and only if nothing was visible, the user is a superuser, or a condition on the present scope and the role's own tier, company and grants holds: a narrower role brings no first company and no first custom object, a wider one covers all companies and objects the user was confined to |
| RoleChanges.KnownCompanyNeverHides | backend/apps/core/selectors.py:93-97 | a role of the same tier hides nothing for company scopes, and for single dimensions once a company is known |
| RoleChanges.WiderRoleHidesOwnRows | backend/apps/core/selectors.py:86-141 | whoever sees own rows only loses those that lie nowhere with any selective role |
| DataScope.DepartmentScopeIsClosed | backend/apps/core/selectors.py:126-130 | whoever sees a department's row sees the same row in a child department |
| Lockout.LockHolds | backend/apps/identity/services.py:134-143 | while the lock lasts, nothing but an unlock or a deactivation changes the count or the lock, and no password is looked at, right or wrong |
| Lockout.NextCheckWaits | backend/apps/identity/models.py:148-152 | for sign-ins that follow each other, after the failure that reaches the limit the next password check is at least the lock time away, unless the account is unlocked or deactivated |
| Lockout.LiftedLockIsGone | backend/apps/identity/services.py:307-339 | an unlock, or a deactivation followed by an activation, gives a fresh account whose next sign-in is checked at once |
| Lockout.FewMissesDoNotLock | backend/apps/identity/models.py:148-152 | fewer failures than the limit since the last success, unlock or deactivation never lock, and are counted exactly |
| Lockout.LooksAtPasswordIff | backend/apps/identity/services.py:134-170 | a password is looked at if and only if the account is active and no lock is in force; a sign-in succeeds exactly if it also matches, and without a look nothing changes |
| Lockout.DisabledStaysOut | backend/apps/identity/services.py:145-149 | after a deactivation no password is looked at, right or wrong, whatever happens, until an activation |
| Lockout.LockoutRate | backend/apps/identity/services.py:116-170 | for sign-ins that follow each other, in any stretch of events from any state, wrong passwords looked at number at most max(1, limit) for the start and each success, unlock or deactivation, plus one for each full lock time |
| Lockout.LockoutRateIsMet | backend/apps/identity/services.py:116-170 | that bound is reached, so no smaller one holds |
| OverlappingSignIns.OverlappingLockoutRate | backend/apps/identity/services.py:116-170 | with at most `most` sign-ins between load and save, in any interleaving from an account that is not locked: wrong passwords looked at number at most most + most^2 + ... + most^max(1, limit) for the start and each reset, plus `most` for each full lock time |
| OverlappingSignIns.WorthIsGeometric | backend/apps/identity/models.py:148-152 | the fixed number in that rate is this geometric sum |
| OverlappingSignIns.WorthAlone | backend/apps/identity/models.py:148-152 | with one at a time that number is max(1, limit), so the sequential rate is the same statement |
| OverlappingSignIns.LoadedTogetherMissTogether | backend/apps/identity/models.py:148-152 | sign-ins loaded together all miss whatever the limit; with a limit of one this is the bound |
| OverlappingSignIns.DecisionMeans | backend/apps/identity/models.py:148-167 | a miss writes one more than the count that was loaded and locks from the limit on, a success clears count and lock, whatever others wrote meanwhile |
| Lockout.User.RegisterLoginFailure | backend/apps/identity/models.py:148-152 | counts one failure and locks from the limit on |
| Lockout.User.RegisterLoginSuccess | backend/apps/identity/models.py:154-167 | clears the count and the lock, leaves the active flag |
| Lockout.User.Unlock | backend/apps/identity/models.py:169-172 | the same for an administrator's unlock |
| Lockout.User.SetUserActive | backend/apps/identity/services.py:307-331 | a deactivation clears the count and the lock, an activation keeps both |
| Lockout.LoginUser | backend/apps/identity/services.py:116-170 | from the old fields: it succeeds if and only if the credentials are given, the account exists, is not locked at the check, is active and the password matches, and then leaves count 0 and no lock; a lock is answered before the active flag and that before the password; a disabled account is answered alike for right and wrong passwords and does not change; a miss is counted and locks from the limit on |
| Maintenance.MissingIff | backend/apps/equipment/services.py:116-156 | the dates to create are exactly the cycle dates up to the limit that have no task |
| Maintenance.MissingAscends | backend/apps/equipment/services.py:116-156 | they come each once and in ascending order, none before the plan's next date |
| Maintenance.FirstPastIsFirst | backend/apps/equipment/services.py:151-155 | the final next date is the first cycle date past the limit |
| Maintenance.RunKeepsOutcome | backend/apps/equipment/services.py:116-156 | any run of calls with any caps and any limits up to a later one does not change what the plan comes to at that one |
| Maintenance.CallShrinksBacklog | backend/apps/equipment/services.py:137-151 | a call works off exactly its cap, and finishes if it has room to spare |
| Maintenance.CappedEqualsUncapped | backend/apps/equipment/services.py:116-156 | repeated capped calls give the same tasks and next date as one uncapped call as soon as their caps add up to more than the backlog |
| Maintenance.NoDateTwice | backend/apps/equipment/services.py:133-150 | (plan, date) stays unique over every run of calls |
| Maintenance.WalkIsCapped | backend/apps/equipment/services.py:137-151 | the cursor walk creates the first missing dates up to the cap and stops past the limit or one cycle after the last one |
| Maintenance.MaintenancePlan.GenerateMaintenanceTasks | backend/apps/equipment/services.py:116-156 | refuses a non-positive cycle, and otherwise is one call with cap 60 that returns what it created |
| Maintenance.MaintenancePlan.CatchUp | backend/apps/equipment/services.py:133-155 | the in-place loop equals one call of the specification for any cap |

## Left out

- Outbox: event types, payloads and the error and time texts on events; a handler that raises writes nothing; one worker's list is bounded by `limit` but its page size default is not modelled.
- Outbox.RunKeepsGood: assumes replays saved only over events no worker holds or has finished, because without that it is false (Replays.ReplayIsSafeIff); back-off is honoured at the scan only, as in the code, which rechecks the status and not the retry time when it claims.
- Idempotency.AtMostOnce: the unique key makes calls of one key wait for each other, so a call is one step; a clean-up between the failed insert and the look-up of the same call is not split off.
- Idempotency: the request hash is taken as the payload itself (an injective hash), and clean-up batching only as the set of rows each batch removes.
- CodeRules: patterns are token lists, so nested braces and the order of the textual replacements are not modelled; years are 1000 to 9999, where four digits print the year.
- CodeRules.IssuedCodesDiffer: the pattern of a rule is fixed during a run; editing it is not modelled.
- AlarmLedger: alarm numbers and texts; a failure of the numbering service rolls the alarm back and is not modelled; status changes of alarms do not touch what the dedup reads.
- Ingest.SlidingWindow: one report at a time; overlapping transactions have their own bound (OverlappingReports.OverlapBound).
- Ingest.DedupHolds: one report at a time; overlapping transactions have their own bound (OverlappingReports.OriginalsBound), and the unique key on readings holds for them too.
- Ingest: gateway and point configuration is fixed during a run; token look-up is only the fact that an unknown or inactive gateway is refused; values are scaled integers, so NaN and infinite decimals are not modelled.
- Offline scan: `detect_offline_gateways` is one guard for each gateway and one `raise_alarm` call; the spacing of its alarms is AlarmLedger.AlarmsAreSpaced.
- Metering: the multiplier is fixed and not negative, and the 28-digit decimal context is not modelled; `finish_run_record` is one guarded computation.
- ReadingStatistics: the checks on window and granularity before the query, labels, and the count of distinct points and gateways.
- Consumption: labels and the final sorting of the result; truncation of reading times uses one time zone, that of the server.
- PermissionCache: entries that expire are evictions; a read that was split over an update may answer old codes, only what it leaves in the cache is constrained.
- PermissionCache.CacheAgrees: leaves out role switches and stale saves of user rows, because with them it is false (PermissionCache.RoleSwitchKeepsCacheIff, PermissionCache.SaveIsSafeIff); the set-up commands, which write roles and links without raising versions, are not modelled.
- Departments: names and codes other than the path; changing the company of a department that has children is accepted by the code and not constrained.
- MenuTree: columns other than id, parent and the active flag; the superuser branch, which takes all active directories and pages without completing ancestors.
- DataScope: which columns each view passes is a parameter.
- Lockout.LockoutRate: one sign-in at a time; overlapping ones have their own rate (OverlappingSignIns.OverlappingLockoutRate). Loading and saving by the administrator's actions is one step.
- Lockout: the counter for each source address in the cache, which refuses before the account is looked at; the look-up by name or phone; attempt and audit rows.
- Maintenance: task numbers, assignees and equipment of the created tasks; the status machine of tasks; dates past the calendar's end.
- Everything else of the repository: views, serializers, settings, scheduling, the order, customer, safety and logistics status machines, exports and the front end.
