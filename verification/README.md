# Room Reserve, verified

Room Reserve lends practice and teaching rooms by the hour. A reservation must be checked into before
its deadline or the hour is forfeited and the holder collects a strike; enough strikes suspend the
account; staff hold rooms for events, close them, record incidents and decide on requests. Nothing runs
in the background except a scheduler tick: before every write the service first brings the tables up to
date ("reconciliation"), under one lock, and then does what was asked, inside a savepoint.

This project models that engine and three smaller cores around it, and proves what they promise over
whole histories.

## How it is laid out

| part | files |
|---|---|
| time, rows, the database, shared checks | `Slots`, `Tables`, `Rules` |
| reconciliation: what each pass must change, and the loops that change it | `Changes`, `Reconcile`, `Reconciler` |
| the operations: what each must do, and how it does it | `Bookings`, `Sanctions`, `Maintenance`, `Operations`; `BookingService`, `SanctionService`, `MaintenanceService` |
| what the operations on single rows mean for everybody | `BookingEffects`, `SanctionEffects`, `SiteEffects` |
| the transaction protocol, the tick, the whole engine | `Protocol`, `Engine`, `Machine`, `Idempotency` |
| the invariant and its proof | `Invariants`, `Ledgers`, `Soundness`, `BodySound` |
| what one user may hold, and where that stops | `Standing`, `BodyStanding`, `Limits` |
| what each check, operation and view means, field by field: when it succeeds, what it stores, what it answers | `FieldRules`, `FieldBookings`, `FieldPasses`, `FieldSanctions`, `FieldSite`, `FieldMachine`, `FieldViews`, `FieldRoster` |
| concrete tables on which a promise fails | `Examples` |
| further theorems of the engine | `FixedPoint`, `LazyEager`, `Evolution`, `Conservation`, `Clearance`, `Notices`, `Backlog`, `MissedHours` |
| the public grid and the staff timeline against the checks | `Availability`, `Offers`, `Timeline` |
| the mail outbox and its workers | `Outbox`, `Delivery` |
| the student roster import | `Roster` |
| the slot identifier in URLs | `SlotCodec` |

The engine's tables are fields of the class `Tables.Database`. Every service is a method that changes
those fields the way the service does, row by row in its loops, and is proved equal to a function on the
tables (`Bookings.CreateAdvance`, `Reconcile.RecordNoShows`, ...). The theorems are about those
functions; `Engine.Handle` ties the two together, one event at a time. The `Field` modules say what the functions
mean without naming them, on the fields of the rows: `FieldPasses.RunSuspends`, for one, says whom a reconciliation
suspends, until when, by counting deadlines and strikes. In `Machine` an event is a request
through the protocol (with its lock timeouts and retries), a tick, a new teaching timetable or a pruning
of old idempotency records, and a history is any sequence of events whose clock does not run backwards.
`Sound` is the invariant of every reachable state: the constraints of the tables and the rules below.

What the model takes as given:

- Instants are whole microseconds; local time is a fixed seven hours ahead, as it has been since 1 April 1920
  (`SlotCodec` has the earlier offset). Where date arithmetic can leave the range of a datetime - reading slot
  identifiers, staff holds - the model says so; elsewhere instants have no bounds.
- A primary key is a position in its table. No service deletes a row, so a request names a missing row only if
  somebody deleted it behind the service's back.
- Accounts and rooms are inputs of a request, as the request read them before the lock; they may be stale.
  Nothing proved here depends on their being fresh.
- The first policy version, which the code stores on first use without validating it, is the constant
  `DEFAULT_POLICY`; later versions are in the validated ranges. The staff horizon, lease, batch and backoff
  are the deployment defaults; the reconciliation budget is a parameter.
- A payload's fingerprint is equal exactly when the payload is. The mail a body queues is a set of dedupe
  keys; its delivery is the separate model in `Outbox` and `Delivery`.
- Users reaching the strike threshold in one run are handled in the order of their first strike; the code
  leaves that order to the database.
- Free texts, audit events and message contents are omitted, except where a check reads them.

What the proofs found in the code:

- `preview_closure` reads the clock again inside the operation. A staff hold that starts between the two
  readings is flagged as if in use and stays open under the closure (`Clearance.HoldSlipsThrough`);
  `Clearance.ClosureClearsExactly` says exactly when that happens.
- A backlog is permanent. A run completes if and only if no pass has more due rows than the budget
  (`Backlog.CompletesExactly`), and a pass over budget touches none of its rows, so once there are too many
  requests, overdue reservations, running holds or ended sessions at one time, every operation is answered
  "busy" and every tick rolls back, for good under that budget (`Backlog.BacklogIsForever`,
  `Backlog.BacklogSilences`; input: `Backlog.CrowdStops`). Overdue reservations that an incident covers are never worked off, so they can add
  up to such a backlog over time (`Backlog.JamIsForever`).
- Adjusting a suspension that is over reopens it beside a later one, exactly when the new end reaches that
  one (`Limits.AdjustKeepsApart`; input: `Limits.AdjustOverlaps`), and, unlike the other ways to suspend,
  cancels nothing (`Limits.AdjustKeepsNothingOpen`; input: `Limits.AdjustLeavesOpen`). Staff holds look at no
  suspension and no cap (`Limits.HoldWhileSuspended`, `Limits.HoldCharges`; inputs:
  `Limits.SuspendedStaffHold`, `Limits.HoldExceedsCaps`).
- Adjusting a suspension clears its end notice so that the new end is announced, but the notice's key
  names only the suspension: the new end is announced exactly when no earlier one was
  (`Notices.AdjustedEndIsAnnounced`; input: `Notices.EndsInSilence`).
- Taking the end off an automatic suspension, or overriding a day with impossible hours that fit 16 bits, and
  nothing else, trips a table constraint and is answered as a slot conflict
  (`Limits.OnlyTheseTripConstraints`; inputs: `Limits.ConstraintsAreTripped`).
- The grid's introduction says expired holds are derived as free; the code shows them as taken
  (`Offers.ExpiredHoldShowsTaken`; input: `Offers.MissedHourShowsTaken`). The model follows the code.
  `Offers.RunFreesExactly` says exactly which held hours a reconciliation frees: a booking still within its grace
  is among them when its holder is suspended in the same run (`Offers.GraceIsNoShield`).
- A closure that ends within the first minute of an hour closes that hour but is not drawn there, so the
  timeline offers an hour the operation refuses; `Timeline.FalseGapExactly` says exactly when, and
  `Timeline.FalseGap` is an input.
- A worker that outlives its lease can withdraw a message another has sent: `Delivery.LateSettle` says exactly
  which late results change a settled row, and `Delivery.SentIsNotFinalForLateWorkers` is a run.
- With address changes allowed, the roster dry run refuses files the real run accepts
  (`Roster.DryRunIsStricterThanTheRun`), exactly those in which an entry takes over a stored address of
  another student (`Roster.DryRunMissesExactly`); `Roster.RealRun` says exactly which files the real run
  accepts.
- An error the protocol does not handle rolls back the whole transaction, the reconciliation before the body
  included. In this model a body ends so exactly when it names a missing row, although `core/services/refs.py`
  promises a clean rejection for that, or when a value overflows: opening hours beyond 16 bits, which the
  database refuses, and a staff hold in the first hours of year 1, which no datetime in UTC can hold
  (`Limits.OnlyTheseFail`, `Limits.FailureUndoesReconciliation`). Both overflows can be requested as they are;
  either keeps a missed hour from being forfeited (`Limits.NoShowIsLost`).
- Reading a slot identifier of 00:00 to 06:42 on the first day of year 1, and no other ASCII text, overflows
  instead of raising the value error its callers expect (`SlotCodec.TooEarlyExactly`; input:
  `SlotCodec.FirstMidnightOverflows`).

## Model

| member | source | states |
|---|---|---|
| Machine.EveryHistoryIsSound | core/models/booking.py:245-311 | After any history the invariant holds: one blocking booking per room and hour, a student's hours two apart, missed hours never taken back, every row constraint, check-ins only in sessions and before the deadline, ends within their hour, cancellations late exactly when the holder made them in the last hour, no booking beyond the farthest horizon, no student's open booking under a closure, no-shows and their violations one to one at the deadline, consumed strikes accounted for, notices exact |
| Machine.EmptyIsSound | core/models/booking.py:245-311 | A database without bookings and with a valid configuration satisfies the invariant, so the histories start somewhere |
| Machine.NextSound | core/services/protocol.py:177-244 | One event of any kind keeps the invariant |
| Machine.AskDid | core/services/protocol.py:177-244 | An operation, whatever its retries, leaves the tables as they were, reconciled, or reconciled and then changed by a body that succeeded - and nothing in between |
| Machine.EveryHistoryEvolves | core/models/booking.py:340-365 | Along any history who booked which hour never changes, terminal statuses are final, a session in use can only complete, consumed strikes stay with their suspension, voids and lifts are final |
| Machine.EveryHistoryKeepsStanding | core/services/quota.py:69-88 | A user who takes no staff holds and whose suspensions are adjusted only while in force never exceeds the largest daily quota and upcoming cap ever in force, is never under two suspensions at once, and has nothing open while suspended |
| Machine.NewcomerInStanding | core/services/eligibility.py:50-56 | A user without bookings or suspensions starts in standing |
| Machine.NextStanding | core/services/eligibility.py:50-56 | One event keeps a behaving user in standing |
| Engine.Handle | core/services/scheduler.py:49-86 | The database method for one event moves the tables exactly as the machine does and re-establishes the invariant |
| Engine.Operate | core/services/protocol.py:145-174 | The retry loop: at most two retries, and the tables and the answer are those of the attempt that decides |
| Engine.OperateOnce | core/services/protocol.py:177-244 | One attempt under the lock: reconcile, look up the record, run the body in its savepoint, store the record |
| Engine.Answering | core/services/protocol.py:199-244 | Refusals and constraint failures roll back to the savepoint, unhandled errors to the start, successes are recorded; the reply is the one `Protocol.OnceCommits` describes |
| Engine.Perform | core/services/protocol.py:218-224 | Every service body run on the database has the outcome and, if it succeeds, the tables its specification gives |
| Engine.RunTick | core/services/scheduler.py:59-67 | A tick reconciles and queues reminders, or leaves the tables alone when the backlog exceeds the budget |
| Engine.EnqueueDueReminders | core/services/reconcile.py:372-407 | Exactly the student reservations inside the lead window get a reminder, each once |
| Tables.Database.Rollback | core/services/protocol.py:218-224 | All tables return to the savepoint |
| Protocol.OnceCommits | core/services/protocol.py:177-244 | For an arbitrary body: a refusal or a replay commits the reconciled tables only, an unhandled error nothing, a success the body on top of the reconciled tables and, if somebody asked under a key, its record; the caller is told what the body returned or raised, or the code of the constraint that failed, is answered from the record exactly if there is one for the caller, operation and key, and as busy only after a stopped run, a lost race for the record or a body that said so |
| Protocol.LostRace | core/services/protocol.py:228-242 | A success that meets a record under its own key is answered from that record and changes nothing more |
| Protocol.OperationCommits | core/services/protocol.py:145-189 | The first of at most three attempts that is not given up decides so, or is answered busy if the lock is taken; three given up are an error that leaves nothing |
| Protocol.StoppedRunKeepsPrefix | core/services/protocol.py:191-195 | A run over budget commits exactly the passes before the one that was too long |
| Protocol.RetriesLeaveNoTrace | core/services/protocol.py:159-174 | The whole retried request equals its one deciding attempt |
| Protocol.AtMostOnce | core/services/protocol.py:200-242 | In any history of requests with arbitrary bodies and of other changes that leave the key alone, the bodies under one user, operation and key take effect at most once, and exactly once if the key gains a record |
| Protocol.RecordsAreKept | core/services/protocol.py:228-242 | Along any such history a stored record is never changed or lost |
| Protocol.RetryIsReplayed | core/services/protocol.py:199-204 | After any such history a repeated request is answered with the recorded code and data, a different payload is refused, and neither changes anything beyond reconciliation |
| Protocol.ServeRequests | core/services/protocol.py:228-242 | One request adds at most its own record, exactly when its body took effect, so the fallback for an existing record cannot happen |
| Idempotency.EveryHistoryActsOnce | core/services/protocol.py:200-242 | In any history of requests, ticks, timetables and prunings of other keys the requests under one key take effect at most once, exactly once if the key gains a record, and the record stays as written |
| Idempotency.EveryHistoryReplays | core/services/protocol.py:199-204 | After any such history a retry is answered with what the first request was told, or refused for another payload, and changes nothing beyond reconciliation |
| Idempotency.PlayIsAfter | core/services/protocol.py:145-244 | The histories of the idempotency theorems are those of the engine |
| Reconciler.RunReconcile | core/services/reconcile.py:32-43 | The six passes in order change the tables as specified, and a backlog stops the run before the pass that is over budget |
| Reconciler.ExpireOverdueApprovals | core/services/reconcile.py:46-76 | The loop rejects exactly the requests whose hour has begun, with a notice each, or changes nothing when over budget |
| Reconciler.RecordOverdueNoShows | core/services/reconcile.py:79-100 | The loop forfeits exactly the overdue reservations no incident covers and appends their strikes in deadline order |
| Reconciler.RecordNoShow | core/services/reconcile.py:103-141 | One reservation becomes a no-show; a strike dated at its deadline is recorded once (`FieldPasses.RunStrikes` says for how long it counts) |
| Reconciler.StartStaffHolds | core/services/reconcile.py:144-174 | Exactly the staff holds whose hour is running go into use from their start |
| Reconciler.CompleteEndedSessions | core/services/reconcile.py:177-204 | Exactly the ended sessions and missed staff holds complete at the end of their hour |
| Reconciler.ApplyStrikeThresholds | core/services/reconcile.py:207-225 | Users at the threshold are suspended one by one unless already suspended |
| Reconciler.CreateAutomaticSuspension | core/services/reconcile.py:228-274 | One suspension consumes every eligible strike of its user and cancels everything the user has open |
| Reconciler.CancelRemaining | core/services/reconcile.py:277-318 | The loop cancels exactly one user's open bookings, with a notice each |
| Reconciler.NotifyFinishedSuspensions | core/services/reconcile.py:321-345 | Each ended, unlifted, unannounced suspension is announced |
| FixedPoint.RunSettles | core/services/reconcile.py:32-43 | A completed run leaves nothing due: no request has started, no hold waits in its hour, no session is past its end, overdue reservations are all covered by incidents, nobody at the threshold is unsuspended, no ended suspension is unannounced |
| FixedPoint.FixedExactlyWhenSettled | core/services/reconcile.py:32-43 | A state is a fixed point of reconciliation if and only if it is settled and its covered overdue reservations fit the budget |
| FixedPoint.RunTwiceIsRunOnce | core/services/reconcile.py:32-43 | A second run at the same time completes and changes nothing |
| LazyEager.LazyEqualsEager | core/services/reconcile.py:46-204 | The lifecycle passes at one time and again later leave the same tables, violation keys and notices included, as one run at the later time, up to the check-in time of staff holds |
| LazyEager.RowLazyIsEager | core/services/reconcile.py:46-204 | The same for one booking |
| LazyEager.StruckConcat | core/services/reconcile.py:79-100 | The strikes of one late run are those of the early run followed by those of the second, in the same order |
| Reconcile.Insert | core/services/reconcile.py:79-91 | Placing one row keeps the due rows in the order of the pass |
| Reconcile.DueAmong | core/services/reconcile.py:79-91 | The rows a pass works through are exactly the due ones, in strictly increasing order of its key and primary key |
| Evolution.RunEvolves | core/services/reconcile.py:32-43 | Reconciliation undoes nothing recorded |
| Evolution.BodyEvolves | core/services/protocol.py:218-224 | No operation that succeeds undoes anything recorded |
| Soundness.RunSound | core/services/reconcile.py:32-43 | Reconciliation, complete or stopped, keeps the invariant |
| Soundness.AutoSuspendSound | core/services/reconcile.py:228-274 | An automatic suspension keeps the invariant, its strikes being exactly the user's eligible ones |
| Soundness.ForfeitSound | core/services/reconcile.py:103-141 | Recording no-shows keeps bookings, violations and notices in step |
| BodySound.BodyKeepsSound | core/services/protocol.py:218-224 | Every operation that succeeds keeps the invariant |
| BodySound.AdvanceSound | core/services/booking.py:112-202 | A granted reservation keeps the invariant; the checks before it are enough, no constraint is needed |
| BodySound.HoldsAdmitted | core/services/booking.py:245-290 | Every prefix of a staff hold's hours keeps the invariant, so no insert of the loop trips a constraint |
| BodySound.MoveSound | core/services/booking.py:357-483 | A move in place keeps the invariant |
| BodySound.ClosureSound | core/services/maintenance.py:74-160 | A new closure meets no student's open booking once it has cancelled what it affects |
| BodySound.FutureNotForfeited | core/services/quota.py:59-66 | No future hour was ever missed |
| Invariants.AdmitKeepsSound | core/models/booking.py:299-310 | A new row that passed the occupancy and adjacency checks keeps exclusivity, spacing and the ban on taking back missed hours |
| Invariants.MoveKeepsSound | core/services/booking.py:407-419 | A booking moved to a free room keeps them too |
| Invariants.RunIsLater | core/services/reconcile.py:32-43 | Reconciliation gives no booking a claim it did not have |
| Ledgers.LedgerKept | core/models/sanctions.py:108-117 | Changes that move nothing into or out of NO_SHOW keep no-shows and violations one to one |
| Standing.RunStanding | core/services/reconcile.py:207-225 | Reconciliation keeps every user in standing |
| Standing.SuspensionAdded | core/services/sanctions.py:146-163 | A suspension given to a user without one in force does not overlap the earlier ones |
| BodyStanding.BodyKeepsStanding | core/services/eligibility.py:50-56 | Every disciplined operation that succeeds keeps every user in standing |
| BodyStanding.AdmitStanding | core/services/quota.py:69-88 | A row admitted by the quota checks keeps its user within the caps |
| Conservation.EveryHistoryConservesStrikes | core/services/reconcile.py:228-245 | After any history the thresholds of a user's automatic suspensions add up to no more than the strikes the user ever collected |
| Conservation.SuspensionsArePaidFor | core/services/reconcile.py:228-245 | The same in every sound state: suspensions consume disjoint sets of strikes, each at least the threshold in force |
| Limits.AdjustKeepsApart | core/services/sanctions.py:190-218 | Adjusting keeps a user's suspensions apart if and only if the new end does not reach the user's next suspension |
| Limits.AdjustKeepsNothingOpen | core/services/sanctions.py:190-218 | Adjusting leaves a suspended user with nothing open if and only if it does not bring the suspension into force over an open booking |
| Limits.AdjustOverlaps | core/services/sanctions.py:194-204 | A suspension that is over can be reopened beside another in force |
| Limits.AdjustLeavesOpen | core/services/sanctions.py:194-204 | An input: reopening a suspension leaves a reservation made since open |
| Limits.HoldWhileSuspended | core/services/booking.py:228-246 | A staff hold respects its holder's suspension if and only if there is none |
| Limits.HoldCharges | core/services/booking.py:228-246 | A staff hold adds all its hours to its holder's quota and upcoming hours, whatever the caps |
| Limits.SuspendedStaffHold | core/services/booking.py:228-246 | An input: a suspended staff member holds a room |
| Limits.HoldExceedsCaps | core/services/booking.py:228-246 | An input: five held hours exceed the daily quota and the cap on hours ahead |
| Limits.UniqueConstraintsHold | core/models/booking.py:299-310 | In every sound state both unique constraints hold |
| Limits.ReclaimOnlyWalkIn | core/services/booking.py:407-408 | The refusal to take back a missed hour never answers a reservation or a move |
| Limits.OnlyTheseTripConstraints | core/services/protocol.py:131-142 | A request trips a table constraint if and only if it takes the end off an automatic suspension or overrides a day with impossible hours that fit 16 bits |
| Limits.ConstraintsAreTripped | core/services/protocol.py:131-142 | Inputs for both, on sound tables, answered as slot conflicts |
| Limits.OnlyTheseFail | core/services/protocol.py:218-226 | A body ends in an unhandled error if and only if the request names a row deleted from outside, or sets opening hours beyond 16 bits, or holds a room in the first hours of year 1 |
| Limits.FailureUndoesReconciliation | core/services/protocol.py:218-226 | Such a request, and no other, is answered with an error once reconciled, and undoes the reconciliation |
| Limits.NoShowIsLost | core/models/room.py:345-346 | Inputs: opening hours of 8 to 40000, and a hold on the first day of year 1, each keep a missed hour from being forfeited |
| Clearance.EveryHistoryKeepsClear | core/services/maintenance.py:89-143 | If every closure's preview reads the clock within the hour of its operation, no open booking, staff holds included, ever meets a closure in force, whichever came first |
| Clearance.ClosureClearsExactly | core/services/maintenance.py:50-61 | A new closure leaves no open booking under a closure if and only if no staff hold starts between the two clock readings |
| Clearance.HoldSlipsThrough | core/services/maintenance.py:50-61 | An input: a hold made on empty tables stays open under the closure |
| Clearance.PreviewSplits | core/services/maintenance.py:56-61 | The preview splits the affected bookings into cancelled and flagged, without overlap or omission |
| Clearance.FlaggedAreInUse | core/services/maintenance.py:50-61 | On reconciled tables read at the same time the flagged bookings are exactly the sessions in use |
| Clearance.BodyKeepsClear | core/services/calendar.py:93-113 | No booking, move, approval or other operation opens anything under a closure |
| Notices.EveryHistoryIsTraceable | core/services/walkin.py:83-92 | Along any history a walk-in that took over a missed hour names the booking of somebody else that missed exactly it, every suspension, lift and end is announced, and every queued message is about something that happened |
| Notices.EmptyIsTraceable | core/services/outbox.py:36-71 | Empty tables are traceable, so the histories start somewhere |
| Notices.MessageIsFresh | core/services/booking.py:435-438 | A reservation, walk-in, edit, move, cancellation or lift always queues a message not queued before: an edit and a move of one booking never share a key |
| Notices.SecondEndIsNotAnnounced | core/services/sanctions.py:200-204 | Once an end was announced, no later end of that suspension is, whatever happens in between: the run marks it and queues nothing |
| Notices.AdjustedEndIsAnnounced | core/services/sanctions.py:200-204 | After an adjustment the new end is announced once it is over if and only if no end of that suspension was ever announced |
| Notices.EndsInSilence | core/services/reconcile.py:321-345 | An input: a prolonged suspension ends a second time without a notice |
| Notices.EveryHistoryKeepsMail | core/services/outbox.py:36-71 | A queued key stays queued along every history, so it is never queued again |
| Notices.BodyKeepsTraceable | core/services/outbox.py:52-71 | No operation leaves an unannounced suspension or an unfounded message |
| Backlog.JamIsForever | core/services/reconcile.py:79-100 | With more covered overdue reservations than the budget, on any tables, the backlog stays and nothing changes any more but requests that expire |
| Backlog.JammedIsBusy | core/services/protocol.py:191-195 | Every request of such an engine is answered busy |
| Backlog.CompletesExactly | core/services/reconcile.py:32-43 | A run completes if and only if no pass has more due rows than the budget when the run begins |
| Backlog.BacklogIsForever | core/services/reconcile.py:86-88 | Once some pass is over budget, some pass is along every history: no booking is ever added, and no suspension, closure, incident or policy is added or changed |
| Backlog.BacklogSilences | core/services/protocol.py:191-195 | In such a history every request granted the lock is answered busy, every tick changes nothing and every run stops |
| Backlog.BusyExactlyWhenBacklogged | core/services/protocol.py:191-195 | A request on backlogged tables is answered busy, and on others its run completes |
| Backlog.CrowdStops | core/services/reconcile.py:79-91 | An input: one missed reservation more than the budget, without any incident, stops the engine |
| Backlog.DueAmongCount | core/services/reconcile.py:86-88 | A pass works through as many rows as are due |
| BookingEffects.TakenStopsEverybody | core/models/booking.py:299-310 | A taken hour is refused to reservations, moves, walk-ins and staff holds alike |
| BookingEffects.ReservationTakes | core/services/booking.py:112-202 | A granted reservation, by an active, verified, approved student's account that is not suspended and in an open room whose audience includes it, is one more row for a free hour, which nobody else gets from then on, waits for approval exactly where asked of its holder, and counts once within both caps |
| BookingEffects.ReserveThenCancel | core/services/cancel.py:30-70 | A reservation can be given back until its hour begins, late exactly in the last hour, and then every hour and every quota is as before it |
| BookingEffects.CancellationFrees | core/services/cancel.py:30-70 | Only staff and, before the start, the holder cancel; a cancellation frees the hour and refunds the quota, is late if and only if the holder makes it within the last hour, and nothing can be done with the booking any more |
| BookingEffects.EditChangesDetails | core/services/booking.py:293-346 | An edit changes nothing but the details and their version; editing back restores the row but for the version |
| BookingEffects.MoveExchangesRooms | core/services/booking.py:357-483 | A move, by an account that may book and that the new room admits, gives up the hour in the old room and takes it in the new one, and changes no other hour and nobody's quota |
| BookingEffects.MoveBack | core/services/booking.py:357-483 | The way back succeeds if and only if the old room still admits the holder and its calendar the hour, and restores every claim |
| BookingEffects.DecisionIsFinal | core/services/booking.py:521-594 | A request is decided once: approval keeps the hour and stops its expiry, rejection frees it and refunds the quota |
| BookingEffects.WalkInTakes | core/services/walkin.py:61-151 | A walk-in, by an account that may book and in an open room without approval or members, takes the free hour in progress, nobody else gets it, and reconciliation completes it at its end |
| BookingEffects.CheckInSaves | core/services/checkin.py:29-74 | A check-in succeeds if and only if the holder or assisting staff make it, at the booking's door if at one, from the start until before the deadline of a scheduled booking, while the holder's account may book; with it a booking can only complete, without it a student's uncovered booking is a no-show from the deadline on |
| BookingService.AssertHoursOpen | core/services/booking.py:240-241 | The hours of a range are checked in order and the first refusal is reported |
| BookingService.CreateStaffHold | core/services/booking.py:216-290 | Either every hour of the range is held or nothing changes |
| BookingService.CancelFuture | core/services/booking.py:497-506 | The occurrences of a series after now are cancelled one by one |
| BookingService.CancelRecurring | core/services/booking.py:486-518 | A series is closed with all its future occurrences |
| MaintenanceService.CancelListed | core/services/maintenance.py:107-135 | Exactly the listed bookings are cancelled, with a notice each |
| MaintenanceService.FlagListed | core/services/maintenance.py:137-143 | Exactly the listed bookings are flagged |
| MaintenanceService.CreateClosure | core/services/maintenance.py:74-160 | A closure is recorded and every booking it affects is cancelled or flagged |
| SiteEffects.RevokedClosesNothing | core/services/maintenance.py:163-184 | After a revocation hours are closed exactly by the other closures; it restores no booking and cannot be repeated |
| SiteEffects.CloseThenRevoke | core/services/maintenance.py:163-184 | Closing and revoking leaves the calendar of every room and hour as it was |
| SiteEffects.EarlyEndKeepsTheHour | core/services/maintenance.py:187-214 | A session completed early keeps its hour taken and its quota charged, and is final |
| SiteEffects.ReviewUndoesFlag | core/services/maintenance.py:217-232 | Resolving a review undoes the flagging of the session and nothing else, and twice is once |
| SiteEffects.OverrideDecidesItsDate | core/services/maintenance.py:235-273 | After an override a room is open on the date if and only if it is within the new hours and neither closed nor taught in; other dates are as before |
| SiteEffects.LastOverrideCounts | core/services/maintenance.py:235-273 | A second override of a date makes the first one void |
| SiteEffects.PolicyBindsTheFuture | core/services/policy.py:83-104 | A new policy version binds the next reservations and the threshold from then on, and no strike or booking recorded before |
| MaintenanceService.CancelInRoom | core/services/maintenance.py:315-341 | The loop cancels the open bookings of a room, with a notice each (`FieldSite.RoomExactly`) |
| MaintenanceService.FlagInRoom | core/services/maintenance.py:342-346 | Exactly the sessions in use of a room are flagged |
| MaintenanceService.DeactivateRoom | core/services/maintenance.py:306-356 | Retiring a room cancels what is open in it and flags its sessions (`FieldSite.RoomExactly`) |
| MaintenanceService.DeactivateAccount | core/services/maintenance.py:359-402 | Retiring an account cancels its open bookings without notices and flags its sessions |
| MaintenanceService.FlagSessionsOf | core/services/maintenance.py:388-392 | Exactly the sessions in use of a user are flagged |
| MaintenanceService.MarkDisrupted | core/services/incidents.py:58-101 | Bookings an incident meets are marked, and the open ones cancelled without penalty if asked |
| MaintenanceService.CreateIncident | core/services/incidents.py:24-122 | An incident is recorded with its effect on bookings |
| MaintenanceService.VoidIncidentViolations | core/services/incidents.py:125-173 | Exactly the unvoided no-show violations inside the incident are voided and counted, and the suspensions to review are listed |
| Maintenance.ToReview | core/services/incidents.py:144-163 | The suspensions to review are exactly those, not lifted, that consumed a voided violation, each once and in order |
| SanctionService.RecordManualViolation | core/services/sanctions.py:25-73 | A violation is recorded and thresholds are applied at once |
| SanctionEffects.VoidedIsNoStrike | core/services/sanctions.py:76-131 | A voided violation is nobody's strike at any time, every other strike and every suspension stays, and staff are asked to review exactly a suspension it led to that is not lifted |
| SanctionEffects.VoidAverts | core/services/sanctions.py:76-131 | A void takes its user below the threshold if and only if the violation was one of exactly as many strikes |
| SanctionEffects.AdjustMovesTheEnd | core/services/sanctions.py:190-218 | After an adjustment the user is suspended exactly from the old start to the new end and when another suspension says so |
| SanctionEffects.AdjustBack | core/services/sanctions.py:190-218 | An adjustment can be taken back but for the mark that the end was announced |
| SanctionEffects.LiftIsFinal | core/services/sanctions.py:221-256 | A lifted suspension never holds again and cannot be changed; users are suspended exactly as the others say |
| SanctionEffects.LiftFrees | core/services/sanctions.py:221-256 | Lifting the suspension in force frees a user whose suspensions do not overlap |
| SanctionService.ApplyManualSuspension | core/services/sanctions.py:134-187 | The suspension in force is adjusted, or a new one is given and everything open cancelled |
| SanctionService.InsertViolation | core/services/sanctions.py:42-73 | A stored violation is followed by the thresholds |
| Sanctions.ActiveSuspension | core/services/sanctions.py:146-150 | A suspension in force is found if and only if there is one |
| Bookings.ReleasedFrom | core/services/walkin.py:83-92 | A forfeited booking of somebody else is found if and only if there is one |
| MissedHours.EveryHistoryMissesOnce | core/services/walkin.py:61-92 | Along any history an hour that was missed is claimed afterwards by walk-ins only, so no hour is missed twice |
| MissedHours.OneToTakeOverFrom | core/services/walkin.py:83-92 | Then a walk-in can take over from one booking at most, so the order in which the database returns them does not matter |
| MissedHours.SteadyKeepsMissedOnce | core/services/walkin.py:61-92 | Rows that age in place, new rows ahead and new walk-ins keep missed hours so |
| MissedHours.BodyIsSteady | core/services/protocol.py:218-224 | No successful operation changes the bookings in any other way |
| Offers.ReservedExactlyWhenOffered | core/services/booking.py:79-125 | With equal horizons a reservation succeeds if and only if the grid offers the hour to the account, the account is active, verified, approved, no teacher's and not suspended, and its other bookings leave room for the hour |
| Offers.UsedExactlyWhenOffered | core/services/walkin.py:61-81 | A walk-in succeeds if and only if the grid offers the hour in progress, the account is as above and its other bookings leave room for the hour |
| Offers.BookableExactly | core/services/availability.py:201-243 | A cell is bookable if and only if the hour is ahead and within the horizon, the room is in use and its audience includes the viewer, the building is open, no closure or class meets the hour and no booking holds it |
| Offers.FreeNowExactly | core/services/availability.py:201-243 | A cell is free now if and only if the hour runs, the room is in use, the building is open, no closure or class meets the hour and no booking holds it |
| Offers.OfferSurvivesRun | core/services/availability.py:1-8 | What the grid offers on tables not yet reconciled it still offers after reconciliation |
| Offers.ExpiredHoldShowsTaken | core/services/availability.py:229-231 | A held hour is never offered and one past its deadline shows as taken; the grid after a completed reconciliation offers the hour in progress if and only if that reconciliation frees it |
| Offers.RunFreesExactly | core/services/reconcile.py:32-43 | A completed reconciliation frees a taken hour if and only if its request went unanswered, its deadline was missed unexcused, or its holder is suspended for strikes in that run while the booking is open |
| Offers.MissedHourShowsTaken | core/services/availability.py:229-231 | An input: twenty minutes into a missed hour |
| Offers.GraceIsNoShield | core/services/reconcile.py:207-274 | An input: a booking within its grace, freed because the threshold was lowered |
| Offers.ClosureReasonMeansClosed | core/services/availability.py:182-189 | The bulk closure lookup finds a closure for an hour if and only if the per-slot query does |
| Offers.BlockReasonFinds | core/services/availability.py:192-198 | The bulk class lookup finds a class for an hour if and only if the per-slot query does |
| Availability.ClosuresFor | core/services/availability.py:102-110 | The grouping loop collects, for every room and for all rooms, the unrevoked closures of the date in table order |
| Availability.WeeklyBlocksForDate | core/services/calendar.py:76-90 | The grouping loop collects each asked room's classes of the date |
| Availability.BookingsBySlot | core/services/availability.py:90-99 | The dictionary holds exactly the blocking bookings of the room on the date |
| Availability.Holder | core/services/availability.py:90-99 | A blocking booking is found if and only if the hour is taken |
| Availability.CellFrom | core/services/availability.py:145-178 | A cell read from the bulk lookups is the cell of the tables |
| Availability.RoomDayCells | core/services/availability.py:113-179 | Every opening hour gets its cell, in order |
| Availability.BookableSlotStarts | core/services/calendar.py:116-135 | The fast path and the slow path alike return exactly the hours of the date the calendar check admits, each once, in order |
| Timeline.GapExactly | core/services/timeline.py:122-129 | An opening hour is a gap if and only if it lies ahead, no class is held, no closure that meets it ends a minute or more into it and no blocking booking holds it |
| Timeline.HoldableExactly | core/services/timeline.py:122-129 | Booking staff within their horizon can hold an hour if and only if it is a gap and no closure meets it |
| Timeline.DrawnExactly | core/services/timeline.py:82-94 | A closure is drawn over an hour if and only if it meets the hour and ends a minute or more into it |
| Timeline.FalseGapExactly | core/services/timeline.py:82-94 | The timeline offers staff an hour they cannot hold if and only if it lies ahead without class or booking, a closure meets it, and every closure that does ends within its first minute |
| Timeline.WholeMinuteGaps | core/services/timeline.py:82-94 | Closures that end on whole minutes are drawn over exactly the hours they close |
| Timeline.FalseGap | core/services/timeline.py:122-129 | An input: a closure of 09:00 to 10:00:30 |
| Timeline.BlockingIsDrawn | core/services/timeline.py:95-101 | Whatever the order of the bookings, the blocking one of a cell is drawn, and some booking is if the cell has any |
| Timeline.CalendarBars | core/services/timeline.py:75-94 | Each class and each closure with hours to draw inside the opening hours gets its bar there, in table order, and exactly the hours under a bar are taken |
| Timeline.BookingsByHour | core/services/timeline.py:95-101 | One scan keeps one booking per hour start |
| Timeline.PlaceBookings | core/services/timeline.py:102-120 | One bar per cell, in the second lane exactly under a class or closure, and exactly the placed hours are taken |
| Timeline.Gaps | core/services/timeline.py:122-129 | The untaken future opening hours, each once, in order |
| Timeline.RoomRow | core/services/timeline.py:66-129 | A room's row: the bars of its classes and closures, then exactly one bar for every opening hour with a booking to draw, showing that booking, and the gaps as specified |
| Outbox.OutboxTable.Enqueue | core/services/outbox.py:36-71 | A key is queued at most once |
| Outbox.OutboxTable.ClaimDue | core/services/outbox.py:74-97 | A batch of rows not locked by another worker is leased and handed out as claims, one per row, and no other row changes |
| Outbox.WhenClaimableAgain | core/services/outbox.py:100-142 | A settled row can be claimed again if and only if its delivery failed with attempts to spare, from the end of its backoff on |
| Outbox.RetrySchedule | core/services/outbox.py:110-134 | A message whose every delivery fails is tried exactly six times, no attempt before the backoffs preceding it are over, the last five hours and 36 minutes after it was due |
| Outbox.OutboxTable.Drain | core/services/notifications.py:215-240 | Claimed is sent plus failed plus stale, every claimed row is settled as its delivery ended and no other row changes |
| Outbox.BatchComesFirst | core/services/outbox.py:84-89 | A batch is all claimable rows no other worker has locked, or as many as the limit with none left out earlier than one taken |
| Delivery.EveryRunIsOrderly | core/services/outbox.py:74-142 | If claims are settled before their lease ends or their worker dies: no row has two live claims, a row is claimed at most six times and accepted at most once, each plus its lost workers, and a sent row was accepted |
| Delivery.EmptyIsOrderly | core/services/outbox.py:74-142 | An outbox without rows is orderly, so the runs start somewhere |
| Delivery.OneClaimEach | core/services/outbox.py:84-97 | Two live claims on a row are the same claim |
| Delivery.TerminalIsFinal | core/services/outbox.py:100-142 | Under the same discipline sent, exhausted and withdrawn rows never change again |
| Delivery.LateSettle | core/services/outbox.py:100-142 | A late worker leaves a settled row's status alone if and only if its delivery ended the same way or failed with attempts to spare |
| Delivery.SentIsNotFinalForLateWorkers | core/services/outbox.py:137-142 | A late worker can withdraw a sent message |
| Roster.ValidationIsExact | core/services/roster.py:120-181 | A file validates if and only if every row is well formed and no identifier or address repeats |
| Roster.Validate | core/services/roster.py:120-176 | The validation loop reports each bad row with its line and first problem, cleans the others, and reports nothing if and only if the file is well formed |
| Roster.RealRun | core/services/roster.py:202-211 | The real run succeeds if and only if every entry agrees with the roster and a held address is freed by an earlier entry; it refreshes the named students, leaves the others, and keeps identifiers and addresses unique |
| Roster.CleanDryRunSucceeds | core/services/roster.py:182-200 | A clean dry run implies that the real run succeeds with the same counts |
| Roster.DryRunIsExact | core/services/roster.py:182-200 | Without address changes the dry run is clean if and only if the real run succeeds |
| Roster.DryRunMissesExactly | core/services/roster.py:182-200 | Of the files the real run accepts with address changes, the dry run is clean on exactly those in which no entry takes an address another student holds |
| Roster.DryRunIsStricterThanTheRun | core/services/roster.py:182-200 | An input: a file handing an address on, refused by the dry run and accepted by the real one |
| Roster.ImportTwiceIsImportOnce | core/services/roster.py:258-305 | Importing a file again succeeds and changes nothing |
| Roster.RefreshLeavesTheFile | core/services/roster.py:400-421 | An import followed by the deactivation of everybody absent leaves exactly the file's students active |
| Roster.ConflictIs | core/services/roster.py:232-255 | An entry conflicts if and only if its identifier disagrees or its address is somebody else's |
| Roster.RosterTable.ImportRows | core/services/roster.py:102-229 | The import as it runs: report, refusal and stored roster as specified, and the roster unchanged unless a real run succeeds |
| Roster.RosterTable.ApplyEntries | core/services/roster.py:202-213 | All entries are applied or none |
| Roster.RosterTable.PreviewEntries | core/services/roster.py:182-200 | The dry run writes nothing and reports every conflict with the stored roster |
| Roster.RosterTable.Apply | core/services/roster.py:258-305 | One student is created, or refreshed cell by cell |
| Roster.RosterTable.DeactivateMissing | core/services/roster.py:400-421 | Exactly the active students absent from the file are deactivated and counted |
| FieldRules.Units | core/services/slots.py:24-30 | The units of time, the local offset and the first instant a datetime can hold |
| FieldRules.Weekdays | core/services/calendar.py:54-73 | Which date is a Monday, and how the days of the week follow |
| FieldRules.RemainingExactly | core/services/slots.py:190-193 | The whole minutes left, and none after the end |
| FieldRules.HorizonExactly | core/services/slots.py:175-179 | The last day of the horizon can be booked, the next cannot |
| FieldRules.StatusClasses | core/models/booking.py:117-125 | Which statuses block an hour, charge the quota, lie ahead and are open |
| FieldRules.PolicyExactly | core/services/policy.py:31-64 | The policy in force is the last version stored, or else the defaults |
| FieldRules.OperatesExactly | core/services/eligibility.py:29-56 | Who may operate: an active, verified, approved account of no teacher without a suspension started, not ended and not lifted; anybody else is told the first of these that fails |
| FieldRules.ReservesRoomExactly | core/services/eligibility.py:59-91 | Who may reserve a room: such an account, in a room in use, of whose members and instruments it is one |
| FieldRules.OpenExactly | core/services/calendar.py:93-113 | When the calendar admits an hour: within the opening hours of its date, under no closure of the room or of all, and in no class |
| FieldRules.QuotaExactly | core/services/quota.py:69-88 | When a user's other bookings admit an hour: none next to it, fewer than the quota that day and than the cap ahead, and this hour not missed; and which refusal comes first |
| FieldBookings.ReserveExactly | core/services/booking.py:79-202 | A reservation succeeds if and only if all this holds for a whole hour ahead within the horizon that nobody has |
| FieldBookings.ReserveStores | core/services/booking.py:128-202 | Every field of the row it stores, its notice and its answer |
| FieldBookings.ReserveTold | core/services/booking.py:79-125 | What a refused reservation is told, in the order of the checks |
| FieldBookings.HoldExactly | core/services/booking.py:216-246 | A staff hold succeeds if and only if staff ask for whole hours of one day ahead, within ninety days, all of them open and free |
| FieldBookings.HoldStores | core/services/booking.py:245-290 | Every field of its rows, and its answer |
| FieldBookings.HoldTold | core/services/booking.py:216-246 | What a refused hold is told |
| FieldBookings.EditExactly | core/services/booking.py:293-346 | When an edit succeeds, what it stores and announces, and what a refused one is told |
| FieldBookings.MoveExactly | core/services/booking.py:357-419 | A move succeeds if and only if the holder moves a pending single booking to another room that admits the holder, is open, free and was not missed at that hour |
| FieldBookings.MoveStores | core/services/booking.py:407-483 | The row, the notice and the answer of a move |
| FieldBookings.MoveTold | core/services/booking.py:357-419 | What a refused move is told |
| FieldBookings.DecideExactly | core/services/booking.py:521-594 | Both decisions on a request, and the refusals of any other |
| FieldBookings.CancelExactly | core/services/cancel.py:30-70 | Who cancels what and when, as what it is stored, and what a refused cancellation is told |
| FieldBookings.SeriesExactly | core/services/booking.py:486-518 | A series is cancelled if and only if it is the caller's, active, and has occurrences ahead, all of them the caller's |
| FieldBookings.SeriesStores | core/services/booking.py:497-518 | Exactly its occurrences ahead are cancelled, with a notice each |
| FieldBookings.UseNowExactly | core/services/walkin.py:61-81 | A walk-in succeeds if and only if the account may operate, the room is open to walk-ins, the hour in progress is open and free, and the user's other bookings admit it |
| FieldBookings.UseNowStores | core/services/walkin.py:83-151 | Every field of its row, its notice and its answer |
| FieldBookings.TakesOverExactly | core/services/walkin.py:83-92 | A walk-in names a missed booking of somebody else for that room and hour, if there is one |
| FieldBookings.UseNowTold | core/services/walkin.py:39-81 | What a refused walk-in is told; a hold within its grace is told apart from other bookings |
| FieldBookings.CheckInExactly | core/services/checkin.py:29-74 | A check-in succeeds if and only if it is the holder's or assisted, at the right door, in time, for a holder who may operate; it changes the status and the time alone |
| FieldBookings.MissingRowsCrash | core/services/refs.py:1-28 | A request about a booking or series that is not there ends in an unhandled error |
| FieldBookings.CheckInTold | core/services/checkin.py:40-61 | What a refused check-in is told |
| FieldPasses.DueExactly | core/services/reconcile.py:46-204 | What each pass finds due, by status, hour and deadline |
| FieldPasses.PassedExactly | core/services/reconcile.py:46-204 | What the four lifecycle passes together make of each booking, by its status, hour, deadline and the incidents |
| FieldPasses.MissesAreRecorded | core/services/reconcile.py:79-141 | The violations they add are one for each missed hour not recorded before, dated at its deadline, in the order of deadlines |
| FieldPasses.StrikesAfterPasses | core/services/reconcile.py:207-225 | After them a user has the strikes from before and one for each missed hour just recorded whose window has not passed |
| FieldPasses.OffendersExactly | core/services/reconcile.py:207-225 | The users considered are those whose strikes reach the threshold |
| FieldPasses.ThresholdsExactly | core/services/reconcile.py:207-318 | Each of them who is not suspended gets one suspension, loses every strike to it and every open booking, with a notice each; nobody else is touched |
| FieldPasses.EndsExactly | core/services/reconcile.py:321-345 | The suspensions marked and announced are those that are over, not lifted and not marked |
| FieldPasses.RunBookings | core/services/reconcile.py:32-43 | What a completed run makes of each booking |
| FieldPasses.RunStrikes | core/services/reconcile.py:103-141 | A missed hour a completed run records counts at a time if and only if it lies from its deadline up to the strike window of the policy in force later, while neither voided nor consumed |
| FieldPasses.RunKeepsViolations | core/services/reconcile.py:228-245 | Of the violations stored before, a run consumes the strikes of the users it suspends and changes nothing else |
| FieldPasses.RunSuspends | core/services/reconcile.py:207-274 | A completed run suspends a user if and only if the user is not suspended and the strikes stored with the missed hours recorded reach the threshold; the suspension lasts exactly the days of the policy |
| FieldPasses.RunMailExactly | core/services/reconcile.py:46-345 | The notices a completed run queues, and no others |
| FieldSanctions.RecordedCounts | core/services/sanctions.py:42-64 | A violation staff record counts from its date for the strike window of the policy |
| FieldSanctions.RecordExactly | core/services/sanctions.py:25-73 | When recording succeeds, what it stores, and whom the thresholds then suspend |
| FieldSanctions.VoidExactly | core/services/sanctions.py:76-131 | When a void succeeds and what it changes |
| FieldSanctions.AdjustExactly | core/services/sanctions.py:190-218 | When an adjustment succeeds and what it changes |
| FieldSanctions.LiftExactly | core/services/sanctions.py:221-256 | When a lift succeeds and what it changes |
| FieldSanctions.SuspendGives | core/services/sanctions.py:134-187 | A user without a suspension in force is suspended from now until the end given, or without end, and loses everything open |
| FieldSanctions.SuspendWithoutReason | core/services/sanctions.py:134-142 | Nobody is suspended without a reason |
| FieldSanctions.SuspendAdjusts | core/services/sanctions.py:146-150 | Otherwise the one in force that started last is adjusted |
| FieldSite.ClosureExactly | core/services/maintenance.py:74-104 | When a closure is accepted, and what a refused one is told |
| FieldSite.ClosureStores | core/services/maintenance.py:89-160 | Which bookings it cancels, which it flags, and that it changes no other |
| FieldSite.RevokeExactly | core/services/maintenance.py:163-184 | When a revocation succeeds and what it changes |
| FieldSite.EarlyEndExactly | core/services/maintenance.py:187-214 | When a session is ended early and what it changes |
| FieldSite.ReviewExactly | core/services/maintenance.py:217-232 | When a review is resolved and what it changes |
| FieldSite.OverrideExactly | core/services/maintenance.py:235-273 | Which overrides are stored, which are refused, which trip a constraint and which overflow |
| FieldSite.PolicyVersionExactly | core/services/policy.py:83-104 | A policy version is accepted if and only if every value is in its range |
| FieldSite.RoomExactly | core/services/maintenance.py:306-356 | Retiring a room: no row of it stays open, each open one is cancelled now because of the room and announced, each session of it is flagged, every other row is as it was and no other notice is queued |
| FieldSite.AccountExactly | core/services/maintenance.py:359-402 | Retiring an account: the same for the rows of its holder, without notices |
| FieldSite.IncidentExactly | core/services/incidents.py:24-57 | When an incident is accepted |
| FieldSite.IncidentStores | core/services/incidents.py:58-122 | Which bookings it marks, and that it cancels the open ones if and only if asked to |
| FieldSite.VoidIncidentExactly | core/services/incidents.py:125-173 | Which violations are voided for an incident, and what is answered |
| FieldSite.ReviewedExactly | core/services/incidents.py:144-163 | Which suspensions the void of an incident lists |
| FieldMachine.TickExactly | core/services/reconcile.py:372-407 | A tick within the budget queues a reminder for exactly the student reservations that begin within the lead; one over it changes nothing |
| FieldMachine.EventsExactly | core/services/protocol.py:247-251 | What each event does to the clock, and what a timetable and a pruning do to the tables |
| FieldMachine.HourRequests | core/services/booking.py:112-290 | A request for hours runs its own operation on its own values |
| FieldMachine.BookingRequests | core/services/booking.py:293-594 | The same of requests about bookings |
| FieldMachine.ViolationRequests | core/services/sanctions.py:25-131 | The same of violations |
| FieldMachine.SuspensionRequests | core/services/sanctions.py:134-256 | The same of suspensions |
| FieldMachine.ClosureRequests | core/services/maintenance.py:74-184 | The same of closures and incidents |
| FieldMachine.SessionRequests | core/services/maintenance.py:187-232 | The same of sessions in use |
| FieldMachine.SiteRequests | core/services/maintenance.py:235-420 | The same of opening hours, retirements and the policy |
| FieldMachine.QueuedExactly | core/services/outbox.py:36-71 | A queued message can be claimed from the time it is due on |
| FieldMachine.LeaseExactly | core/services/outbox.py:84-97 | A claim is a lease of five minutes and one more attempt; fifty rows at once without another limit |
| FieldMachine.ClaimableExactly | core/services/outbox.py:84-89 | Which rows can be claimed, and in which order |
| FieldMachine.SettledExactly | core/services/outbox.py:100-142 | What each kind of result makes of a row, with every backoff |
| FieldViews.ReasonsExactly | core/services/availability.py:182-198 | Which closure's and which class's reason a cell shows |
| FieldViews.ColumnsExactly | core/services/availability.py:113-144 | The hours a date is shown with |
| FieldViews.FreeCellExactly | core/services/availability.py:201-243 | What the grid says of an hour nobody has |
| FieldViews.TakenCellExactly | core/services/availability.py:201-243 | What the grid says of an hour somebody has, by that booking's status and deadline |
| FieldViews.KindExactly | core/services/timeline.py:102-120 | The kind of bar drawn for each status, staff holds apart |
| FieldViews.ClassBarExactly | core/services/timeline.py:75-79 | A class is drawn in the upper lane over its hours within the opening hours, if any |
| FieldViews.ClosureBarExactly | core/services/timeline.py:80-94 | So is a closure over the opening hours it meets and does not leave within their first minute |
| FieldViews.ClassBarsExactly | core/services/timeline.py:75-79 | One bar for each class that has hours to draw, in the order of the table |
| FieldViews.ClosureBarsExactly | core/services/timeline.py:80-94 | One bar for each closure that has hours to draw, in the order of the table |
| FieldSite.NothingIsLeft | core/services/maintenance.py:315-341 | After a room is retired no request and no reservation is left in it |
| FieldViews.FirstIsDrawn | core/services/timeline.py:95-101 | On a cell the first booking of the scan that holds the hour is drawn |
| FieldViews.LastAbsentIsDrawn | core/services/timeline.py:95-101 | Without one the last booking that missed it is drawn |
| FieldViews.NobodyIsDrawn | core/services/timeline.py:95-101 | Cancelled and rejected bookings are never drawn |
| FieldRoster.RegistersExactly | core/services/roster.py:120-150 | Which rows later rows may not repeat |
| FieldRoster.ProblemExactly | core/services/roster.py:120-176 | Each problem of a row, and what it takes to be reported |
| FieldRoster.ErrorsExactly | core/services/roster.py:120-176 | Every bad row is reported once, on its line, in the order of the file |
| FieldRoster.EntriesExactly | core/services/roster.py:162-176 | The entry of each row of a good file, cell by cell |
| FieldRoster.ConflictExactly | core/services/roster.py:232-255 | When an entry has which conflict with the stored roster |
| FieldRoster.RunStores | core/services/roster.py:202-305 | Every cell of every student after a real run |
| FieldRoster.CountsExactly | core/services/roster.py:202-211 | What the counters of a run count |
| FieldRoster.PreviewExactly | core/services/roster.py:182-200 | Which conflicts a dry run reports, and that it counts every other entry once |
| FieldRoster.ImportExactly | core/services/roster.py:102-229 | What an import answers and stores, case by case |
| SlotCodec.DecodeEncoded | core/services/slots.py:50-62 | Reading back the identifier of any instant of the years 1000 to 9999 gives the beginning of its local minute |
| SlotCodec.DecodeEncode | core/services/slots.py:50-62 | It gives the instant itself if and only if the instant is a whole local minute |
| SlotCodec.SlotsAreReadBack | core/services/slots.py:50-62 | Every slot since 1920 is read back as it was written |
| SlotCodec.EncodeInjective | core/services/slots.py:50-53 | Distinct whole local minutes have distinct identifiers |
| SlotCodec.LocalTimes | core/services/slots.py:50-62 | Local time determines the instant, and exactly the local times skipped in 1920 are nobody's |
| SlotCodec.CivilOf | core/services/slots.py:50-53 | The calendar date of a day number is a valid date with that day number |
| SlotCodec.MatchesEncoding | core/services/slots.py:56-62 | The reading pattern splits a written identifier into its fields, although shorter fields are tried too |
| SlotCodec.TooEarlyExactly | core/services/slots.py:56-62 | Reading overflows if and only if the text is read in full as a time up to 06:42 on 1 January of year 1 |
| SlotCodec.FirstMidnightOverflows | core/services/slots.py:56-62 | An input: midnight of that day |
| Slots.FloorToSlotIsTheOnlySlot | core/services/slots.py:44-47 | The slot of an instant is the one aligned start whose hour contains it |
| Slots.SlotStartForInverse | core/services/slots.py:24-26 | Date and hour determine the slot and the slot determines them |
| Slots.AlignedIsSlotStart | core/services/slots.py:33-41 | Every aligned instant is the start of its own date and hour |

## Left out

- Limits.OnlyTheseFail: does not model accounts and rooms deleted from outside, texts the database cannot store and times near the ends of the calendar in other requests than staff holds, because the model has no account and room tables, no free texts and no bounds on instants.
- MaintenanceService.DeactivateRoom: does not model the active flag it clears, because rooms are inputs of a request.
- MaintenanceService.DeactivateAccount: does not model the active flag it clears, because accounts are inputs of a request.
- Account registration, invitations, identity and eligibility decisions: their results are inputs.
- Room seeding, access lists and audience changes: attributes of the room a request reads.
- The creation of weekly series and of rooms: configuration the engine reads.
- Views, forms, rate limiting, rendering, translation, SMTP and the revalidation of a message before it is sent: how a delivery ends is an input of the outbox.
- The status board, the suggestion lists and the month calendar: read-only views that add only easy members.
- The row locks and lock timeouts of PostgreSQL: an attempt either waits too long, is given up by the database, or runs alone.
- The advisory lock, the heartbeat and the mail drain of a tick: the tick here is its control transaction.
- Ages of idempotency records: pruning may remove any set of them.
- Lease tokens: stored by the code and compared by nothing.
- Outbox.OutboxTable.Drain: does not model the time that passes between deliveries, because the code stamps every settlement with the time the drain began.
- SlotCodec.TooEarlyExactly: does not model the other decimal digits the reading pattern accepts, in which the same times overflow, because no identifier is written with them.
- SlotCodec.DecodeEncode: does not model the other decimal digits the reading pattern accepts, because only ASCII digits are written, nor years before 1000, whose written form depends on the platform.
- Roster.Validate: does not model stripping, lower-casing and the aliases of instruments, because the text is taken as the import normalises it.
- BookingEffects.EditChangesDetails: does not model the trimming and length limits of the details, because no check depends on them.
- Availability.RoomDayCells: does not model the viewer's own-booking mark and the remaining minutes, because no rule reads them.
- Timeline.RoomRow: does not model labels, columns and the position of the current time, because no rule reads them.
