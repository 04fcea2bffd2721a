/** The requests, the tick and the outbox in terms of what is stored. */
module FieldMachine {
  import opened Slots
  import opened Tables
  import opened Rules
  import opened Reconcile
  import opened Bookings
  import opened Sanctions
  import opened Maintenance
  import opened Operations
  import opened Protocol
  import opened Machine
  import opened FieldRules
  import O = Outbox

  // ---------------------------------------------------------------- requests

  /** A request for hours runs its own operation with what it says, nothing in it exchanged or made up. */
  lemma HourRequests(db: Db, now: int, actor: User, room: Room, slot: int, hour: int, end: int, details: Details)
    ensures Body(db, now, OnBookings(OpAdvance(actor, room, slot, details))) == CreateAdvance(db, now, actor, room, slot, details)
    ensures Body(db, now, OnBookings(OpStaffHold(actor, room, slot, hour, end, details))) ==
      CreateStaffHold(db, now, actor, room, slot, hour, end, details)
    ensures Body(db, now, OnBookings(OpUseNow(actor, room))) == UseNow(db, now, actor, room)
  {
  }

  /** So does a request about a booking. */
  lemma BookingRequests(db: Db, now: int, actor: User, owner: User, room: Room, id: nat, details: Details,
                        decision: Decision, door: Option<nat>, byStaff: bool)
    ensures Body(db, now, OnBookings(OpDetails(actor, id, details))) == UpdateDetails(db, now, actor, id, details)
    ensures Body(db, now, OnBookings(OpMove(actor, id, room))) == Move(db, now, actor, id, room)
    ensures Body(db, now, OnBookings(OpDecide(id, decision))) == Decide(db, now, id, decision)
    ensures Body(db, now, OnBookings(OpCancel(actor, id, byStaff))) == CancelBooking(db, now, actor, id, byStaff)
    ensures Body(db, now, OnBookings(OpCancelSeries(actor, id))) == CancelSeries(db, now, actor, id)
    ensures Body(db, now, OnBookings(OpCheckIn(actor, owner, id, door, byStaff))) ==
      CheckIn(db, now, actor, owner, id, door, byStaff)
  {
  }

  lemma ViolationRequests(db: Db, now: int, user: nat, id: nat, given: bool, counts: bool, at: Option<int>,
                          incident: Option<nat>, extent: Incident)
    ensures Body(db, now, OnSanctions(OpRecordViolation(user, given, counts, at, incident))) ==
      RecordViolation(db, now, user, given, counts, at, incident)
    ensures Body(db, now, OnSanctions(OpVoidViolation(id, given))) == VoidViolation(db, now, id, given)
    ensures Body(db, now, OnSanctions(OpVoidIncident(id, extent, given))) == VoidIncident(db, now, id, extent, given)
  {
  }

  lemma SuspensionRequests(db: Db, now: int, user: nat, id: nat, given: bool, at: Option<int>)
    ensures Body(db, now, OnSanctions(OpSuspend(user, at, given))) == Suspend(db, now, user, at, given)
    ensures Body(db, now, OnSanctions(OpAdjust(id, at, given))) == Adjust(db, now, id, at, given)
    ensures Body(db, now, OnSanctions(OpLift(id, given))) == Lift(db, now, id, given)
  {
  }

  lemma ClosureRequests(db: Db, now: int, clock: int, scope: Option<nat>, starts: int, ends: int, reason: string,
                        given: bool, yes: bool, id: nat, extent: Incident)
    ensures Body(db, now, OnSite(OpCreateClosure(clock, scope, starts, ends, reason, given, yes))) ==
      CreateClosure(db, now, clock, scope, starts, ends, reason, given, yes)
    ensures Body(db, now, OnSite(OpRevokeClosure(id, given))) == RevokeClosure(db, now, id, given)
    ensures Body(db, now, OnSite(OpCreateIncident(extent, given, yes))) == CreateIncident(db, now, extent, given, yes)
  {
  }

  lemma SessionRequests(db: Db, now: int, id: nat, given: bool)
    ensures Body(db, now, OnSite(OpCompleteEarly(id, given))) == CompleteEarly(db, now, id, given)
    ensures Body(db, now, OnSite(OpResolveReview(id, given))) == ResolveReview(db, now, id, given)
  {
  }

  lemma SiteRequests(db: Db, now: int, date: int, given: bool, yes: bool, id: nat, open: Option<int>, close: Option<int>,
                     account: User, policy: Policy)
    ensures Body(db, now, OnSite(OpSetOverride(date, yes, open, close))) == SetOverride(db, date, yes, open, close)
    ensures Body(db, now, OnSite(OpDeactivateRoom(id, given))) == DeactivateRoom(db, now, id, given)
    ensures Body(db, now, OnSite(OpDeactivateAccount(account, given))) == DeactivateAccount(db, now, account, given)
    ensures Body(db, now, OnSite(OpUpdatePolicy(policy))) == UpdatePolicy(db, policy)
  {
  }

  // ---------------------------------------------------------------- the tick

  /** A reservation of a student, not a walk-in, that begins soon. */
  predicate Soon(b: Booking, now: int, minutes: int) {
    b.status == Scheduled && !b.walkIn && !b.staff && now < b.slot && b.slot - now <= minutes * MINUTE
  }

  /** A tick within the budget reconciles and queues a reminder for each reservation that begins soon; one over the
      budget changes nothing at all. */
  lemma TickExactly(db: Db, now: int, budget: nat)
    ensures var run, next := Run(db, now, budget), TickDb(db, now, budget);
      var bs, minutes := run.db.bookings, CurrentPolicy(run.db).reminderLead;
      && (!run.complete ==> next == db)
      && (run.complete ==>
            && next == run.db.(outbox := next.outbox)
            && forall m :: m in next.outbox <==>
                 m in run.db.outbox || exists i: nat :: i < |bs| && Soon(bs[i], now, minutes) && m == BookingReminder(i))
  {
    var bs := Run(db, now, budget).db.bookings;
    assert forall i, minutes :: 0 <= i < |bs| ==> (Soon(bs[i], now, minutes) <==> ReminderDue(bs[i], now, minutes));
  }

  /** What the events do to the clock, and what the two that run no operation do to the tables. */
  lemma EventsExactly(db: Db, clock: int, attempts: nat -> Attempt, call: Call, op: Op, now: int, blocks: seq<WeeklyBlock>,
                      keys: set<RequestKey>, budget: nat, k: nat)
    ensures 1 <= k <= 3 && (forall j :: 1 <= j < k ==> attempts(j) == Transient) && attempts(k).Granted? ==>
      ClockAfter(clock, Ask(attempts, call, op)) == attempts(k).now
    ensures (forall j :: 1 <= j <= 3 ==> !attempts(j).Granted?) ==> ClockAfter(clock, Ask(attempts, call, op)) == clock
    ensures ClockAfter(clock, Event.Tick(now)) == now && DbAfter(db, Event.Tick(now), budget) == TickDb(db, now, budget)
    ensures ClockAfter(clock, Timetable(blocks)) == clock == ClockAfter(clock, Prune(keys))
    ensures DbAfter(db, Timetable(blocks), budget) == db.(site := db.site.(blocks := blocks))
    ensures var left := DbAfter(db, Prune(keys), budget);
      && left == db.(requests := left.requests)
      && forall key :: (key in left.requests <==> key in db.requests && key !in keys)
                       && (key in left.requests ==> left.requests[key] == db.requests[key])
  {
  }

  // ---------------------------------------------------------------- the outbox

  lemma QueuedExactly(rows: seq<O.Notice>, key: string, due: int, now: int)
    ensures var n := O.Fresh(key, due);
      && n.key == key && n.nextAttempt == due && n.attempts == 0 && n.leaseUntil == None && n.sentAt == None
      && (O.Claimable(n, now) <==> due <= now)
  {
  }

  /** A row can be claimed when its message is still to be sent, its time has come, nobody's lease on it runs and no
      other transaction has it locked; the earlier due comes first, and of two due together the older row. */
  lemma ClaimableExactly(rows: seq<O.Notice>, i: nat, j: nat, now: int, locked: set<nat>)
    requires i < |rows| && j < |rows|
    ensures O.Available(rows, i, now, locked) <==>
      && rows[i].progress == O.Pending && rows[i].nextAttempt <= now && i !in locked
      && (rows[i].leaseUntil != None ==> rows[i].leaseUntil.value <= now)
    ensures O.Earlier(rows, i, j) <==>
      rows[i].nextAttempt < rows[j].nextAttempt || (rows[i].nextAttempt == rows[j].nextAttempt && i < j)
  {
  }

  /** A claim is a lease of five minutes and one more attempt on the row, and nothing else; without a limit, fifty rows
      are claimed at once. */
  lemma LeaseExactly(rows: seq<O.Notice>, ids: seq<nat>, i: nat, now: int, limit: Option<nat>)
    requires i < |rows|
    ensures var n := O.LeaseAll(rows, ids, now)[i];
      && (i !in ids ==> n == rows[i])
      && (i in ids ==> n == O.Notice(key := rows[i].key, nextAttempt := rows[i].nextAttempt,
                                     leaseUntil := Some(now + 5 * MINUTE), attempts := rows[i].attempts + 1,
                                     progress := rows[i].progress, sentAt := rows[i].sentAt))
    ensures O.ClaimOn(rows, i, now) == O.Claim(row := i, attempts := rows[i].attempts + 1, at := now, until := now + 5 * MINUTE)
    ensures O.BatchSize(limit) == if limit == None || limit == Some(0) then 50 else limit.value
  {
  }

  /** A delivered message is sent, a stale one withdrawn and one that failed six times given up; any other failure
      waits one, five, thirty, sixty and then 240 minutes for its next attempt. The lease is over in every case. */
  lemma SettledExactly(n: O.Notice, attempts: nat, result: O.Delivery, now: int)
    ensures var m := O.Settled(n, attempts, result, now);
      var wait := if attempts <= 1 then 1 else if attempts == 2 then 5 else if attempts == 3 then 30
                  else if attempts == 4 then 60 else 240;
      var free := n.(leaseUntil := None);
      && (result == O.Delivered ==> m == free.(progress := O.Sent, sentAt := Some(now)))
      && (result == O.Stale ==> m == free.(progress := O.Withdrawn))
      && (result == O.Failed && attempts >= 6 ==> m == free.(progress := O.Exhausted))
      && (result == O.Failed && attempts < 6 ==> m == free.(nextAttempt := now + wait * MINUTE))
  {
  }
}
