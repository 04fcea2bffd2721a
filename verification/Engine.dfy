/** The engine as it runs: an operation is tried up to three times, each time under the lock in one
    transaction with a savepoint around its body; a tick reconciles and reminds. */
module Engine {
  import opened Slots
  import opened Tables
  import opened Rules
  import opened Reconcile
  import opened Reconciler
  import opened Operations
  import opened Protocol
  import opened Soundness
  import opened Machine
  import BookingService
  import MaintenanceService
  import SanctionService

  // ---------------------------------------------------------------- bodies

  method PerformBooking(d: Database, now: int, op: BookingOp) returns (e: Exit)
    modifies d
    ensures e == BookingBody(old(d.State()), now, op).exit
    ensures Succeeded(e) ==> d.State() == BookingBody(old(d.State()), now, op).db
  {
    match op
    case OpAdvance(actor, room, slot, details) => e := BookingService.CreateAdvance(d, now, actor, room, slot, details);
    case OpStaffHold(actor, room, date, hour, end, details) =>
      e := BookingService.CreateStaffHold(d, now, actor, room, date, hour, end, details);
    case OpDetails(actor, booking, details) => e := BookingService.UpdateDetails(d, now, actor, booking, details);
    case OpMove(actor, booking, room) => e := BookingService.Move(d, now, actor, booking, room);
    case OpDecide(booking, decision) => e := BookingService.DecideApproval(d, now, booking, decision);
    case OpCancel(actor, booking, staffAction) => e := BookingService.CancelOne(d, now, actor, booking, staffAction);
    case OpCancelSeries(actor, series) => e := BookingService.CancelRecurring(d, now, actor, series);
    case OpUseNow(actor, room) => e := BookingService.UseNow(d, now, actor, room);
    case OpCheckIn(actor, owner, booking, door, staffAssisted) =>
      e := BookingService.CheckIn(d, now, actor, owner, booking, door, staffAssisted);
  }

  method PerformSanction(d: Database, now: int, op: SanctionOp) returns (e: Exit)
    modifies d
    ensures e == SanctionBody(old(d.State()), now, op).exit
    ensures Succeeded(e) ==> d.State() == SanctionBody(old(d.State()), now, op).db
  {
    match op
    case OpRecordViolation(user, reasonGiven, counts, occurredAt, incident) =>
      e := SanctionService.RecordManualViolation(d, now, user, reasonGiven, counts, occurredAt, incident);
    case OpVoidViolation(violation, reasonGiven) => e := SanctionService.VoidOne(d, now, violation, reasonGiven);
    case OpSuspend(user, endsAt, reasonGiven) =>
      e := SanctionService.ApplyManualSuspension(d, now, user, endsAt, reasonGiven);
    case OpAdjust(suspension, endsAt, reasonGiven) =>
      e := SanctionService.AdjustSuspension(d, now, suspension, endsAt, reasonGiven);
    case OpLift(suspension, reasonGiven) => e := SanctionService.LiftSuspension(d, now, suspension, reasonGiven);
    case OpVoidIncident(incident, read, reasonGiven) =>
      e := MaintenanceService.VoidIncidentViolations(d, now, incident, read, reasonGiven);
  }

  method PerformSite(d: Database, now: int, op: SiteOp) returns (e: Exit)
    modifies d
    ensures e == SiteBody(old(d.State()), now, op).exit
    ensures Succeeded(e) ==> d.State() == SiteBody(old(d.State()), now, op).db
  {
    match op
    case OpCreateClosure(clock, scope, starts, ends, reason, reasonGiven, acknowledged) =>
      e := MaintenanceService.CreateClosure(d, now, clock, scope, starts, ends, reason, reasonGiven, acknowledged);
    case OpRevokeClosure(closure, reasonGiven) => e := MaintenanceService.RevokeClosure(d, now, closure, reasonGiven);
    case OpCompleteEarly(booking, reasonGiven) => e := MaintenanceService.CompleteEarly(d, now, booking, reasonGiven);
    case OpResolveReview(booking, reasonGiven) => e := MaintenanceService.ResolveReview(d, now, booking, reasonGiven);
    case OpSetOverride(date, isOpen, open, close) =>
      e := MaintenanceService.SetOverride(d, date, isOpen, open, close);
    case OpDeactivateRoom(room, reasonGiven) => e := MaintenanceService.DeactivateRoom(d, now, room, reasonGiven);
    case OpDeactivateAccount(account, reasonGiven) =>
      e := MaintenanceService.DeactivateAccount(d, now, account, reasonGiven);
    case OpUpdatePolicy(policy) => e := MaintenanceService.UpdatePolicy(d, policy);
    case OpCreateIncident(extent, reasonGiven, cancelOpen) =>
      e := MaintenanceService.CreateIncident(d, now, extent, reasonGiven, cancelOpen);
  }

  method Perform(d: Database, now: int, op: Op) returns (e: Exit)
    modifies d
    ensures e == Body(old(d.State()), now, op).exit
    ensures Succeeded(e) ==> d.State() == Body(old(d.State()), now, op).db
  {
    match op
    case OnBookings(booking) => e := PerformBooking(d, now, booking);
    case OnSanctions(sanction) => e := PerformSanction(d, now, sanction);
    case OnSite(site) => e := PerformSite(d, now, site);
  }

  // ---------------------------------------------------------------- the protocol

  /** Insert the idempotency record of a success, or answer from the record that is there. */
  method StoreRecord(d: Database, call: Call, outcome: Outcome) returns (reply: Reply)
    modifies d
    ensures Ran(d.State(), reply) == Record(old(d.State()), call, outcome)
  {
    if !Keyed(call) {
      return Answer(outcome, false);
    }
    var key := KeyOf(call);
    if key in d.requests {
      return Recall(d.requests[key], call);
    }
    d.requests := d.requests[key := Recorded(call.fingerprint, outcome.code, outcome.data)];
    return Answer(outcome, false);
  }

  /** After reconciliation: answer from the record, or run the body inside a savepoint. `start` is
      what an unhandled error rolls back to. */
  method Answering(d: Database, start: Db, complete: bool, now: int, call: Call, op: Op) returns (reply: Reply)
    modifies d
    ensures Ran(d.State(), reply) == Respond(start, Reconciled(old(d.State()), complete), now, call, BodyFor(op))
  {
    if !complete {
      return Rejection(Busy);
    }
    if Keyed(call) && KeyOf(call) in d.requests {
      return Recall(d.requests[KeyOf(call)], call);
    }
    var savepoint := d.State();
    var e := Perform(d, now, op);
    match e
    case Returned(outcome) =>
      if outcome.ok {
        reply := StoreRecord(d, call, outcome);
      } else {
        d.Rollback(savepoint);
        reply := Answer(outcome, false);
      }
    case Raised(code) =>
      d.Rollback(savepoint);
      reply := Rejection(code);
    case ConstraintFailed(constraint) =>
      d.Rollback(savepoint);
      reply := Rejection(Classify(constraint));
    case Crashed =>
      d.Rollback(start);
      reply := Error;
  }

  method OperateOnce(d: Database, now: int, budget: nat, call: Call, op: Op) returns (reply: Reply)
    modifies d
    ensures Ran(d.State(), reply) == RunOnce(old(d.State()), now, budget, call, BodyFor(op))
  {
    var start := d.State();
    var complete := RunReconcile(d, now, budget);
    reply := Answering(d, start, complete, now, call, op);
  }

  /** One operation, retried when the database gives an attempt up; what a given-up attempt did is
      undone with its transaction. */
  method Operate(d: Database, attempts: nat -> Attempt, budget: nat, call: Call, op: Op) returns (reply: Reply)
    modifies d
    ensures Ran(d.State(), reply) == RunOperation(old(d.State()), attempts, budget, call, BodyFor(op))
  {
    ghost var start := d.State();
    var attempt := 1;
    while attempts(attempt).Transient? && attempt <= MAX_RETRIES
      invariant 1 <= attempt <= MAX_RETRIES + 1 && d.State() == start
      invariant forall k :: 1 <= k < attempt ==> attempts(k).Transient?
    {
      attempt := attempt + 1;
    }
    assert Deciding(attempts) == attempts(attempt);
    RetriesLeaveNoTrace(start, attempts, budget, call, BodyFor(op));
    match attempts(attempt)
    case LockTimeout => reply := Rejection(Busy);
    case Granted(now) => reply := OperateOnce(d, now, budget, call, op);
    case Transient => reply := Error;
  }

  // ---------------------------------------------------------------- the scheduler tick

  lemma ReminderMailSnoc(rows: seq<Booking>, k: nat, now: int, lead: int)
    requires k < |rows|
    ensures ReminderMail(rows[..k + 1], now, lead) ==
      ReminderMail(rows[..k], now, lead) + if ReminderDue(rows[k], now, lead) then {BookingReminder(k)} else {}
  {
    var before, after := ReminderMail(rows[..k], now, lead), ReminderMail(rows[..k + 1], now, lead);
    forall m | m in after
      ensures m in before || (ReminderDue(rows[k], now, lead) && m == BookingReminder(k))
    {
      assert m.booking == k || BookingReminder(m.booking) in before;
    }
  }

  method EnqueueDueReminders(d: Database, now: int)
    modifies d
    ensures d.State() == Remind(old(d.State()), now)
  {
    var lead := CurrentPolicy(d.State()).reminderLead;
    ghost var rows := d.bookings;
    for k := 0 to |d.bookings|
      invariant d.outbox == old(d.outbox) + ReminderMail(rows[..k], now, lead)
      invariant d.State() == old(d.State()).(outbox := d.outbox)
    {
      ReminderMailSnoc(rows, k, now, lead);
      if ReminderDue(d.bookings[k], now, lead) {
        d.outbox := d.outbox + {BookingReminder(k)};
      }
    }
    assert rows[..|rows|] == rows;
  }

  method RunTick(d: Database, now: int, budget: nat)
    modifies d
    ensures d.State() == TickDb(old(d.State()), now, budget)
  {
    var start := d.State();
    var complete := RunReconcile(d, now, budget);
    if complete {
      EnqueueDueReminders(d, now);
    } else {
      d.Rollback(start);
    }
  }

  // ---------------------------------------------------------------- any event

  /** Whatever happens next, the database moves as the machine does and its invariant holds again. */
  method Handle(d: Database, ghost clock: int, e: Event, budget: nat)
    requires Sound(d.State(), clock) && clock <= ClockAfter(clock, e)
    modifies d
    ensures d.State() == DbAfter(old(d.State()), e, budget)
    ensures Sound(d.State(), ClockAfter(clock, e))
  {
    NextSound(State(d.State(), clock), e, budget);
    match e
    case Ask(attempts, call, op) =>
      var reply := Operate(d, attempts, budget, call, op);
    case Tick(now) => RunTick(d, now, budget);
    case Timetable(blocks) => d.site := d.site.(blocks := blocks);
    case Prune(keys) => d.requests := d.requests - keys;
  }
}
