/** Every operation the views run through the protocol, as one request type. The accounts and
    rooms in a request are the copies the request read before the lock, so they may be stale. */
module Operations {
  import opened Tables
  import opened Bookings
  import opened Sanctions
  import opened Maintenance

  /** Requests about bookings. */
  datatype BookingOp =
    | OpAdvance(actor: User, room: Room, slot: int, details: Details)
    | OpStaffHold(actor: User, room: Room, date: int, hour: int, end: int, details: Details)
    | OpDetails(actor: User, booking: nat, details: Details)
    | OpMove(actor: User, booking: nat, room: Room)
    | OpDecide(booking: nat, decision: Decision)
    | OpCancel(actor: User, booking: nat, staffAction: bool)
    | OpCancelSeries(actor: User, series: nat)
    | OpUseNow(actor: User, room: Room)
    | OpCheckIn(actor: User, owner: User, booking: nat, door: Option<nat>, staffAssisted: bool)

  /** Requests about violations and suspensions. */
  datatype SanctionOp =
    | OpRecordViolation(user: nat, reasonGiven: bool, counts: bool, occurredAt: Option<int>, incident: Option<nat>)
    | OpVoidViolation(violation: nat, reasonGiven: bool)
    | OpSuspend(user: nat, endsAt: Option<int>, reasonGiven: bool)
    | OpAdjust(suspension: nat, endsAt: Option<int>, reasonGiven: bool)
    | OpLift(suspension: nat, reasonGiven: bool)
    | OpVoidIncident(incidentId: nat, read: Incident, reasonGiven: bool)

  /** Requests about rooms, accounts, sessions on site, the calendar and the policy. */
  datatype SiteOp =
    | OpCreateClosure(clock: int, scope: Option<nat>, starts: int, ends: int, reason: string, reasonGiven: bool,
                      acknowledged: bool)
    | OpRevokeClosure(closure: nat, reasonGiven: bool)
    | OpCompleteEarly(booking: nat, reasonGiven: bool)
    | OpResolveReview(booking: nat, reasonGiven: bool)
    | OpSetOverride(date: int, isOpen: bool, open: Option<int>, close: Option<int>)
    | OpDeactivateRoom(roomId: nat, reasonGiven: bool)
    | OpDeactivateAccount(account: User, reasonGiven: bool)
    | OpUpdatePolicy(policy: Policy)
    | OpCreateIncident(extent: Incident, reasonGiven: bool, cancelOpen: bool)

  datatype Op = OnBookings(booking: BookingOp) | OnSanctions(sanction: SanctionOp) | OnSite(site: SiteOp)

  function BookingBody(db: Db, now: int, op: BookingOp): BodyResult {
    match op
    case OpAdvance(actor, room, slot, details) => CreateAdvance(db, now, actor, room, slot, details)
    case OpStaffHold(actor, room, date, hour, end, details) =>
      CreateStaffHold(db, now, actor, room, date, hour, end, details)
    case OpDetails(actor, booking, details) => UpdateDetails(db, now, actor, booking, details)
    case OpMove(actor, booking, room) => Move(db, now, actor, booking, room)
    case OpDecide(booking, decision) => Decide(db, now, booking, decision)
    case OpCancel(actor, booking, staffAction) => CancelBooking(db, now, actor, booking, staffAction)
    case OpCancelSeries(actor, series) => CancelSeries(db, now, actor, series)
    case OpUseNow(actor, room) => UseNow(db, now, actor, room)
    case OpCheckIn(actor, owner, booking, door, staffAssisted) =>
      CheckIn(db, now, actor, owner, booking, door, staffAssisted)
  }

  function SanctionBody(db: Db, now: int, op: SanctionOp): BodyResult {
    match op
    case OpRecordViolation(user, reasonGiven, counts, occurredAt, incident) =>
      RecordViolation(db, now, user, reasonGiven, counts, occurredAt, incident)
    case OpVoidViolation(violation, reasonGiven) => VoidViolation(db, now, violation, reasonGiven)
    case OpSuspend(user, endsAt, reasonGiven) => Suspend(db, now, user, endsAt, reasonGiven)
    case OpAdjust(suspension, endsAt, reasonGiven) => Adjust(db, now, suspension, endsAt, reasonGiven)
    case OpLift(suspension, reasonGiven) => Lift(db, now, suspension, reasonGiven)
    case OpVoidIncident(incident, read, reasonGiven) => VoidIncident(db, now, incident, read, reasonGiven)
  }

  function SiteBody(db: Db, now: int, op: SiteOp): BodyResult {
    match op
    case OpCreateClosure(clock, scope, starts, ends, reason, reasonGiven, acknowledged) =>
      CreateClosure(db, now, clock, scope, starts, ends, reason, reasonGiven, acknowledged)
    case OpRevokeClosure(closure, reasonGiven) => RevokeClosure(db, now, closure, reasonGiven)
    case OpCompleteEarly(booking, reasonGiven) => CompleteEarly(db, now, booking, reasonGiven)
    case OpResolveReview(booking, reasonGiven) => ResolveReview(db, now, booking, reasonGiven)
    case OpSetOverride(date, isOpen, open, close) => SetOverride(db, date, isOpen, open, close)
    case OpDeactivateRoom(room, reasonGiven) => DeactivateRoom(db, now, room, reasonGiven)
    case OpDeactivateAccount(user, reasonGiven) => DeactivateAccount(db, now, user, reasonGiven)
    case OpUpdatePolicy(policy) => UpdatePolicy(db, policy)
    case OpCreateIncident(extent, reasonGiven, cancelOpen) => CreateIncident(db, now, extent, reasonGiven, cancelOpen)
  }

  /** What the body of the request does to the reconciled tables at `now`. */
  function Body(db: Db, now: int, op: Op): BodyResult {
    match op
    case OnBookings(booking) => BookingBody(db, now, booking)
    case OnSanctions(sanction) => SanctionBody(db, now, sanction)
    case OnSite(site) => SiteBody(db, now, site)
  }
}
