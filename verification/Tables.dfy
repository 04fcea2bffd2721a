/** The stored rows (core/models) and the mutable database that holds them.

    A table is a sequence and a primary key is a position in it: keys are handed out in order and
    no service deletes a booking, violation, suspension, closure, incident or policy row. */
module Tables {
  import opened Slots

  datatype Option<+T> = None | Some(value: T)

  // ---------------------------------------------------------------- rows

  datatype Status =
    | PendingApproval | Scheduled | InUse | Completed | NoShow | Cancelled | Rejected

  /** The status reserves its room and hour. */
  predicate Blocking(s: Status) {
    s.PendingApproval? || s.Scheduled? || s.InUse? || s.Completed?
  }

  /** The status is charged against the daily quota. */
  predicate ChargesQuota(s: Status) {
    Blocking(s) || s.NoShow?
  }

  /** The status counts as a held hour until the hour ends. */
  predicate Upcoming(s: Status) {
    s.PendingApproval? || s.Scheduled? || s.InUse?
  }

  /** The booking still lies ahead of its holder: requested or reserved. */
  predicate Open(s: Status) {
    s.PendingApproval? || s.Scheduled?
  }

  datatype CancelReason =
    | ByOwner | ByStaff | BySuspension | ByClosure | ByIncident | ByRoom | ByAccount | BySeries

  datatype Details = Details(title: string, purpose: string, participants: string)

  datatype Booking = Booking(
    user: nat, room: nat, slot: int, walkIn: bool, staff: bool,
    deadline: Option<int>, status: Status, series: Option<nat>,
    approvedAt: Option<int>, checkedInAt: Option<int>,
    cancelledAt: Option<int>, cancelReason: Option<CancelReason>, late: bool,
    actualEnd: Option<int>, needsReview: bool,
    incident: Option<nat>, releasedFrom: Option<nat>, policy: nat,
    details: Details, detailsVersion: nat)
  {
    function End(): int { slot + HOUR }
  }

  /** `noShow` tells the automatic kind from the one recorded by staff. */
  datatype Violation = Violation(
    user: nat, booking: Option<nat>, noShow: bool, occurredAt: int, expiresAt: int,
    counts: bool, voidedAt: Option<int>, consumedBy: Option<nat>, incident: Option<nat>)

  /** `threshold` is the strike threshold an automatic suspension names in its reason text. */
  datatype Suspension = Suspension(
    user: nat, startsAt: int, endsAt: Option<int>, liftedAt: Option<int>,
    auto: bool, threshold: nat, endNotifiedAt: Option<int>)

  datatype Closure = Closure(
    room: Option<nat>, startsAt: int, endsAt: int, revokedAt: Option<int>,
    acknowledged: bool, reason: string)

  /** An empty room set covers every room. */
  datatype Incident = Incident(startsAt: int, endsAt: int, rooms: set<nat>)

  datatype Series = Series(user: nat, active: bool, cancelledAt: Option<int>)

  datatype Policy = Policy(
    horizonDays: int, dailyQuota: int, maxUpcoming: int, grace: int,
    strikeWindow: int, threshold: int, suspensionDays: int, reminderLead: int)

  /** The ranges every stored policy version is validated against. */
  predicate PolicyInRange(p: Policy) {
    && 1 <= p.horizonDays <= 60
    && 1 <= p.dailyQuota <= 10
    && 1 <= p.maxUpcoming <= 20
    && 1 <= p.grace <= 59
    && 1 <= p.strikeWindow <= 365
    && 1 <= p.threshold <= 10
    && 1 <= p.suspensionDays <= 90
    && 1 <= p.reminderLead <= 180
  }

  /** Opening hours `[open, close)` of one date. */
  datatype Hours = Hours(open: int, close: int)

  datatype WeeklyBlock = WeeklyBlock(
    room: nat, weekday: int, startHour: int, endHour: int,
    validFrom: Option<int>, validUntil: Option<int>, reason: string)

  /** One outbox row, named by what its dedupe key contains. */
  datatype Mail =
    | BookingConfirmation(booking: nat)
    | BookingApproved(booking: nat, at: int)
    | BookingPending(booking: nat)
    | BookingMovedPending(booking: nat, version: nat)
    | BookingChanged(booking: nat, version: nat)
    | BookingRejected(booking: nat)
    | BookingCancelled(booking: nat)
    | BookingNoShow(booking: nat)
    | BookingReminder(booking: nat)
    | SuspensionApplied(suspension: nat)
    | SuspensionEnded(suspension: nat)
    | SuspensionLifted(suspension: nat)
    | VoidedUnderReview(violation: nat)

  datatype RequestKey = RequestKey(user: nat, operation: string, key: string)

  datatype Code =
    | Ok | Busy | PayloadMismatch | NotEligible | InactiveAccount | EmailUnverified | AwaitingApproval
    | TeacherReadOnly | Suspended | Closed | RoomMembersOnly | RoomNotForInstrument
    | ApprovalRoomNoWalkIn | MembersRoomNoWalkIn | ClassInSession | InvalidSlot | StaleHour
    | SlotElapsed | OutsideHorizon | AdjacencyConflict | QuotaExceeded | UpcomingLimit
    | NoShowReclaim | SlotTaken | ReservationHeld | RangeStarted | RangeTaken | InvalidInput
    | NotOwner | TerminalStatus | RecurringOccurrence | SameRoom | WrongRoom | AlreadyCheckedIn
    | CheckInNotOpen | CheckInClosed | CancelAfterStart

  datatype Recorded = Recorded(fingerprint: string, code: Code, data: seq<int>)

  /** The tables staff and deployment keep: closures, incidents, weekly series, policy versions,
      date overrides and the teaching timetable. */
  datatype Site = Site(
    closures: seq<Closure>, incidents: seq<Incident>, series: seq<Series>,
    policies: seq<Policy>, overrides: map<int, Option<Hours>>, blocks: seq<WeeklyBlock>)

  datatype Db = Db(
    bookings: seq<Booking>, violations: seq<Violation>, suspensions: seq<Suspension>,
    outbox: set<Mail>, requests: map<RequestKey, Recorded>, site: Site)

  // ------------------------------------------------- records read by a request

  datatype Eligibility = EligibilityPending | EligibilityApproved | EligibilityRejected

  /** An account as the request read it; `memberRooms` are the access lists naming it. */
  datatype User = User(
    id: nat, active: bool, verified: bool, eligibility: Eligibility, teacher: bool,
    superuser: bool, operational: bool, category: Option<nat>, memberRooms: set<nat>)

  /** A room as the request read it. `restricted` rooms admit the categories in `allowed`. */
  datatype Room = Room(
    id: nat, active: bool, requiresApproval: bool, availabilityOnly: bool, membersOnly: bool,
    restricted: bool, allowed: set<nat>)

  // ---------------------------------------------------------------- results

  datatype Outcome = Outcome(ok: bool, code: Code, data: seq<int>)

  datatype Constraint = RoomSlotUnique | UserSlotUnique | RequestUnique | OtherConstraint

  /** How a service body ends: it returns, raises a rejection, trips a table constraint, or fails
      with an error the protocol does not handle. */
  datatype Exit = Returned(outcome: Outcome) | Raised(code: Code)
    | ConstraintFailed(constraint: Constraint) | Crashed

  predicate Succeeded(e: Exit) {
    e.Returned? && e.outcome.ok
  }

  datatype BodyResult = BodyResult(db: Db, exit: Exit)

  function Done(db: Db, data: seq<int>): BodyResult {
    BodyResult(db, Success(data))
  }

  function Success(data: seq<int>): Exit {
    Returned(Outcome(true, Ok, data))
  }

  function Refuse(db: Db, code: Code): BodyResult {
    BodyResult(db, Raised(code))
  }

  // ---------------------------------------------------------------- the database

  class Database {
    var bookings: seq<Booking>
    var violations: seq<Violation>
    var suspensions: seq<Suspension>
    var outbox: set<Mail>
    var requests: map<RequestKey, Recorded>
    var site: Site

    /** The contents seen inside the current transaction. */
    function State(): Db
      reads this
    {
      Db(bookings, violations, suspensions, outbox, requests, site)
    }

    /** A database opened on the given contents. */
    constructor (db: Db)
      ensures State() == db
    {
      bookings, violations, suspensions := db.bookings, db.violations, db.suspensions;
      outbox, requests, site := db.outbox, db.requests, db.site;
    }

    /** Roll back to an earlier savepoint. */
    method Rollback(savepoint: Db)
      modifies this
      ensures State() == savepoint
    {
      bookings, violations, suspensions := savepoint.bookings, savepoint.violations, savepoint.suspensions;
      outbox, requests, site := savepoint.outbox, savepoint.requests, savepoint.site;
    }
  }
}
