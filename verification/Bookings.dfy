/** Reservations, walk-ins, check-in and cancellation (core/services/booking.py, walkin.py,
    checkin.py, cancel.py), each as the body the protocol runs on the reconciled tables.

    A body that refuses leaves the tables to the protocol, which rolls them back. A row that does
    not exist makes the reload fail with an error nothing handles. */
module Bookings {
  import opened Slots
  import opened Tables
  import opened Rules
  import opened Changes

  /** How far ahead staff may hold rooms, in whole local days (the deployment default). */
  const STAFF_HORIZON_DAYS := 90

  function NewRow(user: nat, room: nat, slot: int, status: Status, deadline: Option<int>, staff: bool,
                  policy: nat, details: Details): Booking {
    Booking(user, room, slot, false, staff, deadline, status, None, None, None, None, None, false, None, false,
            None, None, policy, details, 0)
  }

  // ---------------------------------------------------------------- advance reservation

  function AdvanceTarget(db: Db, now: int, actor: User, room: Room, slot: int): Option<Code> {
    if !HourAligned(slot) then Some(InvalidSlot)
    else if slot <= now < slot + HOUR then Some(StaleHour)
    else if slot <= now then Some(SlotElapsed)
    else if !WithinHorizon(now, slot, CurrentPolicy(db).horizonDays) then Some(OutsideHorizon)
    else if MayReserveRoom(db, actor, room, now).Some? then MayReserveRoom(db, actor, room, now)
    else if SlotOpen(db, slot, room).Some? then SlotOpen(db, slot, room)
    else QuotaAndAdjacency(db, actor.id, slot, room.id, now)
  }

  /** The row a granted advance request becomes. */
  function AdvanceRow(db: Db, now: int, actor: User, room: Room, slot: int, details: Details): Booking {
    var selfApproved := room.requiresApproval && IsBookingStaff(actor);
    NewRow(actor.id, room.id, slot,
           if room.requiresApproval && !selfApproved then PendingApproval else Scheduled,
           Some(slot + CurrentPolicy(db).grace * MINUTE), IsBookingStaff(actor), |db.site.policies|, details)
      .(approvedAt := if selfApproved then Some(now) else None)
  }

  function CreateAdvance(db: Db, now: int, actor: User, room: Room, slot: int, details: Details): BodyResult {
    var refusal := AdvanceTarget(db, now, actor, room, slot);
    if refusal.Some? then Refuse(db, refusal.value)
    else if Taken(db.bookings, room.id, slot) then Refuse(db, SlotTaken)
    else
      var row := AdvanceRow(db, now, actor, room, slot, details);
      var id := |db.bookings|;
      Done(db.(bookings := db.bookings + [row],
               outbox := db.outbox + {if row.status.PendingApproval? then BookingPending(id) else BookingConfirmation(id)}),
           [id])
  }

  // ---------------------------------------------------------------- staff hold

  /** The first of the hours from `hour` to `end` the calendar refuses. */
  function FirstShut(db: Db, room: Room, date: int, hour: int, end: int): Option<Code>
    decreases end - hour
  {
    if hour >= end then None
    else if SlotOpen(db, SlotStartFor(date, hour), room).Some? then SlotOpen(db, SlotStartFor(date, hour), room)
    else FirstShut(db, room, date, hour + 1, end)
  }

  predicate AnyTaken(bs: seq<Booking>, room: nat, date: int, hour: int, end: int) {
    exists h :: hour <= h < end && Taken(bs, room, SlotStartFor(date, h))
  }

  function HoldRow(db: Db, now: int, actor: User, room: Room, slot: int, details: Details): Booking {
    NewRow(actor.id, room.id, slot, Scheduled, Some(slot + CurrentPolicy(db).grace * MINUTE), true, |db.site.policies|,
           details).(approvedAt := Some(now))
  }

  function HoldRows(db: Db, now: int, actor: User, room: Room, date: int, hour: int, count: nat, details: Details)
    : (r: seq<Booking>)
    ensures |r| == count
    ensures forall k :: 0 <= k < count ==> r[k] == HoldRow(db, now, actor, room, SlotStartFor(date, hour + k), details)
  {
    seq(count, k => HoldRow(db, now, actor, room, SlotStartFor(date, hour + k), details))
  }

  function StaffRefusal(db: Db, now: int, actor: User, room: Room, date: int, hour: int, end: int): Option<Code> {
    if !IsBookingStaff(actor) then Some(NotEligible)
    else if !(0 <= hour < end <= 24) then Some(InvalidInput)
    else if SlotStartFor(date, hour) <= now then Some(RangeStarted)
    else if date > LocalDate(now) + STAFF_HORIZON_DAYS then Some(OutsideHorizon)
    else if FirstShut(db, room, date, hour, end).Some? then FirstShut(db, room, date, hour, end)
    else if AnyTaken(db.bookings, room.id, date, hour, end) then Some(RangeTaken)
    else None
  }

  /** The first hour of the range begins before the first instant there is, which is no refusal but an error
      of the date arithmetic. It is computed once the actor and the hours are checked. */
  predicate HourOverflows(actor: User, date: int, hour: int, end: int) {
    IsBookingStaff(actor) && 0 <= hour < end <= 24 && SlotStartFor(date, hour) < FIRST_INSTANT
  }

  function CreateStaffHold(db: Db, now: int, actor: User, room: Room, date: int, hour: int, end: int, details: Details)
    : BodyResult
  {
    var refusal := StaffRefusal(db, now, actor, room, date, hour, end);
    if HourOverflows(actor, date, hour, end) then BodyResult(db, Crashed)
    else if refusal.Some? then Refuse(db, refusal.value)
    else
      Done(db.(bookings := db.bookings + HoldRows(db, now, actor, room, date, hour, end - hour, details)),
           seq(end - hour, k => |db.bookings| + k))
  }

  // ---------------------------------------------------------------- changes by the owner

  function UpdateDetails(db: Db, now: int, actor: User, id: nat, details: Details): BodyResult {
    if id >= |db.bookings| then BodyResult(db, Crashed)
    else
      var b := db.bookings[id];
      if b.user != actor.id then Refuse(db, NotOwner)
      else if !Open(b.status) || now >= b.slot then Refuse(db, TerminalStatus)
      else if b.details == details then Refuse(db, InvalidInput)
      else
        var version := b.detailsVersion + 1;
        Done(db.(bookings := db.bookings[id := b.(details := details, detailsVersion := version)],
                 outbox := db.outbox + {BookingChanged(id, version)}), [id, version])
  }

  predicate TakenByAnother(bs: seq<Booking>, room: nat, slot: int, id: nat) {
    exists i :: 0 <= i < |bs| && i != id && bs[i].room == room && bs[i].slot == slot && Blocking(bs[i].status)
  }

  function MoveRefusal(db: Db, now: int, actor: User, id: nat, room: Room): Option<Code>
    requires id < |db.bookings|
  {
    var b := db.bookings[id];
    if b.user != actor.id then Some(NotOwner)
    else if !Open(b.status) || now >= b.slot then Some(TerminalStatus)
    else if b.series.Some? then Some(RecurringOccurrence)
    else if b.room == room.id then Some(SameRoom)
    else if MayReserveRoom(db, actor, room, now).Some? then MayReserveRoom(db, actor, room, now)
    else if SlotOpen(db, b.slot, room).Some? then SlotOpen(db, b.slot, room)
    else if Forfeited(db.bookings, actor.id, room.id, b.slot) then Some(NoShowReclaim)
    else if TakenByAnother(db.bookings, room.id, b.slot, id) then Some(SlotTaken)
    else None
  }

  function MovedRow(b: Booking, now: int, actor: User, room: Room): Booking {
    var waits := room.requiresApproval && !IsBookingStaff(actor);
    b.(room := room.id,
       status := if waits then PendingApproval else Scheduled,
       approvedAt := if waits then None else if room.requiresApproval then Some(now) else b.approvedAt,
       detailsVersion := b.detailsVersion + 1)
  }

  function Move(db: Db, now: int, actor: User, id: nat, room: Room): BodyResult {
    if id >= |db.bookings| then BodyResult(db, Crashed)
    else
      var refusal := MoveRefusal(db, now, actor, id, room);
      if refusal.Some? then Refuse(db, refusal.value)
      else
        var row := MovedRow(db.bookings[id], now, actor, room);
        Done(db.(bookings := db.bookings[id := row],
                 outbox := db.outbox + {if row.status.PendingApproval? then BookingMovedPending(id, row.detailsVersion)
                                        else BookingChanged(id, row.detailsVersion)}),
             [id, room.id, row.detailsVersion])
  }

  datatype Decision = Approve | Reject | OtherDecision

  function Decide(db: Db, now: int, id: nat, decision: Decision): BodyResult {
    if id >= |db.bookings| then BodyResult(db, Crashed)
    else
      var b := db.bookings[id];
      if !b.status.PendingApproval? then Refuse(db, TerminalStatus)
      else match decision
        case Approve =>
          Done(db.(bookings := db.bookings[id := b.(status := Scheduled, approvedAt := Some(now))],
                   outbox := db.outbox + {BookingApproved(id, now)}), [id])
        case Reject =>
          Done(db.(bookings := db.bookings[id := b.(status := Rejected)],
                   outbox := db.outbox + {BookingRejected(id)}), [id])
        case OtherDecision => Refuse(db, InvalidInput)
  }

  // ---------------------------------------------------------------- cancellation

  function CancelRefusal(b: Booking, now: int, actor: User, staffAction: bool): Option<Code> {
    if !staffAction && b.user != actor.id then Some(NotOwner)
    else if b.status.InUse? then Some(CancelAfterStart)
    else if !Open(b.status) then Some(TerminalStatus)
    else if !staffAction && now >= b.slot then Some(CancelAfterStart)
    else None
  }

  function CancelBooking(db: Db, now: int, actor: User, id: nat, staffAction: bool): BodyResult {
    if id >= |db.bookings| then BodyResult(db, Crashed)
    else
      var b := db.bookings[id];
      var refusal := CancelRefusal(b, now, actor, staffAction);
      if refusal.Some? then Refuse(db, refusal.value)
      else
        Done(db.(bookings := db.bookings[id := Cancel(b, now, if staffAction then ByStaff else ByOwner,
                                                       LateAt(b, now) && !staffAction)],
                 outbox := db.outbox + {BookingCancelled(id)}), [id])
  }

  predicate FutureOccurrence(b: Booking, series: nat, now: int) {
    b.series == Some(series) && Open(b.status) && b.slot > now
  }

  function CancelSeries(db: Db, now: int, actor: User, series: nat): BodyResult {
    if series >= |db.site.series| then BodyResult(db, Crashed)
    else if db.site.series[series].user != actor.id then Refuse(db, NotOwner)
    else if !db.site.series[series].active then Refuse(db, TerminalStatus)
    else if !exists i :: 0 <= i < |db.bookings| && FutureOccurrence(db.bookings[i], series, now)
    then Refuse(db, TerminalStatus)
    else if exists i :: 0 <= i < |db.bookings| && FutureOccurrence(db.bookings[i], series, now)
                          && db.bookings[i].user != actor.id
    then Refuse(db, NotOwner)
    else
      var change := CancelOccurrences(series, now);
      Done(db.(bookings := MapRows(db.bookings, change),
               site := db.site.(series :=
                 db.site.series[series := db.site.series[series].(active := false, cancelledAt := Some(now))]),
               outbox := db.outbox + CancelMail(CancelledBy(db.bookings, change))),
           [series])
  }

  // ---------------------------------------------------------------- the hour in progress

  /** Why the room is not free for the current hour, if it is not. */
  predicate HeldByReservation(bs: seq<Booking>, room: nat, slot: int, now: int) {
    exists i :: 0 <= i < |bs| && bs[i].room == room && bs[i].slot == slot && bs[i].status.Scheduled?
      && bs[i].deadline.Some? && now < bs[i].deadline.value
  }

  function RoomNow(bs: seq<Booking>, room: nat, slot: int, now: int): Option<Code> {
    if !Taken(bs, room, slot) then None
    else if HeldByReservation(bs, room, slot, now) then Some(ReservationHeld)
    else Some(SlotTaken)
  }

  function WalkInRefusal(db: Db, now: int, actor: User, room: Room): Option<Code> {
    var slot := FloorToSlot(now);
    if MayUseRoom(db, actor, room, now).Some? then MayUseRoom(db, actor, room, now)
    else if room.requiresApproval then Some(ApprovalRoomNoWalkIn)
    else if room.membersOnly then Some(MembersRoomNoWalkIn)
    else if SlotOpen(db, slot, room).Some? then SlotOpen(db, slot, room)
    else if RoomNow(db.bookings, room.id, slot, now).Some? then RoomNow(db.bookings, room.id, slot, now)
    else QuotaAndAdjacency(db, actor.id, slot, room.id, now)
  }

  predicate ReleasedBy(b: Booking, user: nat, room: nat, slot: int) {
    b.room == room && b.slot == slot && b.status.NoShow? && b.user != user
  }

  /** The latest forfeited booking of another user for this room and hour. */
  function ReleasedFrom(bs: seq<Booking>, user: nat, room: nat, slot: int): (r: Option<nat>)
    ensures r.Some? ==> r.value < |bs| && ReleasedBy(bs[r.value], user, room, slot)
    ensures r.None? ==> forall i :: 0 <= i < |bs| ==> !ReleasedBy(bs[i], user, room, slot)
  {
    if bs == [] then None
    else if ReleasedBy(bs[|bs| - 1], user, room, slot) then Some(|bs| - 1)
    else ReleasedFrom(bs[..|bs| - 1], user, room, slot)
  }

  function WalkInRow(db: Db, now: int, actor: User, room: Room): Booking {
    NewRow(actor.id, room.id, FloorToSlot(now), InUse, None, false, |db.site.policies|, Details("", "", ""))
      .(walkIn := true, checkedInAt := Some(now),
        releasedFrom := ReleasedFrom(db.bookings, actor.id, room.id, FloorToSlot(now)))
  }

  function UseNow(db: Db, now: int, actor: User, room: Room): BodyResult {
    var refusal := WalkInRefusal(db, now, actor, room);
    if refusal.Some? then Refuse(db, refusal.value)
    else
      Done(db.(bookings := db.bookings + [WalkInRow(db, now, actor, room)],
               outbox := db.outbox + {BookingConfirmation(|db.bookings|)}),
           [|db.bookings|, RemainingMinutes(now, FloorToSlot(now) + HOUR)])
  }

  function CheckInRefusal(db: Db, now: int, actor: User, owner: User, b: Booking, door: Option<nat>,
                          staffAssisted: bool): Option<Code> {
    if !staffAssisted && b.user != actor.id then Some(NotOwner)
    else if door.Some? && b.room != door.value then Some(WrongRoom)
    else if b.status.InUse? then Some(AlreadyCheckedIn)
    else if !b.status.Scheduled? || b.deadline.None? then Some(TerminalStatus)
    else if now < b.slot then Some(CheckInNotOpen)
    else if now >= b.deadline.value then Some(CheckInClosed)
    else CanOperate(db, owner.(id := b.user), now)
  }

  /** `owner` is the holder's account as it stands; `door` the room whose code was scanned. */
  function CheckIn(db: Db, now: int, actor: User, owner: User, id: nat, door: Option<nat>, staffAssisted: bool)
    : BodyResult
  {
    if id >= |db.bookings| then BodyResult(db, Crashed)
    else
      var b := db.bookings[id];
      var refusal := CheckInRefusal(db, now, actor, owner, b, door, staffAssisted);
      if refusal.Some? then Refuse(db, refusal.value)
      else Done(db.(bookings := db.bookings[id := b.(status := InUse, checkedInAt := Some(now))]), [id])
  }
}
