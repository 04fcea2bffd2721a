/** Reservations, walk-ins, check-in and cancellation as they run: each operation reloads its row,
    checks it and saves it field by field. A refused operation leaves its writes, if any, to the
    savepoint the protocol rolls back to. */
module BookingService {
  import opened Slots
  import opened Tables
  import opened Rules
  import opened Changes
  import opened Bookings
  import opened Reconciler

  method CreateAdvance(d: Database, now: int, actor: User, room: Room, slot: int, details: Details) returns (e: Exit)
    modifies d
    ensures e == Bookings.CreateAdvance(old(d.State()), now, actor, room, slot, details).exit
    ensures Succeeded(e) ==> d.State() == Bookings.CreateAdvance(old(d.State()), now, actor, room, slot, details).db
  {
    var refusal := AdvanceTarget(d.State(), now, actor, room, slot);
    if refusal.Some? {
      return Raised(refusal.value);
    }
    if Taken(d.bookings, room.id, slot) {
      return Raised(SlotTaken);
    }
    var policy := CurrentPolicy(d.State());
    var pending := room.requiresApproval;
    var selfApproved := pending && IsBookingStaff(actor);
    if selfApproved {
      pending := false;
    }
    var booking := NewRow(actor.id, room.id, slot, if pending then PendingApproval else Scheduled,
                          Some(slot + policy.grace * MINUTE), IsBookingStaff(actor), |d.site.policies|, details);
    booking := booking.(approvedAt := if selfApproved then Some(now) else None);
    var id := |d.bookings|;
    d.bookings := d.bookings + [booking];
    if pending {
      d.outbox := d.outbox + {BookingPending(id)};
    } else {
      d.outbox := d.outbox + {BookingConfirmation(id)};
    }
    return Success([id]);
  }

  /** The first hour of the range the calendar refuses, looked for hour by hour. */
  method AssertHoursOpen(d: Database, room: Room, date: int, hour: int, end: int) returns (refusal: Option<Code>)
    requires hour <= end
    ensures refusal == FirstShut(d.State(), room, date, hour, end)
  {
    var h := hour;
    while h < end
      invariant hour <= h <= end
      invariant FirstShut(d.State(), room, date, hour, end) == FirstShut(d.State(), room, date, h, end)
    {
      refusal := SlotOpen(d.State(), SlotStartFor(date, h), room);
      if refusal.Some? {
        return;
      }
      h := h + 1;
    }
    return None;
  }

  method CreateStaffHold(d: Database, now: int, actor: User, room: Room, date: int, hour: int, end: int,
                         details: Details) returns (e: Exit)
    modifies d
    ensures e == Bookings.CreateStaffHold(old(d.State()), now, actor, room, date, hour, end, details).exit
    ensures Succeeded(e) ==>
      d.State() == Bookings.CreateStaffHold(old(d.State()), now, actor, room, date, hour, end, details).db
  {
    if !IsBookingStaff(actor) {
      return Raised(NotEligible);
    }
    if !(0 <= hour < end <= 24) {
      return Raised(InvalidInput);
    }
    if SlotStartFor(date, hour) < FIRST_INSTANT {
      return Crashed;
    }
    if SlotStartFor(date, hour) <= now {
      return Raised(RangeStarted);
    }
    if date > LocalDate(now) + STAFF_HORIZON_DAYS {
      return Raised(OutsideHorizon);
    }
    var refusal := AssertHoursOpen(d, room, date, hour, end);
    if refusal.Some? {
      return Raised(refusal.value);
    }
    if AnyTaken(d.bookings, room.id, date, hour, end) {
      return Raised(RangeTaken);
    }
    var policy := CurrentPolicy(d.State());
    var created: seq<int> := [];
    ghost var start := d.State();
    for k := 0 to end - hour
      invariant d.State() == start.(bookings := d.bookings)
      invariant d.bookings == start.bookings + HoldRows(start, now, actor, room, date, hour, k, details)
      invariant created == seq(k, i => |start.bookings| + i)
    {
      var slot := SlotStartFor(date, hour + k);
      var booking := NewRow(actor.id, room.id, slot, Scheduled, Some(slot + policy.grace * MINUTE), true,
                            |d.site.policies|, details);
      booking := booking.(approvedAt := Some(now));
      created := created + [|d.bookings|];
      d.bookings := d.bookings + [booking];
    }
    return Success(created);
  }

  method UpdateDetails(d: Database, now: int, actor: User, id: nat, details: Details) returns (e: Exit)
    modifies d
    ensures e == Bookings.UpdateDetails(old(d.State()), now, actor, id, details).exit
    ensures Succeeded(e) ==> d.State() == Bookings.UpdateDetails(old(d.State()), now, actor, id, details).db
  {
    if id >= |d.bookings| {
      return Crashed;
    }
    var booking := d.bookings[id];
    if booking.user != actor.id {
      return Raised(NotOwner);
    }
    if !Open(booking.status) || now >= booking.slot {
      return Raised(TerminalStatus);
    }
    if booking.details == details {
      return Raised(InvalidInput);
    }
    booking := booking.(details := details);
    booking := booking.(detailsVersion := booking.detailsVersion + 1);
    d.bookings := d.bookings[id := booking];
    d.outbox := d.outbox + {BookingChanged(id, booking.detailsVersion)};
    return Success([id, booking.detailsVersion]);
  }

  method Move(d: Database, now: int, actor: User, id: nat, room: Room) returns (e: Exit)
    modifies d
    ensures e == Bookings.Move(old(d.State()), now, actor, id, room).exit
    ensures Succeeded(e) ==> d.State() == Bookings.Move(old(d.State()), now, actor, id, room).db
  {
    if id >= |d.bookings| {
      return Crashed;
    }
    var refusal := MoveRefusal(d.State(), now, actor, id, room);
    if refusal.Some? {
      return Raised(refusal.value);
    }
    var booking := d.bookings[id];
    if room.requiresApproval && !IsBookingStaff(actor) {
      booking := booking.(status := PendingApproval, approvedAt := None);
    } else {
      booking := booking.(status := Scheduled);
      if room.requiresApproval {
        booking := booking.(approvedAt := Some(now));
      }
    }
    booking := booking.(room := room.id, detailsVersion := booking.detailsVersion + 1);
    d.bookings := d.bookings[id := booking];
    if booking.status.PendingApproval? {
      d.outbox := d.outbox + {BookingMovedPending(id, booking.detailsVersion)};
    } else {
      d.outbox := d.outbox + {BookingChanged(id, booking.detailsVersion)};
    }
    return Success([id, room.id, booking.detailsVersion]);
  }

  method DecideApproval(d: Database, now: int, id: nat, decision: Decision) returns (e: Exit)
    modifies d
    ensures e == Decide(old(d.State()), now, id, decision).exit
    ensures Succeeded(e) ==> d.State() == Decide(old(d.State()), now, id, decision).db
  {
    if id >= |d.bookings| {
      return Crashed;
    }
    var booking := d.bookings[id];
    if !booking.status.PendingApproval? {
      return Raised(TerminalStatus);
    }
    match decision
    case Approve =>
      d.bookings := d.bookings[id := booking.(status := Scheduled, approvedAt := Some(now))];
      d.outbox := d.outbox + {BookingApproved(id, now)};
      return Success([id]);
    case Reject =>
      d.bookings := d.bookings[id := booking.(status := Rejected)];
      d.outbox := d.outbox + {BookingRejected(id)};
      return Success([id]);
    case OtherDecision =>
      return Raised(InvalidInput);
  }

  method CancelOne(d: Database, now: int, actor: User, id: nat, staffAction: bool) returns (e: Exit)
    modifies d
    ensures e == CancelBooking(old(d.State()), now, actor, id, staffAction).exit
    ensures Succeeded(e) ==> d.State() == CancelBooking(old(d.State()), now, actor, id, staffAction).db
  {
    if id >= |d.bookings| {
      return Crashed;
    }
    var booking := d.bookings[id];
    var refusal := CancelRefusal(booking, now, actor, staffAction);
    if refusal.Some? {
      return Raised(refusal.value);
    }
    var late := LateAt(booking, now) && !staffAction;
    d.bookings := d.bookings[id := booking.(status := Cancelled, cancelledAt := Some(now),
                                            cancelReason := Some(if staffAction then ByStaff else ByOwner), late := late)];
    d.outbox := d.outbox + {BookingCancelled(id)};
    return Success([id]);
  }

  predicate SomeoneElses(bs: seq<Booking>, series: nat, now: int, actor: nat) {
    exists i :: 0 <= i < |bs| && FutureOccurrence(bs[i], series, now) && bs[i].user != actor
  }

  /** Cancel the future occurrences of a series one by one, up to one the actor does not own. */
  method CancelFuture(d: Database, now: int, actor: User, series: nat) returns (owned: bool)
    modifies d
    ensures owned == !SomeoneElses(old(d.bookings), series, now, actor.id)
    ensures var change := CancelOccurrences(series, now);
      owned ==> d.State() == old(d.State()).(
        bookings := MapRows(old(d.bookings), change),
        outbox := old(d.outbox) + CancelMail(CancelledBy(old(d.bookings), change)))
  {
    ghost var rows, change := d.bookings, CancelOccurrences(series, now);
    for k := 0 to |d.bookings|
      invariant |d.bookings| == |rows|
      invariant forall i: nat :: i < k ==> d.bookings[i] == Apply(change, rows[i])
      invariant forall i: nat :: k <= i < |rows| ==> d.bookings[i] == rows[i]
      invariant forall i: nat :: i < k && FutureOccurrence(rows[i], series, now) ==> rows[i].user == actor.id
      invariant d.outbox == old(d.outbox) + CancelMail(CancelledBy(rows[..k], change))
      invariant d.State() == old(d.State()).(bookings := d.bookings, outbox := d.outbox)
    {
      CancelMailSnoc(rows, change, k);
      var booking := d.bookings[k];
      if FutureOccurrence(booking, series, now) {
        if booking.user != actor.id {
          return false;
        }
        d.bookings := d.bookings[k := booking.(status := Cancelled, cancelledAt := Some(now),
                                               cancelReason := Some(BySeries), late := LateAt(booking, now))];
        d.outbox := d.outbox + {BookingCancelled(k)};
      }
    }
    assert rows[..|rows|] == rows && d.bookings == MapRows(rows, change);
    return true;
  }

  method CancelRecurring(d: Database, now: int, actor: User, series: nat) returns (e: Exit)
    modifies d
    ensures e == CancelSeries(old(d.State()), now, actor, series).exit
    ensures Succeeded(e) ==> d.State() == CancelSeries(old(d.State()), now, actor, series).db
  {
    if series >= |d.site.series| {
      return Crashed;
    }
    var row := d.site.series[series];
    if row.user != actor.id {
      return Raised(NotOwner);
    }
    if !row.active {
      return Raised(TerminalStatus);
    }
    if !exists i :: 0 <= i < |d.bookings| && FutureOccurrence(d.bookings[i], series, now) {
      return Raised(TerminalStatus);
    }
    var owned := CancelFuture(d, now, actor, series);
    if !owned {
      return Raised(NotOwner);
    }
    d.site := d.site.(series := d.site.series[series := row.(active := false, cancelledAt := Some(now))]);
    return Success([series]);
  }

  method UseNow(d: Database, now: int, actor: User, room: Room) returns (e: Exit)
    modifies d
    ensures e == Bookings.UseNow(old(d.State()), now, actor, room).exit
    ensures Succeeded(e) ==> d.State() == Bookings.UseNow(old(d.State()), now, actor, room).db
  {
    var slot := FloorToSlot(now);
    var refusal := WalkInRefusal(d.State(), now, actor, room);
    if refusal.Some? {
      return Raised(refusal.value);
    }
    var booking := NewRow(actor.id, room.id, slot, InUse, None, false, |d.site.policies|, Details("", "", ""));
    booking := booking.(walkIn := true, checkedInAt := Some(now),
                        releasedFrom := ReleasedFrom(d.bookings, actor.id, room.id, slot));
    var id := |d.bookings|;
    d.bookings := d.bookings + [booking];
    d.outbox := d.outbox + {BookingConfirmation(id)};
    return Success([id, RemainingMinutes(now, slot + HOUR)]);
  }

  method CheckIn(d: Database, now: int, actor: User, owner: User, id: nat, door: Option<nat>, staffAssisted: bool)
    returns (e: Exit)
    modifies d
    ensures e == Bookings.CheckIn(old(d.State()), now, actor, owner, id, door, staffAssisted).exit
    ensures Succeeded(e) ==>
      d.State() == Bookings.CheckIn(old(d.State()), now, actor, owner, id, door, staffAssisted).db
  {
    if id >= |d.bookings| {
      return Crashed;
    }
    var booking := d.bookings[id];
    var refusal := CheckInRefusal(d.State(), now, actor, owner, booking, door, staffAssisted);
    if refusal.Some? {
      return Raised(refusal.value);
    }
    d.bookings := d.bookings[id := booking.(status := InUse, checkedInAt := Some(now))];
    return Success([id]);
  }
}
