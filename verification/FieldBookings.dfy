/** The operations on bookings in terms of what is stored: the fields on which each succeeds, every field of the
    row and every message it leaves, and what a refused caller is told. */
module FieldBookings {
  import opened Slots
  import opened Tables
  import opened Rules
  import opened Changes
  import opened Bookings
  import opened FieldRules

  // ---------------------------------------------------------------- advance reservation

  /** A student's hour can be reserved: a whole hour ahead, within the horizon. */
  predicate Reservable(db: Db, now: int, slot: int) {
    slot % HOUR == 0 && now < slot && LocalDate(slot) <= LocalDate(now) + CurrentPolicy(db).horizonDays
  }

  lemma WholeHours(t: int)
    ensures HourAligned(t) <==> t % HOUR == 0
  {
    var q, r := t / HOUR, t % HOUR;
    assert t + OFFSET == (q + 7) * HOUR + r;
    assert (t + OFFSET) % HOUR == r;
  }

  /** A reservation succeeds exactly on these grounds. */
  lemma ReserveExactly(db: Db, now: int, actor: User, room: Room, slot: int, details: Details)
    ensures Succeeded(CreateAdvance(db, now, actor, room, slot, details).exit) <==>
      var bs, p := db.bookings, CurrentPolicy(db);
      && Reservable(db, now, slot) && GoodAccount(actor) && !Barred(db, actor.id, now)
      && room.active && !room.availabilityOnly && Admitted(actor, room)
      && OpenAt(db, slot) && !Shut(db, slot, room.id) && !Taught(db, slot, room.id)
      && !Crowded(bs, actor.id, slot) && |OfTheDay(bs, actor.id, LocalDate(slot))| < p.dailyQuota
      && |Ahead(bs, actor.id, now)| < p.maxUpcoming && !Missed(bs, actor.id, room.id, slot)
      && !Occupied(bs, room.id, slot)
  {
    WholeHours(slot);
    ReservesRoomExactly(db, actor, room, now);
    OpenExactly(db, slot, room);
    QuotaExactly(db, actor.id, slot, room.id, now);
    OccupiedExactly(db.bookings, room.id, slot);
  }

  /** What it stores. */
  lemma ReserveStores(db: Db, now: int, actor: User, room: Room, slot: int, details: Details)
    requires Succeeded(CreateAdvance(db, now, actor, room, slot, details).exit)
    ensures var waits, id := room.requiresApproval && !Staffed(actor), |db.bookings|;
      var row := Booking(
        user := actor.id, room := room.id, slot := slot, walkIn := false, staff := Staffed(actor),
        deadline := Some(slot + CurrentPolicy(db).grace * MINUTE), status := if waits then PendingApproval else Scheduled,
        series := None, approvedAt := if room.requiresApproval && Staffed(actor) then Some(now) else None,
        checkedInAt := None, cancelledAt := None, cancelReason := None, late := false, actualEnd := None,
        needsReview := false, incident := None, releasedFrom := None, policy := |db.site.policies|, details := details,
        detailsVersion := 0);
      CreateAdvance(db, now, actor, room, slot, details) ==
        BodyResult(db.(bookings := db.bookings + [row],
                       outbox := db.outbox + {if waits then BookingPending(id) else BookingConfirmation(id)}),
                   Returned(Outcome(true, Ok, [id])))
  {
    StaffExactly(actor);
  }

  /** What a refused student is told: about the hour first, then about the account and the room, the calendar,
      the student's other bookings, and last about somebody else's. */
  lemma ReserveTold(db: Db, now: int, actor: User, room: Room, slot: int, details: Details)
    ensures var exit := CreateAdvance(db, now, actor, room, slot, details).exit;
      var access, open := MayReserveRoom(db, actor, room, now), SlotOpen(db, slot, room);
      var quota := QuotaAndAdjacency(db, actor.id, slot, room.id, now);
      && (slot % HOUR != 0 ==> exit == Raised(InvalidSlot))
      && (slot % HOUR == 0 && slot <= now < slot + HOUR ==> exit == Raised(StaleHour))
      && (slot % HOUR == 0 && slot + HOUR <= now ==> exit == Raised(SlotElapsed))
      && (slot % HOUR == 0 && now < slot && !Reservable(db, now, slot) ==> exit == Raised(OutsideHorizon))
      && (Reservable(db, now, slot) && access != None ==> exit == Raised(access.value))
      && (Reservable(db, now, slot) && access == None && open != None ==> exit == Raised(open.value))
      && (Reservable(db, now, slot) && access == None && open == None && quota != None ==> exit == Raised(quota.value))
      && (Reservable(db, now, slot) && access == None && open == None && quota == None && exit.Raised? ==>
            exit == Raised(SlotTaken))
  {
    WholeHours(slot);
    OccupiedExactly(db.bookings, room.id, slot);
  }

  // ---------------------------------------------------------------- staff holds

  ghost predicate Holdable(db: Db, room: Room, date: int, h: int) {
    var slot := SlotStartFor(date, h);
    OpenAt(db, slot) && !Shut(db, slot, room.id) && !Taught(db, slot, room.id) && !Occupied(db.bookings, room.id, slot)
  }

  lemma {:induction false} FirstShutIsFirst(db: Db, room: Room, date: int, hour: int, end: int)
    ensures var told := FirstShut(db, room, date, hour, end);
      && (told == None <==> forall h :: hour <= h < end ==> SlotOpen(db, SlotStartFor(date, h), room) == None)
      && (told != None ==> exists h :: hour <= h < end && FirstRefused(db, room, date, hour, h, told))
    decreases end - hour
  {
    if hour < end {
      FirstShutIsFirst(db, room, date, hour + 1, end);
      var told := FirstShut(db, room, date, hour, end);
      if SlotOpen(db, SlotStartFor(date, hour), room).Some? {
        assert FirstRefused(db, room, date, hour, hour, told);
      } else if told != None {
        var h :| hour + 1 <= h < end && FirstRefused(db, room, date, hour + 1, h, told);
        assert FirstRefused(db, room, date, hour, h, told);
      }
    }
  }

  /** The calendar refuses hour `h` so, and none from `hour` before it. */
  ghost predicate FirstRefused(db: Db, room: Room, date: int, hour: int, h: int, told: Option<Code>) {
    && SlotOpen(db, SlotStartFor(date, h), room) == told
    && forall k :: hour <= k < h ==> SlotOpen(db, SlotStartFor(date, k), room) == None
  }

  lemma HoldExactly(db: Db, now: int, actor: User, room: Room, date: int, hour: int, end: int, details: Details)
    ensures Succeeded(CreateStaffHold(db, now, actor, room, date, hour, end, details).exit) <==>
      && Staffed(actor) && 0 <= hour < end <= 24 && FIRST_INSTANT <= SlotStartFor(date, hour)
      && now < SlotStartFor(date, hour) && date - LocalDate(now) <= 90 && room.active
      && forall h :: hour <= h < end ==> Holdable(db, room, date, h)
  {
    StaffExactly(actor);
    FirstShutIsFirst(db, room, date, hour, end);
    forall h
      ensures (SlotOpen(db, SlotStartFor(date, h), room) == None && !Taken(db.bookings, room.id, SlotStartFor(date, h)))
              <==> (room.active && Holdable(db, room, date, h))
    {
      OpenExactly(db, SlotStartFor(date, h), room);
      OccupiedExactly(db.bookings, room.id, SlotStartFor(date, h));
    }
    if 0 <= hour < end {
      assert SlotOpen(db, SlotStartFor(date, hour), room) == None ==> room.active;
    }
  }

  lemma HoldStores(db: Db, now: int, actor: User, room: Room, date: int, hour: int, end: int, details: Details)
    requires Succeeded(CreateStaffHold(db, now, actor, room, date, hour, end, details).exit)
    ensures var r := CreateStaffHold(db, now, actor, room, date, hour, end, details);
      && r.db == db.(bookings := r.db.bookings) && |r.db.bookings| == |db.bookings| + (end - hour)
      && (forall i :: 0 <= i < |db.bookings| ==> r.db.bookings[i] == db.bookings[i])
      && |r.exit.outcome.data| == end - hour
      && forall k :: 0 <= k < end - hour ==>
           && r.exit.outcome.data[k] == |db.bookings| + k
           && r.db.bookings[|db.bookings| + k] == Booking(
                user := actor.id, room := room.id, slot := SlotStartFor(date, hour + k), walkIn := false, staff := true,
                deadline := Some(SlotStartFor(date, hour + k) + CurrentPolicy(db).grace * MINUTE), status := Scheduled,
                series := None, approvedAt := Some(now), checkedInAt := None, cancelledAt := None, cancelReason := None,
                late := false, actualEnd := None, needsReview := false, incident := None, releasedFrom := None,
                policy := |db.site.policies|, details := details, detailsVersion := 0)
  {
  }

  lemma HoldTold(db: Db, now: int, actor: User, room: Room, date: int, hour: int, end: int, details: Details)
    ensures var exit, first := CreateStaffHold(db, now, actor, room, date, hour, end, details).exit, SlotStartFor(date, hour);
      var open := FirstShut(db, room, date, hour, end);
      var inTime := FIRST_INSTANT <= first && now < first;
      var sane := Staffed(actor) && 0 <= hour < end <= 24;
      && (!Staffed(actor) ==> exit == Raised(NotEligible))
      && (Staffed(actor) && !(0 <= hour < end <= 24) ==> exit == Raised(InvalidInput))
      && (sane && first < FIRST_INSTANT ==> exit == Crashed)
      && (sane && FIRST_INSTANT <= first <= now ==> exit == Raised(RangeStarted))
      && (sane && inTime && date - LocalDate(now) > 90 ==> exit == Raised(OutsideHorizon))
      && (sane && inTime && date - LocalDate(now) <= 90 && open != None ==> exit == Raised(open.value))
      && (sane && inTime && date - LocalDate(now) <= 90 && open == None && exit.Raised? ==> exit == Raised(RangeTaken))
  {
    StaffExactly(actor);
  }

  // ---------------------------------------------------------------- changes to one booking

  /** The table with one row replaced and messages added. */
  function WithRow(db: Db, id: nat, row: Booking, mail: set<Mail>): Db
    requires id < |db.bookings|
  {
    db.(bookings := db.bookings[id := row], outbox := db.outbox + mail)
  }

  /** The booking is still ahead of its holder. */
  predicate Pending(b: Booking, now: int) {
    (b.status == PendingApproval || b.status == Scheduled) && now < b.slot
  }

  lemma EditExactly(db: Db, now: int, actor: User, id: nat, details: Details)
    requires id < |db.bookings|
    ensures var r, b := UpdateDetails(db, now, actor, id, details), db.bookings[id];
      && (Succeeded(r.exit) <==> b.user == actor.id && Pending(b, now) && b.details != details)
      && (b.user != actor.id ==> r.exit == Raised(NotOwner))
      && (b.user == actor.id && !Pending(b, now) ==> r.exit == Raised(TerminalStatus))
      && (b.user == actor.id && Pending(b, now) && b.details == details ==> r.exit == Raised(InvalidInput))
      && (Succeeded(r.exit) ==>
            && r.exit == Returned(Outcome(true, Ok, [id, b.detailsVersion + 1]))
            && r.db == WithRow(db, id, b.(details := details, detailsVersion := b.detailsVersion + 1),
                               {BookingChanged(id, b.detailsVersion + 1)}))
  {
  }

  lemma MoveExactly(db: Db, now: int, actor: User, id: nat, room: Room)
    requires id < |db.bookings|
    ensures var b := db.bookings[id];
      Succeeded(Move(db, now, actor, id, room).exit) <==>
      && b.user == actor.id && Pending(b, now) && b.series == None && b.room != room.id
      && GoodAccount(actor) && !Barred(db, actor.id, now)
      && room.active && !room.availabilityOnly && Admitted(actor, room)
      && OpenAt(db, b.slot) && !Shut(db, b.slot, room.id) && !Taught(db, b.slot, room.id)
      && !Missed(db.bookings, actor.id, room.id, b.slot) && !Occupied(db.bookings, room.id, b.slot)
  {
    var b := db.bookings[id];
    ReservesRoomExactly(db, actor, room, now);
    OpenExactly(db, b.slot, room);
    HistoryExactly(db.bookings, actor.id, room.id, b.slot);
    TakenElsewhere(db.bookings, id, room.id);
  }

  lemma TakenElsewhere(bs: seq<Booking>, id: nat, room: nat)
    requires id < |bs|
    ensures bs[id].room != room ==> (TakenByAnother(bs, room, bs[id].slot, id) <==> Occupied(bs, room, bs[id].slot))
  {
    OccupiedExactly(bs, room, bs[id].slot);
  }

  lemma MoveStores(db: Db, now: int, actor: User, id: nat, room: Room)
    requires Succeeded(Move(db, now, actor, id, room).exit)
    ensures var b, waits := db.bookings[id], room.requiresApproval && !Staffed(actor);
      var version := b.detailsVersion + 1;
      Move(db, now, actor, id, room) ==
        BodyResult(WithRow(db, id,
                           b.(room := room.id, detailsVersion := version,
                              status := if waits then PendingApproval else Scheduled,
                              approvedAt := if waits then None else if room.requiresApproval then Some(now) else b.approvedAt),
                           {if waits then BookingMovedPending(id, version) else BookingChanged(id, version)}),
                   Returned(Outcome(true, Ok, [id, room.id, version])))
  {
    StaffExactly(actor);
  }

  lemma MoveTold(db: Db, now: int, actor: User, id: nat, room: Room)
    requires id < |db.bookings|
    ensures var exit, b := Move(db, now, actor, id, room).exit, db.bookings[id];
      var access, open := MayReserveRoom(db, actor, room, now), SlotOpen(db, b.slot, room);
      var own := b.user == actor.id && Pending(b, now) && b.series == None && b.room != room.id;
      && (b.user != actor.id ==> exit == Raised(NotOwner))
      && (b.user == actor.id && !Pending(b, now) ==> exit == Raised(TerminalStatus))
      && (b.user == actor.id && Pending(b, now) && b.series != None ==> exit == Raised(RecurringOccurrence))
      && (b.user == actor.id && Pending(b, now) && b.series == None && b.room == room.id ==> exit == Raised(SameRoom))
      && (own && access != None ==> exit == Raised(access.value))
      && (own && access == None && open != None ==> exit == Raised(open.value))
      && (own && access == None && open == None && Missed(db.bookings, actor.id, room.id, b.slot) ==>
            exit == Raised(NoShowReclaim))
      && (own && access == None && open == None && exit.Raised? && exit != Raised(NoShowReclaim) ==>
            exit == Raised(SlotTaken))
  {
    HistoryExactly(db.bookings, actor.id, room.id, db.bookings[id].slot);
  }

  lemma DecideExactly(db: Db, now: int, id: nat, decision: Decision)
    requires id < |db.bookings|
    ensures var r, b := Decide(db, now, id, decision), db.bookings[id];
      var done := Returned(Outcome(true, Ok, [id]));
      && (b.status != PendingApproval ==> r.exit == Raised(TerminalStatus))
      && (b.status == PendingApproval && decision == OtherDecision ==> r.exit == Raised(InvalidInput))
      && (b.status == PendingApproval && decision == Approve ==>
            r == BodyResult(WithRow(db, id, b.(status := Scheduled, approvedAt := Some(now)), {BookingApproved(id, now)}), done))
      && (b.status == PendingApproval && decision == Reject ==>
            r == BodyResult(WithRow(db, id, b.(status := Rejected), {BookingRejected(id)}), done))
  {
  }

  lemma CancelExactly(db: Db, now: int, actor: User, id: nat, staffAction: bool)
    requires id < |db.bookings|
    ensures var r, b := CancelBooking(db, now, actor, id, staffAction), db.bookings[id];
      && (Succeeded(r.exit) <==>
            && (staffAction || (b.user == actor.id && now < b.slot))
            && (b.status == PendingApproval || b.status == Scheduled))
      && (!staffAction && b.user != actor.id ==> r.exit == Raised(NotOwner))
      && ((staffAction || b.user == actor.id) && b.status == InUse ==> r.exit == Raised(CancelAfterStart))
      && ((staffAction || b.user == actor.id) && b.status !in {PendingApproval, Scheduled, InUse} ==>
            r.exit == Raised(TerminalStatus))
      && (!staffAction && b.user == actor.id && b.status in {PendingApproval, Scheduled} && b.slot <= now ==>
            r.exit == Raised(CancelAfterStart))
      && (Succeeded(r.exit) ==>
            && r.exit == Returned(Outcome(true, Ok, [id]))
            && r.db == WithRow(db, id, b.(status := Cancelled, cancelledAt := Some(now),
                                          cancelReason := Some(if staffAction then ByStaff else ByOwner),
                                          late := !staffAction && b.slot - HOUR < now),
                               {BookingCancelled(id)}))
  {
  }

  // ---------------------------------------------------------------- series

  /** A future occurrence of the series, not yet held, rejected or cancelled. */
  predicate Coming(b: Booking, series: nat, now: int) {
    b.series == Some(series) && (b.status == PendingApproval || b.status == Scheduled) && now < b.slot
  }

  lemma SeriesExactly(db: Db, now: int, actor: User, series: nat)
    requires series < |db.site.series|
    ensures var r, s, bs := CancelSeries(db, now, actor, series), db.site.series[series], db.bookings;
      var any := exists i :: 0 <= i < |bs| && Coming(bs[i], series, now);
      var foreign := exists i :: 0 <= i < |bs| && Coming(bs[i], series, now) && bs[i].user != actor.id;
      && (Succeeded(r.exit) <==> s.user == actor.id && s.active && any && !foreign)
      && (s.user != actor.id ==> r.exit == Raised(NotOwner))
      && (s.user == actor.id && (!s.active || !any) ==> r.exit == Raised(TerminalStatus))
      && (s.user == actor.id && s.active && foreign ==> r.exit == Raised(NotOwner))
  {
    assert forall i :: 0 <= i < |db.bookings| ==>
      (Coming(db.bookings[i], series, now) <==> FutureOccurrence(db.bookings[i], series, now));
  }

  lemma SeriesStores(db: Db, now: int, actor: User, series: nat)
    requires Succeeded(CancelSeries(db, now, actor, series).exit)
    ensures var r, s, bs := CancelSeries(db, now, actor, series), db.site.series[series], db.bookings;
      var cs := r.db.bookings;
      && r.exit == Returned(Outcome(true, Ok, [series]))
      && r.db == db.(bookings := cs, outbox := r.db.outbox,
                     site := db.site.(series := db.site.series[series := s.(active := false, cancelledAt := Some(now))]))
      && |cs| == |bs|
      && (forall i :: 0 <= i < |bs| ==>
            cs[i] == if Coming(bs[i], series, now)
                     then bs[i].(status := Cancelled, cancelledAt := Some(now), cancelReason := Some(BySeries),
                                 late := bs[i].slot - HOUR < now)
                     else bs[i])
      && (forall m :: m in r.db.outbox <==>
            m in db.outbox
            || exists i: nat :: i < |bs| && Coming(bs[i], series, now) && m == BookingCancelled(i))
  {
    var bs, change := db.bookings, CancelOccurrences(series, now);
    forall i: nat
      ensures i in CancelledBy(bs, change) <==> i < |bs| && Coming(bs[i], series, now)
    {
    }
  }

  // ---------------------------------------------------------------- the hour in progress

  lemma UseNowExactly(db: Db, now: int, actor: User, room: Room)
    ensures Succeeded(UseNow(db, now, actor, room).exit) <==>
      var slot, bs, p := FloorToSlot(now), db.bookings, CurrentPolicy(db);
      && GoodAccount(actor) && !Barred(db, actor.id, now)
      && room.active && !room.availabilityOnly && !room.requiresApproval && !room.membersOnly
      && OpenAt(db, slot) && !Shut(db, slot, room.id) && !Taught(db, slot, room.id) && !Occupied(bs, room.id, slot)
      && !Crowded(bs, actor.id, slot) && |OfTheDay(bs, actor.id, LocalDate(slot))| < p.dailyQuota
      && |Ahead(bs, actor.id, now)| < p.maxUpcoming && !Missed(bs, actor.id, room.id, slot)
  {
    var slot := FloorToSlot(now);
    UsesRoomExactly(db, actor, room, now);
    OpenExactly(db, slot, room);
    OccupiedExactly(db.bookings, room.id, slot);
    QuotaExactly(db, actor.id, slot, room.id, now);
  }

  lemma UseNowStores(db: Db, now: int, actor: User, room: Room)
    requires Succeeded(UseNow(db, now, actor, room).exit)
    ensures var slot, id := FloorToSlot(now), |db.bookings|;
      var from := ReleasedFrom(db.bookings, actor.id, room.id, slot);
      UseNow(db, now, actor, room) ==
        BodyResult(db.(bookings := db.bookings + [Booking(
                         user := actor.id, room := room.id, slot := slot, walkIn := true, staff := false, deadline := None,
                         status := InUse, series := None, approvedAt := None, checkedInAt := Some(now), cancelledAt := None,
                         cancelReason := None, late := false, actualEnd := None, needsReview := false, incident := None,
                         releasedFrom := from, policy := |db.site.policies|, details := Details("", "", ""),
                         detailsVersion := 0)],
                       outbox := db.outbox + {BookingConfirmation(id)}),
                   Returned(Outcome(true, Ok, [id, RemainingMinutes(now, slot + HOUR)])))
  {
  }

  /** The booking a walk-in takes over from is a missed one of somebody else for the same room and hour. */
  lemma TakesOverExactly(bs: seq<Booking>, user: nat, room: nat, slot: int)
    ensures var from := ReleasedFrom(bs, user, room, slot);
      && (from == None <==> forall i :: 0 <= i < |bs| && bs[i].room == room && bs[i].slot == slot && bs[i].user != user ==>
                              bs[i].status != NoShow)
      && (from != None ==>
            var b := bs[from.value];
            b.room == room && b.slot == slot && b.user != user && b.status == NoShow)
  {
    assert forall i :: 0 <= i < |bs| ==>
      (ReleasedBy(bs[i], user, room, slot) <==>
       bs[i].room == room && bs[i].slot == slot && bs[i].user != user && bs[i].status == NoShow);
  }

  lemma UseNowTold(db: Db, now: int, actor: User, room: Room)
    ensures var exit, slot := UseNow(db, now, actor, room).exit, FloorToSlot(now);
      var access, open := MayUseRoom(db, actor, room, now), SlotOpen(db, slot, room);
      var quota := QuotaAndAdjacency(db, actor.id, slot, room.id, now);
      var plain := access == None && !room.requiresApproval && !room.membersOnly;
      var bs := db.bookings;
      var held := exists i :: 0 <= i < |bs| && bs[i].room == room.id && bs[i].slot == slot && bs[i].status == Scheduled
                              && bs[i].deadline != None && now < bs[i].deadline.value;
      && (access != None ==> exit == Raised(access.value))
      && (access == None && room.requiresApproval ==> exit == Raised(ApprovalRoomNoWalkIn))
      && (access == None && !room.requiresApproval && room.membersOnly ==> exit == Raised(MembersRoomNoWalkIn))
      && (plain && open != None ==> exit == Raised(open.value))
      && (plain && open == None && Occupied(bs, room.id, slot) ==> exit == Raised(if held then ReservationHeld else SlotTaken))
      && (plain && open == None && !Occupied(bs, room.id, slot) && quota != None ==> exit == Raised(quota.value))
  {
    OccupiedExactly(db.bookings, room.id, FloorToSlot(now));
    UsesRoomExactly(db, actor, room, now);
  }

  /** A check-in succeeds exactly for the holder, or with staff's help, at the right door, from the start until
      the deadline, while the holder may operate. */
  lemma CheckInExactly(db: Db, now: int, actor: User, owner: User, id: nat, door: Option<nat>, staffAssisted: bool)
    requires id < |db.bookings|
    ensures var r, b := CheckIn(db, now, actor, owner, id, door, staffAssisted), db.bookings[id];
      && (Succeeded(r.exit) <==>
            && (staffAssisted || b.user == actor.id) && (door == None || door.value == b.room)
            && b.status == Scheduled && b.deadline != None && b.slot <= now < b.deadline.value
            && GoodAccount(owner) && !Barred(db, b.user, now))
      && (Succeeded(r.exit) ==>
            r == BodyResult(WithRow(db, id, b.(status := InUse, checkedInAt := Some(now)), {}),
                            Returned(Outcome(true, Ok, [id]))))
  {
    OperatesExactly(db, owner.(id := db.bookings[id].user), now);
  }

  lemma CheckInTold(db: Db, now: int, actor: User, owner: User, id: nat, door: Option<nat>, staffAssisted: bool)
    requires id < |db.bookings|
    ensures var exit, b := CheckIn(db, now, actor, owner, id, door, staffAssisted).exit, db.bookings[id];
      var mine := staffAssisted || b.user == actor.id;
      var here := mine && (door == None || door.value == b.room);
      var ready := here && b.status == Scheduled && b.deadline != None;
      var account := CanOperate(db, owner.(id := b.user), now);
      && (!mine ==> exit == Raised(NotOwner))
      && (mine && !here ==> exit == Raised(WrongRoom))
      && (here && b.status == InUse ==> exit == Raised(AlreadyCheckedIn))
      && (here && b.status != InUse && !ready ==> exit == Raised(TerminalStatus))
      && (ready && now < b.slot ==> exit == Raised(CheckInNotOpen))
      && (ready && b.slot <= now && b.deadline.value <= now ==> exit == Raised(CheckInClosed))
      && (ready && b.slot <= now < b.deadline.value && account != None ==> exit == Raised(account.value))
  {
  }

  // ---------------------------------------------------------------- rows that do not exist

  lemma MissingRowsCrash(db: Db, now: int, actor: User, owner: User, id: nat, details: Details, room: Room,
                         decision: Decision, door: Option<nat>, assisted: bool)
    ensures id >= |db.bookings| ==>
      && UpdateDetails(db, now, actor, id, details).exit == Crashed && Move(db, now, actor, id, room).exit == Crashed
      && Decide(db, now, id, decision).exit == Crashed && CancelBooking(db, now, actor, id, assisted).exit == Crashed
      && CheckIn(db, now, actor, owner, id, door, assisted).exit == Crashed
    ensures id >= |db.site.series| ==> CancelSeries(db, now, actor, id).exit == Crashed
  {
  }
}
