/** What the operations on single bookings mean for everybody: who gets the hour and who does not, what each
    operation leaves alone, what undoes it and what becomes of the booking later. */
module BookingEffects {
  import opened Slots
  import opened Tables
  import opened Rules
  import opened Changes
  import opened Bookings
  import opened Invariants
  import opened Standing
  import opened LazyEager
  import opened FieldRules
  import FieldBookings

  // ---------------------------------------------------------------- what a step leaves alone

  /** The tables but for bookings and mail. */
  ghost predicate OnlyBookings(db: Db, next: Db) {
    && next.violations == db.violations && next.suspensions == db.suspensions
    && next.requests == db.requests && next.site == db.site && db.outbox <= next.outbox
  }

  ghost predicate OnlyRow(db: Db, next: Db, id: nat) {
    && OnlyBookings(db, next) && |next.bookings| == |db.bookings|
    && forall i :: 0 <= i < |db.bookings| && i != id ==> next.bookings[i] == db.bookings[i]
  }

  ghost predicate OneMoreRow(db: Db, next: Db) {
    OnlyBookings(db, next) && |next.bookings| == |db.bookings| + 1 && next.bookings[..|db.bookings|] == db.bookings
  }

  // ---------------------------------------------------------------- claims of one row

  predicate Occupies(b: Booking, room: nat, slot: int) {
    b.room == room && b.slot == slot && Blocking(b.status)
  }

  lemma AppendedTaken(bs: seq<Booking>, row: Booking, room: nat, slot: int)
    ensures Taken(bs + [row], room, slot) <==> Taken(bs, room, slot) || Occupies(row, room, slot)
  {
    var cs := bs + [row];
    assert cs[|bs|] == row;
    assert forall i :: 0 <= i < |bs| ==> cs[i] == bs[i];
    if Taken(bs, room, slot) {
      var i :| 0 <= i < |bs| && Occupies(bs[i], room, slot);
      assert Occupies(cs[i], room, slot);
    }
  }

  lemma ReplacedTaken(bs: seq<Booking>, id: nat, row: Booking, room: nat, slot: int)
    requires Exclusive(bs) && id < |bs|
    ensures Taken(bs[id := row], room, slot) <==>
      Occupies(row, room, slot) || (Taken(bs, room, slot) && !Occupies(bs[id], room, slot))
  {
    var cs := bs[id := row];
    assert cs[id] == row;
    if i :| 0 <= i < |bs| && i != id && Occupies(bs[i], room, slot) {
      assert cs[i] == bs[i];
      assert !Occupies(bs[id], room, slot) by {
        assert Occupies(bs[id], room, slot) ==> SameCell(bs[i], bs[id]) && SameCell(bs[id], bs[i]);
      }
    }
  }

  lemma SameBut(a: set<int>, b: set<int>, id: int)
    requires forall i :: i != id ==> (i in a <==> i in b)
    ensures |b| + (if id in a then 1 else 0) == |a| + if id in b then 1 else 0
  {
    forall i
      ensures i in a - {id} <==> i in b - {id}
    {
      assert i != id ==> (i in a <==> i in b);
    }
    assert a - {id} == b - {id};
    assert |a| == |a - {id}| + if id in a then 1 else 0;
    assert |b| == |b - {id}| + if id in b then 1 else 0;
  }

  lemma ReplacedQuota(bs: seq<Booking>, id: nat, row: Booking, user: nat, date: int)
    requires id < |bs|
    ensures QuotaUsed(bs[id := row], user, date) + (if ChargedTo(bs[id], user, date) then 1 else 0) ==
      QuotaUsed(bs, user, date) + if ChargedTo(row, user, date) then 1 else 0
  {
    var cs := bs[id := row];
    var a, b := set i | 0 <= i < |bs| && ChargedTo(bs[i], user, date), set i | 0 <= i < |cs| && ChargedTo(cs[i], user, date);
    SameBut(a, b, id);
  }

  lemma ReplacedUpcoming(bs: seq<Booking>, id: nat, row: Booking, user: nat, now: int)
    requires id < |bs|
    ensures UpcomingHours(bs[id := row], user, now) + (if HeldBy(bs[id], user, now) then 1 else 0) ==
      UpcomingHours(bs, user, now) + if HeldBy(row, user, now) then 1 else 0
  {
    var cs := bs[id := row];
    var a, b := set i | 0 <= i < |bs| && HeldBy(bs[i], user, now), set i | 0 <= i < |cs| && HeldBy(cs[i], user, now);
    SameBut(a, b, id);
  }

  /** The same hours are taken and everybody is charged for and holds the same number. */
  ghost predicate SameClaims(bs: seq<Booking>, cs: seq<Booking>) {
    && (forall room, slot :: Taken(cs, room, slot) <==> Taken(bs, room, slot))
    && (forall user, date :: QuotaUsed(cs, user, date) == QuotaUsed(bs, user, date))
    && (forall user, now :: UpcomingHours(cs, user, now) == UpcomingHours(bs, user, now))
  }

  /** The row claims what it claimed before. */
  ghost predicate ClaimsAlike(b: Booking, c: Booking) {
    && c.user == b.user && c.room == b.room && c.slot == b.slot && (Blocking(c.status) <==> Blocking(b.status))
    && (ChargesQuota(c.status) <==> ChargesQuota(b.status)) && (Upcoming(c.status) <==> Upcoming(b.status))
  }

  lemma AlikeIsSame(bs: seq<Booking>, id: nat, row: Booking)
    requires Exclusive(bs) && id < |bs| && ClaimsAlike(bs[id], row)
    ensures SameClaims(bs, bs[id := row])
  {
    forall room, slot
      ensures Taken(bs[id := row], room, slot) <==> Taken(bs, room, slot)
    {
      ReplacedTaken(bs, id, row, room, slot);
    }
    forall user, date
      ensures QuotaUsed(bs[id := row], user, date) == QuotaUsed(bs, user, date)
    {
      ReplacedQuota(bs, id, row, user, date);
    }
    forall user, now
      ensures UpcomingHours(bs[id := row], user, now) == UpcomingHours(bs, user, now)
    {
      ReplacedUpcoming(bs, id, row, user, now);
    }
  }

  // ---------------------------------------------------------------- a taken hour

  ghost predicate NobodyReserves(db: Db, room: Room, slot: int) {
    && (forall now, actor, details :: !Succeeded(CreateAdvance(db, now, actor, room, slot, details).exit))
    && (forall now, actor, id: nat :: id < |db.bookings| && db.bookings[id].slot == slot && db.bookings[id].room != room.id
          ==> !Succeeded(Move(db, now, actor, id, room).exit))
  }

  ghost predicate NobodyWalksIn(db: Db, room: Room, slot: int) {
    forall now, actor :: FloorToSlot(now) == slot ==> !Succeeded(UseNow(db, now, actor, room).exit)
  }

  ghost predicate NobodyHolds(db: Db, room: Room, slot: int) {
    forall now, actor, hour, end, details :: hour <= LocalHour(slot) < end ==>
      !Succeeded(CreateStaffHold(db, now, actor, room, LocalDate(slot), hour, end, details).exit)
  }

  /** Nobody, staff included, gets the room for the hour, whichever way they ask. */
  ghost predicate NobodyGets(db: Db, room: Room, slot: int) {
    NobodyReserves(db, room, slot) && NobodyWalksIn(db, room, slot) && NobodyHolds(db, room, slot)
  }

  lemma TakenStopsReservations(db: Db, room: Room, slot: int)
    requires Taken(db.bookings, room.id, slot)
    ensures NobodyReserves(db, room, slot)
  {
    var i :| 0 <= i < |db.bookings| && Occupies(db.bookings[i], room.id, slot);
    forall id: nat | id < |db.bookings| && db.bookings[id].slot == slot && db.bookings[id].room != room.id
      ensures TakenByAnother(db.bookings, room.id, slot, id)
    {
      assert Occupies(db.bookings[i], room.id, slot) && !Occupies(db.bookings[id], room.id, slot);
    }
  }

  lemma TakenStopsHolds(db: Db, room: Room, slot: int)
    requires Taken(db.bookings, room.id, slot) && HourAligned(slot)
    ensures NobodyHolds(db, room, slot)
  {
    AlignedIsSlotStart(slot);
    forall hour, end | hour <= LocalHour(slot) < end
      ensures AnyTaken(db.bookings, room.id, LocalDate(slot), hour, end)
    {
    }
  }

  /** A taken hour is refused at every door. */
  lemma TakenStopsEverybody(db: Db, room: Room, slot: int)
    requires Taken(db.bookings, room.id, slot) && HourAligned(slot)
    ensures NobodyGets(db, room, slot)
  {
    TakenStopsReservations(db, room, slot);
    TakenStopsHolds(db, room, slot);
  }

  // ---------------------------------------------------------------- reserving

  /** A granted reservation is one more row of its holder, whose account may book and whom the room admits, for
      a free hour, which from then on nobody else gets; it waits for approval exactly in rooms that ask for it
      unless staff reserve, and counts once against the quota of its day and the hours ahead, both within their
      caps. */
  lemma ReservationTakes(db: Db, now: int, actor: User, room: Room, slot: int, details: Details)
    requires Succeeded(CreateAdvance(db, now, actor, room, slot, details).exit)
    ensures var next := CreateAdvance(db, now, actor, room, slot, details).db;
      var row, date := next.bookings[|next.bookings| - 1], LocalDate(slot);
      && OneMoreRow(db, next) && row.user == actor.id && Occupies(row, room.id, slot) && now < slot
      && !Taken(db.bookings, room.id, slot) && NobodyGets(next, room, slot)
      && GoodAccount(actor) && !Barred(db, actor.id, now) && room.active && !room.availabilityOnly && Admitted(actor, room)
      && (row.status.PendingApproval? <==> room.requiresApproval && !Staffed(actor))
      && QuotaUsed(next.bookings, actor.id, date) == QuotaUsed(db.bookings, actor.id, date) + 1
      && QuotaUsed(next.bookings, actor.id, date) <= CurrentPolicy(db).dailyQuota
      && UpcomingHours(next.bookings, actor.id, now) == UpcomingHours(db.bookings, actor.id, now) + 1
      && UpcomingHours(next.bookings, actor.id, now) <= CurrentPolicy(db).maxUpcoming
  {
    var next, row := CreateAdvance(db, now, actor, room, slot, details).db, AdvanceRow(db, now, actor, room, slot, details);
    assert next.bookings == db.bookings + [row];
    AppendedTaken(db.bookings, row, room.id, slot);
    TakenStopsEverybody(next, room, slot);
    OneMoreCharged(db.bookings, row, actor.id, LocalDate(slot));
    OneMoreHeld(db.bookings, row, actor.id, now);
    ReservesRoomExactly(db, actor, room, now);
  }

  /** A reservation can be given back until its hour begins, and is as good as never made: every hour is
      taken, and everybody charged, as before it. It is late exactly within the last hour. */
  lemma ReserveThenCancel(db: Db, now: int, actor: User, room: Room, slot: int, details: Details, later: int)
    requires Succeeded(CreateAdvance(db, now, actor, room, slot, details).exit) && Exclusive(db.bookings)
    ensures var reserved := CreateAdvance(db, now, actor, room, slot, details).db;
      var r := CancelBooking(reserved, later, actor, |db.bookings|, false);
      && (Succeeded(r.exit) <==> later < slot)
      && (Succeeded(r.exit) ==> OneMoreRow(db, r.db) && SameClaims(db.bookings, r.db.bookings)
                                && (r.db.bookings[|db.bookings|].late <==> later > slot - HOUR))
  {
    var row, id := AdvanceRow(db, now, actor, room, slot, details), |db.bookings|;
    var reserved := CreateAdvance(db, now, actor, room, slot, details).db;
    assert reserved.bookings == db.bookings + [row] && reserved.bookings[id] == row;
    var r := CancelBooking(reserved, later, actor, id, false);
    if Succeeded(r.exit) {
      var gone := r.db.bookings[id];
      assert r.db.bookings == db.bookings + [gone];
      ClaimsNothing(db.bookings, gone);
    }
  }

  lemma ClaimsNothing(bs: seq<Booking>, row: Booking)
    requires row.status.Cancelled?
    ensures SameClaims(bs, bs + [row])
  {
    forall room, slot
      ensures Taken(bs + [row], room, slot) <==> Taken(bs, room, slot)
    {
      AppendedTaken(bs, row, room, slot);
    }
    forall user, date
      ensures QuotaUsed(bs + [row], user, date) == QuotaUsed(bs, user, date)
    {
      OneMoreCharged(bs, row, user, date);
    }
    forall user, now
      ensures UpcomingHours(bs + [row], user, now) == UpcomingHours(bs, user, now)
    {
      OneMoreHeld(bs, row, user, now);
    }
  }

  // ---------------------------------------------------------------- cancelling

  /** Only the holder, before the start, and staff cancel. A cancelled booking frees its hour for good and gives
      its holder the quota back; it is late exactly when the holder cancels within the last hour; and nobody can
      check in to, cancel, edit, move or decide on it any more. */
  lemma CancellationFrees(db: Db, now: int, actor: User, id: nat, staffAction: bool)
    requires Succeeded(CancelBooking(db, now, actor, id, staffAction).exit) && Exclusive(db.bookings)
    ensures var next, b := CancelBooking(db, now, actor, id, staffAction).db, db.bookings[id];
      && OnlyRow(db, next, id) && Open(b.status) && Taken(db.bookings, b.room, b.slot)
      && (staffAction || (b.user == actor.id && now < b.slot))
      && !Taken(next.bookings, b.room, b.slot)
      && QuotaUsed(next.bookings, b.user, LocalDate(b.slot)) == QuotaUsed(db.bookings, b.user, LocalDate(b.slot)) - 1
      && (next.bookings[id].late <==> !staffAction && b.slot - HOUR < now < b.slot)
      && NothingMoreToDo(next, id)
  {
    var next, b := CancelBooking(db, now, actor, id, staffAction).db, db.bookings[id];
    ReplacedTaken(db.bookings, id, next.bookings[id], b.room, b.slot);
    ReplacedQuota(db.bookings, id, next.bookings[id], b.user, LocalDate(b.slot));
  }

  /** No operation on one booking accepts it. */
  ghost predicate NothingMoreToDo(db: Db, id: nat) {
    && (forall now, actor, staffAction :: !Succeeded(CancelBooking(db, now, actor, id, staffAction).exit))
    && (forall now, actor, details :: !Succeeded(UpdateDetails(db, now, actor, id, details).exit))
    && (forall now, actor, room :: !Succeeded(Move(db, now, actor, id, room).exit))
    && (forall now, decision :: !Succeeded(Decide(db, now, id, decision).exit))
    && (forall now, actor, owner, door, assisted :: !Succeeded(CheckIn(db, now, actor, owner, id, door, assisted).exit))
  }

  // ---------------------------------------------------------------- editing

  /** An edit changes the details and counts them as a new version, nothing else about the booking and
      nothing about any other; the same edit is then refused, and editing back restores the row but for two
      more versions. */
  lemma EditChangesDetails(db: Db, now: int, actor: User, id: nat, details: Details)
    requires Succeeded(UpdateDetails(db, now, actor, id, details).exit) && Exclusive(db.bookings)
    ensures var next, b := UpdateDetails(db, now, actor, id, details).db, db.bookings[id];
      var back := UpdateDetails(next, now, actor, id, b.details);
      && OnlyRow(db, next, id) && SameClaims(db.bookings, next.bookings)
      && b.user == actor.id && now < b.slot && next.bookings[id].details == details
      && !Succeeded(UpdateDetails(next, now, actor, id, details).exit)
      && Succeeded(back.exit) && back.db.bookings[id].(detailsVersion := b.detailsVersion) == b
      && back.db.bookings[id].detailsVersion == b.detailsVersion + 2
  {
    var next := UpdateDetails(db, now, actor, id, details).db;
    AlikeIsSame(db.bookings, id, next.bookings[id]);
  }

  // ---------------------------------------------------------------- moving

  /** A move gives up the old room's hour and takes the new one's, at the same hour for the same holder, whose
      account may book and whom the new room admits: no other hour changes hands and nobody's quota or hours ahead change. */
  lemma MoveExchangesRooms(db: Db, now: int, actor: User, id: nat, room: Room)
    requires Succeeded(Move(db, now, actor, id, room).exit) && Exclusive(db.bookings)
    ensures var next, b := Move(db, now, actor, id, room).db, db.bookings[id];
      && OnlyRow(db, next, id) && next.bookings[id].user == b.user == actor.id && now < b.slot
      && next.bookings[id].slot == b.slot && next.bookings[id].deadline == b.deadline
      && GoodAccount(actor) && !Barred(db, actor.id, now) && room.active && !room.availabilityOnly && Admitted(actor, room)
      && (forall r, slot :: Taken(next.bookings, r, slot) <==>
            if slot == b.slot && r == b.room then false
            else if slot == b.slot && r == room.id then true
            else Taken(db.bookings, r, slot))
      && (forall user, date :: QuotaUsed(next.bookings, user, date) == QuotaUsed(db.bookings, user, date))
      && (forall user, t :: UpcomingHours(next.bookings, user, t) == UpcomingHours(db.bookings, user, t))
  {
    var row := MovedRow(db.bookings[id], now, actor, room);
    ReservesRoomExactly(db, actor, room, now);
    forall r, slot
      ensures Taken(db.bookings[id := row], r, slot) <==>
        Occupies(row, r, slot) || (Taken(db.bookings, r, slot) && !Occupies(db.bookings[id], r, slot))
    {
      ReplacedTaken(db.bookings, id, row, r, slot);
    }
    forall user, date
      ensures QuotaUsed(db.bookings[id := row], user, date) == QuotaUsed(db.bookings, user, date)
    {
      ReplacedQuota(db.bookings, id, row, user, date);
    }
    forall user, t
      ensures UpcomingHours(db.bookings[id := row], user, t) == UpcomingHours(db.bookings, user, t)
    {
      ReplacedUpcoming(db.bookings, id, row, user, t);
    }
  }

  /** The way back is open exactly if the holder may still reserve the old room and its calendar admits the
      hour: the hour itself cannot have been lost in between. */
  lemma MoveBack(db: Db, now: int, actor: User, id: nat, room: Room, home: Room)
    requires Succeeded(Move(db, now, actor, id, room).exit) && BookingsSound(db.bookings, now)
    requires home.id == db.bookings[id].room
    ensures var moved := Move(db, now, actor, id, room).db;
      var back := Move(moved, now, actor, id, home);
      && (Succeeded(back.exit) <==>
            MayReserveRoom(db, actor, home, now).None? && SlotOpen(db, db.bookings[id].slot, home).None?)
      && (Succeeded(back.exit) ==> back.db.bookings[id].room == db.bookings[id].room
                                   && SameClaims(db.bookings, back.db.bookings))
  {
    var moved, b := Move(db, now, actor, id, room).db, db.bookings[id];
    var back := Move(moved, now, actor, id, home);
    MoveExchangesRooms(db, now, actor, id, room);
    assert !Taken(moved.bookings, b.room, b.slot);
    assert forall i :: 0 <= i < |db.bookings| && i != id ==> RowValid(db.bookings[i], now);
    assert !Forfeited(moved.bookings, actor.id, b.room, b.slot) by {
      assert forall i :: 0 <= i < |db.bookings| && i != id && moved.bookings[i].status.NoShow? ==>
        RowValid(db.bookings[i], now);
    }
    assert MayReserveRoom(moved, actor, home, now) == MayReserveRoom(db, actor, home, now) by {
      assert moved.suspensions == db.suspensions;
    }
    assert SlotOpen(moved, b.slot, home) == SlotOpen(db, b.slot, home);
    if Succeeded(back.exit) {
      assert back.db.bookings == db.bookings[id := back.db.bookings[id]];
      AlikeIsSame(db.bookings, id, back.db.bookings[id]);
    }
  }

  // ---------------------------------------------------------------- deciding on requests

  /** A decision is the last one. Approval keeps the hour, and time alone no longer rejects the booking;
      rejection frees the hour and refunds the quota, and nothing can be done with the request any more. */
  lemma DecisionIsFinal(db: Db, now: int, id: nat, decision: Decision)
    requires Succeeded(Decide(db, now, id, decision).exit) && Exclusive(db.bookings)
    ensures var next, b := Decide(db, now, id, decision).db, db.bookings[id];
      && OnlyRow(db, next, id) && b.status.PendingApproval?
      && (forall later, again :: !Succeeded(Decide(next, later, id, again).exit))
      && (decision.Approve? ==>
            SameClaims(db.bookings, next.bookings)
            && forall t :: Apply(ExpireApproval(t), next.bookings[id]) == next.bookings[id])
      && (decision.Reject? ==>
            && !Taken(next.bookings, b.room, b.slot) && NothingMoreToDo(next, id)
            && QuotaUsed(next.bookings, b.user, LocalDate(b.slot)) == QuotaUsed(db.bookings, b.user, LocalDate(b.slot)) - 1)
      && !decision.OtherDecision?
  {
    var next, b := Decide(db, now, id, decision).db, db.bookings[id];
    if decision.Approve? {
      AlikeIsSame(db.bookings, id, next.bookings[id]);
    } else {
      ReplacedTaken(db.bookings, id, next.bookings[id], b.room, b.slot);
      ReplacedQuota(db.bookings, id, next.bookings[id], b.user, LocalDate(b.slot));
    }
  }

  // ---------------------------------------------------------------- using a room

  /** Whatever reconciliation does to a student's session later, it only completes it at the end of its
      hour: a session is never missed. */
  lemma SessionsComplete(b: Booking, incidents: seq<Incident>, t: int)
    requires b.status.InUse?
    ensures Live(b, incidents, t) == if t < b.End() then b else b.(status := Completed, actualEnd := Some(b.End()))
  {
    LiveAtOnce(b, incidents, t);
  }

  /** A walk-in of an account that may book takes the hour in progress in an open room, which nobody gets until it
      ends, and reconciliation completes it there. */
  lemma WalkInTakes(db: Db, now: int, actor: User, room: Room)
    requires Succeeded(UseNow(db, now, actor, room).exit)
    ensures var next, slot := UseNow(db, now, actor, room).db, FloorToSlot(now);
      var row := next.bookings[|next.bookings| - 1];
      && OneMoreRow(db, next) && row.user == actor.id && row.room == room.id && row.slot == slot <= now < row.End()
      && GoodAccount(actor) && !Barred(db, actor.id, now)
      && room.active && !room.availabilityOnly && !room.requiresApproval && !room.membersOnly
      && !Taken(db.bookings, room.id, slot) && NobodyGets(next, room, slot)
      && QuotaUsed(next.bookings, actor.id, LocalDate(slot)) == QuotaUsed(db.bookings, actor.id, LocalDate(slot)) + 1
      && forall incidents, t :: Live(row, incidents, t).status == if t < row.End() then InUse else Completed
  {
    var next, row, slot := UseNow(db, now, actor, room).db, WalkInRow(db, now, actor, room), FloorToSlot(now);
    assert next.bookings == db.bookings + [row];
    FloorToSlotIsTheOnlySlot(now, slot);
    UsesRoomExactly(db, actor, room, now);
    AppendedTaken(db.bookings, row, room.id, slot);
    TakenStopsEverybody(next, room, slot);
    OneMoreCharged(db.bookings, row, actor.id, LocalDate(slot));
    forall incidents, t
      ensures Live(row, incidents, t).status == if t < row.End() then InUse else Completed
    {
      SessionsComplete(row, incidents, t);
    }
  }

  /** Who checks in to the booking, where and when: its holder, or anybody with the help of staff, at its own door if
      at one, from the start until the deadline, while the holder's account may book. */
  ghost predicate ChecksIn(db: Db, now: int, actor: User, owner: User, b: Booking, door: Option<nat>, staffAssisted: bool) {
    && (staffAssisted || b.user == actor.id) && (door == None || door.value == b.room)
    && b.status == Scheduled && b.deadline != None && b.slot <= now < b.deadline.value
    && GoodAccount(owner) && !Barred(db, b.user, now)
  }

  /** A check-in is what a reservation needs not to be missed: with it the booking can only complete, and
      without it a student's booking no incident covers is a no-show from the deadline on. Checking in moves
      no hour and no quota, happens once, and cannot be cancelled away. */
  lemma CheckInSaves(db: Db, now: int, actor: User, owner: User, id: nat, door: Option<nat>, staffAssisted: bool)
    requires Exclusive(db.bookings)
    ensures Succeeded(CheckIn(db, now, actor, owner, id, door, staffAssisted).exit) <==>
      id < |db.bookings| && ChecksIn(db, now, actor, owner, db.bookings[id], door, staffAssisted)
    ensures Succeeded(CheckIn(db, now, actor, owner, id, door, staffAssisted).exit) ==>
      var next, b := CheckIn(db, now, actor, owner, id, door, staffAssisted).db, db.bookings[id];
      && OnlyRow(db, next, id) && SameClaims(db.bookings, next.bookings) && NothingMoreToDo(next, id)
      && forall incidents, t :: b.deadline.value <= t ==>
           && (Live(next.bookings[id], incidents, t).status == if t < b.End() then InUse else Completed)
           && (!b.staff && !Covered(incidents, b) ==> Live(b, incidents, t).status.NoShow?)
  {
    if id < |db.bookings| {
      FieldBookings.CheckInExactly(db, now, actor, owner, id, door, staffAssisted);
    }
    if Succeeded(CheckIn(db, now, actor, owner, id, door, staffAssisted).exit) {
      CheckedInIsSaved(db, now, actor, owner, id, door, staffAssisted);
    }
  }

  lemma CheckedInIsSaved(db: Db, now: int, actor: User, owner: User, id: nat, door: Option<nat>, staffAssisted: bool)
    requires Succeeded(CheckIn(db, now, actor, owner, id, door, staffAssisted).exit) && Exclusive(db.bookings)
    ensures var next, b := CheckIn(db, now, actor, owner, id, door, staffAssisted).db, db.bookings[id];
      && OnlyRow(db, next, id) && SameClaims(db.bookings, next.bookings) && NothingMoreToDo(next, id)
      && b.deadline.Some?
      && forall incidents, t :: b.deadline.value <= t ==>
           && (Live(next.bookings[id], incidents, t).status == if t < b.End() then InUse else Completed)
           && (!b.staff && !Covered(incidents, b) ==> Live(b, incidents, t).status.NoShow?)
  {
    var next, b := CheckIn(db, now, actor, owner, id, door, staffAssisted).db, db.bookings[id];
    AlikeIsSame(db.bookings, id, next.bookings[id]);
    forall incidents, t | b.deadline.value <= t
      ensures Live(next.bookings[id], incidents, t).status == if t < b.End() then InUse else Completed
      ensures !b.staff && !Covered(incidents, b) ==> Live(b, incidents, t).status.NoShow?
    {
      SessionsComplete(next.bookings[id], incidents, t);
      LiveAtOnce(b, incidents, t);
    }
  }
}
