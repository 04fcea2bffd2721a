/** The shared checks in terms of what is stored: for each of them the fields that decide it, and which refusal
    they lead to. */
module FieldRules {
  import opened Slots
  import opened Tables
  import opened Rules

  // ---------------------------------------------------------------- time

  /** Sixty minutes an hour, twenty-four hours a day, local noon at five in the morning UTC, and 1969 years between the
      first instant of a datetime and 1970. */
  lemma Units()
    ensures SECOND == 1_000_000 && MINUTE == 60 * SECOND && HOUR == 60 * MINUTE && DAY == 24 * HOUR
    ensures SlotStartFor(0, 12) == 5 * HOUR && SlotStartFor(1, 0) == SlotStartFor(0, 0) + DAY
    ensures FIRST_INSTANT == -(1969 * 365 + 1969 / 4 - 1969 / 100 + 1969 / 400) * DAY
  {
  }

  /** The first Monday of 1970 was 5 January, and the days of the week follow each other. */
  lemma Weekdays(date: int)
    ensures Weekday(4) == 0 && 0 <= Weekday(date) < 7 && Weekday(date + 1) == (Weekday(date) + 1) % 7
  {
  }

  lemma RemainingExactly(now: int, end: int, m: int)
    ensures now < end ==> (RemainingMinutes(now, end) == m <==> m * MINUTE <= end - now < (m + 1) * MINUTE)
    ensures end <= now ==> RemainingMinutes(now, end) == 0
  {
    if now < end {
      var d := end - now;
      assert d == d / MINUTE * MINUTE + d % MINUTE;
      if m * MINUTE <= d < (m + 1) * MINUTE {
        assert m == d / MINUTE;
      }
    }
  }

  /** The last day of a horizon of `days` is open for booking, the next is not. */
  lemma HorizonExactly(now: int, slot: int, days: int)
    ensures WithinHorizon(now, slot, days) <==> LocalDate(slot) - LocalDate(now) <= days
  {
  }

  // ---------------------------------------------------------------- what a status means

  lemma StatusClasses(s: Status)
    ensures Blocking(s) <==> !s.NoShow? && !s.Cancelled? && !s.Rejected?
    ensures ChargesQuota(s) <==> !s.Cancelled? && !s.Rejected?
    ensures Upcoming(s) <==> !s.Completed? && !s.NoShow? && !s.Cancelled? && !s.Rejected?
    ensures Open(s) <==> s == PendingApproval || s == Scheduled
  {
  }

  // ---------------------------------------------------------------- accounts and rooms

  /** An account that may book at all. */
  predicate GoodAccount(u: User) {
    u.active && u.verified && u.eligibility == EligibilityApproved && !u.teacher
  }

  /** Some suspension of the user has started, has not ended and was not lifted. */
  ghost predicate Barred(db: Db, user: nat, now: int) {
    exists i :: 0 <= i < |db.suspensions| && Bars(db.suspensions[i], user, now)
  }

  predicate Bars(s: Suspension, user: nat, now: int) {
    s.user == user && s.liftedAt == None && s.startsAt <= now && (s.endsAt == None || now < s.endsAt.value)
  }

  predicate Staffed(u: User) {
    u.active && (u.superuser || u.operational)
  }

  /** The room's audience includes the account. */
  predicate Admitted(u: User, room: Room) {
    && (room.membersOnly ==> Staffed(u) || room.id in u.memberRooms)
    && (room.restricted ==> u.category != None && u.category.value in room.allowed)
  }

  lemma StaffExactly(u: User)
    ensures IsBookingStaff(u) <==> Staffed(u)
  {
  }

  lemma BarredExactly(db: Db, user: nat, now: int)
    ensures IsSuspended(db, user, now) <==> Barred(db, user, now)
  {
    if IsSuspended(db, user, now) {
      var i :| 0 <= i < |db.suspensions| && db.suspensions[i].user == user && ActiveAt(db.suspensions[i], now);
      assert Bars(db.suspensions[i], user, now);
    }
    if Barred(db, user, now) {
      var i :| 0 <= i < |db.suspensions| && Bars(db.suspensions[i], user, now);
      assert ActiveAt(db.suspensions[i], now);
    }
  }

  /** Who may operate, and what anybody else is told: the first thing amiss with the account, and only then its
      suspension. */
  lemma OperatesExactly(db: Db, u: User, now: int)
    ensures var told := CanOperate(db, u, now);
      && (told == None <==> GoodAccount(u) && !Barred(db, u.id, now))
      && (told == Some(InactiveAccount) <==> !u.active)
      && (told == Some(EmailUnverified) <==> u.active && !u.verified)
      && (told == Some(AwaitingApproval) <==> u.active && u.verified && u.eligibility == EligibilityPending)
      && (told == Some(NotEligible) <==> u.active && u.verified && u.eligibility == EligibilityRejected)
      && (told == Some(TeacherReadOnly) <==> u.active && u.verified && u.eligibility == EligibilityApproved && u.teacher)
      && (told == Some(Suspended) <==> GoodAccount(u) && Barred(db, u.id, now))
  {
    BarredExactly(db, u.id, now);
  }

  /** Who may use a room, and who may reserve it. */
  lemma UsesRoomExactly(db: Db, u: User, room: Room, now: int)
    ensures var told, account := MayUseRoom(db, u, room, now), CanOperate(db, u, now);
      && (told == None <==> GoodAccount(u) && !Barred(db, u.id, now) && room.active && !room.availabilityOnly)
      && (account != None ==> told == account)
      && (account == None && (!room.active || room.availabilityOnly) ==> told == Some(Closed))
  {
    OperatesExactly(db, u, now);
  }

  lemma ReservesRoomExactly(db: Db, u: User, room: Room, now: int)
    ensures var told, use := MayReserveRoom(db, u, room, now), MayUseRoom(db, u, room, now);
      && (told == None <==>
            GoodAccount(u) && !Barred(db, u.id, now) && room.active && !room.availabilityOnly && Admitted(u, room))
      && (use != None ==> told == use)
      && (use == None && room.membersOnly && !Staffed(u) && room.id !in u.memberRooms ==> told == Some(RoomMembersOnly))
      && (use == None && (room.membersOnly ==> Staffed(u) || room.id in u.memberRooms) && !Admitted(u, room) ==>
            told == Some(RoomNotForInstrument))
  {
    UsesRoomExactly(db, u, room, now);
  }

  // ---------------------------------------------------------------- policy and calendar

  /** The last version stored, or the defaults of the deployment. */
  lemma PolicyExactly(db: Db)
    ensures |db.site.policies| > 0 ==> CurrentPolicy(db) == db.site.policies[|db.site.policies| - 1]
    ensures |db.site.policies| == 0 ==>
      var p := CurrentPolicy(db);
      && p.horizonDays == 2 && p.dailyQuota == 2 && p.maxUpcoming == 4 && p.grace == 15
      && p.strikeWindow == 30 && p.threshold == 3 && p.suspensionDays == 7 && p.reminderLead == 30
  {
  }

  /** The building is open at the hour: by the date's override, or else from eight to eight on weekdays. */
  predicate OpenAt(db: Db, slot: int) {
    var date, hour := LocalDate(slot), LocalHour(slot);
    if date in db.site.overrides
    then db.site.overrides[date] != None
         && db.site.overrides[date].value.open <= hour < db.site.overrides[date].value.close
    else (date - 4) % 7 < 5 && 8 <= hour < 20
  }

  /** An unrevoked closure of the room or of all rooms meets the hour. */
  ghost predicate Shut(db: Db, slot: int, room: nat) {
    exists k :: 0 <= k < |db.site.closures| && Shuts(db.site.closures[k], slot, room)
  }

  predicate Shuts(c: Closure, slot: int, room: nat) {
    c.revokedAt == None && (c.room == None || c.room == Some(room)) && c.startsAt - HOUR < slot < c.endsAt
  }

  /** A class of the room is held on that weekday, at that hour, at that time of the year. */
  ghost predicate Taught(db: Db, slot: int, room: nat) {
    exists k :: 0 <= k < |db.site.blocks| && Teaches(db.site.blocks[k], slot, room)
  }

  predicate Teaches(b: WeeklyBlock, slot: int, room: nat) {
    var date, hour := LocalDate(slot), LocalHour(slot);
    && b.room == room && b.weekday == (date - 4) % 7 && b.startHour <= hour < b.endHour
    && (b.validFrom == None || b.validFrom.value <= date) && (b.validUntil == None || date <= b.validUntil.value)
  }

  lemma ShutExactly(db: Db, slot: int, room: nat)
    ensures SlotClosed(db, slot, room) <==> Shut(db, slot, room)
  {
    if SlotClosed(db, slot, room) {
      var k :| 0 <= k < |db.site.closures| && ClosureCovers(db.site.closures[k], slot, room);
      assert Shuts(db.site.closures[k], slot, room);
    }
    if Shut(db, slot, room) {
      var k :| 0 <= k < |db.site.closures| && Shuts(db.site.closures[k], slot, room);
      assert ClosureCovers(db.site.closures[k], slot, room);
    }
  }

  lemma TaughtExactly(db: Db, slot: int, room: nat)
    ensures ClassAt(db, slot, room) <==> Taught(db, slot, room)
  {
    if ClassAt(db, slot, room) {
      var k :| 0 <= k < |db.site.blocks| && BlockCovers(db.site.blocks[k], slot, room);
      assert Teaches(db.site.blocks[k], slot, room);
    }
    if Taught(db, slot, room) {
      var k :| 0 <= k < |db.site.blocks| && Teaches(db.site.blocks[k], slot, room);
      assert BlockCovers(db.site.blocks[k], slot, room);
    }
  }

  /** When the calendar admits an hour, and what it says otherwise. */
  lemma OpenExactly(db: Db, slot: int, room: Room)
    ensures var told := SlotOpen(db, slot, room);
      && (told == None <==> room.active && OpenAt(db, slot) && !Shut(db, slot, room.id) && !Taught(db, slot, room.id))
      && (told == Some(Closed) <==> !room.active || !OpenAt(db, slot) || Shut(db, slot, room.id))
      && (told != None ==> told == Some(Closed) || told == Some(ClassInSession))
  {
    ShutExactly(db, slot, room.id);
    TaughtExactly(db, slot, room.id);
  }

  // ---------------------------------------------------------------- quota

  /** The user has a booking, neither missed nor cancelled nor rejected, in this hour or the one before or after. */
  ghost predicate Crowded(bs: seq<Booking>, user: nat, slot: int) {
    exists i :: 0 <= i < |bs| && Crowds(bs[i], user, slot)
  }

  predicate Crowds(b: Booking, user: nat, slot: int) {
    && b.user == user && b.status !in {NoShow, Cancelled, Rejected}
    && (b.slot == slot || b.slot == slot - HOUR || b.slot == slot + HOUR)
  }

  /** The user's bookings of the date that were neither cancelled nor rejected. */
  ghost function OfTheDay(bs: seq<Booking>, user: nat, date: int): set<int> {
    set i | 0 <= i < |bs| && bs[i].user == user && LocalDate(bs[i].slot) == date && bs[i].status !in {Cancelled, Rejected}
  }

  /** The user's requests, reservations and sessions whose hour is not over. */
  ghost function Ahead(bs: seq<Booking>, user: nat, now: int): set<int> {
    set i | 0 <= i < |bs| && bs[i].user == user && bs[i].status in {PendingApproval, Scheduled, InUse}
      && now < bs[i].slot + HOUR
  }

  ghost predicate Missed(bs: seq<Booking>, user: nat, room: nat, slot: int) {
    exists i :: 0 <= i < |bs| && Misses(bs[i], user, room, slot)
  }

  predicate Misses(b: Booking, user: nat, room: nat, slot: int) {
    b.user == user && b.room == room && b.slot == slot && b.status == NoShow
  }

  ghost predicate Occupied(bs: seq<Booking>, room: nat, slot: int) {
    exists i :: 0 <= i < |bs| && Fills(bs[i], room, slot)
  }

  predicate Fills(b: Booking, room: nat, slot: int) {
    b.room == room && b.slot == slot && b.status !in {NoShow, Cancelled, Rejected}
  }

  lemma OccupiedExactly(bs: seq<Booking>, room: nat, slot: int)
    ensures Taken(bs, room, slot) <==> Occupied(bs, room, slot)
  {
    if Taken(bs, room, slot) {
      var i :| 0 <= i < |bs| && bs[i].room == room && bs[i].slot == slot && Blocking(bs[i].status);
      assert Fills(bs[i], room, slot);
    }
    if Occupied(bs, room, slot) {
      var i :| 0 <= i < |bs| && Fills(bs[i], room, slot);
      assert Blocking(bs[i].status);
    }
  }

  lemma CountsExactly(bs: seq<Booking>, user: nat, date: int, now: int)
    ensures QuotaUsed(bs, user, date) == |OfTheDay(bs, user, date)|
    ensures UpcomingHours(bs, user, now) == |Ahead(bs, user, now)|
  {
    assert OfTheDay(bs, user, date) == set i | 0 <= i < |bs| && ChargedTo(bs[i], user, date);
    assert Ahead(bs, user, now) == set i | 0 <= i < |bs| && HeldBy(bs[i], user, now);
  }

  lemma HistoryExactly(bs: seq<Booking>, user: nat, room: nat, slot: int)
    ensures HoldsNear(bs, user, slot) <==> Crowded(bs, user, slot)
    ensures Forfeited(bs, user, room, slot) <==> Missed(bs, user, room, slot)
  {
    if HoldsNear(bs, user, slot) {
      var i :| 0 <= i < |bs| && bs[i].user == user && Blocking(bs[i].status) && Near(bs[i].slot, slot);
      assert Crowds(bs[i], user, slot);
    }
    if Crowded(bs, user, slot) {
      var i :| 0 <= i < |bs| && Crowds(bs[i], user, slot);
      assert Blocking(bs[i].status) && Near(bs[i].slot, slot);
    }
    if Forfeited(bs, user, room, slot) {
      var i :| 0 <= i < |bs| && bs[i].user == user && bs[i].room == room && bs[i].slot == slot && bs[i].status.NoShow?;
      assert Misses(bs[i], user, room, slot);
    }
    if Missed(bs, user, room, slot) {
      var i :| 0 <= i < |bs| && Misses(bs[i], user, room, slot);
    }
  }

  /** When the user's other bookings admit one more hour, and what the user is told otherwise: the neighbouring
      hours come first, then the day's quota, the hours ahead, and a missed hour last. */
  lemma QuotaExactly(db: Db, user: nat, slot: int, room: nat, now: int)
    ensures var told, bs, p := QuotaAndAdjacency(db, user, slot, room, now), db.bookings, CurrentPolicy(db);
      var day, ahead := |OfTheDay(bs, user, LocalDate(slot))|, |Ahead(bs, user, now)|;
      && (told == None <==>
            !Crowded(bs, user, slot) && day < p.dailyQuota && ahead < p.maxUpcoming && !Missed(bs, user, room, slot))
      && (told == Some(AdjacencyConflict) <==> Crowded(bs, user, slot))
      && (told == Some(QuotaExceeded) <==> !Crowded(bs, user, slot) && day >= p.dailyQuota)
      && (told == Some(UpcomingLimit) <==> !Crowded(bs, user, slot) && day < p.dailyQuota && ahead >= p.maxUpcoming)
      && (told != None ==> told.value in {AdjacencyConflict, QuotaExceeded, UpcomingLimit, NoShowReclaim})
  {
    CountsExactly(db.bookings, user, LocalDate(slot), now);
    HistoryExactly(db.bookings, user, room, slot);
  }
}
