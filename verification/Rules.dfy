/** The checks every operation shares: policy, account, calendar and quota
    (core/services/policy.py, eligibility.py, calendar.py, quota.py). A check answers `None` when
    it passes and otherwise the code of the refusal. */
module Rules {
  import opened Slots
  import opened Tables

  // ---------------------------------------------------------------- policy

  /** The deployment defaults, in force until a first policy version is stored. */
  const DEFAULT_POLICY := Policy(2, 2, 4, 15, 30, 3, 7, 30)

  function CurrentPolicy(db: Db): Policy {
    if db.site.policies == [] then DEFAULT_POLICY else db.site.policies[|db.site.policies| - 1]
  }

  // ---------------------------------------------------------------- accounts

  predicate ActiveAt(s: Suspension, now: int) {
    && s.liftedAt.None?
    && s.startsAt <= now
    && (s.endsAt.None? || now < s.endsAt.value)
  }

  predicate IsSuspended(db: Db, user: nat, now: int) {
    exists i :: 0 <= i < |db.suspensions| && db.suspensions[i].user == user && ActiveAt(db.suspensions[i], now)
  }

  predicate IsBookingStaff(u: User) {
    u.active && (u.superuser || u.operational)
  }

  function AccountBlock(u: User): Option<Code> {
    if !u.active then Some(InactiveAccount)
    else if !u.verified then Some(EmailUnverified)
    else if u.eligibility.EligibilityPending? then Some(AwaitingApproval)
    else if !u.eligibility.EligibilityApproved? then Some(NotEligible)
    else if u.teacher then Some(TeacherReadOnly)
    else None
  }

  function CanOperate(db: Db, u: User, now: int): Option<Code> {
    if AccountBlock(u).Some? then AccountBlock(u)
    else if IsSuspended(db, u.id, now) then Some(Suspended)
    else None
  }

  function MayUseRoom(db: Db, u: User, room: Room, now: int): Option<Code> {
    if CanOperate(db, u, now).Some? then CanOperate(db, u, now)
    else if !room.active || room.availabilityOnly then Some(Closed)
    else None
  }

  /** Staff are on every access list. */
  predicate OnAccessList(u: User, room: Room) {
    IsBookingStaff(u) || room.id in u.memberRooms
  }

  predicate AdmitsCategory(room: Room, category: Option<nat>) {
    !room.restricted || (category.Some? && category.value in room.allowed)
  }

  function MayReserveRoom(db: Db, u: User, room: Room, now: int): Option<Code> {
    if MayUseRoom(db, u, room, now).Some? then MayUseRoom(db, u, room, now)
    else if room.membersOnly && !OnAccessList(u, room) then Some(RoomMembersOnly)
    else if !AdmitsCategory(room, u.category) then Some(RoomNotForInstrument)
    else None
  }

  // ---------------------------------------------------------------- calendar

  /** The weekly timetable: Monday to Friday, starts from 08:00 to 19:00. */
  function DefaultHours(date: int): Option<Hours> {
    if Weekday(date) >= 5 then None else Some(Hours(8, 20))
  }

  function DayHours(db: Db, date: int): Option<Hours> {
    if date in db.site.overrides then db.site.overrides[date] else DefaultHours(date)
  }

  /** The closure is in force and takes some part of the hour starting at `slot`. */
  predicate ClosureCovers(c: Closure, slot: int, room: nat) {
    && c.revokedAt.None?
    && c.startsAt < slot + HOUR
    && c.endsAt > slot
    && (c.room.None? || c.room.value == room)
  }

  predicate SlotClosed(db: Db, slot: int, room: nat) {
    exists i :: 0 <= i < |db.site.closures| && ClosureCovers(db.site.closures[i], slot, room)
  }

  predicate BlockOnDate(b: WeeklyBlock, date: int) {
    && b.weekday == Weekday(date)
    && (b.validFrom.None? || b.validFrom.value <= date)
    && (b.validUntil.None? || date <= b.validUntil.value)
  }

  predicate BlockCovers(b: WeeklyBlock, slot: int, room: nat) {
    && b.room == room
    && BlockOnDate(b, LocalDate(slot))
    && b.startHour <= LocalHour(slot) < b.endHour
  }

  predicate ClassAt(db: Db, slot: int, room: nat) {
    exists i :: 0 <= i < |db.site.blocks| && BlockCovers(db.site.blocks[i], slot, room)
  }

  predicate WithinHours(db: Db, slot: int) {
    var hours := DayHours(db, LocalDate(slot));
    hours.Some? && hours.value.open <= LocalHour(slot) < hours.value.close
  }

  function SlotOpen(db: Db, slot: int, room: Room): Option<Code> {
    if !room.active || !WithinHours(db, slot) || SlotClosed(db, slot, room.id) then Some(Closed)
    else if ClassAt(db, slot, room.id) then Some(ClassInSession)
    else None
  }

  // ---------------------------------------------------------------- quota

  predicate ChargedTo(b: Booking, user: nat, date: int) {
    b.user == user && LocalDate(b.slot) == date && ChargesQuota(b.status)
  }

  function QuotaUsed(bs: seq<Booking>, user: nat, date: int): nat {
    |set i | 0 <= i < |bs| && ChargedTo(bs[i], user, date)|
  }

  predicate HeldBy(b: Booking, user: nat, now: int) {
    b.user == user && Upcoming(b.status) && b.End() > now
  }

  function UpcomingHours(bs: seq<Booking>, user: nat, now: int): nat {
    |set i | 0 <= i < |bs| && HeldBy(bs[i], user, now)|
  }

  /** The start is the same hour or a neighbouring one. */
  predicate Near(s: int, t: int) {
    s == t || s == t - HOUR || s == t + HOUR
  }

  predicate HoldsNear(bs: seq<Booking>, user: nat, slot: int) {
    exists i :: 0 <= i < |bs| && bs[i].user == user && Blocking(bs[i].status) && Near(bs[i].slot, slot)
  }

  predicate Forfeited(bs: seq<Booking>, user: nat, room: nat, slot: int) {
    exists i :: 0 <= i < |bs| && bs[i].user == user && bs[i].room == room && bs[i].slot == slot
      && bs[i].status.NoShow?
  }

  predicate Taken(bs: seq<Booking>, room: nat, slot: int) {
    exists i :: 0 <= i < |bs| && bs[i].room == room && bs[i].slot == slot && Blocking(bs[i].status)
  }

  function QuotaAndAdjacency(db: Db, user: nat, slot: int, room: nat, now: int): Option<Code> {
    if HoldsNear(db.bookings, user, slot) then Some(AdjacencyConflict)
    else if QuotaUsed(db.bookings, user, LocalDate(slot)) >= CurrentPolicy(db).dailyQuota then Some(QuotaExceeded)
    else if UpcomingHours(db.bookings, user, now) >= CurrentPolicy(db).maxUpcoming then Some(UpcomingLimit)
    else if Forfeited(db.bookings, user, room, slot) then Some(NoShowReclaim)
    else None
  }
}
