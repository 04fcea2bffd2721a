/** What every reachable state of the booking tables satisfies (the table constraints of
    core/models and the rules the services promise), and what the changes that can happen to the
    booking table keep of it. */
module Invariants {
  import opened Slots
  import opened Tables
  import opened Rules
  import opened Changes
  import opened Reconcile

  // ---------------------------------------------------------------- table constraints and rules

  /** The row constraints of the booking table, and how rows relate to the clock. */
  ghost predicate RowValid(b: Booking, clock: int) {
    && HourAligned(b.slot)
    && (b.walkIn ==> !Open(b.status))
    && (b.deadline.None? <==> b.walkIn)
    && (b.deadline.Some? ==> b.slot + MINUTE <= b.deadline.value <= b.slot + 59 * MINUTE)
    && LocalDate(b.slot) <= LocalDate(clock) + FarthestDays(b)
    && (b.checkedInAt.Some? ==> b.slot <= b.checkedInAt.value < b.End())
    && (b.status.Cancelled? <==> b.cancelledAt.Some?)
    && (b.cancelReason.Some? ==> b.cancelledAt.Some?)
    && (b.status.NoShow? ==> !b.staff && b.deadline.Some? && b.deadline.value <= clock)
    && (b.status.InUse? ==> b.slot <= clock)
    && AttendanceValid(b)
    && OutcomeValid(b, clock)
  }

  /** How far ahead of the clock the booking can lie: the farthest horizon a policy may set, or the staff
      horizon. */
  function FarthestDays(b: Booking): int {
    if b.staff then 90 else 60
  }

  /** A check-in is before the deadline and belongs to a session, and every student session has one: so
      nobody who checked in is a no-show. */
  ghost predicate AttendanceValid(b: Booking) {
    && (b.checkedInAt.Some? ==> b.status.InUse? || b.status.Completed?)
    && (b.status.InUse? || (b.status.Completed? && !b.staff) ==> b.checkedInAt.Some?)
    && (b.checkedInAt.Some? && b.deadline.Some? ==> b.checkedInAt.value < b.deadline.value)
    && (b.status.PendingApproval? || b.status.Rejected? ==> b.approvedAt.None?)
  }

  /** Exactly the completed bookings have an end, within their hour; a cancellation is late exactly
      when the holder made it within the last hour before the start. */
  ghost predicate OutcomeValid(b: Booking, clock: int) {
    && (b.status.Completed? <==> b.actualEnd.Some?)
    && (b.actualEnd.Some? ==> b.slot <= b.actualEnd.value <= b.End() && b.actualEnd.value <= clock)
    && (b.late <==> ByHolder(b.cancelReason) && b.cancelledAt.Some? && b.cancelledAt.value > b.slot - HOUR)
  }

  predicate ByHolder(reason: Option<CancelReason>) {
    reason == Some(ByOwner) || reason == Some(BySeries)
  }

  ghost predicate RowsValid(bs: seq<Booking>, clock: int) {
    forall i :: 0 <= i < |bs| ==> RowValid(bs[i], clock)
  }

  ghost predicate SameCell(a: Booking, b: Booking) {
    a.room == b.room && a.slot == b.slot
  }

  /** One blocking booking a room and hour. */
  ghost predicate Exclusive(bs: seq<Booking>) {
    forall i, j :: 0 <= i < j < |bs| && Blocking(bs[i].status) && Blocking(bs[j].status) ==> !SameCell(bs[i], bs[j])
  }

  /** Two distinct blocking bookings of one student start at least two hours apart. */
  ghost predicate Spaced(bs: seq<Booking>) {
    forall i, j :: 0 <= i < j < |bs| && Blocking(bs[i].status) && Blocking(bs[j].status)
      && !bs[i].staff && !bs[j].staff && bs[i].user == bs[j].user
      ==> bs[i].slot + 2 * HOUR <= bs[j].slot || bs[j].slot + 2 * HOUR <= bs[i].slot
  }

  /** Nobody holds a room and hour again after missing it. */
  ghost predicate NotReclaimed(bs: seq<Booking>) {
    forall i, j :: 0 <= i < |bs| && 0 <= j < |bs| && bs[i].status.NoShow? && Blocking(bs[j].status)
      ==> !(bs[i].user == bs[j].user && SameCell(bs[i], bs[j]))
  }

  ghost predicate ClearOf(b: Booking, cs: seq<Closure>) {
    forall k :: 0 <= k < |cs| ==> !ClosureCovers(cs[k], b.slot, b.room)
  }

  /** No student's open booking meets a closure in force. */
  ghost predicate StudentsClear(bs: seq<Booking>, cs: seq<Closure>) {
    forall i :: 0 <= i < |bs| && Open(bs[i].status) && !bs[i].staff ==> ClearOf(bs[i], cs)
  }

  /** No open booking at all meets a closure in force. */
  ghost predicate AllClear(bs: seq<Booking>, cs: seq<Closure>) {
    forall i :: 0 <= i < |bs| && Open(bs[i].status) ==> ClearOf(bs[i], cs)
  }

  ghost predicate BookingsSound(bs: seq<Booking>, clock: int) {
    RowsValid(bs, clock) && Exclusive(bs) && Spaced(bs) && NotReclaimed(bs)
  }

  // ---------------------------------------------------------------- rows that only lose claims

  /** `c` is `b` later in its life, without a move: it claims nothing `b` did not claim. */
  ghost predicate Later(b: Booking, c: Booking) {
    && c.user == b.user && c.room == b.room && c.slot == b.slot
    && c.walkIn == b.walkIn && c.staff == b.staff && c.deadline == b.deadline && c.series == b.series
    && (Blocking(c.status) ==> Blocking(b.status))
    && (Upcoming(c.status) ==> Upcoming(b.status))
    && (Open(c.status) ==> Open(b.status))
    && (c.status.NoShow? ==> b.status.NoShow? || Blocking(b.status))
    && (b.status.NoShow? ==> c.status.NoShow?)
  }

  ghost predicate AllLater(bs: seq<Booking>, cs: seq<Booking>) {
    |bs| == |cs| && forall i :: 0 <= i < |bs| ==> Later(bs[i], cs[i])
  }

  lemma LaterTransitive(bs: seq<Booking>, cs: seq<Booking>, ds: seq<Booking>)
    requires AllLater(bs, cs) && AllLater(cs, ds)
    ensures AllLater(bs, ds)
  {
    forall i | 0 <= i < |bs|
      ensures Later(bs[i], ds[i])
    {
      assert Later(bs[i], cs[i]) && Later(cs[i], ds[i]);
    }
  }

  lemma LaterReflexive(bs: seq<Booking>)
    ensures AllLater(bs, bs)
  {
  }

  lemma LaterKeepsRules(bs: seq<Booking>, cs: seq<Booking>, closures: seq<Closure>)
    requires AllLater(bs, cs) && Exclusive(bs)
    ensures Exclusive(cs)
    ensures Spaced(bs) ==> Spaced(cs)
    ensures NotReclaimed(bs) ==> NotReclaimed(cs)
    ensures StudentsClear(bs, closures) ==> StudentsClear(cs, closures)
    ensures AllClear(bs, closures) ==> AllClear(cs, closures)
  {
    assert forall i :: 0 <= i < |bs| ==> Later(bs[i], cs[i]);
    if NotReclaimed(bs) {
      forall i, j | 0 <= i < |cs| && 0 <= j < |cs| && cs[i].status.NoShow? && Blocking(cs[j].status)
        ensures !(cs[i].user == cs[j].user && SameCell(cs[i], cs[j]))
      {
        assert Later(bs[i], cs[i]) && Later(bs[j], cs[j]);
      }
    }
  }

  /** Each bulk change leaves every row later in the same life, and valid. */
  lemma ApplyIsLater(c: RowChange, b: Booking)
    ensures Later(b, Apply(c, b))
  {
  }

  lemma MapIsLater(c: RowChange, bs: seq<Booking>)
    ensures AllLater(bs, MapRows(bs, c))
  {
    forall i | 0 <= i < |bs|
      ensures Later(bs[i], MapRows(bs, c)[i])
    {
      ApplyIsLater(c, bs[i]);
    }
  }

  /** The clock the change acts at is not after `clock`. */
  ghost predicate ActsBy(c: RowChange, clock: int) {
    match c
    case Forfeit(now, _) => now <= clock
    case StartHold(now) => now <= clock
    case Complete(now) => now <= clock
    case CancelOpenOf(_, _, reason) => !ByHolder(Some(reason))
    case _ => true
  }

  lemma ApplyKeepsValid(c: RowChange, b: Booking, clock: int)
    requires RowValid(b, clock) && ActsBy(c, clock)
    ensures RowValid(Apply(c, b), clock)
  {
  }

  lemma MapKeepsSound(c: RowChange, bs: seq<Booking>, clock: int)
    requires BookingsSound(bs, clock) && ActsBy(c, clock)
    ensures BookingsSound(MapRows(bs, c), clock)
  {
    MapIsLater(c, bs);
    LaterKeepsRules(bs, MapRows(bs, c), []);
    forall i | 0 <= i < |bs|
      ensures RowValid(MapRows(bs, c)[i], clock)
    {
      ApplyKeepsValid(c, bs[i], clock);
    }
  }

  lemma ClockAdvances(bs: seq<Booking>, clock: int, later: int)
    requires BookingsSound(bs, clock) && clock <= later
    ensures BookingsSound(bs, later)
  {
    forall i | 0 <= i < |bs|
      ensures RowValid(bs[i], later)
    {
      assert RowValid(bs[i], clock);
    }
  }

  // ---------------------------------------------------------------- one row replaced in place

  lemma ReplaceKeepsSound(bs: seq<Booking>, id: nat, row: Booking, clock: int)
    requires BookingsSound(bs, clock) && id < |bs|
    requires Later(bs[id], row) && RowValid(row, clock)
    ensures BookingsSound(bs[id := row], clock) && AllLater(bs, bs[id := row])
  {
    var cs := bs[id := row];
    forall i | 0 <= i < |bs|
      ensures Later(bs[i], cs[i]) && RowValid(cs[i], clock)
    {
      assert RowValid(bs[i], clock);
    }
    LaterKeepsRules(bs, cs, []);
  }

  // ---------------------------------------------------------------- a row admitted

  /** The room and hour are free for the row. */
  ghost predicate Fits(bs: seq<Booking>, row: Booking) {
    && Blocking(row.status)
    && !Taken(bs, row.room, row.slot)
    && !Forfeited(bs, row.user, row.room, row.slot)
  }

  lemma AdmitKeepsSound(bs: seq<Booking>, row: Booking, clock: int)
    requires BookingsSound(bs, clock) && RowValid(row, clock) && Fits(bs, row)
    requires row.staff || !HoldsNear(bs, row.user, row.slot)
    ensures BookingsSound(bs + [row], clock)
  {
    var cs := bs + [row];
    assert forall i :: 0 <= i < |bs| ==> cs[i] == bs[i];
    forall i, j | 0 <= i < j < |cs| && Blocking(cs[i].status) && Blocking(cs[j].status)
      ensures !SameCell(cs[i], cs[j])
      ensures !cs[i].staff && !cs[j].staff && cs[i].user == cs[j].user ==>
        cs[i].slot + 2 * HOUR <= cs[j].slot || cs[j].slot + 2 * HOUR <= cs[i].slot
    {
      if j == |bs| && !row.staff && cs[i].user == row.user {
        FarApart(cs[i].slot, row.slot);
      }
    }
  }

  /** Hour-aligned starts that are not the same or neighbouring hours are two hours apart. */
  lemma FarApart(s: int, t: int)
    requires HourAligned(s) && HourAligned(t) && !Near(s, t)
    ensures s + 2 * HOUR <= t || t + 2 * HOUR <= s
  {
    AlignedIsSlotStart(s);
    AlignedIsSlotStart(t);
    var x, y := 24 * LocalDate(s) + LocalHour(s), 24 * LocalDate(t) + LocalHour(t);
    assert s == x * HOUR - OFFSET && t == y * HOUR - OFFSET;
    assert x != y && x != y - 1 && x != y + 1;
  }

  // ---------------------------------------------------------------- a row moved to another room

  /** `row` is `b` in another room for the same hour, still open. */
  ghost predicate Relocated(b: Booking, row: Booking) {
    && row.user == b.user && row.slot == b.slot && row.walkIn == b.walkIn && row.staff == b.staff
    && row.deadline == b.deadline && Open(b.status) && Open(row.status)
  }

  lemma MoveKeepsSound(bs: seq<Booking>, id: nat, row: Booking, clock: int)
    requires BookingsSound(bs, clock) && id < |bs| && RowValid(row, clock) && Relocated(bs[id], row)
    requires forall i :: 0 <= i < |bs| && i != id && Blocking(bs[i].status) ==> !SameCell(bs[i], row)
    requires !Forfeited(bs, row.user, row.room, row.slot)
    ensures BookingsSound(bs[id := row], clock)
  {
  }

  // ---------------------------------------------------------------- reconciliation

  lemma LaterByMap(bs: seq<Booking>, cs: seq<Booking>, c: RowChange)
    requires AllLater(bs, cs)
    ensures AllLater(bs, MapRows(cs, c))
  {
    MapIsLater(c, cs);
    LaterTransitive(bs, cs, MapRows(cs, c));
  }

  lemma {:induction false} SuspendAllLater(bs: seq<Booking>, db: Db, users: seq<nat>, now: int)
    requires AllLater(bs, db.bookings)
    ensures AllLater(bs, SuspendAll(db, users, now).bookings)
    decreases |users|
  {
    if users != [] {
      var front, last := users[..|users| - 1], users[|users| - 1];
      SuspendAllLater(bs, db, front, now);
      LaterByMap(bs, SuspendAll(db, front, now).bookings, CancelOpenOf(last, now, BySuspension));
    }
  }

  /** Reconciliation, complete or not, leaves every booking later in its life and gives none a claim it
      did not have. */
  lemma RunIsLater(db: Db, now: int, budget: nat)
    ensures AllLater(db.bookings, Run(db, now, budget).db.bookings)
  {
    var bs := db.bookings;
    LaterReflexive(bs);
    if OverBudget(Approvals, db, now, budget) {
      return;
    }
    var a := ExpireApprovals(db, now);
    LaterByMap(bs, bs, ExpireApproval(now));
    if OverBudget(NoShows, a, now, budget) {
      return;
    }
    var b := RecordNoShows(a, now);
    LaterByMap(bs, a.bookings, Forfeit(now, a.site.incidents));
    if OverBudget(Holds, b, now, budget) {
      return;
    }
    var c := StartHolds(b, now);
    LaterByMap(bs, b.bookings, StartHold(now));
    if OverBudget(Completions, c, now, budget) {
      return;
    }
    var e := CompleteSessions(c, now);
    LaterByMap(bs, c.bookings, Complete(now));
    SuspendAllLater(bs, e, Offenders(e, now), now);
  }
}
