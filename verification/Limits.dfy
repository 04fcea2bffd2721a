/** Where the rules of standing stop: for each operation that can break one, exactly when it does,
    and an example of it happening. */
module Limits {
  import opened Slots
  import opened Tables
  import opened Rules
  import opened Changes
  import opened Bookings
  import opened Sanctions
  import opened Maintenance
  import opened Operations
  import opened Invariants
  import opened Ledgers
  import opened Soundness
  import opened BodySound
  import opened Standing
  import opened Reconcile
  import opened Protocol
  import opened FixedPoint
  import opened Machine
  import opened Examples

  // ---------------------------------------------------------------- adjusted suspensions

  /** The new end lies before every suspension the same user was given later. */
  predicate EndsBeforeNext(ss: seq<Suspension>, id: nat, endsAt: Option<int>)
    requires id < |ss|
  {
    forall j :: id < j < |ss| && ss[j].user == ss[id].user ==> endsAt.Some? && endsAt.value <= ss[j].startsAt
  }

  /** An adjustment keeps the user's suspensions apart exactly when the new end does not reach the
      user's next suspension. */
  lemma AdjustKeepsApart(db: Db, now: int, id: nat, endsAt: Option<int>, user: nat)
    requires OneAtATime(db.suspensions, user) && Succeeded(Adjust(db, now, id, endsAt, true).exit)
    requires db.suspensions[id].user == user
    ensures OneAtATime(Adjust(db, now, id, endsAt, true).db.suspensions, user) <==>
      EndsBeforeNext(db.suspensions, id, endsAt)
  {
    var ss, ts := db.suspensions, Adjust(db, now, id, endsAt, true).db.suspensions;
    assert EffectiveEnd(ts[id]) == endsAt;
    if OneAtATime(ts, user) {
      forall j | id < j < |ss| && ss[j].user == ss[id].user
        ensures endsAt.Some? && endsAt.value <= ss[j].startsAt
      {
        assert ts[j] == ss[j];
      }
    }
  }

  predicate HasOpen(bs: seq<Booking>, user: nat) {
    exists i :: 0 <= i < |bs| && bs[i].user == user && Open(bs[i].status)
  }

  /** An adjustment leaves its user without open bookings while suspended exactly when it does not
      bring a suspension into force over an open booking: unlike the other ways to suspend, it
      cancels nothing. */
  lemma AdjustKeepsNothingOpen(db: Db, now: int, id: nat, endsAt: Option<int>)
    requires Succeeded(Adjust(db, now, id, endsAt, true).exit)
    requires NothingWhileSuspended(db, db.suspensions[id].user, now) && SuspensionsValid(db.suspensions, now)
    ensures NothingWhileSuspended(Adjust(db, now, id, endsAt, true).db, db.suspensions[id].user, now) <==>
      !(HasOpen(db.bookings, db.suspensions[id].user) && (endsAt.None? || now < endsAt.value))
  {
    var user, next := db.suspensions[id].user, Adjust(db, now, id, endsAt, true).db;
    assert SuspensionValid(db.suspensions[id], now);
    if endsAt.None? || now < endsAt.value {
      assert next.suspensions[id].user == user && ActiveAt(next.suspensions[id], now);
    } else if IsSuspended(next, user, now) {
      var i :| 0 <= i < |next.suspensions| && next.suspensions[i].user == user && ActiveAt(next.suspensions[i], now);
      assert ActiveAt(db.suspensions[i], now);
    }
  }

  function Sanctioned(startsAt: int, endsAt: int): Suspension {
    Suspension(1, startsAt, Some(endsAt), None, false, 0, None)
  }

  /** Two suspensions of one user, the first of them over, the second in force. */
  function TwoSuspensions(): Db {
    Few([], [Sanctioned(0, DAY), Sanctioned(2 * DAY, 4 * DAY)], {})
  }

  /** Reopening the first puts the user under two suspensions at once. */
  lemma AdjustOverlaps()
    ensures var db, now := TwoSuspensions(), 3 * DAY;
      var r := Adjust(db, now, 0, Some(5 * DAY), true);
      && Sound(db, now) && OneAtATime(db.suspensions, 1) && Succeeded(r.exit)
      && ActiveAt(r.db.suspensions[0], now) && ActiveAt(r.db.suspensions[1], now)
      && !OneAtATime(r.db.suspensions, 1)
  {
    var db, now := TwoSuspensions(), 3 * DAY;
    assert db.suspensions[1].user == db.suspensions[0].user;
    assert OneAtATime(db.suspensions, 1);
    AdjustKeepsApart(db, now, 0, Some(5 * DAY), 1);
  }

  /** An hour reserved once a short suspension was over. */
  function ReservedSince(): Db {
    Few([AtNine(1, 1)], [Sanctioned(0, HOUR)], {})
  }

  /** Reopening the suspension the evening before leaves the reservation open. */
  lemma AdjustLeavesOpen()
    ensures Sound(ReservedSince(), 12 * HOUR) && NothingWhileSuspended(ReservedSince(), 1, 12 * HOUR)
    ensures var r := Adjust(ReservedSince(), 12 * HOUR, 0, Some(2 * DAY), true);
      Succeeded(r.exit) && !NothingWhileSuspended(r.db, 1, 12 * HOUR)
  {
    var db, now := ReservedSince(), 12 * HOUR;
    AtNineIsSound(now);
    FewIsSound([AtNine(1, 1)], [Sanctioned(0, HOUR)], {}, now);
    assert !ActiveAt(db.suspensions[0], now);
    assert db.bookings[0].user == 1 && Open(db.bookings[0].status);
    AdjustKeepsNothingOpen(db, now, 0, Some(2 * DAY));
  }

  // ---------------------------------------------------------------- staff holds

  lemma HoldLeavesSuspensions(db: Db, now: int, actor: User, room: Room, date: int, hour: int, end: int,
                              details: Details)
    ensures IsSuspended(CreateStaffHold(db, now, actor, room, date, hour, end, details).db, actor.id, now) <==>
      IsSuspended(db, actor.id, now)
  {
    var next := CreateStaffHold(db, now, actor, room, date, hour, end, details).db;
    assert next.suspensions == db.suspensions;
  }

  /** A staff hold leaves its holder with nothing open while suspended exactly when the holder is not
      suspended: nothing else stops it. */
  lemma HoldWhileSuspended(db: Db, now: int, actor: User, room: Room, date: int, hour: int, end: int, details: Details)
    requires Succeeded(CreateStaffHold(db, now, actor, room, date, hour, end, details).exit)
    ensures NothingWhileSuspended(CreateStaffHold(db, now, actor, room, date, hour, end, details).db, actor.id, now)
      <==> !IsSuspended(db, actor.id, now)
  {
    var next := CreateStaffHold(db, now, actor, room, date, hour, end, details).db;
    HoldLeavesSuspensions(db, now, actor, room, date, hour, end, details);
    var rows := HoldRows(db, now, actor, room, date, hour, end - hour, details);
    assert next.bookings[|db.bookings|] == rows[0];
  }

  lemma {:induction false} HoldsCounted(bs: seq<Booking>, rows: seq<Booking>, user: nat, date: int, now: int)
    requires forall k :: 0 <= k < |rows| ==> ChargedTo(rows[k], user, date) && HeldBy(rows[k], user, now)
    ensures QuotaUsed(bs + rows, user, date) == QuotaUsed(bs, user, date) + |rows|
    ensures UpcomingHours(bs + rows, user, now) == UpcomingHours(bs, user, now) + |rows|
  {
    if rows == [] {
      assert bs + rows == bs;
    } else {
      var front, last := rows[..|rows| - 1], rows[|rows| - 1];
      HoldsCounted(bs, front, user, date, now);
      assert bs + rows == (bs + front) + [last];
      OneMoreCharged(bs + front, last, user, date);
      OneMoreHeld(bs + front, last, user, now);
    }
  }

  /** A staff hold charges every one of its hours to its holder and checks no cap: the holder stays
      within a cap exactly when the hours happen to fit it. */
  lemma HoldCharges(db: Db, now: int, actor: User, room: Room, date: int, hour: int, end: int, details: Details)
    requires Succeeded(CreateStaffHold(db, now, actor, room, date, hour, end, details).exit)
    ensures var next := CreateStaffHold(db, now, actor, room, date, hour, end, details).db;
      && QuotaUsed(next.bookings, actor.id, date) == QuotaUsed(db.bookings, actor.id, date) + (end - hour)
      && UpcomingHours(next.bookings, actor.id, now) == UpcomingHours(db.bookings, actor.id, now) + (end - hour)
  {
    var rows := HoldRows(db, now, actor, room, date, hour, end - hour, details);
    forall k | 0 <= k < |rows|
      ensures ChargedTo(rows[k], actor.id, date) && HeldBy(rows[k], actor.id, now)
    {
      SlotStartForInverse(date, hour + k);
    }
    HoldsCounted(db.bookings, rows, actor.id, date, now);
  }

  /** A staff member suspended since New Year holds a room all the same. */
  lemma SuspendedStaffHold()
    ensures var db := Few([], [Suspension(1, 0, None, None, false, 0, None)], {});
      var r := CreateStaffHold(db, 0, STAFF, HALL, 1, 9, 10, UNTITLED);
      && Sound(db, 0) && NothingWhileSuspended(db, 1, 0) && IsSuspended(db, 1, 0)
      && Succeeded(r.exit) && !NothingWhileSuspended(r.db, 1, 0)
  {
    var db := Few([], [Suspension(1, 0, None, None, false, 0, None)], {});
    FewIsSound([], db.suspensions, {}, 0);
    assert ActiveAt(db.suspensions[0], 0);
    HoldsFromNine(1);
    SameRefusal(db);
    HoldWhileSuspended(db, 0, STAFF, HALL, 1, 9, 10, UNTITLED);
  }

  /** Suspensions do not enter the decision. */
  lemma SameRefusal(db: Db)
    requires db.bookings == [] && db.site == DEFAULT_SITE
    ensures StaffRefusal(db, 0, STAFF, HALL, 1, 9, 10) == StaffRefusal(EMPTY, 0, STAFF, HALL, 1, 9, 10)
  {
    assert FirstShut(db, HALL, 1, 9, 10) == SlotOpen(db, SlotStartFor(1, 9), HALL);
    assert FirstShut(EMPTY, HALL, 1, 9, 10) == SlotOpen(EMPTY, SlotStartFor(1, 9), HALL);
  }

  /** Five hours held in a row, on empty tables: more than the quota of a day and the cap on hours ahead. */
  lemma HoldExceedsCaps()
    ensures Sound(EMPTY, 0)
    ensures var r := CreateStaffHold(EMPTY, 0, STAFF, HALL, 1, 9, 14, UNTITLED);
      && Succeeded(r.exit)
      && QuotaUsed(r.db.bookings, 1, 1) > CurrentPolicy(EMPTY).dailyQuota
      && UpcomingHours(r.db.bookings, 1, 0) > CurrentPolicy(EMPTY).maxUpcoming
  {
    NoRowsIsSound(0);
    HoldsFromNine(5);
    HoldCharges(EMPTY, 0, STAFF, HALL, 1, 9, 14, UNTITLED);
  }

  // ---------------------------------------------------------------- answers that cannot happen

  /** Every unique constraint of the booking table holds in a sound state, so no insert or update
      that leads to one trips it. */
  lemma UniqueConstraintsHold(db: Db, clock: int, i: nat, j: nat)
    requires Sound(db, clock) && i < j < |db.bookings|
    requires Blocking(db.bookings[i].status) && Blocking(db.bookings[j].status)
    ensures !SameCell(db.bookings[i], db.bookings[j])
    ensures !db.bookings[i].staff && !db.bookings[j].staff && db.bookings[i].user == db.bookings[j].user ==>
      db.bookings[i].slot != db.bookings[j].slot
  {
  }

  /** On sound tables the refusal to reclaim a missed hour answers only a walk-in; a future hour is
      never a missed one. */
  lemma ReclaimOnlyWalkIn(db: Db, now: int, actor: User, room: Room, slot: int, id: nat)
    requires Sound(db, now)
    ensures AdvanceTarget(db, now, actor, room, slot) != Some(NoShowReclaim)
    ensures id < |db.bookings| ==> MoveRefusal(db, now, actor, id, room) != Some(NoShowReclaim)
  {
    if now < slot {
      FutureNotForfeited(db.bookings, actor.id, room.id, slot, now);
    }
    if id < |db.bookings| && now < db.bookings[id].slot {
      FutureNotForfeited(db.bookings, actor.id, room.id, db.bookings[id].slot, now);
    }
  }

  /** The request asks to take the end off an automatic suspension. */
  predicate RemovesAutoEnd(db: Db, now: int, op: SanctionOp) {
    match op
    case OpAdjust(id, endsAt, reasonGiven) =>
      && reasonGiven && endsAt.None? && id < |db.suspensions|
      && db.suspensions[id].auto && db.suspensions[id].liftedAt.None?
    case OpSuspend(user, endsAt, reasonGiven) =>
      var active := ActiveSuspension(db.suspensions, user, now);
      reasonGiven && endsAt.None? && active.Some? && db.suspensions[active.value].auto
    case _ => false
  }

  /** The request sets opening hours, the later one last. */
  predicate SetsHours(op: SiteOp) {
    op.OpSetOverride? && op.isOpen && op.open.Some? && op.close.Some? && op.open.value < op.close.value
  }

  /** Hours an override can hold but may not store. */
  predicate ImpossibleHours(op: SiteOp) {
    && SetsHours(op) && FitsColumn(op.open.value) && FitsColumn(op.close.value)
    && !(0 <= op.open.value <= 23 && 0 <= op.close.value <= 24)
  }

  /** Hours too large for their column. */
  predicate HugeHours(op: SiteOp) {
    SetsHours(op) && !(FitsColumn(op.open.value) && FitsColumn(op.close.value))
  }

  /** The only requests that reach a table constraint: taking the end off an automatic suspension and
      overriding the hours of a day with impossible ones. Both are answered as a slot conflict. */
  lemma OnlyTheseTripConstraints(db: Db, now: int, op: Op)
    ensures Body(db, now, op).exit.ConstraintFailed? <==>
      (op.OnSanctions? && RemovesAutoEnd(db, now, op.sanction)) || (op.OnSite? && ImpossibleHours(op.site))
    ensures Body(db, now, op).exit.ConstraintFailed? ==> Body(db, now, op).exit.constraint == OtherConstraint
  {
    match op
    case OnBookings(booking) => assert !BookingBody(db, now, booking).exit.ConstraintFailed?;
    case OnSanctions(sanction) => assert SanctionBody(db, now, sanction) == Body(db, now, op);
    case OnSite(site) => assert SiteBody(db, now, site) == Body(db, now, op);
  }

  /** One strike, and the automatic suspension of ten days it led to under a threshold of one. */
  const STRIKE := Violation(1, None, false, 0, 30 * DAY, true, None, Some(0), None)
  const FOR_TEN_DAYS := Suspension(1, 0, Some(10 * DAY), None, true, 1, None)

  function Punished(): Db {
    EMPTY.(violations := [STRIKE], suspensions := [FOR_TEN_DAYS])
  }

  lemma PunishedIsSound()
    ensures Sound(Punished(), DAY)
  {
    assert SuspensionValid(FOR_TEN_DAYS, DAY);
    assert ConsumedIds([STRIKE], 0) == {0};
    SanctionsAreSound([STRIKE], [FOR_TEN_DAYS], DAY);
  }

  lemma TrippedOn(db: Db)
    requires db.suspensions == [FOR_TEN_DAYS]
    ensures Adjust(db, DAY, 0, None, true).exit == ConstraintFailed(OtherConstraint)
    ensures Suspend(db, DAY, 1, None, true).exit == ConstraintFailed(OtherConstraint)
    ensures SetOverride(db, 1, true, Some(8), Some(25)).exit == ConstraintFailed(OtherConstraint)
  {
    assert ActiveAt(db.suspensions[0], DAY);
    assert ActiveSuspension(db.suspensions, 1, DAY) == Some(0);
  }

  /** On these tables, sound as they are, making the suspension indefinite and opening a day until one in the
      morning are both answered as slot conflicts. */
  lemma ConstraintsAreTripped()
    ensures Sound(Punished(), DAY)
    ensures Adjust(Punished(), DAY, 0, None, true).exit == ConstraintFailed(OtherConstraint)
    ensures Suspend(Punished(), DAY, 1, None, true).exit == ConstraintFailed(OtherConstraint)
    ensures SetOverride(Punished(), 1, true, Some(8), Some(25)).exit == ConstraintFailed(OtherConstraint)
  {
    PunishedIsSound();
    TrippedOn(Punished());
  }

  // ---------------------------------------------------------------- errors nothing handles

  /** The request names a booking, series, violation, suspension or closure that does not exist, or would void a
      violation for an incident that does not. */
  predicate NamesMissingRow(db: Db, op: Op) {
    match op
    case OnBookings(booking) => (
      match booking
      case OpDetails(_, id, _) => id >= |db.bookings|
      case OpMove(_, id, _) => id >= |db.bookings|
      case OpDecide(id, _) => id >= |db.bookings|
      case OpCancel(_, id, _) => id >= |db.bookings|
      case OpCheckIn(_, _, id, _, _) => id >= |db.bookings|
      case OpCancelSeries(_, series) => series >= |db.site.series|
      case _ => false)
    case OnSanctions(sanction) => (
      match sanction
      case OpVoidViolation(id, reasonGiven) => reasonGiven && id >= |db.violations|
      case OpAdjust(id, _, reasonGiven) => reasonGiven && id >= |db.suspensions|
      case OpLift(id, reasonGiven) => reasonGiven && id >= |db.suspensions|
      case OpVoidIncident(id, read, reasonGiven) =>
        && reasonGiven && id >= |db.site.incidents|
        && exists k :: 0 <= k < |db.violations| && VoidedByIncident(db.violations[k], read, db.bookings)
      case _ => false)
    case OnSite(site) => (
      match site
      case OpRevokeClosure(id, reasonGiven) => reasonGiven && id >= |db.site.closures|
      case OpCompleteEarly(id, reasonGiven) => reasonGiven && id >= |db.bookings|
      case OpResolveReview(id, noteGiven) => noteGiven && id >= |db.bookings|
      case _ => false)
  }

  /** The request carries a value some step of its body cannot hold: opening hours beyond their column, or the
      first hours of year 1. */
  predicate Overflows(op: Op) {
    || (op.OnSite? && HugeHours(op.site))
    || (op.OnBookings? && op.booking.OpStaffHold?
        && HourOverflows(op.booking.actor, op.booking.date, op.booking.hour, op.booking.end))
  }

  lemma {:induction false} SomeVoided(vs: seq<Violation>, n: nat, extent: Incident, bs: seq<Booking>)
    requires n <= |vs|
    ensures VoidCount(vs, n, extent, bs) > 0 <==> exists k :: 0 <= k < n && VoidedByIncident(vs[k], extent, bs)
  {
    if n > 0 {
      SomeVoided(vs, n - 1, extent, bs);
    }
  }

  /** A request ends in an error nothing handles exactly when it names a missing row or overflows. */
  lemma OnlyTheseFail(db: Db, now: int, op: Op)
    ensures Body(db, now, op).exit.Crashed? <==> NamesMissingRow(db, op) || Overflows(op)
  {
    match op
    case OnBookings(booking) => assert BookingBody(db, now, booking) == Body(db, now, op);
    case OnSanctions(sanction) =>
      assert SanctionBody(db, now, sanction) == Body(db, now, op);
      if sanction.OpVoidIncident? {
        SomeVoided(db.violations, |db.violations|, sanction.read, db.bookings);
      }
    case OnSite(site) => assert SiteBody(db, now, site) == Body(db, now, op);
  }

  lemma ErrorsAreCrashes(db: Db, rec: Reconciled, now: int, call: Call, body: BodyOf)
    requires Keyed(call) ==> KeyOf(call) !in rec.db.requests
    ensures var ran := Respond(db, rec, now, call, body);
      && (ran.reply.Error? <==> rec.complete && body(rec.db, now).exit.Crashed?)
      && (ran.reply.Error? ==> ran.db == db)
  {
    if rec.complete && body(rec.db, now).exit.Returned? && body(rec.db, now).exit.outcome.ok {
      assert Record(body(rec.db, now).db, call, body(rec.db, now).exit.outcome).reply.Answer?;
    }
  }

  /** The error undoes even the reconciliation that ran before it: the request, unless it is answered from a
      record, is answered with an error exactly when it fails so and the backlog fits the budget, and it then
      leaves the tables as they were before it. */
  lemma FailureUndoesReconciliation(db: Db, now: int, budget: nat, call: Call, op: Op)
    requires Keyed(call) ==> KeyOf(call) !in db.requests
    ensures var ran, rec := RunOnce(db, now, budget, call, BodyFor(op)), Run(db, now, budget);
      && (ran.reply.Error? <==> rec.complete && (NamesMissingRow(rec.db, op) || Overflows(op)))
      && (ran.reply.Error? ==> ran.db == db)
  {
    OnlyTheseFail(Run(db, now, budget).db, now, op);
    ErrorsAreCrashes(db, Run(db, now, budget), now, call, BodyFor(op));
  }

  lemma MissedIsUnsettled(db: Db, now: int, id: nat)
    requires id < |db.bookings| && Overdue(db.bookings[id], now) && !Covered(db.site.incidents, db.bookings[id])
    ensures !Settled(db, now)
  {
    assert IsDue(NoShows, db.bookings[id], now);
  }

  /** Twenty minutes into a missed hour, reconciliation has something to settle. */
  lemma MissedHourIsSettled(db: Db, now: int, budget: nat)
    requires db == Few([AtNine(1, 1)], [], {}) && now == NINE + 20 * MINUTE && budget >= 1
    ensures Run(db, now, budget).complete && Settled(Run(db, now, budget).db, now) && !Settled(db, now)
  {
    SmallTablesComplete(db, now, budget);
    RunSettles(db, now, budget);
    MissedIsUnsettled(db, now, 0);
  }

  /** Opening a day from eight to forty thousand, and holding a room on the first day of the calendar. */
  const HUGE := OnSite(OpSetOverride(1, true, Some(8), Some(40_000)))
  const ANCIENT := OnBookings(OpStaffHold(STAFF, HALL, -EPOCH, 0, 1, UNTITLED))

  lemma BothOverflow()
    ensures Overflows(HUGE) && Overflows(ANCIENT)
  {
  }

  /** Either request leaves that hour unsettled: it is not forfeited. */
  lemma NoShowIsLost(db: Db, now: int, budget: nat, call: Call, op: Op)
    requires db == Few([AtNine(1, 1)], [], {}) && now == NINE + 20 * MINUTE && budget >= 1
    requires op == HUGE || op == ANCIENT
    ensures !Settled(db, now) && Settled(Run(db, now, budget).db, now)
    ensures RunOnce(db, now, budget, call, BodyFor(op)) == Ran(db, Error)
  {
    MissedHourIsSettled(db, now, budget);
    BothOverflow();
    FailureUndoesReconciliation(db, now, budget, call, op);
  }
}
