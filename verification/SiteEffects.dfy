/** What staff change about the site - closures, opening hours, policy - and about single sessions, and what
    that means for the hours that can be booked. */
module SiteEffects {
  import opened Slots
  import opened Tables
  import opened Rules
  import opened Changes
  import opened Reconcile
  import opened Bookings
  import opened Maintenance
  import opened Invariants
  import opened Soundness
  import opened BookingEffects
  import opened LazyEager

  /** The tables but for what staff keep. */
  ghost predicate OnlySite(db: Db, next: Db) {
    next == db.(site := next.site)
  }

  // ---------------------------------------------------------------- closures

  /** Some closure in force other than number `id` takes part of the hour. */
  ghost predicate ClosedByAnother(db: Db, id: nat, slot: int, room: nat) {
    exists k :: 0 <= k < |db.site.closures| && k != id && ClosureCovers(db.site.closures[k], slot, room)
  }

  /** A revoked closure closes nothing any more, and every hour is open exactly as the other closures, the
      timetable and the classes leave it; it restores no booking, and is revoked once. */
  lemma RevokedClosesNothing(db: Db, now: int, id: nat)
    requires Succeeded(RevokeClosure(db, now, id, true).exit)
    ensures var next := RevokeClosure(db, now, id, true).db;
      && OnlySite(db, next)
      && (forall slot, room :: SlotClosed(next, slot, room) <==> ClosedByAnother(db, id, slot, room))
      && (forall slot, room: Room :: SlotOpen(next, slot, room).None? <==>
            room.active && WithinHours(db, slot) && !ClosedByAnother(db, id, slot, room.id) && !ClassAt(db, slot, room.id))
      && (forall later :: !Succeeded(RevokeClosure(next, later, id, true).exit))
  {
    var next := RevokeClosure(db, now, id, true).db;
    forall slot, room
      ensures SlotClosed(next, slot, room) <==> ClosedByAnother(db, id, slot, room)
    {
      if k :| 0 <= k < |db.site.closures| && k != id && ClosureCovers(db.site.closures[k], slot, room) {
        assert ClosureCovers(next.site.closures[k], slot, room);
      }
    }
    assert forall slot, room :: ClassAt(next, slot, room) == ClassAt(db, slot, room);
    assert forall slot :: WithinHours(next, slot) == WithinHours(db, slot);
  }

  /** Closing and revoking leaves the calendar as it was, for every room and hour; the bookings it cancelled
      stay cancelled. */
  lemma CloseThenRevoke(db: Db, now: int, clock: int, scope: Option<nat>, starts: int, ends: int, reason: string,
                        acknowledged: bool, later: int, slot: int, room: Room)
    requires Succeeded(CreateClosure(db, now, clock, scope, starts, ends, reason, true, acknowledged).exit)
    ensures var closed := CreateClosure(db, now, clock, scope, starts, ends, reason, true, acknowledged).db;
      var r := RevokeClosure(closed, later, |db.site.closures|, true);
      && Succeeded(r.exit) && SlotOpen(r.db, slot, room) == SlotOpen(db, slot, room)
      && r.db.bookings == closed.bookings
  {
    var closed := CreateClosure(db, now, clock, scope, starts, ends, reason, true, acknowledged).db;
    var id := |db.site.closures|;
    RevokedClosesNothing(closed, later, id);
    assert closed.site.closures[..id] == db.site.closures;
    assert ClosedByAnother(closed, id, slot, room.id) <==> SlotClosed(db, slot, room.id) by {
      if k :| 0 <= k < id && ClosureCovers(db.site.closures[k], slot, room.id) {
        assert closed.site.closures[k] == db.site.closures[k];
      }
    }
    var reopened := RevokeClosure(closed, later, id, true).db;
    assert WithinHours(reopened, slot) == WithinHours(db, slot);
    assert ClassAt(reopened, slot, room.id) == ClassAt(db, slot, room.id);
  }

  // ---------------------------------------------------------------- opening hours

  /** An override decides the hours of its date and of no other: on the date a room is open within the new
      hours unless a closure or a class forbids it, and not at all on a day that is closed. */
  lemma OverrideDecidesItsDate(db: Db, date: int, isOpen: bool, open: Option<int>, close: Option<int>)
    requires Succeeded(SetOverride(db, date, isOpen, open, close).exit)
    ensures var next := SetOverride(db, date, isOpen, open, close).db;
      && OnlySite(db, next)
      && (forall slot, room: Room :: LocalDate(slot) != date ==> SlotOpen(next, slot, room) == SlotOpen(db, slot, room))
      && (forall slot, room: Room :: LocalDate(slot) == date ==>
            (SlotOpen(next, slot, room).None? <==>
               && room.active && isOpen && open.value <= LocalHour(slot) < close.value
               && !SlotClosed(db, slot, room.id) && !ClassAt(db, slot, room.id)))
  {
    var next := SetOverride(db, date, isOpen, open, close).db;
    assert forall slot, room :: ClassAt(next, slot, room) == ClassAt(db, slot, room);
    assert forall slot, room :: SlotClosed(next, slot, room) == SlotClosed(db, slot, room);
  }

  /** The last override of a date counts. */
  lemma LastOverrideCounts(db: Db, date: int, isOpen: bool, open: Option<int>, close: Option<int>, again: bool,
                           from: Option<int>, until: Option<int>)
    requires Succeeded(SetOverride(db, date, isOpen, open, close).exit)
    ensures SetOverride(SetOverride(db, date, isOpen, open, close).db, date, again, from, until).exit ==
      SetOverride(db, date, again, from, until).exit
    ensures Succeeded(SetOverride(db, date, again, from, until).exit) ==>
      SetOverride(SetOverride(db, date, isOpen, open, close).db, date, again, from, until).db ==
      SetOverride(db, date, again, from, until).db
  {
  }

  // ---------------------------------------------------------------- policy

  /** A new policy version governs what is booked and recorded from then on - caps, horizon, deadlines, the
      threshold - and nothing recorded before: every booking keeps its deadline and every strike its window. */
  lemma PolicyBindsTheFuture(db: Db, policy: Policy)
    requires Succeeded(UpdatePolicy(db, policy).exit)
    ensures var next := UpdatePolicy(db, policy).db;
      && OnlySite(db, next) && PolicyInRange(policy) && CurrentPolicy(next) == policy
      && (forall user, t :: StrikeIds(next.violations, user, t) == StrikeIds(db.violations, user, t))
      && (forall now, actor, room, slot, details :: Succeeded(CreateAdvance(next, now, actor, room, slot, details).exit) ==>
            && slot > now && LocalDate(slot) <= LocalDate(now) + policy.horizonDays
            && QuotaUsed(db.bookings, actor.id, LocalDate(slot)) < policy.dailyQuota
            && UpcomingHours(db.bookings, actor.id, now) < policy.maxUpcoming
            && AdvanceRow(next, now, actor, room, slot, details).deadline == Some(slot + policy.grace * MINUTE))
      && (forall now, user :: user in Offenders(next, now) <==> |StrikeIds(db.violations, user, now)| >= policy.threshold)
  {
    var next := UpdatePolicy(db, policy).db;
    forall now, user | |StrikeIds(db.violations, user, now)| >= policy.threshold
      ensures user in Strikers(db.violations, now)
    {
      assert StrikeIds(db.violations, user, now) != {};
      var i :| i in StrikeIds(db.violations, user, now);
      assert StrikeOf(db.violations[i], user, now);
    }
  }

  // ---------------------------------------------------------------- sessions

  /** A session completed early has its end then, and its hour and its quota stay used; its holder has one hour
      ahead fewer while the hour lasts. Nothing can be done with it any more, and reconciliation leaves it. */
  lemma EarlyEndKeepsTheHour(db: Db, now: int, id: nat)
    requires Succeeded(CompleteEarly(db, now, id, true).exit) && Exclusive(db.bookings)
    ensures var next, b := CompleteEarly(db, now, id, true).db, db.bookings[id];
      && OnlyRow(db, next, id) && next.bookings[id].actualEnd == Some(now) && !next.bookings[id].needsReview
      && (forall room, slot :: Taken(next.bookings, room, slot) <==> Taken(db.bookings, room, slot))
      && (forall user, date :: QuotaUsed(next.bookings, user, date) == QuotaUsed(db.bookings, user, date))
      && (forall t :: UpcomingHours(next.bookings, b.user, t) ==
                        UpcomingHours(db.bookings, b.user, t) - if t < b.End() then 1 else 0)
      && NothingMoreToDo(next, id) && !Succeeded(CompleteEarly(next, now, id, true).exit)
      && forall incidents, t :: Live(next.bookings[id], incidents, t) == next.bookings[id]
  {
    var next, b := CompleteEarly(db, now, id, true).db, db.bookings[id];
    var row := next.bookings[id];
    forall room, slot
      ensures Taken(next.bookings, room, slot) <==> Taken(db.bookings, room, slot)
    {
      ReplacedTaken(db.bookings, id, row, room, slot);
    }
    forall user, date
      ensures QuotaUsed(next.bookings, user, date) == QuotaUsed(db.bookings, user, date)
    {
      ReplacedQuota(db.bookings, id, row, user, date);
    }
    forall t
      ensures UpcomingHours(next.bookings, b.user, t) ==
        UpcomingHours(db.bookings, b.user, t) - if t < b.End() then 1 else 0
    {
      ReplacedUpcoming(db.bookings, id, row, b.user, t);
    }
  }

  /** Resolving a review undoes the flagging of a session, or of all sessions of a room or a user, for that
      booking, and does nothing else and nothing the second time. */
  lemma ReviewUndoesFlag(db: Db, now: int, id: nat, flag: RowChange)
    requires id < |db.bookings| && !db.bookings[id].needsReview && (flag.FlagInUseIn? || flag.FlagInUseOf?)
    ensures var flagged := db.(bookings := MapRows(db.bookings, flag));
      var r := ResolveReview(flagged, now, id, true);
      && Succeeded(r.exit) && r.db.bookings[id] == db.bookings[id] && OnlyRow(flagged, r.db, id)
      && ResolveReview(r.db, now, id, true).db == r.db
  {
  }
}
