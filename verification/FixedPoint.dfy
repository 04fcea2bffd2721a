/** One reconciliation within budget brings the tables to a fixed point. */
module FixedPoint {
  import opened Slots
  import opened Tables
  import opened Rules
  import opened Changes
  import opened Reconcile
  import opened Invariants
  import opened Soundness
  import opened Standing

  ghost predicate NoneDue(p: Pass, bs: seq<Booking>, now: int) {
    forall i :: 0 <= i < |bs| ==> !IsDue(p, bs[i], now)
  }

  /** Overdue reservations are left only where an incident covers them. */
  ghost predicate OverdueOnlyCovered(bs: seq<Booking>, incidents: seq<Incident>, now: int) {
    forall i :: 0 <= i < |bs| && IsDue(NoShows, bs[i], now) ==> Covered(incidents, bs[i])
  }

  ghost predicate OffendersSuspended(db: Db, now: int) {
    forall user :: |StrikeIds(db.violations, user, now)| >= CurrentPolicy(db).threshold ==> IsSuspended(db, user, now)
  }

  /** Nothing is left to reconcile at `now`: no request has reached its start, no staff hold that
      has started is still waiting, no session has passed its end, no uncovered reservation is past
      its deadline, no user with threshold-many strikes is unsuspended, no ended suspension is
      unannounced. */
  ghost predicate Settled(db: Db, now: int) {
    && NoneDue(Approvals, db.bookings, now)
    && NoneDue(Holds, db.bookings, now)
    && NoneDue(Completions, db.bookings, now)
    && OverdueOnlyCovered(db.bookings, db.site.incidents, now)
    && OffendersSuspended(db, now)
    && (forall i :: 0 <= i < |db.suspensions| ==> !EndDue(db.suspensions[i], now))
  }

  // ---------------------------------------------------------------- passes make no row due again

  /** The changes reconciliation makes at `now`. */
  predicate Reconciles(c: RowChange, now: int) {
    match c
    case ExpireApproval(at) => at == now
    case Forfeit(at, _) => at == now
    case StartHold(at) => at == now
    case Complete(at) => at == now
    case CancelOpenOf(_, at, _) => at == now
    case _ => false
  }

  lemma NothingNewDue(c: RowChange, b: Booking, p: Pass, now: int)
    requires Reconciles(c, now) && IsDue(p, Apply(c, b), now)
    ensures IsDue(p, b, now)
  {
  }

  lemma StaysSettledRows(c: RowChange, bs: seq<Booking>, incidents: seq<Incident>, now: int)
    requires Reconciles(c, now)
    ensures forall p :: NoneDue(p, bs, now) ==> NoneDue(p, MapRows(bs, c), now)
    ensures OverdueOnlyCovered(bs, incidents, now) ==> OverdueOnlyCovered(MapRows(bs, c), incidents, now)
  {
    var cs := MapRows(bs, c);
    forall i, p | 0 <= i < |bs| && IsDue(p, cs[i], now)
      ensures IsDue(p, bs[i], now) && (Covered(incidents, bs[i]) ==> Covered(incidents, cs[i]))
    {
      NothingNewDue(c, bs[i], p, now);
      ApplyIsLater(c, bs[i]);
      SameCover(incidents, bs[i], cs[i]);
    }
  }

  lemma SameCover(incidents: seq<Incident>, b: Booking, c: Booking)
    requires b.room == c.room && b.slot == c.slot
    ensures Covered(incidents, b) ==> Covered(incidents, c)
  {
    if Covered(incidents, b) {
      var k :| 0 <= k < |incidents| && IncidentCovers(incidents[k], b);
      assert IncidentCovers(incidents[k], c);
    }
  }

  lemma OwnPassClears(bs: seq<Booking>, incidents: seq<Incident>, now: int)
    ensures NoneDue(Approvals, MapRows(bs, ExpireApproval(now)), now)
    ensures OverdueOnlyCovered(MapRows(bs, Forfeit(now, incidents)), incidents, now)
    ensures NoneDue(Holds, MapRows(bs, StartHold(now)), now)
    ensures NoneDue(Completions, MapRows(bs, Complete(now)), now)
  {
    var cs := MapRows(bs, Forfeit(now, incidents));
    forall i | 0 <= i < |cs| && IsDue(NoShows, cs[i], now)
      ensures Covered(incidents, cs[i])
    {
      SameCover(incidents, bs[i], cs[i]);
    }
  }

  /** The rows after the four lifecycle passes. */
  lemma LifecycleSettlesRows(db: Db, now: int)
    ensures var bs := Lifecycle(db, now).bookings;
      && NoneDue(Approvals, bs, now) && NoneDue(Holds, bs, now) && NoneDue(Completions, bs, now)
      && OverdueOnlyCovered(bs, db.site.incidents, now)
  {
    var incidents := db.site.incidents;
    var b0 := db.bookings;
    var b1 := MapRows(b0, ExpireApproval(now));
    var b2 := MapRows(b1, Forfeit(now, incidents));
    var b3 := MapRows(b2, StartHold(now));
    OwnPassClears(b0, incidents, now);
    OwnPassClears(b1, incidents, now);
    OwnPassClears(b2, incidents, now);
    OwnPassClears(b3, incidents, now);
    StaysSettledRows(Forfeit(now, incidents), b1, incidents, now);
    StaysSettledRows(StartHold(now), b2, incidents, now);
    StaysSettledRows(Complete(now), b3, incidents, now);
  }

  // ---------------------------------------------------------------- sanctions

  lemma SuspendedStays(db: Db, user: nat, other: nat, now: int)
    requires IsSuspended(db, other, now)
    ensures IsSuspended(AutoSuspend(db, user, now), other, now)
  {
    var i :| 0 <= i < |db.suspensions| && db.suspensions[i].user == other && ActiveAt(db.suspensions[i], now);
    assert AutoSuspend(db, user, now).suspensions[i] == db.suspensions[i];
  }

  lemma PunishedIsSuspended(db: Db, user: nat, now: int)
    requires SiteValid(db.site)
    ensures IsSuspended(AutoSuspend(db, user, now), user, now)
  {
    PolicyValid(db);
    var ss := AutoSuspend(db, user, now).suspensions;
    assert ss[|db.suspensions|] == AutomaticSuspension(user, now, CurrentPolicy(db));
    assert ActiveAt(ss[|db.suspensions|], now);
  }

  /** Suspending a list of users suspends each of them and touches nobody else's strikes. */
  lemma {:induction false} SuspendAllSettles(db: Db, users: seq<nat>, incidents: seq<Incident>, now: int)
    requires SiteValid(db.site)
    ensures var r := SuspendAll(db, users, now);
      && (forall u :: u in users || IsSuspended(db, u, now) ==> IsSuspended(r, u, now))
      && (forall u :: u !in users ==> StrikeIds(r.violations, u, now) == StrikeIds(db.violations, u, now))
      && (forall p :: NoneDue(p, db.bookings, now) ==> NoneDue(p, r.bookings, now))
      && (OverdueOnlyCovered(db.bookings, incidents, now) ==> OverdueOnlyCovered(r.bookings, incidents, now))
    decreases |users|
  {
    if users != [] {
      var front, last := users[..|users| - 1], users[|users| - 1];
      SuspendAllSettles(db, front, incidents, now);
      var rest := SuspendAll(db, front, now);
      assert forall u :: u in users <==> u in front || u == last;
      if !IsSuspended(rest, last, now) {
        StaysSettledRows(CancelOpenOf(last, now, BySuspension), rest.bookings, incidents, now);
        PunishedIsSuspended(rest, last, now);
        forall u | u != last
          ensures StrikeIds(AutoSuspend(rest, last, now).violations, u, now) == StrikeIds(rest.violations, u, now)
          ensures IsSuspended(rest, u, now) ==> IsSuspended(AutoSuspend(rest, last, now), u, now)
        {
          OthersStrikes(rest, last, u, now);
          if IsSuspended(rest, u, now) {
            SuspendedStays(rest, last, u, now);
          }
        }
      }
    }
  }

  /** A user with a strike to count is among the users looked at. */
  lemma OffendersComplete(db: Db, user: nat, now: int)
    requires SiteValid(db.site) && |StrikeIds(db.violations, user, now)| >= CurrentPolicy(db).threshold
    ensures user in Offenders(db, now)
  {
    PolicyValid(db);
    var ids := StrikeIds(db.violations, user, now);
    assert ids != {};
    var i :| i in ids;
    assert StrikeOf(db.violations[i], user, now);
  }

  lemma ThresholdsSettle(db: Db, now: int)
    requires SiteValid(db.site)
    ensures OffendersSuspended(ApplyThresholds(db, now), now)
  {
    SuspendAllSettles(db, Offenders(db, now), [], now);
    var r := ApplyThresholds(db, now);
    forall user | |StrikeIds(r.violations, user, now)| >= CurrentPolicy(r).threshold
      ensures IsSuspended(r, user, now)
    {
      if user !in Offenders(db, now) {
        OffendersComplete(db, user, now);
      }
    }
  }

  lemma FinishedSettles(db: Db, now: int)
    ensures var r := NotifyFinished(db, now);
      && (forall i :: 0 <= i < |r.suspensions| ==> !EndDue(r.suspensions[i], now))
      && (OffendersSuspended(db, now) ==> OffendersSuspended(r, now))
  {
    var r := NotifyFinished(db, now);
    forall user | IsSuspended(db, user, now)
      ensures IsSuspended(r, user, now)
    {
      var i :| 0 <= i < |db.suspensions| && db.suspensions[i].user == user && ActiveAt(db.suspensions[i], now);
      assert r.suspensions[i] == MarkEnded(db.suspensions[i], now);
      assert ActiveAt(r.suspensions[i], now);
    }
  }

  lemma SanctionSettles(db: Db, now: int)
    requires SiteValid(db.site)
    requires NoneDue(Approvals, db.bookings, now) && NoneDue(Holds, db.bookings, now)
    requires NoneDue(Completions, db.bookings, now) && OverdueOnlyCovered(db.bookings, db.site.incidents, now)
    ensures Settled(Sanction(db, now), now)
  {
    var mid := ApplyThresholds(db, now);
    SuspendAllSettles(db, Offenders(db, now), db.site.incidents, now);
    ThresholdsSettle(db, now);
    FinishedSettles(mid, now);
  }

  /** A completed run leaves nothing due. */
  lemma RunSettles(db: Db, now: int, budget: nat)
    requires SiteValid(db.site)
    ensures Run(db, now, budget).complete ==> Settled(Run(db, now, budget).db, now)
  {
    CompleteRun(db, now, budget);
    LifecycleSettlesRows(db, now);
    SanctionSettles(Lifecycle(db, now), now);
  }

  // ---------------------------------------------------------------- a settled state is fixed

  lemma SettledMapsFixed(db: Db, now: int)
    requires Settled(db, now)
    ensures MapRows(db.bookings, ExpireApproval(now)) == db.bookings
    ensures MapRows(db.bookings, Forfeit(now, db.site.incidents)) == db.bookings
    ensures MapRows(db.bookings, StartHold(now)) == db.bookings
    ensures MapRows(db.bookings, Complete(now)) == db.bookings
  {
    forall i | 0 <= i < |db.bookings|
      ensures !IsDue(Approvals, db.bookings[i], now) && !IsDue(Holds, db.bookings[i], now)
      ensures !IsDue(Completions, db.bookings[i], now)
      ensures IsDue(NoShows, db.bookings[i], now) ==> Covered(db.site.incidents, db.bookings[i])
    {
    }
  }

  lemma {:induction false} NoneStruck(db: Db, ids: seq<nat>)
    requires InTable(ids, db.bookings)
    requires forall x :: x in ids ==> Covered(db.site.incidents, db.bookings[x])
    ensures Struck(db, ids) == []
  {
    if ids != [] {
      assert ids[|ids| - 1] in ids;
      NoneStruck(db, ids[..|ids| - 1]);
    }
  }

  lemma SettledPassesFixed(db: Db, now: int)
    requires Settled(db, now)
    ensures ExpireApprovals(db, now) == db && RecordNoShows(db, now) == db
    ensures StartHolds(db, now) == db && CompleteSessions(db, now) == db
  {
    SettledMapsFixed(db, now);
    assert DueSet(Approvals, db.bookings, now) == {};
    assert RejectMail({}) == {};
    NoneStruck(db, Due(NoShows, db.bookings, now));
    assert NoShowMail([]) == {};
    assert db.violations + Strikes(db, []) == db.violations;
  }

  lemma {:induction false} NobodyToSuspend(db: Db, users: seq<nat>, now: int)
    requires forall u :: u in users ==> IsSuspended(db, u, now)
    ensures SuspendAll(db, users, now) == db
    decreases |users|
  {
    if users != [] {
      NobodyToSuspend(db, users[..|users| - 1], now);
      assert users[|users| - 1] in users;
    }
  }

  lemma SettledSanctionFixed(db: Db, now: int)
    requires Settled(db, now)
    ensures Sanction(db, now) == db
  {
    NobodyToSuspend(db, Offenders(db, now), now);
    assert MarkAllEnded(db.suspensions, now) == db.suspensions;
    assert (set i: nat | i < |db.suspensions| && EndDue(db.suspensions[i], now) :: SuspensionEnded(i)) == {};
  }

  lemma {:induction false} NoneDueAmong(p: Pass, bs: seq<Booking>, n: nat, now: int)
    requires n <= |bs| && NoneDue(p, bs, now)
    ensures DueAmong(p, bs, n, now) == []
  {
    if n > 0 {
      NoneDueAmong(p, bs, n - 1, now);
    }
  }

  lemma NoneDueWithinBudget(p: Pass, db: Db, now: int, budget: nat)
    requires NoneDue(p, db.bookings, now)
    ensures !OverBudget(p, db, now, budget)
  {
    NoneDueAmong(p, db.bookings, |db.bookings|, now);
  }

  lemma SettledIsFixed(db: Db, now: int, budget: nat)
    requires Settled(db, now) && !OverBudget(NoShows, db, now, budget)
    ensures Run(db, now, budget) == Reconciled(db, true)
  {
    SettledPassesFixed(db, now);
    SettledSanctionFixed(db, now);
    NoneDueWithinBudget(Approvals, db, now, budget);
    NoneDueWithinBudget(Holds, db, now, budget);
    NoneDueWithinBudget(Completions, db, now, budget);
  }

  /** A state is a fixed point of reconciliation exactly when nothing in it is due and the covered
      reservations past their deadline fit the budget. */
  lemma FixedExactlyWhenSettled(db: Db, now: int, budget: nat)
    requires SiteValid(db.site)
    ensures Run(db, now, budget) == Reconciled(db, true) <==>
      Settled(db, now) && !OverBudget(NoShows, db, now, budget)
  {
    if Run(db, now, budget) == Reconciled(db, true) {
      RunSettles(db, now, budget);
      CompletedWithinBudget(db, now, budget);
      SettledPassesFixed(db, now);
    } else if Settled(db, now) && !OverBudget(NoShows, db, now, budget) {
      SettledIsFixed(db, now, budget);
    }
  }

  lemma CompletedWithinBudget(db: Db, now: int, budget: nat)
    ensures Run(db, now, budget).complete ==> !OverBudget(NoShows, ExpireApprovals(db, now), now, budget)
  {
  }

  // ---------------------------------------------------------------- running twice

  lemma DueShrinks(p: Pass, bs: seq<Booking>, cs: seq<Booking>, now: int)
    requires |bs| == |cs| && forall i :: 0 <= i < |bs| && IsDue(p, cs[i], now) ==> IsDue(p, bs[i], now)
    ensures |Due(p, cs, now)| <= |Due(p, bs, now)|
  {
    DueAmongShrinks(p, bs, cs, |bs|, now);
  }

  lemma {:induction false} DueAmongShrinks(p: Pass, bs: seq<Booking>, cs: seq<Booking>, n: nat, now: int)
    requires n <= |bs| == |cs| && forall i :: 0 <= i < |bs| && IsDue(p, cs[i], now) ==> IsDue(p, bs[i], now)
    ensures |DueAmong(p, cs, n, now)| <= |DueAmong(p, bs, n, now)|
  {
    if n > 0 {
      DueAmongShrinks(p, bs, cs, n - 1, now);
    }
  }

  /** A later row of a life reconciliation led at `now`: no pass finds it due unless it found it
      due before. */
  ghost predicate DueOnlyIfBefore(bs: seq<Booking>, cs: seq<Booking>, now: int) {
    |bs| == |cs| && forall i, p :: 0 <= i < |bs| && IsDue(p, cs[i], now) ==> IsDue(p, bs[i], now)
  }

  lemma MapDueOnlyIfBefore(c: RowChange, bs: seq<Booking>, cs: seq<Booking>, now: int)
    requires Reconciles(c, now) && DueOnlyIfBefore(bs, cs, now)
    ensures DueOnlyIfBefore(bs, MapRows(cs, c), now)
  {
    forall i, p | 0 <= i < |cs| && IsDue(p, MapRows(cs, c)[i], now)
      ensures IsDue(p, cs[i], now)
    {
      NothingNewDue(c, cs[i], p, now);
    }
  }

  lemma {:induction false} SuspendAllDueOnlyIfBefore(bs: seq<Booking>, db: Db, users: seq<nat>, now: int)
    requires DueOnlyIfBefore(bs, db.bookings, now)
    ensures DueOnlyIfBefore(bs, SuspendAll(db, users, now).bookings, now)
    decreases |users|
  {
    if users != [] {
      SuspendAllDueOnlyIfBefore(bs, db, users[..|users| - 1], now);
      var rest := SuspendAll(db, users[..|users| - 1], now);
      MapDueOnlyIfBefore(CancelOpenOf(users[|users| - 1], now, BySuspension), bs, rest.bookings, now);
    }
  }

  lemma RunDueOnlyIfBefore(db: Db, now: int, budget: nat)
    ensures Run(db, now, budget).complete ==>
      DueOnlyIfBefore(ExpireApprovals(db, now).bookings, Run(db, now, budget).db.bookings, now)
  {
    CompleteRun(db, now, budget);
    var incidents := db.site.incidents;
    var b1 := ExpireApprovals(db, now).bookings;
    MapDueOnlyIfBefore(Forfeit(now, incidents), b1, b1, now);
    var b2 := MapRows(b1, Forfeit(now, incidents));
    MapDueOnlyIfBefore(StartHold(now), b1, b2, now);
    var b3 := MapRows(b2, StartHold(now));
    MapDueOnlyIfBefore(Complete(now), b1, b3, now);
    var life := Lifecycle(db, now);
    assert life.bookings == MapRows(b3, Complete(now));
    SuspendAllDueOnlyIfBefore(b1, life, Offenders(life, now), now);
  }

  /** A second run at the same time completes and changes nothing. */
  lemma RunTwiceIsRunOnce(db: Db, now: int, budget: nat)
    requires SiteValid(db.site)
    ensures Run(db, now, budget).complete ==> Run(Run(db, now, budget).db, now, budget) == Run(db, now, budget)
  {
    if Run(db, now, budget).complete {
      var r := Run(db, now, budget).db;
      RunSettles(db, now, budget);
      CompletedWithinBudget(db, now, budget);
      RunDueOnlyIfBefore(db, now, budget);
      DueShrinks(NoShows, ExpireApprovals(db, now).bookings, r.bookings, now);
      SettledIsFixed(r, now, budget);
    }
  }
}
