/** What no step ever undoes: the identity of rows, terminal statuses, consumed strikes, voids and
    lifts. */
module Evolution {
  import opened Slots
  import opened Tables
  import opened Rules
  import opened Changes
  import opened Reconcile
  import opened Bookings
  import opened Sanctions
  import opened Maintenance
  import opened Operations

  /** The life of a booking: an open one may become anything, a session in use can only be
      completed, and every other status is final. */
  ghost predicate Reaches(s: Status, t: Status) {
    s == t || Open(s) || (s.InUse? && t.Completed?)
  }

  ghost predicate Aged(b: Booking, c: Booking) {
    && c.user == b.user && c.slot == b.slot && c.walkIn == b.walkIn && c.staff == b.staff
    && c.deadline == b.deadline && c.series == b.series && c.policy == b.policy
    && Reaches(b.status, c.status)
    && (!Open(b.status) ==> c.room == b.room)
  }

  ghost predicate AgedViolation(v: Violation, w: Violation) {
    && w.user == v.user && w.booking == v.booking && w.noShow == v.noShow
    && w.occurredAt == v.occurredAt && w.expiresAt == v.expiresAt && w.counts == v.counts
    && (v.consumedBy.Some? ==> w.consumedBy == v.consumedBy)
    && (v.voidedAt.Some? ==> w.voidedAt == v.voidedAt)
  }

  ghost predicate AgedSuspension(s: Suspension, t: Suspension) {
    && t.user == s.user && t.startsAt == s.startsAt && t.auto == s.auto && t.threshold == s.threshold
    && (s.liftedAt.Some? ==> t.liftedAt == s.liftedAt && t.endsAt == s.endsAt)
  }

  ghost predicate BookingsAge(bs: seq<Booking>, cs: seq<Booking>) {
    |bs| <= |cs| && forall i :: 0 <= i < |bs| ==> Aged(bs[i], cs[i])
  }

  ghost predicate ViolationsAge(vs: seq<Violation>, ws: seq<Violation>) {
    |vs| <= |ws| && forall k :: 0 <= k < |vs| ==> AgedViolation(vs[k], ws[k])
  }

  ghost predicate SuspensionsAge(ss: seq<Suspension>, ts: seq<Suspension>) {
    |ss| <= |ts| && forall k :: 0 <= k < |ss| ==> AgedSuspension(ss[k], ts[k])
  }

  /** Everything `db` recorded still stands in `next`. */
  ghost predicate Evolves(db: Db, next: Db) {
    && BookingsAge(db.bookings, next.bookings)
    && ViolationsAge(db.violations, next.violations)
    && SuspensionsAge(db.suspensions, next.suspensions)
  }

  lemma EvolvesReflexive(db: Db, next: Db)
    requires next.bookings == db.bookings && next.violations == db.violations && next.suspensions == db.suspensions
    ensures Evolves(db, next)
  {
  }

  lemma EvolvesTransitive(a: Db, b: Db, c: Db)
    requires Evolves(a, b) && Evolves(b, c)
    ensures Evolves(a, c)
  {
    forall i | 0 <= i < |a.bookings|
      ensures Aged(a.bookings[i], c.bookings[i])
    {
      assert Aged(a.bookings[i], b.bookings[i]) && Aged(b.bookings[i], c.bookings[i]);
    }
    forall k | 0 <= k < |a.violations|
      ensures AgedViolation(a.violations[k], c.violations[k])
    {
      assert AgedViolation(a.violations[k], b.violations[k]) && AgedViolation(b.violations[k], c.violations[k]);
    }
    forall k | 0 <= k < |a.suspensions|
      ensures AgedSuspension(a.suspensions[k], c.suspensions[k])
    {
      assert AgedSuspension(a.suspensions[k], b.suspensions[k]) && AgedSuspension(b.suspensions[k], c.suspensions[k]);
    }
  }

  lemma ApplyAges(c: RowChange, b: Booking)
    ensures Aged(b, Apply(c, b))
  {
  }

  lemma MapAges(c: RowChange, bs: seq<Booking>)
    ensures BookingsAge(bs, MapRows(bs, c))
  {
    forall i | 0 <= i < |bs|
      ensures Aged(bs[i], MapRows(bs, c)[i])
    {
      ApplyAges(c, bs[i]);
    }
  }

  // ---------------------------------------------------------------- reconciliation

  lemma MapEvolves(db: Db, next: Db, c: RowChange)
    requires next.bookings == MapRows(db.bookings, c)
    requires ViolationsAge(db.violations, next.violations) && SuspensionsAge(db.suspensions, next.suspensions)
    ensures Evolves(db, next)
  {
    MapAges(c, db.bookings);
  }

  lemma AutoSuspendEvolves(db: Db, user: nat, now: int)
    ensures Evolves(db, AutoSuspend(db, user, now))
  {
    var next := AutoSuspend(db, user, now);
    forall k | 0 <= k < |db.violations|
      ensures AgedViolation(db.violations[k], next.violations[k])
    {
      assert next.violations[k] == Consume(db.violations[k], user, |db.suspensions|, now);
    }
    MapEvolves(db, next, CancelOpenOf(user, now, BySuspension));
  }

  lemma {:induction false} SuspendAllEvolves(db: Db, users: seq<nat>, now: int)
    ensures Evolves(db, SuspendAll(db, users, now))
    decreases |users|
  {
    if users == [] {
      EvolvesReflexive(db, db);
    } else {
      var rest := SuspendAll(db, users[..|users| - 1], now);
      SuspendAllEvolves(db, users[..|users| - 1], now);
      AutoSuspendEvolves(rest, users[|users| - 1], now);
      EvolvesTransitive(db, rest, AutoSuspend(rest, users[|users| - 1], now));
    }
  }

  lemma SanctionEvolves(db: Db, now: int)
    ensures Evolves(db, Sanction(db, now))
  {
    var mid := ApplyThresholds(db, now);
    SuspendAllEvolves(db, Offenders(db, now), now);
    var next := NotifyFinished(mid, now);
    forall k | 0 <= k < |mid.suspensions|
      ensures AgedSuspension(mid.suspensions[k], next.suspensions[k])
    {
      assert next.suspensions[k] == MarkEnded(mid.suspensions[k], now);
    }
    assert Evolves(mid, next);
    EvolvesTransitive(db, mid, next);
  }

  lemma RunEvolves(db: Db, now: int, budget: nat)
    ensures Evolves(db, Run(db, now, budget).db)
  {
    EvolvesReflexive(db, db);
    if OverBudget(Approvals, db, now, budget) {
      return;
    }
    var a := ExpireApprovals(db, now);
    MapEvolves(db, a, ExpireApproval(now));
    if OverBudget(NoShows, a, now, budget) {
      return;
    }
    var b := RecordNoShows(a, now);
    MapEvolves(a, b, Forfeit(now, a.site.incidents));
    EvolvesTransitive(db, a, b);
    if OverBudget(Holds, b, now, budget) {
      return;
    }
    var c := StartHolds(b, now);
    MapEvolves(b, c, StartHold(now));
    EvolvesTransitive(db, b, c);
    if OverBudget(Completions, c, now, budget) {
      return;
    }
    var e := CompleteSessions(c, now);
    MapEvolves(c, e, Complete(now));
    EvolvesTransitive(db, c, e);
    SanctionEvolves(e, now);
    EvolvesTransitive(db, e, Sanction(e, now));
  }

  // ---------------------------------------------------------------- bodies

  lemma BookingBodyEvolves(db: Db, now: int, op: BookingOp)
    requires Succeeded(BookingBody(db, now, op).exit)
    ensures Evolves(db, BookingBody(db, now, op).db)
  {
    var next := BookingBody(db, now, op).db;
    match op
    case OpCancelSeries(_, series) => MapEvolves(db, next, CancelOccurrences(series, now));
    case OpAdvance(_, _, _, _) => AppendEvolves(db, next);
    case OpStaffHold(_, _, _, _, _, _) => AppendEvolves(db, next);
    case OpUseNow(_, _) => AppendEvolves(db, next);
    case _ => EditEvolves(db, next, op.booking);
  }

  lemma AppendEvolves(db: Db, next: Db)
    requires |db.bookings| <= |next.bookings| && next.bookings[..|db.bookings|] == db.bookings
    requires next.violations == db.violations && next.suspensions == db.suspensions
    ensures Evolves(db, next)
  {
    assert forall i :: 0 <= i < |db.bookings| ==> next.bookings[..|db.bookings|][i] == next.bookings[i];
  }

  lemma EditEvolves(db: Db, next: Db, id: nat)
    requires id < |db.bookings| == |next.bookings| && Aged(db.bookings[id], next.bookings[id])
    requires next.bookings == db.bookings[id := next.bookings[id]]
    requires next.violations == db.violations && next.suspensions == db.suspensions
    ensures Evolves(db, next)
  {
  }

  lemma RecordEvolves(db: Db, v: Violation, now: int)
    ensures Evolves(db, ApplyThresholds(db.(violations := db.violations + [v]), now))
  {
    var mid := db.(violations := db.violations + [v]);
    assert Evolves(db, mid);
    SuspendAllEvolves(mid, Offenders(mid, now), now);
    EvolvesTransitive(db, mid, ApplyThresholds(mid, now));
  }

  lemma SuspendEvolves(db: Db, now: int, user: nat, endsAt: Option<int>, reasonGiven: bool)
    requires Succeeded(Suspend(db, now, user, endsAt, reasonGiven).exit)
    ensures Evolves(db, Suspend(db, now, user, endsAt, reasonGiven).db)
  {
    var next := Suspend(db, now, user, endsAt, reasonGiven).db;
    if ActiveSuspension(db.suspensions, user, now).None? {
      MapEvolves(db, next, CancelOpenOf(user, now, BySuspension));
    }
  }

  lemma SanctionBodyEvolves(db: Db, now: int, op: SanctionOp)
    requires Succeeded(SanctionBody(db, now, op).exit)
    ensures Evolves(db, SanctionBody(db, now, op).db)
  {
    match op
    case OpRecordViolation(user, _, counts, occurredAt, incident) =>
      RecordEvolves(db, ManualViolation(user, if occurredAt.Some? then occurredAt.value else now, CurrentPolicy(db),
                                        counts, incident), now);
    case OpSuspend(user, endsAt, reasonGiven) => SuspendEvolves(db, now, user, endsAt, reasonGiven);
    case OpVoidIncident(id, read, _) => VoidIncidentEvolves(db, now, id, read);
    case _ =>
  }

  lemma VoidIncidentEvolves(db: Db, now: int, id: nat, read: Incident)
    requires Succeeded(VoidIncident(db, now, id, read, true).exit)
    ensures Evolves(db, VoidIncident(db, now, id, read, true).db)
  {
    var next := VoidIncident(db, now, id, read, true).db;
    var extent := if id < |db.site.incidents| then db.site.incidents[id] else read;
    forall k | 0 <= k < |db.violations|
      ensures AgedViolation(db.violations[k], next.violations[k])
    {
      assert next.violations[k] ==
        VoidForIncident(db.violations[k], id, extent, db.bookings, now);
    }
  }

  lemma TwoMapsEvolve(db: Db, next: Db, c: RowChange, e: RowChange)
    requires next.bookings == MapRows(MapRows(db.bookings, c), e)
    requires next.violations == db.violations && next.suspensions == db.suspensions
    ensures Evolves(db, next)
  {
    var mid := db.(bookings := MapRows(db.bookings, c));
    MapEvolves(db, mid, c);
    MapEvolves(mid, next, e);
    EvolvesTransitive(db, mid, next);
  }

  lemma SiteBodyEvolves(db: Db, now: int, op: SiteOp)
    requires Succeeded(SiteBody(db, now, op).exit)
    ensures Evolves(db, SiteBody(db, now, op).db)
  {
    var next := SiteBody(db, now, op).db;
    match op
    case OpCreateClosure(clock, scope, starts, ends, _, _, _) =>
      MapEvolves(db, next, CloseOver(scope, starts, ends, now, clock));
    case OpCreateIncident(extent, _, cancelOpen) =>
      MapEvolves(db, next, Disrupt(|db.site.incidents|, extent, now, cancelOpen));
    case OpDeactivateRoom(room, _) => TwoMapsEvolve(db, next, CancelOpenIn(room, now), FlagInUseIn(room));
    case OpDeactivateAccount(account, _) =>
      TwoMapsEvolve(db, next, CancelOpenOf(account.id, now, ByAccount), FlagInUseOf(account.id));
    case _ =>
  }

  lemma BodyEvolves(db: Db, now: int, op: Op)
    requires Succeeded(Body(db, now, op).exit)
    ensures Evolves(db, Body(db, now, op).db)
  {
    match op
    case OnBookings(booking) => BookingBodyEvolves(db, now, booking);
    case OnSanctions(sanction) => SanctionBodyEvolves(db, now, sanction);
    case OnSite(site) => SiteBodyEvolves(db, now, site);
  }
}
