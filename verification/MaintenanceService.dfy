/** Closures, retirements and incidents as they run: the affected rows are looked up first and then
    changed one at a time. */
module MaintenanceService {
  import opened Slots
  import opened Tables
  import opened Rules
  import opened Changes
  import opened Reconcile
  import opened Reconciler
  import opened Maintenance
  import FieldSite

  // ---------------------------------------------------------------- closures

  /** The rows below `k` have been changed and the others have not. */
  ghost predicate ChangedUpTo(c: RowChange, rows: seq<Booking>, k: nat, bookings: seq<Booking>) {
    && |bookings| == |rows|
    && (forall i: nat :: i < |rows| ==> bookings[i] == if i < k then Apply(c, rows[i]) else rows[i])
  }

  /** Cancel the listed rows, with notices. */
  method CancelListed(d: Database, ids: set<nat>, now: int)
    requires forall i :: i in ids ==> i < |d.bookings|
    modifies d
    ensures |d.bookings| == |old(d.bookings)|
    ensures forall i: nat :: i < |d.bookings| ==>
      d.bookings[i] == if i in ids then Cancel(old(d.bookings)[i], now, ByClosure, false) else old(d.bookings)[i]
    ensures d.State() == old(d.State()).(bookings := d.bookings, outbox := old(d.outbox) + CancelMail(ids))
  {
    ghost var rows := d.bookings;
    for k := 0 to |d.bookings|
      invariant |d.bookings| == |rows|
      invariant forall i: nat :: i < |rows| ==>
        d.bookings[i] == if i < k && i in ids then Cancel(rows[i], now, ByClosure, false) else rows[i]
      invariant d.outbox == old(d.outbox) + CancelMail(set i | i in ids && i < k)
      invariant d.State() == old(d.State()).(bookings := d.bookings, outbox := d.outbox)
    {
      if k in ids {
        d.bookings := d.bookings[k := d.bookings[k].(status := Cancelled, cancelledAt := Some(now),
                                                     cancelReason := Some(ByClosure), late := false)];
        d.outbox := d.outbox + {BookingCancelled(k)};
      }
    }
    assert (set i | i in ids && i < |rows|) == ids;
  }

  method FlagListed(d: Database, ids: set<nat>)
    modifies d
    ensures |d.bookings| == |old(d.bookings)|
    ensures forall i: nat :: i < |d.bookings| ==>
      d.bookings[i] == if i in ids then old(d.bookings)[i].(needsReview := true) else old(d.bookings)[i]
    ensures d.State() == old(d.State()).(bookings := d.bookings)
  {
    ghost var rows := d.bookings;
    for k := 0 to |d.bookings|
      invariant |d.bookings| == |rows|
      invariant forall i: nat :: i < |rows| ==>
        d.bookings[i] == if i < k && i in ids then rows[i].(needsReview := true) else rows[i]
      invariant d.State() == old(d.State()).(bookings := d.bookings)
    {
      if k in ids {
        d.bookings := d.bookings[k := d.bookings[k].(needsReview := true)];
      }
    }
  }

  method CreateClosure(d: Database, now: int, clock: int, scope: Option<nat>, starts: int, ends: int, reason: string,
                       reasonGiven: bool, acknowledged: bool) returns (e: Exit)
    modifies d
    ensures e == Maintenance.CreateClosure(old(d.State()), now, clock, scope, starts, ends, reason, reasonGiven,
                                           acknowledged).exit
    ensures Succeeded(e) ==>
      d.State() == Maintenance.CreateClosure(old(d.State()), now, clock, scope, starts, ends, reason, reasonGiven,
                                             acknowledged).db
  {
    if !reasonGiven || ends <= starts {
      return Raised(InvalidInput);
    }
    var preview := PreviewClosure(d.bookings, scope, starts, ends, clock);
    if preview.inUse != {} && !acknowledged {
      return Raised(InvalidInput);
    }
    var id := |d.site.closures|;
    d.site := d.site.(closures := d.site.closures + [Closure(scope, starts, ends, None, acknowledged, reason)]);
    CancelListed(d, preview.scheduled, now);
    FlagListed(d, preview.inUse);
    assert d.bookings == MapRows(old(d.bookings), CloseOver(scope, starts, ends, now, clock));
    return Success([id]);
  }

  method RevokeClosure(d: Database, now: int, id: nat, reasonGiven: bool) returns (e: Exit)
    modifies d
    ensures e == Maintenance.RevokeClosure(old(d.State()), now, id, reasonGiven).exit
    ensures Succeeded(e) ==> d.State() == Maintenance.RevokeClosure(old(d.State()), now, id, reasonGiven).db
  {
    if !reasonGiven {
      return Raised(InvalidInput);
    }
    if id >= |d.site.closures| {
      return Crashed;
    }
    var closure := d.site.closures[id];
    if closure.revokedAt.Some? {
      return Raised(TerminalStatus);
    }
    d.site := d.site.(closures := d.site.closures[id := closure.(revokedAt := Some(now))]);
    return Success([id]);
  }

  // ---------------------------------------------------------------- sessions on site

  method CompleteEarly(d: Database, now: int, id: nat, reasonGiven: bool) returns (e: Exit)
    modifies d
    ensures e == Maintenance.CompleteEarly(old(d.State()), now, id, reasonGiven).exit
    ensures Succeeded(e) ==> d.State() == Maintenance.CompleteEarly(old(d.State()), now, id, reasonGiven).db
  {
    if !reasonGiven {
      return Raised(InvalidInput);
    }
    if id >= |d.bookings| {
      return Crashed;
    }
    var booking := d.bookings[id];
    if !booking.status.InUse? {
      return Raised(TerminalStatus);
    }
    d.bookings := d.bookings[id := booking.(status := Completed, actualEnd := Some(now), needsReview := false)];
    return Success([id]);
  }

  method ResolveReview(d: Database, now: int, id: nat, noteGiven: bool) returns (e: Exit)
    modifies d
    ensures e == Maintenance.ResolveReview(old(d.State()), now, id, noteGiven).exit
    ensures Succeeded(e) ==> d.State() == Maintenance.ResolveReview(old(d.State()), now, id, noteGiven).db
  {
    if !noteGiven {
      return Raised(InvalidInput);
    }
    if id >= |d.bookings| {
      return Crashed;
    }
    d.bookings := d.bookings[id := d.bookings[id].(needsReview := false)];
    return Success([id]);
  }

  // ---------------------------------------------------------------- calendar and policy

  method SetOverride(d: Database, date: int, isOpen: bool, open: Option<int>, close: Option<int>) returns (e: Exit)
    modifies d
    ensures e == Maintenance.SetOverride(old(d.State()), date, isOpen, open, close).exit
    ensures Succeeded(e) ==> d.State() == Maintenance.SetOverride(old(d.State()), date, isOpen, open, close).db
  {
    if open.Some? && close.Some? && close.value <= open.value {
      return Raised(InvalidInput);
    }
    if isOpen && (open.None? || close.None?) {
      return Raised(InvalidInput);
    }
    if isOpen && !(FitsColumn(open.value) && FitsColumn(close.value)) {
      return Crashed;
    }
    if isOpen && !(0 <= open.value <= 23 && 0 <= close.value <= 24) {
      return ConstraintFailed(OtherConstraint);
    }
    var hours := if isOpen then Some(Hours(open.value, close.value)) else None;
    d.site := d.site.(overrides := d.site.overrides[date := hours]);
    return Success([]);
  }

  method UpdatePolicy(d: Database, policy: Policy) returns (e: Exit)
    modifies d
    ensures e == Maintenance.UpdatePolicy(old(d.State()), policy).exit
    ensures Succeeded(e) ==> d.State() == Maintenance.UpdatePolicy(old(d.State()), policy).db
  {
    if !PolicyInRange(policy) {
      return Raised(InvalidInput);
    }
    d.site := d.site.(policies := d.site.policies + [policy]);
    return Success([|d.site.policies|]);
  }

  // ---------------------------------------------------------------- retirements

  /** Cancel the open bookings of a room, with notices. */
  method CancelInRoom(d: Database, now: int, room: nat)
    modifies d
    ensures var change := CancelOpenIn(room, now);
      d.State() == old(d.State()).(bookings := MapRows(old(d.bookings), change),
                                   outbox := old(d.outbox) + CancelMail(CancelledBy(old(d.bookings), change)))
    ensures |d.bookings| == |old(d.bookings)|
    ensures forall i :: 0 <= i < |d.bookings| ==>
      var b := old(d.bookings)[i];
      d.bookings[i] == if b.room == room && (b.status == PendingApproval || b.status == Scheduled)
                       then b.(status := Cancelled, cancelledAt := Some(now), cancelReason := Some(ByRoom), late := false)
                       else b
  {
    ghost var rows, change := d.bookings, CancelOpenIn(room, now);
    for k := 0 to |d.bookings|
      invariant ChangedUpTo(change, rows, k, d.bookings)
      invariant d.outbox == old(d.outbox) + CancelMail(CancelledBy(rows[..k], change))
      invariant d.State() == old(d.State()).(bookings := d.bookings, outbox := d.outbox)
    {
      CancelMailSnoc(rows, change, k);
      var booking := d.bookings[k];
      if booking.room == room && Open(booking.status) {
        d.bookings := d.bookings[k := booking.(status := Cancelled, cancelledAt := Some(now),
                                               cancelReason := Some(ByRoom), late := false)];
        d.outbox := d.outbox + {BookingCancelled(k)};
      }
    }
    assert rows[..|rows|] == rows && d.bookings == MapRows(rows, change);
  }

  method FlagInRoom(d: Database, room: nat)
    modifies d
    ensures d.State() == old(d.State()).(bookings := MapRows(old(d.bookings), FlagInUseIn(room)))
  {
    ghost var rows := d.bookings;
    for k := 0 to |d.bookings|
      invariant ChangedUpTo(FlagInUseIn(room), rows, k, d.bookings)
      invariant d.State() == old(d.State()).(bookings := d.bookings)
    {
      if d.bookings[k].room == room && d.bookings[k].status.InUse? {
        d.bookings := d.bookings[k := d.bookings[k].(needsReview := true)];
      }
    }
    assert d.bookings == MapRows(rows, FlagInUseIn(room));
  }

  method DeactivateRoom(d: Database, now: int, room: nat, reasonGiven: bool) returns (e: Exit)
    modifies d
    ensures e == Maintenance.DeactivateRoom(old(d.State()), now, room, reasonGiven).exit
    ensures Succeeded(e) ==> d.State() == Maintenance.DeactivateRoom(old(d.State()), now, room, reasonGiven).db
    ensures Succeeded(e) ==> FieldSite.RoomRetired(old(d.State()), d.State(), now, room)
  {
    FieldSite.RoomExactly(d.State(), now, room, reasonGiven);
    if !reasonGiven {
      return Raised(InvalidInput);
    }
    CancelInRoom(d, now, room);
    FlagInRoom(d, room);
    return Success([]);
  }

  /** Cancel the open bookings of a retired account, without notices, and flag its sessions. */
  method DeactivateAccount(d: Database, now: int, user: User, reasonGiven: bool) returns (e: Exit)
    modifies d
    ensures e == Maintenance.DeactivateAccount(old(d.State()), now, user, reasonGiven).exit
    ensures Succeeded(e) ==> d.State() == Maintenance.DeactivateAccount(old(d.State()), now, user, reasonGiven).db
  {
    if !reasonGiven || user.superuser {
      return Raised(InvalidInput);
    }
    ghost var rows, change := d.bookings, CancelOpenOf(user.id, now, ByAccount);
    for k := 0 to |d.bookings|
      invariant ChangedUpTo(change, rows, k, d.bookings)
      invariant d.State() == old(d.State()).(bookings := d.bookings)
    {
      var booking := d.bookings[k];
      if booking.user == user.id && Open(booking.status) {
        d.bookings := d.bookings[k := booking.(status := Cancelled, cancelledAt := Some(now),
                                               cancelReason := Some(ByAccount), late := false)];
      }
    }
    assert d.bookings == MapRows(rows, change);
    FlagSessionsOf(d, user.id);
    return Success([]);
  }

  method FlagSessionsOf(d: Database, user: nat)
    modifies d
    ensures d.State() == old(d.State()).(bookings := MapRows(old(d.bookings), FlagInUseOf(user)))
  {
    ghost var rows := d.bookings;
    for k := 0 to |d.bookings|
      invariant ChangedUpTo(FlagInUseOf(user), rows, k, d.bookings)
      invariant d.State() == old(d.State()).(bookings := d.bookings)
    {
      if d.bookings[k].user == user && d.bookings[k].status.InUse? {
        d.bookings := d.bookings[k := d.bookings[k].(needsReview := true)];
      }
    }
    assert d.bookings == MapRows(rows, FlagInUseOf(user));
  }

  // ---------------------------------------------------------------- incidents

  /** Mark the bookings an incident meets, and cancel the open ones if asked to. */
  method MarkDisrupted(d: Database, now: int, id: nat, extent: Incident, cancelOpen: bool)
    modifies d
    ensures var change := Disrupt(id, extent, now, cancelOpen);
      d.State() == old(d.State()).(bookings := MapRows(old(d.bookings), change),
                                   outbox := old(d.outbox) + CancelMail(CancelledBy(old(d.bookings), change)))
  {
    ghost var rows, change := d.bookings, Disrupt(id, extent, now, cancelOpen);
    for k := 0 to |d.bookings|
      invariant ChangedUpTo(change, rows, k, d.bookings)
      invariant d.outbox == old(d.outbox) + CancelMail(CancelledBy(rows[..k], change))
      invariant d.State() == old(d.State()).(bookings := d.bookings, outbox := d.outbox)
    {
      CancelMailSnoc(rows, change, k);
      var booking := d.bookings[k];
      if IncidentCovers(extent, booking) && (Open(booking.status) || booking.status.NoShow?) {
        booking := booking.(incident := Some(id));
        if !booking.status.NoShow? && cancelOpen {
          booking := booking.(status := Cancelled, cancelledAt := Some(now), cancelReason := Some(ByIncident),
                              late := false);
          d.outbox := d.outbox + {BookingCancelled(k)};
        }
        d.bookings := d.bookings[k := booking];
      }
    }
    assert rows[..|rows|] == rows && d.bookings == MapRows(rows, change);
  }

  method CreateIncident(d: Database, now: int, extent: Incident, reasonGiven: bool, cancelOpen: bool) returns (e: Exit)
    modifies d
    ensures e == Maintenance.CreateIncident(old(d.State()), now, extent, reasonGiven, cancelOpen).exit
    ensures Succeeded(e) ==>
      d.State() == Maintenance.CreateIncident(old(d.State()), now, extent, reasonGiven, cancelOpen).db
  {
    if !reasonGiven || extent.endsAt <= extent.startsAt {
      return Raised(InvalidInput);
    }
    var id := |d.site.incidents|;
    d.site := d.site.(incidents := d.site.incidents + [extent]);
    MarkDisrupted(d, now, id, extent, cancelOpen);
    return Success([id]);
  }

  method VoidIncidentViolations(d: Database, now: int, id: nat, read: Incident, reasonGiven: bool) returns (e: Exit)
    modifies d
    ensures e == VoidIncident(old(d.State()), now, id, read, reasonGiven).exit
    ensures Succeeded(e) ==> d.State() == VoidIncident(old(d.State()), now, id, read, reasonGiven).db
  {
    if !reasonGiven {
      return Raised(InvalidInput);
    }
    var extent := if id < |d.site.incidents| then d.site.incidents[id] else read;
    ghost var before := d.State();
    var voided: nat := 0;
    var review: set<nat> := {};
    for k := 0 to |d.violations|
      invariant |d.violations| == |before.violations|
      invariant forall i :: 0 <= i < |before.violations| ==>
        d.violations[i] == if i < k then VoidForIncident(before.violations[i], id, extent, before.bookings, now)
                           else before.violations[i]
      invariant d.State() == before.(violations := d.violations)
      invariant voided == VoidCount(before.violations, k, extent, before.bookings)
      invariant forall s: nat :: s in review <==> ForReview(before, k, extent, s)
    {
      var violation := d.violations[k];
      if VoidedByIncident(violation, extent, d.bookings) {
        d.violations := d.violations[k := violation.(voidedAt := Some(now), incident := Some(id))];
        voided := voided + 1;
        if violation.consumedBy.Some? && violation.consumedBy.value < |d.suspensions|
           && d.suspensions[violation.consumedBy.value].liftedAt.None?
        {
          review := review + {violation.consumedBy.value};
        }
      }
    }
    assert d.violations == VoidAllForIncident(before.violations, id, extent, before.bookings, now);
    if id >= |d.site.incidents| && voided > 0 {
      return Crashed;
    }
    var listed := Listed(before, extent, review, |d.suspensions|);
    return Success([voided] + listed);
  }

  /** The suspensions to review, sorted. */
  method Listed(ghost before: Db, ghost extent: Incident, review: set<nat>, n: nat) returns (r: seq<int>)
    requires n == |before.suspensions|
    requires forall s: nat :: s in review <==> ForReview(before, |before.violations|, extent, s)
    ensures r == ToReview(before, extent, n)
  {
    r := [];
    for s := 0 to n
      invariant r == ToReview(before, extent, s)
    {
      if s in review {
        r := r + [s];
      }
    }
  }
}
