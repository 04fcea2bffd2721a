/** Closures, sessions, opening hours, retirements, policy and incidents in terms of what is stored: the fields on
    which each operation succeeds, and what it leaves of every booking, message and other row. */
module FieldSite {
  import opened Slots
  import opened Tables
  import opened Rules
  import opened Changes
  import opened Reconcile
  import opened Maintenance
  import opened FieldRules
  import opened FieldPasses

  /** A request or reservation. */
  predicate Ahead(b: Booking) {
    b.status == PendingApproval || b.status == Scheduled
  }

  function CancelledFor(b: Booking, now: int, reason: CancelReason): Booking {
    b.(status := Cancelled, cancelledAt := Some(now), cancelReason := Some(reason), late := false)
  }

  /** The outbox gains exactly the cancellation notices of these bookings. */
  ghost predicate OnlyNotices(db: Db, next: Db, ids: iset<nat>) {
    forall m :: m in next.outbox <==> m in db.outbox || (m.BookingCancelled? && m.booking in ids)
  }

  lemma NoticesAre(db: Db, next: Db, c: RowChange, ids: iset<nat>)
    requires next.outbox == db.outbox + CancelMail(CancelledBy(db.bookings, c))
    requires forall i: nat :: i in ids <==>
      i < |db.bookings| && Apply(c, db.bookings[i]).status == Cancelled && db.bookings[i].status != Cancelled
    ensures OnlyNotices(db, next, ids)
  {
  }

  // ---------------------------------------------------------------- closures

  /** The booking is not over and the closure meets its hour in its room. */
  predicate Meets(b: Booking, scope: Option<nat>, starts: int, ends: int) {
    && (b.status == PendingApproval || b.status == Scheduled || b.status == InUse)
    && b.slot < ends && starts < b.slot + HOUR && (scope == None || b.room == scope.value)
  }

  /** It is in use, or a staff hold that has begun by the time the preview reads. */
  predicate Running(b: Booking, clock: int) {
    b.status == InUse || (b.staff && b.slot <= clock)
  }

  lemma ClosureExactly(db: Db, now: int, clock: int, scope: Option<nat>, starts: int, ends: int, reason: string,
                       reasonGiven: bool, acknowledged: bool)
    ensures var r, bs := CreateClosure(db, now, clock, scope, starts, ends, reason, reasonGiven, acknowledged), db.bookings;
      var busy := exists i :: 0 <= i < |bs| && Meets(bs[i], scope, starts, ends) && Running(bs[i], clock);
      && (!reasonGiven || ends <= starts || (busy && !acknowledged) ==> r.exit == Raised(InvalidInput))
      && (reasonGiven && starts < ends && (busy ==> acknowledged) ==>
            r.exit == Returned(Outcome(true, Ok, [|db.site.closures|])))
  {
    var bs, preview := db.bookings, PreviewClosure(db.bookings, scope, starts, ends, clock);
    if i :| 0 <= i < |bs| && Meets(bs[i], scope, starts, ends) && Running(bs[i], clock) {
      assert i in preview.inUse;
    }
    if preview.inUse != {} {
      var i :| i in preview.inUse;
      assert Meets(bs[i], scope, starts, ends) && Running(bs[i], clock);
    }
  }

  /** The closure is stored. Of the bookings it meets those running are flagged for review and the others cancelled,
      with a notice each; every other booking is as it was. */
  lemma ClosureStores(db: Db, now: int, clock: int, scope: Option<nat>, starts: int, ends: int, reason: string,
                      acknowledged: bool)
    requires Succeeded(CreateClosure(db, now, clock, scope, starts, ends, reason, true, acknowledged).exit)
    ensures var r, bs := CreateClosure(db, now, clock, scope, starts, ends, reason, true, acknowledged), db.bookings;
      var cs := r.db.bookings;
      && r.db == db.(bookings := cs, outbox := r.db.outbox, site := db.site.(closures :=
           db.site.closures + [Closure(room := scope, startsAt := starts, endsAt := ends, revokedAt := None,
                                       acknowledged := acknowledged, reason := reason)]))
      && |cs| == |bs|
      && (forall i :: 0 <= i < |bs| ==>
            cs[i] == if !Meets(bs[i], scope, starts, ends) then bs[i]
                     else if Running(bs[i], clock) then bs[i].(needsReview := true)
                     else CancelledFor(bs[i], now, ByClosure))
      && OnlyNotices(db, r.db, iset i: nat | i < |bs| && Meets(bs[i], scope, starts, ends) && !Running(bs[i], clock))
  {
    var bs := db.bookings;
    forall i: nat | i < |bs|
      ensures Affected(bs[i], scope, starts, ends) <==> Meets(bs[i], scope, starts, ends)
      ensures InProgress(bs[i], clock) <==> Running(bs[i], clock)
    {
    }
  }

  lemma RevokeExactly(db: Db, now: int, id: nat, reasonGiven: bool)
    ensures var r := RevokeClosure(db, now, id, reasonGiven);
      && (!reasonGiven ==> r.exit == Raised(InvalidInput))
      && (reasonGiven && id >= |db.site.closures| ==> r.exit == Crashed)
      && (reasonGiven && id < |db.site.closures| ==>
            var c := db.site.closures[id];
            && (c.revokedAt != None ==> r.exit == Raised(TerminalStatus))
            && (c.revokedAt == None ==>
                  && r.exit == Returned(Outcome(true, Ok, [id]))
                  && r.db == db.(site := db.site.(closures := db.site.closures[id := c.(revokedAt := Some(now))]))))
  {
  }

  // ---------------------------------------------------------------- sessions

  lemma EarlyEndExactly(db: Db, now: int, id: nat, reasonGiven: bool)
    ensures var r := CompleteEarly(db, now, id, reasonGiven);
      && (!reasonGiven ==> r.exit == Raised(InvalidInput))
      && (reasonGiven && id >= |db.bookings| ==> r.exit == Crashed)
      && (reasonGiven && id < |db.bookings| ==>
            var b := db.bookings[id];
            && (b.status != InUse ==> r.exit == Raised(TerminalStatus))
            && (b.status == InUse ==>
                  && r.exit == Returned(Outcome(true, Ok, [id]))
                  && r.db == db.(bookings := db.bookings[id := b.(status := Completed, actualEnd := Some(now),
                                                                  needsReview := false)])))
  {
  }

  lemma ReviewExactly(db: Db, now: int, id: nat, noteGiven: bool)
    ensures var r := ResolveReview(db, now, id, noteGiven);
      && (!noteGiven ==> r.exit == Raised(InvalidInput))
      && (noteGiven && id >= |db.bookings| ==> r.exit == Crashed)
      && (noteGiven && id < |db.bookings| ==>
            && r.exit == Returned(Outcome(true, Ok, [id]))
            && r.db == db.(bookings := db.bookings[id := db.bookings[id].(needsReview := false)]))
  {
  }

  // ---------------------------------------------------------------- opening hours and policy

  lemma OverrideExactly(db: Db, date: int, isOpen: bool, open: Option<int>, close: Option<int>)
    ensures var r := SetOverride(db, date, isOpen, open, close);
      var both := open != None && close != None;
      var stored := both && -32768 <= open.value <= 32767 && -32768 <= close.value <= 32767;
      var possible := stored && 0 <= open.value <= 23 && close.value <= 24;
      && (both && close.value <= open.value ==> r.exit == Raised(InvalidInput))
      && (isOpen && !both ==> r.exit == Raised(InvalidInput))
      && (!isOpen && (both ==> open.value < close.value) ==>
            r == BodyResult(db.(site := db.site.(overrides := db.site.overrides[date := None])), Returned(Outcome(true, Ok, []))))
      && (isOpen && both && open.value < close.value && !stored ==> r.exit == Crashed)
      && (isOpen && stored && open.value < close.value && !possible ==> r.exit == ConstraintFailed(OtherConstraint))
      && (isOpen && possible && open.value < close.value ==>
            r == BodyResult(db.(site := db.site.(overrides := db.site.overrides[date := Some(Hours(open := open.value,
                                                                                                close := close.value))])),
                            Returned(Outcome(true, Ok, []))))
  {
  }

  /** A policy version is accepted exactly within these ranges, and becomes the current one. */
  lemma PolicyVersionExactly(db: Db, p: Policy)
    ensures var r := UpdatePolicy(db, p);
      var fine := 1 <= p.horizonDays <= 60 && 1 <= p.dailyQuota <= 10 && 1 <= p.maxUpcoming <= 20 && 1 <= p.grace <= 59
                  && 1 <= p.strikeWindow <= 365 && 1 <= p.threshold <= 10 && 1 <= p.suspensionDays <= 90
                  && 1 <= p.reminderLead <= 180;
      && (!fine ==> r.exit == Raised(InvalidInput))
      && (fine ==> r == BodyResult(db.(site := db.site.(policies := db.site.policies + [p])),
                                   Returned(Outcome(true, Ok, [|db.site.policies| + 1]))))
  {
  }

  // ---------------------------------------------------------------- retirements

  /** Everything open in the room is cancelled, with a notice each, its sessions are flagged, and no booking of another
      room is touched. */
  ghost predicate RoomRetired(db: Db, next: Db, now: int, room: nat) {
    var bs, cs := db.bookings, next.bookings;
    && next == db.(bookings := cs, outbox := next.outbox) && |cs| == |bs|
    && (forall i :: 0 <= i < |bs| ==>
          cs[i] == if bs[i].room != room then bs[i]
                   else if Ahead(bs[i]) then CancelledFor(bs[i], now, ByRoom)
                   else if bs[i].status == InUse then bs[i].(needsReview := true)
                   else bs[i])
    && OnlyNotices(db, next, iset i: nat | i < |bs| && bs[i].room == room && Ahead(bs[i]))
  }

  lemma RetiredRows(bs: seq<Booking>, now: int, room: nat, i: nat)
    requires i < |bs|
    ensures MapRows(MapRows(bs, CancelOpenIn(room, now)), FlagInUseIn(room))[i] ==
      if bs[i].room != room then bs[i]
      else if Ahead(bs[i]) then CancelledFor(bs[i], now, ByRoom)
      else if bs[i].status == InUse then bs[i].(needsReview := true)
      else bs[i]
  {
  }

  lemma RetiredNotices(db: Db, next: Db, now: int, room: nat)
    requires next.outbox == db.outbox + CancelMail(CancelledBy(db.bookings, CancelOpenIn(room, now)))
    ensures OnlyNotices(db, next, iset i: nat | i < |db.bookings| && db.bookings[i].room == room && Ahead(db.bookings[i]))
  {
    var bs := db.bookings;
    NoticesAre(db, next, CancelOpenIn(room, now), iset i: nat | i < |bs| && bs[i].room == room && Ahead(bs[i]));
  }

  /** Retiring a room needs a reason, and does just that. */
  lemma RoomExactly(db: Db, now: int, room: nat, reasonGiven: bool)
    ensures var r := DeactivateRoom(db, now, room, reasonGiven);
      && (!reasonGiven ==> r.exit == Raised(InvalidInput))
      && (reasonGiven ==> r.exit == Returned(Outcome(true, Ok, [])) && RoomRetired(db, r.db, now, room))
  {
    var bs := db.bookings;
    if reasonGiven {
      RetiredNotices(db, DeactivateRoom(db, now, room, true).db, now, room);
      forall i: nat | i < |bs|
        ensures MapRows(MapRows(bs, CancelOpenIn(room, now)), FlagInUseIn(room))[i] ==
          if bs[i].room != room then bs[i]
          else if Ahead(bs[i]) then CancelledFor(bs[i], now, ByRoom)
          else if bs[i].status == InUse then bs[i].(needsReview := true)
          else bs[i]
      {
        RetiredRows(bs, now, room, i);
      }
    }
  }

  /** So no request and no reservation is left in it. */
  lemma NothingIsLeft(db: Db, next: Db, now: int, room: nat)
    requires RoomRetired(db, next, now, room)
    ensures forall b :: b in next.bookings && b.room == room ==> !Ahead(b)
  {
    forall i | 0 <= i < |next.bookings|
      ensures next.bookings[i].room == room ==> !Ahead(next.bookings[i])
    {
      assert next.bookings[i].room == db.bookings[i].room;
    }
  }

  /** Retiring an account cancels everything its holder has open, without a notice, flags the holder's sessions, and
      touches nobody else's booking. Superusers are not retired. */
  lemma AccountExactly(db: Db, now: int, user: User, reasonGiven: bool)
    ensures var r, bs := DeactivateAccount(db, now, user, reasonGiven), db.bookings;
      var cs := r.db.bookings;
      && (!reasonGiven || user.superuser ==> r.exit == Raised(InvalidInput))
      && (reasonGiven && !user.superuser ==>
            && r.exit == Returned(Outcome(true, Ok, [])) && r.db == db.(bookings := cs) && |cs| == |bs|
            && (forall i :: 0 <= i < |bs| ==>
                  cs[i] == if bs[i].user != user.id then bs[i]
                           else if Ahead(bs[i]) then CancelledFor(bs[i], now, ByAccount)
                           else if bs[i].status == InUse then bs[i].(needsReview := true)
                           else bs[i]))
  {
  }

  // ---------------------------------------------------------------- incidents

  lemma IncidentExactly(db: Db, now: int, extent: Incident, reasonGiven: bool, cancelOpen: bool)
    ensures var r := CreateIncident(db, now, extent, reasonGiven, cancelOpen);
      && (!reasonGiven || extent.endsAt <= extent.startsAt ==> r.exit == Raised(InvalidInput))
      && (reasonGiven && extent.startsAt < extent.endsAt ==>
            r.exit == Returned(Outcome(true, Ok, [|db.site.incidents|])))
  {
  }

  /** The incident is stored. The open bookings and missed hours it meets name it; the open ones are cancelled, with a
      notice each, exactly if that was asked for; every other booking is as it was. */
  lemma IncidentStores(db: Db, now: int, extent: Incident, cancelOpen: bool)
    requires Succeeded(CreateIncident(db, now, extent, true, cancelOpen).exit)
    ensures var r, bs, id := CreateIncident(db, now, extent, true, cancelOpen), db.bookings, |db.site.incidents|;
      var cs := r.db.bookings;
      && r.db == db.(bookings := cs, outbox := r.db.outbox, site := db.site.(incidents := db.site.incidents + [extent]))
      && |cs| == |bs|
      && (forall i :: 0 <= i < |bs| ==>
            cs[i] == if Excuses(extent, bs[i]) && Ahead(bs[i]) && cancelOpen
                     then CancelledFor(bs[i], now, ByIncident).(incident := Some(id))
                     else if Excuses(extent, bs[i]) && (Ahead(bs[i]) || bs[i].status == NoShow)
                     then bs[i].(incident := Some(id))
                     else bs[i])
      && OnlyNotices(db, r.db, iset i: nat | i < |bs| && cancelOpen && Excuses(extent, bs[i]) && Ahead(bs[i]))
  {
    var bs := db.bookings;
    forall i: nat | i < |bs|
      ensures IncidentCovers(extent, bs[i]) <==> Excuses(extent, bs[i])
    {
    }
    NoticesAre(db, CreateIncident(db, now, extent, true, cancelOpen).db, Disrupt(|db.site.incidents|, extent, now, cancelOpen),
               iset i: nat | i < |bs| && cancelOpen && Excuses(extent, bs[i]) && Ahead(bs[i]));
  }

  /** The violation is the unvoided record of a missed hour the incident meets. */
  predicate VoidedFor(v: Violation, extent: Incident, bs: seq<Booking>) {
    && v.noShow && v.voidedAt == None && v.booking != None && v.booking.value < |bs|
    && bs[v.booking.value].status == NoShow && Excuses(extent, bs[v.booking.value])
  }

  lemma {:induction false} VoidCountIs(vs: seq<Violation>, n: nat, extent: Incident, bs: seq<Booking>)
    requires n <= |vs|
    ensures VoidCount(vs, n, extent, bs) == |set k | 0 <= k < n && VoidedFor(vs[k], extent, bs)|
  {
    var some := set k | 0 <= k < n && VoidedFor(vs[k], extent, bs);
    if n == 0 {
      assert some == {};
    } else {
      VoidCountIs(vs, n - 1, extent, bs);
      var before := set k | 0 <= k < n - 1 && VoidedFor(vs[k], extent, bs);
      assert some == before + if VoidedFor(vs[n - 1], extent, bs) then {n - 1} else {};
    }
  }

  /** Exactly those violations are voided, and counted in the answer; the answer then lists, in order, the
      suspensions not lifted that consumed one of them. */
  lemma VoidIncidentExactly(db: Db, now: int, id: nat, read: Incident, reasonGiven: bool)
    ensures var r, vs := VoidIncident(db, now, id, read, reasonGiven), db.violations;
      var stored := id < |db.site.incidents|;
      var extent := if stored then db.site.incidents[id] else read;
      var voided := set k | 0 <= k < |vs| && VoidedFor(vs[k], extent, db.bookings);
      && (!reasonGiven ==> r.exit == Raised(InvalidInput))
      && (reasonGiven && !stored && voided != {} ==> r.exit == Crashed)
      && (reasonGiven && (stored || voided == {}) ==>
            && r.exit == Returned(Outcome(true, Ok, [|voided|] + ToReview(db, extent, |db.suspensions|)))
            && r.db == db.(violations := r.db.violations) && |r.db.violations| == |vs|
            && forall k :: 0 <= k < |vs| ==>
                 r.db.violations[k] == if k in voided then vs[k].(voidedAt := Some(now), incident := Some(id)) else vs[k])
  {
    var vs := db.violations;
    var extent := if id < |db.site.incidents| then db.site.incidents[id] else read;
    VoidCountIs(vs, |vs|, extent, db.bookings);
    var voided := set k | 0 <= k < |vs| && VoidedFor(vs[k], extent, db.bookings);
    assert |voided| > 0 <==> voided != {};
    forall k | 0 <= k < |vs|
      ensures VoidedByIncident(vs[k], extent, db.bookings) <==> k in voided
    {
    }
  }

  lemma ReviewedExactly(db: Db, extent: Incident, s: nat)
    ensures s in ToReview(db, extent, |db.suspensions|) <==>
      && s < |db.suspensions| && db.suspensions[s].liftedAt == None
      && exists k :: 0 <= k < |db.violations| && VoidedFor(db.violations[k], extent, db.bookings)
                     && db.violations[k].consumedBy == Some(s)
  {
    var vs := db.violations;
    forall k | 0 <= k < |vs|
      ensures VoidedByIncident(vs[k], extent, db.bookings) <==> VoidedFor(vs[k], extent, db.bookings)
    {
    }
  }
}
