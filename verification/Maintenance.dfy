/** Closures, retirements, policy and incidents (core/services/maintenance.py, incidents.py). */
module Maintenance {
  import opened Slots
  import opened Tables
  import opened Rules
  import opened Changes
  import opened Reconcile

  // ---------------------------------------------------------------- closures

  datatype Preview = Preview(scheduled: set<nat>, inUse: set<nat>)

  /** The bookings a closure would cancel and those it would only flag. `clock` is the time the
      preview reads for itself. */
  function PreviewClosure(bs: seq<Booking>, scope: Option<nat>, starts: int, ends: int, clock: int): Preview {
    Preview(set i: nat | i < |bs| && Affected(bs[i], scope, starts, ends) && !InProgress(bs[i], clock),
            set i: nat | i < |bs| && Affected(bs[i], scope, starts, ends) && InProgress(bs[i], clock))
  }

  function CreateClosure(db: Db, now: int, clock: int, scope: Option<nat>, starts: int, ends: int, reason: string,
                         reasonGiven: bool, acknowledged: bool): BodyResult
  {
    if !reasonGiven || ends <= starts then Refuse(db, InvalidInput)
    else
      var preview := PreviewClosure(db.bookings, scope, starts, ends, clock);
      if preview.inUse != {} && !acknowledged then Refuse(db, InvalidInput)
      else
        Done(db.(site := db.site.(closures := db.site.closures + [Closure(scope, starts, ends, None, acknowledged, reason)]),
                 bookings := MapRows(db.bookings, CloseOver(scope, starts, ends, now, clock)),
                 outbox := db.outbox + CancelMail(preview.scheduled)),
             [|db.site.closures|])
  }

  function RevokeClosure(db: Db, now: int, id: nat, reasonGiven: bool): BodyResult {
    if !reasonGiven then Refuse(db, InvalidInput)
    else if id >= |db.site.closures| then BodyResult(db, Crashed)
    else if db.site.closures[id].revokedAt.Some? then Refuse(db, TerminalStatus)
    else Done(db.(site := db.site.(closures := db.site.closures[id := db.site.closures[id].(revokedAt := Some(now))])), [id])
  }

  // ---------------------------------------------------------------- sessions on site

  function CompleteEarly(db: Db, now: int, id: nat, reasonGiven: bool): BodyResult {
    if !reasonGiven then Refuse(db, InvalidInput)
    else if id >= |db.bookings| then BodyResult(db, Crashed)
    else if !db.bookings[id].status.InUse? then Refuse(db, TerminalStatus)
    else
      Done(db.(bookings := db.bookings[id := db.bookings[id].(status := Completed, actualEnd := Some(now),
                                                               needsReview := false)]), [id])
  }

  function ResolveReview(db: Db, now: int, id: nat, noteGiven: bool): BodyResult {
    if !noteGiven then Refuse(db, InvalidInput)
    else if id >= |db.bookings| then BodyResult(db, Crashed)
    else Done(db.(bookings := db.bookings[id := db.bookings[id].(needsReview := false)]), [id])
  }

  // ---------------------------------------------------------------- calendar, rooms, accounts, policy

  /** The column holds 16 bits. A larger number is an error of the database, not a failed constraint. */
  predicate FitsColumn(n: int) {
    -0x8000 <= n <= 0x7FFF
  }

  function SetOverride(db: Db, date: int, isOpen: bool, open: Option<int>, close: Option<int>): BodyResult {
    if open.Some? && close.Some? && close.value <= open.value then Refuse(db, InvalidInput)
    else if isOpen && (open.None? || close.None?) then Refuse(db, InvalidInput)
    else if isOpen && !(FitsColumn(open.value) && FitsColumn(close.value)) then BodyResult(db, Crashed)
    else if isOpen && !(0 <= open.value <= 23 && 0 <= close.value <= 24)
    then BodyResult(db, ConstraintFailed(OtherConstraint))
    else
      Done(db.(site := db.site.(overrides :=
             db.site.overrides[date := if isOpen then Some(Hours(open.value, close.value)) else None])), [])
  }

  function DeactivateRoom(db: Db, now: int, room: nat, reasonGiven: bool): BodyResult {
    if !reasonGiven then Refuse(db, InvalidInput)
    else
      var change := CancelOpenIn(room, now);
      var cancelled := CancelledBy(db.bookings, change);
      Done(db.(bookings := MapRows(MapRows(db.bookings, change), FlagInUseIn(room)),
               outbox := db.outbox + CancelMail(cancelled)), [])
  }

  /** Retiring an account sends no notice. */
  function DeactivateAccount(db: Db, now: int, user: User, reasonGiven: bool): BodyResult {
    if !reasonGiven || user.superuser then Refuse(db, InvalidInput)
    else
      Done(db.(bookings := MapRows(MapRows(db.bookings, CancelOpenOf(user.id, now, ByAccount)), FlagInUseOf(user.id))), [])
  }

  function UpdatePolicy(db: Db, policy: Policy): BodyResult {
    if !PolicyInRange(policy) then Refuse(db, InvalidInput)
    else Done(db.(site := db.site.(policies := db.site.policies + [policy])), [|db.site.policies| + 1])
  }

  // ---------------------------------------------------------------- incidents

  function CreateIncident(db: Db, now: int, extent: Incident, reasonGiven: bool, cancelOpen: bool): BodyResult {
    if !reasonGiven || extent.endsAt <= extent.startsAt then Refuse(db, InvalidInput)
    else
      var id := |db.site.incidents|;
      var change := Disrupt(id, extent, now, cancelOpen);
      Done(db.(site := db.site.(incidents := db.site.incidents + [extent]),
               bookings := MapRows(db.bookings, change),
               outbox := db.outbox + CancelMail(CancelledBy(db.bookings, change))), [id])
  }

  predicate VoidedByIncident(v: Violation, extent: Incident, bs: seq<Booking>) {
    && v.noShow && v.voidedAt.None?
    && v.booking.Some? && v.booking.value < |bs|
    && bs[v.booking.value].status.NoShow? && IncidentCovers(extent, bs[v.booking.value])
  }

  function VoidForIncident(v: Violation, id: nat, extent: Incident, bs: seq<Booking>, now: int): Violation {
    if VoidedByIncident(v, extent, bs) then v.(voidedAt := Some(now), incident := Some(id)) else v
  }

  function VoidAllForIncident(vs: seq<Violation>, id: nat, extent: Incident, bs: seq<Booking>, now: int)
    : (r: seq<Violation>)
    ensures |r| == |vs| && forall i :: 0 <= i < |vs| ==> r[i] == VoidForIncident(vs[i], id, extent, bs, now)
  {
    seq(|vs|, i requires 0 <= i < |vs| => VoidForIncident(vs[i], id, extent, bs, now))
  }

  /** How many of the first `n` violations are voided. */
  function VoidCount(vs: seq<Violation>, n: nat, extent: Incident, bs: seq<Booking>): nat
    requires n <= |vs|
  {
    if n == 0 then 0
    else VoidCount(vs, n - 1, extent, bs) + if VoidedByIncident(vs[n - 1], extent, bs) then 1 else 0
  }

  /** One of the first `n` violations is voided and was consumed by the suspension, which is not lifted. */
  predicate ForReview(db: Db, n: nat, extent: Incident, s: nat)
    requires n <= |db.violations|
  {
    && s < |db.suspensions| && db.suspensions[s].liftedAt.None?
    && exists k :: 0 <= k < n && VoidedByIncident(db.violations[k], extent, db.bookings)
                   && db.violations[k].consumedBy == Some(s)
  }

  /** The suspensions staff are asked to review, in increasing order. */
  function ToReview(db: Db, extent: Incident, n: nat): (r: seq<int>)
    requires n <= |db.suspensions|
    ensures forall s: nat :: s in r <==> s < n && ForReview(db, |db.violations|, extent, s)
    ensures forall j :: 0 <= j < |r| ==> 0 <= r[j] < n
    ensures forall j, k :: 0 <= j < k < |r| ==> r[j] < r[k]
  {
    if n == 0 then []
    else ToReview(db, extent, n - 1) + if ForReview(db, |db.violations|, extent, n - 1) then [n - 1] else []
  }

  /** `read` is the incident as the request read it. Nothing reloads it; were its row gone, the reference of
      a voided violation to it would fail as the transaction commits. */
  function VoidIncident(db: Db, now: int, id: nat, read: Incident, reasonGiven: bool): BodyResult {
    if !reasonGiven then Refuse(db, InvalidInput)
    else
      var extent := if id < |db.site.incidents| then db.site.incidents[id] else read;
      var voided := VoidCount(db.violations, |db.violations|, extent, db.bookings);
      if id >= |db.site.incidents| && voided > 0 then BodyResult(db, Crashed)
      else
        Done(db.(violations := VoidAllForIncident(db.violations, id, extent, db.bookings, now)),
             [voided] + ToReview(db, extent, |db.suspensions|))
  }
}
