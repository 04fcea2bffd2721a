/** Reconciliation of due state (core/services/reconcile.py).

    For each pass there is the change it must make to the tables, stated on the whole table at
    once, and the method that makes it row by row in the order the service does. */
module Reconcile {
  import opened Slots
  import opened Tables
  import opened Rules
  import opened Changes

  // ---------------------------------------------------------------- due rows

  datatype Pass = Approvals | NoShows | Holds | Completions

  predicate IsDue(p: Pass, b: Booking, now: int) {
    match p
    case Approvals => b.status.PendingApproval? && b.slot <= now
    case NoShows => Overdue(b, now)
    case Holds => b.status.Scheduled? && b.staff && b.slot <= now < b.End()
    case Completions => (b.status.InUse? || (b.status.Scheduled? && b.staff)) && b.End() <= now
  }

  function DeadlineOf(b: Booking): int {
    if b.deadline.Some? then b.deadline.value else b.slot
  }

  /** What the pass orders its rows by, before the primary key. */
  function Key(p: Pass, b: Booking): int {
    match p
    case Approvals => b.slot
    case NoShows => DeadlineOf(b)
    case Holds => b.slot
    case Completions => b.End()
  }

  predicate Before(p: Pass, bs: seq<Booking>, i: nat, j: nat)
    requires i < |bs| && j < |bs|
  {
    Key(p, bs[i]) < Key(p, bs[j]) || (Key(p, bs[i]) == Key(p, bs[j]) && i < j)
  }

  predicate InTable(ids: seq<nat>, bs: seq<Booking>) {
    forall k :: 0 <= k < |ids| ==> ids[k] < |bs|
  }

  /** Strictly increasing in (key, primary key). */
  predicate Ordered(p: Pass, bs: seq<Booking>, ids: seq<nat>) {
    InTable(ids, bs) && forall j, k :: 0 <= j < k < |ids| ==> Before(p, bs, ids[j], ids[k])
  }

  function Insert(p: Pass, bs: seq<Booking>, ids: seq<nat>, i: nat): (r: seq<nat>)
    requires i < |bs| && Ordered(p, bs, ids) && i !in ids
    ensures Ordered(p, bs, r)
    ensures forall x :: x in r <==> x in ids || x == i
    ensures |r| == |ids| + 1
  {
    if ids == [] then [i]
    else if Before(p, bs, i, ids[0]) then [i] + ids
    else
      var rest := Insert(p, bs, ids[1..], i);
      assert forall x :: x in ids <==> x == ids[0] || x in ids[1..];
      assert forall k :: 0 <= k < |rest| ==> Before(p, bs, ids[0], rest[k]) by {
        HeadBefore(p, bs, ids, i, rest);
      }
      [ids[0]] + rest
  }

  lemma HeadBefore(p: Pass, bs: seq<Booking>, ids: seq<nat>, i: nat, rest: seq<nat>)
    requires i < |bs| && Ordered(p, bs, ids) && i !in ids && ids != [] && !Before(p, bs, i, ids[0])
    requires InTable(rest, bs) && forall x :: x in rest <==> x in ids[1..] || x == i
    ensures forall k :: 0 <= k < |rest| ==> Before(p, bs, ids[0], rest[k])
  {
    forall k | 0 <= k < |rest|
      ensures Before(p, bs, ids[0], rest[k])
    {
      assert rest[k] in rest;
      if rest[k] != i {
        var m :| 0 <= m < |ids[1..]| && ids[1..][m] == rest[k];
        assert ids[m + 1] == rest[k];
      }
    }
  }

  function DueAmong(p: Pass, bs: seq<Booking>, n: nat, now: int): (r: seq<nat>)
    requires n <= |bs|
    ensures Ordered(p, bs, r)
    ensures forall i :: i in r <==> 0 <= i < n && IsDue(p, bs[i], now)
    ensures |r| <= n
  {
    if n == 0 then []
    else
      var rest := DueAmong(p, bs, n - 1, now);
      if IsDue(p, bs[n - 1], now) then Insert(p, bs, rest, n - 1) else rest
  }

  /** The due rows, ordered by the pass's key and then by primary key. */
  function Due(p: Pass, bs: seq<Booking>, now: int): (r: seq<nat>)
    ensures Ordered(p, bs, r)
    ensures forall i :: i in r <==> 0 <= i < |bs| && IsDue(p, bs[i], now)
  {
    DueAmong(p, bs, |bs|, now)
  }

  lemma OrderedDistinct(p: Pass, bs: seq<Booking>, ids: seq<nat>)
    requires Ordered(p, bs, ids)
    ensures forall j, k :: 0 <= j < k < |ids| ==> ids[j] != ids[k]
  {
  }

  // ---------------------------------------------------------------- the passes as table changes

  function DueSet(p: Pass, bs: seq<Booking>, now: int): set<nat> {
    set i: nat | i < |bs| && IsDue(p, bs[i], now)
  }

  function RejectMail(ids: set<nat>): set<Mail> {
    set i | i in ids :: BookingRejected(i)
  }

  function ExpireApprovals(db: Db, now: int): Db {
    db.(bookings := MapRows(db.bookings, ExpireApproval(now)),
        outbox := db.outbox + RejectMail(DueSet(Approvals, db.bookings, now)))
  }

  predicate HasNoShow(vs: seq<Violation>, booking: nat) {
    exists k :: 0 <= k < |vs| && vs[k].noShow && vs[k].booking == Some(booking)
  }

  function Strike(b: Booking, id: nat, policy: Policy): Violation {
    Violation(b.user, Some(id), true, DeadlineOf(b), DeadlineOf(b) + policy.strikeWindow * DAY, true, None, None, None)
  }

  /** Of `ids`, those no incident covers and no no-show is recorded for yet, in the same order. */
  function Struck(db: Db, ids: seq<nat>): (r: seq<nat>)
    requires InTable(ids, db.bookings)
    ensures forall k :: 0 <= k < |r| ==> r[k] < |db.bookings|
    ensures forall x :: x in r <==> x in ids && !Covered(db.site.incidents, db.bookings[x]) && !HasNoShow(db.violations, x)
  {
    if ids == [] then []
    else
      var last := ids[|ids| - 1];
      var rest := Struck(db, ids[..|ids| - 1]);
      if Covered(db.site.incidents, db.bookings[last]) || HasNoShow(db.violations, last) then rest else rest + [last]
  }

  function Strikes(db: Db, ids: seq<nat>): (r: seq<Violation>)
    requires InTable(ids, db.bookings)
    ensures |r| == |ids|
    ensures forall k :: 0 <= k < |ids| ==> r[k] == Strike(db.bookings[ids[k]], ids[k], CurrentPolicy(db))
  {
    seq(|ids|, k requires 0 <= k < |ids| => Strike(db.bookings[ids[k]], ids[k], CurrentPolicy(db)))
  }

  /** Appending strikes for other bookings does not record a no-show for this one. */
  lemma StrikesOfOthers(db: Db, ids: seq<nat>, id: nat)
    requires InTable(ids, db.bookings) && id !in ids
    ensures HasNoShow(db.violations + Strikes(db, ids), id) == HasNoShow(db.violations, id)
  {
    var more := db.violations + Strikes(db, ids);
    if HasNoShow(db.violations, id) {
      var k :| 0 <= k < |db.violations| && db.violations[k].noShow && db.violations[k].booking == Some(id);
      assert more[k] == db.violations[k];
    }
  }

  function NoShowMail(ids: seq<nat>): set<Mail> {
    set i | i in ids :: BookingNoShow(i)
  }

  function RecordNoShows(db: Db, now: int): Db {
    var struck := Struck(db, Due(NoShows, db.bookings, now));
    db.(bookings := MapRows(db.bookings, Forfeit(now, db.site.incidents)),
        violations := db.violations + Strikes(db, struck),
        outbox := db.outbox + NoShowMail(struck))
  }

  function StartHolds(db: Db, now: int): Db {
    db.(bookings := MapRows(db.bookings, StartHold(now)))
  }

  function CompleteSessions(db: Db, now: int): Db {
    db.(bookings := MapRows(db.bookings, Complete(now)))
  }

  // ---------------------------------------------------------------- strikes and suspensions

  predicate EligibleStrike(v: Violation, now: int) {
    && v.voidedAt.None?
    && v.counts
    && v.consumedBy.None?
    && v.occurredAt <= now < v.expiresAt
  }

  predicate StrikeOf(v: Violation, user: nat, now: int) {
    v.user == user && EligibleStrike(v, now)
  }

  function StrikeIds(vs: seq<Violation>, user: nat, now: int): set<nat> {
    set i: nat | i < |vs| && StrikeOf(vs[i], user, now)
  }

  /** The users with an eligible strike, in the order of their first one. */
  function Strikers(vs: seq<Violation>, now: int): (r: seq<nat>)
    ensures forall u :: u in r <==> exists i :: 0 <= i < |vs| && StrikeOf(vs[i], u, now)
    ensures forall j, k :: 0 <= j < k < |r| ==> r[j] != r[k]
  {
    if vs == [] then []
    else
      var last := vs[|vs| - 1];
      var rest := Strikers(vs[..|vs| - 1], now);
      assert forall i :: 0 <= i < |vs| - 1 ==> vs[..|vs| - 1][i] == vs[i];
      if EligibleStrike(last, now) && last.user !in rest then rest + [last.user] else rest
  }

  function ReachingThreshold(vs: seq<Violation>, users: seq<nat>, threshold: int, now: int): (r: seq<nat>)
    ensures forall u :: u in r <==> u in users && |StrikeIds(vs, u, now)| >= threshold
  {
    if users == [] then []
    else
      var rest := ReachingThreshold(vs, users[1..], threshold, now);
      if |StrikeIds(vs, users[0], now)| >= threshold then [users[0]] + rest else rest
  }

  function Consume(v: Violation, user: nat, suspension: nat, now: int): Violation {
    if StrikeOf(v, user, now) then v.(consumedBy := Some(suspension)) else v
  }

  function ConsumeStrikes(vs: seq<Violation>, user: nat, suspension: nat, now: int): (r: seq<Violation>)
    ensures |r| == |vs| && forall i :: 0 <= i < |vs| ==> r[i] == Consume(vs[i], user, suspension, now)
  {
    seq(|vs|, i requires 0 <= i < |vs| => Consume(vs[i], user, suspension, now))
  }

  function AutomaticSuspension(user: nat, now: int, policy: Policy): Suspension {
    Suspension(user, now, Some(now + policy.suspensionDays * DAY), None, true,
               if policy.threshold >= 0 then policy.threshold else 0, None)
  }

  function CancelOpenFor(db: Db, user: nat, now: int, reason: CancelReason): Db {
    var change := CancelOpenOf(user, now, reason);
    db.(bookings := MapRows(db.bookings, change),
        outbox := db.outbox + CancelMail(CancelledBy(db.bookings, change)))
  }

  /** Suspend one user: consume every eligible strike and cancel every open booking. */
  function AutoSuspend(db: Db, user: nat, now: int): Db {
    var id := |db.suspensions|;
    CancelOpenFor(
      db.(suspensions := db.suspensions + [AutomaticSuspension(user, now, CurrentPolicy(db))],
          violations := ConsumeStrikes(db.violations, user, id, now),
          outbox := db.outbox + {SuspensionApplied(id)}),
      user, now, BySuspension)
  }

  function SuspendAll(db: Db, users: seq<nat>, now: int): (r: Db)
    ensures r.requests == db.requests && r.site == db.site
    decreases |users|
  {
    if users == [] then db
    else
      var rest := SuspendAll(db, users[..|users| - 1], now);
      var last := users[|users| - 1];
      if IsSuspended(rest, last, now) then rest else AutoSuspend(rest, last, now)
  }

  function Offenders(db: Db, now: int): seq<nat> {
    ReachingThreshold(db.violations, Strikers(db.violations, now), CurrentPolicy(db).threshold, now)
  }

  function ApplyThresholds(db: Db, now: int): Db {
    SuspendAll(db, Offenders(db, now), now)
  }

  predicate EndDue(s: Suspension, now: int) {
    s.liftedAt.None? && s.endsAt.Some? && s.endsAt.value <= now && s.endNotifiedAt.None?
  }

  function MarkEnded(s: Suspension, now: int): Suspension {
    if EndDue(s, now) then s.(endNotifiedAt := Some(now)) else s
  }

  function MarkAllEnded(ss: seq<Suspension>, now: int): (r: seq<Suspension>)
    ensures |r| == |ss| && forall i :: 0 <= i < |ss| ==> r[i] == MarkEnded(ss[i], now)
  {
    seq(|ss|, i requires 0 <= i < |ss| => MarkEnded(ss[i], now))
  }

  function NotifyFinished(db: Db, now: int): Db {
    db.(suspensions := MarkAllEnded(db.suspensions, now),
        outbox := db.outbox + set i: nat | i < |db.suspensions| && EndDue(db.suspensions[i], now) :: SuspensionEnded(i))
  }

  // ---------------------------------------------------------------- the whole run

  /** What a run leaves behind; an incomplete run stopped before the pass whose backlog exceeded
      the budget. */
  datatype Reconciled = Reconciled(db: Db, complete: bool)

  predicate OverBudget(p: Pass, db: Db, now: int, budget: nat) {
    |Due(p, db.bookings, now)| > budget
  }

  function Run(db: Db, now: int, budget: nat): (r: Reconciled)
    ensures r.db.requests == db.requests && r.db.site == db.site
  {
    if OverBudget(Approvals, db, now, budget) then Reconciled(db, false)
    else
      var a := ExpireApprovals(db, now);
      if OverBudget(NoShows, a, now, budget) then Reconciled(a, false)
      else
        var b := RecordNoShows(a, now);
        if OverBudget(Holds, b, now, budget) then Reconciled(b, false)
        else
          var c := StartHolds(b, now);
          if OverBudget(Completions, c, now, budget) then Reconciled(c, false)
          else Reconciled(Sanction(CompleteSessions(c, now), now), true)
  }

  /** The two sanction passes, which have no budget. */
  function Sanction(db: Db, now: int): Db {
    NotifyFinished(ApplyThresholds(db, now), now)
  }

  /** The four lifecycle passes without a budget. */
  function Lifecycle(db: Db, now: int): Db {
    CompleteSessions(StartHolds(RecordNoShows(ExpireApprovals(db, now), now), now), now)
  }

  lemma CompleteRun(db: Db, now: int, budget: nat)
    ensures Run(db, now, budget).complete ==> Run(db, now, budget).db == Sanction(Lifecycle(db, now), now)
  {
  }
}
