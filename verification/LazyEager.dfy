/** Reconciling late gives the same lifecycle as reconciling often. */
module LazyEager {
  import opened Slots
  import opened Tables
  import opened Rules
  import opened Changes
  import opened Reconcile
  import opened Soundness

  // ---------------------------------------------------------------- one row

  /** The four lifecycle passes on one row. */
  function Live(b: Booking, incidents: seq<Incident>, now: int): Booking {
    Apply(Complete(now), Apply(StartHold(now), Apply(Forfeit(now, incidents), Apply(ExpireApproval(now), b))))
  }

  /** Forget when a staff hold is said to have been checked in. */
  function WithoutHoldCheckIn(b: Booking): Booking {
    if b.staff then b.(checkedInAt := None) else b
  }

  lemma LiveKeepsIdentity(b: Booking, incidents: seq<Incident>, now: int)
    ensures var c := Live(b, incidents, now);
      c.user == b.user && c.room == b.room && c.slot == b.slot && c.staff == b.staff && c.deadline == b.deadline
      && (Covered(incidents, c) <==> Covered(incidents, b))
  {
    var c := Live(b, incidents, now);
    assert c.room == b.room && c.slot == b.slot;
    assert forall k :: 0 <= k < |incidents| ==> (IncidentCovers(incidents[k], c) <==> IncidentCovers(incidents[k], b));
  }

  /** What one run of the passes does to a row, said at once. */
  lemma LiveAtOnce(b: Booking, incidents: seq<Incident>, now: int)
    ensures Live(b, incidents, now) ==
      if b.status.PendingApproval? && b.slot <= now then b.(status := Rejected)
      else if Overdue(b, now) && !Covered(incidents, b) then b.(status := NoShow)
      else if b.status.Scheduled? && b.staff && b.slot <= now < b.End()
      then b.(status := InUse, checkedInAt := Some(b.slot))
      else if (b.status.InUse? || (b.status.Scheduled? && b.staff)) && b.End() <= now
      then b.(status := Completed, actualEnd := Some(b.End()))
      else b
  {
    var c := Apply(ExpireApproval(now), b);
    assert forall k :: 0 <= k < |incidents| ==> (IncidentCovers(incidents[k], c) <==> IncidentCovers(incidents[k], b));
  }

  lemma RowLazyIsEager(b: Booking, incidents: seq<Incident>, t1: int, t2: int)
    requires t1 <= t2
    ensures WithoutHoldCheckIn(Live(Live(b, incidents, t1), incidents, t2)) == WithoutHoldCheckIn(Live(b, incidents, t2))
  {
    var c := Live(b, incidents, t1);
    LiveAtOnce(b, incidents, t1);
    LiveAtOnce(b, incidents, t2);
    LiveAtOnce(c, incidents, t2);
    LiveKeepsIdentity(b, incidents, t1);
  }

  lemma LifecycleRows(db: Db, now: int)
    ensures |Lifecycle(db, now).bookings| == |db.bookings|
    ensures forall i :: 0 <= i < |db.bookings| ==>
      Lifecycle(db, now).bookings[i] == Live(db.bookings[i], db.site.incidents, now)
  {
  }

  // ---------------------------------------------------------------- order of the strikes

  /** Ids in deadline order, ties broken by primary key. */
  ghost predicate ByDeadline(bs: seq<Booking>, ids: seq<nat>) {
    Ordered(NoShows, bs, ids)
  }

  ghost predicate SameDeadlines(bs: seq<Booking>, cs: seq<Booking>) {
    |bs| == |cs| && forall i :: 0 <= i < |bs| ==> cs[i].deadline == bs[i].deadline && cs[i].slot == bs[i].slot
  }

  lemma OrderTransfers(bs: seq<Booking>, cs: seq<Booking>, ids: seq<nat>)
    requires SameDeadlines(bs, cs) && ByDeadline(bs, ids)
    ensures ByDeadline(cs, ids)
  {
    forall j, k | 0 <= j < k < |ids|
      ensures Before(NoShows, cs, ids[j], ids[k])
    {
      assert Before(NoShows, bs, ids[j], ids[k]);
    }
  }

  lemma {:induction false} StruckInOrder(db: Db, ids: seq<nat>)
    requires InTable(ids, db.bookings) && ByDeadline(db.bookings, ids)
    ensures ByDeadline(db.bookings, Struck(db, ids))
  {
    if ids != [] {
      var front, last := ids[..|ids| - 1], ids[|ids| - 1];
      StruckInOrder(db, front);
      var r := Struck(db, front);
      forall k | 0 <= k < |r|
        ensures Before(NoShows, db.bookings, r[k], last)
      {
        assert r[k] in r;
        var j :| 0 <= j < |front| && front[j] == r[k];
        assert ids[j] == r[k];
      }
    }
  }

  /** A set of bookings has one deadline order. */
  lemma {:induction false} OneOrder(bs: seq<Booking>, xs: seq<nat>, ys: seq<nat>)
    requires ByDeadline(bs, xs) && ByDeadline(bs, ys) && forall i :: i in xs <==> i in ys
    ensures xs == ys
    decreases |xs|
  {
    assert ys != [] ==> ys[0] in ys && ys[0] in xs;
    if xs != [] {
      assert xs[0] in xs && xs[0] in ys;
      assert ys[0] in ys && ys[0] in xs;
      FirstIsLeast(bs, xs, ys[0]);
      FirstIsLeast(bs, ys, xs[0]);
      assert xs[0] == ys[0];
      RestSame(bs, xs, ys);
      OneOrder(bs, xs[1..], ys[1..]);
    }
  }

  lemma FirstIsLeast(bs: seq<Booking>, ids: seq<nat>, x: nat)
    requires ByDeadline(bs, ids) && ids != [] && x in ids
    ensures x == ids[0] || Before(NoShows, bs, ids[0], x)
  {
  }

  lemma RestSame(bs: seq<Booking>, xs: seq<nat>, ys: seq<nat>)
    requires ByDeadline(bs, xs) && ByDeadline(bs, ys) && xs != [] && ys != [] && xs[0] == ys[0]
    requires forall i :: i in xs <==> i in ys
    ensures forall i :: i in xs[1..] <==> i in ys[1..]
  {
    OrderedDistinct(NoShows, bs, xs);
    OrderedDistinct(NoShows, bs, ys);
    forall i: nat
      ensures i in xs[1..] <==> i in ys[1..]
    {
      TailMember(xs, i);
      TailMember(ys, i);
    }
  }

  lemma TailMember(ids: seq<nat>, i: nat)
    requires ids != [] && forall k :: 0 < k < |ids| ==> ids[0] != ids[k]
    ensures i in ids[1..] <==> i in ids && i != ids[0]
  {
    if i in ids && i != ids[0] {
      var k :| 0 <= k < |ids| && ids[k] == i;
      assert ids[1..][k - 1] == i;
    }
  }

  // ---------------------------------------------------------------- the strikes of two runs

  /** The no-shows a run at `now` records. */
  function StruckAt(db: Db, now: int): seq<nat> {
    var e := ExpireApprovals(db, now);
    Struck(e, Due(NoShows, e.bookings, now))
  }

  lemma StruckAtMembers(db: Db, now: int, x: nat)
    ensures x in StruckAt(db, now) <==>
      x < |db.bookings| && Overdue(db.bookings[x], now) && !Covered(db.site.incidents, db.bookings[x])
      && !HasNoShow(db.violations, x)
    ensures ByDeadline(db.bookings, StruckAt(db, now))
  {
    var e := ExpireApprovals(db, now);
    var due := Due(NoShows, e.bookings, now);
    StruckInOrder(e, due);
    OrderTransfers(e.bookings, db.bookings, Struck(e, due));
    if x < |db.bookings| {
      assert e.bookings[x] == Apply(ExpireApproval(now), db.bookings[x]);
    }
  }

  lemma LifecycleOthers(db: Db, now: int)
    ensures Lifecycle(db, now) == db.(
      bookings := Lifecycle(db, now).bookings,
      violations := db.violations + Strikes(ExpireApprovals(db, now), StruckAt(db, now)),
      outbox := db.outbox + RejectMail(DueSet(Approvals, db.bookings, now)) + NoShowMail(StruckAt(db, now)))
  {
  }

  /** Together, two runs strike what one late run strikes, in the same order. */
  lemma StruckConcat(db: Db, t1: int, t2: int)
    requires t1 <= t2
    ensures StruckAt(db, t2) == StruckAt(db, t1) + StruckAt(Lifecycle(db, t1), t2)
  {
    var mid := Lifecycle(db, t1);
    var s, s1, s2 := StruckAt(db, t2), StruckAt(db, t1), StruckAt(mid, t2);
    LifecycleRows(db, t1);
    StruckAtMembers(db, t1, 0);
    StruckAtMembers(db, t2, 0);
    StruckAtMembers(mid, t2, 0);
    OrderTransfersBack(db, t1, s2);
    forall x: nat
      ensures x in s <==> x in s1 || x in s2
      ensures x in s1 ==> DeadlineOf(db.bookings[x]) <= t1
      ensures x in s2 ==> DeadlineOf(db.bookings[x]) > t1
    {
      StruckAtMembers(db, t1, x);
      StruckAtMembers(db, t2, x);
      StruckAtMembers(mid, t2, x);
      if x < |db.bookings| {
        LiveAtOnce(db.bookings[x], db.site.incidents, t1);
        LiveKeepsIdentity(db.bookings[x], db.site.incidents, t1);
        if x !in s1 {
          LifecycleOthers(db, t1);
          StrikesElsewhere(db, t1, x);
        }
      }
    }
    Joined(db.bookings, s1, s2, t1);
    OneOrder(db.bookings, s, s1 + s2);
  }

  lemma OrderTransfersBack(db: Db, t1: int, ids: seq<nat>)
    requires ByDeadline(Lifecycle(db, t1).bookings, ids)
    ensures ByDeadline(db.bookings, ids)
  {
    LifecycleRows(db, t1);
    forall i | 0 <= i < |db.bookings|
      ensures Lifecycle(db, t1).bookings[i].deadline == db.bookings[i].deadline
      ensures Lifecycle(db, t1).bookings[i].slot == db.bookings[i].slot
    {
      LiveKeepsIdentity(db.bookings[i], db.site.incidents, t1);
    }
    OrderTransfers(Lifecycle(db, t1).bookings, db.bookings, ids);
  }

  lemma StrikesElsewhere(db: Db, t1: int, x: nat)
    requires x !in StruckAt(db, t1)
    ensures HasNoShow(Lifecycle(db, t1).violations, x) <==> HasNoShow(db.violations, x)
  {
    StrikesOfOthers(ExpireApprovals(db, t1), StruckAt(db, t1), x);
  }

  lemma Joined(bs: seq<Booking>, xs: seq<nat>, ys: seq<nat>, t: int)
    requires ByDeadline(bs, xs) && ByDeadline(bs, ys)
    requires forall x :: x in xs ==> x < |bs| && DeadlineOf(bs[x]) <= t
    requires forall y :: y in ys ==> y < |bs| && DeadlineOf(bs[y]) > t
    ensures ByDeadline(bs, xs + ys)
  {
    var zs := xs + ys;
    forall j, k | 0 <= j < k < |zs|
      ensures Before(NoShows, bs, zs[j], zs[k])
    {
      if j < |xs| <= k {
        assert zs[j] in xs && zs[k] in ys;
      }
    }
  }

  // ---------------------------------------------------------------- the theorem

  function WithoutHoldCheckIns(db: Db): Db {
    db.(bookings := seq(|db.bookings|, i requires 0 <= i < |db.bookings| => WithoutHoldCheckIn(db.bookings[i])))
  }

  lemma RowsLazyIsEager(db: Db, t1: int, t2: int)
    requires t1 <= t2
    ensures WithoutHoldCheckIns(Lifecycle(Lifecycle(db, t1), t2)).bookings == WithoutHoldCheckIns(Lifecycle(db, t2)).bookings
  {
    var mid := Lifecycle(db, t1);
    LifecycleRows(db, t1);
    LifecycleRows(db, t2);
    LifecycleRows(mid, t2);
    forall i | 0 <= i < |db.bookings|
      ensures WithoutHoldCheckIns(Lifecycle(mid, t2)).bookings[i] == WithoutHoldCheckIns(Lifecycle(db, t2)).bookings[i]
    {
      RowLazyIsEager(db.bookings[i], db.site.incidents, t1, t2);
    }
  }

  lemma RejectMailConcat(db: Db, t1: int, t2: int)
    requires t1 <= t2
    ensures RejectMail(DueSet(Approvals, db.bookings, t2)) ==
      RejectMail(DueSet(Approvals, db.bookings, t1)) + RejectMail(DueSet(Approvals, Lifecycle(db, t1).bookings, t2))
  {
    var mid := Lifecycle(db, t1);
    LifecycleRows(db, t1);
    forall i: nat | i < |db.bookings|
      ensures IsDue(Approvals, db.bookings[i], t2) <==>
        IsDue(Approvals, db.bookings[i], t1) || IsDue(Approvals, mid.bookings[i], t2)
    {
      LiveAtOnce(db.bookings[i], db.site.incidents, t1);
    }
    assert DueSet(Approvals, db.bookings, t2) ==
      DueSet(Approvals, db.bookings, t1) + DueSet(Approvals, mid.bookings, t2);
  }

  /** A strike depends on the row's user and deadline and on the policy. */
  lemma StrikesSplit(e: Db, e1: Db, e2: Db, s1: seq<nat>, s2: seq<nat>)
    requires InTable(s1, e1.bookings) && InTable(s2, e2.bookings)
    requires CurrentPolicy(e1) == CurrentPolicy(e) && CurrentPolicy(e2) == CurrentPolicy(e)
    requires |e1.bookings| == |e.bookings| && |e2.bookings| == |e.bookings|
    requires forall i :: 0 <= i < |e.bookings| ==>
      && e1.bookings[i].user == e.bookings[i].user && DeadlineOf(e1.bookings[i]) == DeadlineOf(e.bookings[i])
      && e2.bookings[i].user == e.bookings[i].user && DeadlineOf(e2.bookings[i]) == DeadlineOf(e.bookings[i])
    ensures InTable(s1 + s2, e.bookings)
    ensures Strikes(e, s1 + s2) == Strikes(e1, s1) + Strikes(e2, s2)
  {
  }

  ghost predicate SameStrikes(e: Db, f: Db) {
    && CurrentPolicy(f) == CurrentPolicy(e) && |f.bookings| == |e.bookings|
    && forall i :: 0 <= i < |e.bookings| ==>
         f.bookings[i].user == e.bookings[i].user && DeadlineOf(f.bookings[i]) == DeadlineOf(e.bookings[i])
  }

  lemma ExpiryKeepsStrikes(db: Db, now: int)
    ensures SameStrikes(db, ExpireApprovals(db, now))
  {
  }

  lemma LifecycleKeepsStrikes(db: Db, now: int)
    ensures SameStrikes(db, Lifecycle(db, now))
  {
    LifecycleRows(db, now);
    forall i | 0 <= i < |db.bookings|
      ensures Lifecycle(db, now).bookings[i].user == db.bookings[i].user
      ensures DeadlineOf(Lifecycle(db, now).bookings[i]) == DeadlineOf(db.bookings[i])
    {
      LiveKeepsIdentity(db.bookings[i], db.site.incidents, now);
    }
    LifecycleKeepsRest(db, now);
  }

  lemma StrikesConcat(db: Db, mid: Db, t1: int, t2: int, s1: seq<nat>, s2: seq<nat>)
    requires SameStrikes(db, mid) && InTable(s1, db.bookings) && InTable(s2, mid.bookings)
    ensures InTable(s1, ExpireApprovals(db, t1).bookings) && InTable(s2, ExpireApprovals(mid, t2).bookings)
    ensures InTable(s1 + s2, ExpireApprovals(db, t2).bookings)
    ensures Strikes(ExpireApprovals(db, t2), s1 + s2) ==
      Strikes(ExpireApprovals(db, t1), s1) + Strikes(ExpireApprovals(mid, t2), s2)
  {
    ExpiryKeepsStrikes(db, t1);
    ExpiryKeepsStrikes(db, t2);
    ExpiryKeepsStrikes(mid, t2);
    StrikesSplit(ExpireApprovals(db, t2), ExpireApprovals(db, t1), ExpireApprovals(mid, t2), s1, s2);
  }

  /** The violations a run at `now` appends. */
  function NewStrikes(db: Db, now: int): seq<Violation> {
    var ids := StruckAt(db, now);
    Strikes(ExpireApprovals(db, now), ids)
  }

  lemma NewStrikesConcat(db: Db, t1: int, t2: int)
    requires t1 <= t2
    ensures NewStrikes(db, t2) == NewStrikes(db, t1) + NewStrikes(Lifecycle(db, t1), t2)
  {
    var mid := Lifecycle(db, t1);
    StruckConcat(db, t1, t2);
    LifecycleKeepsStrikes(db, t1);
    StruckAtMembers(db, t1, 0);
    StruckAtMembers(mid, t2, 0);
    StrikesConcat(db, mid, t1, t2, StruckAt(db, t1), StruckAt(mid, t2));
  }

  lemma LifecycleViolations(db: Db, now: int)
    ensures Lifecycle(db, now).violations == db.violations + NewStrikes(db, now)
  {
    LifecycleOthers(db, now);
  }

  lemma ViolationsLazyIsEager(db: Db, t1: int, t2: int)
    requires t1 <= t2
    ensures Lifecycle(Lifecycle(db, t1), t2).violations == Lifecycle(db, t2).violations
  {
    NewStrikesConcat(db, t1, t2);
    LifecycleViolations(db, t1);
    LifecycleViolations(db, t2);
    LifecycleViolations(Lifecycle(db, t1), t2);
    Appended(db.violations, NewStrikes(db, t1), NewStrikes(Lifecycle(db, t1), t2));
  }

  lemma Appended(vs: seq<Violation>, first: seq<Violation>, second: seq<Violation>)
    ensures (vs + first) + second == vs + (first + second)
  {
  }

  lemma OutboxLazyIsEager(db: Db, t1: int, t2: int)
    requires t1 <= t2
    ensures Lifecycle(Lifecycle(db, t1), t2).outbox == Lifecycle(db, t2).outbox
  {
    var mid := Lifecycle(db, t1);
    StruckConcat(db, t1, t2);
    RejectMailConcat(db, t1, t2);
    assert NoShowMail(StruckAt(db, t2)) == NoShowMail(StruckAt(db, t1)) + NoShowMail(StruckAt(mid, t2));
    LifecycleOutbox(db, t1);
    LifecycleOutbox(db, t2);
    LifecycleOutbox(mid, t2);
  }

  lemma LifecycleOutbox(db: Db, now: int)
    ensures Lifecycle(db, now).outbox ==
      db.outbox + RejectMail(DueSet(Approvals, db.bookings, now)) + NoShowMail(StruckAt(db, now))
  {
    LifecycleOthers(db, now);
  }

  lemma LifecycleKeepsRest(db: Db, now: int)
    ensures Lifecycle(db, now).suspensions == db.suspensions
    ensures Lifecycle(db, now).requests == db.requests && Lifecycle(db, now).site == db.site
  {
  }

  /** Lazy equals eager: the lifecycle passes at `t1` and again at `t2` leave the same tables as one
      run at `t2` - statuses, ends, violations with their keys, notices - except for the check-in
      time a staff hold is given if it was seen in progress. */
  lemma LazyEqualsEager(db: Db, t1: int, t2: int)
    requires t1 <= t2
    ensures WithoutHoldCheckIns(Lifecycle(Lifecycle(db, t1), t2)) == WithoutHoldCheckIns(Lifecycle(db, t2))
  {
    RowsLazyIsEager(db, t1, t2);
    ViolationsLazyIsEager(db, t1, t2);
    OutboxLazyIsEager(db, t1, t2);
    LifecycleKeepsRest(db, t1);
    LifecycleKeepsRest(db, t2);
    LifecycleKeepsRest(Lifecycle(db, t1), t2);
  }
}
