/** Reconciliation in terms of what is stored: what a completed run makes of every booking, which strikes it
    records and for how long they count, whom it suspends and until when, and which messages it queues. */
module FieldPasses {
  import opened Slots
  import opened Tables
  import opened Rules
  import opened Changes
  import opened Reconcile
  import opened Invariants
  import opened Ledgers
  import opened Soundness
  import opened LazyEager
  import opened FieldRules

  // ---------------------------------------------------------------- one booking

  /** The incident meets the booking's hour in its room. */
  predicate Excuses(incident: Incident, b: Booking) {
    && incident.startsAt < b.slot + HOUR && b.slot < incident.endsAt
    && (incident.rooms == {} || b.room in incident.rooms)
  }

  ghost predicate Excused(incidents: seq<Incident>, b: Booking) {
    exists k :: 0 <= k < |incidents| && Excuses(incidents[k], b)
  }

  /** A student's reservation nobody checked in to before the deadline. */
  predicate Overran(b: Booking, now: int) {
    b.status == Scheduled && !b.staff && b.deadline != None && b.deadline.value <= now
  }

  lemma ExcusedExactly(incidents: seq<Incident>, b: Booking)
    ensures Covered(incidents, b) <==> Excused(incidents, b)
  {
    if Covered(incidents, b) {
      var k :| 0 <= k < |incidents| && IncidentCovers(incidents[k], b);
      assert Excuses(incidents[k], b);
    }
    if Excused(incidents, b) {
      var k :| 0 <= k < |incidents| && Excuses(incidents[k], b);
      assert IncidentCovers(incidents[k], b);
    }
  }

  /** What each pass finds due. */
  lemma DueExactly(b: Booking, now: int)
    ensures IsDue(Approvals, b, now) <==> b.status == PendingApproval && b.slot <= now
    ensures IsDue(NoShows, b, now) <==> Overran(b, now)
    ensures IsDue(Holds, b, now) <==> b.status == Scheduled && b.staff && b.slot <= now < b.slot + HOUR
    ensures IsDue(Completions, b, now) <==>
      (b.status == InUse || (b.status == Scheduled && b.staff)) && b.slot + HOUR <= now
  {
  }

  /** What the four lifecycle passes make of a booking. */
  function Passed(b: Booking, excused: bool, now: int): Booking {
    match b.status
    case PendingApproval => if b.slot <= now then b.(status := Rejected) else b
    case Scheduled =>
      if !b.staff then if Overran(b, now) && !excused then b.(status := NoShow) else b
      else if now < b.slot then b
      else if now < b.slot + HOUR then b.(status := InUse, checkedInAt := Some(b.slot))
      else b.(status := Completed, actualEnd := Some(b.slot + HOUR))
    case InUse => if b.slot + HOUR <= now then b.(status := Completed, actualEnd := Some(b.slot + HOUR)) else b
    case _ => b
  }

  lemma PassedRow(b: Booking, incidents: seq<Incident>, now: int)
    ensures Live(b, incidents, now) == Passed(b, Excused(incidents, b), now)
  {
    LiveAtOnce(b, incidents, now);
    ExcusedExactly(incidents, b);
  }

  lemma PassedExactly(db: Db, now: int)
    ensures var bs, cs := db.bookings, Lifecycle(db, now).bookings;
      |cs| == |bs| && forall i :: 0 <= i < |bs| ==> cs[i] == Passed(bs[i], Excused(db.site.incidents, bs[i]), now)
  {
    LifecycleRows(db, now);
    PassedRows(db, Lifecycle(db, now).bookings, now);
  }

  lemma PassedRows(db: Db, cs: seq<Booking>, now: int)
    requires |cs| == |db.bookings|
    requires forall i :: 0 <= i < |cs| ==> cs[i] == Live(db.bookings[i], db.site.incidents, now)
    ensures forall i :: 0 <= i < |cs| ==> cs[i] == Passed(db.bookings[i], Excused(db.site.incidents, db.bookings[i]), now)
  {
    forall i | 0 <= i < |cs|
      ensures cs[i] == Passed(db.bookings[i], Excused(db.site.incidents, db.bookings[i]), now)
    {
      PassedRow(db.bookings[i], db.site.incidents, now);
    }
  }

  // ---------------------------------------------------------------- strikes

  /** The run records a missed hour for the booking. */
  ghost predicate MissesHour(db: Db, i: nat, now: int) {
    && i < |db.bookings| && Overran(db.bookings[i], now) && !Excused(db.site.incidents, db.bookings[i])
    && forall k :: 0 <= k < |db.violations| ==> !(db.violations[k].noShow && db.violations[k].booking == Some(i))
  }

  /** The violation is the missed hour of booking `i`, dated at its deadline, and counts from then for the strike
      window of the policy. */
  ghost predicate RecordsMiss(v: Violation, i: nat, b: Booking, policy: Policy) {
    && v.booking == Some(i) && v.noShow && v.user == b.user && v.counts
    && v.voidedAt == None && v.consumedBy == None && v.incident == None
    && b.deadline == Some(v.occurredAt) && v.expiresAt == v.occurredAt + policy.strikeWindow * DAY
  }

  ghost predicate RecordedBefore(v: Violation, w: Violation) {
    && v.booking != None && w.booking != None
    && (v.occurredAt < w.occurredAt || (v.occurredAt == w.occurredAt && v.booking.value < w.booking.value))
  }

  /** The violations from number `n` on record missed hours. */
  ghost predicate OnlyMisses(db: Db, ws: seq<Violation>, n: nat, now: int) {
    forall k :: n <= k < |ws| ==>
      && ws[k].booking != None && MissesHour(db, ws[k].booking.value, now)
      && RecordsMiss(ws[k], ws[k].booking.value, db.bookings[ws[k].booking.value], CurrentPolicy(db))
  }

  ghost predicate RecordedFrom(ws: seq<Violation>, n: nat, i: nat) {
    exists k :: n <= k < |ws| && ws[k].booking == Some(i)
  }

  ghost predicate AllMisses(db: Db, ws: seq<Violation>, n: nat, now: int) {
    forall i: nat :: MissesHour(db, i, now) ==> RecordedFrom(ws, n, i)
  }

  ghost predicate InDeadlineOrder(ws: seq<Violation>, n: nat) {
    forall j, k :: n <= j < k < |ws| ==> RecordedBefore(ws[j], ws[k])
  }

  /** Exactly the missed hours are recorded, each once, in the order of their deadlines. */
  ghost predicate MissesRecorded(db: Db, ws: seq<Violation>, now: int) {
    var n := |db.violations|;
    && n <= |ws| && ws[..n] == db.violations
    && OnlyMisses(db, ws, n, now) && AllMisses(db, ws, n, now) && InDeadlineOrder(ws, n)
  }

  lemma StruckExactly(db: Db, now: int, i: nat)
    ensures i in StruckAt(db, now) <==> MissesHour(db, i, now)
  {
    StruckAtMembers(db, now, i);
    if i < |db.bookings| {
      ExcusedExactly(db.site.incidents, db.bookings[i]);
    }
    if !MissesHour(db, i, now) && i < |db.bookings| && Overran(db.bookings[i], now)
       && !Excused(db.site.incidents, db.bookings[i])
    {
      var k :| 0 <= k < |db.violations| && db.violations[k].noShow && db.violations[k].booking == Some(i);
      assert HasNoShow(db.violations, i);
    }
  }

  lemma EveryMissListed(db: Db, ids: seq<nat>, ws: seq<Violation>, n: nat, now: int)
    requires |ws| == n + |ids| && forall i: nat :: MissesHour(db, i, now) ==> i in ids
    requires forall k :: 0 <= k < |ids| ==> ws[n + k].booking == Some(ids[k])
    ensures AllMisses(db, ws, n, now)
  {
    forall i: nat | MissesHour(db, i, now)
      ensures RecordedFrom(ws, n, i)
    {
      var j :| 0 <= j < |ids| && ids[j] == i;
      assert ws[n + j].booking == Some(i);
    }
  }

  lemma OnlyMissesListed(db: Db, ids: seq<nat>, ws: seq<Violation>, n: nat, now: int)
    requires |ws| == n + |ids| && forall k :: 0 <= k < |ids| ==> ids[k] < |db.bookings| && MissesHour(db, ids[k], now)
    requires forall k :: 0 <= k < |ids| ==> RecordsMiss(ws[n + k], ids[k], db.bookings[ids[k]], CurrentPolicy(db))
    ensures OnlyMisses(db, ws, n, now)
  {
    forall k | n <= k < |ws|
      ensures ws[k].booking == Some(ids[k - n])
      ensures RecordsMiss(ws[k], ids[k - n], db.bookings[ids[k - n]], CurrentPolicy(db))
    {
      assert ws[k] == ws[n + (k - n)];
    }
  }

  lemma DeadlineOrderListed(bs: seq<Booking>, ids: seq<nat>, ws: seq<Violation>, n: nat)
    requires |ws| == n + |ids| && Ordered(NoShows, bs, ids)
    requires forall k :: 0 <= k < |ids| ==> ws[n + k].booking == Some(ids[k]) && ws[n + k].occurredAt == DeadlineOf(bs[ids[k]])
    ensures InDeadlineOrder(ws, n)
  {
    forall j, k | n <= j < k < |ws|
      ensures RecordedBefore(ws[j], ws[k])
    {
      assert ws[n + (j - n)] == ws[j] && ws[n + (k - n)] == ws[k];
      assert Before(NoShows, bs, ids[j - n], ids[k - n]);
    }
  }

  lemma StrikeRecords(e: Db, db: Db, i: nat)
    requires i < |db.bookings| && e.site == db.site && db.bookings[i].deadline != None
    ensures RecordsMiss(Strike(db.bookings[i], i, CurrentPolicy(e)), i, db.bookings[i], CurrentPolicy(db))
  {
  }

  lemma MissesListed(db: Db, e: Db, ids: seq<nat>, now: int)
    requires e.site == db.site && e.bookings == MapRows(db.bookings, ExpireApproval(now))
    requires Ordered(NoShows, db.bookings, ids) && forall i: nat :: i in ids <==> MissesHour(db, i, now)
    ensures InTable(ids, e.bookings) && MissesRecorded(db, db.violations + Strikes(e, ids), now)
  {
    var n, ws := |db.violations|, db.violations + Strikes(e, ids);
    forall k | 0 <= k < |ids|
      ensures MissesHour(db, ids[k], now) && ws[n + k].occurredAt == DeadlineOf(db.bookings[ids[k]])
      ensures RecordsMiss(ws[n + k], ids[k], db.bookings[ids[k]], CurrentPolicy(db))
    {
      assert ids[k] in ids && MissesHour(db, ids[k], now);
      assert e.bookings[ids[k]] == Apply(ExpireApproval(now), db.bookings[ids[k]]) == db.bookings[ids[k]];
      StrikeRecords(e, db, ids[k]);
    }
    OnlyMissesListed(db, ids, ws, n, now);
    EveryMissListed(db, ids, ws, n, now);
    DeadlineOrderListed(db.bookings, ids, ws, n);
  }

  lemma MissesAreRecorded(db: Db, now: int)
    ensures MissesRecorded(db, Lifecycle(db, now).violations, now)
  {
    LifecycleOthers(db, now);
    StruckAtMembers(db, now, 0);
    forall i: nat
      ensures i in StruckAt(db, now) <==> MissesHour(db, i, now)
    {
      StruckExactly(db, now, i);
    }
    MissesListed(db, ExpireApprovals(db, now), StruckAt(db, now), now);
  }

  // ---------------------------------------------------------------- who has how many strikes

  /** The violation counts against the user at `now`. */
  predicate Counts(v: Violation, user: nat, now: int) {
    v.user == user && v.counts && v.voidedAt == None && v.consumedBy == None && v.occurredAt <= now < v.expiresAt
  }

  ghost function CountingStrikes(vs: seq<Violation>, user: nat, now: int): set<nat> {
    set k: nat | k < |vs| && Counts(vs[k], user, now)
  }

  lemma StrikesExactly(vs: seq<Violation>, user: nat, now: int)
    ensures StrikeIds(vs, user, now) == CountingStrikes(vs, user, now)
  {
  }

  /** The missed hours of the user the run records that still count at `now`. */
  ghost function FreshMisses(db: Db, user: nat, now: int): set<nat> {
    set i: nat | i < |db.bookings| && MissesHour(db, i, now) && db.bookings[i].user == user
      && now < db.bookings[i].deadline.value + CurrentPolicy(db).strikeWindow * DAY
  }

  /** The missed hours of the user among the first `n` violations. */
  ghost function FreshAmong(db: Db, ws: seq<Violation>, n: nat, user: nat, now: int): set<nat>
    requires |db.violations| <= n <= |ws|
  {
    set i | i in FreshMisses(db, user, now) && RecordedFrom(ws[..n], |db.violations|, i)
  }

  lemma RecordedLast(ws: seq<Violation>, n: nat, m: nat, i: nat)
    requires m < n <= |ws|
    ensures RecordedFrom(ws[..n], m, i) <==> RecordedFrom(ws[..n - 1], m, i) || ws[n - 1].booking == Some(i)
  {
    if RecordedFrom(ws[..n - 1], m, i) {
      var k :| m <= k < n - 1 && ws[..n - 1][k].booking == Some(i);
      assert ws[..n][k].booking == Some(i);
    }
    if ws[n - 1].booking == Some(i) {
      assert ws[..n][n - 1].booking == Some(i);
    }
    if RecordedFrom(ws[..n], m, i) {
      var k :| m <= k < n && ws[..n][k].booking == Some(i);
      assert k < n - 1 ==> ws[..n - 1][k].booking == Some(i);
    }
  }

  lemma NotRecordedEarlier(db: Db, ws: seq<Violation>, n: nat, now: int)
    requires |db.violations| < n <= |ws| && MissesRecorded(db, ws, now)
    ensures ws[n - 1].booking != None && !RecordedFrom(ws[..n - 1], |db.violations|, ws[n - 1].booking.value)
  {
    var m := |db.violations|;
    forall k | m <= k < n - 1
      ensures ws[k].booking != ws[n - 1].booking
    {
      assert RecordedBefore(ws[k], ws[n - 1]);
    }
  }

  lemma OneMoreFresh(db: Db, ws: seq<Violation>, n: nat, user: nat, now: int)
    requires |db.violations| < n <= |ws| && MissesRecorded(db, ws, now)
    ensures |FreshAmong(db, ws, n, user, now)| ==
      |FreshAmong(db, ws, n - 1, user, now)| + if Counts(ws[n - 1], user, now) then 1 else 0
  {
    var i := ws[n - 1].booking.value;
    var before, after := FreshAmong(db, ws, n - 1, user, now), FreshAmong(db, ws, n, user, now);
    assert RecordsMiss(ws[n - 1], i, db.bookings[i], CurrentPolicy(db)) && MissesHour(db, i, now);
    NotRecordedEarlier(db, ws, n, now);
    forall x: nat
      ensures x in after <==> x in before || (x == i && Counts(ws[n - 1], user, now))
    {
      RecordedLast(ws, n, |db.violations|, x);
    }
    assert after == before + if Counts(ws[n - 1], user, now) then {i} else {};
  }

  lemma OneMoreCounting(vs: seq<Violation>, v: Violation, user: nat, now: int)
    ensures |CountingStrikes(vs + [v], user, now)| ==
      |CountingStrikes(vs, user, now)| + if Counts(v, user, now) then 1 else 0
  {
    var a, b := CountingStrikes(vs, user, now), CountingStrikes(vs + [v], user, now);
    assert b == a + if Counts(v, user, now) then {|vs|} else {};
  }

  /** As many strikes are added as missed hours. */
  lemma {:induction false} FreshCounted(db: Db, ws: seq<Violation>, n: nat, user: nat, now: int)
    requires |db.violations| <= n <= |ws| && MissesRecorded(db, ws, now)
    ensures |CountingStrikes(ws[..n], user, now)| ==
      |CountingStrikes(db.violations, user, now)| + |FreshAmong(db, ws, n, user, now)|
  {
    if n == |db.violations| {
      assert FreshAmong(db, ws, n, user, now) == {};
    } else {
      FreshCounted(db, ws, n - 1, user, now);
      OneMoreFresh(db, ws, n, user, now);
      OneMoreCounting(ws[..n - 1], ws[n - 1], user, now);
      assert ws[..n] == ws[..n - 1] + [ws[n - 1]];
    }
  }

  /** After the lifecycle passes a user has the strikes from before and the missed hours just recorded. */
  lemma StrikesAfterPasses(db: Db, now: int, user: nat)
    ensures |CountingStrikes(Lifecycle(db, now).violations, user, now)| ==
      |CountingStrikes(db.violations, user, now)| + |FreshMisses(db, user, now)|
  {
    var ws := Lifecycle(db, now).violations;
    MissesAreRecorded(db, now);
    assert ws[..|ws|] == ws;
    FreshCounted(db, ws, |ws|, user, now);
    AllAreFresh(db, ws, user, now);
  }

  lemma AllAreFresh(db: Db, ws: seq<Violation>, user: nat, now: int)
    requires MissesRecorded(db, ws, now)
    ensures FreshAmong(db, ws, |ws|, user, now) == FreshMisses(db, user, now)
  {
    assert ws[..|ws|] == ws;
    assert forall i :: i in FreshMisses(db, user, now) ==> MissesHour(db, i, now);
  }

  /** The run suspends the user: not barred yet, and the strikes with the missed hours reach the threshold. */
  ghost predicate Punishes(db: Db, user: nat, now: int) {
    && !Barred(db, user, now)
    && |CountingStrikes(db.violations, user, now)| + |FreshMisses(db, user, now)| >= CurrentPolicy(db).threshold
  }

  lemma OffendersExactly(db: Db, user: nat, now: int)
    requires CurrentPolicy(db).threshold >= 1
    ensures user in Offenders(db, now) <==> |CountingStrikes(db.violations, user, now)| >= CurrentPolicy(db).threshold
  {
    StrikesExactly(db.violations, user, now);
    if |StrikeIds(db.violations, user, now)| >= CurrentPolicy(db).threshold {
      assert StrikeIds(db.violations, user, now) != {};
      var k :| k in StrikeIds(db.violations, user, now);
      assert StrikeOf(db.violations[k], user, now);
    }
  }

  // ---------------------------------------------------------------- suspensions

  /** A suspension for strikes: from now on, for the days the policy says. */
  ghost predicate IsPunishment(s: Suspension, now: int, policy: Policy) {
    && s.startsAt == now && s.endsAt == Some(now + policy.suspensionDays * DAY) && s.liftedAt == None
    && s.auto && s.threshold == policy.threshold && s.endNotifiedAt == None
  }

  ghost predicate SuspendedFrom(ts: seq<Suspension>, n: nat, user: nat) {
    exists s :: n <= s < |ts| && ts[s].user == user
  }

  /** The chosen users, and nobody else, get one suspension each. */
  ghost predicate SuspensionsGiven(db: Db, ts: seq<Suspension>, chosen: set<nat>, now: int) {
    var n := |db.suspensions|;
    && n <= |ts| && ts[..n] == db.suspensions
    && (forall s :: n <= s < |ts| ==> ts[s].user in chosen && IsPunishment(ts[s], now, CurrentPolicy(db)))
    && (forall u :: u in chosen ==> SuspendedFrom(ts, n, u))
    && (forall s, t :: n <= s < t < |ts| ==> ts[s].user != ts[t].user)
  }

  /** `w` is `v` consumed by the new suspension of its user. */
  ghost predicate Consumed(v: Violation, w: Violation, ts: seq<Suspension>, n: nat) {
    && w.consumedBy != None && n <= w.consumedBy.value < |ts| && ts[w.consumedBy.value].user == v.user
    && w == v.(consumedBy := w.consumedBy)
  }

  /** Each chosen user's suspension consumes every strike that counts; no other violation changes. */
  ghost predicate StrikesConsumed(vs: seq<Violation>, ws: seq<Violation>, ts: seq<Suspension>, n: nat, chosen: set<nat>,
                                  now: int)
  {
    && |ws| == |vs|
    && forall k :: 0 <= k < |vs| ==>
         if vs[k].user in chosen && Counts(vs[k], vs[k].user, now) then Consumed(vs[k], ws[k], ts, n) else ws[k] == vs[k]
  }

  function CancelledIf(b: Booking, chosen: set<nat>, now: int): Booking {
    if b.user in chosen && (b.status == PendingApproval || b.status == Scheduled)
    then b.(status := Cancelled, cancelledAt := Some(now), cancelReason := Some(BySuspension), late := false)
    else b
  }

  ghost predicate BookingsCancelled(bs: seq<Booking>, cs: seq<Booking>, chosen: set<nat>, now: int) {
    |cs| == |bs| && forall i :: 0 <= i < |bs| ==> cs[i] == CancelledIf(bs[i], chosen, now)
  }

  /** A new suspension is announced, and so is every booking cancelled for it. */
  ghost predicate SuspensionMail(db: Db, m: Mail, n: nat, chosen: set<nat>) {
    || (m.SuspensionApplied? && |db.suspensions| <= m.suspension < n)
    || (m.BookingCancelled? && m.booking < |db.bookings| && db.bookings[m.booking].user in chosen
        && (db.bookings[m.booking].status == PendingApproval || db.bookings[m.booking].status == Scheduled))
  }

  ghost predicate Punished(db: Db, next: Db, chosen: set<nat>, now: int) {
    && SuspensionsGiven(db, next.suspensions, chosen, now)
    && StrikesConsumed(db.violations, next.violations, next.suspensions, |db.suspensions|, chosen, now)
    && BookingsCancelled(db.bookings, next.bookings, chosen, now)
    && (forall m :: m in next.outbox <==> m in db.outbox || SuspensionMail(db, m, |next.suspensions|, chosen))
    && next.site == db.site && next.requests == db.requests
  }

  lemma BarredAsBefore(db: Db, rest: Db, chosen: set<nat>, user: nat, now: int)
    requires SuspensionsGiven(db, rest.suspensions, chosen, now) && user !in chosen
    ensures Barred(rest, user, now) <==> Barred(db, user, now)
  {
    var ss, ts := db.suspensions, rest.suspensions;
    assert forall k :: 0 <= k < |ss| ==> ts[k] == ts[..|ss|][k];
    if Barred(db, user, now) {
      var k :| 0 <= k < |ss| && Bars(ss[k], user, now);
      assert Bars(ts[k], user, now);
    }
    if Barred(rest, user, now) {
      var k :| 0 <= k < |ts| && Bars(ts[k], user, now);
      assert k < |ss|;
      assert Bars(ss[k], user, now);
    }
  }

  lemma OneMoreSuspension(db: Db, ss: seq<Suspension>, s: Suspension, chosen: set<nat>, now: int)
    requires SuspensionsGiven(db, ss, chosen, now) && s.user !in chosen && IsPunishment(s, now, CurrentPolicy(db))
    ensures SuspensionsGiven(db, ss + [s], chosen + {s.user}, now)
  {
    var n, ts := |db.suspensions|, ss + [s];
    assert ts[..n] == ss[..n];
    forall u | u in chosen + {s.user}
      ensures SuspendedFrom(ts, n, u)
    {
      if u in chosen {
        var k :| n <= k < |ss| && ss[k].user == u;
        assert ts[k].user == u;
      } else {
        assert ts[|ss|].user == u;
      }
    }
  }

  lemma OneMoreConsumes(vs: seq<Violation>, ws: seq<Violation>, ts: seq<Suspension>, n: nat, chosen: set<nat>,
                        user: nat, s: Suspension, now: int)
    requires StrikesConsumed(vs, ws, ts, n, chosen, now) && user !in chosen && s.user == user && n <= |ts|
    ensures StrikesConsumed(vs, ConsumeStrikes(ws, user, |ts|, now), ts + [s], n, chosen + {user}, now)
  {
    var xs := ConsumeStrikes(ws, user, |ts|, now);
    forall k | 0 <= k < |vs|
      ensures if vs[k].user in chosen + {user} && Counts(vs[k], vs[k].user, now) then Consumed(vs[k], xs[k], ts + [s], n)
              else xs[k] == vs[k]
    {
      assert xs[k] == Consume(ws[k], user, |ts|, now);
    }
  }

  lemma OneMoreCancels(bs: seq<Booking>, cs: seq<Booking>, chosen: set<nat>, user: nat, now: int)
    requires BookingsCancelled(bs, cs, chosen, now)
    ensures BookingsCancelled(bs, MapRows(cs, CancelOpenOf(user, now, BySuspension)), chosen + {user}, now)
  {
  }

  lemma OneMoreMail(db: Db, rest: Db, chosen: set<nat>, user: nat, now: int)
    requires Punished(db, rest, chosen, now) && user !in chosen
    ensures var next := AutoSuspend(rest, user, now);
      forall m :: m in next.outbox <==>
        m in db.outbox || SuspensionMail(db, m, |rest.suspensions| + 1, chosen + {user})
  {
    var change := CancelOpenOf(user, now, BySuspension);
    forall i: nat
      ensures i in CancelledBy(rest.bookings, change) <==>
        i < |db.bookings| && db.bookings[i].user == user
        && (db.bookings[i].status == PendingApproval || db.bookings[i].status == Scheduled)
    {
      assert i < |db.bookings| ==> rest.bookings[i] == CancelledIf(db.bookings[i], chosen, now);
    }
    var next := AutoSuspend(rest, user, now);
    assert next.outbox == rest.outbox + {SuspensionApplied(|rest.suspensions|)}
                          + CancelMail(CancelledBy(rest.bookings, change));
  }

  lemma OneMorePunished(db: Db, rest: Db, chosen: set<nat>, user: nat, now: int)
    requires Punished(db, rest, chosen, now) && user !in chosen && CurrentPolicy(db).threshold >= 0
    ensures Punished(db, AutoSuspend(rest, user, now), chosen + {user}, now)
  {
    var s := AutomaticSuspension(user, now, CurrentPolicy(rest));
    OneMoreSuspension(db, rest.suspensions, s, chosen, now);
    OneMoreConsumes(db.violations, rest.violations, rest.suspensions, |db.suspensions|, chosen, user, s, now);
    OneMoreCancels(db.bookings, rest.bookings, chosen, user, now);
    OneMoreMail(db, rest, chosen, user, now);
  }

  ghost function ChosenOf(db: Db, users: seq<nat>, now: int): set<nat> {
    set u | u in users && !Barred(db, u, now)
  }

  lemma {:induction false} AllPunished(db: Db, users: seq<nat>, now: int)
    requires Soundness.Distinct(users) && CurrentPolicy(db).threshold >= 0
    ensures Punished(db, SuspendAll(db, users, now), ChosenOf(db, users, now), now)
    decreases |users|
  {
    if users == [] {
      assert ChosenOf(db, users, now) == {};
    } else {
      var front, last := users[..|users| - 1], users[|users| - 1];
      AllPunished(db, front, now);
      var rest, chosen := SuspendAll(db, front, now), ChosenOf(db, front, now);
      assert last !in chosen;
      BarredAsBefore(db, rest, chosen, last, now);
      BarredExactly(rest, last, now);
      if Barred(db, last, now) {
        assert ChosenOf(db, users, now) == chosen;
      } else {
        assert ChosenOf(db, users, now) == chosen + {last};
        OneMorePunished(db, rest, chosen, last, now);
      }
    }
  }

  /** The threshold pass punishes exactly the users at the threshold that are not barred. */
  lemma ThresholdsExactly(db: Db, chosen: set<nat>, now: int)
    requires SiteValid(db.site)
    requires forall u :: u in chosen <==>
      !Barred(db, u, now) && |CountingStrikes(db.violations, u, now)| >= CurrentPolicy(db).threshold
    ensures Punished(db, ApplyThresholds(db, now), chosen, now)
  {
    PolicyValid(db);
    var users := Offenders(db, now);
    ReachingDistinct(db.violations, Strikers(db.violations, now), CurrentPolicy(db).threshold, now);
    AllPunished(db, users, now);
    forall u
      ensures u in ChosenOf(db, users, now) <==> u in chosen
    {
      OffendersExactly(db, u, now);
    }
    assert ChosenOf(db, users, now) == chosen;
  }

  // ---------------------------------------------------------------- announced ends

  /** The suspension is over, was not lifted, and its end is not announced yet. */
  predicate Ends(s: Suspension, now: int) {
    s.liftedAt == None && s.endsAt != None && s.endsAt.value <= now && s.endNotifiedAt == None
  }

  lemma EndsExactly(db: Db, now: int)
    ensures var next := NotifyFinished(db, now);
      && next == db.(suspensions := next.suspensions, outbox := next.outbox)
      && |next.suspensions| == |db.suspensions|
      && (forall s :: 0 <= s < |db.suspensions| ==>
            next.suspensions[s] == if Ends(db.suspensions[s], now) then db.suspensions[s].(endNotifiedAt := Some(now))
                                   else db.suspensions[s])
      && (forall m :: m in next.outbox <==>
            m in db.outbox || (m.SuspensionEnded? && m.suspension < |db.suspensions| && Ends(db.suspensions[m.suspension], now)))
  {
    var next := NotifyFinished(db, now);
    forall s | 0 <= s < |db.suspensions|
      ensures next.suspensions[s] == MarkEnded(db.suspensions[s], now)
    {
    }
  }

  // ---------------------------------------------------------------- a whole run

  /** The users the run punishes. */
  ghost function PunishedUsers(db: Db, now: int): set<nat> {
    ChosenOf(Lifecycle(db, now), Offenders(Lifecycle(db, now), now), now)
  }

  lemma PassesKeepSite(db: Db, now: int)
    ensures Lifecycle(db, now).suspensions == db.suspensions && Lifecycle(db, now).site == db.site
    ensures Lifecycle(db, now).requests == db.requests
  {
  }

  lemma SameBars(db: Db, next: Db, user: nat, now: int)
    requires next.suspensions == db.suspensions
    ensures Barred(next, user, now) <==> Barred(db, user, now)
  {
  }

  lemma ChosenAre(db: Db, mid: Db, user: nat, now: int)
    requires SiteValid(db.site) && mid.suspensions == db.suspensions && mid.site == db.site
    requires |CountingStrikes(mid.violations, user, now)| ==
      |CountingStrikes(db.violations, user, now)| + |FreshMisses(db, user, now)|
    ensures user in ChosenOf(mid, Offenders(mid, now), now) <==> Punishes(db, user, now)
  {
    PolicyValid(db);
    SameBars(db, mid, user, now);
    OffendersExactly(mid, user, now);
  }

  lemma PunishedUsersAre(db: Db, user: nat, now: int)
    requires SiteValid(db.site)
    ensures user in PunishedUsers(db, now) <==> Punishes(db, user, now)
  {
    PassesKeepSite(db, now);
    StrikesAfterPasses(db, now, user);
    ChosenAre(db, Lifecycle(db, now), user, now);
  }

  lemma PassesPunish(db: Db, now: int)
    requires SiteValid(db.site)
    ensures Punished(Lifecycle(db, now), ApplyThresholds(Lifecycle(db, now), now), PunishedUsers(db, now), now)
  {
    PolicyValid(db);
    PassesKeepSite(db, now);
    var mid := Lifecycle(db, now);
    ReachingDistinct(mid.violations, Strikers(mid.violations, now), CurrentPolicy(mid).threshold, now);
    AllPunished(mid, Offenders(mid, now), now);
  }

  /** The state after the lifecycle passes, after the thresholds and at the end of a run. */
  ghost predicate Stages(db: Db, mid: Db, given: Db, next: Db, now: int) {
    mid == Lifecycle(db, now) && given == ApplyThresholds(mid, now) && next == NotifyFinished(given, now)
  }

  /** What the stages of a run do, one after the other. */
  ghost predicate Worked(db: Db, mid: Db, given: Db, next: Db, chosen: set<nat>, now: int) {
    && mid.suspensions == db.suspensions && mid.site == db.site && |mid.bookings| == |db.bookings|
    && (forall i :: 0 <= i < |db.bookings| ==>
          mid.bookings[i] == Passed(db.bookings[i], Excused(db.site.incidents, db.bookings[i]), now))
    && MissesRecorded(db, mid.violations, now)
    && (forall u :: u in chosen <==> Punishes(db, u, now))
    && Punished(mid, given, chosen, now)
    && next.bookings == given.bookings && next.violations == given.violations
    && Marked(given.suspensions, next.suspensions, now)
  }

  ghost predicate Marked(ss: seq<Suspension>, ts: seq<Suspension>, now: int) {
    && |ts| == |ss|
    && forall s :: 0 <= s < |ss| ==> ts[s] == if Ends(ss[s], now) then ss[s].(endNotifiedAt := Some(now)) else ss[s]
  }

  lemma StagesWork(db: Db, mid: Db, given: Db, next: Db, now: int)
    requires SiteValid(db.site) && Stages(db, mid, given, next, now)
    ensures Worked(db, mid, given, next, PunishedUsers(db, now), now)
  {
    PassesKeepSite(db, now);
    PassedExactly(db, now);
    MissesAreRecorded(db, now);
    PassesPunish(db, now);
    EndsExactly(given, now);
    forall u
      ensures u in PunishedUsers(db, now) <==> Punishes(db, u, now)
    {
      PunishedUsersAre(db, u, now);
    }
  }

  lemma CompletedStages(db: Db, now: int, budget: nat)
    requires Run(db, now, budget).complete
    ensures Stages(db, Lifecycle(db, now), ApplyThresholds(Lifecycle(db, now), now), Run(db, now, budget).db, now)
  {
    CompleteRun(db, now, budget);
  }

  ghost predicate BookingWorked(db: Db, next: Db, now: int, i: nat) {
    && i < |db.bookings| == |next.bookings|
    && var b := Passed(db.bookings[i], Excused(db.site.incidents, db.bookings[i]), now);
       next.bookings[i] == if Punishes(db, b.user, now) && (b.status == PendingApproval || b.status == Scheduled)
                           then b.(status := Cancelled, cancelledAt := Some(now), cancelReason := Some(BySuspension),
                                   late := false)
                           else b
  }

  lemma BookingsWork(db: Db, mid: Db, given: Db, next: Db, chosen: set<nat>, now: int, i: nat)
    requires Worked(db, mid, given, next, chosen, now) && i < |db.bookings|
    ensures BookingWorked(db, next, now, i)
  {
    assert given.bookings[i] == CancelledIf(mid.bookings[i], chosen, now);
  }

  /** What a completed run makes of every booking: the lifecycle first, and then everything its holder still has
      open is cancelled if the run punishes the holder. */
  lemma RunBookings(db: Db, now: int, budget: nat, i: nat)
    requires SiteValid(db.site) && Run(db, now, budget).complete && i < |db.bookings|
    ensures BookingWorked(db, Run(db, now, budget).db, now, i)
  {
    CompletedStages(db, now, budget);
    var mid := Lifecycle(db, now);
    var given, next := ApplyThresholds(mid, now), Run(db, now, budget).db;
    StagesWork(db, mid, given, next, now);
    BookingsWork(db, mid, given, next, PunishedUsers(db, now), now, i);
  }

  /** The violation, unvoided, is a strike of the user from `starts` until before `ends` if nothing has consumed it. */
  ghost predicate CountsExactlyIn(v: Violation, user: nat, starts: int, ends: int) {
    && v.user == user && v.occurredAt == starts && v.voidedAt == None
    && forall t :: EligibleStrike(v.(consumedBy := None), t) <==> starts <= t < ends
  }

  /** The missed hour of booking `i` is recorded, and counts from its deadline for the strike window. */
  ghost predicate MissCounts(db: Db, ws: seq<Violation>, i: nat) {
    && i < |db.bookings| && db.bookings[i].deadline != None
    && exists k :: |db.violations| <= k < |ws| && ws[k].booking == Some(i) && ws[k].noShow
                   && CountsExactlyIn(ws[k], db.bookings[i].user, db.bookings[i].deadline.value,
                                      db.bookings[i].deadline.value + CurrentPolicy(db).strikeWindow * DAY)
  }

  lemma MissesCount(db: Db, mid: Db, given: Db, next: Db, chosen: set<nat>, now: int, i: nat)
    requires Worked(db, mid, given, next, chosen, now) && MissesHour(db, i, now)
    ensures MissCounts(db, next.violations, i)
  {
    assert RecordedFrom(mid.violations, |db.violations|, i);
    var k :| |db.violations| <= k < |mid.violations| && mid.violations[k].booking == Some(i);
    var v := next.violations[k];
    assert RecordsMiss(mid.violations[k], i, db.bookings[i], CurrentPolicy(db));
    assert v == mid.violations[k].(consumedBy := v.consumedBy);
    assert CountsExactlyIn(v, db.bookings[i].user, db.bookings[i].deadline.value,
                           db.bookings[i].deadline.value + CurrentPolicy(db).strikeWindow * DAY);
  }

  /** Every missed hour a completed run records counts from its deadline for exactly the strike window of the
      policy in force, for as long as it is neither voided nor consumed. */
  lemma RunStrikes(db: Db, now: int, budget: nat, i: nat)
    requires SiteValid(db.site) && Run(db, now, budget).complete && MissesHour(db, i, now)
    ensures MissCounts(db, Run(db, now, budget).db.violations, i)
  {
    CompletedStages(db, now, budget);
    var mid := Lifecycle(db, now);
    var given, next := ApplyThresholds(mid, now), Run(db, now, budget).db;
    StagesWork(db, mid, given, next, now);
    MissesCount(db, mid, given, next, PunishedUsers(db, now), now, i);
  }

  /** No violation appears but missed hours, each once. The old ones change only as they are consumed: by the new
      suspension of their user, exactly if they counted and the run punishes that user. */
  ghost predicate ViolationsWorked(db: Db, next: Db, now: int) {
    var vs, ws := db.violations, next.violations;
    && |vs| <= |ws|
    && (forall k :: |vs| <= k < |ws| ==> ws[k].booking != None && MissesHour(db, ws[k].booking.value, now))
    && (forall j, k :: |vs| <= j < k < |ws| ==> ws[j].booking != ws[k].booking)
    && (forall k :: 0 <= k < |vs| ==>
          if Punishes(db, vs[k].user, now) && Counts(vs[k], vs[k].user, now)
          then Consumed(vs[k], ws[k], next.suspensions, |db.suspensions|) else ws[k] == vs[k])
  }

  lemma ViolationsWork(db: Db, mid: Db, given: Db, next: Db, chosen: set<nat>, now: int)
    requires Worked(db, mid, given, next, chosen, now)
    ensures ViolationsWorked(db, next, now)
  {
    var vs, ms, ws := db.violations, mid.violations, next.violations;
    assert forall k :: 0 <= k < |vs| ==> ms[k] == ms[..|vs|][k];
    assert forall k :: 0 <= k < |ms| ==> ws[k].booking == ms[k].booking;
    forall j, k | |vs| <= j < k < |ws|
      ensures ws[j].booking != ws[k].booking
    {
      assert RecordedBefore(ms[j], ms[k]);
      assert RecordsMiss(ms[j], ms[j].booking.value, db.bookings[ms[j].booking.value], CurrentPolicy(db));
      assert RecordsMiss(ms[k], ms[k].booking.value, db.bookings[ms[k].booking.value], CurrentPolicy(db));
    }
    forall k | 0 <= k < |vs|
      ensures if Punishes(db, vs[k].user, now) && Counts(vs[k], vs[k].user, now)
              then Consumed(vs[k], ws[k], next.suspensions, |db.suspensions|) else ws[k] == vs[k]
    {
      assert vs[k].user in chosen <==> Punishes(db, vs[k].user, now);
    }
  }

  lemma RunKeepsViolations(db: Db, now: int, budget: nat)
    requires SiteValid(db.site) && Run(db, now, budget).complete
    ensures ViolationsWorked(db, Run(db, now, budget).db, now)
  {
    CompletedStages(db, now, budget);
    var mid := Lifecycle(db, now);
    var given, next := ApplyThresholds(mid, now), Run(db, now, budget).db;
    StagesWork(db, mid, given, next, now);
    ViolationsWork(db, mid, given, next, PunishedUsers(db, now), now);
  }

  /** The user is suspended anew exactly if the run punishes the user, and then once, from `now` until exactly the
      policy's days later. Earlier suspensions only have their ends announced. */
  ghost predicate SuspensionsWorked(db: Db, next: Db, user: nat, now: int) {
    var ss, ts, p := db.suspensions, next.suspensions, CurrentPolicy(db);
    && |ss| <= |ts|
    && (Punishes(db, user, now) <==> SuspendedFrom(ts, |ss|, user))
    && (forall s :: |ss| <= s < |ts| && ts[s].user == user ==>
          && ts[s].auto && ts[s].threshold == p.threshold && ts[s].endNotifiedAt == None
          && forall t :: Bars(ts[s], user, t) <==> now <= t < now + p.suspensionDays * DAY)
    && (forall s, t :: |ss| <= s < t < |ts| ==> ts[s].user != ts[t].user)
    && (forall s :: 0 <= s < |ss| ==> ts[s] == if Ends(ss[s], now) then ss[s].(endNotifiedAt := Some(now)) else ss[s])
  }

  lemma GivenAndMarked(db: Db, given: seq<Suspension>, ts: seq<Suspension>, chosen: set<nat>, user: nat, now: int)
    requires SuspensionsGiven(db, given, chosen, now) && Marked(given, ts, now) && CurrentPolicy(db).suspensionDays >= 1
    ensures user in chosen <==> SuspendedFrom(ts, |db.suspensions|, user)
    ensures forall s :: |db.suspensions| <= s < |ts| ==> ts[s] == given[s] && !Ends(given[s], now)
    ensures forall s :: 0 <= s < |db.suspensions| ==> given[s] == db.suspensions[s]
  {
    var n := |db.suspensions|;
    assert forall s :: 0 <= s < n ==> given[s] == given[..n][s];
    assert forall s :: n <= s < |given| ==> !Ends(given[s], now);
    if user in chosen {
      assert SuspendedFrom(given, n, user);
      var s :| n <= s < |given| && given[s].user == user;
      assert ts[s].user == user;
    }
  }

  lemma SuspensionsWork(db: Db, mid: Db, given: Db, next: Db, chosen: set<nat>, user: nat, now: int)
    requires Worked(db, mid, given, next, chosen, now) && PolicyInRange(CurrentPolicy(db))
    ensures SuspensionsWorked(db, next, user, now)
  {
    GivenAndMarked(mid, given.suspensions, next.suspensions, chosen, user, now);
  }

  /** A completed run suspends exactly the users who are not barred yet and whose strikes, with the missed hours
      it records, reach the threshold. */
  lemma RunSuspends(db: Db, now: int, budget: nat, user: nat)
    requires SiteValid(db.site) && Run(db, now, budget).complete
    ensures SuspensionsWorked(db, Run(db, now, budget).db, user, now)
  {
    CompletedStages(db, now, budget);
    var mid := Lifecycle(db, now);
    var given, next := ApplyThresholds(mid, now), Run(db, now, budget).db;
    StagesWork(db, mid, given, next, now);
    PolicyValid(db);
    SuspensionsWork(db, mid, given, next, PunishedUsers(db, now), user, now);
  }

  /** The messages a completed run adds: of requests it rejects, hours it records as missed, suspensions it gives,
      bookings it cancels for them, and ends it announces. */
  ghost predicate RunMail(db: Db, next: Db, m: Mail, now: int) {
    match m
    case BookingRejected(i) => i < |db.bookings| && db.bookings[i].status == PendingApproval && db.bookings[i].slot <= now
    case BookingNoShow(i) => MissesHour(db, i, now)
    case SuspensionApplied(s) => |db.suspensions| <= s < |next.suspensions|
    case BookingCancelled(i) =>
      i < |db.bookings| && i < |next.bookings| && next.bookings[i].status == Cancelled && db.bookings[i].status != Cancelled
    case SuspensionEnded(s) => s < |db.suspensions| && Ends(db.suspensions[s], now)
    case _ => false
  }

  ghost predicate PassMail(db: Db, m: Mail, now: int) {
    || (m.BookingRejected? && m.booking < |db.bookings| && db.bookings[m.booking].status == PendingApproval
        && db.bookings[m.booking].slot <= now)
    || (m.BookingNoShow? && MissesHour(db, m.booking, now))
  }

  lemma PassMailExactly(db: Db, ids: seq<nat>, more: set<Mail>, now: int, m: Mail)
    requires forall i: nat :: i in ids <==> MissesHour(db, i, now)
    requires more == db.outbox + RejectMail(DueSet(Approvals, db.bookings, now)) + NoShowMail(ids)
    ensures m in more <==> m in db.outbox || PassMail(db, m, now)
  {
    assert m in NoShowMail(ids) <==> m.BookingNoShow? && m.booking in ids;
    assert m in RejectMail(DueSet(Approvals, db.bookings, now)) <==>
      m.BookingRejected? && m.booking in DueSet(Approvals, db.bookings, now);
  }

  lemma PassesMail(db: Db, now: int, m: Mail)
    ensures m in Lifecycle(db, now).outbox <==> m in db.outbox || PassMail(db, m, now)
  {
    LifecycleOthers(db, now);
    forall i: nat
      ensures i in StruckAt(db, now) <==> MissesHour(db, i, now)
    {
      StruckExactly(db, now, i);
    }
    PassMailExactly(db, StruckAt(db, now), Lifecycle(db, now).outbox, now, m);
  }

  ghost predicate EndMail(ss: seq<Suspension>, m: Mail, now: int) {
    m.SuspensionEnded? && m.suspension < |ss| && Ends(ss[m.suspension], now)
  }

  lemma MailWorks(db: Db, mid: Db, given: Db, next: Db, chosen: set<nat>, m: Mail, now: int)
    requires Worked(db, mid, given, next, chosen, now) && PolicyInRange(CurrentPolicy(db))
    requires m in mid.outbox <==> m in db.outbox || PassMail(db, m, now)
    requires m in next.outbox <==> m in given.outbox || EndMail(given.suspensions, m, now)
    ensures m in next.outbox <==> m in db.outbox || RunMail(db, next, m, now)
  {
    GivenAndMarked(mid, given.suspensions, next.suspensions, chosen, 0, now);
    if m.BookingCancelled? && m.booking < |db.bookings| {
      assert given.bookings[m.booking] == CancelledIf(mid.bookings[m.booking], chosen, now);
    }
  }

  lemma RunMailExactly(db: Db, now: int, budget: nat, m: Mail)
    requires SiteValid(db.site) && Run(db, now, budget).complete
    ensures m in Run(db, now, budget).db.outbox <==> m in db.outbox || RunMail(db, Run(db, now, budget).db, m, now)
  {
    CompletedStages(db, now, budget);
    var mid := Lifecycle(db, now);
    var given, next := ApplyThresholds(mid, now), Run(db, now, budget).db;
    StagesWork(db, mid, given, next, now);
    PolicyValid(db);
    PassesMail(db, now, m);
    EndsExactly(given, now);
    MailWorks(db, mid, given, next, PunishedUsers(db, now), m, now);
  }
}
