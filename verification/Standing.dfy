/** What one user may hold: caps on booked hours, nothing while suspended, and one suspension at a
    time. These rules bind users who do not use the staff hold screen. */
module Standing {
  import opened Slots
  import opened Tables
  import opened Rules
  import opened Changes
  import opened Reconcile
  import opened Bookings
  import opened Sanctions
  import opened Maintenance
  import opened Operations
  import opened Invariants
  import opened Ledgers
  import opened Soundness

  // ---------------------------------------------------------------- claims of one user

  /** `c` claims no hour of its user that `b` did not; the room may differ. */
  ghost predicate ClaimsNoMore(b: Booking, c: Booking) {
    && c.user == b.user && c.slot == b.slot
    && (ChargesQuota(c.status) ==> ChargesQuota(b.status))
    && (Upcoming(c.status) ==> Upcoming(b.status))
    && (Open(c.status) ==> Open(b.status))
  }

  /** The user gains nothing: old rows claim no more and new rows belong to others. */
  ghost predicate NoGain(bs: seq<Booking>, cs: seq<Booking>, user: nat) {
    && |bs| <= |cs|
    && (forall i :: 0 <= i < |bs| ==> ClaimsNoMore(bs[i], cs[i]))
    && (forall i :: |bs| <= i < |cs| ==> cs[i].user != user)
  }

  lemma LaterIsNoGain(bs: seq<Booking>, cs: seq<Booking>, user: nat)
    requires AllLater(bs, cs)
    ensures NoGain(bs, cs, user)
  {
    forall i | 0 <= i < |bs|
      ensures ClaimsNoMore(bs[i], cs[i])
    {
      assert Later(bs[i], cs[i]);
    }
  }

  lemma SubsetCard(a: set<nat>, b: set<nat>)
    requires a <= b
    ensures |a| <= |b|
  {
    var rest := b - a;
    assert b == a + rest;
  }

  lemma NoGainQuota(bs: seq<Booking>, cs: seq<Booking>, user: nat, date: int)
    requires NoGain(bs, cs, user)
    ensures QuotaUsed(cs, user, date) <= QuotaUsed(bs, user, date)
  {
    SubsetCard(set i | 0 <= i < |cs| && ChargedTo(cs[i], user, date), set i | 0 <= i < |bs| && ChargedTo(bs[i], user, date));
  }

  lemma NoGainUpcoming(bs: seq<Booking>, cs: seq<Booking>, user: nat, clock: int, now: int)
    requires NoGain(bs, cs, user) && clock <= now
    ensures UpcomingHours(cs, user, now) <= UpcomingHours(bs, user, clock)
  {
    SubsetCard(set i | 0 <= i < |cs| && HeldBy(cs[i], user, now), set i | 0 <= i < |bs| && HeldBy(bs[i], user, clock));
  }

  lemma OneMoreCharged(bs: seq<Booking>, row: Booking, user: nat, date: int)
    ensures QuotaUsed(bs + [row], user, date) == QuotaUsed(bs, user, date) + if ChargedTo(row, user, date) then 1 else 0
  {
    var cs := bs + [row];
    var a, b := set i | 0 <= i < |bs| && ChargedTo(bs[i], user, date), set i | 0 <= i < |cs| && ChargedTo(cs[i], user, date);
    assert b == a + if ChargedTo(row, user, date) then {|bs|} else {};
  }

  lemma OneMoreHeld(bs: seq<Booking>, row: Booking, user: nat, now: int)
    ensures UpcomingHours(bs + [row], user, now) == UpcomingHours(bs, user, now) + if HeldBy(row, user, now) then 1 else 0
  {
    var cs := bs + [row];
    var x, y := set i | 0 <= i < |bs| && HeldBy(bs[i], user, now), set i | 0 <= i < |cs| && HeldBy(cs[i], user, now);
    assert y == x + if HeldBy(row, user, now) then {|bs|} else {};
  }

  // ---------------------------------------------------------------- caps

  /** The largest daily quota and upcoming-hours cap any policy version set, the default included. */
  function LargestQuota(ps: seq<Policy>): (m: int)
    ensures m >= DEFAULT_POLICY.dailyQuota && forall k :: 0 <= k < |ps| ==> ps[k].dailyQuota <= m
  {
    if ps == [] then DEFAULT_POLICY.dailyQuota
    else
      var m := LargestQuota(ps[..|ps| - 1]);
      assert forall k :: 0 <= k < |ps| - 1 ==> ps[..|ps| - 1][k] == ps[k];
      if ps[|ps| - 1].dailyQuota > m then ps[|ps| - 1].dailyQuota else m
  }

  function LargestUpcoming(ps: seq<Policy>): (m: int)
    ensures m >= DEFAULT_POLICY.maxUpcoming && forall k :: 0 <= k < |ps| ==> ps[k].maxUpcoming <= m
  {
    if ps == [] then DEFAULT_POLICY.maxUpcoming
    else
      var m := LargestUpcoming(ps[..|ps| - 1]);
      assert forall k :: 0 <= k < |ps| - 1 ==> ps[..|ps| - 1][k] == ps[k];
      if ps[|ps| - 1].maxUpcoming > m then ps[|ps| - 1].maxUpcoming else m
  }

  ghost predicate WithinCaps(db: Db, user: nat, clock: int) {
    && (forall date :: QuotaUsed(db.bookings, user, date) <= LargestQuota(db.site.policies))
    && UpcomingHours(db.bookings, user, clock) <= LargestUpcoming(db.site.policies)
  }

  // ---------------------------------------------------------------- suspensions

  /** When the suspension stopped, or stops, having effect. */
  function EffectiveEnd(s: Suspension): Option<int> {
    if s.liftedAt.None? then s.endsAt
    else if s.endsAt.None? || s.liftedAt.value <= s.endsAt.value then s.liftedAt
    else s.endsAt
  }

  /** The user's suspensions, in the order they were given, end before the next one starts. */
  ghost predicate OneAtATime(ss: seq<Suspension>, user: nat) {
    forall i, j :: 0 <= i < j < |ss| && ss[i].user == user && ss[j].user == user ==>
      EffectiveEnd(ss[i]).Some? && EffectiveEnd(ss[i]).value <= ss[j].startsAt
  }

  /** A suspended user has no request and no reservation. */
  ghost predicate NothingWhileSuspended(db: Db, user: nat, clock: int) {
    IsSuspended(db, user, clock) ==>
      forall i :: 0 <= i < |db.bookings| && db.bookings[i].user == user ==> !Open(db.bookings[i].status)
  }

  /** What the rules promise one user and of one user. */
  ghost predicate InStanding(db: Db, user: nat, clock: int) {
    WithinCaps(db, user, clock) && OneAtATime(db.suspensions, user) && NothingWhileSuspended(db, user, clock)
  }

  /** Nobody becomes suspended by waiting. */
  lemma WaitingSuspendsNobody(db: Db, user: nat, clock: int, now: int)
    requires SuspensionsValid(db.suspensions, clock) && clock <= now && IsSuspended(db, user, now)
    ensures IsSuspended(db, user, clock)
  {
    var i :| 0 <= i < |db.suspensions| && db.suspensions[i].user == user && ActiveAt(db.suspensions[i], now);
    assert SuspensionValid(db.suspensions[i], clock);
    assert ActiveAt(db.suspensions[i], clock);
  }

  lemma StandingLater(db: Db, user: nat, clock: int, now: int)
    requires InStanding(db, user, clock) && SuspensionsValid(db.suspensions, clock) && clock <= now
    ensures InStanding(db, user, now)
  {
    LaterReflexive(db.bookings);
    LaterIsNoGain(db.bookings, db.bookings, user);
    NoGainUpcoming(db.bookings, db.bookings, user, clock, now);
    if IsSuspended(db, user, now) {
      WaitingSuspendsNobody(db, user, clock, now);
    }
  }

  // ---------------------------------------------------------------- how the records can change

  ghost predicate PoliciesGrow(a: Site, b: Site) {
    |a.policies| <= |b.policies| && b.policies[..|a.policies|] == a.policies
  }

  lemma LargestGrows(ps: seq<Policy>, qs: seq<Policy>)
    requires |ps| <= |qs| && qs[..|ps|] == ps
    ensures LargestQuota(ps) <= LargestQuota(qs) && LargestUpcoming(ps) <= LargestUpcoming(qs)
    decreases |qs|
  {
    if |ps| < |qs| {
      assert qs[..|qs| - 1][..|ps|] == ps;
      LargestGrows(ps, qs[..|qs| - 1]);
    } else {
      assert ps == qs;
    }
  }

  /** Suspensions of the user are untouched, apart from notices. */
  ghost predicate SameSuspensionsOf(ss: seq<Suspension>, ts: seq<Suspension>, user: nat) {
    && |ss| <= |ts|
    && (forall i :: 0 <= i < |ss| ==>
          && ts[i].user == ss[i].user
          && (ss[i].user == user ==>
                ts[i].startsAt == ss[i].startsAt && ts[i].endsAt == ss[i].endsAt && ts[i].liftedAt == ss[i].liftedAt))
    && (forall i :: |ss| <= i < |ts| ==> ts[i].user != user)
  }

  lemma SameSuspensions(db: Db, next: Db, user: nat, now: int)
    requires SameSuspensionsOf(db.suspensions, next.suspensions, user)
    ensures OneAtATime(db.suspensions, user) ==> OneAtATime(next.suspensions, user)
    ensures IsSuspended(next, user, now) <==> IsSuspended(db, user, now)
  {
    if IsSuspended(db, user, now) {
      var i :| 0 <= i < |db.suspensions| && db.suspensions[i].user == user && ActiveAt(db.suspensions[i], now);
      assert ActiveAt(next.suspensions[i], now) && next.suspensions[i].user == user;
    }
    if IsSuspended(next, user, now) {
      var i :| 0 <= i < |next.suspensions| && next.suspensions[i].user == user && ActiveAt(next.suspensions[i], now);
      assert ActiveAt(db.suspensions[i], now) && db.suspensions[i].user == user;
    }
  }

  /** A step in which the user gains no booking and no suspension keeps the user in standing. */
  lemma StandingKept(db: Db, next: Db, user: nat, now: int)
    requires InStanding(db, user, now)
    requires NoGain(db.bookings, next.bookings, user)
    requires SameSuspensionsOf(db.suspensions, next.suspensions, user)
    requires PoliciesGrow(db.site, next.site)
    ensures InStanding(next, user, now)
  {
    CapsKept(db, next, user, now);
    SameSuspensions(db, next, user, now);
    if IsSuspended(next, user, now) {
      forall i | 0 <= i < |next.bookings| && next.bookings[i].user == user
        ensures !Open(next.bookings[i].status)
      {
        assert ClaimsNoMore(db.bookings[i], next.bookings[i]);
      }
    }
  }

  lemma CapsKept(db: Db, next: Db, user: nat, now: int)
    requires WithinCaps(db, user, now) && NoGain(db.bookings, next.bookings, user) && PoliciesGrow(db.site, next.site)
    ensures WithinCaps(next, user, now)
  {
    LargestGrows(db.site.policies, next.site.policies);
    NoGainUpcoming(db.bookings, next.bookings, user, now, now);
    forall date
      ensures QuotaUsed(next.bookings, user, date) <= LargestQuota(next.site.policies)
    {
      NoGainQuota(db.bookings, next.bookings, user, date);
      assert QuotaUsed(db.bookings, user, date) <= LargestQuota(db.site.policies);
    }
  }

  /** A fresh suspension of a user who has none in force, with everything open cancelled. */
  lemma SuspensionAdded(ss: seq<Suspension>, s: Suspension, user: nat, now: int)
    requires OneAtATime(ss, user) && SuspensionsValid(ss, now) && s.startsAt == now
    requires s.user == user ==> forall i :: 0 <= i < |ss| && ss[i].user == user ==> !ActiveAt(ss[i], now)
    ensures OneAtATime(ss + [s], user)
  {
    var ts := ss + [s];
    forall i, j | 0 <= i < j < |ts| && ts[i].user == user && ts[j].user == user
      ensures EffectiveEnd(ts[i]).Some? && EffectiveEnd(ts[i]).value <= ts[j].startsAt
    {
      assert SuspensionValid(ss[i], now);
    }
  }

  lemma NothingOpenLeft(db: Db, user: nat, now: int, reason: CancelReason)
    ensures forall i :: 0 <= i < |db.bookings| && db.bookings[i].user == user ==>
      !Open(CancelOpenFor(db, user, now, reason).bookings[i].status)
  {
    var c := CancelOpenOf(user, now, reason);
    assert forall i :: 0 <= i < |db.bookings| ==> MapRows(db.bookings, c)[i] == Apply(c, db.bookings[i]);
  }

  // ---------------------------------------------------------------- reconciliation

  lemma AutoSuspendStanding(db: Db, punished: nat, user: nat, now: int)
    requires InStanding(db, user, now) && SuspensionsValid(db.suspensions, now)
    requires !IsSuspended(db, punished, now)
    ensures InStanding(AutoSuspend(db, punished, now), user, now)
  {
    var next := AutoSuspend(db, punished, now);
    MapIsLater(CancelOpenOf(punished, now, BySuspension), db.bookings);
    LaterIsNoGain(db.bookings, next.bookings, user);
    if user == punished {
      CapsKept(db, next, user, now);
      SuspensionAdded(db.suspensions, AutomaticSuspension(user, now, CurrentPolicy(db)), user, now);
      NothingOpenLeft(db, user, now, BySuspension);
    } else {
      StandingKept(db, next, user, now);
    }
  }

  lemma {:induction false} SuspendAllStanding(db: Db, users: seq<nat>, user: nat, now: int)
    requires Sound(db, now) && InStanding(db, user, now) && Distinct(users)
    requires forall u :: u in users ==> |StrikeIds(db.violations, u, now)| >= CurrentPolicy(db).threshold
    ensures InStanding(SuspendAll(db, users, now), user, now)
    decreases |users|
  {
    if users != [] {
      var front, last := users[..|users| - 1], users[|users| - 1];
      SuspendAllStanding(db, front, user, now);
      SuspendAllSound(db, front, now);
      var rest := SuspendAll(db, front, now);
      if !IsSuspended(rest, last, now) {
        AutoSuspendStanding(rest, last, user, now);
      }
    }
  }

  lemma ThresholdsStanding(db: Db, user: nat, now: int)
    requires Sound(db, now) && InStanding(db, user, now)
    ensures InStanding(ApplyThresholds(db, now), user, now)
  {
    ReachingDistinct(db.violations, Strikers(db.violations, now), CurrentPolicy(db).threshold, now);
    SuspendAllStanding(db, Offenders(db, now), user, now);
  }

  lemma FinishedStanding(db: Db, user: nat, now: int)
    requires InStanding(db, user, now)
    ensures InStanding(NotifyFinished(db, now), user, now)
  {
    LaterReflexive(db.bookings);
    LaterIsNoGain(db.bookings, db.bookings, user);
    StandingKept(db, NotifyFinished(db, now), user, now);
  }

  lemma MapStanding(db: Db, next: Db, c: RowChange, user: nat, now: int)
    requires InStanding(db, user, now)
    requires next.bookings == MapRows(db.bookings, c) && next.suspensions == db.suspensions
    requires PoliciesGrow(db.site, next.site)
    ensures InStanding(next, user, now)
  {
    MapIsLater(c, db.bookings);
    LaterIsNoGain(db.bookings, next.bookings, user);
    StandingKept(db, next, user, now);
  }

  lemma RunStanding(db: Db, user: nat, now: int, budget: nat)
    requires Sound(db, now) && InStanding(db, user, now)
    ensures InStanding(Run(db, now, budget).db, user, now)
  {
    if OverBudget(Approvals, db, now, budget) {
      return;
    }
    var a := ExpireApprovals(db, now);
    MapStanding(db, a, ExpireApproval(now), user, now);
    ExpireSound(db, now);
    if OverBudget(NoShows, a, now, budget) {
      return;
    }
    var b := RecordNoShows(a, now);
    MapStanding(a, b, Forfeit(now, a.site.incidents), user, now);
    ForfeitSound(a, now);
    if OverBudget(Holds, b, now, budget) {
      return;
    }
    var c := StartHolds(b, now);
    MapStanding(b, c, StartHold(now), user, now);
    HoldsSound(b, now);
    if OverBudget(Completions, c, now, budget) {
      return;
    }
    var e := CompleteSessions(c, now);
    MapStanding(c, e, Complete(now), user, now);
    CompletionsSound(c, now);
    ThresholdsStanding(e, user, now);
    FinishedStanding(ApplyThresholds(e, now), user, now);
  }
}
