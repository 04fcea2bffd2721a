/** The invariant of the whole machine and its preservation by reconciliation. */
module Soundness {
  import opened Slots
  import opened Tables
  import opened Rules
  import opened Changes
  import opened Reconcile
  import opened Invariants
  import opened Ledgers

  ghost predicate SiteValid(site: Site) {
    && (forall k :: 0 <= k < |site.policies| ==> PolicyInRange(site.policies[k]))
    && (forall k :: 0 <= k < |site.closures| ==> site.closures[k].startsAt < site.closures[k].endsAt)
    && (forall k :: 0 <= k < |site.incidents| ==> site.incidents[k].startsAt < site.incidents[k].endsAt)
    && (forall d :: d in site.overrides && site.overrides[d].Some? ==>
          0 <= site.overrides[d].value.open < site.overrides[d].value.close <= 24)
  }

  /** A violation stays a strike for a window some policy may set, frozen when it was recorded. */
  ghost predicate WindowValid(v: Violation) {
    v.occurredAt + DAY <= v.expiresAt <= v.occurredAt + 365 * DAY
  }

  ghost predicate ViolationsValid(vs: seq<Violation>) {
    forall k :: 0 <= k < |vs| ==> WindowValid(vs[k])
  }

  /** Every table constraint, and every rule the services promise of each reachable state. */
  ghost predicate Sound(db: Db, clock: int) {
    && BookingsSound(db.bookings, clock)
    && StudentsClear(db.bookings, db.site.closures)
    && NoShowLedger(db.bookings, db.violations)
    && ViolationsValid(db.violations)
    && StrikesSound(db.violations, db.suspensions)
    && SuspensionsValid(db.suspensions, clock)
    && MailSound(db.bookings, db.outbox)
    && SiteValid(db.site)
  }

  lemma PolicyValid(db: Db)
    requires SiteValid(db.site)
    ensures PolicyInRange(CurrentPolicy(db))
  {
  }

  lemma SoundLater(db: Db, clock: int, later: int)
    requires Sound(db, clock) && clock <= later
    ensures Sound(db, later)
  {
    ClockAdvances(db.bookings, clock, later);
    forall i | 0 <= i < |db.suspensions|
      ensures SuspensionValid(db.suspensions[i], later)
    {
      assert SuspensionValid(db.suspensions[i], clock);
    }
  }

  // ---------------------------------------------------------------- pass 1

  lemma ExpireKeepsMail(bs: seq<Booking>, outbox: set<Mail>, now: int)
    requires MailSound(bs, outbox)
    ensures MailSound(MapRows(bs, ExpireApproval(now)), outbox + RejectMail(DueSet(Approvals, bs, now)))
    ensures SameNoShows(bs, MapRows(bs, ExpireApproval(now)))
  {
    var cs, more := MapRows(bs, ExpireApproval(now)), outbox + RejectMail(DueSet(Approvals, bs, now));
    forall i: nat
      ensures BookingCancelled(i) in more <==> i < |cs| && OwesCancelNotice(cs[i])
      ensures BookingNoShow(i) in more <==> i < |cs| && cs[i].status.NoShow?
      ensures BookingRejected(i) in more <==> i < |cs| && cs[i].status.Rejected?
    {
      assert i < |bs| ==> cs[i] == Apply(ExpireApproval(now), bs[i]);
    }
    forall i | 0 <= i < |bs|
      ensures (bs[i].status.NoShow? <==> cs[i].status.NoShow?)
      ensures cs[i].user == bs[i].user && DeadlineOf(cs[i]) == DeadlineOf(bs[i])
    {
      assert cs[i] == Apply(ExpireApproval(now), bs[i]);
    }
  }

  /** A bulk change of bookings that touches no other table but the outbox. */
  lemma MapSound(db: Db, c: RowChange, outbox: set<Mail>, clock: int)
    requires Sound(db, clock) && ActsBy(c, clock)
    requires MailSound(MapRows(db.bookings, c), outbox) && SameNoShows(db.bookings, MapRows(db.bookings, c))
    ensures Sound(db.(bookings := MapRows(db.bookings, c), outbox := outbox), clock)
  {
    MapKeepsSound(c, db.bookings, clock);
    MapIsLater(c, db.bookings);
    LaterKeepsRules(db.bookings, MapRows(db.bookings, c), db.site.closures);
    LedgerKept(db.bookings, MapRows(db.bookings, c), db.violations, db.violations);
  }

  lemma ExpireSound(db: Db, now: int)
    requires Sound(db, now)
    ensures Sound(ExpireApprovals(db, now), now)
  {
    ExpireKeepsMail(db.bookings, db.outbox, now);
    MapSound(db, ExpireApproval(now), ExpireApprovals(db, now).outbox, now);
  }

  // ---------------------------------------------------------------- pass 2

  ghost predicate Distinct(ids: seq<nat>) {
    forall j, k :: 0 <= j < k < |ids| ==> ids[j] != ids[k]
  }

  /** The bookings the pass forfeits. */
  ghost predicate Forfeits(db: Db, now: int, i: nat) {
    i < |db.bookings| && Overdue(db.bookings[i], now) && !Covered(db.site.incidents, db.bookings[i])
  }

  lemma StruckAreForfeits(db: Db, now: int)
    requires NoShowLedger(db.bookings, db.violations)
    ensures forall i: nat :: i in Struck(db, Due(NoShows, db.bookings, now)) <==> Forfeits(db, now, i)
  {
  }

  lemma StruckDistinct(db: Db, ids: seq<nat>)
    requires InTable(ids, db.bookings)
    requires Distinct(ids)
    ensures Distinct(Struck(db, ids))
  {
    if ids != [] {
      var front := ids[..|ids| - 1];
      StruckDistinct(db, front);
      assert ids[|ids| - 1] !in front;
    }
  }

  /** Recording one strike for each booking that becomes a no-show keeps the ledger. */
  lemma LedgerGrows(bs: seq<Booking>, cs: seq<Booking>, vs: seq<Violation>, more: seq<Violation>, ids: seq<nat>)
    requires NoShowLedger(bs, vs) && |cs| == |bs| && |more| == |ids| && Distinct(ids)
    requires forall i: nat :: i < |bs| ==>
      && cs[i].user == bs[i].user && DeadlineOf(cs[i]) == DeadlineOf(bs[i])
      && (cs[i].status.NoShow? <==> bs[i].status.NoShow? || i in ids)
    requires forall k :: 0 <= k < |ids| ==>
      && ids[k] < |bs| && !bs[ids[k]].status.NoShow?
      && more[k].noShow && more[k].booking == Some(ids[k])
      && more[k].user == bs[ids[k]].user && more[k].occurredAt == DeadlineOf(bs[ids[k]])
    ensures NoShowLedger(cs, vs + more)
  {
    var ws := vs + more;
    assert forall k :: 0 <= k < |ids| ==> ids[k] in ids;
    forall i: nat | i < |cs| && cs[i].status.NoShow?
      ensures HasNoShow(ws, i)
    {
      if bs[i].status.NoShow? {
        var k :| 0 <= k < |vs| && vs[k].noShow && vs[k].booking == Some(i);
        assert ws[k] == vs[k];
      } else {
        var k :| 0 <= k < |ids| && ids[k] == i;
        assert ws[|vs| + k] == more[k];
      }
    }
    forall j, k | 0 <= j < k < |ws| && ws[j].noShow && ws[k].noShow
      ensures ws[j].booking != ws[k].booking
    {
      if j < |vs| <= k {
        assert ws[k] == more[k - |vs|];
      }
    }
  }

  lemma ForfeitLedger(db: Db, now: int)
    requires NoShowLedger(db.bookings, db.violations)
    ensures NoShowLedger(RecordNoShows(db, now).bookings, RecordNoShows(db, now).violations)
  {
    var due := Due(NoShows, db.bookings, now);
    var ids := Struck(db, due);
    var cs := RecordNoShows(db, now).bookings;
    StruckAreForfeits(db, now);
    OrderedDistinct(NoShows, db.bookings, due);
    StruckDistinct(db, due);
    assert forall k :: 0 <= k < |ids| ==> ids[k] in ids;
    assert forall i: nat :: i < |cs| ==> cs[i] == Apply(Forfeit(now, db.site.incidents), db.bookings[i]);
    LedgerGrows(db.bookings, cs, db.violations, Strikes(db, ids), ids);
  }

  lemma ForfeitMail(db: Db, now: int)
    requires NoShowLedger(db.bookings, db.violations) && MailSound(db.bookings, db.outbox)
    ensures MailSound(RecordNoShows(db, now).bookings, RecordNoShows(db, now).outbox)
  {
    StruckAreForfeits(db, now);
    var cs, more := RecordNoShows(db, now).bookings, RecordNoShows(db, now).outbox;
    forall i: nat
      ensures BookingCancelled(i) in more <==> i < |cs| && OwesCancelNotice(cs[i])
      ensures BookingNoShow(i) in more <==> i < |cs| && cs[i].status.NoShow?
      ensures BookingRejected(i) in more <==> i < |cs| && cs[i].status.Rejected?
    {
      assert i < |cs| ==> cs[i] == Apply(Forfeit(now, db.site.incidents), db.bookings[i]);
    }
  }

  /** Appended strikes are not consumed yet. */
  lemma FreshStrikesSound(vs: seq<Violation>, more: seq<Violation>, ss: seq<Suspension>)
    requires StrikesSound(vs, ss) && forall k :: 0 <= k < |more| ==> more[k].consumedBy.None?
    ensures StrikesSound(vs + more, ss)
  {
    forall s: nat | s < |ss| && ss[s].auto
      ensures ConsumedIds(vs + more, s) == ConsumedIds(vs, s)
    {
    }
  }

  lemma ForfeitSound(db: Db, now: int)
    requires Sound(db, now)
    ensures Sound(RecordNoShows(db, now), now)
  {
    var c := Forfeit(now, db.site.incidents);
    MapKeepsSound(c, db.bookings, now);
    MapIsLater(c, db.bookings);
    LaterKeepsRules(db.bookings, MapRows(db.bookings, c), db.site.closures);
    ForfeitLedger(db, now);
    ForfeitMail(db, now);
    PolicyValid(db);
    FreshStrikesSound(db.violations, Strikes(db, Struck(db, Due(NoShows, db.bookings, now))), db.suspensions);
  }

  // ---------------------------------------------------------------- passes 3 and 4

  lemma QuietMap(bs: seq<Booking>, c: RowChange, outbox: set<Mail>)
    requires MailSound(bs, outbox) && Announced(c)
    requires CancelledBy(bs, c) == {}
    ensures MailSound(MapRows(bs, c), outbox) && SameNoShows(bs, MapRows(bs, c))
  {
    AnnouncedMap(c, bs, outbox);
    assert outbox + CancelMail(CancelledBy(bs, c)) == outbox;
  }

  lemma HoldsSound(db: Db, now: int)
    requires Sound(db, now)
    ensures Sound(StartHolds(db, now), now)
  {
    QuietMap(db.bookings, StartHold(now), db.outbox);
    MapSound(db, StartHold(now), db.outbox, now);
  }

  lemma CompletionsSound(db: Db, now: int)
    requires Sound(db, now)
    ensures Sound(CompleteSessions(db, now), now)
  {
    QuietMap(db.bookings, Complete(now), db.outbox);
    MapSound(db, Complete(now), db.outbox, now);
  }

  // ---------------------------------------------------------------- passes 5 and 6

  lemma CancelOpenSound(db: Db, user: nat, now: int, reason: CancelReason)
    requires Sound(db, now) && reason != ByAccount && !ByHolder(Some(reason))
    ensures Sound(CancelOpenFor(db, user, now, reason), now)
  {
    var c := CancelOpenOf(user, now, reason);
    AnnouncedMap(c, db.bookings, db.outbox);
    MapSound(db, c, CancelOpenFor(db, user, now, reason).outbox, now);
  }

  /** The strikes a new suspension consumes are exactly the user's eligible ones. */
  lemma ConsumedByNew(vs: seq<Violation>, ss: seq<Suspension>, user: nat, now: int)
    requires StrikesSound(vs, ss)
    ensures var ws := ConsumeStrikes(vs, user, |ss|, now);
      && ConsumedIds(ws, |ss|) == StrikeIds(vs, user, now)
      && forall s: nat :: s < |ss| ==> ConsumedIds(ws, s) == ConsumedIds(vs, s)
  {
    var ws := ConsumeStrikes(vs, user, |ss|, now);
    forall k: nat | k < |vs|
      ensures ws[k].consumedBy == Some(|ss|) <==> StrikeOf(vs[k], user, now)
    {
      assert ws[k] == Consume(vs[k], user, |ss|, now);
    }
  }

  lemma ConsumeSound(vs: seq<Violation>, ss: seq<Suspension>, user: nat, now: int, policy: Policy)
    requires StrikesSound(vs, ss) && |StrikeIds(vs, user, now)| >= policy.threshold
    ensures StrikesSound(ConsumeStrikes(vs, user, |ss|, now), ss + [AutomaticSuspension(user, now, policy)])
  {
    var ws, ts := ConsumeStrikes(vs, user, |ss|, now), ss + [AutomaticSuspension(user, now, policy)];
    ConsumedByNew(vs, ss, user, now);
    forall s: nat | s < |ts| && ts[s].auto
      ensures ts[s].threshold <= |ConsumedIds(ws, s)|
    {
      assert s < |ss| ==> ts[s] == ss[s];
    }
  }

  lemma ConsumeLedger(bs: seq<Booking>, vs: seq<Violation>, user: nat, id: nat, now: int)
    requires NoShowLedger(bs, vs) && ViolationsValid(vs)
    ensures NoShowLedger(bs, ConsumeStrikes(vs, user, id, now)) && ViolationsValid(ConsumeStrikes(vs, user, id, now))
  {
    var ws := ConsumeStrikes(vs, user, id, now);
    assert forall k :: 0 <= k < |vs| ==> ws[k] == Consume(vs[k], user, id, now);
    forall i: nat | i < |bs| && bs[i].status.NoShow?
      ensures HasNoShow(ws, i)
    {
      var k :| 0 <= k < |vs| && vs[k].noShow && vs[k].booking == Some(i);
      assert ws[k].noShow && ws[k].booking == Some(i);
    }
  }

  lemma AutoSuspendSound(db: Db, user: nat, now: int)
    requires Sound(db, now) && |StrikeIds(db.violations, user, now)| >= CurrentPolicy(db).threshold
    ensures Sound(AutoSuspend(db, user, now), now)
  {
    var id := |db.suspensions|;
    var mid := db.(suspensions := db.suspensions + [AutomaticSuspension(user, now, CurrentPolicy(db))],
                   violations := ConsumeStrikes(db.violations, user, id, now),
                   outbox := db.outbox + {SuspensionApplied(id)});
    PolicyValid(db);
    ConsumeSound(db.violations, db.suspensions, user, now, CurrentPolicy(db));
    ConsumeLedger(db.bookings, db.violations, user, id, now);
    MailKept(db.bookings, db.bookings, db.outbox, mid.outbox);
    CancelOpenSound(mid, user, now, BySuspension);
  }

  /** Suspending one user leaves the other users' strikes as they were. */
  lemma OthersStrikes(db: Db, user: nat, other: nat, now: int)
    requires user != other
    ensures StrikeIds(AutoSuspend(db, user, now).violations, other, now) == StrikeIds(db.violations, other, now)
  {
    var vs, ws := db.violations, AutoSuspend(db, user, now).violations;
    forall k: nat | k < |vs|
      ensures StrikeOf(vs[k], other, now) <==> StrikeOf(ws[k], other, now)
    {
      assert ws[k] == Consume(vs[k], user, |db.suspensions|, now);
    }
  }

  lemma {:induction false} SuspendAllSound(db: Db, users: seq<nat>, now: int)
    requires Sound(db, now) && Distinct(users)
    requires forall u :: u in users ==> |StrikeIds(db.violations, u, now)| >= CurrentPolicy(db).threshold
    ensures Sound(SuspendAll(db, users, now), now)
    ensures forall u :: u !in users ==>
      StrikeIds(SuspendAll(db, users, now).violations, u, now) == StrikeIds(db.violations, u, now)
    decreases |users|
  {
    if users != [] {
      var front, last := users[..|users| - 1], users[|users| - 1];
      SuspendAllSound(db, front, now);
      var rest := SuspendAll(db, front, now);
      assert last in users && last !in front;
      if !IsSuspended(rest, last, now) {
        AutoSuspendSound(rest, last, now);
        forall u | u !in users
          ensures StrikeIds(AutoSuspend(rest, last, now).violations, u, now) == StrikeIds(db.violations, u, now)
        {
          assert u !in front;
          OthersStrikes(rest, last, u, now);
        }
      }
    }
  }

  lemma ReachingDistinct(vs: seq<Violation>, users: seq<nat>, threshold: int, now: int)
    requires Distinct(users)
    ensures Distinct(ReachingThreshold(vs, users, threshold, now))
  {
    if users != [] {
      ReachingDistinct(vs, users[1..], threshold, now);
      assert users[0] !in users[1..];
    }
  }

  lemma ThresholdsSound(db: Db, now: int)
    requires Sound(db, now)
    ensures Sound(ApplyThresholds(db, now), now)
  {
    ReachingDistinct(db.violations, Strikers(db.violations, now), CurrentPolicy(db).threshold, now);
    SuspendAllSound(db, Offenders(db, now), now);
  }

  lemma MarkEndedStrikes(vs: seq<Violation>, ss: seq<Suspension>, now: int)
    requires StrikesSound(vs, ss)
    ensures StrikesSound(vs, MarkAllEnded(ss, now))
  {
    var ts := MarkAllEnded(ss, now);
    assert forall i :: 0 <= i < |ss| ==> ts[i] == MarkEnded(ss[i], now);
    StrikesKept(vs, vs, ss, ts);
  }

  lemma FinishedSound(db: Db, now: int)
    requires Sound(db, now)
    ensures Sound(NotifyFinished(db, now), now)
  {
    MarkEndedStrikes(db.violations, db.suspensions, now);
    MailKept(db.bookings, db.bookings, db.outbox, NotifyFinished(db, now).outbox);
    forall i | 0 <= i < |db.suspensions|
      ensures SuspensionValid(NotifyFinished(db, now).suspensions[i], now)
    {
      assert SuspensionValid(db.suspensions[i], now);
    }
  }

  lemma SanctionSound(db: Db, now: int)
    requires Sound(db, now)
    ensures Sound(Sanction(db, now), now)
  {
    ThresholdsSound(db, now);
    FinishedSound(ApplyThresholds(db, now), now);
  }

  /** Reconciliation, complete or stopped by its budget, keeps the invariant. */
  lemma RunSound(db: Db, now: int, budget: nat)
    requires Sound(db, now)
    ensures Sound(Run(db, now, budget).db, now)
  {
    ExpireSound(db, now);
    if OverBudget(Approvals, db, now, budget) {
      return;
    }
    var a := ExpireApprovals(db, now);
    ForfeitSound(a, now);
    if OverBudget(NoShows, a, now, budget) {
      return;
    }
    var b := RecordNoShows(a, now);
    HoldsSound(b, now);
    if OverBudget(Holds, b, now, budget) {
      return;
    }
    var c := StartHolds(b, now);
    CompletionsSound(c, now);
    SanctionSound(CompleteSessions(c, now), now);
  }
}
