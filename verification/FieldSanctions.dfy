/** The decisions of staff on violations and suspensions in terms of what is stored: the fields on which each
    succeeds, what it leaves in every table, and what a refused caller is told. */
module FieldSanctions {
  import opened Slots
  import opened Tables
  import opened Rules
  import opened Changes
  import opened Reconcile
  import opened Sanctions
  import opened Maintenance
  import opened Soundness
  import opened FieldRules
  import opened FieldPasses

  // ---------------------------------------------------------------- recording a violation

  /** A violation staff record counts, if it is to, from when it happened for the strike window of the policy. */
  ghost predicate RecordsByStaff(v: Violation, user: nat, at: int, counts: bool, incident: Option<nat>, policy: Policy) {
    && v.user == user && v.booking == None && !v.noShow && v.counts == counts && v.incident == incident
    && v.voidedAt == None && v.consumedBy == None
    && forall u, t :: Counts(v, u, t) <==> u == user && counts && at <= t < at + policy.strikeWindow * DAY
  }

  lemma RecordedCounts(user: nat, at: int, policy: Policy, counts: bool, incident: Option<nat>)
    ensures var v := ManualViolation(user, at, policy, counts, incident);
      && v.occurredAt == at && v.expiresAt == at + policy.strikeWindow * DAY
      && RecordsByStaff(v, user, at, counts, incident, policy)
  {
  }

  /** Recording succeeds exactly with a reason. It stores the violation, dated now unless a time was given, and the
      thresholds then punish exactly the users who have reached theirs with it. */
  lemma RecordExactly(db: Db, now: int, user: nat, reasonGiven: bool, counts: bool, occurredAt: Option<int>,
                      incident: Option<nat>, chosen: set<nat>)
    requires SiteValid(db.site)
    requires forall u :: u in chosen <==>
      !Barred(db, u, now)
      && |CountingStrikes(WithViolation(db, user, now, counts, occurredAt, incident), u, now)| >= CurrentPolicy(db).threshold
    ensures var r := RecordViolation(db, now, user, reasonGiven, counts, occurredAt, incident);
      && (!reasonGiven ==> r.exit == Raised(InvalidInput))
      && (reasonGiven ==>
            && r.exit == Returned(Outcome(true, Ok, [|db.violations|]))
            && Punished(db.(violations := WithViolation(db, user, now, counts, occurredAt, incident)), r.db, chosen, now))
  {
    var at := if occurredAt.Some? then occurredAt.value else now;
    var mid := db.(violations := WithViolation(db, user, now, counts, occurredAt, incident));
    RecordedCounts(user, at, CurrentPolicy(db), counts, incident);
    assert ManualViolation(user, at, CurrentPolicy(db), counts, incident) == mid.violations[|db.violations|];
    forall u
      ensures Barred(mid, u, now) <==> Barred(db, u, now)
    {
      SameBars(db, mid, u, now);
    }
    ThresholdsExactly(mid, chosen, now);
  }

  /** The violations with the recorded one last. */
  function WithViolation(db: Db, user: nat, now: int, counts: bool, occurredAt: Option<int>, incident: Option<nat>)
    : seq<Violation>
  {
    var at := if occurredAt == None then now else occurredAt.value;
    db.violations + [Violation(user := user, booking := None, noShow := false, occurredAt := at,
                               expiresAt := at + CurrentPolicy(db).strikeWindow * DAY, counts := counts, voidedAt := None,
                               consumedBy := None, incident := incident)]
  }

  // ---------------------------------------------------------------- voiding

  lemma VoidExactly(db: Db, now: int, id: nat, reasonGiven: bool)
    ensures var r := VoidViolation(db, now, id, reasonGiven);
      && (!reasonGiven ==> r.exit == Raised(InvalidInput))
      && (reasonGiven && id >= |db.violations| ==> r.exit == Crashed)
      && (reasonGiven && id < |db.violations| ==>
            var v := db.violations[id];
            var review := v.consumedBy != None && v.consumedBy.value < |db.suspensions|
                          && db.suspensions[v.consumedBy.value].liftedAt == None;
            && (v.voidedAt != None ==> r.exit == Raised(TerminalStatus))
            && (v.voidedAt == None ==>
                  && r.exit == Returned(Outcome(true, Ok, [id, if review then 1 else 0]))
                  && r.db == db.(violations := db.violations[id := v.(voidedAt := Some(now))],
                                 outbox := if review then db.outbox + {VoidedUnderReview(id)} else db.outbox)))
  {
  }

  // ---------------------------------------------------------------- suspensions

  lemma AdjustExactly(db: Db, now: int, id: nat, endsAt: Option<int>, reasonGiven: bool)
    ensures var r := Adjust(db, now, id, endsAt, reasonGiven);
      && (!reasonGiven ==> r.exit == Raised(InvalidInput))
      && (reasonGiven && id >= |db.suspensions| ==> r.exit == Crashed)
      && (reasonGiven && id < |db.suspensions| ==>
            var s := db.suspensions[id];
            var later := endsAt == None || s.startsAt < endsAt.value;
            && (s.liftedAt != None ==> r.exit == Raised(TerminalStatus))
            && (s.liftedAt == None && !later ==> r.exit == Raised(InvalidInput))
            && (s.liftedAt == None && s.auto && endsAt == None ==> r.exit == ConstraintFailed(OtherConstraint))
            && (s.liftedAt == None && later && (s.auto ==> endsAt != None) ==>
                  && r.exit == Returned(Outcome(true, Ok, [id]))
                  && r.db == db.(suspensions := db.suspensions[id := s.(endsAt := endsAt, endNotifiedAt := None)])))
  {
  }

  lemma LiftExactly(db: Db, now: int, id: nat, reasonGiven: bool)
    ensures var r := Lift(db, now, id, reasonGiven);
      && (!reasonGiven ==> r.exit == Raised(InvalidInput))
      && (reasonGiven && id >= |db.suspensions| ==> r.exit == Crashed)
      && (reasonGiven && id < |db.suspensions| ==>
            var s := db.suspensions[id];
            && (s.liftedAt != None ==> r.exit == Raised(TerminalStatus))
            && (s.liftedAt == None ==>
                  && r.exit == Returned(Outcome(true, Ok, [id]))
                  && r.db == db.(suspensions := db.suspensions[id := s.(liftedAt := Some(now))],
                                 outbox := db.outbox + {SuspensionLifted(id)})))
  {
  }

  /** Suspending a user who is not barred gives one suspension, from now until exactly the end asked for, tells the
      user, and cancels everything the user has open. */
  lemma SuspendGives(db: Db, now: int, user: nat, endsAt: Option<int>)
    requires !Barred(db, user, now)
    ensures var r, n := Suspend(db, now, user, endsAt, true), |db.suspensions|;
      && (endsAt != None && endsAt.value <= now ==> r.exit == Raised(InvalidInput))
      && (endsAt == None || now < endsAt.value ==>
            && r.exit == Returned(Outcome(true, Ok, [n]))
            && r.db.violations == db.violations && r.db.site == db.site && r.db.requests == db.requests
            && |r.db.suspensions| == n + 1 && r.db.suspensions[..n] == db.suspensions
            && GivenByStaff(r.db.suspensions[n], user, now, endsAt)
            && BookingsCancelled(db.bookings, r.db.bookings, {user}, now)
            && forall m :: m in r.db.outbox <==> m in db.outbox || SuspensionMail(db, m, n + 1, {user}))
  {
    NobodyActive(db, user, now);
    var change := CancelOpenOf(user, now, BySuspension);
    var r, n := Suspend(db, now, user, endsAt, true), |db.suspensions|;
    if endsAt == None || now < endsAt.value {
      forall i: nat
        ensures i in CancelledBy(db.bookings, change) <==>
          i < |db.bookings| && db.bookings[i].user == user
          && (db.bookings[i].status == PendingApproval || db.bookings[i].status == Scheduled)
      {
      }
      assert r.db.outbox == db.outbox + {SuspensionApplied(n)} + CancelMail(CancelledBy(db.bookings, change));
    }
  }

  ghost predicate GivenByStaff(s: Suspension, user: nat, now: int, endsAt: Option<int>) {
    && !s.auto && s.threshold == 0 && s.startsAt == now && s.endsAt == endsAt && s.endNotifiedAt == None
    && forall u, t :: Bars(s, u, t) <==> u == user && now <= t && (endsAt == None || t < endsAt.value)
  }

  lemma NobodyActive(db: Db, user: nat, now: int)
    ensures ActiveSuspension(db.suspensions, user, now) == None <==> !Barred(db, user, now)
  {
    var active := ActiveSuspension(db.suspensions, user, now);
    if active != None {
      assert Bars(db.suspensions[active.value], user, now);
    }
    if Barred(db, user, now) {
      var i :| 0 <= i < |db.suspensions| && Bars(db.suspensions[i], user, now);
      assert ActiveAt(db.suspensions[i], now);
    }
  }

  /** Suspending a user who is barred adjusts a suspension in force, the one that started last. */
  lemma SuspendAdjusts(db: Db, now: int, user: nat, endsAt: Option<int>)
    requires Barred(db, user, now)
    ensures var active := ActiveSuspension(db.suspensions, user, now);
      && active != None && Bars(db.suspensions[active.value], user, now)
      && (forall i :: 0 <= i < |db.suspensions| && Bars(db.suspensions[i], user, now) ==>
            db.suspensions[i].startsAt <= db.suspensions[active.value].startsAt)
      && Suspend(db, now, user, endsAt, true) == Adjust(db, now, active.value, endsAt, true)
  {
    NobodyActive(db, user, now);
    ActiveStartedLast(db.suspensions, user, now);
  }

  lemma {:induction false} ActiveStartedLast(ss: seq<Suspension>, user: nat, now: int)
    ensures var active := ActiveSuspension(ss, user, now);
      forall i :: 0 <= i < |ss| && Bars(ss[i], user, now) ==> active != None && ss[i].startsAt <= ss[active.value].startsAt
  {
    if ss != [] {
      var front := ss[..|ss| - 1];
      ActiveStartedLast(front, user, now);
      assert forall i :: 0 <= i < |front| ==> front[i] == ss[i];
    }
  }

  lemma SuspendWithoutReason(db: Db, now: int, user: nat, endsAt: Option<int>)
    ensures Suspend(db, now, user, endsAt, false).exit == Raised(InvalidInput)
  {
  }
}
