/** Violations and suspensions as staff decide them, one row at a time. */
module SanctionService {
  import opened Slots
  import opened Tables
  import opened Rules
  import opened Changes
  import opened Reconcile
  import opened Reconciler
  import opened Sanctions

  /** Store a violation and apply the thresholds at once. */
  method InsertViolation(d: Database, v: Violation, now: int)
    modifies d
    ensures d.State() == ApplyThresholds(old(d.State()).(violations := old(d.violations) + [v]), now)
  {
    ghost var next := d.State().(violations := d.violations + [v]);
    d.violations := d.violations + [v];
    assert d.State() == next;
    ApplyStrikeThresholds(d, now);
  }

  lemma RecordedIs(db: Db, next: Db, v: Violation, now: int, user: nat, counts: bool, occurredAt: Option<int>,
                   incident: Option<nat>)
    requires next == ApplyThresholds(db.(violations := db.violations + [v]), now)
    requires v == ManualViolation(user, if occurredAt.Some? then occurredAt.value else now, CurrentPolicy(db), counts,
                                  incident)
    ensures RecordViolation(db, now, user, true, counts, occurredAt, incident) == Done(next, [|db.violations|])
  {
  }

  method RecordManualViolation(d: Database, now: int, user: nat, reasonGiven: bool, counts: bool,
                               occurredAt: Option<int>, incident: Option<nat>) returns (e: Exit)
    modifies d
    ensures e == RecordViolation(old(d.State()), now, user, reasonGiven, counts, occurredAt, incident).exit
    ensures Succeeded(e) ==>
      d.State() == RecordViolation(old(d.State()), now, user, reasonGiven, counts, occurredAt, incident).db
  {
    if !reasonGiven {
      return Raised(InvalidInput);
    }
    var policy := CurrentPolicy(d.State());
    var at := if occurredAt.Some? then occurredAt.value else now;
    var id := |d.violations|;
    var v := Violation(user, None, false, at, at + policy.strikeWindow * DAY, counts, None, None, incident);
    InsertViolation(d, v, now);
    RecordedIs(old(d.State()), d.State(), v, now, user, counts, occurredAt, incident);
    return Success([id]);
  }

  method VoidOne(d: Database, now: int, id: nat, reasonGiven: bool) returns (e: Exit)
    modifies d
    ensures e == VoidViolation(old(d.State()), now, id, reasonGiven).exit
    ensures Succeeded(e) ==> d.State() == VoidViolation(old(d.State()), now, id, reasonGiven).db
  {
    if !reasonGiven {
      return Raised(InvalidInput);
    }
    if id >= |d.violations| {
      return Crashed;
    }
    var violation := d.violations[id];
    if violation.voidedAt.Some? {
      return Raised(TerminalStatus);
    }
    d.violations := d.violations[id := violation.(voidedAt := Some(now))];
    var consumer := violation.consumedBy;
    if consumer.Some? && consumer.value < |d.suspensions| && d.suspensions[consumer.value].liftedAt.None? {
      d.outbox := d.outbox + {VoidedUnderReview(id)};
      return Success([id, 1]);
    }
    return Success([id, 0]);
  }

  method AdjustSuspension(d: Database, now: int, id: nat, endsAt: Option<int>, reasonGiven: bool) returns (e: Exit)
    modifies d
    ensures e == Adjust(old(d.State()), now, id, endsAt, reasonGiven).exit
    ensures Succeeded(e) ==> d.State() == Adjust(old(d.State()), now, id, endsAt, reasonGiven).db
  {
    if !reasonGiven {
      return Raised(InvalidInput);
    }
    if id >= |d.suspensions| {
      return Crashed;
    }
    var suspension := d.suspensions[id];
    if suspension.liftedAt.Some? {
      return Raised(TerminalStatus);
    }
    if endsAt.Some? && endsAt.value <= suspension.startsAt {
      return Raised(InvalidInput);
    }
    if suspension.auto && endsAt.None? {
      return ConstraintFailed(OtherConstraint);
    }
    d.suspensions := d.suspensions[id := suspension.(endsAt := endsAt, endNotifiedAt := None)];
    return Success([id]);
  }

  method ApplyManualSuspension(d: Database, now: int, user: nat, endsAt: Option<int>, reasonGiven: bool)
    returns (e: Exit)
    modifies d
    ensures e == Suspend(old(d.State()), now, user, endsAt, reasonGiven).exit
    ensures Succeeded(e) ==> d.State() == Suspend(old(d.State()), now, user, endsAt, reasonGiven).db
  {
    if !reasonGiven {
      return Raised(InvalidInput);
    }
    var active := ActiveSuspension(d.suspensions, user, now);
    if active.Some? {
      e := AdjustSuspension(d, now, active.value, endsAt, reasonGiven);
      return;
    }
    if endsAt.Some? && endsAt.value <= now {
      return Raised(InvalidInput);
    }
    var id := |d.suspensions|;
    d.suspensions := d.suspensions + [Suspension(user, now, endsAt, None, false, 0, None)];
    d.outbox := d.outbox + {SuspensionApplied(id)};
    CancelRemaining(d, user, now, BySuspension);
    return Success([id]);
  }

  method LiftSuspension(d: Database, now: int, id: nat, reasonGiven: bool) returns (e: Exit)
    modifies d
    ensures e == Lift(old(d.State()), now, id, reasonGiven).exit
    ensures Succeeded(e) ==> d.State() == Lift(old(d.State()), now, id, reasonGiven).db
  {
    if !reasonGiven {
      return Raised(InvalidInput);
    }
    if id >= |d.suspensions| {
      return Crashed;
    }
    if d.suspensions[id].liftedAt.Some? {
      return Raised(TerminalStatus);
    }
    d.suspensions := d.suspensions[id := d.suspensions[id].(liftedAt := Some(now))];
    d.outbox := d.outbox + {SuspensionLifted(id)};
    return Success([id]);
  }
}
