/** Violations and suspensions decided by staff (core/services/sanctions.py). `reasonGiven` says
    that the reason is not blank. */
module Sanctions {
  import opened Slots
  import opened Tables
  import opened Rules
  import opened Changes
  import opened Reconcile

  function ManualViolation(user: nat, at: int, policy: Policy, counts: bool, incident: Option<nat>): Violation {
    Violation(user, None, false, at, at + policy.strikeWindow * DAY, counts, None, None, incident)
  }

  /** A recorded violation can complete a threshold, so the thresholds are applied at once. */
  function RecordViolation(db: Db, now: int, user: nat, reasonGiven: bool, counts: bool, occurredAt: Option<int>,
                           incident: Option<nat>): BodyResult
  {
    if !reasonGiven then Refuse(db, InvalidInput)
    else
      var at := if occurredAt.Some? then occurredAt.value else now;
      var v := ManualViolation(user, at, CurrentPolicy(db), counts, incident);
      Done(ApplyThresholds(db.(violations := db.violations + [v]), now), [|db.violations|])
  }

  function VoidViolation(db: Db, now: int, id: nat, reasonGiven: bool): BodyResult {
    if !reasonGiven then Refuse(db, InvalidInput)
    else if id >= |db.violations| then BodyResult(db, Crashed)
    else if db.violations[id].voidedAt.Some? then Refuse(db, TerminalStatus)
    else
      var v := db.violations[id];
      var review := v.consumedBy.Some? && v.consumedBy.value < |db.suspensions|
                    && db.suspensions[v.consumedBy.value].liftedAt.None?;
      Done(db.(violations := db.violations[id := v.(voidedAt := Some(now))],
               outbox := db.outbox + if review then {VoidedUnderReview(id)} else {}),
           [id, if review then 1 else 0])
  }

  /** The suspension in force that started last. */
  function ActiveSuspension(ss: seq<Suspension>, user: nat, now: int): (r: Option<nat>)
    ensures r.Some? ==> r.value < |ss| && ss[r.value].user == user && ActiveAt(ss[r.value], now)
    ensures r.None? ==> forall i :: 0 <= i < |ss| ==> !(ss[i].user == user && ActiveAt(ss[i], now))
  {
    if ss == [] then None
    else
      var rest := ActiveSuspension(ss[..|ss| - 1], user, now);
      var last := ss[|ss| - 1];
      if last.user == user && ActiveAt(last, now) && (rest.None? || ss[rest.value].startsAt <= last.startsAt)
      then Some(|ss| - 1) else rest
  }

  /** Change the end of a suspension in place. An automatic suspension may not lose its end: the
      table constraint refuses it. */
  function Adjust(db: Db, now: int, id: nat, endsAt: Option<int>, reasonGiven: bool): BodyResult {
    if !reasonGiven then Refuse(db, InvalidInput)
    else if id >= |db.suspensions| then BodyResult(db, Crashed)
    else
      var s := db.suspensions[id];
      if s.liftedAt.Some? then Refuse(db, TerminalStatus)
      else if endsAt.Some? && endsAt.value <= s.startsAt then Refuse(db, InvalidInput)
      else if s.auto && endsAt.None? then BodyResult(db, ConstraintFailed(OtherConstraint))
      else Done(db.(suspensions := db.suspensions[id := s.(endsAt := endsAt, endNotifiedAt := None)]), [id])
  }

  function ManualSuspension(user: nat, now: int, endsAt: Option<int>): Suspension {
    Suspension(user, now, endsAt, None, false, 0, None)
  }

  function Suspend(db: Db, now: int, user: nat, endsAt: Option<int>, reasonGiven: bool): BodyResult {
    if !reasonGiven then Refuse(db, InvalidInput)
    else
      var active := ActiveSuspension(db.suspensions, user, now);
      if active.Some? then Adjust(db, now, active.value, endsAt, reasonGiven)
      else if endsAt.Some? && endsAt.value <= now then Refuse(db, InvalidInput)
      else
        var id := |db.suspensions|;
        Done(CancelOpenFor(db.(suspensions := db.suspensions + [ManualSuspension(user, now, endsAt)],
                               outbox := db.outbox + {SuspensionApplied(id)}), user, now, BySuspension), [id])
  }

  function Lift(db: Db, now: int, id: nat, reasonGiven: bool): BodyResult {
    if !reasonGiven then Refuse(db, InvalidInput)
    else if id >= |db.suspensions| then BodyResult(db, Crashed)
    else if db.suspensions[id].liftedAt.Some? then Refuse(db, TerminalStatus)
    else
      Done(db.(suspensions := db.suspensions[id := db.suspensions[id].(liftedAt := Some(now))],
               outbox := db.outbox + {SuspensionLifted(id)}), [id])
  }
}
