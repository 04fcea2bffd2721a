/** What voiding a violation and changing or lifting a suspension mean: whose strikes and whose suspensions
    are different afterwards, and from when to when. */
module SanctionEffects {
  import opened Slots
  import opened Tables
  import opened Rules
  import opened Changes
  import opened Reconcile
  import opened Sanctions
  import opened Ledgers
  import opened Standing

  /** The tables but for suspensions and mail. */
  ghost predicate OnlySuspension(db: Db, next: Db, id: nat) {
    && next.bookings == db.bookings && next.violations == db.violations
    && next.requests == db.requests && next.site == db.site && db.outbox <= next.outbox
    && |next.suspensions| == |db.suspensions|
    && forall s :: 0 <= s < |db.suspensions| && s != id ==> next.suspensions[s] == db.suspensions[s]
  }

  // ---------------------------------------------------------------- violations

  /** A voided violation is nobody's strike at any time; every other strike stays, and so does every
      suspension in force, even one the violation led to - then, and only then, staff are asked to review it.
      It can be voided once. */
  lemma VoidedIsNoStrike(db: Db, now: int, id: nat)
    requires Succeeded(VoidViolation(db, now, id, true).exit)
    ensures var r := VoidViolation(db, now, id, true);
      var consumer := db.violations[id].consumedBy;
      && r.db == db.(violations := r.db.violations, outbox := r.db.outbox)
      && (forall user, t :: StrikeIds(r.db.violations, user, t) == StrikeIds(db.violations, user, t) - {id})
      && SameViolations(db.violations, r.db.violations)
      && (VoidedUnderReview(id) in r.db.outbox <==>
            || VoidedUnderReview(id) in db.outbox
            || (consumer.Some? && consumer.value < |db.suspensions| && db.suspensions[consumer.value].liftedAt.None?))
      && (forall later :: !Succeeded(VoidViolation(r.db, later, id, true).exit))
  {
    var next := VoidViolation(db, now, id, true).db;
    forall user, t
      ensures StrikeIds(next.violations, user, t) == StrikeIds(db.violations, user, t) - {id}
    {
      forall i: nat
        ensures i in StrikeIds(next.violations, user, t) <==> i in StrikeIds(db.violations, user, t) - {id}
      {
      }
    }
  }

  /** So a void keeps its user from an automatic suspension exactly when the strike made up the threshold. */
  lemma VoidAverts(db: Db, now: int, id: nat, threshold: int)
    requires Succeeded(VoidViolation(db, now, id, true).exit)
    ensures var user, next := db.violations[id].user, VoidViolation(db, now, id, true).db;
      |StrikeIds(db.violations, user, now)| >= threshold > |StrikeIds(next.violations, user, now)| <==>
      EligibleStrike(db.violations[id], now) && |StrikeIds(db.violations, user, now)| == threshold
  {
    var user, next := db.violations[id].user, VoidViolation(db, now, id, true).db;
    VoidedIsNoStrike(db, now, id);
    var strikes := StrikeIds(db.violations, user, now);
    assert id in strikes <==> EligibleStrike(db.violations[id], now);
    assert |strikes| == |strikes - {id}| + if id in strikes then 1 else 0;
  }

  // ---------------------------------------------------------------- suspensions

  /** The suspension of the user holds at the time. */
  predicate Binds(ss: seq<Suspension>, id: nat, user: nat, t: int)
    requires id < |ss|
  {
    ss[id].user == user && ActiveAt(ss[id], t)
  }

  lemma ReplacedSuspension(ss: seq<Suspension>, id: nat, s: Suspension, db: Db, next: Db, user: nat, t: int)
    requires id < |ss| && db.suspensions == ss && next.suspensions == ss[id := s]
    ensures IsSuspended(next, user, t) <==>
      || (s.user == user && ActiveAt(s, t))
      || exists i: nat :: i < |ss| && i != id && Binds(ss, i, user, t)
  {
    assert next.suspensions[id] == s;
    if IsSuspended(next, user, t) {
      var i :| 0 <= i < |ss| && next.suspensions[i].user == user && ActiveAt(next.suspensions[i], t);
      assert i != id ==> Binds(ss, i, user, t);
    }
    if i: nat :| i < |ss| && i != id && Binds(ss, i, user, t) {
      assert next.suspensions[i] == ss[i];
    }
  }

  /** An adjusted suspension holds from its old start to its new end and, with the others as they were, says
      when its user is suspended; every other user is exactly as before, and nobody's strikes or bookings
      change. */
  lemma AdjustMovesTheEnd(db: Db, now: int, id: nat, endsAt: Option<int>)
    requires Succeeded(Adjust(db, now, id, endsAt, true).exit)
    ensures var next, s := Adjust(db, now, id, endsAt, true).db, db.suspensions[id];
      && OnlySuspension(db, next, id)
      && (forall t :: ActiveAt(next.suspensions[id], t) <==> s.startsAt <= t && (endsAt.None? || t < endsAt.value))
      && (forall user, t :: IsSuspended(next, user, t) <==>
            || (user == s.user && s.startsAt <= t && (endsAt.None? || t < endsAt.value))
            || exists i: nat :: i < |db.suspensions| && i != id && Binds(db.suspensions, i, user, t))
  {
    var next, s := Adjust(db, now, id, endsAt, true).db, db.suspensions[id];
    forall user, t
      ensures IsSuspended(next, user, t) <==>
        || (user == s.user && s.startsAt <= t && (endsAt.None? || t < endsAt.value))
        || exists i: nat :: i < |db.suspensions| && i != id && Binds(db.suspensions, i, user, t)
    {
      ReplacedSuspension(db.suspensions, id, next.suspensions[id], db, next, user, t);
    }
  }

  /** An adjustment can be taken back; only the mark that the end was announced is lost. */
  lemma AdjustBack(db: Db, now: int, id: nat, endsAt: Option<int>, clock: int)
    requires Succeeded(Adjust(db, now, id, endsAt, true).exit) && SuspensionsValid(db.suspensions, clock)
    ensures var next, s := Adjust(db, now, id, endsAt, true).db, db.suspensions[id];
      var back := Adjust(next, now, id, s.endsAt, true);
      && Succeeded(back.exit) && back.db.suspensions == db.suspensions[id := s.(endNotifiedAt := None)]
      && back.db.outbox == db.outbox
  {
    assert SuspensionValid(db.suspensions[id], clock);
  }

  /** A lifted suspension never holds again and cannot be changed again; its strikes stay consumed, and
      users are suspended exactly as the other suspensions say. */
  lemma LiftIsFinal(db: Db, now: int, id: nat)
    requires Succeeded(Lift(db, now, id, true).exit)
    ensures var next := Lift(db, now, id, true).db;
      && OnlySuspension(db, next, id) && SuspensionLifted(id) in next.outbox
      && (forall t :: !ActiveAt(next.suspensions[id], t))
      && (forall user, t :: IsSuspended(next, user, t) <==>
            exists i: nat :: i < |db.suspensions| && i != id && Binds(db.suspensions, i, user, t))
      && (forall later, endsAt :: !Succeeded(Adjust(next, later, id, endsAt, true).exit))
      && (forall later :: !Succeeded(Lift(next, later, id, true).exit))
  {
    var next := Lift(db, now, id, true).db;
    forall user, t
      ensures IsSuspended(next, user, t) <==>
        exists i: nat :: i < |db.suspensions| && i != id && Binds(db.suspensions, i, user, t)
    {
      ReplacedSuspension(db.suspensions, id, next.suspensions[id], db, next, user, t);
    }
  }

  /** Lifting the suspension in force frees its user at once, where the user's suspensions do not overlap. */
  lemma LiftFrees(db: Db, now: int, id: nat)
    requires Succeeded(Lift(db, now, id, true).exit) && ActiveAt(db.suspensions[id], now)
    requires OneAtATime(db.suspensions, db.suspensions[id].user) && SuspensionsValid(db.suspensions, now)
    ensures !IsSuspended(Lift(db, now, id, true).db, db.suspensions[id].user, now)
  {
    var ss := db.suspensions;
    LiftIsFinal(db, now, id);
    forall i: nat | i < |ss| && i != id
      ensures !Binds(ss, i, ss[id].user, now)
    {
      assert SuspensionValid(ss[i], now) && SuspensionValid(ss[id], now);
    }
  }
}
