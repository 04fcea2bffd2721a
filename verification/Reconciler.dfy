/** The reconciliation service as it runs (core/services/reconcile.py): every pass loops over its
    due rows in order, changing and saving one row at a time, under the control lock. */
module Reconciler {
  import opened Slots
  import opened Tables
  import opened Rules
  import opened Changes
  import opened Reconcile

  /** The rows in `done` have been changed and no others. */
  ghost predicate Changed(c: RowChange, rows: seq<Booking>, done: seq<nat>, bookings: seq<Booking>) {
    && |bookings| == |rows|
    && forall i: nat :: i < |rows| ==> bookings[i] == if i in done then Apply(c, rows[i]) else rows[i]
  }

  lemma ChangeOneMore(c: RowChange, rows: seq<Booking>, due: seq<nat>, k: nat, bookings: seq<Booking>)
    requires k < |due| && due[k] < |rows| && Changed(c, rows, due[..k], bookings)
    ensures Changed(c, rows, due[..k + 1], bookings[due[k] := Apply(c, rows[due[k]])])
  {
    assert due[..k + 1] == due[..k] + [due[k]];
  }

  /** After a loop over all due rows, the changed rows are the whole table changed at once. */
  lemma LoopIsMap(p: Pass, c: RowChange, before: seq<Booking>, after: seq<Booking>, now: int)
    requires forall i: nat :: i < |before| && !IsDue(p, before[i], now) ==> Apply(c, before[i]) == before[i]
    requires Changed(c, before, Due(p, before, now), after)
    ensures after == MapRows(before, c)
  {
  }

  lemma NotDueUnchanged(now: int, b: Booking, incidents: seq<Incident>)
    ensures !IsDue(Approvals, b, now) ==> Apply(ExpireApproval(now), b) == b
    ensures !IsDue(NoShows, b, now) ==> Apply(Forfeit(now, incidents), b) == b
    ensures !IsDue(Holds, b, now) ==> Apply(StartHold(now), b) == b
    ensures !IsDue(Completions, b, now) ==> Apply(Complete(now), b) == b
  {
  }

  lemma RejectMailSnoc(due: seq<nat>, k: nat)
    requires k < |due|
    ensures RejectMail(Elements(due[..k + 1])) == RejectMail(Elements(due[..k])) + {BookingRejected(due[k])}
  {
    assert Elements(due[..k + 1]) == Elements(due[..k]) + {due[k]} by {
      assert due[..k + 1] == due[..k] + [due[k]];
    }
  }

  ghost function Elements(ids: seq<nat>): set<nat> {
    set i | i in ids
  }

  method ExpireOverdueApprovals(d: Database, now: int, budget: nat) returns (within: bool)
    modifies d
    ensures within == !OverBudget(Approvals, old(d.State()), now, budget)
    ensures d.State() == if within then ExpireApprovals(old(d.State()), now) else old(d.State())
  {
    var due := Due(Approvals, d.bookings, now);
    if |due| > budget {
      return false;
    }
    ghost var rows := d.bookings;
    for k := 0 to |due|
      invariant Changed(ExpireApproval(now), rows, due[..k], d.bookings)
      invariant d.outbox == old(d.outbox) + RejectMail(Elements(due[..k]))
      invariant d.State() == old(d.State()).(bookings := d.bookings, outbox := d.outbox)
    {
      OrderedDistinct(Approvals, rows, due);
      var id := due[k];
      assert id in due && id !in due[..k];
      ChangeOneMore(ExpireApproval(now), rows, due, k, d.bookings);
      RejectMailSnoc(due, k);
      d.bookings := d.bookings[id := d.bookings[id].(status := Rejected)];
      d.outbox := d.outbox + {BookingRejected(id)};
    }
    assert due[..|due|] == due;
    assert Elements(due) == DueSet(Approvals, rows, now);
    forall i: nat | i < |rows| {
      NotDueUnchanged(now, rows[i], []);
    }
    LoopIsMap(Approvals, ExpireApproval(now), rows, d.bookings, now);
    return true;
  }

  method RecordNoShow(d: Database, id: nat, policy: Policy)
    requires id < |d.bookings|
    modifies d
    ensures d.bookings == old(d.bookings)[id := old(d.bookings)[id].(status := NoShow)]
    ensures d.violations == old(d.violations) +
      if HasNoShow(old(d.violations), id) then [] else [Strike(old(d.bookings)[id], id, policy)]
    ensures !HasNoShow(old(d.violations), id) ==>
      var b := old(d.bookings)[id];
      var missed := if b.deadline == None then b.slot else b.deadline.value;
      d.violations == old(d.violations) +
        [Violation(user := b.user, booking := Some(id), noShow := true, occurredAt := missed,
                   expiresAt := missed + policy.strikeWindow * DAY, counts := true, voidedAt := None, consumedBy := None,
                   incident := None)]
    ensures d.outbox == old(d.outbox) + if HasNoShow(old(d.violations), id) then {} else {BookingNoShow(id)}
    ensures d.State() ==
      old(d.State()).(bookings := d.bookings, violations := d.violations, outbox := d.outbox)
  {
    var booking := d.bookings[id];
    var occurredAt := DeadlineOf(booking);
    d.bookings := d.bookings[id := booking.(status := NoShow)];
    if !HasNoShow(d.violations, id) {
      var violation := Violation(booking.user, Some(id), true, occurredAt, occurredAt + policy.strikeWindow * DAY,
                                 true, None, None, None);
      d.violations := d.violations + [violation];
      d.outbox := d.outbox + {BookingNoShow(id)};
    }
  }

  lemma StrikesSnoc(db: Db, ids: seq<nat>, id: nat)
    requires InTable(ids + [id], db.bookings)
    ensures InTable(ids, db.bookings) && id < |db.bookings|
    ensures Strikes(db, ids + [id]) == Strikes(db, ids) + [Strike(db.bookings[id], id, CurrentPolicy(db))]
  {
    assert (ids + [id])[|ids|] == id;
    forall k | 0 <= k < |ids|
      ensures ids[k] < |db.bookings|
    {
      assert (ids + [id])[k] == ids[k];
    }
  }

  /** What the no-show loop has done once the due rows `done` are behind it. */
  ghost predicate Recorded(start: Db, now: int, done: seq<nat>, current: Db) {
    && InTable(done, start.bookings)
    && Changed(Forfeit(now, start.site.incidents), start.bookings, done, current.bookings)
    && current.violations == start.violations + Strikes(start, Struck(start, done))
    && current.outbox == start.outbox + NoShowMail(Struck(start, done))
    && current == start.(bookings := current.bookings, violations := current.violations, outbox := current.outbox)
  }

  lemma RecordedSkip(start: Db, now: int, done: seq<nat>, id: nat, current: Db)
    requires Recorded(start, now, done, current)
    requires id < |start.bookings| && Covered(start.site.incidents, start.bookings[id])
    ensures Recorded(start, now, done + [id], current)
  {
    assert (done + [id])[..|done|] == done;
  }

  lemma StruckSnoc(start: Db, done: seq<nat>, id: nat)
    requires InTable(done, start.bookings) && id < |start.bookings|
    requires !Covered(start.site.incidents, start.bookings[id])
    ensures InTable(done + [id], start.bookings)
    ensures Struck(start, done + [id]) ==
      if HasNoShow(start.violations, id) then Struck(start, done) else Struck(start, done) + [id]
  {
    assert (done + [id])[..|done|] == done;
  }

  /** The strikes recorded once one more uncovered row is behind the loop. */
  lemma StruckStep(start: Db, done: seq<nat>, id: nat, violations: seq<Violation>, outbox: set<Mail>)
    requires InTable(done, start.bookings) && id < |start.bookings| && id !in done
    requires !Covered(start.site.incidents, start.bookings[id])
    requires violations == start.violations + Strikes(start, Struck(start, done))
    requires outbox == start.outbox + NoShowMail(Struck(start, done))
    ensures InTable(done + [id], start.bookings)
    ensures HasNoShow(violations, id) ==>
      && violations == start.violations + Strikes(start, Struck(start, done + [id]))
      && outbox == start.outbox + NoShowMail(Struck(start, done + [id]))
    ensures !HasNoShow(violations, id) ==>
      && violations + [Strike(start.bookings[id], id, CurrentPolicy(start))] ==
         start.violations + Strikes(start, Struck(start, done + [id]))
      && outbox + {BookingNoShow(id)} == start.outbox + NoShowMail(Struck(start, done + [id]))
  {
    var struck := Struck(start, done);
    StruckSnoc(start, done, id);
    StrikesOfOthers(start, struck, id);
    if !HasNoShow(violations, id) {
      StrikesSnocIfFresh(start, struck, id);
      OneMoreStrike(start.violations, Strikes(start, struck), Strike(start.bookings[id], id, CurrentPolicy(start)));
    }
  }

  lemma OneMoreStrike(vs: seq<Violation>, strikes: seq<Violation>, v: Violation)
    ensures (vs + strikes) + [v] == vs + (strikes + [v])
  {
  }

  method RecordOverdueNoShows(d: Database, now: int, budget: nat) returns (within: bool)
    modifies d
    ensures within == !OverBudget(NoShows, old(d.State()), now, budget)
    ensures d.State() == if within then RecordNoShows(old(d.State()), now) else old(d.State())
  {
    var due := Due(NoShows, d.bookings, now);
    if |due| > budget {
      return false;
    }
    var policy := CurrentPolicy(d.State());
    ghost var start := d.State();
    for k := 0 to |due|
      invariant Recorded(start, now, due[..k], d.State())
    {
      OrderedDistinct(NoShows, start.bookings, due);
      var id := due[k];
      assert id in due;
      assert due[..k + 1] == due[..k] + [id];
      // A confirmed service incident: staff decides, nobody is penalised.
      if Covered(d.site.incidents, d.bookings[id]) {
        RecordedSkip(start, now, due[..k], id, d.State());
      } else {
        StruckStep(start, due[..k], id, d.violations, d.outbox);
        ChangeOneMore(Forfeit(now, start.site.incidents), start.bookings, due, k, d.bookings);
        RecordNoShow(d, id, policy);
      }
    }
    assert due[..|due|] == due;
    forall i: nat | i < |start.bookings| {
      NotDueUnchanged(now, start.bookings[i], start.site.incidents);
    }
    LoopIsMap(NoShows, Forfeit(now, start.site.incidents), start.bookings, d.bookings, now);
    return true;
  }

  lemma StrikesSnocIfFresh(db: Db, ids: seq<nat>, id: nat)
    requires InTable(ids, db.bookings) && id < |db.bookings|
    ensures InTable(ids + [id], db.bookings)
    ensures Strikes(db, ids + [id]) == Strikes(db, ids) + [Strike(db.bookings[id], id, CurrentPolicy(db))]
    ensures NoShowMail(ids + [id]) == NoShowMail(ids) + {BookingNoShow(id)}
  {
    StrikesSnoc(db, ids, id);
  }

  method StartStaffHolds(d: Database, now: int, budget: nat) returns (within: bool)
    modifies d
    ensures within == !OverBudget(Holds, old(d.State()), now, budget)
    ensures d.State() == if within then StartHolds(old(d.State()), now) else old(d.State())
  {
    var due := Due(Holds, d.bookings, now);
    if |due| > budget {
      return false;
    }
    ghost var rows := d.bookings;
    for k := 0 to |due|
      invariant Changed(StartHold(now), rows, due[..k], d.bookings)
      invariant d.State() == old(d.State()).(bookings := d.bookings)
    {
      OrderedDistinct(Holds, rows, due);
      var id := due[k];
      assert id in due && id !in due[..k];
      ChangeOneMore(StartHold(now), rows, due, k, d.bookings);
      var booking := d.bookings[id];
      d.bookings := d.bookings[id := booking.(status := InUse, checkedInAt := Some(booking.slot))];
    }
    assert due[..|due|] == due;
    forall i: nat | i < |rows| {
      NotDueUnchanged(now, rows[i], []);
    }
    LoopIsMap(Holds, StartHold(now), rows, d.bookings, now);
    return true;
  }

  method CompleteEndedSessions(d: Database, now: int, budget: nat) returns (within: bool)
    modifies d
    ensures within == !OverBudget(Completions, old(d.State()), now, budget)
    ensures d.State() == if within then CompleteSessions(old(d.State()), now) else old(d.State())
  {
    var due := Due(Completions, d.bookings, now);
    if |due| > budget {
      return false;
    }
    ghost var rows := d.bookings;
    for k := 0 to |due|
      invariant Changed(Complete(now), rows, due[..k], d.bookings)
      invariant d.State() == old(d.State()).(bookings := d.bookings)
    {
      OrderedDistinct(Completions, rows, due);
      var id := due[k];
      assert id in due && id !in due[..k];
      ChangeOneMore(Complete(now), rows, due, k, d.bookings);
      var booking := d.bookings[id];
      d.bookings := d.bookings[id := booking.(status := Completed, actualEnd := Some(booking.End()))];
    }
    assert due[..|due|] == due;
    forall i: nat | i < |rows| {
      NotDueUnchanged(now, rows[i], []);
    }
    LoopIsMap(Completions, Complete(now), rows, d.bookings, now);
    return true;
  }

  /** Cancelling one more row adds its notice. */
  lemma CancelMailSnoc(rows: seq<Booking>, change: RowChange, k: nat)
    requires k < |rows|
    ensures CancelMail(CancelledBy(rows[..k + 1], change)) == CancelMail(CancelledBy(rows[..k], change)) +
      if Apply(change, rows[k]).status.Cancelled? && !rows[k].status.Cancelled? then {BookingCancelled(k)} else {}
  {
    var here := if Apply(change, rows[k]).status.Cancelled? && !rows[k].status.Cancelled? then {k} else {};
    assert CancelledBy(rows[..k + 1], change) == CancelledBy(rows[..k], change) + here;
  }

  /** Cancel every open booking of one user, in table order. */
  method CancelRemaining(d: Database, user: nat, now: int, reason: CancelReason)
    modifies d
    ensures d.State() == CancelOpenFor(old(d.State()), user, now, reason)
  {
    ghost var rows := d.bookings;
    ghost var change := CancelOpenOf(user, now, reason);
    for k := 0 to |d.bookings|
      invariant |d.bookings| == |rows|
      invariant forall i: nat :: i < k ==> d.bookings[i] == Apply(change, rows[i])
      invariant forall i: nat :: k <= i < |rows| ==> d.bookings[i] == rows[i]
      invariant d.outbox == old(d.outbox) + CancelMail(CancelledBy(rows[..k], change))
      invariant d.State() == old(d.State()).(bookings := d.bookings, outbox := d.outbox)
    {
      CancelMailSnoc(rows, change, k);
      var booking := d.bookings[k];
      if booking.user == user && Open(booking.status) {
        d.bookings := d.bookings[k := booking.(status := Cancelled, cancelledAt := Some(now),
                                               cancelReason := Some(reason), late := false)];
        d.outbox := d.outbox + {BookingCancelled(k)};
      }
    }
    assert rows[..|rows|] == rows;
    assert d.bookings == MapRows(rows, change);
  }

  method CreateAutomaticSuspension(d: Database, user: nat, now: int)
    modifies d
    ensures d.State() == AutoSuspend(old(d.State()), user, now)
  {
    var policy := CurrentPolicy(d.State());
    var id := |d.suspensions|;
    d.suspensions := d.suspensions + [AutomaticSuspension(user, now, policy)];
    // A bulk update of the eligible strikes, evaluated once.
    d.violations := ConsumeStrikes(d.violations, user, id, now);
    d.outbox := d.outbox + {SuspensionApplied(id)};
    CancelRemaining(d, user, now, BySuspension);
  }

  method ApplyStrikeThresholds(d: Database, now: int)
    modifies d
    ensures d.State() == ApplyThresholds(old(d.State()), now)
  {
    var users := Offenders(d.State(), now);
    ghost var start := d.State();
    for k := 0 to |users|
      invariant d.State() == SuspendAll(start, users[..k], now)
    {
      assert users[..k + 1][..k] == users[..k];
      // Already suspended: never stack an automatic sanction.
      if !IsSuspended(d.State(), users[k], now) {
        CreateAutomaticSuspension(d, users[k], now);
      }
    }
    assert users[..|users|] == users;
  }

  method NotifyFinishedSuspensions(d: Database, now: int)
    modifies d
    ensures d.State() == NotifyFinished(old(d.State()), now)
  {
    ghost var rows := d.suspensions;
    for k := 0 to |d.suspensions|
      invariant |d.suspensions| == |rows|
      invariant forall i: nat :: i < |rows| ==> d.suspensions[i] == if i < k then MarkEnded(rows[i], now) else rows[i]
      invariant d.outbox == old(d.outbox) + set i: nat | i < k && EndDue(rows[i], now) :: SuspensionEnded(i)
      invariant d.State() == old(d.State()).(suspensions := d.suspensions, outbox := d.outbox)
    {
      var suspension := d.suspensions[k];
      if EndDue(suspension, now) {
        d.suspensions := d.suspensions[k := suspension.(endNotifiedAt := Some(now))];
        d.outbox := d.outbox + {SuspensionEnded(k)};
      }
    }
    assert d.suspensions == MarkAllEnded(rows, now);
  }

  /** One reconciliation run. `complete` is false when a pass found more due rows than the budget:
      the earlier passes stand and the rest did not start. */
  method RunReconcile(d: Database, now: int, budget: nat) returns (complete: bool)
    modifies d
    ensures Reconciled(d.State(), complete) == Run(old(d.State()), now, budget)
  {
    complete := ExpireOverdueApprovals(d, now, budget);
    if !complete {
      return;
    }
    complete := RecordOverdueNoShows(d, now, budget);
    if !complete {
      return;
    }
    complete := StartStaffHolds(d, now, budget);
    if !complete {
      return;
    }
    complete := CompleteEndedSessions(d, now, budget);
    if !complete {
      return;
    }
    ApplyStrikeThresholds(d, now);
    NotifyFinishedSuspensions(d, now);
  }
}
