/** A backlog no run can clear: a pass that finds more due rows than its budget stops before the first of
    them, so the rows are still due at the next run, and nothing else may run before it. */
module Backlog {
  import opened Slots
  import opened Tables
  import opened Rules
  import opened Changes
  import opened Reconcile
  import opened Bookings
  import opened Operations
  import opened Protocol
  import opened Invariants
  import opened Ledgers
  import opened Soundness
  import opened Standing
  import opened FixedPoint
  import opened Machine
  import opened Examples

  ghost function DueBelow(p: Pass, bs: seq<Booking>, n: nat, now: int): set<nat>
    requires n <= |bs|
  {
    set i: nat | i < n && IsDue(p, bs[i], now)
  }

  lemma OneMoreElement(a: set<nat>, n: nat, b: set<nat>)
    requires n !in a && forall i :: i in b <==> i in a || i == n
    ensures |b| == |a| + 1
  {
    assert b == a + {n};
  }

  lemma DueBelowStep(p: Pass, bs: seq<Booking>, n: nat, now: int)
    requires n < |bs|
    ensures |DueBelow(p, bs, n + 1, now)| == |DueBelow(p, bs, n, now)| + if IsDue(p, bs[n], now) then 1 else 0
  {
    if IsDue(p, bs[n], now) {
      OneMoreElement(DueBelow(p, bs, n, now), n, DueBelow(p, bs, n + 1, now));
    } else {
      assert DueBelow(p, bs, n, now) == DueBelow(p, bs, n + 1, now);
    }
  }

  /** As many rows are worked through as there are due rows. */
  lemma {:induction false} DueAmongCount(p: Pass, bs: seq<Booking>, n: nat, now: int)
    requires n <= |bs|
    ensures |DueAmong(p, bs, n, now)| == |DueBelow(p, bs, n, now)|
  {
    if n > 0 {
      DueAmongCount(p, bs, n - 1, now);
      DueBelowStep(p, bs, n - 1, now);
    }
  }

  // ---------------------------------------------------------------- when a run completes

  /** How many rows the pass finds due in the tables as they are. */
  ghost function DueCount(p: Pass, db: Db, now: int): nat {
    |DueBelow(p, db.bookings, |db.bookings|, now)|
  }

  /** Some pass has more due rows than the budget. */
  ghost predicate Backlogged(db: Db, now: int, budget: nat) {
    exists p: Pass :: DueCount(p, db, now) > budget
  }

  /** The change is made at `now` by a pass that runs before `p`. */
  predicate Precedes(c: RowChange, p: Pass, now: int) {
    match c
    case ExpireApproval(at) => at == now && !p.Approvals?
    case Forfeit(at, _) => at == now && (p.Holds? || p.Completions?)
    case StartHold(at) => at == now && p.Completions?
    case _ => false
  }

  /** The earlier passes make no row due for a later pass, and touch none that is. */
  lemma DueUnmoved(c: RowChange, p: Pass, b: Booking, now: int)
    requires Precedes(c, p, now)
    ensures IsDue(p, Apply(c, b), now) <==> IsDue(p, b, now)
    ensures IsDue(p, b, now) ==> Apply(c, b) == b
  {
  }

  lemma CountUnmoved(c: RowChange, p: Pass, bs: seq<Booking>, now: int)
    requires Precedes(c, p, now)
    ensures DueBelow(p, MapRows(bs, c), |bs|, now) == DueBelow(p, bs, |bs|, now)
  {
    forall i | 0 <= i < |bs|
      ensures IsDue(p, MapRows(bs, c)[i], now) <==> IsDue(p, bs[i], now)
    {
      DueUnmoved(c, p, bs[i], now);
    }
  }

  lemma OverBudgetCount(p: Pass, db: Db, now: int, budget: nat)
    ensures OverBudget(p, db, now, budget) <==> DueCount(p, db, now) > budget
  {
    DueAmongCount(p, db.bookings, |db.bookings|, now);
  }

  /** What the passes of a run count is what they would count before it. */
  lemma CountsAtStart(db: Db, now: int, budget: nat)
    ensures var a := ExpireApprovals(db, now);
      var b := RecordNoShows(a, now);
      var c := StartHolds(b, now);
      && (OverBudget(Approvals, db, now, budget) <==> DueCount(Approvals, db, now) > budget)
      && (OverBudget(NoShows, a, now, budget) <==> DueCount(NoShows, db, now) > budget)
      && (OverBudget(Holds, b, now, budget) <==> DueCount(Holds, db, now) > budget)
      && (OverBudget(Completions, c, now, budget) <==> DueCount(Completions, db, now) > budget)
  {
    var a := ExpireApprovals(db, now);
    var b := RecordNoShows(a, now);
    var c := StartHolds(b, now);
    OverBudgetCount(Approvals, db, now, budget);
    OverBudgetCount(NoShows, a, now, budget);
    OverBudgetCount(Holds, b, now, budget);
    OverBudgetCount(Completions, c, now, budget);
    CountUnmoved(ExpireApproval(now), NoShows, db.bookings, now);
    CountUnmoved(ExpireApproval(now), Holds, db.bookings, now);
    CountUnmoved(ExpireApproval(now), Completions, db.bookings, now);
    CountUnmoved(Forfeit(now, a.site.incidents), Holds, a.bookings, now);
    CountUnmoved(Forfeit(now, a.site.incidents), Completions, a.bookings, now);
    CountUnmoved(StartHold(now), Completions, b.bookings, now);
  }

  lemma WithinEach(db: Db, now: int, budget: nat)
    ensures Backlogged(db, now, budget) <==>
      || DueCount(Approvals, db, now) > budget || DueCount(NoShows, db, now) > budget
      || DueCount(Holds, db, now) > budget || DueCount(Completions, db, now) > budget
  {
  }

  /** A run completes if and only if no pass has more due rows than the budget when the run begins. */
  lemma CompletesExactly(db: Db, now: int, budget: nat)
    ensures Run(db, now, budget).complete <==> !Backlogged(db, now, budget)
  {
    WithinEach(db, now, budget);
    CountsAtStart(db, now, budget);
  }

  // ---------------------------------------------------------------- a backlog stays

  /** A stopped run leaves every row that is due for the pass over budget exactly as it was. */
  lemma RunKeepsDue(p: Pass, db: Db, now: int, budget: nat)
    requires DueCount(p, db, now) > budget
    ensures var next := Run(db, now, budget).db.bookings;
      && |next| == |db.bookings|
      && forall i :: 0 <= i < |next| && IsDue(p, db.bookings[i], now) ==> next[i] == db.bookings[i]
  {
    CountsAtStart(db, now, budget);
    if OverBudget(Approvals, db, now, budget) {
      return;
    }
    var a := ExpireApprovals(db, now);
    MapKeepsDue(ExpireApproval(now), p, db.bookings, db.bookings, now);
    if OverBudget(NoShows, a, now, budget) {
      return;
    }
    var b := RecordNoShows(a, now);
    MapKeepsDue(Forfeit(now, a.site.incidents), p, db.bookings, a.bookings, now);
    if OverBudget(Holds, b, now, budget) {
      return;
    }
    MapKeepsDue(StartHold(now), p, db.bookings, b.bookings, now);
  }

  lemma MapKeepsDue(c: RowChange, p: Pass, bs: seq<Booking>, cs: seq<Booking>, now: int)
    requires Precedes(c, p, now) && |cs| == |bs|
    requires forall i :: 0 <= i < |bs| && IsDue(p, bs[i], now) ==> cs[i] == bs[i]
    ensures forall i :: 0 <= i < |bs| && IsDue(p, bs[i], now) ==> MapRows(cs, c)[i] == bs[i]
  {
    forall i | 0 <= i < |bs| && IsDue(p, bs[i], now)
      ensures MapRows(cs, c)[i] == bs[i]
    {
      DueUnmoved(c, p, bs[i], now);
    }
  }

  lemma RunStaysBacklogged(db: Db, now: int, budget: nat)
    requires Backlogged(db, now, budget)
    ensures Backlogged(Run(db, now, budget).db, now, budget)
  {
    var p: Pass :| DueCount(p, db, now) > budget;
    RunKeepsDue(p, db, now, budget);
    var next := Run(db, now, budget).db;
    SubsetCard(DueBelow(p, db.bookings, |db.bookings|, now), DueBelow(p, next.bookings, |next.bookings|, now));
    assert DueCount(p, next, now) > budget;
  }

  /** Rows stay due as time passes; a staff hold whose hour has ended is due for completion instead. */
  lemma DueLater(p: Pass, b: Booking, clock: int, now: int)
    requires IsDue(p, b, clock) && clock <= now
    ensures IsDue(p, b, now) || (p.Holds? && IsDue(Completions, b, now))
  {
  }

  /** The staff holds in their hour all stand in the same hour. */
  lemma HoldsShareTheHour(b: Booking, clock: int)
    requires HourAligned(b.slot) && IsDue(Holds, b, clock)
    ensures b.slot == FloorToSlot(clock)
  {
    FloorToSlotIsTheOnlySlot(clock, b.slot);
  }

  lemma WaitingStaysBacklogged(db: Db, clock: int, now: int, budget: nat)
    requires Backlogged(db, clock, budget) && clock <= now
    requires forall i :: 0 <= i < |db.bookings| ==> HourAligned(db.bookings[i].slot)
    ensures Backlogged(db, now, budget)
  {
    var p: Pass :| DueCount(p, db, clock) > budget;
    var q := if p.Holds? && FloorToSlot(clock) + HOUR <= now then Completions else p;
    forall i | i in DueBelow(p, db.bookings, |db.bookings|, clock)
      ensures i in DueBelow(q, db.bookings, |db.bookings|, now)
    {
      DueLater(p, db.bookings[i], clock, now);
      if p.Holds? {
        HoldsShareTheHour(db.bookings[i], clock);
      }
    }
    SubsetCard(DueBelow(p, db.bookings, |db.bookings|, clock), DueBelow(q, db.bookings, |db.bookings|, now));
    assert DueCount(q, db, now) > budget;
  }

  // ---------------------------------------------------------------- whole histories

  /** No booking is added, no suspension given or changed, and nothing staff keep changes but the
      timetable. */
  ghost predicate Frozen(db: Db, next: Db) {
    && |next.bookings| == |db.bookings| && next.suspensions == db.suspensions
    && next.site == db.site.(blocks := next.site.blocks)
  }

  /** What a backlogged engine does with the next event: a request that is granted the lock is answered
      busy, a tick changes nothing. */
  ghost predicate Silent(s: State, e: Event, budget: nat) {
    match e
    case Ask(attempts, call, op) =>
      Deciding(attempts).Granted? ==> RunOperation(s.db, attempts, budget, call, BodyFor(op)).reply == Rejection(Busy)
    case Tick(now) => Next(s, e, budget).db == s.db
    case _ => true
  }

  /** A request in a backlog is answered busy, and any request outside one is not for want of budget. */
  lemma BusyExactlyWhenBacklogged(db: Db, now: int, budget: nat, call: Call, body: BodyOf)
    ensures Backlogged(db, now, budget) ==>
      RunOnce(db, now, budget, call, body) == Ran(Run(db, now, budget).db, Rejection(Busy))
    ensures !Backlogged(db, now, budget) ==> Run(db, now, budget).complete
  {
    CompletesExactly(db, now, budget);
  }

  lemma StoppedRunFreezes(db: Db, now: int, budget: nat)
    requires Backlogged(db, now, budget)
    ensures Frozen(db, Run(db, now, budget).db)
  {
    CompletesExactly(db, now, budget);
  }

  lemma BackloggedNext(s: State, e: Event, budget: nat)
    requires Sound(s.db, s.clock) && s.clock <= ClockAfter(s.clock, e) && Backlogged(s.db, s.clock, budget)
    ensures Backlogged(Next(s, e, budget).db, ClockAfter(s.clock, e), budget)
    ensures Frozen(s.db, Next(s, e, budget).db) && Silent(s, e, budget)
    ensures !Run(s.db, ClockAfter(s.clock, e), budget).complete
  {
    var now := ClockAfter(s.clock, e);
    assert forall i :: 0 <= i < |s.db.bookings| ==> RowValid(s.db.bookings[i], s.clock);
    WaitingStaysBacklogged(s.db, s.clock, now, budget);
    RunStaysBacklogged(s.db, now, budget);
    StoppedRunFreezes(s.db, now, budget);
    CompletesExactly(s.db, now, budget);
    match e
    case Ask(attempts, call, op) =>
      RetriesLeaveNoTrace(s.db, attempts, budget, call, BodyFor(op));
      BusyExactlyWhenBacklogged(s.db, now, budget, call, BodyFor(op));
    case Tick(_) =>
    case Timetable(_) => SameBookings(s.db, Next(s, e, budget).db, now, budget);
    case Prune(_) => SameBookings(s.db, Next(s, e, budget).db, now, budget);
  }

  lemma SameBookings(db: Db, next: Db, now: int, budget: nat)
    requires next.bookings == db.bookings && Backlogged(db, now, budget)
    ensures Backlogged(next, now, budget)
  {
    var p: Pass :| DueCount(p, db, now) > budget;
    assert DueCount(p, next, now) > budget;
  }

  /** Once some pass is over budget, it is for good: along every history the backlog stays, no booking is
      added and no suspension, closure, incident or policy is - so nobody can clear it. */
  lemma {:induction false} BacklogIsForever(s: State, events: seq<Event>, budget: nat)
    requires Sound(s.db, s.clock) && Backlogged(s.db, s.clock, budget) && Forward(s, events, budget)
    ensures Backlogged(Play(s, events, budget).db, Play(s, events, budget).clock, budget)
    ensures Frozen(s.db, Play(s, events, budget).db)
    decreases |events|
  {
    if events != [] {
      var front := events[..|events| - 1];
      ForwardPrefix(s, events, budget);
      BacklogIsForever(s, front, budget);
      EveryHistoryIsSound(s, front, budget);
      BackloggedNext(Play(s, front, budget), events[|events| - 1], budget);
    }
  }

  /** Every request of such a history that is granted the lock is answered busy, every tick changes
      nothing and every run stops. */
  lemma BacklogSilences(s: State, events: seq<Event>, budget: nat)
    requires Sound(s.db, s.clock) && Backlogged(s.db, s.clock, budget) && events != [] && Forward(s, events, budget)
    ensures var before, last := Play(s, events[..|events| - 1], budget), events[|events| - 1];
      && Silent(before, last, budget)
      && !Run(before.db, ClockAfter(before.clock, last), budget).complete
  {
    var front, last := events[..|events| - 1], events[|events| - 1];
    var before := Play(s, front, budget);
    ForwardPrefix(s, events, budget);
    BacklogIsForever(s, front, budget);
    EveryHistoryIsSound(s, front, budget);
    BackloggedNext(before, last, budget);
  }

  // ---------------------------------------------------------------- a backlog

  /** Reservations of `n` students in `n` rooms for that hour, no incident, nothing else. */
  function Crowd(n: nat): Db {
    Few(seq(n, i requires 0 <= i < n => AtNine(i, i)), [], {})
  }

  lemma CrowdIsSound(n: nat)
    ensures Sound(Crowd(n), NINE + 15 * MINUTE)
  {
    var db, now := Crowd(n), NINE + 15 * MINUTE;
    forall i | 0 <= i < n
      ensures RowValid(db.bookings[i], now)
    {
    }
    FewIsSound(db.bookings, [], {}, now);
  }

  /** At the deadline all of them are overdue: a sound state that one reservation more than the budget, all
      missed at once, stops for good, without any incident. */
  lemma CrowdStops(budget: nat, n: nat)
    ensures Sound(Crowd(n), NINE + 15 * MINUTE) && Crowd(n).site.incidents == []
    ensures Backlogged(Crowd(n), NINE + 15 * MINUTE, budget) <==> n > budget
  {
    var db, now := Crowd(n), NINE + 15 * MINUTE;
    CrowdIsSound(n);
    CrowdCounts(n);
    WithinEach(db, now, budget);
  }

  lemma CrowdCounts(n: nat)
    ensures DueCount(NoShows, Crowd(n), NINE + 15 * MINUTE) == n
    ensures forall p: Pass :: !p.NoShows? ==> DueCount(p, Crowd(n), NINE + 15 * MINUTE) == 0
  {
    var db, now := Crowd(n), NINE + 15 * MINUTE;
    CountTo(n, DueBelow(NoShows, db.bookings, n, now));
    forall p: Pass | !p.NoShows?
      ensures DueCount(p, db, now) == 0
    {
      assert DueBelow(p, db.bookings, n, now) == {};
    }
  }

  lemma {:induction false} CountTo(n: nat, s: set<nat>)
    requires forall i: nat :: i in s <==> i < n
    ensures |s| == n
  {
    if n == 0 {
      assert s == {};
    } else {
      CountTo(n - 1, s - {n - 1});
    }
  }

  // ---------------------------------------------------------------- reservations incidents cover

  predicate Waits(b: Booking, incidents: seq<Incident>, now: int) {
    Overdue(b, now) && Covered(incidents, b)
  }

  ghost function Waiting(db: Db, now: int): set<nat> {
    set i: nat | i < |db.bookings| && Waits(db.bookings[i], db.site.incidents, now)
  }

  /** More overdue reservations are covered by incidents than one run may look at. */
  ghost predicate Jammed(db: Db, now: int, budget: nat) {
    |Waiting(db, now)| > budget
  }

  lemma JamExceedsBudget(db: Db, now: int, budget: nat)
    requires Jammed(db, now, budget)
    ensures OverBudget(NoShows, db, now, budget)
  {
    DueAmongCount(NoShows, db.bookings, |db.bookings|, now);
    SubsetCard(Waiting(db, now), DueBelow(NoShows, db.bookings, |db.bookings|, now));
  }

  /** `next` is `db` but for requests that expired unanswered, notices, idempotency records and the
      timetable. */
  ghost predicate Stalled(db: Db, next: Db) {
    && |next.bookings| == |db.bookings|
    && (forall i :: 0 <= i < |db.bookings| ==>
          || next.bookings[i] == db.bookings[i]
          || (db.bookings[i].status.PendingApproval? && next.bookings[i] == db.bookings[i].(status := Rejected)))
    && next.violations == db.violations && next.suspensions == db.suspensions
    && next.site == db.site.(blocks := next.site.blocks)
  }

  lemma JamStays(db: Db, next: Db, clock: int, now: int, budget: nat)
    requires Jammed(db, clock, budget) && clock <= now && Stalled(db, next)
    ensures Jammed(next, now, budget)
  {
    forall i | i in Waiting(db, clock)
      ensures i in Waiting(next, now)
    {
      SameCover(db.site.incidents, db.bookings[i], next.bookings[i]);
    }
    SubsetCard(Waiting(db, clock), Waiting(next, now));
  }

  lemma JammedRun(db: Db, now: int, budget: nat)
    requires Jammed(db, now, budget)
    ensures !Run(db, now, budget).complete && Stalled(db, Run(db, now, budget).db)
  {
    var a := ExpireApprovals(db, now);
    assert Stalled(db, a);
    JamStays(db, a, now, now, budget);
    JamExceedsBudget(a, now, budget);
  }

  lemma JammedNext(s: State, e: Event, budget: nat)
    requires Jammed(s.db, s.clock, budget) && s.clock <= ClockAfter(s.clock, e)
    ensures Stalled(s.db, Next(s, e, budget).db)
  {
    var now := ClockAfter(s.clock, e);
    JamStays(s.db, s.db, s.clock, now, budget);
    JammedRun(s.db, now, budget);
    match e
    case Ask(attempts, call, op) => AskDid(s.db, attempts, call, op, budget);
    case Tick(_) =>
    case Timetable(_) =>
    case Prune(_) =>
  }

  /** Too many covered reservations are such a backlog even if none of them is anybody's fault. */
  lemma JamIsBacklog(db: Db, now: int, budget: nat)
    requires Jammed(db, now, budget)
    ensures Backlogged(db, now, budget)
  {
    JamExceedsBudget(db, now, budget);
    OverBudgetCount(NoShows, db, now, budget);
  }

  /** In a jam nothing moves at all, except that requests go unanswered and expire. */
  lemma {:induction false} JamIsForever(s: State, events: seq<Event>, budget: nat)
    requires Jammed(s.db, s.clock, budget) && Forward(s, events, budget)
    ensures Jammed(Play(s, events, budget).db, Play(s, events, budget).clock, budget)
    ensures Stalled(s.db, Play(s, events, budget).db)
    ensures Backlogged(Play(s, events, budget).db, Play(s, events, budget).clock, budget)
    decreases |events|
  {
    if events != [] {
      var front, last := events[..|events| - 1], events[|events| - 1];
      var before := Play(s, front, budget);
      ForwardPrefix(s, events, budget);
      JamIsForever(s, front, budget);
      JammedNext(before, last, budget);
      JamStays(before.db, Next(before, last, budget).db, before.clock, ClockAfter(before.clock, last), budget);
    }
    JamIsBacklog(Play(s, events, budget).db, Play(s, events, budget).clock, budget);
  }

  /** A jammed engine too answers every request that is granted the lock busy. */
  lemma JammedIsBusy(db: Db, now: int, budget: nat, call: Call, body: BodyOf)
    requires Jammed(db, now, budget)
    ensures RunOnce(db, now, budget, call, body).reply == Rejection(Busy)
  {
    JammedRun(db, now, budget);
  }
}
