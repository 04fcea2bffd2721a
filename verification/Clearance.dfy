/** Closures and the bookings they meet: what a new closure leaves open, and when no open booking
    ever lies under a closure in force. */
module Clearance {
  import opened Slots
  import opened Tables
  import opened Rules
  import opened Changes
  import opened Reconcile
  import opened Bookings
  import opened Sanctions
  import opened Maintenance
  import opened Operations
  import opened Protocol
  import opened Invariants
  import opened Soundness
  import opened BodySound
  import opened FixedPoint
  import opened Machine
  import opened Examples

  // ---------------------------------------------------------------- one closure

  /** The preview splits the affected bookings: those it cancels and those it flags. */
  lemma PreviewSplits(bs: seq<Booking>, scope: Option<nat>, starts: int, ends: int, clock: int)
    ensures var p := PreviewClosure(bs, scope, starts, ends, clock);
      && p.scheduled !! p.inUse
      && forall i: nat :: i in p.scheduled + p.inUse <==> i < |bs| && Affected(bs[i], scope, starts, ends)
  {
  }

  /** On reconciled tables, read at the time of the reconciliation, the flagged bookings are exactly
      the sessions in use. */
  lemma FlaggedAreInUse(db: Db, scope: Option<nat>, starts: int, ends: int, now: int)
    requires Settled(db, now)
    ensures var p := PreviewClosure(db.bookings, scope, starts, ends, now);
      forall i: nat :: i in p.inUse <==>
        i < |db.bookings| && Affected(db.bookings[i], scope, starts, ends) && db.bookings[i].status.InUse?
  {
    forall i: nat | i < |db.bookings| && Upcoming(db.bookings[i].status)
      ensures InProgress(db.bookings[i], now) <==> db.bookings[i].status.InUse?
    {
      assert !IsDue(Approvals, db.bookings[i], now) && !IsDue(Holds, db.bookings[i], now);
      assert !IsDue(Completions, db.bookings[i], now);
    }
  }

  /** A staff hold the closure meets that starts after the operation's time but not after the time
      its preview read: it is flagged as if in progress and stays open. */
  predicate SlipsThrough(b: Booking, scope: Option<nat>, starts: int, ends: int, now: int, clock: int) {
    Open(b.status) && b.staff && now < b.slot <= clock && Affected(b, scope, starts, ends)
  }

  /** A closure created on reconciled, clear tables leaves them clear exactly when no staff hold
      slips through. */
  lemma ClosureClearsExactly(db: Db, now: int, clock: int, scope: Option<nat>, starts: int, ends: int, reason: string,
                             reasonGiven: bool, acknowledged: bool)
    requires Settled(db, now) && AllClear(db.bookings, db.site.closures)
    requires Succeeded(CreateClosure(db, now, clock, scope, starts, ends, reason, reasonGiven, acknowledged).exit)
    ensures var next := CreateClosure(db, now, clock, scope, starts, ends, reason, reasonGiven, acknowledged).db;
      AllClear(next.bookings, next.site.closures) <==>
      forall i :: 0 <= i < |db.bookings| ==> !SlipsThrough(db.bookings[i], scope, starts, ends, now, clock)
  {
    var c := CloseOver(scope, starts, ends, now, clock);
    var closure := Closure(scope, starts, ends, None, acknowledged, reason);
    var bs, cs := db.bookings, db.site.closures;
    var rows := MapRows(bs, c);
    assert (cs + [closure])[|cs|] == closure;
    forall i | 0 <= i < |bs|
      ensures Open(rows[i].status) && !ClearOf(rows[i], cs + [closure]) <==>
        SlipsThrough(bs[i], scope, starts, ends, now, clock)
    {
      assert !IsDue(Approvals, bs[i], now) && !IsDue(Holds, bs[i], now) && !IsDue(Completions, bs[i], now);
      assert rows[i] == Apply(c, bs[i]);
      ApplyIsLater(c, bs[i]);
      if Open(rows[i].status) {
        assert ClearOf(bs[i], cs);
        assert ClearOf(rows[i], cs + [closure]) <==> !ClosureCovers(closure, bs[i].slot, bs[i].room);
      }
    }
  }

  /** What a staff hold of the hour from nine, made on empty tables the day before, leaves. */
  function SlipTables(): Db {
    CreateStaffHold(EMPTY, 0, STAFF, HALL, 1, 9, 10, UNTITLED).db
  }

  lemma SlipTablesAre()
    ensures Succeeded(CreateStaffHold(EMPTY, 0, STAFF, HALL, 1, 9, 10, UNTITLED).exit)
    ensures SlipTables() == Few([HELD_AT_NINE], [], {})
  {
    HoldsFromNine(1);
    assert SlotStartFor(1, 9) == NINE;
    assert SlipTables().bookings == [HELD_AT_NINE];
  }

  /** A closure of that hour begun a second before it and previewed as it starts: the operation
      succeeds and the hold stays open under the closure. */
  lemma HoldSlipsThrough()
    ensures Succeeded(CreateStaffHold(EMPTY, 0, STAFF, HALL, 1, 9, 10, UNTITLED).exit)
    ensures var db, now := SlipTables(), NINE - SECOND;
      var r := CreateClosure(db, now, NINE, Some(1), NINE, NINE + HOUR, "repair", true, true);
      && Sound(db, now) && Settled(db, now) && AllClear(db.bookings, db.site.closures)
      && Succeeded(r.exit) && !AllClear(r.db.bookings, r.db.site.closures)
  {
    var db, now := Few([HELD_AT_NINE], [], {}), NINE - SECOND;
    SlipTablesAre();
    assert SlipsThrough(db.bookings[0], Some(1), NINE, NINE + HOUR, now, NINE);
    SlipTablesSettled(now);
    SlipTablesSound(now);
    ClosureClearsExactly(db, now, NINE, Some(1), NINE, NINE + HOUR, "repair", true, true);
  }

  lemma SlipTablesSettled(now: int)
    requires now < NINE
    ensures Settled(Few([HELD_AT_NINE], [], {}), now)
  {
    forall user
      ensures StrikeIds([], user, now) == {}
    {
    }
  }

  lemma SlipTablesSound(now: int)
    requires 0 <= now
    ensures Sound(Few([HELD_AT_NINE], [], {}), now)
  {
    assert RowValid(HELD_AT_NINE, now);
    FewIsSound([HELD_AT_NINE], [], {}, now);
  }

  // ---------------------------------------------------------------- every other step

  /** Every open row of `cs` was open in the same room and hour before, or is clear itself. */
  ghost predicate OpenedClear(bs: seq<Booking>, cs: seq<Booking>, closures: seq<Closure>) {
    forall i :: 0 <= i < |cs| && Open(cs[i].status) ==>
      || (i < |bs| && Open(bs[i].status) && SameCell(bs[i], cs[i]))
      || ClearOf(cs[i], closures)
  }

  lemma LaterOpensClear(bs: seq<Booking>, cs: seq<Booking>, closures: seq<Closure>)
    requires AllLater(bs, cs)
    ensures OpenedClear(bs, cs, closures)
  {
    assert forall i :: 0 <= i < |bs| ==> Later(bs[i], cs[i]);
  }

  lemma MapOpensClear(bs: seq<Booking>, c: RowChange, closures: seq<Closure>)
    ensures OpenedClear(bs, MapRows(bs, c), closures)
  {
    MapIsLater(c, bs);
    LaterOpensClear(bs, MapRows(bs, c), closures);
  }

  lemma TwoMapsOpenClear(bs: seq<Booking>, c: RowChange, e: RowChange, closures: seq<Closure>)
    ensures OpenedClear(bs, MapRows(MapRows(bs, c), e), closures)
  {
    MapIsLater(c, bs);
    LaterByMap(bs, MapRows(bs, c), e);
    LaterOpensClear(bs, MapRows(MapRows(bs, c), e), closures);
  }

  lemma ClearKept(bs: seq<Booking>, cs: seq<Booking>, closures: seq<Closure>)
    requires AllClear(bs, closures) && OpenedClear(bs, cs, closures)
    ensures AllClear(cs, closures)
  {
    forall i | 0 <= i < |cs| && Open(cs[i].status)
      ensures ClearOf(cs[i], closures)
    {
      assert i < |bs| && Open(bs[i].status) && SameCell(bs[i], cs[i]) ==> ClearOf(bs[i], closures);
    }
  }

  lemma {:induction false} HoldIsClear(db: Db, room: Room, date: int, hour: int, end: int, at: int)
    requires FirstShut(db, room, date, hour, end).None? && hour <= at < end
    ensures forall k :: 0 <= k < |db.site.closures| ==> !ClosureCovers(db.site.closures[k], SlotStartFor(date, at), room.id)
    decreases end - hour
  {
    if at == hour {
      OpenMeansClear(db, SlotStartFor(date, hour), room);
    } else {
      HoldIsClear(db, room, date, hour + 1, end, at);
    }
  }

  lemma HoldsOpenClear(db: Db, now: int, actor: User, room: Room, date: int, hour: int, end: int, details: Details)
    requires Succeeded(CreateStaffHold(db, now, actor, room, date, hour, end, details).exit)
    ensures OpenedClear(db.bookings, CreateStaffHold(db, now, actor, room, date, hour, end, details).db.bookings,
                        db.site.closures)
  {
    var rows := HoldRows(db, now, actor, room, date, hour, end - hour, details);
    forall k | 0 <= k < |rows|
      ensures ClearOf(rows[k], db.site.closures)
    {
      HoldIsClear(db, room, date, hour, end, hour + k);
    }
  }

  lemma AdvanceOpensClear(db: Db, now: int, actor: User, room: Room, slot: int, details: Details)
    requires Succeeded(CreateAdvance(db, now, actor, room, slot, details).exit)
    ensures OpenedClear(db.bookings, CreateAdvance(db, now, actor, room, slot, details).db.bookings, db.site.closures)
  {
    OpenMeansClear(db, slot, room);
  }

  lemma MoveOpensClear(db: Db, now: int, actor: User, id: nat, room: Room)
    requires Succeeded(Move(db, now, actor, id, room).exit)
    ensures OpenedClear(db.bookings, Move(db, now, actor, id, room).db.bookings, db.site.closures)
  {
    OpenMeansClear(db, db.bookings[id].slot, room);
  }

  lemma BookingBodyOpensClear(db: Db, now: int, op: BookingOp)
    requires Succeeded(BookingBody(db, now, op).exit)
    ensures OpenedClear(db.bookings, BookingBody(db, now, op).db.bookings, db.site.closures)
  {
    match op
    case OpAdvance(actor, room, slot, details) => AdvanceOpensClear(db, now, actor, room, slot, details);
    case OpStaffHold(actor, room, date, hour, end, details) =>
      HoldsOpenClear(db, now, actor, room, date, hour, end, details);
    case OpMove(actor, id, room) => MoveOpensClear(db, now, actor, id, room);
    case OpCancelSeries(_, series) => MapOpensClear(db.bookings, CancelOccurrences(series, now), db.site.closures);
    case OpUseNow(actor, room) => AppendOpensClear(db, BookingBody(db, now, op).db);
    case _ => EditOpensClear(db, BookingBody(db, now, op).db, op.booking);
  }

  lemma AppendOpensClear(db: Db, next: Db)
    requires |next.bookings| == |db.bookings| + 1 && next.bookings[..|db.bookings|] == db.bookings
    requires !Open(next.bookings[|db.bookings|].status)
    ensures OpenedClear(db.bookings, next.bookings, db.site.closures)
  {
    assert forall i :: 0 <= i < |db.bookings| ==> next.bookings[..|db.bookings|][i] == next.bookings[i];
  }

  lemma EditOpensClear(db: Db, next: Db, id: nat)
    requires id < |db.bookings| == |next.bookings| && next.bookings == db.bookings[id := next.bookings[id]]
    requires Open(next.bookings[id].status) ==> Open(db.bookings[id].status) && SameCell(db.bookings[id], next.bookings[id])
    ensures OpenedClear(db.bookings, next.bookings, db.site.closures)
  {
  }

  lemma RecordOpensClear(db: Db, mid: Db, now: int)
    requires mid.bookings == db.bookings
    ensures OpenedClear(db.bookings, ApplyThresholds(mid, now).bookings, db.site.closures)
  {
    LaterReflexive(db.bookings);
    SuspendAllLater(db.bookings, mid, Offenders(mid, now), now);
    LaterOpensClear(db.bookings, ApplyThresholds(mid, now).bookings, db.site.closures);
  }

  lemma SanctionBodyOpensClear(db: Db, now: int, op: SanctionOp)
    requires Succeeded(SanctionBody(db, now, op).exit)
    ensures OpenedClear(db.bookings, SanctionBody(db, now, op).db.bookings, db.site.closures)
  {
    match op
    case OpRecordViolation(user, _, counts, occurredAt, incident) =>
      var at := if occurredAt.Some? then occurredAt.value else now;
      var mid := db.(violations := db.violations + [ManualViolation(user, at, CurrentPolicy(db), counts, incident)]);
      RecordOpensClear(db, mid, now);
    case OpSuspend(user, _, _) => MapOpensClear(db.bookings, CancelOpenOf(user, now, BySuspension), db.site.closures);
    case _ =>
  }

  /** The closure's preview reads the clock within the hour the operation runs in. */
  predicate Prompt(now: int, op: Op) {
    op.OnSite? && op.site.OpCreateClosure? ==> FloorToSlot(op.site.clock) == FloorToSlot(now)
  }

  lemma NothingStartsWithinTheHour(slot: int, now: int, clock: int)
    requires HourAligned(slot) && FloorToSlot(clock) == FloorToSlot(now)
    ensures !(now < slot <= clock)
  {
    FloorToSlotIsTheOnlySlot(now, FloorToSlot(now));
    FloorToSlotIsTheOnlySlot(clock, FloorToSlot(now));
    AlignedApart(slot, FloorToSlot(now));
  }

  lemma RevokeKeepsClear(bs: seq<Booking>, cs: seq<Closure>, id: nat, now: int)
    requires AllClear(bs, cs) && id < |cs|
    ensures AllClear(bs, cs[id := cs[id].(revokedAt := Some(now))])
  {
    forall i | 0 <= i < |bs| && Open(bs[i].status)
      ensures ClearOf(bs[i], cs[id := cs[id].(revokedAt := Some(now))])
    {
      assert ClearOf(bs[i], cs);
    }
  }

  lemma SiteBodyKeepsClear(db: Db, now: int, op: SiteOp)
    requires RowsValid(db.bookings, now) && Settled(db, now) && AllClear(db.bookings, db.site.closures)
    requires Succeeded(SiteBody(db, now, op).exit) && Prompt(now, OnSite(op))
    ensures AllClear(SiteBody(db, now, op).db.bookings, SiteBody(db, now, op).db.site.closures)
  {
    var bs, next := db.bookings, SiteBody(db, now, op).db;
    match op
    case OpCreateClosure(clock, scope, starts, ends, reason, reasonGiven, acknowledged) =>
      ClosureClearsExactly(db, now, clock, scope, starts, ends, reason, reasonGiven, acknowledged);
      forall i | 0 <= i < |bs|
        ensures !SlipsThrough(bs[i], scope, starts, ends, now, clock)
      {
        assert RowValid(bs[i], now);
        NothingStartsWithinTheHour(bs[i].slot, now, clock);
      }
    case OpRevokeClosure(id, _) => RevokeKeepsClear(bs, db.site.closures, id, now);
    case OpDeactivateRoom(room, _) =>
      TwoMapsOpenClear(bs, CancelOpenIn(room, now), FlagInUseIn(room), db.site.closures);
      ClearKept(bs, next.bookings, db.site.closures);
    case OpDeactivateAccount(account, _) =>
      TwoMapsOpenClear(bs, CancelOpenOf(account.id, now, ByAccount), FlagInUseOf(account.id), db.site.closures);
      ClearKept(bs, next.bookings, db.site.closures);
    case OpCreateIncident(extent, _, cancelOpen) =>
      MapOpensClear(bs, Disrupt(|db.site.incidents|, extent, now, cancelOpen), db.site.closures);
      ClearKept(bs, next.bookings, db.site.closures);
    case _ => ClearKept(bs, next.bookings, db.site.closures);
  }

  lemma BodyKeepsClear(db: Db, now: int, op: Op)
    requires RowsValid(db.bookings, now) && Settled(db, now) && AllClear(db.bookings, db.site.closures)
    requires Succeeded(Body(db, now, op).exit) && Prompt(now, op)
    ensures AllClear(Body(db, now, op).db.bookings, Body(db, now, op).db.site.closures)
  {
    match op
    case OnBookings(booking) =>
      BookingBodyOpensClear(db, now, booking);
      ClearKept(db.bookings, BookingBody(db, now, booking).db.bookings, db.site.closures);
    case OnSanctions(sanction) =>
      SanctionBodyOpensClear(db, now, sanction);
      ClearKept(db.bookings, SanctionBody(db, now, sanction).db.bookings, db.site.closures);
    case OnSite(site) => SiteBodyKeepsClear(db, now, site);
  }

  // ---------------------------------------------------------------- whole histories

  predicate PromptEvent(s: State, e: Event) {
    e.Ask? ==> Prompt(ClockAfter(s.clock, e), e.op)
  }

  lemma RunKeepsClear(db: Db, now: int, budget: nat)
    requires AllClear(db.bookings, db.site.closures)
    ensures AllClear(Run(db, now, budget).db.bookings, Run(db, now, budget).db.site.closures)
  {
    RunIsLater(db, now, budget);
    LaterOpensClear(db.bookings, Run(db, now, budget).db.bookings, db.site.closures);
    ClearKept(db.bookings, Run(db, now, budget).db.bookings, db.site.closures);
  }

  lemma DidKeepsClear(db: Db, next: Db, clock: int, now: int, budget: nat, op: Op)
    requires Sound(db, clock) && clock <= now && AllClear(db.bookings, db.site.closures)
    requires Did(db, next, now, budget, op) && Prompt(now, op)
    ensures AllClear(next.bookings, next.site.closures)
  {
    RunKeepsClear(db, now, budget);
    var rec := Run(db, now, budget).db;
    if next != db.(requests := next.requests) && next != rec {
      SoundLater(db, clock, now);
      RunSound(db, now, budget);
      RunSettles(db, now, budget);
      BodyKeepsClear(rec, now, op);
    }
  }

  lemma NextKeepsClear(s: State, e: Event, budget: nat)
    requires Sound(s.db, s.clock) && s.clock <= ClockAfter(s.clock, e) && PromptEvent(s, e)
    requires AllClear(s.db.bookings, s.db.site.closures)
    ensures AllClear(Next(s, e, budget).db.bookings, Next(s, e, budget).db.site.closures)
  {
    match e
    case Ask(attempts, call, op) =>
      AskDid(s.db, attempts, call, op, budget);
      if Deciding(attempts).Granted? {
        DidKeepsClear(s.db, Next(s, e, budget).db, s.clock, Deciding(attempts).now, budget, op);
      }
    case Tick(now) => RunKeepsClear(s.db, now, budget);
    case Timetable(_) =>
    case Prune(_) =>
  }

  /** Along any history in which every closure's preview reads the clock within the hour its
      operation runs in, no request and no reservation, staff holds included, ever meets a closure in
      force - whichever of closure, booking, move or approval came first. */
  lemma {:induction false} EveryHistoryKeepsClear(s: State, events: seq<Event>, budget: nat)
    requires Sound(s.db, s.clock) && AllClear(s.db.bookings, s.db.site.closures) && Forward(s, events, budget)
    requires forall k :: 0 <= k < |events| ==> PromptEvent(Play(s, events[..k], budget), events[k])
    ensures AllClear(Play(s, events, budget).db.bookings, Play(s, events, budget).db.site.closures)
    decreases |events|
  {
    if events != [] {
      var front := events[..|events| - 1];
      ForwardPrefix(s, events, budget);
      assert forall k :: 0 <= k < |front| ==> front[..k] == events[..k];
      EveryHistoryIsSound(s, front, budget);
      EveryHistoryKeepsClear(s, front, budget);
      NextKeepsClear(Play(s, front, budget), events[|events| - 1], budget);
    }
  }
}
