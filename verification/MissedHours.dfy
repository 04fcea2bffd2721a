/** Missed hours: a room's hour is missed by one booking at most, and afterwards only a walk-in can take it. So the
    booking a walk-in is recorded to take over from is the only one there is. */
module MissedHours {
  import opened Slots
  import opened Tables
  import opened Rules
  import opened Changes
  import opened Reconcile
  import opened Bookings
  import opened Sanctions
  import opened Maintenance
  import opened Operations
  import opened Protocol
  import opened Invariants
  import opened Ledgers
  import opened Soundness
  import opened FixedPoint
  import opened BodySound
  import opened Machine

  // ---------------------------------------------------------------- the invariant

  predicate Claims(b: Booking) {
    Blocking(b.status) || b.status.NoShow?
  }

  /** What else is claimed in the cell of a missed booking is a walk-in's. */
  ghost predicate MissedOnce(bs: seq<Booking>) {
    forall i, j :: 0 <= i < |bs| && 0 <= j < |bs| && i != j && TakesOver(bs[i], bs[j]) ==> bs[j].walkIn
  }

  /** `b` was missed and `c` claims the same cell. */
  ghost predicate TakesOver(b: Booking, c: Booking) {
    b.status.NoShow? && Claims(c) && SameCell(b, c)
  }

  /** The row is an old one later in its life, lies ahead, or is a new walk-in. */
  ghost predicate Steady(bs: seq<Booking>, cs: seq<Booking>, j: nat, now: int)
    requires j < |cs|
  {
    (j < |bs| && Later(bs[j], cs[j])) || cs[j].slot > now || cs[j].walkIn
  }

  ghost predicate AllSteady(bs: seq<Booking>, cs: seq<Booking>, now: int) {
    forall j: nat :: j < |cs| ==> Steady(bs, cs, j, now)
  }

  lemma LaterIsSteady(bs: seq<Booking>, cs: seq<Booking>, now: int)
    requires AllLater(bs, cs)
    ensures AllSteady(bs, cs, now)
  {
  }

  /** A missed row is an old one: it has begun and is no walk-in. */
  lemma MissedIsOld(bs: seq<Booking>, cs: seq<Booking>, i: nat, now: int)
    requires AllSteady(bs, cs, now) && RowsValid(cs, now) && i < |cs| && cs[i].status.NoShow?
    ensures i < |bs| && Later(bs[i], cs[i]) && cs[i].slot <= now && !bs[i].walkIn && Claims(bs[i])
  {
    assert Steady(bs, cs, i, now) && RowValid(cs[i], now);
  }

  lemma SteadyKeepsMissedOnce(bs: seq<Booking>, cs: seq<Booking>, now: int)
    requires RowsValid(cs, now) && Exclusive(bs) && MissedOnce(bs) && AllSteady(bs, cs, now)
    ensures MissedOnce(cs)
  {
    forall i: nat, j: nat | i < |cs| && j < |cs| && i != j && TakesOver(cs[i], cs[j])
      ensures cs[j].walkIn
    {
      MissedIsOld(bs, cs, i, now);
      assert Steady(bs, cs, j, now);
      if !cs[j].walkIn {
        assert Later(bs[j], cs[j]) && SameCell(bs[i], bs[j]) && SameCell(bs[j], bs[i]);
      }
    }
  }

  // ---------------------------------------------------------------- operations

  lemma MapIsSteady(bs: seq<Booking>, c: RowChange, now: int)
    ensures AllSteady(bs, MapRows(bs, c), now)
  {
    MapIsLater(c, bs);
    LaterIsSteady(bs, MapRows(bs, c), now);
  }

  lemma TwoMapsAreSteady(bs: seq<Booking>, c: RowChange, e: RowChange, now: int)
    ensures AllSteady(bs, MapRows(MapRows(bs, c), e), now)
  {
    MapIsLater(c, bs);
    LaterByMap(bs, MapRows(bs, c), e);
    LaterIsSteady(bs, MapRows(MapRows(bs, c), e), now);
  }

  lemma AppendIsSteady(bs: seq<Booking>, rows: seq<Booking>, now: int)
    requires forall k :: 0 <= k < |rows| ==> rows[k].slot > now || rows[k].walkIn
    ensures AllSteady(bs, bs + rows, now)
  {
    forall j: nat | j < |bs + rows|
      ensures Steady(bs, bs + rows, j, now)
    {
      if j >= |bs| {
        assert (bs + rows)[j] == rows[j - |bs|];
      }
    }
  }

  lemma EditIsSteady(bs: seq<Booking>, id: nat, row: Booking, now: int)
    requires id < |bs| && (Later(bs[id], row) || row.slot > now)
    ensures AllSteady(bs, bs[id := row], now)
  {
  }

  lemma HoldIsSteady(db: Db, now: int, actor: User, room: Room, date: int, hour: int, end: int, details: Details)
    requires Succeeded(CreateStaffHold(db, now, actor, room, date, hour, end, details).exit)
    ensures AllSteady(db.bookings, CreateStaffHold(db, now, actor, room, date, hour, end, details).db.bookings, now)
  {
    var rows := HoldRows(db, now, actor, room, date, hour, end - hour, details);
    assert forall k :: 0 <= k < |rows| ==> rows[k].slot >= SlotStartFor(date, hour) + k * HOUR;
    AppendIsSteady(db.bookings, rows, now);
  }

  lemma BookingBodyIsSteady(db: Db, now: int, op: BookingOp)
    requires Succeeded(BookingBody(db, now, op).exit)
    ensures AllSteady(db.bookings, BookingBody(db, now, op).db.bookings, now)
  {
    var bs, cs := db.bookings, BookingBody(db, now, op).db.bookings;
    match op
    case OpAdvance(actor, room, slot, details) =>
      AppendIsSteady(bs, [AdvanceRow(db, now, actor, room, slot, details)], now);
    case OpStaffHold(actor, room, date, hour, end, details) =>
      HoldIsSteady(db, now, actor, room, date, hour, end, details);
    case OpUseNow(actor, room) => AppendIsSteady(bs, [WalkInRow(db, now, actor, room)], now);
    case OpCancelSeries(_, series) => MapIsSteady(bs, CancelOccurrences(series, now), now);
    case _ => EditIsSteady(bs, op.booking, cs[op.booking], now);
  }

  lemma RecordIsSteady(db: Db, mid: Db, now: int)
    requires mid.bookings == db.bookings
    ensures AllSteady(db.bookings, ApplyThresholds(mid, now).bookings, now)
  {
    LaterReflexive(db.bookings);
    SuspendAllLater(db.bookings, mid, Offenders(mid, now), now);
    LaterIsSteady(db.bookings, ApplyThresholds(mid, now).bookings, now);
  }

  lemma SanctionBodyIsSteady(db: Db, now: int, op: SanctionOp)
    requires Succeeded(SanctionBody(db, now, op).exit)
    ensures AllSteady(db.bookings, SanctionBody(db, now, op).db.bookings, now)
  {
    LaterReflexive(db.bookings);
    match op
    case OpRecordViolation(user, _, counts, occurredAt, incident) =>
      var at := if occurredAt.Some? then occurredAt.value else now;
      var mid := db.(violations := db.violations + [ManualViolation(user, at, CurrentPolicy(db), counts, incident)]);
      RecordIsSteady(db, mid, now);
    case OpSuspend(user, _, _) => MapIsSteady(db.bookings, CancelOpenOf(user, now, BySuspension), now);
    case _ =>
  }

  lemma SiteBodyIsSteady(db: Db, now: int, op: SiteOp)
    requires Succeeded(SiteBody(db, now, op).exit)
    ensures AllSteady(db.bookings, SiteBody(db, now, op).db.bookings, now)
  {
    var bs, cs := db.bookings, SiteBody(db, now, op).db.bookings;
    LaterReflexive(bs);
    match op
    case OpCreateClosure(clock, scope, starts, ends, _, _, _) =>
      MapIsSteady(bs, CloseOver(scope, starts, ends, now, clock), now);
    case OpCompleteEarly(id, _) => EditIsSteady(bs, id, cs[id], now);
    case OpResolveReview(id, _) => EditIsSteady(bs, id, cs[id], now);
    case OpDeactivateRoom(room, _) => TwoMapsAreSteady(bs, CancelOpenIn(room, now), FlagInUseIn(room), now);
    case OpDeactivateAccount(account, _) =>
      TwoMapsAreSteady(bs, CancelOpenOf(account.id, now, ByAccount), FlagInUseOf(account.id), now);
    case OpCreateIncident(extent, _, cancelOpen) =>
      MapIsSteady(bs, Disrupt(|db.site.incidents|, extent, now, cancelOpen), now);
    case _ =>
  }

  lemma BodyIsSteady(db: Db, now: int, op: Op)
    requires Succeeded(Body(db, now, op).exit)
    ensures AllSteady(db.bookings, Body(db, now, op).db.bookings, now)
  {
    match op
    case OnBookings(booking) => BookingBodyIsSteady(db, now, booking);
    case OnSanctions(sanction) => SanctionBodyIsSteady(db, now, sanction);
    case OnSite(site) => SiteBodyIsSteady(db, now, site);
  }

  // ---------------------------------------------------------------- whole histories

  lemma RunMissesOnce(db: Db, now: int, budget: nat)
    requires Sound(db, now) && MissedOnce(db.bookings)
    ensures MissedOnce(Run(db, now, budget).db.bookings)
  {
    var cs := Run(db, now, budget).db.bookings;
    RunSound(db, now, budget);
    RunIsLater(db, now, budget);
    LaterIsSteady(db.bookings, cs, now);
    SteadyKeepsMissedOnce(db.bookings, cs, now);
  }

  lemma BodyMissesOnce(db: Db, now: int, op: Op)
    requires Sound(db, now) && Settled(db, now) && MissedOnce(db.bookings) && Succeeded(Body(db, now, op).exit)
    ensures MissedOnce(Body(db, now, op).db.bookings)
  {
    BodyKeepsSound(db, now, op);
    BodyIsSteady(db, now, op);
    SteadyKeepsMissedOnce(db.bookings, Body(db, now, op).db.bookings, now);
  }

  lemma DidMissesOnce(db: Db, next: Db, clock: int, now: int, budget: nat, op: Op)
    requires Sound(db, clock) && clock <= now && MissedOnce(db.bookings) && Did(db, next, now, budget, op)
    ensures MissedOnce(next.bookings)
  {
    SoundLater(db, clock, now);
    RunSound(db, now, budget);
    RunMissesOnce(db, now, budget);
    var rec := Run(db, now, budget).db;
    if next.bookings != db.bookings && next.bookings != rec.bookings {
      RunSettles(db, now, budget);
      BodyMissesOnce(rec, now, op);
    }
  }

  lemma NextMissesOnce(s: State, e: Event, budget: nat)
    requires Sound(s.db, s.clock) && s.clock <= ClockAfter(s.clock, e) && MissedOnce(s.db.bookings)
    ensures MissedOnce(Next(s, e, budget).db.bookings)
  {
    match e
    case Ask(attempts, call, op) =>
      AskDid(s.db, attempts, call, op, budget);
      if Deciding(attempts).Granted? {
        DidMissesOnce(s.db, Next(s, e, budget).db, s.clock, Deciding(attempts).now, budget, op);
      }
    case Tick(now) =>
      SoundLater(s.db, s.clock, now);
      RunMissesOnce(s.db, now, budget);
    case Timetable(_) =>
    case Prune(_) =>
  }

  /** Along any history nobody but a walk-in gets an hour that was missed, and no hour is missed twice. */
  lemma {:induction false} EveryHistoryMissesOnce(s: State, events: seq<Event>, budget: nat)
    requires Sound(s.db, s.clock) && MissedOnce(s.db.bookings) && Forward(s, events, budget)
    ensures MissedOnce(Play(s, events, budget).db.bookings)
    decreases |events|
  {
    if events != [] {
      var front := events[..|events| - 1];
      ForwardPrefix(s, events, budget);
      EveryHistoryIsSound(s, front, budget);
      EveryHistoryMissesOnce(s, front, budget);
      NextMissesOnce(Play(s, front, budget), events[|events| - 1], budget);
    }
  }

  // ---------------------------------------------------------------- what a walk-in takes over

  /** So there is one booking at most a walk-in can take over from, in whatever order the database returns
      them. */
  lemma OneToTakeOverFrom(bs: seq<Booking>, clock: int, user: nat, room: nat, slot: int, i: nat)
    requires MissedOnce(bs) && RowsValid(bs, clock) && i < |bs| && ReleasedBy(bs[i], user, room, slot)
    ensures ReleasedFrom(bs, user, room, slot) == Some(i)
  {
    var found := ReleasedFrom(bs, user, room, slot);
    assert found.Some?;
    assert RowValid(bs[i], clock);
    assert SameCell(bs[found.value], bs[i]);
  }
}
