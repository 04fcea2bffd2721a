/** What the grid offers is what the operations accept. */
module Offers {
  import opened Slots
  import opened Tables
  import opened Rules
  import opened Changes
  import opened Reconcile
  import opened Bookings
  import opened Invariants
  import opened Availability
  import opened Soundness
  import opened LazyEager
  import opened Examples
  import opened FieldRules

  // ---------------------------------------------------------------- the lookups find what the checks find

  /** Every closure and every class shows a reason. */
  ghost predicate ReasonsGiven(site: Site) {
    && (forall i :: 0 <= i < |site.closures| ==> site.closures[i].reason != "")
    && (forall i :: 0 <= i < |site.blocks| ==> site.blocks[i].reason != "")
  }

  lemma {:induction false} FirstReasonConcat(a: seq<Closure>, b: seq<Closure>, slot: int)
    ensures FirstReason(a + b, slot) == if FirstReason(a, slot).Some? then FirstReason(a, slot) else FirstReason(b, slot)
    decreases |a|
  {
    if a == [] {
      assert a + b == b;
    } else {
      assert (a + b)[1..] == a[1..] + b;
      FirstReasonConcat(a[1..], b, slot);
    }
  }

  lemma {:induction false} BlockReasonConcat(a: seq<WeeklyBlock>, b: seq<WeeklyBlock>, slot: int)
    requires forall i :: 0 <= i < |a| ==> a[i].reason != ""
    ensures BlockReason(a + b, slot) == if BlockReason(a, slot) != "" then BlockReason(a, slot) else BlockReason(b, slot)
    decreases |a|
  {
    if a == [] {
      assert a + b == b;
    } else {
      assert (a + b)[1..] == a[1..] + b;
      BlockReasonConcat(a[1..], b, slot);
    }
  }

  /** The closure is in force, of the given scope, and meets the hour. */
  predicate Meets(c: Closure, slot: int, scope: Option<nat>) {
    c.room == scope && c.revokedAt.None? && c.startsAt < slot + HOUR && c.endsAt > slot
  }

  predicate WithinDate(slot: int, date: int) {
    SlotStartFor(date, 0) <= slot && slot + HOUR <= SlotStartFor(date, 0) + DAY
  }

  lemma AlignedWithinDate(slot: int)
    requires HourAligned(slot)
    ensures WithinDate(slot, LocalDate(slot))
  {
    AlignedIsSlotStart(slot);
  }

  lemma {:induction false} FirstReasonFinds(cs: seq<Closure>, date: int, slot: int, scope: Option<nat>)
    requires WithinDate(slot, date) && forall i :: 0 <= i < |cs| ==> cs[i].reason != ""
    ensures var r := FirstReason(ClosuresOn(cs, date, scope), slot);
      && (r.Some? <==> exists i :: 0 <= i < |cs| && Meets(cs[i], slot, scope))
      && (r.Some? ==> r.value != "")
  {
    if cs != [] {
      var front, last := cs[..|cs| - 1], cs[|cs| - 1];
      FirstReasonFinds(front, date, slot, scope);
      FirstReasonConcat(ClosuresOn(front, date, scope),
                        if ClosureOnDate(last, date) && last.room == scope then [last] else [], slot);
      if exists i :: 0 <= i < |cs| && Meets(cs[i], slot, scope) {
        var i :| 0 <= i < |cs| && Meets(cs[i], slot, scope);
        assert i < |cs| - 1 ==> front[i] == cs[i];
      }
    }
  }

  lemma ClosureReasonMeansClosed(db: Db, date: int, slot: int, room: nat)
    requires WithinDate(slot, date) && ReasonsGiven(db.site)
    ensures var all, own := ClosuresOn(db.site.closures, date, None), ClosuresOn(db.site.closures, date, Some(room));
      ClosureReason(all, own, slot) != "" <==> SlotClosed(db, slot, room)
  {
    var cs := db.site.closures;
    FirstReasonFinds(cs, date, slot, None);
    FirstReasonFinds(cs, date, slot, Some(room));
    forall i | 0 <= i < |cs|
      ensures ClosureCovers(cs[i], slot, room) <==> Meets(cs[i], slot, None) || Meets(cs[i], slot, Some(room))
    {
    }
  }

  lemma {:induction false} BlockReasonFinds(bs: seq<WeeklyBlock>, slot: int, room: nat)
    requires forall i :: 0 <= i < |bs| ==> bs[i].reason != ""
    ensures var found := BlocksOn(bs, LocalDate(slot), room);
      forall i :: 0 <= i < |found| ==> found[i].reason != ""
    ensures BlockReason(BlocksOn(bs, LocalDate(slot), room), slot) != "" <==>
      exists i :: 0 <= i < |bs| && BlockCovers(bs[i], slot, room)
  {
    if bs != [] {
      var date := LocalDate(slot);
      var front, last := bs[..|bs| - 1], bs[|bs| - 1];
      BlockReasonFinds(front, slot, room);
      BlockReasonConcat(BlocksOn(front, date, room),
                        if BlockOnDate(last, date) && last.room == room then [last] else [], slot);
      if exists i :: 0 <= i < |bs| && BlockCovers(bs[i], slot, room) {
        var i :| 0 <= i < |bs| && BlockCovers(bs[i], slot, room);
        assert i < |bs| - 1 ==> front[i] == bs[i];
      }
    }
  }

  // ---------------------------------------------------------------- cells and checks

  /** The grid shows the hour: it lies between the hours the date is shown with. */
  predicate Shown(db: Db, slot: int) {
    var h := Columns(db, LocalDate(slot));
    HourAligned(slot) && h.open <= LocalHour(slot) < h.close
  }

  /** The cell shown for the hour, if it is shown. */
  function StateOf(db: Db, room: Room, slot: int, now: int, horizonDays: int, viewer: Viewer): CellState {
    CellAt(db, room, LocalDate(slot), slot, now, horizonDays, viewer).state
  }

  lemma HourIsFree(db: Db, room: Room, slot: int, now: int, horizonDays: int, viewer: Viewer)
    requires Shown(db, slot) && ReasonsGiven(db.site) && now < slot + HOUR
    ensures var state := StateOf(db, room, slot, now, horizonDays, viewer);
      SlotOpen(db, slot, room).None? && !Taken(db.bookings, room.id, slot) && !room.availabilityOnly <==>
      state.CellFreeNow? || state.CellBookable? || state.CellRestricted? || state.CellOutsideHorizon?
  {
    AlignedWithinDate(slot);
    ClosureReasonMeansClosed(db, LocalDate(slot), slot, room.id);
    BlockReasonFinds(db.site.blocks, slot, room.id);
  }

  /** The room's audience includes the viewer. */
  predicate Welcomed(room: Room, viewer: Viewer) {
    && (room.membersOnly ==> room.id in viewer.memberRooms)
    && (room.restricted ==> viewer.category != None && viewer.category.value in room.allowed)
  }

  /** A cell is bookable exactly when the checks of a reservation that concern the room, the calendar,
      the audience, the horizon and other bookings pass. */
  lemma BookableExactly(db: Db, room: Room, slot: int, now: int, horizonDays: int, viewer: Viewer)
    requires Shown(db, slot) && ReasonsGiven(db.site)
    ensures StateOf(db, room, slot, now, horizonDays, viewer).CellBookable? <==>
      && now < slot && LocalDate(slot) <= LocalDate(now) + horizonDays
      && !room.availabilityOnly && Welcomed(room, viewer)
      && room.active && OpenAt(db, slot) && !Shut(db, slot, room.id) && !Taught(db, slot, room.id)
      && !Occupied(db.bookings, room.id, slot)
  {
    OpenExactly(db, slot, room);
    OccupiedExactly(db.bookings, room.id, slot);
    if now < slot + HOUR {
      HourIsFree(db, room, slot, now, horizonDays, viewer);
    }
  }

  lemma FreeNowExactly(db: Db, room: Room, slot: int, now: int, horizonDays: int, viewer: Viewer)
    requires Shown(db, slot) && ReasonsGiven(db.site)
    ensures StateOf(db, room, slot, now, horizonDays, viewer).CellFreeNow? <==>
      && slot <= now < slot + HOUR && !room.availabilityOnly
      && room.active && OpenAt(db, slot) && !Shut(db, slot, room.id) && !Taught(db, slot, room.id)
      && !Occupied(db.bookings, room.id, slot)
  {
    OpenExactly(db, slot, room);
    OccupiedExactly(db.bookings, room.id, slot);
    if now < slot + HOUR {
      HourIsFree(db, room, slot, now, horizonDays, viewer);
    }
  }

  // ---------------------------------------------------------------- offers and operations

  predicate OfferedToReserve(db: Db, room: Room, slot: int, now: int, horizonDays: int, viewer: Viewer) {
    Shown(db, slot) && StateOf(db, room, slot, now, horizonDays, viewer).CellBookable?
  }

  predicate OfferedToUseNow(db: Db, room: Room, now: int, horizonDays: int, viewer: Viewer) {
    && Shown(db, FloorToSlot(now)) && StateOf(db, room, FloorToSlot(now), now, horizonDays, viewer).CellFreeNow?
    && !room.requiresApproval && !room.membersOnly
  }

  /** The grid resolved this account as its viewer. */
  predicate Resolves(actor: User, room: Room, viewer: Viewer) {
    && viewer.category == actor.category
    && (room.membersOnly ==> (room.id in viewer.memberRooms <==> Staffed(actor) || room.id in actor.memberRooms))
  }

  /** The user's other bookings leave room for the hour: none next to it, fewer than the day's quota and the most
      hours ahead, and this very hour not missed. */
  ghost predicate Affords(db: Db, user: nat, slot: int, room: nat, now: int) {
    var bs, p := db.bookings, CurrentPolicy(db);
    && !Crowded(bs, user, slot) && |OfTheDay(bs, user, LocalDate(slot))| < p.dailyQuota
    && |Ahead(bs, user, now)| < p.maxUpcoming && !Missed(bs, user, room, slot)
  }

  lemma OpenIsShown(db: Db, slot: int, room: Room)
    requires HourAligned(slot) && SlotOpen(db, slot, room).None?
    ensures Shown(db, slot)
  {
  }

  /** A reservation is accepted exactly when the grid, read with the policy's horizon, offers the hour to
      the account, the account may operate and its quota allows the hour. */
  lemma ReservedExactlyWhenOffered(db: Db, now: int, actor: User, room: Room, slot: int, details: Details, viewer: Viewer)
    requires ReasonsGiven(db.site) && Resolves(actor, room, viewer)
    ensures Succeeded(CreateAdvance(db, now, actor, room, slot, details).exit) <==>
      && OfferedToReserve(db, room, slot, now, CurrentPolicy(db).horizonDays, viewer)
      && GoodAccount(actor) && !Barred(db, actor.id, now) && Affords(db, actor.id, slot, room.id, now)
  {
    OperatesExactly(db, actor, now);
    QuotaExactly(db, actor.id, slot, room.id, now);
    OpenExactly(db, slot, room);
    OccupiedExactly(db.bookings, room.id, slot);
    if Shown(db, slot) {
      BookableExactly(db, room, slot, now, CurrentPolicy(db).horizonDays, viewer);
    } else if HourAligned(slot) && SlotOpen(db, slot, room).None? {
      OpenIsShown(db, slot, room);
    }
  }

  /** A walk-in is accepted exactly when the grid offers the hour in progress, the account may operate
      and its quota allows the hour. */
  lemma UsedExactlyWhenOffered(db: Db, now: int, actor: User, room: Room, horizonDays: int, viewer: Viewer)
    requires ReasonsGiven(db.site)
    ensures Succeeded(UseNow(db, now, actor, room).exit) <==>
      && OfferedToUseNow(db, room, now, horizonDays, viewer)
      && GoodAccount(actor) && !Barred(db, actor.id, now) && Affords(db, actor.id, FloorToSlot(now), room.id, now)
  {
    var slot := FloorToSlot(now);
    OperatesExactly(db, actor, now);
    QuotaExactly(db, actor.id, slot, room.id, now);
    OpenExactly(db, slot, room);
    OccupiedExactly(db.bookings, room.id, slot);
    FloorToSlotIsTheOnlySlot(now, slot);
    if Shown(db, slot) {
      FreeNowExactly(db, room, slot, now, horizonDays, viewer);
    } else if SlotOpen(db, slot, room).None? {
      OpenIsShown(db, slot, room);
    }
  }

  // ---------------------------------------------------------------- offers and reconciliation

  lemma StaysFree(db: Db, next: Db, room: nat, slot: int)
    requires AllLater(db.bookings, next.bookings) && !Taken(db.bookings, room, slot)
    ensures !Taken(next.bookings, room, slot)
  {
    forall i | 0 <= i < |next.bookings| && next.bookings[i].room == room && next.bookings[i].slot == slot
      ensures !Blocking(next.bookings[i].status)
    {
      assert Later(db.bookings[i], next.bookings[i]);
    }
  }

  /** What the grid offers before reconciliation it still offers after it. */
  lemma OfferSurvivesRun(db: Db, room: Room, slot: int, now: int, budget: nat, horizonDays: int, viewer: Viewer)
    requires ReasonsGiven(db.site) && Shown(db, slot)
    ensures var next := Run(db, now, budget).db;
      && Shown(next, slot)
      && (StateOf(db, room, slot, now, horizonDays, viewer).CellBookable? ==>
            StateOf(next, room, slot, now, horizonDays, viewer).CellBookable?)
      && (StateOf(db, room, slot, now, horizonDays, viewer).CellFreeNow? ==>
            StateOf(next, room, slot, now, horizonDays, viewer).CellFreeNow?)
  {
    RunIsLater(db, now, budget);
    OfferSurvives(db, Run(db, now, budget).db, room, slot, now, horizonDays, viewer);
  }

  lemma OfferSurvives(db: Db, next: Db, room: Room, slot: int, now: int, horizonDays: int, viewer: Viewer)
    requires ReasonsGiven(db.site) && Shown(db, slot)
    requires AllLater(db.bookings, next.bookings) && next.site == db.site
    ensures Shown(next, slot)
    ensures StateOf(db, room, slot, now, horizonDays, viewer).CellBookable? ==>
      StateOf(next, room, slot, now, horizonDays, viewer).CellBookable?
    ensures StateOf(db, room, slot, now, horizonDays, viewer).CellFreeNow? ==>
      StateOf(next, room, slot, now, horizonDays, viewer).CellFreeNow?
  {
    OpenExactly(db, slot, room);
    OpenExactly(next, slot, room);
    OccupiedExactly(db.bookings, room.id, slot);
    OccupiedExactly(next.bookings, room.id, slot);
    BookableExactly(db, room, slot, now, horizonDays, viewer);
    BookableExactly(next, room, slot, now, horizonDays, viewer);
    FreeNowExactly(db, room, slot, now, horizonDays, viewer);
    FreeNowExactly(next, room, slot, now, horizonDays, viewer);
    assert SlotOpen(next, slot, room) == SlotOpen(db, slot, room);
    if !Taken(db.bookings, room.id, slot) {
      StaysFree(db, next, room.id, slot);
    }
  }

  // ---------------------------------------------------------------- hours reconciliation frees

  /** The lifecycle passes take the booking's hour from it: its request was not answered in time, or its
      deadline was missed without an incident to excuse it. */
  predicate Released(b: Booking, incidents: seq<Incident>, now: int) {
    (b.status.PendingApproval? && b.slot <= now) || (Overdue(b, now) && !Covered(incidents, b))
  }

  /** The threshold pass takes it: the booking is still open after the lifecycle passes, and its holder has
      reached the threshold and is not suspended yet. */
  predicate Punished(db: Db, b: Booking, now: int) {
    && Open(Live(b, db.site.incidents, now).status)
    && b.user in Offenders(Lifecycle(db, now), now) && !IsSuspended(db, b.user, now)
  }

  lemma LiveBlocks(b: Booking, incidents: seq<Incident>, now: int)
    ensures var c := Live(b, incidents, now);
      && c.user == b.user && c.room == b.room && c.slot == b.slot
      && (Blocking(c.status) <==> Blocking(b.status) && !Released(b, incidents, now))
  {
    LiveAtOnce(b, incidents, now);
  }

  /** Suspensions given on the way are those of the users handled. */
  ghost predicate SuspendedAmong(ss: seq<Suspension>, ts: seq<Suspension>, users: seq<nat>) {
    && |ss| <= |ts| && ts[..|ss|] == ss
    && forall k :: |ss| <= k < |ts| ==> ts[k].user in users
  }

  lemma OthersAsBefore(db: Db, next: Db, users: seq<nat>, user: nat, now: int)
    requires SuspendedAmong(db.suspensions, next.suspensions, users)
    ensures IsSuspended(db, user, now) ==> IsSuspended(next, user, now)
    ensures user !in users ==> (IsSuspended(next, user, now) <==> IsSuspended(db, user, now))
  {
    var ss, ts := db.suspensions, next.suspensions;
    assert forall k :: 0 <= k < |ss| ==> ts[k] == ts[..|ss|][k];
    if IsSuspended(db, user, now) {
      var k :| 0 <= k < |ss| && ss[k].user == user && ActiveAt(ss[k], now);
      assert ts[k] == ss[k];
    }
  }

  /** A booking once its user, among `users`, was or was not suspended. */
  function AfterSuspensions(db: Db, b: Booking, users: seq<nat>, now: int): Booking {
    if Open(b.status) && b.user in users && !IsSuspended(db, b.user, now) then Cancel(b, now, BySuspension, false) else b
  }

  ghost predicate SuspendedSoFar(db: Db, next: Db, users: seq<nat>, now: int) {
    && SuspendedAmong(db.suspensions, next.suspensions, users)
    && |next.bookings| == |db.bookings|
    && forall i :: 0 <= i < |db.bookings| ==> next.bookings[i] == AfterSuspensions(db, db.bookings[i], users, now)
  }

  lemma SuspendOneMore(db: Db, rest: Db, front: seq<nat>, last: nat, now: int)
    requires SuspendedSoFar(db, rest, front, now)
    ensures SuspendedSoFar(db, if IsSuspended(rest, last, now) then rest else AutoSuspend(rest, last, now), front + [last],
                           now)
  {
    OthersAsBefore(db, rest, front, last, now);
    var users := front + [last];
    assert forall u :: u in users <==> u in front || u == last;
    var next := if IsSuspended(rest, last, now) then rest else AutoSuspend(rest, last, now);
    forall i | 0 <= i < |db.bookings|
      ensures next.bookings[i] == AfterSuspensions(db, db.bookings[i], users, now)
    {
      assert rest.bookings[i] == AfterSuspensions(db, db.bookings[i], front, now);
    }
    assert next.suspensions[..|db.suspensions|] == rest.suspensions[..|db.suspensions|];
  }

  lemma {:induction false} SuspendAllRows(db: Db, users: seq<nat>, now: int)
    ensures SuspendedSoFar(db, SuspendAll(db, users, now), users, now)
    decreases |users|
  {
    if users != [] {
      var front, last := users[..|users| - 1], users[|users| - 1];
      SuspendAllRows(db, front, now);
      SuspendOneMore(db, SuspendAll(db, front, now), front, last, now);
      assert front + [last] == users;
    }
  }

  /** The rows of `cs` stand where those of `bs` do, and block unless they were freed. */
  ghost predicate Outlives(db: Db, cs: seq<Booking>, now: int) {
    && |cs| == |db.bookings|
    && forall i :: 0 <= i < |cs| ==>
         && SameCell(db.bookings[i], cs[i])
         && (Blocking(cs[i].status) <==> Blocking(db.bookings[i].status) && !Freed(db, db.bookings[i], now))
  }

  /** Reconciliation at `now` takes the booking's hour from it. */
  predicate Freed(db: Db, b: Booking, now: int) {
    Released(b, db.site.incidents, now) || Punished(db, b, now)
  }

  lemma SanctionOutlives(db: Db, mid: Db, now: int)
    requires mid == Lifecycle(db, now)
    ensures Outlives(db, Sanction(mid, now).bookings, now)
  {
    LifecycleRows(db, now);
    var users := Offenders(mid, now);
    SuspendAllRows(mid, users, now);
    assert mid.suspensions == db.suspensions;
    forall i | 0 <= i < |db.bookings|
      ensures var c := AfterSuspensions(mid, mid.bookings[i], users, now);
        && SameCell(db.bookings[i], c)
        && (Blocking(c.status) <==> Blocking(db.bookings[i].status) && !Freed(db, db.bookings[i], now))
    {
      LiveBlocks(db.bookings[i], db.site.incidents, now);
    }
  }

  lemma RunOutlives(db: Db, now: int, budget: nat)
    requires Run(db, now, budget).complete
    ensures Outlives(db, Run(db, now, budget).db.bookings, now)
  {
    CompleteRun(db, now, budget);
    SanctionOutlives(db, Lifecycle(db, now), now);
  }

  lemma FreedCell(db: Db, cs: seq<Booking>, id: nat, now: int)
    requires Outlives(db, cs, now)
    requires Exclusive(db.bookings) && id < |db.bookings| && Blocking(db.bookings[id].status)
    ensures !Taken(cs, db.bookings[id].room, db.bookings[id].slot) <==> Freed(db, db.bookings[id], now)
  {
    var b := db.bookings[id];
    forall i | 0 <= i < |cs| && i != id && cs[i].room == b.room && cs[i].slot == b.slot
      ensures !Blocking(cs[i].status)
    {
      assert Blocking(db.bookings[i].status) ==> SameCell(db.bookings[i], b) && SameCell(b, db.bookings[i]);
    }
  }

  /** A completed reconciliation frees a taken hour exactly when its holder's request was not answered in time,
      or the holder missed the deadline unexcused, or the holder is suspended for strikes in that very run
      while the booking is still open. */
  lemma RunFreesExactly(db: Db, id: nat, now: int, budget: nat)
    requires Run(db, now, budget).complete
    requires Exclusive(db.bookings) && id < |db.bookings| && Blocking(db.bookings[id].status)
    ensures !Taken(Run(db, now, budget).db.bookings, db.bookings[id].room, db.bookings[id].slot) <==>
      Freed(db, db.bookings[id], now)
  {
    RunOutlives(db, now, budget);
    FreedCell(db, Run(db, now, budget).db.bookings, id, now);
  }

  lemma HolderIs(bs: seq<Booking>, id: nat)
    requires Exclusive(bs) && id < |bs| && Blocking(bs[id].status)
    ensures Holder(bs, bs[id].room, bs[id].slot) == Some(id)
  {
    var holder := Holder(bs, bs[id].room, bs[id].slot);
    assert Taken(bs, bs[id].room, bs[id].slot);
    assert SameCell(bs[id], bs[holder.value]);
  }

  /** The grid is cautious the other way: it never offers a held hour, and shows one whose holder has missed the
      deadline as taken. The reconciled grid offers the hour in progress exactly when reconciliation frees
      it. */
  lemma ExpiredHoldShowsTaken(db: Db, room: Room, id: nat, now: int, budget: nat, horizonDays: int, viewer: Viewer)
    requires Run(db, now, budget).complete
    requires Exclusive(db.bookings) && ReasonsGiven(db.site)
    requires id < |db.bookings| && Blocking(db.bookings[id].status) && db.bookings[id].room == room.id
    requires db.bookings[id].slot <= now < db.bookings[id].End()
    requires Shown(db, db.bookings[id].slot) && SlotOpen(db, db.bookings[id].slot, room).None? && !room.availabilityOnly
    ensures var slot := db.bookings[id].slot;
      && !StateOf(db, room, slot, now, horizonDays, viewer).CellFreeNow?
      && (Overdue(db.bookings[id], now) ==> StateOf(db, room, slot, now, horizonDays, viewer).CellTaken?)
      && (StateOf(Run(db, now, budget).db, room, slot, now, horizonDays, viewer).CellFreeNow? <==>
            Freed(db, db.bookings[id], now))
  {
    RunOutlives(db, now, budget);
    HeldShowsTaken(db, room, id, now, horizonDays, viewer);
    FreedShowsFree(db, Run(db, now, budget).db, room, id, now, horizonDays, viewer);
  }

  lemma HeldShowsTaken(db: Db, room: Room, id: nat, now: int, horizonDays: int, viewer: Viewer)
    requires Exclusive(db.bookings) && ReasonsGiven(db.site) && id < |db.bookings| && Blocking(db.bookings[id].status)
    requires db.bookings[id].room == room.id && now < db.bookings[id].End() && Shown(db, db.bookings[id].slot)
    requires SlotOpen(db, db.bookings[id].slot, room).None? && !room.availabilityOnly
    ensures var state := StateOf(db, room, db.bookings[id].slot, now, horizonDays, viewer);
      !state.CellFreeNow? && (Overdue(db.bookings[id], now) ==> state.CellTaken?)
  {
    var slot := db.bookings[id].slot;
    AlignedWithinDate(slot);
    ClosureReasonMeansClosed(db, LocalDate(slot), slot, room.id);
    BlockReasonFinds(db.site.blocks, slot, room.id);
    HolderIs(db.bookings, id);
  }

  lemma FreedShowsFree(db: Db, next: Db, room: Room, id: nat, now: int, horizonDays: int, viewer: Viewer)
    requires Outlives(db, next.bookings, now) && next.site == db.site
    requires Exclusive(db.bookings) && ReasonsGiven(db.site) && id < |db.bookings| && Blocking(db.bookings[id].status)
    requires db.bookings[id].room == room.id && db.bookings[id].slot <= now < db.bookings[id].End()
    requires Shown(db, db.bookings[id].slot) && SlotOpen(db, db.bookings[id].slot, room).None? && !room.availabilityOnly
    ensures StateOf(next, room, db.bookings[id].slot, now, horizonDays, viewer).CellFreeNow? <==>
      Freed(db, db.bookings[id], now)
  {
    FreedCell(db, next.bookings, id, now);
    SameGrid(db, next, room, db.bookings[id].slot);
    OpenExactly(next, db.bookings[id].slot, room);
    OccupiedExactly(next.bookings, room.id, db.bookings[id].slot);
    FreeNowExactly(next, room, db.bookings[id].slot, now, horizonDays, viewer);
  }

  lemma SameGrid(db: Db, next: Db, room: Room, slot: int)
    requires next.site == db.site
    ensures (Shown(next, slot) <==> Shown(db, slot)) && SlotOpen(next, slot, room) == SlotOpen(db, slot, room)
  {
  }

  // ---------------------------------------------------------------- hours shown taken and free at once

  lemma NineIsShown(db: Db)
    requires db.site.closures == [] && db.site.blocks == [] && db.site.overrides == map[]
    ensures ReasonsGiven(db.site) && Shown(db, NINE) && SlotOpen(db, NINE, HALL).None?
  {
  }

  /** Nobody checked in to the hour from nine: at twenty past the grid still shows it taken. */
  lemma MissedHourShowsTaken(db: Db, now: int, budget: nat, horizonDays: int, viewer: Viewer)
    requires db == Few([AtNine(1, 1)], [], {}) && now == NINE + 20 * MINUTE && budget >= 1
    ensures Sound(db, now) && StateOf(db, HALL, NINE, now, horizonDays, viewer).CellTaken?
    ensures StateOf(Run(db, now, budget).db, HALL, NINE, now, horizonDays, viewer).CellFreeNow?
  {
    AtNineIsSound(now);
    FewIsSound([AtNine(1, 1)], [], {}, now);
    SmallTablesComplete(db, now, budget);
    NineIsShown(db);
    ExpiredHoldShowsTaken(db, HALL, 0, now, budget, horizonDays, viewer);
  }

  /** The holder of the hour from nine has a strike, and the threshold was since lowered to one. */
  const ONE_STRIKE := Violation(1, None, false, 0, 30 * DAY, true, None, None, None)

  function Lowered(): Db {
    Db([AtNine(1, 1)], [ONE_STRIKE], [], {}, map[], DEFAULT_SITE.(policies := [DEFAULT_POLICY.(threshold := 1)]))
  }

  lemma LoweredIsSound(now: int)
    requires 0 <= now
    ensures Sound(Lowered(), now)
  {
    AtNineIsSound(now);
  }

  lemma LoweredPunishes(db: Db, now: int)
    requires db == Lowered() && NINE <= now < NINE + 15 * MINUTE
    ensures Punished(db, db.bookings[0], now) && !Released(db.bookings[0], db.site.incidents, now)
  {
    var mid := Lifecycle(db, now);
    LifecycleRows(db, now);
    LiveAtOnce(db.bookings[0], db.site.incidents, now);
    StruckAtMembers(db, now, 0);
    LifecycleOthers(db, now);
    assert StruckAt(db, now) == [];
    assert mid.violations == [ONE_STRIKE];
    assert StrikeOf(mid.violations[0], 1, now);
    assert StrikeIds(mid.violations, 1, now) == {0};
  }

  /** Five minutes into the hour, well within the grace, the grid holds it and reconciliation frees it. */
  lemma GraceIsNoShield(db: Db, now: int, budget: nat, horizonDays: int, viewer: Viewer)
    requires db == Lowered() && now == NINE + 5 * MINUTE && budget >= 1
    ensures Sound(db, now) && !StateOf(db, HALL, NINE, now, horizonDays, viewer).CellFreeNow?
    ensures StateOf(Run(db, now, budget).db, HALL, NINE, now, horizonDays, viewer).CellFreeNow?
  {
    LoweredIsSound(now);
    AtNineIsSound(now);
    SmallTablesComplete(db, now, budget);
    LoweredPunishes(db, now);
    NineIsShown(db);
    ExpiredHoldShowsTaken(db, HALL, 0, now, budget, horizonDays, viewer);
  }
}
