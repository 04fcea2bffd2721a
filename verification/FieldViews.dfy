/** What the grid and the timeline show in terms of what is stored. */
module FieldViews {
  import opened Slots
  import opened Tables
  import opened Rules
  import opened Invariants
  import opened Availability
  import opened Offers
  import opened FieldRules
  import T = Timeline

  // ---------------------------------------------------------------- the reasons shown

  /** The closure is the first of its scope in force that meets the hour. */
  ghost predicate FirstShutting(cs: seq<Closure>, i: nat, slot: int, scope: Option<nat>) {
    && i < |cs| && ShutsFor(cs[i], slot, scope)
    && forall j :: 0 <= j < i ==> !ShutsFor(cs[j], slot, scope)
  }

  predicate ShutsFor(c: Closure, slot: int, scope: Option<nat>) {
    c.room == scope && c.revokedAt == None && c.startsAt - HOUR < slot < c.endsAt
  }

  lemma OneReason(c: Closure, slot: int)
    ensures FirstReason([c], slot) == if c.startsAt - HOUR < slot < c.endsAt then Some(c.reason) else None
  {
    assert [c][1..] == [];
  }

  lemma {:induction false} FirstReasonIs(cs: seq<Closure>, i: nat, date: int, slot: int, scope: Option<nat>)
    requires WithinDate(slot, date) && (forall i :: 0 <= i < |cs| ==> cs[i].reason != "")
    requires FirstShutting(cs, i, slot, scope)
    ensures FirstReason(ClosuresOn(cs, date, scope), slot) == Some(cs[i].reason)
  {
    var front, last := cs[..|cs| - 1], cs[|cs| - 1];
    var more := if ClosureOnDate(last, date) && last.room == scope then [last] else [];
    assert forall j :: 0 <= j < |front| ==> front[j] == cs[j];
    FirstReasonConcat(ClosuresOn(front, date, scope), more, slot);
    if i < |front| {
      FirstReasonIs(front, i, date, slot, scope);
    } else {
      FirstReasonFinds(front, date, slot, scope);
      OneReason(last, slot);
    }
  }

  /** The class is the first of the room on the hour. */
  ghost predicate FirstTeaching(bs: seq<WeeklyBlock>, i: nat, slot: int, room: nat) {
    i < |bs| && Teaches(bs[i], slot, room) && forall j :: 0 <= j < i ==> !Teaches(bs[j], slot, room)
  }

  lemma NoneTeaches(bs: seq<WeeklyBlock>, slot: int, room: nat)
    requires forall i :: 0 <= i < |bs| ==> bs[i].reason != "" && !Teaches(bs[i], slot, room)
    ensures BlockReason(BlocksOn(bs, LocalDate(slot), room), slot) == ""
  {
    BlockReasonFinds(bs, slot, room);
    assert forall i :: 0 <= i < |bs| ==> !BlockCovers(bs[i], slot, room);
  }

  lemma OneClass(b: WeeklyBlock, slot: int)
    ensures BlockReason([b], slot) == if b.startHour <= LocalHour(slot) < b.endHour then b.reason else ""
  {
    assert [b][1..] == [];
  }

  lemma {:induction false} BlockReasonIs(bs: seq<WeeklyBlock>, i: nat, slot: int, room: nat)
    requires (forall i :: 0 <= i < |bs| ==> bs[i].reason != "") && FirstTeaching(bs, i, slot, room)
    ensures BlockReason(BlocksOn(bs, LocalDate(slot), room), slot) == bs[i].reason
  {
    var date := LocalDate(slot);
    var front, last := bs[..|bs| - 1], bs[|bs| - 1];
    var more := if BlockOnDate(last, date) && last.room == room then [last] else [];
    assert forall j :: 0 <= j < |front| ==> front[j] == bs[j];
    BlockReasonFinds(front, slot, room);
    BlockReasonConcat(BlocksOn(front, date, room), more, slot);
    if i < |front| {
      BlockReasonIs(front, i, slot, room);
    } else {
      NoneTeaches(front, slot, room);
      OneClass(last, slot);
    }
  }

  /** A cell gives the reason of the first closure of all rooms that meets the hour, without one that of the first
      of the room's own, and the reason of the first class of the hour. */
  lemma ReasonsExactly(db: Db, room: Room, slot: int, now: int, horizonDays: int, viewer: Viewer)
    requires HourAligned(slot) && ReasonsGiven(db.site)
    ensures var cell, cs, bs := CellAt(db, room, LocalDate(slot), slot, now, horizonDays, viewer), db.site.closures, db.site.blocks;
      var all := exists i :: 0 <= i < |cs| && ShutsFor(cs[i], slot, None);
      && cell.slot == slot
      && (cell.reason == "" <==> !Shut(db, slot, room.id)) && (cell.blockReason == "" <==> !Taught(db, slot, room.id))
      && (forall i: nat :: FirstShutting(cs, i, slot, None) ==> cell.reason == cs[i].reason)
      && (!all ==> forall i: nat :: FirstShutting(cs, i, slot, Some(room.id)) ==> cell.reason == cs[i].reason)
      && (forall i: nat :: FirstTeaching(bs, i, slot, room.id) ==> cell.blockReason == bs[i].reason)
  {
    var date := LocalDate(slot);
    AlignedWithinDate(slot);
    var cs, bs := db.site.closures, db.site.blocks;
    forall i: nat, scope | FirstShutting(cs, i, slot, scope)
      ensures FirstReason(ClosuresOn(cs, date, scope), slot) == Some(cs[i].reason)
    {
      FirstReasonIs(cs, i, date, slot, scope);
    }
    forall i: nat | FirstTeaching(bs, i, slot, room.id)
      ensures BlockReason(BlocksOn(bs, date, room.id), slot) == bs[i].reason
    {
      BlockReasonIs(bs, i, slot, room.id);
    }
    FirstReasonFinds(cs, date, slot, None);
    BlockReasonFinds(bs, slot, room.id);
    TaughtExactly(db, slot, room.id);
    ClosureReasonMeansClosed(db, date, slot, room.id);
    ShutExactly(db, slot, room.id);
  }

  // ---------------------------------------------------------------- the state shown

  /** The booking that fills the hour waits for a decision, or is expected for the time being. */
  predicate Keeps(b: Booking, slot: int, now: int) {
    || b.status == PendingApproval
    || (b.status == Scheduled && b.deadline != None && slot <= now < b.deadline.value)
  }

  ghost predicate OccupiedBy(bs: seq<Booking>, i: nat, room: nat, slot: int) {
    i < |bs| && Fills(bs[i], room, slot)
  }

  lemma OccupantExactly(bs: seq<Booking>, i: nat, room: nat, slot: int)
    requires Exclusive(bs) && OccupiedBy(bs, i, room, slot)
    ensures Holder(bs, room, slot) == Some(i)
  {
    assert Blocking(bs[i].status);
    HolderIs(bs, i);
  }

  /** The grid's word on an hour nobody has. */
  lemma FreeCellExactly(db: Db, room: Room, slot: int, now: int, horizonDays: int, viewer: Viewer)
    requires Shown(db, slot) && ReasonsGiven(db.site) && !Occupied(db.bookings, room.id, slot)
    ensures var cell := CellAt(db, room, LocalDate(slot), slot, now, horizonDays, viewer);
      var open := room.active && OpenAt(db, slot) && !Shut(db, slot, room.id) && !Taught(db, slot, room.id);
      var near := LocalDate(slot) <= LocalDate(now) + horizonDays;
      && cell.booking == None
      && (slot + HOUR <= now ==> cell.state == CellPast)
      && (now < slot + HOUR && !open ==> cell.state == CellClosed)
      && (now < slot + HOUR && open && room.availabilityOnly ==> cell.state == CellViewOnly)
      && (slot <= now < slot + HOUR && open && !room.availabilityOnly ==> cell.state == CellFreeNow)
      && (now < slot && open && !room.availabilityOnly ==>
            cell.state == if !near then CellOutsideHorizon else if Welcomed(room, viewer) then CellBookable else CellRestricted)
  {
    OccupiedExactly(db.bookings, room.id, slot);
    ReasonsExactly(db, room, slot, now, horizonDays, viewer);
  }

  /** What the grid says of an hour somebody has, while the room's calendar is open or not. */
  predicate Says(state: CellState, b: Booking, slot: int, now: int, open: bool) {
    && (slot + HOUR <= now ==> state == CellPast)
    && (now < slot + HOUR && !open ==> state == CellClosed)
    && (now < slot + HOUR && open && b.status == Completed ==> state == CellCompleted)
    && (now < slot + HOUR && open && b.status == InUse ==> state == CellInUse)
    && (now < slot + HOUR && open && b.status in {PendingApproval, Scheduled} ==>
          state == if Keeps(b, slot, now) then CellHeld else CellTaken)
  }

  lemma TakenStateExactly(now: int, slot: int, room: Room, dayClosed: bool, reason: string, blockReason: string, b: Booking,
                          horizonLast: int, admitted: bool)
    requires Blocking(b.status)
    ensures Says(Classify(now, slot, room, dayClosed, reason, blockReason, Some(b), horizonLast, admitted), b, slot, now,
                 room.active && !dayClosed && reason == "")
  {
  }

  lemma TakenCellIs(db: Db, room: Room, slot: int, now: int, horizonDays: int, viewer: Viewer, i: nat)
    requires OccupiedBy(db.bookings, i, room.id, slot) && Holder(db.bookings, room.id, slot) == Some(i)
    ensures var cell := CellAt(db, room, LocalDate(slot), slot, now, horizonDays, viewer);
      && cell.booking == Some(i)
      && Says(cell.state, db.bookings[i], slot, now, room.active && DayHours(db, LocalDate(slot)).Some? && cell.reason == "")
  {
    var cell := CellAt(db, room, LocalDate(slot), slot, now, horizonDays, viewer);
    TakenStateExactly(now, slot, room, DayHours(db, LocalDate(slot)).None?, cell.reason, cell.blockReason, db.bookings[i],
                      LocalDate(now) + horizonDays, Admits(room, viewer));
  }

  /** An hour within those a date is shown with is one the building is open if the date has opening hours. */
  lemma ShownIsOpen(db: Db, slot: int)
    requires Shown(db, slot)
    ensures HourAligned(slot) && (DayHours(db, LocalDate(slot)).Some? <==> OpenAt(db, slot))
  {
  }

  /** The grid's word on an hour somebody has. */
  lemma TakenCellExactly(db: Db, room: Room, slot: int, now: int, horizonDays: int, viewer: Viewer, i: nat)
    requires Shown(db, slot) && ReasonsGiven(db.site)
    requires Exclusive(db.bookings) && OccupiedBy(db.bookings, i, room.id, slot)
    ensures var cell := CellAt(db, room, LocalDate(slot), slot, now, horizonDays, viewer);
      && cell.booking == Some(i)
      && Says(cell.state, db.bookings[i], slot, now, room.active && OpenAt(db, slot) && !Shut(db, slot, room.id))
  {
    OccupantExactly(db.bookings, i, room.id, slot);
    ShownIsOpen(db, slot);
    ReasonsExactly(db, room, slot, now, horizonDays, viewer);
    TakenCellIs(db, room, slot, now, horizonDays, viewer, i);
  }

  /** The hours of a day: those of its override, or from eight to eight, and those too for a date that is closed. */
  lemma ColumnsExactly(db: Db, date: int)
    ensures Columns(db, date) ==
      if date in db.site.overrides && db.site.overrides[date] != None then db.site.overrides[date].value else Hours(8, 20)
  {
  }

  // ---------------------------------------------------------------- the timeline

  /** The colour of a booking's bar. */
  lemma KindExactly(b: Booking)
    ensures var kind := T.KindOf(b);
      && (kind == T.PendingBar <==> b.status == PendingApproval)
      && (kind == T.BookedBar <==> b.status == Scheduled && !b.staff)
      && (kind == T.StaffBar <==> b.staff && (b.status == Scheduled || b.status == InUse))
      && (kind == T.InUseBar <==> b.status == InUse && !b.staff)
      && (kind == T.DoneBar <==> b.status == Completed)
      && (b.status == NoShow ==> kind == T.NoShowBar)
  {
  }

  predicate During(b: WeeklyBlock, h: int) {
    b.startHour <= h < b.endHour
  }

  /** A class is drawn in the upper lane over its hours within the opening hours, if any. */
  lemma ClassBarExactly(b: WeeklyBlock, hours: Hours)
    ensures var bar := T.BlockBar(b, hours);
      && (bar == None <==> forall h :: hours.open <= h < hours.close ==> !During(b, h))
      && (bar != None ==>
            && bar.value.kind == T.ClassBar && bar.value.booking == None && !bar.value.below
            && forall h :: hours.open <= h < hours.close && During(b, h) <==> bar.value.start <= h < bar.value.end)
  {
    var bar := T.BlockBar(b, hours);
    if bar != None {
      assert hours.open <= bar.value.start < hours.close && During(b, bar.value.start);
    }
  }

  /** So is a closure over the hours it is drawn over. */
  lemma ClosureBarExactly(c: Closure, date: int, hours: Hours)
    requires 0 <= hours.open && hours.close <= 24 && ClosureOnDate(c, date)
    ensures var bar := T.ClosureBar(c, date, hours);
      && (bar == None <==> forall h :: hours.open <= h < hours.close ==> !Over(c, date, h))
      && (bar != None ==>
            && bar.value.kind == T.ClosedBar && bar.value.booking == None && !bar.value.below
            && forall h :: bar.value.start <= h < bar.value.end <==> hours.open <= h < hours.close && Over(c, date, h))
  {
    var bar := T.ClosureBar(c, date, hours);
    forall h | hours.open <= h < hours.close
      ensures h in T.HoursOf(bar) <==> Over(c, date, h)
    {
      T.DrawnExactly(c, date, hours, h);
    }
    if bar != None {
      assert bar.value.start in T.HoursOf(bar);
    }
  }

  /** The closure meets the hour and ends a minute or more into it. */
  predicate Over(c: Closure, date: int, h: int) {
    c.startsAt - HOUR < SlotStartFor(date, h) <= c.endsAt - MINUTE
  }

  /** The places, in increasing order, of those that have a bar. */
  ghost predicate Places(ix: seq<nat>, n: nat, bars: seq<Option<T.Bar>>, drawn: seq<T.Bar>) {
    && |bars| == n && |ix| == |drawn|
    && (forall k :: 0 <= k < |ix| ==> ix[k] < n && bars[ix[k]] == Some(drawn[k]))
    && (forall j, k :: 0 <= j < k < |ix| ==> ix[j] < ix[k])
    && (forall i: nat :: i < n && bars[i] != None ==> i in ix)
  }

  lemma OneMorePlace(ix: seq<nat>, n: nat, bars: seq<Option<T.Bar>>, drawn: seq<T.Bar>, bar: Option<T.Bar>)
    requires Places(ix, n, bars, drawn)
    ensures bar == None ==> Places(ix, n + 1, bars + [bar], drawn)
    ensures bar != None ==> Places(ix + [n], n + 1, bars + [bar], drawn + [bar.value])
  {
    if bar != None {
      assert forall i: nat :: i in ix ==> i in ix + [n];
      assert (ix + [n])[|ix|] == n;
    }
  }

  /** The bars of the classes are one for each class that has hours to draw, in the order of the table. */
  lemma {:induction false} ClassBarsExactly(bs: seq<WeeklyBlock>, hours: Hours) returns (ix: seq<nat>)
    ensures Places(ix, |bs|, seq(|bs|, i requires 0 <= i < |bs| => T.BlockBar(bs[i], hours)), T.BlockBars(bs, hours))
  {
    if bs == [] {
      ix := [];
    } else {
      var front, bar := bs[..|bs| - 1], T.BlockBar(bs[|bs| - 1], hours);
      ix := ClassBarsExactly(front, hours);
      var bars := seq(|front|, i requires 0 <= i < |front| => T.BlockBar(front[i], hours));
      OneMorePlace(ix, |front|, bars, T.BlockBars(front, hours), bar);
      assert bars + [bar] == seq(|bs|, i requires 0 <= i < |bs| => T.BlockBar(bs[i], hours));
      ix := if bar == None then ix else ix + [|front|];
    }
  }

  lemma {:induction false} ClosureBarsExactly(cs: seq<Closure>, date: int, hours: Hours) returns (ix: seq<nat>)
    ensures Places(ix, |cs|, seq(|cs|, i requires 0 <= i < |cs| => T.ClosureBar(cs[i], date, hours)),
                   T.ClosureBars(cs, date, hours))
  {
    if cs == [] {
      ix := [];
    } else {
      var front, bar := cs[..|cs| - 1], T.ClosureBar(cs[|cs| - 1], date, hours);
      ix := ClosureBarsExactly(front, date, hours);
      var bars := seq(|front|, i requires 0 <= i < |front| => T.ClosureBar(front[i], date, hours));
      OneMorePlace(ix, |front|, bars, T.ClosureBars(front, date, hours), bar);
      assert bars + [bar] == seq(|cs|, i requires 0 <= i < |cs| => T.ClosureBar(cs[i], date, hours));
      ix := if bar == None then ix else ix + [|front|];
    }
  }

  predicate Absent(b: Booking, room: nat, slot: int) {
    b.room == room && b.slot == slot && b.status == NoShow
  }

  ghost predicate NoneFills(bs: seq<Booking>, ids: seq<nat>, room: nat, slot: int) {
    forall j :: 0 <= j < |ids| && ids[j] < |bs| ==> !Fills(bs[ids[j]], room, slot)
  }

  ghost predicate NoneAbsent(bs: seq<Booking>, ids: seq<nat>, room: nat, slot: int) {
    forall j :: 0 <= j < |ids| && ids[j] < |bs| ==> !Absent(bs[ids[j]], room, slot)
  }

  ghost predicate FirstFills(bs: seq<Booking>, ids: seq<nat>, k: nat, room: nat, slot: int) {
    k < |ids| && ids[k] < |bs| && Fills(bs[ids[k]], room, slot) && NoneFills(bs, ids[..k], room, slot)
  }

  ghost predicate LastAbsent(bs: seq<Booking>, ids: seq<nat>, k: nat, room: nat, slot: int) {
    && k < |ids| && ids[k] < |bs| && Absent(bs[ids[k]], room, slot)
    && NoneFills(bs, ids, room, slot) && NoneAbsent(bs, ids[k + 1..], room, slot)
  }

  /** On a cell the scan draws the first booking it meets that holds the hour. */
  lemma {:induction false} FirstIsDrawn(bs: seq<Booking>, ids: seq<nat>, k: nat, room: nat, slot: int)
    requires (forall k :: 0 <= k < |ids| ==> ids[k] < |bs|) && FirstFills(bs, ids, k, room, slot)
    ensures T.Drawn(bs, ids, room, slot) == Some(ids[k])
    decreases |ids|
  {
    var front := ids[..|ids| - 1];
    if k < |front| {
      assert front[..k] == ids[..k];
      FirstIsDrawn(bs, front, k, room, slot);
    } else {
      AbsentIsDrawn(bs, front, room, slot);
    }
  }

  /** Without one it draws a booking that missed the hour, and none that was cancelled or rejected. */
  lemma AbsentIsDrawn(bs: seq<Booking>, ids: seq<nat>, room: nat, slot: int)
    requires (forall k :: 0 <= k < |ids| ==> ids[k] < |bs|) && NoneFills(bs, ids, room, slot)
    ensures var r := T.Drawn(bs, ids, room, slot);
      r == None || (r.value < |bs| && r.value in ids && Absent(bs[r.value], room, slot))
  {
    var r := T.Drawn(bs, ids, room, slot);
    if r != None {
      var j :| 0 <= j < |ids| && ids[j] == r.value;
      assert !Fills(bs[ids[j]], room, slot);
    }
  }

  /** That is the last one it meets. */
  lemma {:induction false} LastAbsentIsDrawn(bs: seq<Booking>, ids: seq<nat>, k: nat, room: nat, slot: int)
    requires (forall k :: 0 <= k < |ids| ==> ids[k] < |bs|) && LastAbsent(bs, ids, k, room, slot)
    ensures T.Drawn(bs, ids, room, slot) == Some(ids[k])
    decreases |ids|
  {
    var front, last := ids[..|ids| - 1], ids[|ids| - 1];
    assert NoneFills(bs, front, room, slot);
    AbsentIsDrawn(bs, front, room, slot);
    if k < |front| {
      var rest := ids[k + 1..];
      assert rest[|rest| - 1] == last && !Absent(bs[last], room, slot);
      assert !Fills(bs[ids[|front|]], room, slot);
      assert front[k + 1..] == rest[..|rest| - 1];
      LastAbsentIsDrawn(bs, front, k, room, slot);
    }
  }

  lemma NobodyIsDrawn(bs: seq<Booking>, ids: seq<nat>, room: nat, slot: int)
    requires forall k :: 0 <= k < |ids| ==> ids[k] < |bs|
    requires NoneFills(bs, ids, room, slot) && NoneAbsent(bs, ids, room, slot)
    ensures T.Drawn(bs, ids, room, slot) == None
  {
    AbsentIsDrawn(bs, ids, room, slot);
  }
}
