/** The read-only grid (core/services/availability.py): one bulk lookup of closures, class blocks and
    bookings for a date, and from it the state of every hour of a room. */
module Availability {
  import opened Slots
  import opened Tables
  import opened Rules

  datatype CellState =
    | CellPast | CellClosed | CellInUse | CellHeld | CellCompleted | CellFreeNow | CellBookable
    | CellRestricted | CellViewOnly | CellTaken | CellOutsideHorizon

  /** `reason` and `blockReason` are what the cell shows of a closure or a class. */
  datatype Cell = Cell(slot: int, state: CellState, booking: Option<nat>, reason: string, blockReason: string)

  /** The viewer as resolved once for a whole grid. */
  datatype Viewer = Viewer(category: Option<nat>, memberRooms: set<nat>)

  predicate Admits(room: Room, viewer: Viewer) {
    (room.membersOnly ==> room.id in viewer.memberRooms) && AdmitsCategory(room, viewer.category)
  }

  // ---------------------------------------------------------------- bulk lookups

  function Under<K, V>(groups: map<K, seq<V>>, key: K): seq<V> {
    if key in groups then groups[key] else []
  }

  /** An unrevoked closure that meets some part of the local date. */
  predicate ClosureOnDate(c: Closure, date: int) {
    c.revokedAt.None? && c.startsAt < SlotStartFor(date, 0) + DAY && c.endsAt > SlotStartFor(date, 0)
  }

  function ClosuresOn(cs: seq<Closure>, date: int, room: Option<nat>): seq<Closure> {
    if cs == [] then []
    else
      var last := cs[|cs| - 1];
      ClosuresOn(cs[..|cs| - 1], date, room) + if ClosureOnDate(last, date) && last.room == room then [last] else []
  }

  function BlocksOn(bs: seq<WeeklyBlock>, date: int, room: nat): seq<WeeklyBlock> {
    if bs == [] then []
    else
      var last := bs[|bs| - 1];
      BlocksOn(bs[..|bs| - 1], date, room) + if BlockOnDate(last, date) && last.room == room then [last] else []
  }

  /** Unrevoked closures of the date, grouped by room; `None` groups those of all rooms. */
  method ClosuresFor(cs: seq<Closure>, date: int) returns (byRoom: map<Option<nat>, seq<Closure>>)
    ensures forall room: Option<nat> :: Under(byRoom, room) == ClosuresOn(cs, date, room)
  {
    byRoom := map[];
    for i := 0 to |cs|
      invariant forall room: Option<nat> :: Under(byRoom, room) == ClosuresOn(cs[..i], date, room)
    {
      assert cs[..i + 1][..i] == cs[..i];
      if ClosureOnDate(cs[i], date) {
        byRoom := byRoom[cs[i].room := Under(byRoom, cs[i].room) + [cs[i]]];
      }
    }
    assert cs[..|cs|] == cs;
  }

  /** Class blocks of the date, grouped by room. */
  method WeeklyBlocksForDate(bs: seq<WeeklyBlock>, date: int, rooms: set<nat>) returns (byRoom: map<nat, seq<WeeklyBlock>>)
    ensures forall room: nat :: Under(byRoom, room) == if room in rooms then BlocksOn(bs, date, room) else []
  {
    byRoom := map[];
    for i := 0 to |bs|
      invariant forall room: nat :: Under(byRoom, room) == if room in rooms then BlocksOn(bs[..i], date, room) else []
    {
      assert bs[..i + 1][..i] == bs[..i];
      if bs[i].room in rooms && BlockOnDate(bs[i], date) {
        byRoom := byRoom[bs[i].room := Under(byRoom, bs[i].room) + [bs[i]]];
      }
    }
    assert bs[..|bs|] == bs;
  }

  /** The booking that blocks the room and hour; of several, the last. */
  function Holder(bs: seq<Booking>, room: nat, slot: int): (r: Option<nat>)
    ensures r.Some? ==>
      r.value < |bs| && bs[r.value].room == room && bs[r.value].slot == slot && Blocking(bs[r.value].status)
    ensures r.Some? <==> Taken(bs, room, slot)
  {
    if bs == [] then None
    else
      var last := bs[|bs| - 1];
      if last.room == room && last.slot == slot && Blocking(last.status) then Some(|bs| - 1)
      else
        var r := Holder(bs[..|bs| - 1], room, slot);
        assert Taken(bs, room, slot) <==> Taken(bs[..|bs| - 1], room, slot) by {
          if Taken(bs, room, slot) {
            var i :| 0 <= i < |bs| && bs[i].room == room && bs[i].slot == slot && Blocking(bs[i].status);
            assert bs[..|bs| - 1][i] == bs[i];
          }
        }
        r
  }

  method BookingsBySlot(bs: seq<Booking>, date: int, room: nat) returns (lookup: map<int, nat>)
    ensures forall slot :: slot in lookup <==> LocalDate(slot) == date && Holder(bs, room, slot).Some?
    ensures forall slot :: slot in lookup ==> Holder(bs, room, slot) == Some(lookup[slot])
  {
    lookup := map[];
    for i := 0 to |bs|
      invariant forall slot :: slot in lookup <==> LocalDate(slot) == date && Holder(bs[..i], room, slot).Some?
      invariant forall slot :: slot in lookup ==> Holder(bs[..i], room, slot) == Some(lookup[slot])
    {
      assert bs[..i + 1][..i] == bs[..i];
      if LocalDate(bs[i].slot) == date && bs[i].room == room && Blocking(bs[i].status) {
        lookup := lookup[bs[i].slot := i];
      }
    }
    assert bs[..|bs|] == bs;
  }

  // ---------------------------------------------------------------- one cell

  function FirstReason(cs: seq<Closure>, slot: int): Option<string> {
    if cs == [] then None
    else if cs[0].startsAt < slot + HOUR && cs[0].endsAt > slot then Some(cs[0].reason)
    else FirstReason(cs[1..], slot)
  }

  /** What the grid shows for the closures of the hour: the first of all rooms', else of the room's. */
  function ClosureReason(all: seq<Closure>, own: seq<Closure>, slot: int): string {
    if FirstReason(all, slot).Some? then FirstReason(all, slot).value
    else if FirstReason(own, slot).Some? then FirstReason(own, slot).value
    else ""
  }

  function BlockReason(bs: seq<WeeklyBlock>, slot: int): string {
    if bs == [] then ""
    else if bs[0].startHour <= LocalHour(slot) < bs[0].endHour then bs[0].reason
    else BlockReason(bs[1..], slot)
  }

  function Classify(now: int, slot: int, room: Room, dayClosed: bool, reason: string, blockReason: string,
                    booking: Option<Booking>, horizonLast: int, admitted: bool): CellState
  {
    if slot + HOUR <= now then CellPast
    else if !room.active || dayClosed || reason != "" then CellClosed
    else if booking.Some? then
      var b := booking.value;
      if b.status.PendingApproval? then CellHeld
      else if b.status.Completed? then CellCompleted
      else if b.status.InUse? then CellInUse
      else if b.deadline.Some? && slot <= now < b.deadline.value then CellHeld
      else CellTaken
    else if blockReason != "" then CellClosed
    else if room.availabilityOnly then CellViewOnly
    else if slot <= now then CellFreeNow
    else if LocalDate(slot) <= horizonLast then if admitted then CellBookable else CellRestricted
    else CellOutsideHorizon
  }

  /** The cell of a room and hour of the date, from the tables. */
  function CellAt(db: Db, room: Room, date: int, slot: int, now: int, horizonDays: int, viewer: Viewer): Cell {
    var holder := Holder(db.bookings, room.id, slot);
    var reason := ClosureReason(ClosuresOn(db.site.closures, date, None), ClosuresOn(db.site.closures, date, Some(room.id)),
                                slot);
    var blockReason := BlockReason(BlocksOn(db.site.blocks, date, room.id), slot);
    Cell(slot,
         Classify(now, slot, room, DayHours(db, date).None?, reason, blockReason,
                  if holder.Some? then Some(db.bookings[holder.value]) else None, LocalDate(now) + horizonDays,
                  Admits(room, viewer)),
         holder, reason, blockReason)
  }

  /** The hours a date is shown with: its opening hours, or the default ones when it is closed. */
  function Columns(db: Db, date: int): Hours {
    if DayHours(db, date).Some? then DayHours(db, date).value else Hours(8, 20)
  }

  /** The lookups made once for a room and a date. */
  ghost predicate LookedUp(db: Db, room: nat, date: int, closures: map<Option<nat>, seq<Closure>>,
                           blocks: map<nat, seq<WeeklyBlock>>, bookings: map<int, nat>)
  {
    && Under(closures, None) == ClosuresOn(db.site.closures, date, None)
    && Under(closures, Some(room)) == ClosuresOn(db.site.closures, date, Some(room))
    && Under(blocks, room) == BlocksOn(db.site.blocks, date, room)
    && (forall slot :: slot in bookings <==> LocalDate(slot) == date && Holder(db.bookings, room, slot).Some?)
    && (forall slot :: slot in bookings ==> Holder(db.bookings, room, slot) == Some(bookings[slot]))
  }

  /** One cell from the lookups made for the whole date. */
  method CellFrom(db: Db, room: Room, date: int, hour: int, now: int, horizonDays: int, viewer: Viewer,
                  closures: map<Option<nat>, seq<Closure>>, blocks: map<nat, seq<WeeklyBlock>>, bookings: map<int, nat>)
    returns (cell: Cell)
    requires 0 <= hour < 24
    requires LookedUp(db, room.id, date, closures, blocks, bookings)
    ensures cell == CellAt(db, room, date, SlotStartFor(date, hour), now, horizonDays, viewer)
  {
    var slot := SlotStartFor(date, hour);
    SlotStartForInverse(date, hour);
    var booking := if slot in bookings then Some(bookings[slot]) else None;
    var reason := ClosureReason(Under(closures, None), Under(closures, Some(room.id)), slot);
    var blockReason := BlockReason(Under(blocks, room.id), slot);
    var state := Classify(now, slot, room, DayHours(db, date).None?, reason, blockReason,
                          if booking.Some? then Some(db.bookings[booking.value]) else None,
                          LocalDate(now) + horizonDays, Admits(room, viewer));
    return Cell(slot, state, booking, reason, blockReason);
  }

  /** The cells of `n` hours from hour `open`. */
  function CellsFrom(db: Db, room: Room, date: int, open: int, n: nat, now: int, horizonDays: int, viewer: Viewer): seq<Cell>
    decreases n
  {
    if n == 0 then []
    else CellsFrom(db, room, date, open, n - 1, now, horizonDays, viewer)
         + [CellAt(db, room, date, SlotStartFor(date, open + n - 1), now, horizonDays, viewer)]
  }

  lemma {:induction false} CellsFromAt(db: Db, room: Room, date: int, open: int, n: nat, now: int, horizonDays: int,
                                       viewer: Viewer, k: nat)
    requires k < n
    ensures var cells := CellsFrom(db, room, date, open, n, now, horizonDays, viewer);
      |cells| == n && cells[k] == CellAt(db, room, date, SlotStartFor(date, open + k), now, horizonDays, viewer)
    decreases n
  {
    if k < n - 1 {
      CellsFromAt(db, room, date, open, n - 1, now, horizonDays, viewer, k);
    } else if n > 1 {
      CellsFromAt(db, room, date, open, n - 1, now, horizonDays, viewer, 0);
    }
  }

  /** Every cell of one room on one date. */
  method RoomDayCells(db: Db, room: Room, date: int, now: int, horizonDays: int, viewer: Viewer) returns (cells: seq<Cell>)
    requires var h := Columns(db, date); 0 <= h.open < h.close <= 24
    ensures var h := Columns(db, date);
      cells == CellsFrom(db, room, date, h.open, h.close - h.open, now, horizonDays, viewer)
  {
    var closures := ClosuresFor(db.site.closures, date);
    var blocks := WeeklyBlocksForDate(db.site.blocks, date, {room.id});
    var bookings := BookingsBySlot(db.bookings, date, room.id);
    var hours := DayHours(db, date);
    var open := if hours.Some? then hours.value.open else 8;
    var close := if hours.Some? then hours.value.close else 20;
    assert LookedUp(db, room.id, date, closures, blocks, bookings);
    cells := [];
    for hour := open to close
      invariant cells == CellsFrom(db, room, date, open, hour - open, now, horizonDays, viewer)
    {
      var cell := CellFrom(db, room, date, hour, now, horizonDays, viewer, closures, blocks, bookings);
      cells := cells + [cell];
    }
  }

  // ---------------------------------------------------------------- bookable starts

  /** A slot start a new booking could target, by the calendar alone. */
  predicate CalendarAdmits(db: Db, room: Room, slot: int) {
    SlotOpen(db, slot, room).None?
  }

  predicate Increasing(s: seq<int>) {
    forall j, k :: 0 <= j < k < |s| ==> s[j] < s[k]
  }

  /** Those of the starts that no closure and no class takes. */
  function Untaken(db: Db, room: nat, all: seq<int>): (r: seq<int>)
    requires Increasing(all)
    ensures forall slot :: slot in r <==> slot in all && !SlotClosed(db, slot, room) && !ClassAt(db, slot, room)
    ensures Increasing(r)
  {
    if all == [] then []
    else
      var front, last := all[..|all| - 1], all[|all| - 1];
      var rest := Untaken(db, room, front);
      assert forall slot :: slot in all <==> slot in front || slot == last;
      assert forall k :: 0 <= k < |rest| ==> rest[k] in front;
      if SlotClosed(db, last, room) || ClassAt(db, last, room) then rest else rest + [last]
  }

  /** The fast path: when no closure meets the day's opening hours and the room has no class that
      weekday, every start of the day is returned unchecked. */
  method BookableSlotStarts(db: Db, date: int, room: Room) returns (starts: seq<int>)
    requires DayHours(db, date).Some? ==> var h := DayHours(db, date).value; 0 <= h.open && h.close <= 24
    ensures forall slot :: slot in starts <==> HourAligned(slot) && LocalDate(slot) == date && CalendarAdmits(db, room, slot)
    ensures Increasing(starts)
  {
    var hours := DayHours(db, date);
    if hours.None? || !room.active {
      return [];
    }
    var open, close := hours.value.open, hours.value.close;
    var all := DayStarts(date, open, close);
    StartsAreTheHours(date, open, close);
    if all == [] {
      return [];
    }
    var hasClosures := AnyClosure(db.site.closures, all[0], all[|all| - 1] + HOUR, room.id);
    var hasBlocks := AnyClass(db.site.blocks, room.id, Weekday(date));
    if !hasClosures && !hasBlocks {
      FastPathIsSafe(db, date, room, all);
      return all;
    }
    starts := [];
    for k := 0 to |all|
      invariant starts == Untaken(db, room.id, all[..k])
    {
      assert all[..k + 1][..k] == all[..k];
      if !SlotClosed(db, all[k], room.id) && !ClassAt(db, all[k], room.id) {
        starts := starts + [all[k]];
      }
    }
    assert all[..|all|] == all;
  }

  predicate AnyClosure(cs: seq<Closure>, start: int, end: int, room: nat) {
    exists i :: 0 <= i < |cs| && RangeCovers(cs[i], start, end, room)
  }

  /** Any class of the room that weekday, whatever its hours and validity. */
  predicate AnyClass(bs: seq<WeeklyBlock>, room: nat, weekday: int) {
    exists i :: 0 <= i < |bs| && bs[i].room == room && bs[i].weekday == weekday
  }

  predicate RangeCovers(c: Closure, start: int, end: int, room: nat) {
    c.revokedAt.None? && c.startsAt < end && c.endsAt > start && (c.room.None? || c.room.value == room)
  }

  function DayStarts(date: int, open: int, close: int): (r: seq<int>)
    ensures |r| == if open < close then close - open else 0
    ensures forall k :: 0 <= k < |r| ==> r[k] == SlotStartFor(date, open + k)
  {
    if open < close then seq(close - open, k => SlotStartFor(date, open + k)) else []
  }

  lemma StartsAreTheHours(date: int, open: int, close: int)
    requires 0 <= open && close <= 24
    ensures forall slot :: slot in DayStarts(date, open, close) <==>
      HourAligned(slot) && LocalDate(slot) == date && open <= LocalHour(slot) < close
  {
    var all := DayStarts(date, open, close);
    forall slot
      ensures slot in all <==> HourAligned(slot) && LocalDate(slot) == date && open <= LocalHour(slot) < close
    {
      if slot in all {
        var k :| 0 <= k < |all| && all[k] == slot;
        SlotStartForInverse(date, open + k);
      }
      if HourAligned(slot) && LocalDate(slot) == date && open <= LocalHour(slot) < close {
        AlignedIsSlotStart(slot);
        assert all[LocalHour(slot) - open] == slot;
      }
    }
  }

  lemma FastPathIsSafe(db: Db, date: int, room: Room, all: seq<int>)
    requires all != [] && forall k :: 0 <= k < |all| ==> all[k] == all[0] + k * HOUR && LocalDate(all[k]) == date
    requires !AnyClosure(db.site.closures, all[0], all[|all| - 1] + HOUR, room.id)
    requires !AnyClass(db.site.blocks, room.id, Weekday(date))
    ensures forall slot :: slot in all ==> !SlotClosed(db, slot, room.id) && !ClassAt(db, slot, room.id)
  {
  }
}
