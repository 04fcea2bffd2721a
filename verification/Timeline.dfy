/** The staff timeline of a day (core/services/timeline.py): class hours, closures and bookings as bars
    clipped to the opening hours, and the hours left over as gaps. */
module Timeline {
  import opened Slots
  import opened Tables
  import opened Rules
  import opened Bookings
  import opened Invariants
  import opened Ledgers
  import opened Soundness
  import opened Examples
  import opened Availability
  import opened Offers

  datatype Kind = ClassBar | ClosedBar | PendingBar | BookedBar | StaffBar | InUseBar | DoneBar | NoShowBar

  /** A bar over the hours `[start, end)`; `below` puts it in the second lane. */
  datatype Bar = Bar(kind: Kind, start: int, end: int, booking: Option<nat>, below: bool)

  datatype Row = Row(bars: seq<Bar>, gaps: seq<int>)

  // ---------------------------------------------------------------- clipping

  function Clip(kind: Kind, start: int, end: int, hours: Hours): Option<Bar> {
    var s := if start < hours.open then hours.open else start;
    var e := if end > hours.close then hours.close else end;
    if s >= e then None else Some(Bar(kind, s, e, None, false))
  }

  function HourRange(start: int, end: int): (r: set<int>)
    ensures forall h :: h in r <==> start <= h < end
    decreases end - start
  {
    if start >= end then {} else {start} + HourRange(start + 1, end)
  }

  function HoursOf(bar: Option<Bar>): set<int> {
    if bar.None? then {} else HourRange(bar.value.start, bar.value.end)
  }

  predicate Clipped(bar: Bar, hours: Hours) {
    hours.open <= bar.start < bar.end <= hours.close
  }

  /** The hours of the date a closure is drawn over. */
  function ClosureStart(c: Closure, date: int): int {
    if LocalDate(c.startsAt) == date then LocalHour(c.startsAt) else 0
  }

  function ClosureEnd(c: Closure, date: int): int {
    if LocalDate(c.endsAt) == date then LocalHour(c.endsAt) + if LocalMinute(c.endsAt) > 0 then 1 else 0 else 24
  }

  function ClosureBar(c: Closure, date: int, hours: Hours): Option<Bar> {
    Clip(ClosedBar, ClosureStart(c, date), ClosureEnd(c, date), hours)
  }

  function BlockBar(b: WeeklyBlock, hours: Hours): Option<Bar> {
    Clip(ClassBar, b.startHour, b.endHour, hours)
  }

  /** The bars of the classes, then of the closures, each in table order. */
  function BlockBars(bs: seq<WeeklyBlock>, hours: Hours): (r: seq<Bar>)
    ensures forall k :: 0 <= k < |r| ==> Clipped(r[k], hours) && r[k].booking.None? && r[k].kind.ClassBar?
    ensures forall i :: 0 <= i < |bs| && BlockBar(bs[i], hours).Some? ==> BlockBar(bs[i], hours).value in r
  {
    if bs == [] then []
    else
      var rest, bar := BlockBars(bs[..|bs| - 1], hours), BlockBar(bs[|bs| - 1], hours);
      assert forall i :: 0 <= i < |bs| - 1 ==> bs[..|bs| - 1][i] == bs[i];
      if bar.Some? then rest + [bar.value] else rest
  }

  function ClosureBars(cs: seq<Closure>, date: int, hours: Hours): (r: seq<Bar>)
    ensures forall k :: 0 <= k < |r| ==> Clipped(r[k], hours) && r[k].booking.None? && r[k].kind.ClosedBar?
    ensures forall i :: 0 <= i < |cs| && ClosureBar(cs[i], date, hours).Some? ==> ClosureBar(cs[i], date, hours).value in r
  {
    if cs == [] then []
    else
      var rest, bar := ClosureBars(cs[..|cs| - 1], date, hours), ClosureBar(cs[|cs| - 1], date, hours);
      assert forall i :: 0 <= i < |cs| - 1 ==> cs[..|cs| - 1][i] == cs[i];
      if bar.Some? then rest + [bar.value] else rest
  }

  function BlockHours(bs: seq<WeeklyBlock>, hours: Hours): set<int> {
    if bs == [] then {} else BlockHours(bs[..|bs| - 1], hours) + HoursOf(BlockBar(bs[|bs| - 1], hours))
  }

  function ClosureHours(cs: seq<Closure>, date: int, hours: Hours): set<int> {
    if cs == [] then {} else ClosureHours(cs[..|cs| - 1], date, hours) + HoursOf(ClosureBar(cs[|cs| - 1], date, hours))
  }

  // ---------------------------------------------------------------- the booking of a cell

  predicate Drawable(s: Status) {
    Blocking(s) || s.NoShow?
  }

  predicate DrawnFor(b: Booking, room: nat, slot: int) {
    b.room == room && b.slot == slot && Drawable(b.status)
  }

  /** A no-show gives way to whatever the scan meets later; anything else keeps its cell. */
  function Prefer(bs: seq<Booking>, kept: Option<nat>, id: nat): Option<nat>
    requires id < |bs| && (kept.Some? ==> kept.value < |bs|)
  {
    if kept.None? || bs[kept.value].status.NoShow? then Some(id) else kept
  }

  /** The booking drawn on a cell after a scan of the bookings in the order `ids`. */
  function Drawn(bs: seq<Booking>, ids: seq<nat>, room: nat, slot: int): (r: Option<nat>)
    requires forall k :: 0 <= k < |ids| ==> ids[k] < |bs|
    ensures r.Some? ==> r.value < |bs| && r.value in ids && DrawnFor(bs[r.value], room, slot)
    decreases |ids|
  {
    if ids == [] then None
    else
      var last := ids[|ids| - 1];
      var kept := Drawn(bs, ids[..|ids| - 1], room, slot);
      if DrawnFor(bs[last], room, slot) then Prefer(bs, kept, last) else kept
  }

  /** Whatever the order of the scan, the blocking booking of a cell is the one drawn, and some booking
      is drawn whenever the cell has one. */
  lemma {:induction false} BlockingIsDrawn(bs: seq<Booking>, ids: seq<nat>, room: nat, slot: int)
    requires Exclusive(bs) && forall k :: 0 <= k < |ids| ==> ids[k] < |bs|
    ensures var r := Drawn(bs, ids, room, slot);
      && (r.Some? <==> exists i :: i in ids && DrawnFor(bs[i], room, slot))
      && (forall i :: i in ids && DrawnFor(bs[i], room, slot) && Blocking(bs[i].status) ==> r == Some(i))
    decreases |ids|
  {
    if ids != [] {
      var front, last := ids[..|ids| - 1], ids[|ids| - 1];
      BlockingIsDrawn(bs, front, room, slot);
      assert forall i :: i in ids <==> i in front || i == last;
      var r := Drawn(bs, ids, room, slot);
      forall i | i in ids && DrawnFor(bs[i], room, slot) && Blocking(bs[i].status)
        ensures r == Some(i)
      {
        SameHolder(bs, i, last, room, slot);
      }
    }
  }

  lemma SameHolder(bs: seq<Booking>, i: nat, j: nat, room: nat, slot: int)
    requires Exclusive(bs) && i < |bs| && j < |bs| && DrawnFor(bs[i], room, slot) && Blocking(bs[i].status)
    ensures DrawnFor(bs[j], room, slot) && Blocking(bs[j].status) ==> i == j
  {
    if i != j && DrawnFor(bs[j], room, slot) && Blocking(bs[j].status) {
      assert SameCell(bs[i], bs[j]) && SameCell(bs[j], bs[i]);
    }
  }

  function KindOf(b: Booking): Kind {
    match b.status
    case PendingApproval => PendingBar
    case Scheduled => if b.staff then StaffBar else BookedBar
    case InUse => if b.staff then StaffBar else InUseBar
    case Completed => DoneBar
    case _ => NoShowBar
  }

  // ---------------------------------------------------------------- the method

  /** The bars of the classes and closures of a room, and the hours they take. */
  method CalendarBars(blocks: seq<WeeklyBlock>, closures: seq<Closure>, date: int, hours: Hours)
    returns (bars: seq<Bar>, taken: set<int>)
    ensures bars == BlockBars(blocks, hours) + ClosureBars(closures, date, hours)
    ensures taken == BlockHours(blocks, hours) + ClosureHours(closures, date, hours)
    ensures forall h :: h in taken <==> Shown(bars, h)
  {
    bars, taken := [], {};
    for i := 0 to |blocks|
      invariant bars == BlockBars(blocks[..i], hours) && taken == BlockHours(blocks[..i], hours)
      invariant forall h :: h in taken <==> Shown(bars, h)
    {
      assert blocks[..i + 1][..i] == blocks[..i];
      var bar := BlockBar(blocks[i], hours);
      if bar.Some? {
        OneMoreShown(bars, bar.value);
        bars := bars + [bar.value];
        taken := taken + HourRange(bar.value.start, bar.value.end);
      }
    }
    assert blocks[..|blocks|] == blocks;
    for i := 0 to |closures|
      invariant bars == BlockBars(blocks, hours) + ClosureBars(closures[..i], date, hours)
      invariant taken == BlockHours(blocks, hours) + ClosureHours(closures[..i], date, hours)
      invariant forall h :: h in taken <==> Shown(bars, h)
    {
      assert closures[..i + 1][..i] == closures[..i];
      var bar := ClosureBar(closures[i], date, hours);
      if bar.Some? {
        OneMoreShown(bars, bar.value);
        bars := bars + [bar.value];
        taken := taken + HourRange(bar.value.start, bar.value.end);
      }
    }
    assert closures[..|closures|] == closures;
  }

  /** Some bar lies over the hour. */
  ghost predicate Shown(bars: seq<Bar>, h: int) {
    exists k :: 0 <= k < |bars| && bars[k].start <= h < bars[k].end
  }

  lemma OneMoreShown(bars: seq<Bar>, bar: Bar)
    ensures forall h :: Shown(bars + [bar], h) <==> Shown(bars, h) || bar.start <= h < bar.end
  {
    var more := bars + [bar];
    assert more[|bars|] == bar;
    forall h | Shown(bars, h)
      ensures Shown(more, h)
    {
      var k :| 0 <= k < |bars| && bars[k].start <= h < bars[k].end;
      assert more[k] == bars[k];
    }
  }

  ghost predicate AllDifferent(slots: seq<int>) {
    forall j, k :: 0 <= j < k < |slots| ==> slots[j] != slots[k]
  }

  /** The booking drawn on each hour start of a room, from one scan in the order `ids`, and the hour
      starts in the order the scan met them. */
  method BookingsByHour(bs: seq<Booking>, ids: seq<nat>, date: int, room: nat)
    returns (byHour: map<int, nat>, order: seq<int>)
    requires forall k :: 0 <= k < |ids| ==> ids[k] < |bs|
    ensures forall slot :: slot in byHour <==> LocalDate(slot) == date && Drawn(bs, ids, room, slot).Some?
    ensures forall slot :: slot in byHour ==> Drawn(bs, ids, room, slot) == Some(byHour[slot])
    ensures AllDifferent(order) && forall slot :: slot in order <==> slot in byHour
  {
    byHour, order := map[], [];
    for k := 0 to |ids|
      invariant forall slot :: slot in byHour <==> LocalDate(slot) == date && Drawn(bs, ids[..k], room, slot).Some?
      invariant forall slot :: slot in byHour ==> Drawn(bs, ids[..k], room, slot) == Some(byHour[slot])
      invariant AllDifferent(order) && forall slot :: slot in order <==> slot in byHour
    {
      assert ids[..k + 1][..k] == ids[..k];
      var booking := bs[ids[k]];
      if booking.room == room && LocalDate(booking.slot) == date && Drawable(booking.status) {
        if booking.slot !in byHour {
          order := order + [booking.slot];
        }
        if booking.slot !in byHour || bs[byHour[booking.slot]].status.NoShow? {
          byHour := byHour[booking.slot := ids[k]];
        }
      }
    }
    assert ids[..|ids|] == ids;
  }

  /** The bookings drawn on the hours of a date. */
  ghost predicate HourBookings(bs: seq<Booking>, date: int, byHour: map<int, nat>) {
    forall slot :: slot in byHour ==>
      HourAligned(slot) && LocalDate(slot) == date && byHour[slot] < |bs| && bs[byHour[slot]].slot == slot
  }

  /** The bar is drawn over exactly the hour of its booking, in the lane that is free. */
  ghost predicate DrawsBooking(bar: Bar, bs: seq<Booking>, date: int, byHour: map<int, nat>, calendar: set<int>) {
    var slot := SlotStartFor(date, bar.start);
    && slot in byHour && bar.booking == Some(byHour[slot])
    && byHour[slot] < |bs| && bar.kind == KindOf(bs[byHour[slot]])
    && bar.end == bar.start + 1
    && (bar.below <==> bar.start in calendar)
  }

  ghost predicate HasBar(bars: seq<Bar>, hour: int) {
    exists k :: 0 <= k < |bars| && bars[k].start == hour
  }

  /** The bars drawn and the hours taken once the bookings of the hours in `done` are placed. */
  ghost predicate Placed(bs: seq<Booking>, date: int, hours: Hours, byHour: map<int, nat>, calendar: set<int>,
                         done: seq<int>, bars: seq<Bar>, taken: set<int>)
  {
    && (forall k :: 0 <= k < |bars| ==>
          Clipped(bars[k], hours) && DrawsBooking(bars[k], bs, date, byHour, calendar) && bars[k].start in taken)
    && (forall j, k :: 0 <= j < k < |bars| ==> bars[j].start != bars[k].start)
    && (forall h :: h in taken ==> HasBar(bars, h))
    && (forall h :: h in taken <==> Within(h, hours) && SlotStartFor(date, h) in byHour && SlotStartFor(date, h) in done)
  }

  predicate Within(h: int, hours: Hours) {
    0 <= h < 24 && hours.open <= h < hours.close
  }

  lemma OtherHour(date: int, h: int, slot: int)
    requires HourAligned(slot) && LocalDate(slot) == date && 0 <= h < 24
    ensures SlotStartFor(date, h) == slot <==> h == LocalHour(slot)
  {
    AlignedIsSlotStart(slot);
    SlotStartForInverse(date, h);
  }

  lemma BarsGrow(bars: seq<Bar>, bar: Bar)
    ensures forall h :: HasBar(bars + [bar], h) <==> HasBar(bars, h) || h == bar.start
  {
    var more := bars + [bar];
    assert more[|bars|] == bar;
    forall h | HasBar(bars, h)
      ensures HasBar(more, h)
    {
      var k :| 0 <= k < |bars| && bars[k].start == h;
      assert more[k].start == h;
    }
  }

  lemma PlaceOneMore(bs: seq<Booking>, date: int, hours: Hours, byHour: map<int, nat>, calendar: set<int>,
                     done: seq<int>, bars: seq<Bar>, taken: set<int>, slot: int, bar: Bar)
    requires HourBookings(bs, date, byHour) && Placed(bs, date, hours, byHour, calendar, done, bars, taken)
    requires slot !in done && slot in byHour && bar.start == LocalHour(slot) && Clipped(bar, hours)
    requires DrawsBooking(bar, bs, date, byHour, calendar)
    ensures Placed(bs, date, hours, byHour, calendar, done + [slot], bars + [bar], taken + {bar.start})
  {
    AlignedIsSlotStart(slot);
    BarsGrow(bars, bar);
    forall h | 0 <= h < 24
      ensures SlotStartFor(date, h) == slot <==> h == bar.start
    {
      OtherHour(date, h, slot);
    }
  }

  lemma PlaceNone(bs: seq<Booking>, date: int, hours: Hours, byHour: map<int, nat>, calendar: set<int>,
                  done: seq<int>, bars: seq<Bar>, taken: set<int>, slot: int)
    requires HourBookings(bs, date, byHour) && Placed(bs, date, hours, byHour, calendar, done, bars, taken)
    requires slot !in done && slot in byHour && !(hours.open <= LocalHour(slot) < hours.close)
    ensures Placed(bs, date, hours, byHour, calendar, done + [slot], bars, taken)
  {
    AlignedIsSlotStart(slot);
    forall h | 0 <= h < 24
      ensures SlotStartFor(date, h) == slot <==> h == LocalHour(slot)
    {
      OtherHour(date, h, slot);
    }
  }

  /** One bar for each booking inside the opening hours, in the order the scan met them; a booking
      under a class or a closure goes to the lane below. */
  method PlaceBookings(bs: seq<Booking>, date: int, hours: Hours, byHour: map<int, nat>, order: seq<int>,
                       calendar: set<int>)
    returns (bars: seq<Bar>, taken: set<int>)
    requires HourBookings(bs, date, byHour)
    requires AllDifferent(order) && forall slot :: slot in order <==> slot in byHour
    ensures Placed(bs, date, hours, byHour, calendar, order, bars, taken)
  {
    bars, taken := [], {};
    for k := 0 to |order|
      invariant Placed(bs, date, hours, byHour, calendar, order[..k], bars, taken)
    {
      var slot := order[k];
      assert slot in order && slot !in order[..k] && order[..k + 1] == order[..k] + [slot];
      AlignedIsSlotStart(slot);
      var hour := LocalHour(slot);
      var bar := Clip(KindOf(bs[byHour[slot]]), hour, hour + 1, hours);
      if bar.Some? {
        var drawn := bar.value.(booking := Some(byHour[slot]), below := hour in calendar);
        PlaceOneMore(bs, date, hours, byHour, calendar, order[..k], bars, taken, slot, drawn);
        bars, taken := bars + [drawn], taken + {hour};
      } else {
        PlaceNone(bs, date, hours, byHour, calendar, order[..k], bars, taken, slot);
      }
    }
    assert order[..|order|] == order;
  }

  predicate IsFuture(date: int, hour: int, now: int) {
    date > LocalDate(now) || (date == LocalDate(now) && hour > LocalHour(FloorToSlot(now)))
  }

  method Gaps(date: int, now: int, hours: Hours, taken: set<int>) returns (gaps: seq<int>)
    ensures forall h :: h in gaps <==> hours.open <= h < hours.close && h !in taken && IsFuture(date, h, now)
    ensures forall j, k :: 0 <= j < k < |gaps| ==> gaps[j] < gaps[k]
  {
    gaps := [];
    var hour := hours.open;
    while hour < hours.close
      invariant hours.open <= hour && hour <= if hours.open < hours.close then hours.close else hours.open
      invariant forall h :: h in gaps <==> hours.open <= h < hour && h !in taken && IsFuture(date, h, now)
      invariant forall k :: 0 <= k < |gaps| ==> gaps[k] < hour
      invariant forall j, k :: 0 <= j < k < |gaps| ==> gaps[j] < gaps[k]
    {
      if hour !in taken && IsFuture(date, hour, now) {
        gaps := gaps + [hour];
      }
      hour := hour + 1;
    }
  }

  /** The hours of a room that classes and closures take. */
  function CalendarHours(db: Db, date: int, room: nat, hours: Hours): set<int> {
    BlockHours(BlocksOn(db.site.blocks, date, room), hours)
    + ClosureHours(ClosuresOn(db.site.closures, date, None) + ClosuresOn(db.site.closures, date, Some(room)), date, hours)
  }

  /** The bars of a room's classes and of the closures of all rooms and of this one. */
  function CalendarRow(db: Db, date: int, room: nat, hours: Hours): seq<Bar> {
    BlockBars(BlocksOn(db.site.blocks, date, room), hours)
    + ClosureBars(ClosuresOn(db.site.closures, date, None) + ClosuresOn(db.site.closures, date, Some(room)), date, hours)
  }

  /** An hour offered on the timeline. */
  ghost predicate IsGap(db: Db, ids: seq<nat>, date: int, room: nat, hours: Hours, now: int, hour: int)
    requires forall k :: 0 <= k < |ids| ==> ids[k] < |db.bookings|
  {
    && hours.open <= hour < hours.close && IsFuture(date, hour, now)
    && hour !in CalendarHours(db, date, room, hours)
    && Drawn(db.bookings, ids, room, SlotStartFor(date, hour)).None?
  }

  /** The row of one room: the bars of its classes and closures first, then exactly one bar for each opening
      hour that has a booking to draw, which is that booking's, then the gaps. */
  method RoomRow(db: Db, ids: seq<nat>, date: int, now: int, hours: Hours, room: nat,
                 blocks: map<nat, seq<WeeklyBlock>>, closures: map<Option<nat>, seq<Closure>>)
    returns (row: Row, ghost first: nat)
    requires forall k :: 0 <= k < |ids| ==> ids[k] < |db.bookings|
    requires forall i :: 0 <= i < |db.bookings| ==> HourAligned(db.bookings[i].slot)
    requires 0 <= hours.open && hours.close <= 24
    requires Under(blocks, room) == BlocksOn(db.site.blocks, date, room)
    requires forall scope: Option<nat> :: Under(closures, scope) == ClosuresOn(db.site.closures, date, scope)
    ensures first <= |row.bars|
    ensures row.bars[..first] == CalendarRow(db, date, room, hours)
    ensures forall k :: first <= k < |row.bars| ==>
      && row.bars[k].booking == Drawn(db.bookings, ids, room, SlotStartFor(date, row.bars[k].start))
      && row.bars[k].booking.Some? && row.bars[k].kind == KindOf(db.bookings[row.bars[k].booking.value])
      && row.bars[k].end == row.bars[k].start + 1 && Clipped(row.bars[k], hours)
      && (row.bars[k].below <==> row.bars[k].start in CalendarHours(db, date, room, hours))
    ensures forall j, k :: first <= j < k < |row.bars| ==> row.bars[j].start != row.bars[k].start
    ensures forall h :: Within(h, hours) && Drawn(db.bookings, ids, room, SlotStartFor(date, h)).Some? ==>
      HasBar(row.bars[first..], h)
    ensures forall h :: h in row.gaps <==> IsGap(db, ids, date, room, hours, now, h)
    ensures forall j, k :: 0 <= j < k < |row.gaps| ==> row.gaps[j] < row.gaps[k]
  {
    var bars, calendar := CalendarBars(Under(blocks, room), Under(closures, None) + Under(closures, Some(room)), date,
                                       hours);
    var byHour, order := BookingsByHour(db.bookings, ids, date, room);
    var drawn, held := PlaceBookings(db.bookings, date, hours, byHour, order, calendar);
    first := |bars|;
    var gaps := Gaps(date, now, hours, calendar + held);
    forall h | hours.open <= h < hours.close
      ensures SlotStartFor(date, h) in byHour <==> Drawn(db.bookings, ids, room, SlotStartFor(date, h)).Some?
    {
      SlotStartForInverse(date, h);
    }
    row := Row(bars + drawn, gaps);
    assert row.bars[..first] == bars && row.bars[first..] == drawn;
  }

  // ---------------------------------------------------------------- gaps and checks

  lemma HourFromStart(date: int, t: int)
    ensures t == SlotStartFor(date, 0) + (t - SlotStartFor(date, 0))
    ensures var x := t - SlotStartFor(date, 0);
      0 <= x < DAY ==> LocalDate(t) == date && LocalHour(t) == x / HOUR && (t + OFFSET) % HOUR == x % HOUR
  {
    var x := t - SlotStartFor(date, 0);
    assert t + OFFSET == date * DAY + x;
    if 0 <= x < DAY {
      assert (date * DAY + x) / DAY == date;
      assert (date * DAY + x) % DAY == x;
      assert date * DAY == 24 * date * HOUR;
      assert (24 * date * HOUR + x) % HOUR == x % HOUR;
    }
  }

  lemma StartBefore(t: int, date: int, h: int)
    requires 0 <= h < 24 && t < SlotStartFor(date, 0) + DAY
    ensures (if LocalDate(t) == date then LocalHour(t) else 0) <= h <==> t < SlotStartFor(date, h) + HOUR
  {
    HourFromStart(date, t);
    var x := t - SlotStartFor(date, 0);
    if x < 0 {
      assert (t + OFFSET) / DAY < date;
    } else {
      assert x / HOUR <= h <==> x < (h + 1) * HOUR;
    }
  }

  lemma EndAfter(t: int, date: int, h: int)
    requires 0 <= h < 24 && t > SlotStartFor(date, 0)
    ensures h < (if LocalDate(t) == date then LocalHour(t) + if LocalMinute(t) > 0 then 1 else 0 else 24) <==>
      t >= SlotStartFor(date, h) + MINUTE
  {
    HourFromStart(date, t);
    var x := t - SlotStartFor(date, 0);
    if x < DAY {
      var q, r := x / HOUR, x % HOUR;
      assert x == q * HOUR + r;
      assert LocalMinute(t) == r / MINUTE;
      assert x >= h * HOUR + MINUTE <==> q > h || (q == h && r >= MINUTE);
    } else {
      assert (t + OFFSET) / DAY > date;
    }
  }

  predicate MeetsHour(c: Closure, date: int, h: int) {
    c.startsAt < SlotStartFor(date, h) + HOUR && c.endsAt > SlotStartFor(date, h)
  }

  /** A closure is drawn over an open hour exactly when it meets the hour and ends a minute or more into it:
      one that ends within the first minute closes the hour but is not drawn there. */
  lemma DrawnExactly(c: Closure, date: int, hours: Hours, h: int)
    requires 0 <= hours.open <= h < hours.close <= 24 && ClosureOnDate(c, date)
    ensures h in HoursOf(ClosureBar(c, date, hours)) <==>
      MeetsHour(c, date, h) && c.endsAt >= SlotStartFor(date, h) + MINUTE
  {
    StartBefore(c.startsAt, date, h);
    EndAfter(c.endsAt, date, h);
  }

  /** Whole minutes are apart by whole minutes. */
  lemma MinuteSteps(a: int, b: int)
    ensures a * MINUTE > b * MINUTE <==> a * MINUTE >= b * MINUTE + MINUTE
  {
  }

  lemma WholeMinutes(t: int, date: int, h: int)
    requires MinuteAligned(t)
    ensures t > SlotStartFor(date, h) <==> t >= SlotStartFor(date, h) + MINUTE
  {
    var m, k := (t + OFFSET) / MINUTE, 1440 * date + 60 * h;
    assert t + OFFSET == m * MINUTE;
    assert SlotStartFor(date, h) + OFFSET == k * MINUTE;
    MinuteSteps(m, k);
  }

  lemma {:induction false} ClosureHoursExact(cs: seq<Closure>, date: int, hours: Hours, h: int)
    requires 0 <= hours.open <= h < hours.close <= 24
    requires forall c :: c in cs ==> ClosureOnDate(c, date)
    ensures h in ClosureHours(cs, date, hours) <==>
      exists c :: c in cs && MeetsHour(c, date, h) && c.endsAt >= SlotStartFor(date, h) + MINUTE
  {
    if cs != [] {
      var front, last := cs[..|cs| - 1], cs[|cs| - 1];
      assert forall c :: c in cs <==> c in front || c == last;
      ClosureHoursExact(front, date, hours, h);
      DrawnExactly(last, date, hours, h);
    }
  }

  predicate Claims(b: WeeklyBlock, h: int) {
    b.startHour <= h < b.endHour
  }

  lemma {:induction false} BlockHoursExact(bs: seq<WeeklyBlock>, hours: Hours, h: int)
    requires hours.open <= h < hours.close
    ensures h in BlockHours(bs, hours) <==> exists b :: b in bs && Claims(b, h)
  {
    if bs != [] {
      var front, last := bs[..|bs| - 1], bs[|bs| - 1];
      assert forall b :: b in bs <==> b in front || b == last;
      BlockHoursExact(front, hours, h);
      assert h in HoursOf(BlockBar(last, hours)) <==> Claims(last, h);
    }
  }

  lemma {:induction false} BlocksOnAre(bs: seq<WeeklyBlock>, date: int, room: nat)
    ensures forall b :: b in BlocksOn(bs, date, room) <==> b in bs && BlockOnDate(b, date) && b.room == room
  {
    if bs != [] {
      BlocksOnAre(bs[..|bs| - 1], date, room);
      assert bs == bs[..|bs| - 1] + [bs[|bs| - 1]];
    }
  }

  lemma {:induction false} ClosuresOnAre(cs: seq<Closure>, date: int, scope: Option<nat>)
    ensures forall c :: c in ClosuresOn(cs, date, scope) <==> c in cs && ClosureOnDate(c, date) && c.room == scope
  {
    if cs != [] {
      ClosuresOnAre(cs[..|cs| - 1], date, scope);
      assert cs == cs[..|cs| - 1] + [cs[|cs| - 1]];
    }
  }

  lemma ClassHours(db: Db, date: int, room: nat, hours: Hours, h: int)
    requires 0 <= hours.open <= h < hours.close <= 24
    ensures h in BlockHours(BlocksOn(db.site.blocks, date, room), hours) <==> ClassAt(db, SlotStartFor(date, h), room)
  {
    var slot, all := SlotStartFor(date, h), db.site.blocks;
    SlotStartForInverse(date, h);
    BlocksOnAre(all, date, room);
    BlockHoursExact(BlocksOn(all, date, room), hours, h);
    forall b
      ensures b in BlocksOn(all, date, room) && Claims(b, h) <==> b in all && BlockCovers(b, slot, room)
    {
    }
    assert ClassAt(db, slot, room) <==> exists b :: b in all && BlockCovers(b, slot, room) by {
      if ClassAt(db, slot, room) {
        var i :| 0 <= i < |all| && BlockCovers(all[i], slot, room);
        assert all[i] in all;
      }
    }
  }

  /** The closure closes the hour and ends a minute or more into it. */
  predicate ShutsDrawn(c: Closure, slot: int, room: nat) {
    ClosureCovers(c, slot, room) && c.endsAt >= slot + MINUTE
  }

  /** The timeline draws some closure over the hour. */
  predicate DrawnClosed(db: Db, slot: int, room: nat) {
    exists i :: 0 <= i < |db.site.closures| && ShutsDrawn(db.site.closures[i], slot, room)
  }

  lemma ClosedHours(db: Db, date: int, room: nat, hours: Hours, h: int)
    requires 0 <= hours.open <= h < hours.close <= 24
    ensures var cs := ClosuresOn(db.site.closures, date, None) + ClosuresOn(db.site.closures, date, Some(room));
      h in ClosureHours(cs, date, hours) <==> DrawnClosed(db, SlotStartFor(date, h), room)
  {
    var slot, all := SlotStartFor(date, h), db.site.closures;
    var cs := ClosuresOn(all, date, None) + ClosuresOn(all, date, Some(room));
    ClosuresOnAre(all, date, None);
    ClosuresOnAre(all, date, Some(room));
    ClosureHoursExact(cs, date, hours, h);
    forall c
      ensures c in cs && MeetsHour(c, date, h) && c.endsAt >= slot + MINUTE <==> c in all && ShutsDrawn(c, slot, room)
    {
    }
    assert DrawnClosed(db, slot, room) <==> exists c :: c in all && ShutsDrawn(c, slot, room) by {
      if DrawnClosed(db, slot, room) {
        var i :| 0 <= i < |all| && ShutsDrawn(all[i], slot, room);
        assert all[i] in all;
      }
    }
  }

  /** The hours of classes and closures are those of a class and those a closure is drawn over. */
  lemma CalendarHoursExact(db: Db, date: int, room: nat, hours: Hours, h: int)
    requires 0 <= hours.open <= h < hours.close <= 24
    ensures var slot := SlotStartFor(date, h);
      h !in CalendarHours(db, date, room, hours) <==> !ClassAt(db, slot, room) && !DrawnClosed(db, slot, room)
  {
    ClassHours(db, date, room, hours, h);
    ClosedHours(db, date, room, hours, h);
  }

  lemma FutureMeansAhead(date: int, h: int, now: int)
    requires 0 <= h < 24
    ensures IsFuture(date, h, now) <==> now < SlotStartFor(date, h)
  {
    var slot, current := SlotStartFor(date, h), FloorToSlot(now);
    SlotStartForInverse(date, h);
    FloorToSlotIsTheOnlySlot(now, current);
    AlignedIsSlotStart(current);
    AlignedApart(slot, current);
    HourFromStart(LocalDate(current), now);
    assert LocalDate(now) == LocalDate(current);
  }

  /** Every booking of the table is in the scan. */
  ghost predicate Lists(ids: seq<nat>, bs: seq<Booking>) {
    (forall k :: 0 <= k < |ids| ==> ids[k] < |bs|) && (forall i: nat :: i < |bs| ==> i in ids)
  }

  lemma NothingDrawnAhead(bs: seq<Booking>, ids: seq<nat>, room: nat, slot: int, now: int)
    requires Exclusive(bs) && RowsValid(bs, now) && Lists(ids, bs) && now < slot
    ensures Drawn(bs, ids, room, slot).None? <==> !Taken(bs, room, slot)
  {
    BlockingIsDrawn(bs, ids, room, slot);
    forall i: nat | i < |bs| && DrawnFor(bs[i], room, slot)
      ensures Blocking(bs[i].status)
    {
      assert RowValid(bs[i], now);
    }
    if Taken(bs, room, slot) {
      var i :| 0 <= i < |bs| && bs[i].room == room && bs[i].slot == slot && Blocking(bs[i].status);
      assert i in ids && DrawnFor(bs[i], room, slot);
    }
  }

  /** On reachable tables an opening hour is a gap exactly when it lies ahead, no class is held, no closure
      is drawn over it and no blocking booking holds it. */
  lemma GapExactly(db: Db, ids: seq<nat>, date: int, room: nat, hours: Hours, now: int, h: int)
    requires Exclusive(db.bookings) && RowsValid(db.bookings, now) && Lists(ids, db.bookings)
    requires 0 <= hours.open <= h < hours.close <= 24
    ensures var slot := SlotStartFor(date, h);
      IsGap(db, ids, date, room, hours, now, h) <==>
      now < slot && !ClassAt(db, slot, room) && !DrawnClosed(db, slot, room) && !Taken(db.bookings, room, slot)
  {
    FutureMeansAhead(date, h, now);
    CalendarHoursExact(db, date, room, hours, h);
    if now < SlotStartFor(date, h) {
      NothingDrawnAhead(db.bookings, ids, room, SlotStartFor(date, h), now);
    }
  }

  /** Booking staff can hold an hour, within their horizon, exactly when it is a gap that no closure meets. */
  lemma HoldableExactly(db: Db, ids: seq<nat>, date: int, room: Room, hours: Hours, now: int, h: int, actor: User,
                        details: Details)
    requires Exclusive(db.bookings) && RowsValid(db.bookings, now) && Lists(ids, db.bookings)
    requires FIRST_INSTANT <= now
    requires 0 <= hours.open <= h < hours.close <= 24 && DayHours(db, date) == Some(hours) && room.active
    ensures Succeeded(CreateStaffHold(db, now, actor, room, date, h, h + 1, details).exit) <==>
      && IsGap(db, ids, date, room.id, hours, now, h) && !SlotClosed(db, SlotStartFor(date, h), room.id)
      && IsBookingStaff(actor) && date <= LocalDate(now) + STAFF_HORIZON_DAYS
  {
    var slot := SlotStartFor(date, h);
    SlotStartForInverse(date, h);
    GapExactly(db, ids, date, room.id, hours, now, h);
    assert DrawnClosed(db, slot, room.id) ==> SlotClosed(db, slot, room.id);
    assert FirstShut(db, room, date, h, h + 1).None? <==> SlotOpen(db, slot, room).None?;
    assert AnyTaken(db.bookings, room.id, date, h, h + 1) <==> Taken(db.bookings, room.id, slot);
  }

  /** The timeline offers staff an hour they cannot hold exactly when it lies ahead without class or booking,
      some closure meets it, and every closure that does ends within its first minute. */
  lemma FalseGapExactly(db: Db, ids: seq<nat>, date: int, room: Room, hours: Hours, now: int, h: int, actor: User,
                        details: Details)
    requires Exclusive(db.bookings) && RowsValid(db.bookings, now) && Lists(ids, db.bookings)
    requires FIRST_INSTANT <= now
    requires 0 <= hours.open <= h < hours.close <= 24 && DayHours(db, date) == Some(hours) && room.active
    requires IsBookingStaff(actor) && date <= LocalDate(now) + STAFF_HORIZON_DAYS
    ensures var slot := SlotStartFor(date, h);
      IsGap(db, ids, date, room.id, hours, now, h)
      && !Succeeded(CreateStaffHold(db, now, actor, room, date, h, h + 1, details).exit) <==>
      && now < slot && !ClassAt(db, slot, room.id) && !Taken(db.bookings, room.id, slot)
      && SlotClosed(db, slot, room.id)
      && forall i :: 0 <= i < |db.site.closures| && ClosureCovers(db.site.closures[i], slot, room.id) ==>
           db.site.closures[i].endsAt < slot + MINUTE
  {
    GapExactly(db, ids, date, room.id, hours, now, h);
    HoldableExactly(db, ids, date, room, hours, now, h, actor, details);
    var slot, cs := SlotStartFor(date, h), db.site.closures;
    assert !DrawnClosed(db, slot, room.id) <==>
      forall i :: 0 <= i < |cs| && ClosureCovers(cs[i], slot, room.id) ==> cs[i].endsAt < slot + MINUTE
    by {
      if i :| 0 <= i < |cs| && ClosureCovers(cs[i], slot, room.id) && cs[i].endsAt >= slot + MINUTE {
        assert ShutsDrawn(cs[i], slot, room.id);
      }
    }
  }

  /** It never does where closures end on whole minutes. */
  lemma WholeMinuteGaps(db: Db, date: int, h: int, room: nat)
    requires forall i :: 0 <= i < |db.site.closures| ==> MinuteAligned(db.site.closures[i].endsAt)
    ensures DrawnClosed(db, SlotStartFor(date, h), room) <==> SlotClosed(db, SlotStartFor(date, h), room)
  {
    var slot, cs := SlotStartFor(date, h), db.site.closures;
    if SlotClosed(db, slot, room) {
      var i :| 0 <= i < |cs| && ClosureCovers(cs[i], slot, room);
      WholeMinutes(cs[i].endsAt, date, h);
      assert ShutsDrawn(cs[i], slot, room);
    }
  }

  // ---------------------------------------------------------------- a false gap

  /** Friday, 2 January 1970, the house closed from nine until half a minute past ten. */
  const BRIEFLY := Closure(None, SlotStartFor(1, 9), SlotStartFor(1, 10) + 30 * SECOND, None, true, "alarm test")

  function BrieflyClosed(): Db {
    EMPTY.(site := DEFAULT_SITE.(closures := [BRIEFLY]))
  }

  lemma BrieflyClosedIsSound(now: int)
    ensures Sound(BrieflyClosed(), now)
  {
  }

  /** The day before, the timeline offers the hour from ten and nobody can hold it. */
  lemma FalseGap(room: Room, actor: User, details: Details)
    requires room.active && IsBookingStaff(actor)
    ensures Sound(BrieflyClosed(), SlotStartFor(0, 12)) && DayHours(BrieflyClosed(), 1) == Some(Hours(8, 20))
    ensures IsGap(BrieflyClosed(), [], 1, room.id, Hours(8, 20), SlotStartFor(0, 12), 10)
    ensures !Succeeded(CreateStaffHold(BrieflyClosed(), SlotStartFor(0, 12), actor, room, 1, 10, 11, details).exit)
  {
    var now := SlotStartFor(0, 12);
    BrieflyClosedIsSound(now);
    assert ClosureCovers(BrieflyClosed().site.closures[0], SlotStartFor(1, 10), room.id);
    FalseGapExactly(BrieflyClosed(), [], 1, room, Hours(8, 20), now, 10, actor, details);
  }
}
