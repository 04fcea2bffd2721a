/** Slot geometry (core/services/slots.py, core/services/clock.py).

    An instant is a whole number of microseconds since 1970-01-01T00:00Z, the resolution of a
    Python datetime. Asia/Bangkok is a fixed offset of seven hours without daylight saving (since
    April 1920; `SlotCodec` has the earlier one). A local date is the number of whole local days since 1970-01-01. */
module Slots {
  const SECOND := 1_000_000
  const MINUTE := 60_000_000
  const HOUR := 3_600_000_000
  const DAY := 86_400_000_000
  const OFFSET := 25_200_000_000

  /** Days from 1 January of year 1 to 1 January 1970, and the first instant a datetime can hold. */
  const EPOCH := 719162
  const FIRST_INSTANT := -EPOCH * DAY

  function LocalDate(t: int): int {
    (t + OFFSET) / DAY
  }

  function LocalHour(t: int): int {
    (t + OFFSET) % DAY / HOUR
  }

  function LocalMinute(t: int): int {
    (t + OFFSET) % HOUR / MINUTE
  }

  predicate MinuteAligned(t: int) {
    (t + OFFSET) % MINUTE == 0
  }

  /** Monday is 0; 1 January 1970 was a Thursday. */
  function Weekday(date: int): int {
    (date + 3) % 7
  }

  function SlotStartFor(date: int, hour: int): int {
    date * DAY + hour * HOUR - OFFSET
  }

  predicate HourAligned(t: int) {
    (t + OFFSET) % HOUR == 0
  }

  function FloorToSlot(t: int): int {
    t - (t + OFFSET) % HOUR
  }

  predicate WithinHorizon(now: int, slot: int, days: int) {
    LocalDate(slot) <= LocalDate(now) + days
  }

  function RemainingMinutes(now: int, end: int): int {
    if end <= now then 0 else (end - now) / MINUTE
  }

  /** `FloorToSlot` finds the one aligned start whose hour contains the instant. */
  lemma FloorToSlotIsTheOnlySlot(t: int, s: int)
    ensures HourAligned(s) && s <= t < s + HOUR <==> s == FloorToSlot(t)
  {
    var x, y := t + OFFSET, s + OFFSET;
    assert x == x / HOUR * HOUR + x % HOUR;
    if HourAligned(s) && s <= t < s + HOUR {
      var q := y / HOUR;
      assert y == q * HOUR;
      assert x / HOUR == q;
    }
  }

  /** Date and hour determine the slot and the slot determines them. */
  lemma SlotStartForInverse(date: int, hour: int)
    requires 0 <= hour < 24
    ensures HourAligned(SlotStartFor(date, hour))
    ensures LocalDate(SlotStartFor(date, hour)) == date && LocalHour(SlotStartFor(date, hour)) == hour
  {
    var x := date * DAY + hour * HOUR;
    assert x == (24 * date + hour) * HOUR;
    assert x / DAY == date;
  }

  lemma AlignedIsSlotStart(t: int)
    requires HourAligned(t)
    ensures 0 <= LocalHour(t) < 24
    ensures t == SlotStartFor(LocalDate(t), LocalHour(t))
  {
    var x := t + OFFSET;
    var q := x / HOUR;
    assert x == q * HOUR;
    assert x / DAY == q / 24;
  }

  /** Aligned instants less than an hour apart are the same instant. */
  lemma AlignedApart(s: int, t: int)
    requires HourAligned(s) && HourAligned(t)
    ensures s == t || s + HOUR <= t || t + HOUR <= s
  {
    FloorToSlotIsTheOnlySlot(t, s);
    FloorToSlotIsTheOnlySlot(t, t);
    FloorToSlotIsTheOnlySlot(s, t);
    FloorToSlotIsTheOnlySlot(s, s);
  }
}
