/** The compact slot identifier of URLs (core/services/slots.py): `YYYYMMDDTHHMM` in local time, written
    by strftime and read back by strptime, whose pattern also accepts unpadded fields. */
module SlotCodec {
  import opened Slots
  import opened Tables

  // ---------------------------------------------------------------- the civil calendar

  datatype Civil = Civil(year: int, month: int, day: int)

  predicate Leap(y: int) {
    y % 4 == 0 && (y % 100 != 0 || y % 400 == 0)
  }

  function DaysInMonth(y: int, m: int): int {
    if m == 2 then if Leap(y) then 29 else 28
    else if m == 4 || m == 6 || m == 9 || m == 11 then 30
    else 31
  }

  /** Days from 1 January of year 1 to 1 January of the year. */
  function DaysBeforeYear(y: int): int {
    365 * (y - 1) + (y - 1) / 4 - (y - 1) / 100 + (y - 1) / 400
  }

  function DaysBeforeMonth(y: int, m: nat): int {
    if m <= 1 then 0 else DaysBeforeMonth(y, m - 1) + DaysInMonth(y, m - 1)
  }

  predicate IsDate(c: Civil) {
    1 <= c.year <= 9999 && 1 <= c.month <= 12 && 1 <= c.day <= DaysInMonth(c.year, c.month)
  }

  /** The local date of a calendar date. */
  function DateNumber(c: Civil): int
    requires IsDate(c)
  {
    DaysBeforeYear(c.year) + DaysBeforeMonth(c.year, c.month) + c.day - 1 - EPOCH
  }

  lemma YearLength(y: int)
    ensures DaysBeforeYear(y + 1) == DaysBeforeYear(y) + if Leap(y) then 366 else 365
  {
    NextMultiple(y, 4);
    NextMultiple(y, 100);
    NextMultiple(y, 400);
    MultiplesOfFour(y);
  }

  lemma MultiplesOfFour(y: int)
    ensures y % 400 == 0 ==> y % 100 == 0
    ensures y % 100 == 0 ==> y % 4 == 0
  {
    var c, f := y / 100, y / 400;
    assert y % 100 == 0 ==> y == 4 * (25 * c);
    assert y % 400 == 0 ==> y == 100 * (4 * f);
  }

  /** Of consecutive numbers only a multiple has a larger quotient. */
  lemma NextMultiple(y: int, n: int)
    requires n == 4 || n == 100 || n == 400
    ensures y / n == (y - 1) / n + if y % n == 0 then 1 else 0
  {
  }

  lemma MonthsMakeYear(y: int)
    ensures DaysBeforeMonth(y, 13) == if Leap(y) then 366 else 365
  {
    assert DaysBeforeMonth(y, 1) == 0 && DaysBeforeMonth(y, 2) == 31;
    var feb := DaysInMonth(y, 2);
    assert DaysBeforeMonth(y, 3) == 31 + feb && DaysBeforeMonth(y, 4) == 62 + feb;
    assert DaysBeforeMonth(y, 5) == 92 + feb && DaysBeforeMonth(y, 6) == 123 + feb;
    assert DaysBeforeMonth(y, 7) == 153 + feb && DaysBeforeMonth(y, 8) == 184 + feb;
    assert DaysBeforeMonth(y, 9) == 215 + feb && DaysBeforeMonth(y, 10) == 245 + feb;
    assert DaysBeforeMonth(y, 11) == 276 + feb && DaysBeforeMonth(y, 12) == 306 + feb;
  }

  /** The year, from `y` on, that contains day `n` counted from year 1. */
  function YearFrom(n: int, y: int): (r: int)
    requires DaysBeforeYear(y) <= n
    ensures y <= r && DaysBeforeYear(r) <= n < DaysBeforeYear(r + 1)
    decreases n - DaysBeforeYear(y)
  {
    YearLength(y);
    if n < DaysBeforeYear(y + 1) then y else YearFrom(n, y + 1)
  }

  /** The month, from `m` on, that contains day `k` of the year. */
  function MonthFrom(y: int, k: int, m: nat): (r: nat)
    requires 1 <= m <= 12 && DaysBeforeMonth(y, m) <= k < DaysBeforeMonth(y, 13)
    ensures m <= r <= 12 && DaysBeforeMonth(y, r) <= k < DaysBeforeMonth(y, r + 1)
    decreases 13 - m
  {
    if k < DaysBeforeMonth(y, m + 1) then m else MonthFrom(y, k, m + 1)
  }

  /** The calendar date of a local date in year 1 or later. */
  function CivilOf(date: int): (c: Civil)
    requires date + EPOCH >= 0
    ensures c.year >= 1 && (c.year <= 9999 ==> IsDate(c) && DateNumber(c) == date)
  {
    var n := date + EPOCH;
    var y := YearFrom(n, 1);
    YearLength(y);
    MonthsMakeYear(y);
    var m := MonthFrom(y, n - DaysBeforeYear(y), 1);
    Civil(y, m, n - DaysBeforeYear(y) - DaysBeforeMonth(y, m) + 1)
  }

  // ---------------------------------------------------------------- the time zone

  /** The clocks of Bangkok were 6:42:04 ahead until they were put forward to 7:00 at this instant, the midnight
      that began 1 April 1920. */
  const EARLY_OFFSET := 24_124 * SECOND
  const SWITCH := -18_172 * DAY - EARLY_OFFSET

  /** Local time, in microseconds since local midnight of 1 January 1970. */
  function ToLocal(t: int): int {
    t + if t < SWITCH then EARLY_OFFSET else OFFSET
  }

  /** A local time the clocks skipped counts as before the change. */
  function FromLocal(l: int): int {
    l - if l < SWITCH + OFFSET then EARLY_OFFSET else OFFSET
  }

  function DayOf(l: int): int {
    l / DAY
  }

  function HourOf(l: int): int {
    l % DAY / HOUR
  }

  function MinuteOf(l: int): int {
    l % HOUR / MINUTE
  }

  /** Local time tells instants apart, and exactly the skipped local times are not the time of any. */
  lemma LocalTimes(t: int, l: int)
    ensures FromLocal(ToLocal(t)) == t
    ensures ToLocal(FromLocal(l)) == l <==> !(SWITCH + EARLY_OFFSET <= l < SWITCH + OFFSET)
  {
  }

  /** Since the change local time is the fixed offset the rest of the service works with. */
  lemma LocalSinceTheSwitch(t: int)
    requires t >= SWITCH
    ensures DayOf(ToLocal(t)) == LocalDate(t) && HourOf(ToLocal(t)) == LocalHour(t)
    ensures MinuteOf(ToLocal(t)) == LocalMinute(t) && (ToLocal(t) % MINUTE == 0 <==> MinuteAligned(t))
  {
  }

  // ---------------------------------------------------------------- digits

  function Digit(n: int): char
    requires 0 <= n <= 9
  {
    '0' + n as char
  }

  predicate IsDigit(c: char) {
    '0' <= c <= '9'
  }

  function ValueOf(c: char): int
    requires IsDigit(c)
  {
    (c - '0') as int
  }

  function Two(n: int): string
    requires 0 <= n <= 99
  {
    [Digit(n / 10), Digit(n % 10)]
  }

  function Four(n: int): string
    requires 0 <= n <= 9999
  {
    Two(n / 100) + Two(n % 100)
  }

  /** The number written by the digits of a field; a leading blank counts for nothing. */
  function Number(s: string): int {
    if s == [] then 0
    else 10 * Number(s[..|s| - 1]) + if IsDigit(s[|s| - 1]) then ValueOf(s[|s| - 1]) else 0
  }

  lemma DigitValue(n: int)
    requires 0 <= n <= 9
    ensures IsDigit(Digit(n)) && ValueOf(Digit(n)) == n
  {
  }

  lemma NumberOfTwo(n: int)
    requires 0 <= n <= 99
    ensures Number(Two(n)) == n
  {
    DigitValue(n / 10);
    DigitValue(n % 10);
    assert Two(n)[..1] == [Digit(n / 10)];
    assert [Digit(n / 10)][..0] == [];
    assert Number([Digit(n / 10)]) == n / 10;
  }

  lemma NumberOfFour(n: int)
    requires 0 <= n <= 9999
    ensures Number(Four(n)) == n
  {
    var hi, lo := n / 100, n % 100;
    NumberOfTwo(hi);
    DigitValue(lo / 10);
    DigitValue(lo % 10);
    assert Four(n)[..3] == Two(hi) + [Digit(lo / 10)];
    assert (Two(hi) + [Digit(lo / 10)])[..2] == Two(hi);
    assert Number(Two(hi) + [Digit(lo / 10)]) == 10 * hi + lo / 10;
  }

  // ---------------------------------------------------------------- writing

  /** The instant has a local year of four digits. */
  predicate FourDigitYear(t: int) {
    var date := DayOf(ToLocal(t));
    date + EPOCH >= 0 && 1000 <= CivilOf(date).year <= 9999
  }

  function Encode(t: int): string
    requires FourDigitYear(t)
  {
    var l := ToLocal(t);
    var c := CivilOf(DayOf(l));
    InDay(l);
    Four(c.year) + Two(c.month) + Two(c.day) + "T" + Two(HourOf(l)) + Two(MinuteOf(l))
  }

  /** Day, hour and minute are what a local time is made of, but for its seconds. */
  lemma InDay(l: int)
    ensures 0 <= HourOf(l) < 24 && 0 <= MinuteOf(l) < 60
    ensures l == DayOf(l) * DAY + HourOf(l) * HOUR + MinuteOf(l) * MINUTE + l % MINUTE
  {
    var d, h, m := l / DAY, l % DAY / HOUR, l / MINUTE;
    assert l == d * DAY + l % DAY;
    assert l % DAY == h * HOUR + l % DAY % HOUR;
    assert d * DAY == 24 * d * HOUR;
    assert l == (24 * d + h) * HOUR + l % DAY % HOUR;
    assert l % HOUR == l % DAY % HOUR;
    var r := l % HOUR;
    assert l == m * MINUTE + l % MINUTE;
    assert r == (m - 60 * (24 * d + h)) * MINUTE + l % MINUTE;
  }

  // ---------------------------------------------------------------- reading

  /** One way to fill a field: a character range for each position. */
  type Alternative = seq<(char, char)>

  const DIGIT := ('0', '9')

  /** The fields of the pattern, their alternatives in the order they are tried. */
  const YEAR: seq<Alternative> := [[DIGIT, DIGIT, DIGIT, DIGIT]]
  const MONTH: seq<Alternative> := [[('1', '1'), ('0', '2')], [('0', '0'), ('1', '9')], [('1', '9')]]
  const DAY_OF_MONTH: seq<Alternative> :=
    [[('3', '3'), ('0', '1')], [('1', '2'), DIGIT], [('0', '0'), ('1', '9')], [('1', '9')], [(' ', ' '), ('1', '9')]]
  const LETTER_T: seq<Alternative> := [[('T', 'T')], [('t', 't')]]
  const HOUR_OF_DAY: seq<Alternative> := [[('2', '2'), ('0', '3')], [('0', '1'), DIGIT], [DIGIT]]
  const MINUTE_OF_HOUR: seq<Alternative> := [[('0', '5'), DIGIT], [DIGIT]]
  const PATTERN := [YEAR, MONTH, DAY_OF_MONTH, LETTER_T, HOUR_OF_DAY, MINUTE_OF_HOUR]

  predicate Fills(a: Alternative, s: string) {
    |a| <= |s| && forall i :: 0 <= i < |a| ==> a[i].0 <= s[i] <= a[i].1
  }

  /** The first way, trying alternatives in order, to fill the fields from the start of the text. */
  function Match(fields: seq<seq<Alternative>>, s: string): (r: Option<seq<string>>)
    ensures r.Some? ==> |r.value| == |fields|
    decreases |fields|, 1, 0
  {
    if fields == [] then Some([]) else Try(fields[0], fields[1..], s)
  }

  function Try(ways: seq<Alternative>, fields: seq<seq<Alternative>>, s: string): (r: Option<seq<string>>)
    ensures r.Some? ==> |r.value| == |fields| + 1
    decreases |fields| + 1, 0, |ways|
  {
    if ways == [] then None
    else if Fills(ways[0], s) && Match(fields, s[|ways[0]|..]).Some?
    then Some([s[..|ways[0]|]] + Match(fields, s[|ways[0]|..]).value)
    else Try(ways[1..], fields, s)
  }

  function Length(parts: seq<string>): nat {
    if parts == [] then 0 else |parts[0]| + Length(parts[1..])
  }

  /** `TooEarly` is the overflow of a local time before the first representable instant: no value error,
      so the caller that only expects those does not catch it. */
  datatype Decoded = Instant(t: int) | NotASlot | TooEarly

  function Decode(value: string): Decoded {
    var m := Match(PATTERN, value);
    if m.None? || Length(m.value) != |value| then NotASlot
    else
      var c := Civil(Number(m.value[0]), Number(m.value[1]), Number(m.value[2]));
      if !IsDate(c) then NotASlot
      else
        var t := FromLocal(DateNumber(c) * DAY + Number(m.value[4]) * HOUR + Number(m.value[5]) * MINUTE);
        if t < FIRST_INSTANT then TooEarly else Instant(t)
  }

  // ---------------------------------------------------------------- round trip

  lemma TryFirst(ways: seq<Alternative>, fields: seq<seq<Alternative>>, head: string, tail: string, rest: seq<string>)
    requires ways != [] && |ways[0]| == |head| && Fills(ways[0], head) && Match(fields, tail) == Some(rest)
    ensures Try(ways, fields, head + tail) == Some([head] + rest)
  {
    var s := head + tail;
    assert s[..|head|] == head && s[|head|..] == tail;
    assert Fills(ways[0], s);
  }

  /** The first digit rules an alternative out. */
  lemma TryNext(ways: seq<Alternative>, fields: seq<seq<Alternative>>, n: int, tail: string)
    requires 0 <= n <= 99 && ways != [] && |ways[0]| == 2
    requires !(ways[0][0].0 <= Digit(n / 10) <= ways[0][0].1)
    ensures Try(ways, fields, Two(n) + tail) == Try(ways[1..], fields, Two(n) + tail)
  {
    assert (Two(n) + tail)[0] == Digit(n / 10);
  }

  lemma ReadsFour(n: int, fields: seq<seq<Alternative>>, tail: string, rest: seq<string>)
    requires 0 <= n <= 9999 && Match(fields, tail) == Some(rest)
    ensures Try(YEAR, fields, Four(n) + tail) == Some([Four(n)] + rest)
  {
    TryFirst(YEAR, fields, Four(n), tail, rest);
  }

  lemma ReadsMonth(n: int, fields: seq<seq<Alternative>>, tail: string, rest: seq<string>)
    requires 1 <= n <= 12 && Match(fields, tail) == Some(rest)
    ensures Try(MONTH, fields, Two(n) + tail) == Some([Two(n)] + rest)
  {
    if n >= 10 {
      TryFirst(MONTH, fields, Two(n), tail, rest);
    } else {
      TryNext(MONTH, fields, n, tail);
      TryFirst(MONTH[1..], fields, Two(n), tail, rest);
    }
  }

  lemma ReadsDay(n: int, fields: seq<seq<Alternative>>, tail: string, rest: seq<string>)
    requires 1 <= n <= 31 && Match(fields, tail) == Some(rest)
    ensures Try(DAY_OF_MONTH, fields, Two(n) + tail) == Some([Two(n)] + rest)
  {
    if n >= 30 {
      TryFirst(DAY_OF_MONTH, fields, Two(n), tail, rest);
    } else {
      TryNext(DAY_OF_MONTH, fields, n, tail);
      var ways := DAY_OF_MONTH[1..];
      if n >= 10 {
        TryFirst(ways, fields, Two(n), tail, rest);
      } else {
        TryNext(ways, fields, n, tail);
        TryFirst(ways[1..], fields, Two(n), tail, rest);
      }
    }
  }

  lemma ReadsHour(n: int, fields: seq<seq<Alternative>>, tail: string, rest: seq<string>)
    requires 0 <= n <= 23 && Match(fields, tail) == Some(rest)
    ensures Try(HOUR_OF_DAY, fields, Two(n) + tail) == Some([Two(n)] + rest)
  {
    if n >= 20 {
      TryFirst(HOUR_OF_DAY, fields, Two(n), tail, rest);
    } else {
      TryNext(HOUR_OF_DAY, fields, n, tail);
      TryFirst(HOUR_OF_DAY[1..], fields, Two(n), tail, rest);
    }
  }

  lemma MatchIsTry(field: seq<Alternative>, fields: seq<seq<Alternative>>, s: string)
    ensures Match([field] + fields, s) == Try(field, fields, s)
  {
    assert ([field] + fields)[1..] == fields;
  }

  lemma MatchesTime(h: int, mi: int)
    requires 0 <= h <= 23 && 0 <= mi <= 59
    ensures Match([LETTER_T, HOUR_OF_DAY, MINUTE_OF_HOUR], "T" + (Two(h) + Two(mi))) == Some(["T", Two(h), Two(mi)])
  {
    var f5: seq<seq<Alternative>> := [MINUTE_OF_HOUR];
    var f4 := [HOUR_OF_DAY] + f5;
    assert Two(mi) + "" == Two(mi) && f5 == [MINUTE_OF_HOUR] + [];
    TryFirst(MINUTE_OF_HOUR, [], Two(mi), "", []);
    MatchIsTry(MINUTE_OF_HOUR, [], Two(mi));
    var p5 := [Two(mi)] + [];
    ReadsHour(h, f5, Two(mi), p5);
    MatchIsTry(HOUR_OF_DAY, f5, Two(h) + Two(mi));
    var p4 := [Two(h)] + p5;
    TryFirst(LETTER_T, f4, "T", Two(h) + Two(mi), p4);
    MatchIsTry(LETTER_T, f4, "T" + (Two(h) + Two(mi)));
    assert [LETTER_T] + f4 == [LETTER_T, HOUR_OF_DAY, MINUTE_OF_HOUR];
    assert ["T"] + p4 == ["T", Two(h), Two(mi)];
  }

  lemma MatchesEncoding(y: int, mo: int, d: int, h: int, mi: int)
    requires 0 <= y <= 9999 && 1 <= mo <= 12 && 1 <= d <= 31 && 0 <= h <= 23 && 0 <= mi <= 59
    ensures Match(PATTERN, Four(y) + Two(mo) + Two(d) + "T" + Two(h) + Two(mi)) ==
      Some([Four(y), Two(mo), Two(d), "T", Two(h), Two(mi)])
  {
    var f3: seq<seq<Alternative>> := [LETTER_T, HOUR_OF_DAY, MINUTE_OF_HOUR];
    var f2, f1 := [DAY_OF_MONTH] + f3, [MONTH] + ([DAY_OF_MONTH] + f3);
    var time := "T" + (Two(h) + Two(mi));
    var p3 := ["T", Two(h), Two(mi)];
    MatchesTime(h, mi);
    ReadsDay(d, f3, time, p3);
    MatchIsTry(DAY_OF_MONTH, f3, Two(d) + time);
    ReadsMonth(mo, f2, Two(d) + time, [Two(d)] + p3);
    MatchIsTry(MONTH, f2, Two(mo) + (Two(d) + time));
    ReadsFour(y, f1, Two(mo) + (Two(d) + time), [Two(mo)] + ([Two(d)] + p3));
    MatchIsTry(YEAR, f1, Four(y) + (Two(mo) + (Two(d) + time)));
    assert [YEAR] + f1 == PATTERN;
    assert Four(y) + (Two(mo) + (Two(d) + time)) == Four(y) + Two(mo) + Two(d) + "T" + Two(h) + Two(mi);
    assert [Four(y)] + ([Two(mo)] + ([Two(d)] + p3)) == [Four(y), Two(mo), Two(d), "T", Two(h), Two(mi)];
  }

  /** Reading back what was written gives the beginning of its local minute, for every instant with a
      four-digit local year. */
  lemma DecodeEncoded(t: int)
    requires FourDigitYear(t)
    ensures Decode(Encode(t)) == Instant(FromLocal(ToLocal(t) - ToLocal(t) % MINUTE))
  {
    var l := ToLocal(t);
    var c := CivilOf(DayOf(l));
    InDay(l);
    var h, mi := HourOf(l), MinuteOf(l);
    MatchesEncoding(c.year, c.month, c.day, h, mi);
    NumberOfFour(c.year);
    NumberOfTwo(c.month);
    NumberOfTwo(c.day);
    NumberOfTwo(h);
    NumberOfTwo(mi);
    LengthOfEncoding([Four(c.year), Two(c.month), Two(c.day), "T", Two(h), Two(mi)]);
    NotTooEarly(c, l - l % MINUTE);
  }

  /** So an instant is read back exactly when it is a whole local minute. */
  lemma DecodeEncode(t: int)
    requires FourDigitYear(t)
    ensures Decode(Encode(t)) == Instant(t) <==> ToLocal(t) % MINUTE == 0
  {
    DecodeEncoded(t);
    if ToLocal(t) % MINUTE == 0 {
      LocalTimes(t, ToLocal(t));
    } else {
      WithinTheMinute(t);
    }
  }

  /** No local time earlier in the same minute is the time of the instant. */
  lemma WithinTheMinute(t: int)
    requires ToLocal(t) % MINUTE != 0
    ensures FromLocal(ToLocal(t) - ToLocal(t) % MINUTE) != t
  {
    var l := ToLocal(t);
    var floor := l - l % MINUTE;
    assert floor < l && l < floor + MINUTE;
  }

  /** As every slot since the change is. */
  lemma SlotsAreReadBack(t: int)
    requires FourDigitYear(t) && t >= SWITCH && HourAligned(t)
    ensures Decode(Encode(t)) == Instant(t)
  {
    HoursAreMinutes(t);
    LocalSinceTheSwitch(t);
    DecodeEncode(t);
  }

  lemma HoursAreMinutes(t: int)
    requires HourAligned(t)
    ensures MinuteAligned(t)
  {
    var h := (t + OFFSET) / HOUR;
    assert t + OFFSET == 60 * h * MINUTE;
  }

  lemma LengthOfEncoding(parts: seq<string>)
    requires |parts| == 6 && |parts[0]| == 4 && |parts[3]| == 1
    requires |parts[1]| == 2 && |parts[2]| == 2 && |parts[4]| == 2 && |parts[5]| == 2
    ensures Length(parts) == 13
  {
    assert Length(parts[6..]) == 0;
    assert Length(parts[5..]) == 2 && Length(parts[4..]) == 4 && Length(parts[3..]) == 5;
    assert Length(parts[2..]) == 7 && Length(parts[1..]) == 9;
  }

  lemma NotTooEarly(c: Civil, l: int)
    requires IsDate(c) && c.year >= 1000 && DayOf(l) == DateNumber(c)
    ensures FromLocal(l) >= FIRST_INSTANT
  {
    assert DaysBeforeMonth(c.year, c.month) >= 0 by {
      MonthsCount(c.year, c.month);
    }
    assert DateNumber(c) >= 1 - EPOCH;
    assert l >= DayOf(l) * DAY;
  }

  lemma {:induction false} MonthsCount(y: int, m: nat)
    ensures DaysBeforeMonth(y, m) >= if m > 1 then 28 else 0
  {
    if m > 1 {
      MonthsCount(y, m - 1);
    }
  }

  /** Distinct slots have distinct identifiers. */
  lemma EncodeInjective(s: int, t: int)
    requires FourDigitYear(s) && FourDigitYear(t) && Encode(s) == Encode(t)
    requires ToLocal(s) % MINUTE == 0 && ToLocal(t) % MINUTE == 0
    ensures s == t
  {
    DecodeEncode(s);
    DecodeEncode(t);
  }

  // ---------------------------------------------------------------- values before the first instant

  /** The part fills its field in one of the field's ways. */
  ghost predicate PartFills(field: seq<Alternative>, part: string) {
    exists k :: 0 <= k < |field| && |field[k]| == |part| && Fills(field[k], part)
  }

  lemma {:induction false} MatchFills(fields: seq<seq<Alternative>>, s: string)
    ensures Match(fields, s).Some? ==> forall k :: 0 <= k < |fields| ==> PartFills(fields[k], Match(fields, s).value[k])
    decreases |fields|, 1, 0
  {
    if fields != [] {
      TryFills(fields[0], fields[1..], s);
      if Match(fields, s).Some? {
        var parts := Match(fields, s).value;
        forall k | 0 <= k < |fields|
          ensures PartFills(fields[k], parts[k])
        {
          if k > 0 {
            assert PartFills(fields[1..][k - 1], parts[1..][k - 1]);
          }
        }
      }
    }
  }

  lemma {:induction false} TryFills(ways: seq<Alternative>, fields: seq<seq<Alternative>>, s: string)
    ensures Try(ways, fields, s).Some? ==>
      var parts := Try(ways, fields, s).value;
      PartFills(ways, parts[0]) && forall k :: 0 <= k < |fields| ==> PartFills(fields[k], parts[1..][k])
    decreases |fields| + 1, 0, |ways|
  {
    if ways != [] {
      if Fills(ways[0], s) && Match(fields, s[|ways[0]|..]).Some? {
        MatchFills(fields, s[|ways[0]|..]);
        assert Fills(ways[0], s[..|ways[0]|]);
      } else {
        TryFills(ways[1..], fields, s);
        if Try(ways[1..], fields, s).Some? {
          var part := Try(ways[1..], fields, s).value[0];
          var k :| 0 <= k < |ways[1..]| && |ways[1..][k]| == |part| && Fills(ways[1..][k], part);
          assert ways[k + 1] == ways[1..][k];
        }
      }
    }
  }

  lemma {:induction false} NumberIsNatural(s: string)
    ensures Number(s) >= 0
  {
    if s != [] {
      NumberIsNatural(s[..|s| - 1]);
    }
  }

  lemma MinutesBelowSixty(part: string)
    requires PartFills(MINUTE_OF_HOUR, part)
    ensures 0 <= Number(part) <= 59
  {
    NumberIsNatural(part);
    if |part| == 2 {
      assert part[..1] == [part[0]] && part[..1][..0] == [];
      assert Number(part[..1]) == ValueOf(part[0]);
    } else {
      assert part[..0] == [];
    }
  }

  lemma FirstDay(c: Civil)
    requires IsDate(c)
    ensures DateNumber(c) >= -EPOCH && (DateNumber(c) == -EPOCH <==> c == Civil(1, 1, 1))
  {
    MonthsCount(c.year, c.month);
    if c.year > 1 {
      assert DaysBeforeYear(c.year) >= 365;
    }
    if c.month == 1 {
      assert DaysBeforeMonth(c.year, 1) == 0;
    }
  }

  /** The fields of a value the pattern reads to its end. */
  function Fields(value: string): (r: Option<seq<string>>)
    ensures r.Some? ==> |r.value| == |PATTERN|
  {
    var m := Match(PATTERN, value);
    if m.Some? && Length(m.value) == |value| then m else None
  }

  /** Exactly the values of 00:00 to 06:42 of the first day of year 1 overflow instead of being refused or
      read. */
  lemma TooEarlyExactly(value: string)
    ensures Decode(value).TooEarly? <==>
      var f := Fields(value);
      && f.Some? && Civil(Number(f.value[0]), Number(f.value[1]), Number(f.value[2])) == Civil(1, 1, 1)
      && 60 * Number(f.value[4]) + Number(f.value[5]) <= 402
  {
    var f := Fields(value);
    if f.Some? {
      var c := Civil(Number(f.value[0]), Number(f.value[1]), Number(f.value[2]));
      MatchFills(PATTERN, value);
      assert PartFills(PATTERN[5], f.value[5]);
      MinutesBelowSixty(f.value[5]);
      NumberIsNatural(f.value[4]);
      if IsDate(c) {
        FirstDay(c);
      }
    }
  }

  /** Midnight of the first day of year 1 is such a value. */
  lemma FirstMidnightOverflows()
    ensures Decode("00010101T0000").TooEarly?
  {
    var parts := [Four(1), Two(1), Two(1), "T", Two(0), Two(0)];
    MatchesEncoding(1, 1, 1, 0, 0);
    assert Four(1) == "0001" && Two(1) == "01" && Two(0) == "00";
    assert Four(1) + Two(1) + Two(1) + "T" + Two(0) + Two(0) == "00010101T0000";
    LengthOfEncoding(parts);
    NumberOfFour(1);
    NumberOfTwo(1);
    NumberOfTwo(0);
    TooEarlyExactly("00010101T0000");
  }
}
