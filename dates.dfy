/** Calendar dates as the application handles them: ISO `YYYY-MM-DD` strings
    read by `new Date(...)`, weekdays from `getDay()`, and day steps from
    `setDate(getDate() ± n)` written back with `toISOString()`
    (utils/calendar.ts, components/BookingModal.tsx, lib/firestore.ts).
    Everything is in UTC on the proleptic Gregorian calendar. */
module Dates {
  import opened Common

  datatype CivilDate = CivilDate(year: int, month: int, day: int)

  predicate IsLeapYear(y: int)
  {
    y % 4 == 0 && (y % 100 != 0 || y % 400 == 0)
  }

  function DaysInMonth(y: int, m: int): int
    requires 1 <= m <= 12
  {
    if m == 2 then (if IsLeapYear(y) then 29 else 28)
    else if m == 4 || m == 6 || m == 9 || m == 11 then 30
    else 31
  }

  predicate ValidDate(c: CivilDate)
  {
    1 <= c.month <= 12 && 1 <= c.day <= DaysInMonth(c.year, c.month)
  }

  /** The years an ISO date string can spell with four digits. */
  predicate InIsoRange(c: CivilDate) { 0 <= c.year <= 9999 }

  // ---------------------------------------------------------------------------
  // Day numbers and weekdays
  // ---------------------------------------------------------------------------

  /** Days before 1 March of year `y` counted from 1 March of year 0. */
  function DaysBeforeYear(y: int): int
  {
    365 * y + y / 4 - y / 100 + y / 400
  }

  /** Day of a year that starts on 1 March (0 .. 365), so the leap day is last. */
  function MarchDayOfYear(m: int, d: int): int
  {
    (153 * (if m > 2 then m - 3 else m + 9) + 2) / 5 + d - 1
  }

  /** Days since 1970-01-01. */
  function DayNumber(c: CivilDate): int
    requires ValidDate(c)
  {
    var y := if c.month <= 2 then c.year - 1 else c.year;
    DaysBeforeYear(y) + MarchDayOfYear(c.month, c.day) - 719468
  }

  /** `getDay()`: Sunday = 0 ... Saturday = 6. 1970-01-01 was a Thursday. */
  function Weekday(c: CivilDate): (w: int)
    requires ValidDate(c)
    ensures 0 <= w < 7
  {
    (DayNumber(c) + 4) % 7
  }

  function NextDay(c: CivilDate): CivilDate
    requires ValidDate(c)
  {
    if c.day < DaysInMonth(c.year, c.month) then CivilDate(c.year, c.month, c.day + 1)
    else if c.month < 12 then CivilDate(c.year, c.month + 1, 1)
    else CivilDate(c.year + 1, 1, 1)
  }

  function PrevDay(c: CivilDate): CivilDate
    requires ValidDate(c)
  {
    if c.day > 1 then CivilDate(c.year, c.month, c.day - 1)
    else if c.month > 1 then CivilDate(c.year, c.month - 1, DaysInMonth(c.year, c.month - 1))
    else CivilDate(c.year - 1, 12, 31)
  }

  /** Where `k + 1` crosses a multiple of 4, 100 or 400 the quotient steps by one. */
  lemma DivSteps(k: int)
    ensures (k + 1) / 4 - k / 4 == if (k + 1) % 4 == 0 then 1 else 0
    ensures (k + 1) / 100 - k / 100 == if (k + 1) % 100 == 0 then 1 else 0
    ensures (k + 1) / 400 - k / 400 == if (k + 1) % 400 == 0 then 1 else 0
  {
  }

  /** A March-to-February year has 366 days exactly when its February is in a
      leap year. */
  lemma YearLength(k: int)
    ensures DaysBeforeYear(k + 1) - DaysBeforeYear(k) == if IsLeapYear(k + 1) then 366 else 365
  {
    DivSteps(k);
    var j := k + 1;
    if j % 400 == 0 {
      assert j % 100 == 0 && j % 4 == 0 by {
        assert j == 400 * (j / 400);
      }
    } else if j % 100 == 0 {
      assert j % 4 == 0 by {
        assert j == 100 * (j / 100);
      }
    }
  }

  /** The day after a date is a valid date numbered one higher. */
  lemma NextDayNumber(c: CivilDate)
    requires ValidDate(c)
    ensures ValidDate(NextDay(c))
    ensures DayNumber(NextDay(c)) == DayNumber(c) + 1
  {
    if c.day == DaysInMonth(c.year, c.month) {
      if c.month == 2 {
        YearLength(c.year - 1);
      } else {
        MonthEnd(c.year, c.month);
      }
    }
  }

  /** Outside February, the last day of a month is followed, one day later
      in the March-based count, by the first of the next month. */
  lemma MonthEnd(y: int, m: int)
    requires 1 <= m <= 12 && m != 2
    ensures MarchDayOfYear(m, DaysInMonth(y, m)) + 1 == MarchDayOfYear(if m == 12 then 1 else m + 1, 1)
  {
    if m == 1 {
      assert MarchDayOfYear(1, 31) == 336 && MarchDayOfYear(2, 1) == 337;
    } else if m == 3 {
      assert MarchDayOfYear(3, 31) == 30 && MarchDayOfYear(4, 1) == 31;
    } else if m == 4 {
      assert MarchDayOfYear(4, 30) == 60 && MarchDayOfYear(5, 1) == 61;
    } else if m == 5 {
      assert MarchDayOfYear(5, 31) == 91 && MarchDayOfYear(6, 1) == 92;
    } else if m == 6 {
      assert MarchDayOfYear(6, 30) == 121 && MarchDayOfYear(7, 1) == 122;
    } else if m == 7 {
      assert MarchDayOfYear(7, 31) == 152 && MarchDayOfYear(8, 1) == 153;
    } else if m == 8 {
      assert MarchDayOfYear(8, 31) == 183 && MarchDayOfYear(9, 1) == 184;
    } else if m == 9 {
      assert MarchDayOfYear(9, 30) == 213 && MarchDayOfYear(10, 1) == 214;
    } else if m == 10 {
      assert MarchDayOfYear(10, 31) == 244 && MarchDayOfYear(11, 1) == 245;
    } else if m == 11 {
      assert MarchDayOfYear(11, 30) == 274 && MarchDayOfYear(12, 1) == 275;
    } else {
      assert MarchDayOfYear(12, 31) == 305 && MarchDayOfYear(1, 1) == 306;
    }
  }

  /** Stepping back a day and then forward returns to the same date. */
  lemma PrevDayInverse(c: CivilDate)
    requires ValidDate(c)
    ensures ValidDate(PrevDay(c))
    ensures NextDay(PrevDay(c)) == c
    ensures DayNumber(PrevDay(c)) == DayNumber(c) - 1
  {
    NextDayNumber(PrevDay(c));
  }

  /** Stepping forward a day and then back returns to the same date. */
  lemma NextDayInverse(c: CivilDate)
    requires ValidDate(c)
    ensures ValidDate(NextDay(c))
    ensures PrevDay(NextDay(c)) == c
  {
    NextDayNumber(c);
  }

  /** `setDate(getDate() + n)`: the date `n` days later (earlier if `n < 0`). */
  function ShiftDays(c: CivilDate, n: int): (r: CivilDate)
    requires ValidDate(c)
    ensures ValidDate(r)
    ensures DayNumber(r) == DayNumber(c) + n
    decreases if n < 0 then -n else n
  {
    if n == 0 then c
    else if n > 0 then
      NextDayNumber(c);
      ShiftDays(NextDay(c), n - 1)
    else
      PrevDayInverse(c);
      ShiftDays(PrevDay(c), n + 1)
  }

  /** Going forward `n` days moves the year forward by at most `n`. */
  lemma {:induction false} ShiftForwardYears(c: CivilDate, n: int)
    requires ValidDate(c) && n >= 0
    ensures c.year <= ShiftDays(c, n).year <= c.year + n
    decreases n
  {
    if n > 0 {
      var d := NextDay(c);
      assert c.year <= d.year <= c.year + 1;
      NextDayNumber(c);
      assert ShiftDays(c, n) == ShiftDays(d, n - 1);
      ShiftForwardYears(d, n - 1);
    }
  }

  /** Dates a whole number of weeks apart fall on the same weekday. */
  lemma WeekdayShiftWeeks(c: CivilDate, weeks: int)
    requires ValidDate(c)
    ensures Weekday(ShiftDays(c, 7 * weeks)) == Weekday(c)
  {
    var k := DayNumber(c) + 4;
    assert DayNumber(ShiftDays(c, 7 * weeks)) + 4 == k + 7 * weeks;
    ModSevenShift(k, weeks);
  }

  lemma ModSevenShift(k: int, weeks: int)
    ensures (k + 7 * weeks) % 7 == k % 7
  {
    var q, r := k / 7, k % 7;
    assert k + 7 * weeks == 7 * (q + weeks) + r;
  }

  /** Each step forward advances the weekday by one, Saturday wrapping to
      Sunday. */
  lemma WeekdayNextDay(c: CivilDate)
    requires ValidDate(c)
    ensures ValidDate(NextDay(c))
    ensures Weekday(NextDay(c)) == (Weekday(c) + 1) % 7
  {
    NextDayNumber(c);
    ModSevenNext(DayNumber(c) + 4);
  }

  lemma ModSevenNext(k: int)
    ensures (k + 1) % 7 == (k % 7 + 1) % 7
  {
    var q, r := k / 7, k % 7;
    assert k == 7 * q + r;
    if r < 6 {
      assert k + 1 == 7 * q + (r + 1);
    } else {
      assert k + 1 == 7 * (q + 1);
    }
  }

  // ---------------------------------------------------------------------------
  // ISO strings
  // ---------------------------------------------------------------------------

  lemma ParseNat2(s: string)
    requires |s| == 2 && AllDigits(s)
    ensures ParseNat(s) == 10 * DigitValue(s[0]) + DigitValue(s[1])
  {
    var s1 := s[..1];
    assert s1[..0] == [] && s1[0] == s[0];
    assert ParseNat(s1) == DigitValue(s[0]);
  }

  lemma ParseNat4(s: string)
    requires |s| == 4 && AllDigits(s)
    ensures ParseNat(s) == 1000 * DigitValue(s[0]) + 100 * DigitValue(s[1]) + 10 * DigitValue(s[2]) + DigitValue(s[3])
  {
    var s3 := s[..3];
    var s2 := s3[..2];
    var s1 := s2[..1];
    assert s1[..0] == [] && s1[0] == s[0] && s2[1] == s[1] && s3[2] == s[2];
    assert ParseNat(s1) == DigitValue(s[0]);
    assert ParseNat(s2) == 10 * DigitValue(s[0]) + DigitValue(s[1]);
    assert ParseNat(s3) == 100 * DigitValue(s[0]) + 10 * DigitValue(s[1]) + DigitValue(s[2]);
  }

  function Digits2(n: nat): (s: string)
    requires n < 100
    ensures |s| == 2 && AllDigits(s) && ParseNat(s) == n
  {
    var s := [DigitChar(n / 10), DigitChar(n % 10)];
    ParseNat2(s);
    s
  }

  function Digits4(n: nat): (s: string)
    requires n < 10000
    ensures |s| == 4 && AllDigits(s) && ParseNat(s) == n
  {
    var s := [DigitChar(n / 1000), DigitChar(n / 100 % 10), DigitChar(n / 10 % 10), DigitChar(n % 10)];
    ParseNat4(s);
    assert n / 100 == 10 * (n / 1000) + n / 100 % 10;
    assert n / 10 == 10 * (n / 100) + n / 10 % 10;
    assert n == 10 * (n / 10) + n % 10;
    s
  }

  /** The date part of `toISOString()`. */
  function FormatIsoDate(c: CivilDate): (s: string)
    requires ValidDate(c) && InIsoRange(c)
    ensures IsIsoShape(s)
  {
    Digits4(c.year) + "-" + Digits2(c.month) + "-" + Digits2(c.day)
  }

  function Digits6(n: nat): (s: string)
    requires n < 1000000
    ensures |s| == 6 && AllDigits(s)
  {
    [DigitChar(n / 100000), DigitChar(n / 10000 % 10)] + Digits4(n % 10000)
  }

  /** The date part of `toISOString()` for a year past 9999: the expanded
      form, a plus sign and six year digits. */
  function ExpandedIsoDate(c: CivilDate): (s: string)
    requires ValidDate(c) && 9999 < c.year < 1000000
    ensures |s| == 13 && s[0] == '+'
  {
    "+" + Digits6(c.year) + "-" + Digits2(c.month) + "-" + Digits2(c.day)
  }

  /** `d.toISOString().split("T")[0]` for a date of year 0 or later: four
      year digits up to 9999, the expanded `+YYYYYY` form after. */
  function IsoDateText(c: CivilDate): (s: string)
    requires ValidDate(c) && 0 <= c.year < 1000000
    ensures InIsoRange(c) ==> s == FormatIsoDate(c) && ParseIsoDate(s) == Some(c)
    ensures !InIsoRange(c) ==> s != [] && s[0] == '+' && ParseIsoDate(s).None?
  {
    if c.year <= 9999 then
      ParseFormat(c);
      FormatIsoDate(c)
    else
      ExpandedIsoDate(c)
  }

  /** Ten characters laid out as `DDDD-DD-DD`. */
  predicate IsIsoShape(s: string)
  {
    |s| == 10 && s[4] == '-' && s[7] == '-' &&
    AllDigits(s[..4]) && AllDigits(s[5..7]) && AllDigits(s[8..])
  }

  /** `new Date(s)` on a date-only ISO string: the date it names, or `None`
      (an Invalid Date) when `s` is not a well-formed, existing date. */
  function ParseIsoDate(s: string): (r: Option<CivilDate>)
    ensures r.Some? ==> ValidDate(r.value) && InIsoRange(r.value)
  {
    if IsIsoShape(s) then
      var c := CivilDate(ParseNat(s[..4]), ParseNat(s[5..7]), ParseNat(s[8..]));
      if ValidDate(c) && InIsoRange(c) then Some(c) else None
    else None
  }

  lemma Digits2Parse(s: string)
    requires |s| == 2 && AllDigits(s)
    ensures ParseNat(s) < 100 && Digits2(ParseNat(s)) == s
  {
    ParseNat2(s);
  }

  lemma Digits4Parse(s: string)
    requires |s| == 4 && AllDigits(s)
    ensures ParseNat(s) < 10000 && Digits4(ParseNat(s)) == s
  {
    ParseNat4(s);
    var a, b, c, d := DigitValue(s[0]), DigitValue(s[1]), DigitValue(s[2]), DigitValue(s[3]);
    var n := ParseNat(s);
    QuotientOf(n, 1000, a, 100 * b + 10 * c + d);
    QuotientOf(n, 100, 10 * a + b, 10 * c + d);
    QuotientOf(10 * a + b, 10, a, b);
    QuotientOf(n, 10, 100 * a + 10 * b + c, d);
    QuotientOf(100 * a + 10 * b + c, 10, 10 * a + b, c);
  }

  /** The quotient and remainder of `n` by a divisor below 10000. */
  lemma QuotientOf(n: int, m: int, q: int, r: int)
    requires m == 10 || m == 100 || m == 1000
    requires 0 <= r < m && n == m * q + r
    ensures n / m == q && n % m == r
  {
    if m == 10 {
      assert n == 10 * q + r;
    } else if m == 100 {
      assert n == 100 * q + r;
    } else {
      assert n == 1000 * q + r;
    }
  }

  /** Formatting a date and reading it back gives the same date. */
  lemma ParseFormat(c: CivilDate)
    requires ValidDate(c) && InIsoRange(c)
    ensures ParseIsoDate(FormatIsoDate(c)) == Some(c)
  {
    var s := FormatIsoDate(c);
    assert s[..4] == Digits4(c.year);
    assert s[5..7] == Digits2(c.month);
    assert s[8..] == Digits2(c.day);
  }

  /** A string that reads as a date is that date's canonical rendering. */
  lemma FormatParse(s: string)
    requires ParseIsoDate(s).Some?
    ensures FormatIsoDate(ParseIsoDate(s).value) == s
  {
    Digits4Parse(s[..4]);
    Digits2Parse(s[5..7]);
    Digits2Parse(s[8..]);
    assert s == s[..4] + "-" + s[5..7] + "-" + s[8..];
  }

  /** `addDays(date, n)`: the ISO date `n` days after `date`, or `None` for
      an unreadable date and for a result outside the four-digit years (which
      JavaScript writes in the expanded `+YYYYYY` or `-YYYYYY` form). */
  function AddDays(date: string, n: int): (r: Option<string>)
    ensures r.Some? <==>
      ParseIsoDate(date).Some? && InIsoRange(ShiftDays(ParseIsoDate(date).value, n))
    ensures r.Some? ==>
      ParseIsoDate(r.value).Some? &&
      DayNumber(ParseIsoDate(r.value).value) == DayNumber(ParseIsoDate(date).value) + n
  {
    match ParseIsoDate(date)
    case None => None
    case Some(c) =>
      var e := ShiftDays(c, n);
      if InIsoRange(e) then
        ParseFormat(e);
        Some(FormatIsoDate(e))
      else None
  }

  /** `subDays(date, n)`. */
  function SubDays(date: string, n: int): (r: Option<string>)
    ensures r.Some? <==>
      ParseIsoDate(date).Some? && InIsoRange(ShiftDays(ParseIsoDate(date).value, -n))
    ensures r.Some? ==>
      ParseIsoDate(r.value).Some? &&
      DayNumber(ParseIsoDate(r.value).value) == DayNumber(ParseIsoDate(date).value) - n
  {
    AddDays(date, -n)
  }

  /** Going back a day and then forward a day returns to the same date. */
  lemma SubThenAddDay(date: string)
    requires SubDays(date, 1).Some?
    ensures AddDays(SubDays(date, 1).value, 1) == Some(date)
  {
    var c := ParseIsoDate(date).value;
    var p := ShiftDays(c, -1);
    assert p == PrevDay(c);
    PrevDayInverse(c);
    ParseFormat(p);
    assert ShiftDays(p, 1) == NextDay(p);
    FormatParse(date);
  }

  /** Going forward a day and then back a day returns to the same date. */
  lemma AddThenSubDay(date: string)
    requires AddDays(date, 1).Some?
    ensures SubDays(AddDays(date, 1).value, 1) == Some(date)
  {
    var c := ParseIsoDate(date).value;
    var q := ShiftDays(c, 1);
    assert q == NextDay(c);
    NextDayInverse(c);
    ParseFormat(q);
    assert ShiftDays(q, -1) == PrevDay(q);
    FormatParse(date);
  }

  // ---------------------------------------------------------------------------
  // `addDays` in a browser with a local time zone
  // ---------------------------------------------------------------------------

  /** A local time zone with one change of offset: `before` minutes east of
      UTC until the UTC minute `switchAt`, `after` from then on. */
  datatype Zone = Zone(before: int, after: int, switchAt: int)

  const MinutesPerDay: int := 1440

  function Offset(z: Zone, t: int): int
  {
    if t < z.switchAt then z.before else z.after
  }

  /** The UTC minute of a local wall-clock minute. A wall time before the
      change, and one that does not exist because the clocks skipped it, is
      read with the offset in force before the change, as ECMAScript does. */
  function WallToUtc(z: Zone, w: int): int
  {
    if w - z.before < z.switchAt || w - z.after < z.switchAt then w - z.before else w - z.after
  }

  /** `addDays(date, n)` as written, in a browser whose zone is `z`: the date
      is read as UTC midnight, `setDate(getDate() + n)` moves the local wall
      clock by `n` days, and `toISOString` writes the UTC date of the instant
      that results. While the zone keeps one offset this is `AddDays`. */
  function AddDaysInZone(date: string, n: int, z: Zone): (r: Option<string>)
    ensures z.before == z.after ==> r == AddDays(date, n)
  {
    match ParseIsoDate(date)
    case None => None
    case Some(c) =>
      var e := ShiftDays(c, ZoneShift(DayNumber(c), n, z));
      if InIsoRange(e) then Some(FormatIsoDate(e)) else None
  }

  /** How many days the UTC date moves when the wall clock of zone `z`,
      starting at UTC midnight of day `d`, moves by `n` days. */
  function ZoneShift(d: int, n: int, z: Zone): (k: int)
    ensures z.before == z.after ==> k == n
  {
    var t0 := d * MinutesPerDay;
    var t1 := WallToUtc(z, t0 + Offset(z, t0) + n * MinutesPerDay);
    assert z.before == z.after ==> t1 == (d + n) * MinutesPerDay;
    t1 / MinutesPerDay - d
  }

  /** The zone of New York on a spring-forward day `c`: five hours behind UTC
      until 02:00 local time (07:00 UTC), four hours behind from then on. */
  function SpringForward(c: CivilDate): Zone
    requires ValidDate(c)
  {
    Zone(-300, -240, DayNumber(c) * MinutesPerDay + 420)
  }

  /** On the day the clocks go forward, `addDays(date, 1)` as written gives
      `date` back: midnight UTC is 19:00 the evening before, one local day
      later is 19:00 daylight time, which is 23:00 UTC on `date` itself. The
      calendar's next-day arrow cannot leave that day. */
  lemma SpringForwardStuck(date: string)
    requires ParseIsoDate(date).Some?
    ensures AddDaysInZone(date, 1, SpringForward(ParseIsoDate(date).value)) == Some(date)
    ensures AddDays(date, 1) != Some(date)
  {
    var c := ParseIsoDate(date).value;
    var d := DayNumber(c);
    var t1 := WallToUtc(SpringForward(c), d * MinutesPerDay - 300 + MinutesPerDay);
    assert t1 == d * MinutesPerDay + 1380;
    assert t1 / MinutesPerDay == d;
    assert ShiftDays(c, 0) == c;
    FormatParse(date);
    if AddDays(date, 1).Some? {
      assert DayNumber(ParseIsoDate(AddDays(date, 1).value).value) == d + 1;
    }
  }

  /** `new Date(date).getDay()`: the weekday number, or NaN for an Invalid
      Date. */
  function GetDay(date: string): (w: JsNumber)
    ensures w.Num? <==> ParseIsoDate(date).Some?
    ensures w.Num? ==> 0 <= w.value < 7
  {
    match ParseIsoDate(date)
    case None => NaN
    case Some(c) => Num(Weekday(c))
  }

  /** A date and the date a whole number of weeks later share a weekday. */
  lemma GetDayAddWeeks(date: string, weeks: int)
    requires AddDays(date, 7 * weeks).Some?
    ensures GetDay(AddDays(date, 7 * weeks).value) == GetDay(date)
  {
    var c := ParseIsoDate(date).value;
    var r := ShiftDays(c, 7 * weeks);
    ParseFormat(r);
    WeekdayShiftWeeks(c, weeks);
  }

  /** The next day's weekday is one more, Saturday wrapping to Sunday. */
  lemma GetDayNextDay(date: string)
    requires AddDays(date, 1).Some?
    ensures GetDay(date).Num?
    ensures GetDay(AddDays(date, 1).value) == Num((GetDay(date).value + 1) % 7)
  {
    var c := ParseIsoDate(date).value;
    var r := ShiftDays(c, 1);
    assert r == NextDay(c);
    WeekdayNextDay(c);
    ParseFormat(r);
  }

  /** The epoch's date was a Thursday. */
  lemma GetDayEpoch()
    ensures GetDay("1970-01-01") == Num(4)
  {
    var s := "1970-01-01";
    assert s[..4] == "1970" && s[5..7] == "01" && s[8..] == "01";
    assert "1970"[..3] == "197" && "197"[..2] == "19" && "19"[..1] == "1";
    assert ParseNat("1") == 1 && ParseNat("19") == 19 && ParseNat("197") == 197 && ParseNat("1970") == 1970;
    assert ParseNat("0") == 0 && ParseNat("01") == 1;
    assert IsIsoShape(s);
    assert ParseIsoDate(s) == Some(CivilDate(1970, 1, 1));
    assert DayNumber(CivilDate(1970, 1, 1)) == 0;
  }

  const DayNames: seq<string> :=
    ["Sunday", "Monday", "Tuesday", "Wednesday", "Thursday", "Friday", "Saturday"]

  /** `getDayName(date)`: the English name of the date's weekday, or `None`
      for the `undefined` that indexing with NaN gives. */
  function DayName(date: string): (r: Option<string>)
    ensures r.Some? <==> GetDay(date).Num?
    ensures r.Some? ==> r.value == DayNames[GetDay(date).value]
  {
    match GetDay(date)
    case NaN => None
    case Num(w) => Some(DayNames[w])
  }
}
