/**
 * The slice of Python's `datetime` that the core relies on: proleptic
 * Gregorian dates in Python's range (years 1 to 9999), local wall-clock
 * timestamps, the one-day and fifteen-minute steps (which raise
 * OverflowError outside that range, modelled as `None`), and
 * `date.isoformat()`.
 */
module Calendar {
  import opened Optional

  datatype CivilDate = CivilDate(year: int, month: int, day: int)

  predicate IsLeapYear(y: int)
  {
    y % 4 == 0 && (y % 100 != 0 || y % 400 == 0)
  }

  function DaysInMonth(y: int, m: int): (n: int)
    requires 1 <= m <= 12
    ensures 28 <= n <= 31
  {
    if m == 2 then (if IsLeapYear(y) then 29 else 28)
    else if m == 4 || m == 6 || m == 9 || m == 11 then 30
    else 31
  }

  predicate ValidDate(d: CivilDate)
  {
    1 <= d.year <= 9999 && 1 <= d.month <= 12 && 1 <= d.day <= DaysInMonth(d.year, d.month)
  }

  /** A Python `date`: MINYEAR is 1 and MAXYEAR is 9999. */
  type Date = d: CivilDate | ValidDate(d) witness CivilDate(1970, 1, 1)

  type Hour = h: int | 0 <= h < 24
  type Minute = m: int | 0 <= m < 60
  type Second = s: int | 0 <= s < 60
  type Micro = u: int | 0 <= u < 1000000

  /** A local (already time-zone-resolved) Python `datetime`. */
  datatype Stamp = Stamp(date: Date, hour: Hour, minute: Minute, second: Second, micro: Micro)

  /** Chronological order of dates. */
  predicate Before(a: Date, b: Date)
  {
    a.year < b.year
    || (a.year == b.year && (a.month < b.month || (a.month == b.month && a.day < b.day)))
  }

  function TimeOfDayKey(t: Stamp): int
  {
    ((t.hour * 60 + t.minute) * 60 + t.second) * 1000000 + t.micro
  }

  /** Chronological order of local timestamps. */
  predicate StampBefore(a: Stamp, b: Stamp)
  {
    Before(a.date, b.date) || (a.date == b.date && TimeOfDayKey(a) < TimeOfDayKey(b))
  }

  /** Chronological order is a strict total order. */
  lemma StampOrder(a: Stamp, b: Stamp)
    ensures StampBefore(a, b) ==> !StampBefore(b, a)
    ensures forall c :: StampBefore(a, b) && StampBefore(b, c) ==> StampBefore(a, c)
    ensures a != b ==> StampBefore(a, b) || StampBefore(b, a)
  {
  }

  function MinuteOfDay(t: Stamp): int
  {
    t.hour * 60 + t.minute
  }

  /** `d + timedelta(days=1)`; None where Python raises OverflowError. */
  function NextDay(d: Date): (r: Option<Date>)
    ensures r.None? <==> d == CivilDate(9999, 12, 31)
    ensures r.Some? ==> Before(d, r.value)
  {
    if d.day < DaysInMonth(d.year, d.month) then Some(CivilDate(d.year, d.month, d.day + 1))
    else if d.month < 12 then Some(CivilDate(d.year, d.month + 1, 1))
    else if d.year < 9999 then Some(CivilDate(d.year + 1, 1, 1))
    else None
  }

  /** `d - timedelta(days=1)`; None where Python raises OverflowError. */
  function PrevDay(d: Date): (r: Option<Date>)
    ensures r.None? <==> d == CivilDate(1, 1, 1)
    ensures r.Some? ==> Before(r.value, d)
  {
    if d.day > 1 then Some(CivilDate(d.year, d.month, d.day - 1))
    else if d.month > 1 then Some(CivilDate(d.year, d.month - 1, DaysInMonth(d.year, d.month - 1)))
    else if d.year > 1 then Some(CivilDate(d.year - 1, 12, 31))
    else None
  }

  /** Going back one day and forward one day are inverse steps. */
  lemma PrevNextRoundTrip(d: Date)
    ensures PrevDay(d).Some? ==> NextDay(PrevDay(d).value) == Some(d)
    ensures NextDay(d).Some? ==> PrevDay(NextDay(d).value) == Some(d)
  {
  }

  /** No date lies strictly between a day and the day before it. */
  lemma NothingBetweenPrevDay(t: Date, d: Date)
    requires PrevDay(t).Some?
    requires !Before(d, PrevDay(t).value) && Before(d, t)
    ensures d == PrevDay(t).value
  {
  }

  /** `t + timedelta(minutes=15)` on the wall clock; None where Python raises OverflowError. */
  function Plus15(t: Stamp): (r: Option<Stamp>)
    ensures r.None? <==> MinuteOfDay(t) + 15 >= 1440 && t.date == CivilDate(9999, 12, 31)
    ensures r.Some? ==> StampBefore(t, r.value)
    ensures r.Some? ==> MinuteOfDay(r.value) == (MinuteOfDay(t) + 15) % 1440
    ensures r.Some? ==> r.value.second == t.second && r.value.micro == t.micro
    ensures r.Some? && MinuteOfDay(t) + 15 < 1440 ==> r.value.date == t.date
    ensures r.Some? && MinuteOfDay(t) + 15 >= 1440 ==> NextDay(t.date) == Some(r.value.date)
  {
    var m := t.minute + 15;
    if m < 60 then Some(t.(minute := m))
    else if t.hour < 23 then Some(t.(hour := t.hour + 1, minute := m - 60))
    else match NextDay(t.date)
      case None => None
      case Some(n) => Some(Stamp(n, 0, m - 60, t.second, t.micro))
  }

  // ------------------------------------------------------------ day numbers

  /** Days in the years before `y`, counted from 0001-01-01. */
  function DaysBeforeYear(y: int): int
  {
    365 * (y - 1) + (y - 1) / 4 - (y - 1) / 100 + (y - 1) / 400
  }

  /** Days in the months of year `y` before month `m`. */
  function DaysBeforeMonth(y: int, m: int): int
    requires 1 <= m <= 12
  {
    if m == 1 then 0 else DaysBeforeMonth(y, m - 1) + DaysInMonth(y, m - 1)
  }

  function YearLength(y: int): int
  {
    DaysBeforeMonth(y, 12) + DaysInMonth(y, 12)
  }

  /** The proleptic ordinal of a date, `date.toordinal()`: 0001-01-01 is day 1. */
  function DayNumber(d: Date): int
  {
    DaysBeforeYear(d.year) + DaysBeforeMonth(d.year, d.month) + d.day
  }

  /** The wall-clock minute of a stamp, counted from midnight of day 0. */
  function MinuteIndex(t: Stamp): int
  {
    DayNumber(t.date) * 1440 + MinuteOfDay(t)
  }

  /** `MinuteIndex` of 9999-12-31 23:59, the last minute Python can represent. */
  const LastMinuteIndex: int := DayNumber(CivilDate(9999, 12, 31)) * 1440 + 1439

  /** A year has 365 days, or 366 in a leap year. */
  lemma YearLengthValue(y: int)
    ensures YearLength(y) == if IsLeapYear(y) then 366 else 365
  {
    var feb := DaysInMonth(y, 2);
    assert DaysBeforeMonth(y, 2) == 31;
    assert DaysBeforeMonth(y, 3) == 31 + feb;
    assert DaysBeforeMonth(y, 4) == 62 + feb;
    assert DaysBeforeMonth(y, 5) == 92 + feb;
    assert DaysBeforeMonth(y, 6) == 123 + feb;
    assert DaysBeforeMonth(y, 7) == 153 + feb;
    assert DaysBeforeMonth(y, 8) == 184 + feb;
    assert DaysBeforeMonth(y, 9) == 215 + feb;
    assert DaysBeforeMonth(y, 10) == 245 + feb;
    assert DaysBeforeMonth(y, 11) == 276 + feb;
    assert DaysBeforeMonth(y, 12) == 306 + feb;
  }

  /** How the leap-day counts `y / 4`, `y / 100` and `y / 400` step from `y - 1` to `y`. */
  lemma LeapCountsStep(y: int)
    ensures y / 4 - (y - 1) / 4 == if y % 4 == 0 then 1 else 0
    ensures y / 100 - (y - 1) / 100 == if y % 100 == 0 then 1 else 0
    ensures y / 400 - (y - 1) / 400 == if y % 400 == 0 then 1 else 0
    ensures y % 100 == 0 ==> y % 4 == 0
    ensures y % 400 == 0 ==> y % 100 == 0
  {
    if y % 100 == 0 {
      assert y == 100 * (y / 100);
    }
    if y % 400 == 0 {
      assert y == 400 * (y / 400);
    }
  }

  /** One more year adds that year's length. */
  lemma DaysBeforeNextYear(y: int)
    requires y >= 1
    ensures DaysBeforeYear(y + 1) == DaysBeforeYear(y) + YearLength(y)
  {
    YearLengthValue(y);
    LeapCountsStep(y);
  }

  lemma {:induction false} DaysBeforeYearGrows(a: int, b: int)
    requires 1 <= a <= b
    ensures DaysBeforeYear(a) <= DaysBeforeYear(b)
    decreases b - a
  {
    if a < b {
      DaysBeforeNextYear(a);
      YearLengthValue(a);
      DaysBeforeYearGrows(a + 1, b);
    }
  }

  /** A month ends no later than its year. */
  lemma {:induction false} MonthEndWithinYear(y: int, m: int)
    requires 1 <= m <= 12
    ensures DaysBeforeMonth(y, m) + DaysInMonth(y, m) <= YearLength(y)
    decreases 12 - m
  {
    if m < 12 {
      MonthEndWithinYear(y, m + 1);
    }
  }

  /** The next day has the next ordinal. */
  lemma NextDayNumber(d: Date)
    requires NextDay(d).Some?
    ensures DayNumber(NextDay(d).value) == DayNumber(d) + 1
  {
    if d.day == DaysInMonth(d.year, d.month) && d.month == 12 {
      DaysBeforeNextYear(d.year);
    }
  }

  /** A date before the year 9999 is at least 365 days before 9999-12-31. */
  lemma YearBeforeLast(d: Date)
    requires d.year < 9999
    ensures DayNumber(d) + 365 <= DayNumber(CivilDate(9999, 12, 31))
  {
    MonthEndWithinYear(d.year, d.month);
    DaysBeforeNextYear(d.year);
    DaysBeforeYearGrows(d.year + 1, 9999);
    YearLengthValue(9999);
  }

  /**
   * Fifteen minutes later is fifteen minutes on in `MinuteIndex`, and the
   * step exists whenever it stays within the last representable minute.
   */
  lemma Plus15Index(t: Stamp)
    ensures MinuteIndex(t) + 15 <= LastMinuteIndex ==> Plus15(t).Some?
    ensures Plus15(t).Some? ==> MinuteIndex(Plus15(t).value) == MinuteIndex(t) + 15
  {
    if Plus15(t).Some? && MinuteOfDay(t) + 15 >= 1440 {
      NextDayNumber(t.date);
    }
  }

  function Pow10(w: nat): (p: nat)
    ensures p >= 1
  {
    if w == 0 then 1 else 10 * Pow10(w - 1)
  }

  function DigitChar(k: int): char
    requires 0 <= k < 10
  {
    (48 + k) as char
  }

  /** The last `width` decimal digits of `n`, zero-padded (`"%0*d"`). */
  function Digits(n: nat, width: nat): (s: string)
    ensures |s| == width
    ensures forall i :: 0 <= i < |s| ==> '0' <= s[i] <= '9'
  {
    if width == 0 then [] else Digits(n / 10, width - 1) + [DigitChar(n % 10)]
  }

  /** Zero-padded decimal renderings of numbers that fit the width are distinct. */
  lemma {:induction false} DigitsInjective(n: nat, m: nat, width: nat)
    requires n < Pow10(width) && m < Pow10(width)
    requires Digits(n, width) == Digits(m, width)
    ensures n == m
  {
    if width > 0 {
      var a, b := Digits(n, width), Digits(m, width);
      assert a[width - 1] == b[width - 1];
      assert n % 10 == m % 10;
      assert a[..width - 1] == Digits(n / 10, width - 1);
      assert b[..width - 1] == Digits(m / 10, width - 1);
      DigitsInjective(n / 10, m / 10, width - 1);
    }
  }

  /** `date.isoformat()`: `YYYY-MM-DD`. */
  function IsoDate(d: Date): (s: string)
    ensures |s| == 10 && s[4] == '-' && s[7] == '-'
  {
    Digits(d.year, 4) + "-" + Digits(d.month, 2) + "-" + Digits(d.day, 2)
  }

  /** Different dates have different ISO renderings. */
  lemma IsoDateInjective(a: Date, b: Date)
    requires IsoDate(a) == IsoDate(b)
    ensures a == b
  {
    var s, t := IsoDate(a), IsoDate(b);
    assert s[..4] == Digits(a.year, 4) && t[..4] == Digits(b.year, 4);
    assert s[5..7] == Digits(a.month, 2) && t[5..7] == Digits(b.month, 2);
    assert s[8..] == Digits(a.day, 2) && t[8..] == Digits(b.day, 2);
    assert Pow10(4) == 10000 && Pow10(2) == 100;
    DigitsInjective(a.year, b.year, 4);
    DigitsInjective(a.month, b.month, 2);
    DigitsInjective(a.day, b.day, 2);
  }
}
