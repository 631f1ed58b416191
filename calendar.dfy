/** Proleptic Gregorian calendar dates, times of day, and the arithmetic the
    date parsers need: validity, moving a date-time by whole minutes, the
    day count since 1970-01-01 and back, and the ISO weekday. */
module Calendar {
  import opened Wrappers
  import JsText

  datatype Date = Date(year: int, month: int, day: int)
  datatype Time = Time(hour: int, minute: int, second: int, millis: int)
  datatype DateTime = DateTime(date: Date, time: Time)

  const Midnight := Time(0, 0, 0, 0)
  const MillisPerDay := 86_400_000

  /** A JavaScript time value: milliseconds since 1970-01-01T00:00:00Z within
      the range a `Date` object can hold (section 21.4.1.1 of ECMA-262). */
  type TimeValue = x: int | -8_640_000_000_000_000 <= x <= 8_640_000_000_000_000

  predicate IsLeapYear(y: int) { y % 4 == 0 && (y % 100 != 0 || y % 400 == 0) }

  function DaysInYear(y: int): int { if IsLeapYear(y) then 366 else 365 }

  function DaysInMonth(y: int, m: int): (n: int)
    requires 1 <= m <= 12
    ensures 28 <= n <= 31
  {
    if m == 2 then (if IsLeapYear(y) then 29 else 28)
    else if m == 4 || m == 6 || m == 9 || m == 11 then 30
    else 31
  }

  predicate ValidDate(d: Date) {
    1 <= d.month <= 12 && 1 <= d.day <= DaysInMonth(d.year, d.month)
  }

  predicate ValidTime(t: Time) {
    0 <= t.hour <= 23 && 0 <= t.minute <= 59 && 0 <= t.second <= 59 && 0 <= t.millis <= 999
  }

  predicate ValidDateTime(dt: DateTime) { ValidDate(dt.date) && ValidTime(dt.time) }

  function NextDay(d: Date): (r: Date)
    requires ValidDate(d)
    ensures ValidDate(r)
  {
    if d.day < DaysInMonth(d.year, d.month) then Date(d.year, d.month, d.day + 1)
    else if d.month < 12 then Date(d.year, d.month + 1, 1)
    else Date(d.year + 1, 1, 1)
  }

  function PrevDay(d: Date): (r: Date)
    requires ValidDate(d)
    ensures ValidDate(r)
  {
    if d.day > 1 then Date(d.year, d.month, d.day - 1)
    else if d.month > 1 then Date(d.year, d.month - 1, DaysInMonth(d.year, d.month - 1))
    else Date(d.year - 1, 12, 31)
  }

  /** Stepping a day forward and back again returns to the same date. */
  lemma NextDayPrevDay(d: Date)
    requires ValidDate(d)
    ensures PrevDay(NextDay(d)) == d && NextDay(PrevDay(d)) == d
  {
  }

  /** The date `n` days after (or, for negative `n`, before) `d`. */
  function AddDays(d: Date, n: int): (r: Date)
    requires ValidDate(d)
    ensures ValidDate(r)
    decreases if n < 0 then -n else n
  {
    if n == 0 then d
    else if n > 0 then AddDays(NextDay(d), n - 1)
    else AddDays(PrevDay(d), n + 1)
  }

  /** Moves a date-time by `delta` whole minutes, carrying into the date;
      seconds and milliseconds are untouched. */
  function AddMinutes(dt: DateTime, delta: int): (r: DateTime)
    requires ValidDateTime(dt)
    ensures ValidDateTime(r)
    ensures r.time.second == dt.time.second && r.time.millis == dt.time.millis
  {
    var total := dt.time.hour * 60 + dt.time.minute + delta;
    var rem := total % 1440;
    DateTime(AddDays(dt.date, total / 1440), Time(rem / 60, rem % 60, dt.time.second, dt.time.millis))
  }

  /** Moving by zero minutes changes nothing. */
  lemma AddZeroMinutes(dt: DateTime)
    requires ValidDateTime(dt)
    ensures AddMinutes(dt, 0) == dt
  {
  }

  /** Builds the date-time a parser yields from its fields: hour 24 is allowed
      only as 24:00:00.000 and then means midnight of the next day. */
  function Normalize(d: Date, hour: int, minute: int, second: int, millis: int): (r: Option<DateTime>)
    requires ValidDate(d)
    ensures r.Some? ==> ValidDateTime(r.value)
    ensures r.Some? <==> (ValidTime(Time(hour, minute, second, millis))
                         || (hour == 24 && minute == 0 && second == 0 && millis == 0))
  {
    if ValidTime(Time(hour, minute, second, millis)) then Some(DateTime(d, Time(hour, minute, second, millis)))
    else if hour == 24 && minute == 0 && second == 0 && millis == 0 then Some(DateTime(NextDay(d), Midnight))
    else None
  }

  // ---- Day numbers since 1970-01-01 ----

  /** The day number of January 1 of year `y`. */
  function YearStart(y: int): int
    decreases if y >= 1970 then y - 1970 else 1970 - y
  {
    if y == 1970 then 0
    else if y > 1970 then YearStart(y - 1) + DaysInYear(y - 1)
    else YearStart(y + 1) - DaysInYear(y)
  }

  /** The number of days in the months of year `y` before month `m`. */
  function DaysBeforeMonth(y: int, m: int): int
    requires 1 <= m <= 13
  {
    if m == 1 then 0 else DaysBeforeMonth(y, m - 1) + DaysInMonth(y, m - 1)
  }

  lemma {:induction false} DaysBeforeMonthBound(y: int, m: int)
    requires 1 <= m <= 13
    ensures 0 <= DaysBeforeMonth(y, m) <= DaysBeforeMonth(y, 13) == DaysInYear(y)
    ensures m <= 12 ==> DaysBeforeMonth(y, m) + DaysInMonth(y, m) <= DaysInYear(y)
    decreases 13 - m
  {
    if m < 13 {
      DaysBeforeMonthBound(y, m + 1);
    } else {
      assert DaysBeforeMonth(y, 2) == 31;
      assert DaysBeforeMonth(y, 3) == 31 + DaysInMonth(y, 2);
      assert DaysBeforeMonth(y, 4) == 62 + DaysInMonth(y, 2);
      assert DaysBeforeMonth(y, 5) == 92 + DaysInMonth(y, 2);
      assert DaysBeforeMonth(y, 6) == 123 + DaysInMonth(y, 2);
      assert DaysBeforeMonth(y, 7) == 153 + DaysInMonth(y, 2);
      assert DaysBeforeMonth(y, 8) == 184 + DaysInMonth(y, 2);
      assert DaysBeforeMonth(y, 9) == 215 + DaysInMonth(y, 2);
      assert DaysBeforeMonth(y, 10) == 245 + DaysInMonth(y, 2);
      assert DaysBeforeMonth(y, 11) == 276 + DaysInMonth(y, 2);
      assert DaysBeforeMonth(y, 12) == 306 + DaysInMonth(y, 2);
    }
  }

  /** Days since 1970-01-01 (negative before it). */
  function EpochDay(d: Date): int
    requires ValidDate(d)
  {
    YearStart(d.year) + DaysBeforeMonth(d.year, d.month) + d.day - 1
  }

  /** The date at offset `z` (0-based) within month `m` of year `y` or later
      months of that year. */
  function FromMonth(y: int, m: int, z: int): (r: Date)
    requires 1 <= m <= 12 && 0 <= z < DaysInYear(y) - DaysBeforeMonth(y, m)
    ensures ValidDate(r) && r.year == y
    ensures DaysBeforeMonth(y, r.month) + r.day - 1 == DaysBeforeMonth(y, m) + z
    decreases 12 - m
  {
    if z < DaysInMonth(y, m) then Date(y, m, z + 1)
    else
      DaysBeforeMonthBound(y, m + 1);
      FromMonth(y, m + 1, z - DaysInMonth(y, m))
  }

  /** The date `z` days after January 1 of year `y`. */
  function FromYear(y: int, z: int): (r: Date)
    ensures ValidDate(r)
    ensures EpochDay(r) == YearStart(y) + z
    decreases if z < 0 then 1 else 0, if z < 0 then -z else z
  {
    if z < 0 then FromYear(y - 1, z + DaysInYear(y - 1))
    else if z >= DaysInYear(y) then FromYear(y + 1, z - DaysInYear(y))
    else
      DaysBeforeMonthBound(y, 1);
      FromMonth(y, 1, z)
  }

  /** The calendar date of day number `z`. */
  function DateOfEpochDay(z: int): (r: Date)
    ensures ValidDate(r) && EpochDay(r) == z
  {
    FromYear(1970, z)
  }

  lemma {:induction false} YearStartMonotone(a: int, b: int)
    requires a < b
    ensures YearStart(a) + DaysInYear(a) <= YearStart(b)
    decreases b - a
  {
    if b > a + 1 {
      YearStartMonotone(a + 1, b);
    }
    assert YearStart(a + 1) == YearStart(a) + DaysInYear(a) by {
      YearStartStep(a);
    }
  }

  lemma YearStartStep(y: int)
    ensures YearStart(y + 1) == YearStart(y) + DaysInYear(y)
  {
  }

  lemma {:induction false} MonthDayUnique(y: int, m1: int, d1: int, m2: int, d2: int)
    requires ValidDate(Date(y, m1, d1)) && ValidDate(Date(y, m2, d2))
    requires DaysBeforeMonth(y, m1) + d1 == DaysBeforeMonth(y, m2) + d2
    ensures m1 == m2 && d1 == d2
  {
    if m1 < m2 {
      DaysBeforeMonthGap(y, m1, m2);
    } else if m2 < m1 {
      DaysBeforeMonthGap(y, m2, m1);
    }
  }

  lemma {:induction false} DaysBeforeMonthGap(y: int, a: int, b: int)
    requires 1 <= a < b <= 13
    ensures DaysBeforeMonth(y, a) + DaysInMonth(y, a) <= DaysBeforeMonth(y, b)
    decreases b - a
  {
    if b > a + 1 {
      DaysBeforeMonthGap(y, a, b - 1);
    }
  }

  /** Distinct valid dates have distinct day numbers; with DateOfEpochDay this
      makes the two conversions inverse to each other. */
  lemma EpochDayInjective(d1: Date, d2: Date)
    requires ValidDate(d1) && ValidDate(d2) && EpochDay(d1) == EpochDay(d2)
    ensures d1 == d2
  {
    DaysBeforeMonthBound(d1.year, d1.month);
    DaysBeforeMonthBound(d2.year, d2.month);
    if d1.year < d2.year {
      YearStartMonotone(d1.year, d2.year);
    } else if d2.year < d1.year {
      YearStartMonotone(d2.year, d1.year);
    } else {
      MonthDayUnique(d1.year, d1.month, d1.day, d2.month, d2.day);
    }
  }

  lemma DateOfEpochDayRoundTrip(d: Date)
    requires ValidDate(d)
    ensures DateOfEpochDay(EpochDay(d)) == d
  {
    EpochDayInjective(DateOfEpochDay(EpochDay(d)), d);
  }

  /** ISO weekday, 1 = Monday ... 7 = Sunday (1970-01-01 was a Thursday). */
  function Weekday(d: Date): (w: int)
    requires ValidDate(d)
    ensures 1 <= w <= 7
  {
    (EpochDay(d) + 3) % 7 + 1
  }

  /** The UTC calendar date of a time value, as `toISOString().split('T')[0]` gives it. */
  function UtcDateOfMillis(ms: TimeValue): (d: Date)
    ensures ValidDate(d)
  {
    DateOfEpochDay(ms / MillisPerDay)
  }

  /** The wall-clock date-time of a time value in a zone `offset` minutes east of UTC. */
  function LocalOfMillis(ms: TimeValue, offset: int): (dt: DateTime)
    ensures ValidDateTime(dt)
  {
    var local := ms + offset * 60_000;
    var r := local % MillisPerDay;
    DateTime(DateOfEpochDay(local / MillisPerDay),
             Time(r / 3_600_000, (r / 60_000) % 60, (r / 1000) % 60, r % 1000))
  }

  /** Order key on date-times: lexicographic in (year, month, day, hour,
      minute, second, millisecond). */
  function Key(dt: DateTime): int {
    ((((((dt.date.year * 12 + (dt.date.month - 1)) * 31 + (dt.date.day - 1)) * 24
      + dt.time.hour) * 60 + dt.time.minute) * 60 + dt.time.second) * 1000) + dt.time.millis
  }

  predicate TimeBefore(a: Time, b: Time) {
    a.hour < b.hour || (a.hour == b.hour && (a.minute < b.minute || (a.minute == b.minute
      && (a.second < b.second || (a.second == b.second && a.millis < b.millis)))))
  }

  predicate LexBefore(a: DateTime, b: DateTime) {
    a.date.year < b.date.year || (a.date.year == b.date.year
      && (a.date.month < b.date.month || (a.date.month == b.date.month
      && (a.date.day < b.date.day || (a.date.day == b.date.day && TimeBefore(a.time, b.time))))))
  }

  function TimeKey(t: Time): int { ((t.hour * 60 + t.minute) * 60 + t.second) * 1000 + t.millis }

  lemma TimeKeyOrder(a: Time, b: Time)
    requires ValidTime(a) && ValidTime(b)
    ensures 0 <= TimeKey(a) < MillisPerDay
    ensures TimeKey(a) < TimeKey(b) <==> TimeBefore(a, b)
    ensures TimeKey(a) == TimeKey(b) <==> a == b
  {
  }

  /** On valid date-times the key orders exactly as the calendar does, and
      equal keys mean equal date-times. */
  lemma KeyOrder(a: DateTime, b: DateTime)
    requires ValidDateTime(a) && ValidDateTime(b)
    ensures Key(a) < Key(b) <==> LexBefore(a, b)
    ensures Key(a) == Key(b) <==> a == b
  {
    TimeKeyOrder(a.time, b.time);
    TimeKeyOrder(b.time, a.time);
    var da := (a.date.year * 12 + (a.date.month - 1)) * 31 + (a.date.day - 1);
    var db := (b.date.year * 12 + (b.date.month - 1)) * 31 + (b.date.day - 1);
    assert Key(a) == da * MillisPerDay + TimeKey(a.time);
    assert Key(b) == db * MillisPerDay + TimeKey(b.time);
    assert da < db <==> (a.date.year < b.date.year || (a.date.year == b.date.year
      && (a.date.month < b.date.month || (a.date.month == b.date.month && a.date.day < b.date.day))));
    assert da == db <==> a.date == b.date;
    if da < db {
      assert (da + 1) * MillisPerDay <= db * MillisPerDay;
    } else if db < da {
      assert (db + 1) * MillisPerDay <= da * MillisPerDay;
    }
  }

  // ---- ISO 8601 formatting of dates ----

  /** The `YYYY-MM-DD` form of a date, with the expanded `+YYYYYY` / `-YYYYYY`
      year of section 4.1.2.4 of ISO 8601 outside years 0 to 9999, as both
      `toISOString` and Luxon's `toISODate` write it. */
  function FormatIsoDate(d: Date): (s: string)
    requires ValidDate(d)
    ensures 0 <= d.year <= 9999 ==> |s| == 10 && s[4] == '-' && s[7] == '-'
  {
    var year :=
      if 0 <= d.year <= 9999 then JsText.Digits(d.year, 4)
      else if d.year > 9999 then "+" + JsText.Digits(d.year, 6)
      else "-" + JsText.Digits(-d.year, 6);
    year + "-" + JsText.Digits(d.month, 2) + "-" + JsText.Digits(d.day, 2)
  }
}
