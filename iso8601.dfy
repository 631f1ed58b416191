/** The ISO 8601 recognisers Luxon's `DateTime.fromISO` applies to the
    appointment strings: calendar dates in the complete, reduced-precision
    and basic forms (section 4.1.2 of ISO 8601:2004), an optional time of day
    introduced by `T` (section 4.2.2) with an optional fraction of a second,
    and an optional UTC designator or offset (section 4.2.4 and 4.2.5.1).
    Each recogniser is anchored at both ends, as Luxon's regular expressions are. */
module Iso8601 {
  import opened Wrappers
  import opened JsText
  import opened Calendar

  /** The fields of a time of day as read, before any range check. */
  datatype TimeFields = TimeFields(hour: int, minute: int, second: int, millis: int)

  /** Number of consecutive digits in `s` from position `i`. */
  function DigitRun(s: string, i: nat): (n: nat)
    requires i <= |s|
    ensures i + n <= |s| && (forall k :: i <= k < i + n ==> IsDigit(s[k])) && AllDigits(s[i..i + n])
    ensures i + n < |s| ==> !IsDigit(s[i + n])
    decreases |s| - i
  {
    if i < |s| && IsDigit(s[i]) then 1 + DigitRun(s, i + 1) else 0
  }

  /** A run of `n` digits from `i` that is followed by a non-digit or the end. */
  lemma {:induction false} DigitRunIs(s: string, i: nat, n: nat)
    requires i + n <= |s|
    requires forall k :: i <= k < i + n ==> IsDigit(s[k])
    requires i + n == |s| || !IsDigit(s[i + n])
    ensures DigitRun(s, i) == n
    decreases n
  {
    if n > 0 {
      DigitRunIs(s, i + 1, n - 1);
    }
  }

  function SkipColon(s: string, i: nat): (j: nat)
    requires i <= |s|
    ensures i <= j <= |s|
  {
    if i < |s| && s[i] == ':' then i + 1 else i
  }

  predicate TwoDigitsAt(s: string, i: nat) {
    i + 2 <= |s| && AllDigits(s[i..i + 2])
  }

  /** Milliseconds of a decimal fraction of a second: its first three digits,
      padded with zeros (the digits after the third are dropped). */
  function FractionMillis(f: string): (ms: nat)
    requires 1 <= |f| && AllDigits(f)
    ensures ms <= 999
  {
    DecimalValueBound(f[..if |f| >= 3 then 3 else |f|]);
    assert Pow10(1) == 10 && Pow10(2) == 100 && Pow10(3) == 1000;
    assert f[..|f|] == f;
    if |f| >= 3 then DecimalValue(f[..3])
    else if |f| == 2 then DecimalValue(f) * 10
    else DecimalValue(f) * 100
  }

  /** Greedy match of `HH(:?mm(:?ss([.,]d{1,30})?)?)?` at the start of `s`:
      the fields read and the number of characters consumed. */
  function TimeBase(s: string): (r: Option<(TimeFields, nat)>)
    ensures r.Some? ==> 2 <= r.value.1 <= |s|
    ensures r.Some? <==> TwoDigitsAt(s, 0)
  {
    if !TwoDigitsAt(s, 0) then None
    else
      var h := DecimalValue(s[..2]);
      var j := SkipColon(s, 2);
      if !TwoDigitsAt(s, j) then Some((TimeFields(h, 0, 0, 0), 2))
      else
        var mi := DecimalValue(s[j..j + 2]);
        var k := SkipColon(s, j + 2);
        if !TwoDigitsAt(s, k) then Some((TimeFields(h, mi, 0, 0), j + 2))
        else
          var sec := DecimalValue(s[k..k + 2]);
          var p := k + 2;
          if p < |s| && (s[p] == '.' || s[p] == ',') && DigitRun(s, p + 1) >= 1 then
            var run := DigitRun(s, p + 1);
            var n := if run > 30 then 30 else run;
            assert s[p + 1..p + 1 + n] == s[p + 1..p + 1 + run][..n];
            Some((TimeFields(h, mi, sec, FractionMillis(s[p + 1..p + 1 + n])), p + 1 + n))
          else Some((TimeFields(h, mi, sec, 0), p))
  }

  /** `hh:mm:ss.fff` not followed by a further digit is read whole, as its
      four fields. */
  lemma FullClockRead(s: string)
    requires |s| >= 12 && s[2] == ':' && s[5] == ':' && s[8] == '.'
    requires TwoDigitsAt(s, 0) && TwoDigitsAt(s, 3) && TwoDigitsAt(s, 6) && AllDigits(s[9..12])
    requires |s| == 12 || !IsDigit(s[12])
    ensures TimeBase(s) == Some((TimeFields(DecimalValue(s[..2]), DecimalValue(s[3..5]), DecimalValue(s[6..8]),
                                            FractionMillis(s[9..12])), 12))
  {
    assert SkipColon(s, 2) == 3 && SkipColon(s, 5) == 6;
    assert s[9..12][0] == s[9] && s[9..12][1] == s[10] && s[9..12][2] == s[11];
    DigitRunIs(s, 9, 3);
  }

  /** What may follow the time: nothing (`Some(None)`), `Z` (offset 0), or
      `+hh`, `-hh`, `+hhmm`, `+hh:mm` (offset in minutes east of UTC). */
  function OffsetSuffix(s: string): (r: Option<Option<int>>)
    ensures s == [] ==> r == Some(None)
    ensures r.Some? && r.value.Some? ==> |s| >= 1 && (s[0] == 'Z' || s[0] == '+' || s[0] == '-')
  {
    if s == [] then Some(None)
    else if s == "Z" then Some(Some(0))
    else if (s[0] == '+' || s[0] == '-') && TwoDigitsAt(s, 1) then
      var hh := DecimalValue(s[1..3]);
      var rest := s[3..];
      var mm :=
        if rest == [] then Some(0)
        else if |rest| == 2 && AllDigits(rest) then Some(DecimalValue(rest))
        else if |rest| == 3 && rest[0] == ':' && AllDigits(rest[1..]) then Some(DecimalValue(rest[1..]))
        else None;
      match mm
      case None => None
      case Some(m) => Some(Some(if s[0] == '-' then -(hh * 60 + m) else hh * 60 + m))
    else None
  }

  /** The text after `T`: a time of day and an optional offset, filling the
      rest of the string. */
  function TimePart(s: string): (r: Option<(TimeFields, Option<int>)>)
    ensures r.Some? ==> TwoDigitsAt(s, 0)
  {
    match TimeBase(s)
    case None => None
    case Some((f, n)) =>
      match OffsetSuffix(s[n..])
      case None => None
      case Some(off) => Some((f, off))
  }

  /** Greedy match of `YYYY(-?MM(-?DD)?)?` at the start of `s`: year, month,
      day (missing parts read as 1) and the number of characters consumed. */
  function DateBase(s: string): (r: Option<(int, int, int, nat)>)
    ensures r.Some? ==> 4 <= r.value.3 <= |s|
  {
    if |s| < 4 || !AllDigits(s[..4]) then None
    else
      var y := DecimalValue(s[..4]);
      var j := if 4 < |s| && s[4] == '-' then 5 else 4;
      if !TwoDigitsAt(s, j) then Some((y, 1, 1, 4))
      else
        var m := DecimalValue(s[j..j + 2]);
        var k := if j + 2 < |s| && s[j + 2] == '-' then j + 3 else j + 2;
        if !TwoDigitsAt(s, k) then Some((y, m, 1, j + 2))
        else Some((y, m, DecimalValue(s[k..k + 2]), k + 2))
  }

  /** The calendar date in UTC of an ISO date or date-time string, as
      `DateTime.fromISO(s, { zone: 'utc' }).toISODate()` yields it: a
      date-time without offset is read as UTC; one with an offset is moved
      to UTC first, which may change the date. None when `s` is not of this
      form or names an impossible date or time. */
  function UtcDate(s: string): (r: Option<Date>)
    ensures r.Some? ==> ValidDate(r.value)
  {
    match DateBase(s)
    case None => None
    case Some((y, m, d, n)) =>
      if !ValidDate(Date(y, m, d)) then None
      else if n == |s| then Some(Date(y, m, d))
      else if s[n] != 'T' then None
      else
        match TimePart(s[n + 1..])
        case None => None
        case Some((f, off)) =>
          match Normalize(Date(y, m, d), f.hour, f.minute, f.second, f.millis)
          case None => None
          case Some(dt) => Some(AddMinutes(dt, -off.GetOr(0)).date)
  }

  /** The local date-time of `${date}T${t}` as `DateTime.fromISO(.., { zone:
      'local' })` reads it for a viewer whose zone is `local` minutes east of
      UTC: the written wall-clock time when `t` carries no offset, converted
      from the written offset otherwise. */
  function LocalDateTime(date: Date, t: string, local: int): (r: Option<DateTime>)
    requires ValidDate(date)
    ensures r.Some? ==> ValidDateTime(r.value)
    ensures r.Some? ==> TwoDigitsAt(t, 0)
  {
    match TimePart(t)
    case None => None
    case Some((f, off)) =>
      match Normalize(date, f.hour, f.minute, f.second, f.millis)
      case None => None
      case Some(dt) => Some(if off.Some? then AddMinutes(dt, local - off.value) else dt)
  }

  // ---- Partners: formatting and reading back ----

  /** `HH:mm` for a time of day. */
  function FormatHourMinute(t: Time): (s: string)
    requires ValidTime(t)
    ensures |s| == 5 && s[2] == ':'
  {
    Digits(t.hour, 2) + ":" + Digits(t.minute, 2)
  }

  /** Every `HH:mm` time with valid fields is read back, on any date and for
      any viewer, as exactly that wall-clock time: the 24-hour path keeps the
      calendar date and the hour and minute written. */
  lemma {:induction false} HourMinuteRoundTrip(date: Date, t: Time, local: int)
    requires ValidDate(date) && ValidTime(t) && t.second == 0 && t.millis == 0
    ensures LocalDateTime(date, FormatHourMinute(t), local) == Some(DateTime(date, t))
  {
    var s := FormatHourMinute(t);
    DigitsRoundTrip(t.hour, 2);
    DigitsRoundTrip(t.minute, 2);
    assert s[..2] == Digits(t.hour, 2);
    assert s[3..5] == Digits(t.minute, 2);
    assert SkipColon(s, 2) == 3;
    assert !TwoDigitsAt(s, 5);
    assert TimeBase(s) == Some((TimeFields(t.hour, t.minute, 0, 0), 5));
    assert s[5..] == [];
  }

  /** A date written as `YYYY-MM-DD` for a year from 0 to 9999 is read back
      as the same date. */
  lemma {:induction false} IsoDateRoundTrip(d: Date)
    requires ValidDate(d) && 0 <= d.year <= 9999
    ensures UtcDate(FormatIsoDate(d)) == Some(d)
  {
    var s := FormatIsoDate(d);
    DigitsRoundTrip(d.year, 4);
    DigitsRoundTrip(d.month, 2);
    DigitsRoundTrip(d.day, 2);
    assert s[..4] == Digits(d.year, 4);
    assert s[5..7] == Digits(d.month, 2);
    assert s[8..10] == Digits(d.day, 2);
    assert DateBase(s) == Some((d.year, d.month, d.day, 10));
  }

  /** A time string that does not start with two digits is never accepted on
      the 24-hour path: `2:15 PM` and `9:00` fall through to the format list. */
  lemma SingleDigitHourRejected(date: Date, t: string, local: int)
    requires ValidDate(date) && !TwoDigitsAt(t, 0)
    ensures LocalDateTime(date, t, local) == None
  {
  }
}
