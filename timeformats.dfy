/** Luxon's `DateTime.fromFormat(s, 'yyyy-MM-dd ' + fmt, { zone: 'local' })`
    for the six time formats the appointment helper tries, in the order it
    tries them. Each format becomes a regular expression anchored at both
    ends and matched case-insensitively; `h` and `H` take one or two digits,
    `hh`, `HH`, `mm`, `ss`, `MM` and `dd` exactly two, `yyyy` exactly four,
    and `a` is `AM` or `PM`. */
module TimeFormats {
  import opened Wrappers
  import opened JsText
  import opened Calendar
  import Iso8601

  /** One time format: a one-or-two-digit hour (`h`, `H`) or an exactly
      two-digit one (`hh`, `HH`), then `:mm`, then optionally `:ss`, then
      optionally ` a`. A 12-hour hour always comes with ` a` in the list. */
  datatype TimeFormat = TimeFormat(paddedHour: bool, withSeconds: bool, withMeridiem: bool)

  const HourMinuteMeridiem := TimeFormat(false, false, true)          // h:mm a
  const PaddedHourMinuteMeridiem := TimeFormat(true, false, true)     // hh:mm a
  const HourMinute := TimeFormat(false, false, false)                 // H:mm
  const PaddedHourMinute := TimeFormat(true, false, false)            // HH:mm
  const HourMinuteSecondMeridiem := TimeFormat(false, true, true)     // h:mm:ss a
  const PaddedHourMinuteSecond := TimeFormat(true, true, false)       // HH:mm:ss

  const Formats: seq<TimeFormat> := [HourMinuteMeridiem, PaddedHourMinuteMeridiem, HourMinute,
                                     PaddedHourMinute, HourMinuteSecondMeridiem, PaddedHourMinuteSecond]

  /** The fields of a matched time, before the meridiem is applied. `pm` is
      None without ` a`, Some(false) for AM and Some(true) for PM. */
  datatype Clock = Clock(hour: int, minute: int, second: int, pm: Option<bool>)

  /** `AM` or `PM` in any mix of case. */
  function MeridiemOf(s: string): (r: Option<bool>)
    ensures r.Some? ==> |s| == 2 && ToLowerAsciiChar(s[1]) == 'm'
    ensures r == Some(true) <==> |s| == 2 && ToLowerAsciiChar(s[0]) == 'p' && ToLowerAsciiChar(s[1]) == 'm'
    ensures r == Some(false) <==> |s| == 2 && ToLowerAsciiChar(s[0]) == 'a' && ToLowerAsciiChar(s[1]) == 'm'
  {
    if |s| != 2 || !(s[1] == 'm' || s[1] == 'M') then None
    else if s[0] == 'a' || s[0] == 'A' then Some(false)
    else if s[0] == 'p' || s[0] == 'P' then Some(true)
    else None
  }

  /** Anchored match of the time part of a format against `t`. */
  function MatchClock(t: string, f: TimeFormat): (r: Option<Clock>)
    ensures r.Some? ==> (r.value.pm.Some? <==> f.withMeridiem)
    ensures r.Some? ==> 0 <= r.value.hour <= 99 && 0 <= r.value.minute <= 99 && 0 <= r.value.second <= 99
  {
    var n := Iso8601.DigitRun(t, 0);
    if !(if f.paddedHour then n == 2 else 1 <= n <= 2) then None
    else if !(n < |t| && t[n] == ':' && Iso8601.TwoDigitsAt(t, n + 1)) then None
    else
      var i := n + 3;
      if f.withSeconds && !(i < |t| && t[i] == ':' && Iso8601.TwoDigitsAt(t, i + 1)) then None
      else
        var j := if f.withSeconds then i + 3 else i;
        var pm := if f.withMeridiem && j < |t| && t[j] == ' ' then MeridiemOf(t[j + 1..]) else None;
        if f.withMeridiem && pm.None? then None
        else if !f.withMeridiem && j != |t| then None
        else
          DecimalValueBound(t[..n]);
          DecimalValueBound(t[n + 1..n + 3]);
          assert Pow10(1) == 10 && Pow10(2) == 100;
          Some(Clock(DecimalValue(t[..n]), DecimalValue(t[n + 1..n + 3]),
                     if f.withSeconds then (DecimalValueBound(t[i + 1..i + 3]); DecimalValue(t[i + 1..i + 3])) else 0,
                     pm))
  }

  /** Luxon's meridiem rule: a PM hour below 12 gains 12, 12 AM is hour 0,
      and every other hour is kept as written. */
  function ApplyMeridiem(hour: int, pm: Option<bool>): int {
    match pm
    case None => hour
    case Some(p) => if hour < 12 && p then hour + 12 else if hour == 12 && !p then 0 else hour
  }

  /** The 12-hour clock as usually read: hours 1 to 12 with AM name hours 0
      to 11 (12 AM being midnight), and with PM hours 12 to 23. */
  lemma MeridiemClock(hour: int, p: bool)
    requires 1 <= hour <= 12
    ensures ApplyMeridiem(hour, Some(p)) == hour % 12 + (if p then 12 else 0)
    ensures 0 <= ApplyMeridiem(hour, Some(p)) <= 23
    ensures (ApplyMeridiem(hour, Some(p)) >= 12) == p
  {
  }

  /** `DateTime.fromFormat(s, 'yyyy-MM-dd ' + f, { zone: 'local' })`: the
      wall-clock date-time read, or None when `s` does not match or names an
      impossible date or time (hour 24 only as 24:00:00, meaning the next
      day's midnight). */
  function FromFormat(s: string, f: TimeFormat): (r: Option<DateTime>)
    ensures r.Some? ==> ValidDateTime(r.value)
  {
    if !(|s| >= 11 && AllDigits(s[..4]) && s[4] == '-' && AllDigits(s[5..7]) && s[7] == '-'
         && AllDigits(s[8..10]) && s[10] == ' ') then None
    else
      var d := Date(DecimalValue(s[..4]), DecimalValue(s[5..7]), DecimalValue(s[8..10]));
      match MatchClock(s[11..], f)
      case None => None
      case Some(c) =>
        if !ValidDate(d) then None
        else Normalize(d, ApplyMeridiem(c.hour, c.pm), c.minute, c.second, 0)
  }

  /** The time part alone, read on a known date. */
  function ClockOn(d: Date, t: string, f: TimeFormat): (r: Option<DateTime>)
    requires ValidDate(d)
  {
    match MatchClock(t, f)
    case None => None
    case Some(c) => Normalize(d, ApplyMeridiem(c.hour, c.pm), c.minute, c.second, 0)
  }

  /** The first format of `fs` under which `s` reads, as the `for` loop over
      the list returns it. */
  function FirstSuccess(s: string, fs: seq<TimeFormat>): (r: Option<DateTime>)
    ensures r.None? <==> forall k :: 0 <= k < |fs| ==> FromFormat(s, fs[k]).None?
    ensures r.Some? ==> ValidDateTime(r.value)
  {
    if fs == [] then None
    else if FromFormat(s, fs[0]).Some? then FromFormat(s, fs[0])
    else
      var r := FirstSuccess(s, fs[1..]);
      assert forall k :: 1 <= k < |fs| ==> fs[k] == fs[1..][k - 1];
      r
  }

  // ---- Lemmas ----

  /** The first format that reads `s` decides the result; no later one is consulted. */
  lemma {:induction false} FirstSuccessWins(s: string, fs: seq<TimeFormat>, k: nat)
    requires k < |fs| && FromFormat(s, fs[k]).Some?
    requires forall j :: 0 <= j < k ==> FromFormat(s, fs[j]).None?
    ensures FirstSuccess(s, fs) == FromFormat(s, fs[k])
    decreases k
  {
    if k > 0 {
      assert forall j :: 0 <= j < k - 1 ==> fs[1..][j] == fs[j + 1];
      FirstSuccessWins(s, fs[1..], k - 1);
    }
  }

  /** On a date written as `YYYY-MM-DD` (years 0 to 9999) every format reads
      the time part on that very date; other years never match `yyyy`. */
  lemma {:induction false} FromFormatOnDate(d: Date, t: string, f: TimeFormat)
    requires ValidDate(d)
    ensures 0 <= d.year <= 9999 ==> FromFormat(FormatIsoDate(d) + " " + t, f) == ClockOn(d, t, f)
    ensures !(0 <= d.year <= 9999) ==> FromFormat(FormatIsoDate(d) + " " + t, f) == None
  {
    var s := FormatIsoDate(d) + " " + t;
    if 0 <= d.year <= 9999 {
      DigitsRoundTrip(d.year, 4);
      DigitsRoundTrip(d.month, 2);
      DigitsRoundTrip(d.day, 2);
      assert s[..4] == Digits(d.year, 4);
      assert s[5..7] == Digits(d.month, 2);
      assert s[8..10] == Digits(d.day, 2);
      assert s[11..] == t;
    } else {
      assert s[0] == '+' || s[0] == '-';
      assert !IsDigit(s[..4][0]);
    }
  }

  /** A format with a two-digit hour reads nothing its one-or-two-digit twin
      does not read the same way. */
  lemma PaddedHourSubsumed(s: string, f: TimeFormat)
    requires f.paddedHour
    ensures FromFormat(s, f).Some? ==> FromFormat(s, f.(paddedHour := false)) == FromFormat(s, f)
  {
  }

  /** A format that reads nothing its predecessor does not read the same
      way can be dropped from the list without changing the result. */
  lemma SkipSubsumed(s: string, a: TimeFormat, b: TimeFormat, rest: seq<TimeFormat>)
    requires FromFormat(s, b).Some? ==> FromFormat(s, a) == FromFormat(s, b)
    ensures FirstSuccess(s, [a, b] + rest) == FirstSuccess(s, [a] + rest)
  {
    assert ([a, b] + rest)[1..] == [b] + rest;
    assert ([b] + rest)[1..] == rest;
    assert ([a] + rest)[1..] == rest;
  }

  /** `hh:mm a` and `HH:mm` never decide the result: whatever they read, an
      earlier format of the list has already read the same way. */
  lemma PaddedFormatsNeverWin(s: string)
    ensures FirstSuccess(s, Formats) == FirstSuccess(s, [HourMinuteMeridiem, HourMinute,
                                                         HourMinuteSecondMeridiem, PaddedHourMinuteSecond])
  {
    PaddedHourSubsumed(s, PaddedHourMinuteMeridiem);
    PaddedHourSubsumed(s, PaddedHourMinute);
    var tail := [HourMinuteSecondMeridiem, PaddedHourMinuteSecond];
    assert Formats == [HourMinuteMeridiem, PaddedHourMinuteMeridiem] + ([HourMinute, PaddedHourMinute] + tail);
    SkipSubsumed(s, HourMinuteMeridiem, PaddedHourMinuteMeridiem, [HourMinute, PaddedHourMinute] + tail);
    SkipSubsumed(s, HourMinute, PaddedHourMinute, tail);
    var mid := [HourMinuteMeridiem] + ([HourMinute, PaddedHourMinute] + tail);
    assert mid[1..] == [HourMinute, PaddedHourMinute] + tail;
    var short := [HourMinuteMeridiem, HourMinute, HourMinuteSecondMeridiem, PaddedHourMinuteSecond];
    assert short[1..] == [HourMinute] + tail;
  }

  // ---- Partner: writing a 12-hour time and reading it back ----

  /** An hour from 1 to 12 written without padding. */
  function HourText(h: nat): (s: string)
    requires 1 <= h <= 12
    ensures 1 <= |s| <= 2 && AllDigits(s) && DecimalValue(s) == h
  {
    assert Pow10(1) == 10 && Pow10(2) == 100;
    if h < 10 then (DigitsRoundTrip(h, 1); Digits(h, 1)) else (DigitsRoundTrip(h, 2); Digits(h, 2))
  }

  /** How `h:mm a` reads text of its own shape. */
  lemma MatchMeridiemShape(hs: string, mm: string, mer: string)
    requires 1 <= |hs| <= 2 && AllDigits(hs) && |mm| == 2 && AllDigits(mm) && MeridiemOf(mer).Some?
    ensures MatchClock(hs + ":" + mm + " " + mer, HourMinuteMeridiem)
         == Some(Clock(DecimalValue(hs), DecimalValue(mm), 0, MeridiemOf(mer)))
  {
    var s := hs + ":" + mm + " " + mer;
    var n := |hs|;
    assert |s| == n + 6;
    assert s[..n] == hs;
    assert s[n] == ':';
    assert s[n + 1..n + 3] == mm;
    assert s[n + 3] == ' ';
    assert s[n + 4..] == mer;
    Iso8601.DigitRunIs(s, 0, n);
    assert Iso8601.TwoDigitsAt(s, n + 1);
  }

  /** The hour on the 12-hour clock face. */
  function TwelveHour(hour: int): (h: int)
    requires 0 <= hour <= 23
    ensures 1 <= h <= 12
  {
    if hour == 0 then 12 else if hour <= 12 then hour else hour - 12
  }

  /** A time of day as `h:mm AM` / `h:mm PM`, the hour not padded. */
  function TwelveHourText(t: Time): (s: string)
    requires ValidTime(t)
  {
    HourText(TwelveHour(t.hour)) + ":" + Digits(t.minute, 2)
      + " " + (if t.hour < 12 then "AM" else "PM")
  }

  /** `h:mm a` reads back the clock-face fields of a 12-hour time. */
  lemma MatchTwelveHour(t: Time)
    requires ValidTime(t)
    ensures MatchClock(TwelveHourText(t), HourMinuteMeridiem)
         == Some(Clock(TwelveHour(t.hour), t.minute, 0, Some(t.hour >= 12)))
  {
    var mer := if t.hour < 12 then "AM" else "PM";
    DigitsRoundTrip(t.minute, 2);
    assert MeridiemOf(mer) == Some(t.hour >= 12);
    MatchMeridiemShape(HourText(TwelveHour(t.hour)), Digits(t.minute, 2), mer);
  }

  /** Every time of day on the minute, written on the 12-hour clock, is read
      back by the first format of the list as exactly that time. */
  lemma TwelveHourRoundTrip(d: Date, t: Time)
    requires ValidDate(d) && ValidTime(t) && t.second == 0 && t.millis == 0
    ensures ClockOn(d, TwelveHourText(t), HourMinuteMeridiem) == Some(DateTime(d, t))
  {
    MatchTwelveHour(t);
    assert ApplyMeridiem(TwelveHour(t.hour), Some(t.hour >= 12)) == t.hour;
  }

  /** 14:15 on the 12-hour clock is written `2:15 PM`. */
  lemma AfternoonText()
    ensures TwelveHourText(Time(14, 15, 0, 0)) == "2:15 PM"
  {
    assert Digits(15, 2) == "15" by { assert Digits(1, 1) == "1"; }
    assert HourText(2) == "2" by { assert Digits(2, 1) == "2"; }
    assert "2" + ":" + "15" + " " + "PM" == "2:15 PM";
  }

  /** `2:15 PM` reads as 14:15 under the first format, on any date. */
  lemma AfternoonExample(d: Date)
    requires ValidDate(d)
    ensures ClockOn(d, "2:15 PM", HourMinuteMeridiem) == Some(DateTime(d, Time(14, 15, 0, 0)))
  {
    AfternoonText();
    TwelveHourRoundTrip(d, Time(14, 15, 0, 0));
  }
}
