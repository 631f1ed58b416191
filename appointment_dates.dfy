/** The shared appointment date-time helper (`appointmentDateUtils.js`):
    turning a record's loosely formatted `date` and free-text `time` into
    one local date-time, and the upcoming / recent pipelines built on it.

    The JavaScript runtime enters through `Env`: `new Date(string)` is an
    uninterpreted function from text to a time value (None for an invalid
    date), and the viewer's zone is a fixed offset in minutes east of UTC.
    "Now" is a parameter. Date-times are the viewer's wall-clock fields;
    with one fixed offset, their order (`Calendar.Key`) is the order of the
    instants they denote. */
module AppointmentDates {
  import opened Wrappers
  import opened JsText
  import opened Calendar
  import opened Records
  import Iso8601
  import Rfc2822
  import TimeFormats
  import Sorting

  datatype Env = Env(newDate: string -> Option<TimeValue>, localOffset: int)

  /** `new Date(field)`: `undefined` is an invalid date, `null` is time 0,
      and a string goes to the runtime's parser. */
  function NewDate(f: Field, env: Env): (r: Option<TimeValue>)
    ensures f.Absent? ==> r.None?
    ensures f.Null? ==> r == Some(0)
  {
    match f
    case Absent => None
    case Null => Some(0)
    case Text(s) => env.newDate(s)
  }

  /** The calendar date of the `date` field: as an ISO 8601 date or
      date-time read in UTC, else as an RFC 2822 date-time read in UTC,
      else as the UTC date of `new Date(date)`. A missing or null field
      reads as an invalid ISO date-time, and the RFC 2822 step then throws
      on it; the error is caught and ignored, so only `new Date` remains. */
  function DateOf(date: Field, env: Env): (r: Option<Date>)
    ensures r.Some? ==> ValidDate(r.value)
  {
    var luxon :=
      if !date.Text? then None
      else if Iso8601.UtcDate(date.s).Some? then Iso8601.UtcDate(date.s)
      else Rfc2822.UtcDate(date.s);
    if luxon.Some? then luxon
    else match NewDate(date, env)
      case None => None
      case Some(ms) => Some(UtcDateOfMillis(ms))
  }

  /** The time text: the trimmed `time` when it is a non-empty string,
      `00:00` otherwise. */
  function TimeText(time: Field): (t: string)
    ensures !time.Truthy() ==> t == "00:00"
    ensures time.Truthy() ==> t == Trim(time.s)
  {
    if time.Truthy() then Trim(time.s) else "00:00"
  }

  /** The date and the time text combined: first as an ISO 8601 date-time
      read in the viewer's zone, then under the first format of the list
      that reads `YYYY-MM-DD t`, then as `new Date('YYYY-MM-DD t')`. */
  function Combine(d: Date, t: string, env: Env): (r: Option<DateTime>)
    requires ValidDate(d)
    ensures r.Some? ==> ValidDateTime(r.value)
  {
    var iso := Iso8601.LocalDateTime(d, t, env.localOffset);
    if iso.Some? then iso
    else
      var spaced := FormatIsoDate(d) + " " + t;
      var formatted := TimeFormats.FirstSuccess(spaced, TimeFormats.Formats);
      if formatted.Some? then formatted
      else match env.newDate(spaced)
        case None => None
        case Some(ms) => Some(LocalOfMillis(ms, env.localOffset))
  }

  /** `getAppointmentDateTime`: None for a missing record or a date no
      strategy reads. */
  function GetAppointmentDateTime(appt: Option<Appointment>, env: Env): (r: Option<DateTime>)
    ensures r.Some? ==> ValidDateTime(r.value)
    ensures r.Some? ==> appt.Some? && DateOf(appt.value.date, env).Some?
  {
    match appt
    case None => None
    case Some(a) =>
      match DateOf(a.date, env)
      case None => None
      case Some(d) => Combine(d, TimeText(a.time), env)
  }

  // ---- The date strategies ----

  /** The strategies are tried in their fixed order, and a date none of
      them reads makes the whole result null rather than a default date. */
  lemma DateStrategyOrder(s: string, env: Env)
    ensures Iso8601.UtcDate(s).Some? ==> DateOf(Text(s), env) == Iso8601.UtcDate(s)
    ensures Iso8601.UtcDate(s).None? && Rfc2822.UtcDate(s).Some? ==> DateOf(Text(s), env) == Rfc2822.UtcDate(s)
    ensures Iso8601.UtcDate(s).None? && Rfc2822.UtcDate(s).None? && env.newDate(s).None? ==>
      DateOf(Text(s), env).None?
    ensures Iso8601.UtcDate(s).None? && Rfc2822.UtcDate(s).None? && env.newDate(s).Some? ==>
      DateOf(Text(s), env) == Some(UtcDateOfMillis(env.newDate(s).value))
  {
    assert NewDate(Text(s), env) == env.newDate(s);
  }

  /** A date that no strategy reads makes the result null rather than a default date. */
  lemma UnreadDateIsNull(a: Appointment, env: Env)
    requires a.date.Text? && Iso8601.UtcDate(a.date.s).None? && Rfc2822.UtcDate(a.date.s).None?
    requires env.newDate(a.date.s).None?
    ensures GetAppointmentDateTime(Some(a), env).None?
  {
    DateStrategyOrder(a.date.s, env);
    assert a.date == Text(a.date.s);
  }

  /** A missing date is never read, since `new Date(undefined)` is invalid. */
  lemma MissingDateIsNull(a: Appointment, env: Env)
    requires a.date.Absent?
    ensures GetAppointmentDateTime(Some(a), env).None?
  {
  }

  /** A date written as `YYYY-MM-DD` is always read as itself, whatever the runtime does. */
  lemma IsoDateIsRead(d: Date, env: Env)
    requires ValidDate(d) && 0 <= d.year <= 9999
    ensures DateOf(Text(FormatIsoDate(d)), env) == Some(d)
  {
    Iso8601.IsoDateRoundTrip(d);
  }

  // ---- The time strategies ----

  lemma {:induction false} MidnightText()
    ensures Iso8601.FormatHourMinute(Midnight) == "00:00"
  {
    assert Digits(0, 2) == "00" by { assert Digits(0, 1) == "0"; }
  }

  /** A missing, null or empty `time` gives midnight of the date. */
  lemma MidnightDefault(a: Appointment, env: Env)
    requires !a.time.Truthy() && DateOf(a.date, env).Some?
    ensures GetAppointmentDateTime(Some(a), env) == Some(DateTime(DateOf(a.date, env).value, Midnight))
  {
    MidnightText();
    Iso8601.HourMinuteRoundTrip(DateOf(a.date, env).value, Midnight, env.localOffset);
  }

  lemma TrimTwice(s: string)
    ensures Trim(Trim(s)) == Trim(s)
  {
    var t := Trim(s);
    assert TrimStart(t) == t;
    assert TrimEnd(t) == t;
  }

  /** White space around a time is ignored: a time reads as its trimmed self. */
  lemma TimeIsTrimmed(a: Appointment, env: Env)
    requires a.time.Truthy() && Trim(a.time.s) != ""
    ensures GetAppointmentDateTime(Some(a), env)
         == GetAppointmentDateTime(Some(a.(time := Text(Trim(a.time.s)))), env)
  {
    TrimTwice(a.time.s);
    var b := a.(time := Text(Trim(a.time.s)));
    assert TimeText(b.time) == TimeText(a.time);
    SameTimeTextSameResult(a, b, env);
  }

  /** The result depends on the record's date and its time text only. */
  lemma SameTimeTextSameResult(a: Appointment, b: Appointment, env: Env)
    requires a.date == b.date && TimeText(a.time) == TimeText(b.time)
    ensures GetAppointmentDateTime(Some(a), env) == GetAppointmentDateTime(Some(b), env)
  {
  }

  /** The first format of the list that reads the text decides the result
      once the ISO 8601 reading has failed. */
  lemma FirstFormatWins(d: Date, t: string, env: Env, k: nat)
    requires ValidDate(d) && k < |TimeFormats.Formats|
    requires Iso8601.LocalDateTime(d, t, env.localOffset).None?
    requires TimeFormats.FromFormat(FormatIsoDate(d) + " " + t, TimeFormats.Formats[k]).Some?
    requires forall j :: 0 <= j < k ==> TimeFormats.FromFormat(FormatIsoDate(d) + " " + t, TimeFormats.Formats[j]).None?
    ensures Combine(d, t, env) == TimeFormats.FromFormat(FormatIsoDate(d) + " " + t, TimeFormats.Formats[k])
  {
    TimeFormats.FirstSuccessWins(FormatIsoDate(d) + " " + t, TimeFormats.Formats, k);
  }

  /** Whatever `HH:mm` or `HH:mm:ss` reads, the ISO 8601 step has already
      read the same way. */
  lemma IsoCoversPaddedFormat(d: Date, t: string, offset: int, f: TimeFormats.TimeFormat)
    requires ValidDate(d)
    requires f == TimeFormats.PaddedHourMinute || f == TimeFormats.PaddedHourMinuteSecond
    requires TimeFormats.ClockOn(d, t, f).Some?
    ensures Iso8601.LocalDateTime(d, t, offset) == TimeFormats.ClockOn(d, t, f)
  {
    assert Iso8601.DigitRun(t, 0) == 2;
    assert Iso8601.TwoDigitsAt(t, 0);
    assert Iso8601.SkipColon(t, 2) == 3;
    var c := TimeFormats.MatchClock(t, f).value;
    if f == TimeFormats.PaddedHourMinute {
      assert |t| == 5;
      assert Iso8601.TimeBase(t) == Some((Iso8601.TimeFields(c.hour, c.minute, 0, 0), 5));
    } else {
      assert |t| == 8;
      assert Iso8601.SkipColon(t, 5) == 6;
      assert Iso8601.TimeBase(t) == Some((Iso8601.TimeFields(c.hour, c.minute, c.second, 0), 8));
    }
    assert t[|t|..] == [];
  }

  /** Only `h:mm a`, `H:mm` and `h:mm:ss a` ever decide a result: `hh:mm a`
      reads nothing `h:mm a` does not, and `HH:mm` and `HH:mm:ss` read
      nothing the ISO 8601 step does not. */
  lemma EffectiveFormats(d: Date, t: string, env: Env)
    requires ValidDate(d)
    ensures var spaced := FormatIsoDate(d) + " " + t;
      Iso8601.LocalDateTime(d, t, env.localOffset).None? ==>
        TimeFormats.FirstSuccess(spaced, TimeFormats.Formats)
        == TimeFormats.FirstSuccess(spaced, [TimeFormats.HourMinuteMeridiem, TimeFormats.HourMinute,
                                             TimeFormats.HourMinuteSecondMeridiem])
  {
    var spaced := FormatIsoDate(d) + " " + t;
    if Iso8601.LocalDateTime(d, t, env.localOffset).None? {
      TimeFormats.PaddedFormatsNeverWin(spaced);
      PaddedSecondsUnread(d, t, env.localOffset);
      var three := [TimeFormats.HourMinuteMeridiem, TimeFormats.HourMinute, TimeFormats.HourMinuteSecondMeridiem];
      assert [TimeFormats.HourMinuteMeridiem, TimeFormats.HourMinute, TimeFormats.HourMinuteSecondMeridiem,
              TimeFormats.PaddedHourMinuteSecond] == three + [TimeFormats.PaddedHourMinuteSecond];
      LastFormatNone(spaced, three, TimeFormats.PaddedHourMinuteSecond);
    }
  }

  /** Once the ISO 8601 step has failed, `HH:mm:ss` reads nothing either. */
  lemma PaddedSecondsUnread(d: Date, t: string, offset: int)
    requires ValidDate(d) && Iso8601.LocalDateTime(d, t, offset).None?
    ensures TimeFormats.FromFormat(FormatIsoDate(d) + " " + t, TimeFormats.PaddedHourMinuteSecond).None?
  {
    TimeFormats.FromFormatOnDate(d, t, TimeFormats.PaddedHourMinuteSecond);
    if TimeFormats.ClockOn(d, t, TimeFormats.PaddedHourMinuteSecond).Some? {
      IsoCoversPaddedFormat(d, t, offset, TimeFormats.PaddedHourMinuteSecond);
    }
  }

  lemma {:induction false} LastFormatNone(s: string, fs: seq<TimeFormats.TimeFormat>, last: TimeFormats.TimeFormat)
    requires TimeFormats.FromFormat(s, last).None?
    ensures TimeFormats.FirstSuccess(s, fs + [last]) == TimeFormats.FirstSuccess(s, fs)
    decreases |fs|
  {
    if fs == [] {
      assert ([last])[1..] == [];
    } else {
      assert (fs + [last])[1..] == fs[1..] + [last];
      LastFormatNone(s, fs[1..], last);
    }
  }

  // ---- The examples of the test suite ----

  lemma {:induction false} SampleDateText()
    ensures FormatIsoDate(Date(2025, 10, 24)) == "2025-10-24"
  {
    SampleYearText();
    SampleMonthDayText();
  }

  lemma {:induction false} SampleYearText()
    ensures Digits(2025, 4) == "2025"
  {
    assert Digits(20, 2) == "20" by { assert Digits(2, 1) == "2"; }
    assert Digits(202, 3) == "202";
  }

  lemma {:induction false} SampleMonthDayText()
    ensures Digits(10, 2) == "10" && Digits(24, 2) == "24"
  {
    assert Digits(1, 1) == "1";
    assert Digits(2, 1) == "2";
  }

  /** The date part of `YYYY-MM-DD` followed by anything is read greedily as the date. */
  lemma {:induction false} IsoDatePrefix(d: Date, rest: string)
    requires ValidDate(d) && 0 <= d.year <= 9999
    ensures Iso8601.DateBase(FormatIsoDate(d) + rest) == Some((d.year, d.month, d.day, 10))
  {
    var s := FormatIsoDate(d) + rest;
    DigitsRoundTrip(d.year, 4);
    DigitsRoundTrip(d.month, 2);
    DigitsRoundTrip(d.day, 2);
    assert s[..4] == Digits(d.year, 4);
    assert s[5..7] == Digits(d.month, 2);
    assert s[8..10] == Digits(d.day, 2);
  }

  lemma {:induction false} UtcMidnightTime()
    ensures Iso8601.TimePart("00:00:00.000Z") == Some((Iso8601.TimeFields(0, 0, 0, 0), Some(0)))
  {
    var tail := "00:00:00.000Z";
    assert tail[..2] == "00" && tail[3..5] == "00" && tail[6..8] == "00" && tail[9..12] == "000";
    Iso8601.FullClockRead(tail);
    ZeroDigitsValue();
    assert tail[12..] == "Z";
  }

  lemma ZeroDigitsValue()
    ensures DecimalValue("00") == 0 && Iso8601.FractionMillis("000") == 0
  {
    assert "00"[..1] == "0";
    assert "000"[..2] == "00";
    assert "000"[..3] == "000";
  }

  /** A date written `YYYY-MM-DDT00:00:00.000Z` is read as that date. */
  lemma {:induction false} UtcMidnightIsRead(d: Date)
    requires ValidDate(d) && 0 <= d.year <= 9999
    ensures Iso8601.UtcDate(FormatIsoDate(d) + "T" + "00:00:00.000Z") == Some(d)
  {
    var tail := "00:00:00.000Z";
    var s := FormatIsoDate(d) + "T" + tail;
    IsoDatePrefix(d, "T" + tail);
    assert s == FormatIsoDate(d) + ("T" + tail);
    UtcMidnightTime();
    assert s[10] == 'T' && s[11..] == tail;
    var dt := DateTime(d, Midnight);
    AddZeroMinutes(dt);
  }

  lemma SampleUtcText()
    ensures "2025-10-24T00:00:00.000Z" == FormatIsoDate(Date(2025, 10, 24)) + "T" + "00:00:00.000Z"
  {
    SampleDateText();
  }

  lemma SampleUtcDateText()
    ensures Iso8601.UtcDate("2025-10-24T00:00:00.000Z") == Some(Date(2025, 10, 24))
  {
    SampleUtcText();
    UtcMidnightIsRead(Date(2025, 10, 24));
  }

  lemma SampleUtcDateIsRead(env: Env)
    ensures DateOf(Text("2025-10-24T00:00:00.000Z"), env) == Some(Date(2025, 10, 24))
  {
    SampleUtcDateText();
    DateStrategyOrder("2025-10-24T00:00:00.000Z", env);
  }

  /** `{ date: '2025-10-24T00:00:00.000Z', time: '14:30' }` reads as 14:30
      on 24 October 2025, through the ISO 8601 step. */
  lemma UtcDateWithClockTime(a: Appointment, env: Env)
    requires a.date == Text("2025-10-24T00:00:00.000Z") && a.time == Text("14:30")
    ensures GetAppointmentDateTime(Some(a), env) == Some(DateTime(Date(2025, 10, 24), Time(14, 30, 0, 0)))
  {
    SampleUtcDateIsRead(env);
    SampleClockText();
    HourMinuteTimeIsRead(a, env, Time(14, 30, 0, 0));
  }

  lemma {:induction false} SampleClockText()
    ensures Iso8601.FormatHourMinute(Time(14, 30, 0, 0)) == "14:30"
  {
    assert Digits(14, 2) == "14" by { assert Digits(1, 1) == "1"; }
    assert Digits(30, 2) == "30" by { assert Digits(3, 1) == "3"; }
  }

  /** A time written `HH:mm` is read as exactly that wall-clock time on the record's date. */
  lemma HourMinuteTimeIsRead(a: Appointment, env: Env, t: Time)
    requires DateOf(a.date, env).Some? && ValidTime(t) && t.second == 0 && t.millis == 0
    requires a.time == Text(Iso8601.FormatHourMinute(t))
    ensures GetAppointmentDateTime(Some(a), env) == Some(DateTime(DateOf(a.date, env).value, t))
  {
    ClockTextTrimmed(t);
    Iso8601.HourMinuteRoundTrip(DateOf(a.date, env).value, t, env.localOffset);
  }

  /** `HH:mm` has no white space to trim. */
  lemma ClockTextTrimmed(t: Time)
    requires ValidTime(t)
    ensures Trim(Iso8601.FormatHourMinute(t)) == Iso8601.FormatHourMinute(t)
  {
    var s := Iso8601.FormatHourMinute(t);
    assert s[0] == Digits(t.hour, 2)[0] && s[4] == Digits(t.minute, 2)[1];
    TrimUnchanged(s);
  }

  /** `{ date: '2025-10-24', time: '2:15 PM' }` reads as 14:15 on that day:
      the ISO 8601 step rejects the one-digit hour and `h:mm a`, the first
      format, reads it. */
  lemma DateWithMeridiemTime(a: Appointment, env: Env)
    requires a.date == Text("2025-10-24") && a.time == Text("2:15 PM")
    ensures GetAppointmentDateTime(Some(a), env) == Some(DateTime(Date(2025, 10, 24), Time(14, 15, 0, 0)))
  {
    SampleDateIsRead(env);
    var t := "2:15 PM";
    TrimUnchanged(t);
    assert TimeText(a.time) == t;
    MeridiemCombine(env);
  }

  lemma SampleDateIsRead(env: Env)
    ensures DateOf(Text("2025-10-24"), env) == Some(Date(2025, 10, 24))
  {
    SampleDateText();
    IsoDateIsRead(Date(2025, 10, 24), env);
  }

  /** `2:15 PM` on 24 October 2025 is read by `h:mm a` once the ISO 8601
      step has rejected it. */
  lemma MeridiemCombine(env: Env)
    ensures Combine(Date(2025, 10, 24), "2:15 PM", env) == Some(DateTime(Date(2025, 10, 24), Time(14, 15, 0, 0)))
  {
    var d := Date(2025, 10, 24);
    var t := "2:15 PM";
    assert !IsDigit(t[..2][1]);
    Iso8601.SingleDigitHourRejected(d, t, env.localOffset);
    TimeFormats.AfternoonExample(d);
    TimeFormats.FromFormatOnDate(d, t, TimeFormats.HourMinuteMeridiem);
    FirstFormatWins(d, t, env, 0);
  }

  // ---- Upcoming and recent ----

  /** A record with the date-time computed for it (`{ ...a, _dt }`). */
  datatype Dated = Dated(appt: Appointment, dt: Option<DateTime>)

  function Annotate(appts: seq<Appointment>, env: Env): (r: seq<Dated>)
    ensures |r| == |appts|
    ensures forall k :: 0 <= k < |r| ==> r[k] == Dated(appts[k], GetAppointmentDateTime(Some(appts[k]), env))
  {
    seq(|appts|, k requires 0 <= k < |appts| => Dated(appts[k], GetAppointmentDateTime(Some(appts[k]), env)))
  }

  function KeyOf(x: Dated): int { if x.dt.Some? then Key(x.dt.value) else 0 }

  function NegKeyOf(x: Dated): int { -KeyOf(x) }

  predicate IsUpcoming(now: DateTime, x: Dated) {
    x.dt.Some? && Key(x.dt.value) > Key(now) && x.appt.status != Cancelled
  }

  predicate IsRecent(now: DateTime, x: Dated) {
    x.dt.Some? && Key(x.dt.value) <= Key(now)
  }

  function UpcomingKeep(now: DateTime): Dated -> bool { x => IsUpcoming(now, x) }

  function RecentKeep(now: DateTime): Dated -> bool { x => IsRecent(now, x) }

  const DefaultUpcomingLimit := 3
  const DefaultRecentLimit := 5

  /** `getUpcomingAppointments(appts, { limit })`: dated records after now
      and not cancelled, earliest first, at most `limit` (3 when absent). */
  function Upcoming(appts: seq<Appointment>, now: DateTime, env: Env, limit: Option<int>): (r: seq<Dated>)
    ensures forall k :: 0 <= k < |r| ==> IsUpcoming(now, r[k])
    ensures Sorting.SortedBy(r, KeyOf)
    ensures limit.GetOr(DefaultUpcomingLimit) >= 0 ==> |r| <= limit.GetOr(DefaultUpcomingLimit)
  {
    Sorting.TopByShape(Annotate(appts, env), UpcomingKeep(now), KeyOf, limit.GetOr(DefaultUpcomingLimit));
    Sorting.TopBy(Annotate(appts, env), UpcomingKeep(now), KeyOf, limit.GetOr(DefaultUpcomingLimit))
  }

  /** `getRecentAppointments(appts, { limit })`: dated records not after
      now, latest first, at most `limit` (5 when absent). */
  function Recent(appts: seq<Appointment>, now: DateTime, env: Env, limit: Option<int>): (r: seq<Dated>)
    ensures forall k :: 0 <= k < |r| ==> IsRecent(now, r[k])
    ensures Sorting.SortedBy(r, NegKeyOf)
    ensures limit.GetOr(DefaultRecentLimit) >= 0 ==> |r| <= limit.GetOr(DefaultRecentLimit)
  {
    Sorting.TopByShape(Annotate(appts, env), RecentKeep(now), NegKeyOf, limit.GetOr(DefaultRecentLimit));
    Sorting.TopBy(Annotate(appts, env), RecentKeep(now), NegKeyOf, limit.GetOr(DefaultRecentLimit))
  }

  /** Every upcoming entry is an input record with its own date-time added,
      after now and not cancelled; the list is earliest first and holds at
      most `limit` entries (3 by default). */
  lemma UpcomingShape(appts: seq<Appointment>, now: DateTime, env: Env, limit: Option<int>)
    ensures var r := Upcoming(appts, now, env, limit);
      (forall k :: 0 <= k < |r| ==>
         r[k].appt in appts && r[k].dt == GetAppointmentDateTime(Some(r[k].appt), env)
         && r[k].dt.Some? && Key(r[k].dt.value) > Key(now) && r[k].appt.status != Cancelled)
      && (forall i, j :: 0 <= i < j < |r| ==> Key(r[i].dt.value) <= Key(r[j].dt.value))
      && |r| <= (if limit.Some? && limit.value >= 0 then limit.value else if limit.None? then 3 else |r|)
  {
    var all := Annotate(appts, env);
    var keep := UpcomingKeep(now);
    Sorting.TopByShape(all, keep, KeyOf, limit.GetOr(DefaultUpcomingLimit));
    var r := Upcoming(appts, now, env, limit);
    forall k | 0 <= k < |r|
      ensures r[k].appt in appts && r[k].dt == GetAppointmentDateTime(Some(r[k].appt), env)
    {
      var i :| 0 <= i < |all| && all[i] == r[k];
    }
  }

  /** Every recent entry is an input record with its own date-time added,
      not after now; the list is latest first and holds at most `limit`
      entries (5 by default). */
  lemma RecentShape(appts: seq<Appointment>, now: DateTime, env: Env, limit: Option<int>)
    ensures var r := Recent(appts, now, env, limit);
      (forall k :: 0 <= k < |r| ==>
         r[k].appt in appts && r[k].dt == GetAppointmentDateTime(Some(r[k].appt), env)
         && r[k].dt.Some? && Key(r[k].dt.value) <= Key(now))
      && (forall i, j :: 0 <= i < j < |r| ==> Key(r[i].dt.value) >= Key(r[j].dt.value))
      && |r| <= (if limit.Some? && limit.value >= 0 then limit.value else if limit.None? then 5 else |r|)
  {
    var all := Annotate(appts, env);
    var keep := RecentKeep(now);
    Sorting.TopByShape(all, keep, NegKeyOf, limit.GetOr(DefaultRecentLimit));
    var r := Recent(appts, now, env, limit);
    forall k | 0 <= k < |r|
      ensures r[k].appt in appts && r[k].dt == GetAppointmentDateTime(Some(r[k].appt), env)
    {
      var i :| 0 <= i < |all| && all[i] == r[k];
    }
  }

  /** For the same now, no entry is both upcoming and recent, and a record
      without a date-time is in neither list. */
  lemma UpcomingRecentDisjoint(appts: seq<Appointment>, now: DateTime, env: Env, l1: Option<int>, l2: Option<int>)
    ensures var up := Upcoming(appts, now, env, l1);
      var re := Recent(appts, now, env, l2);
      (forall x :: x in up ==> x !in re)
      && (forall a :: a in appts && GetAppointmentDateTime(Some(a), env).None? ==>
            (forall x :: x in up ==> x.appt != a) && (forall x :: x in re ==> x.appt != a))
  {
    UpcomingShape(appts, now, env, l1);
    RecentShape(appts, now, env, l2);
  }

  /** A record with a date-time after now that is not cancelled is listed as
      upcoming, with its date-time, whenever the limit leaves room for every
      upcoming record. */
  lemma UpcomingIncludes(appts: seq<Appointment>, now: DateTime, env: Env, limit: Option<int>, a: Appointment)
    requires a in appts && IsUpcoming(now, Dated(a, GetAppointmentDateTime(Some(a), env)))
    requires |Sorting.Filter(Annotate(appts, env), UpcomingKeep(now))| <= limit.GetOr(DefaultUpcomingLimit)
    ensures Dated(a, GetAppointmentDateTime(Some(a), env)) in Upcoming(appts, now, env, limit)
  {
    var x := Dated(a, GetAppointmentDateTime(Some(a), env));
    AnnotatedIn(appts, env, a);
    assert UpcomingKeep(now)(x);
    Sorting.TopByIncludes(Annotate(appts, env), UpcomingKeep(now), KeyOf, limit.GetOr(DefaultUpcomingLimit), x);
  }

  /** A record with a date-time at or before now is listed as recent, with
      its date-time, whenever the limit leaves room for every such record. */
  lemma RecentIncludes(appts: seq<Appointment>, now: DateTime, env: Env, limit: Option<int>, a: Appointment)
    requires a in appts && IsRecent(now, Dated(a, GetAppointmentDateTime(Some(a), env)))
    requires |Sorting.Filter(Annotate(appts, env), RecentKeep(now))| <= limit.GetOr(DefaultRecentLimit)
    ensures Dated(a, GetAppointmentDateTime(Some(a), env)) in Recent(appts, now, env, limit)
  {
    var x := Dated(a, GetAppointmentDateTime(Some(a), env));
    AnnotatedIn(appts, env, a);
    assert RecentKeep(now)(x);
    Sorting.TopByIncludes(Annotate(appts, env), RecentKeep(now), NegKeyOf, limit.GetOr(DefaultRecentLimit), x);
  }

  /** Every record appears in the annotated list with its own date-time. */
  lemma AnnotatedIn(appts: seq<Appointment>, env: Env, a: Appointment)
    requires a in appts
    ensures Dated(a, GetAppointmentDateTime(Some(a), env)) in Annotate(appts, env)
  {
    var i :| 0 <= i < |appts| && appts[i] == a;
    assert Annotate(appts, env)[i] == Dated(a, GetAppointmentDateTime(Some(a), env));
  }

  /** Nothing upcoming that the limit cuts off comes before anything kept:
      the kept entries and the dropped ones together are exactly the
      upcoming records, and every dropped one is no earlier than every kept one. */
  lemma UpcomingKeepsEarliest(appts: seq<Appointment>, now: DateTime, env: Env, limit: Option<int>)
    ensures var all := Sorting.Filter(Annotate(appts, env), UpcomingKeep(now));
      var sorted := Sorting.SortBy(all, KeyOf);
      var r := Upcoming(appts, now, env, limit);
      multiset(r) + multiset(sorted[|r|..]) == multiset(all)
      && forall i, j :: 0 <= i < |r| && |r| <= j < |sorted| ==> KeyOf(r[i]) <= KeyOf(sorted[j])
  {
    Sorting.TopByComplete(Annotate(appts, env), UpcomingKeep(now), KeyOf, limit.GetOr(DefaultUpcomingLimit));
  }
}
