/** The RFC 2822 date-time recogniser Luxon's `DateTime.fromRFC2822` applies
    (section 3.3 of RFC 2822): comments and tabs or line feeds are blanked,
    runs of white space collapse to one space, the ends are trimmed, and what
    is left must read `[Www, ]d Mon yyyy hh:mm[:ss] zone` exactly. */
module Rfc2822 {
  import opened Wrappers
  import opened JsText
  import opened Calendar
  import Iso8601

  // ---- Preprocessing ----

  /** Where a comment opened at `i - 1` closes: the first parenthesis from
      `i` on, provided it is a closing one. */
  function CommentClose(s: string, i: nat): (r: Option<nat>)
    requires i <= |s|
    ensures r.Some? ==> i <= r.value < |s| && s[r.value] == ')'
    ensures r.Some? ==> forall k :: i <= k < r.value ==> s[k] != '(' && s[k] != ')'
    decreases |s| - i
  {
    if i == |s| then None
    else if s[i] == ')' then Some(i)
    else if s[i] == '(' then None
    else CommentClose(s, i + 1)
  }

  /** `s.replace(/\([^()]*\)|[\n\t]/g, ' ')`. */
  function BlankComments(s: string): (r: string)
    decreases |s|
  {
    if s == [] then []
    else if s[0] == '\n' || s[0] == '\t' then " " + BlankComments(s[1..])
    else if s[0] == '(' && CommentClose(s, 1).Some? then " " + BlankComments(s[CommentClose(s, 1).value + 1..])
    else [s[0]] + BlankComments(s[1..])
  }

  /** Number of white-space characters in `s` from position `i`. */
  function SpaceRun(s: string, i: nat): (n: nat)
    requires i <= |s|
    ensures i + n <= |s|
    ensures forall k :: i <= k < i + n ==> IsJsWhitespace(s[k])
    decreases |s| - i
  {
    if i < |s| && IsJsWhitespace(s[i]) then 1 + SpaceRun(s, i + 1) else 0
  }

  /** `s.replace(/(\s\s+)/g, ' ')`: every run of two or more white-space
      characters becomes one space; a lone one is kept as it is. */
  function CollapseSpaces(s: string): (r: string)
    decreases |s|
  {
    if s == [] then []
    else if SpaceRun(s, 0) >= 2 then " " + CollapseSpaces(s[SpaceRun(s, 0)..])
    else [s[0]] + CollapseSpaces(s[1..])
  }

  function Preprocess(s: string): (r: string)
    ensures r == [] || (!IsJsWhitespace(r[0]) && !IsJsWhitespace(r[|r| - 1]))
  {
    Trim(CollapseSpaces(BlankComments(s)))
  }

  /** Text without comments, tabs or line feeds passes the first step unchanged. */
  lemma {:induction false} BlankCommentsIdentity(s: string)
    requires '(' !in s && '\n' !in s && '\t' !in s
    ensures BlankComments(s) == s
    decreases |s|
  {
    if s != [] {
      assert s[0] in s;
      BlankCommentsIdentity(s[1..]);
      assert s == [s[0]] + s[1..];
    }
  }

  predicate NoSpace(t: string) { forall k :: 0 <= k < |t| ==> !IsJsWhitespace(t[k]) }

  /** Text free of white space passes the second step unchanged, whatever follows it. */
  lemma {:induction false} CollapseSpacesAppend(a: string, b: string)
    requires NoSpace(a)
    ensures CollapseSpaces(a + b) == a + CollapseSpaces(b)
    decreases |a|
  {
    if a != [] {
      assert (a + b)[0] == a[0];
      assert SpaceRun(a + b, 0) == 0;
      assert (a + b)[1..] == a[1..] + b;
      assert CollapseSpaces(a + b) == [a[0]] + CollapseSpaces(a[1..] + b);
      assert NoSpace(a[1..]);
      CollapseSpacesAppend(a[1..], b);
      assert a == [a[0]] + a[1..];
    } else {
      assert a + b == b;
    }
  }

  /** The conditions under which a token passes preprocessing untouched. */
  predicate PlainToken(t: string) {
    |t| >= 1 && NoSpace(t) && '(' !in t && '\n' !in t && '\t' !in t
  }

  /** Plain tokens joined by single spaces hold no comment, tab or line
      feed, and begin and end with a token character. */
  lemma {:induction false} JoinShape(ts: seq<string>)
    requires |ts| >= 1
    requires forall k :: 0 <= k < |ts| ==> PlainToken(ts[k])
    ensures var s := Join(ts, ' ');
      |s| >= 1 && !IsJsWhitespace(s[0]) && !IsJsWhitespace(s[|s| - 1])
      && '(' !in s && '\n' !in s && '\t' !in s
    decreases |ts|
  {
    assert PlainToken(ts[0]);
    if |ts| > 1 {
      JoinShape(ts[1..]);
      assert PlainToken(ts[|ts| - 1]);
      var rest := Join(ts[1..], ' ');
      assert Join(ts, ' ') == ts[0] + ([' '] + rest);
    }
  }

  /** Plain tokens joined by single spaces pass the second step unchanged. */
  lemma {:induction false} CollapseJoin(ts: seq<string>)
    requires |ts| >= 1
    requires forall k :: 0 <= k < |ts| ==> PlainToken(ts[k])
    ensures CollapseSpaces(Join(ts, ' ')) == Join(ts, ' ')
    decreases |ts|
  {
    assert PlainToken(ts[0]);
    if |ts| > 1 {
      CollapseJoin(ts[1..]);
      JoinShape(ts[1..]);
      var rest := Join(ts[1..], ' ');
      assert Join(ts, ' ') == ts[0] + ([' '] + rest);
      CollapseSpacesAppend(ts[0], [' '] + rest);
      var t := [' '] + rest;
      assert t[1] == rest[0];
      assert SpaceRun(t, 1) == 0;
      assert SpaceRun(t, 0) == 1;
      assert t[1..] == rest;
    } else {
      CollapseSpacesAppend(ts[0], []);
      assert ts[0] + [] == ts[0];
    }
  }

  /** Plain tokens joined by single spaces are left unchanged by the whole preprocessing. */
  lemma PreprocessJoin(ts: seq<string>)
    requires |ts| >= 1
    requires forall k :: 0 <= k < |ts| ==> PlainToken(ts[k])
    ensures Preprocess(Join(ts, ' ')) == Join(ts, ' ')
  {
    JoinShape(ts);
    CollapseJoin(ts);
    PreprocessPlain(Join(ts, ' '));
  }

  /** Text with no comment, tab or line feed, no run of white space to
      collapse and nothing to trim is left unchanged by preprocessing. */
  lemma PreprocessPlain(s: string)
    requires |s| >= 1 && !IsJsWhitespace(s[0]) && !IsJsWhitespace(s[|s| - 1])
    requires '(' !in s && '\n' !in s && '\t' !in s && CollapseSpaces(s) == s
    ensures Preprocess(s) == s
  {
    BlankCommentsIdentity(s);
    TrimUnchanged(s);
  }

  // ---- The pattern ----

  const WeekdayNames: seq<string> := ["Mon", "Tue", "Wed", "Thu", "Fri", "Sat", "Sun"]
  const MonthNames: seq<string> :=
    ["Jan", "Feb", "Mar", "Apr", "May", "Jun", "Jul", "Aug", "Sep", "Oct", "Nov", "Dec"]

  /** Position of `name` in `names`, if it is there. */
  function IndexOf(names: seq<string>, name: string): (r: Option<nat>)
    ensures r.Some? ==> r.value < |names| && names[r.value] == name
    ensures r.None? ==> name !in names
  {
    if names == [] then None
    else if names[0] == name then Some(0)
    else match IndexOf(names[1..], name)
      case None => None
      case Some(k) => Some(k + 1)
  }

  /** The zone names Luxon reads by name. */
  const NamedZones: set<string> := {"GMT", "Z", "z", "EDT", "EST", "CDT", "CST", "MDT", "MST", "PDT", "PST"}

  /** The offset in minutes east of UTC named by a zone token: `GMT`, `Z`
      and `z` are UTC, the eight North American names of section 4.3 are
      their fixed offsets, and `+hhmm` / `-hhmm` is read as written. Luxon's
      table of obsolete zone names has no entry for `UT`, so a date-time in
      `UT` comes out invalid and is not read here. */
  function ZoneOffset(z: string): (r: Option<int>)
    ensures z == "GMT" || z == "Z" || z == "z" ==> r == Some(0)
    ensures z == "UT" ==> r.None?
    ensures r.Some? && |z| != 5 ==> z in NamedZones
  {
    if z == "GMT" || z == "Z" || z == "z" then Some(0)
    else if z == "EDT" then Some(-240)
    else if z == "EST" || z == "CDT" then Some(-300)
    else if z == "CST" || z == "MDT" then Some(-360)
    else if z == "MST" || z == "PDT" then Some(-420)
    else if z == "PST" then Some(-480)
    else if |z| == 5 && (z[0] == '+' || z[0] == '-') && AllDigits(z[1..]) then
      var minutes := DecimalValue(z[1..3]) * 60 + DecimalValue(z[3..]);
      Some(if z[0] == '-' then -minutes else minutes)
    else None
  }

  /** The fields of a matching date-time, before any range check. */
  datatype Fields = Fields(weekday: Option<nat>, day: int, month: int, year: int,
                           hour: int, minute: int, second: int, offset: int)

  predicate SpaceAt(s: string, i: nat) { i < |s| && IsJsWhitespace(s[i]) }

  /** Two-digit years are read as 1961 to 2060; three- and four-digit years as written. */
  function FullYear(digits: string): int
    requires AllDigits(digits)
  {
    var y := DecimalValue(digits);
    if |digits| == 2 then (if y > 60 then 1900 + y else 2000 + y) else y
  }

  /** The optional `Www,` and the white space after it: the weekday read
      (1 for Monday) and where the day starts. */
  function WeekdayPrefix(s: string): (r: (Option<nat>, nat))
    ensures r.1 <= |s|
    ensures r.0.Some? ==> 1 <= r.0.value <= 7 && r.1 == 5
  {
    if |s| >= 5 && IndexOf(WeekdayNames, s[..3]).Some? && s[3] == ',' && SpaceAt(s, 4)
    then (Some(IndexOf(WeekdayNames, s[..3]).value + 1), 5) else (None, 0)
  }

  /** `d Mon yyyy ` from position `i`: day, month (1 for January), full
      year, and where the time starts. */
  function DayMonthYear(s: string, i: nat): (r: Option<(int, int, int, nat)>)
    requires i <= |s|
    ensures r.Some? ==> r.value.3 <= |s|
    ensures r.Some? ==> 1 <= r.value.1 <= 12
  {
    var dayLen := Iso8601.DigitRun(s, i);
    if !(1 <= dayLen <= 2 && SpaceAt(s, i + dayLen)) then None
    else
      var m := i + dayLen + 1;
      if !(m + 3 < |s| && IndexOf(MonthNames, s[m..m + 3]).Some? && SpaceAt(s, m + 3)) then None
      else
        var y := m + 4;
        var yearLen := Iso8601.DigitRun(s, y);
        if !(2 <= yearLen <= 4 && SpaceAt(s, y + yearLen)) then None
        else Some((DecimalValue(s[i..i + dayLen]), IndexOf(MonthNames, s[m..m + 3]).value + 1,
                   FullYear(s[y..y + yearLen]), y + yearLen + 1))
  }

  /** A time of day with its zone, as matched. */
  datatype ClockZone = ClockZone(hour: int, minute: int, second: int, offset: int)

  /** `hh:mm[:ss] zone` from position `t` to the end. */
  function ClockAndZone(s: string, t: nat): (r: Option<ClockZone>)
    requires t <= |s|
  {
    if !(Iso8601.TwoDigitsAt(s, t) && t + 2 < |s| && s[t + 2] == ':' && Iso8601.TwoDigitsAt(s, t + 3)) then None
    else
      var hasSeconds := t + 5 < |s| && s[t + 5] == ':' && Iso8601.TwoDigitsAt(s, t + 6);
      var z := if hasSeconds then t + 8 else t + 5;
      if !SpaceAt(s, z) then None
      else
        match ZoneOffset(s[z + 1..])
        case None => None
        case Some(offset) =>
          Some(ClockZone(DecimalValue(s[t..t + 2]), DecimalValue(s[t + 3..t + 5]),
                         if hasSeconds then DecimalValue(s[t + 6..t + 8]) else 0, offset))
  }

  /** Match of the preprocessed text against the pattern, anchored at both ends. */
  function Match(s: string): (r: Option<Fields>)
    ensures r.Some? ==> r.value.weekday == WeekdayPrefix(s).0
    ensures r.Some? ==> 1 <= r.value.month <= 12
    ensures r.Some? && r.value.weekday.Some? ==> 1 <= r.value.weekday.value <= 7
  {
    var (weekday, i) := WeekdayPrefix(s);
    match DayMonthYear(s, i)
    case None => None
    case Some((day, month, year, t)) =>
      match ClockAndZone(s, t)
      case None => None
      case Some(c) => Some(Fields(weekday, day, month, year, c.hour, c.minute, c.second, c.offset))
  }

  /** The UTC calendar date of an RFC 2822 date-time, as
      `DateTime.fromRFC2822(s, { zone: 'utc' }).toISODate()` yields it. None
      when the text does not match, names an impossible date or time, or
      names a weekday the date does not fall on. */
  function UtcDate(s: string): (r: Option<Date>)
    ensures r.Some? ==> ValidDate(r.value)
  {
    match Match(Preprocess(s))
    case None => None
    case Some(f) => DateOfFields(f)
  }

  /** The date of matched fields: the calendar date must exist, the clock
      must normalise, a written weekday must agree, and the offset is then
      taken away. */
  function DateOfFields(f: Fields): (r: Option<Date>)
    ensures r.Some? ==> ValidDate(r.value)
  {
    var d := Date(f.year, f.month, f.day);
    if !ValidDate(d) then None
    else
      match Normalize(d, f.hour, f.minute, f.second, 0)
      case None => None
      case Some(local) =>
        if f.weekday.Some? && f.weekday.value != Weekday(local.date) then None
        else Some(AddMinutes(local, -f.offset).date)
  }

  // ---- Partner: writing an RFC 2822 date-time and reading it back ----

  /** The tokens of `Www, DD Mon YYYY hh:mm:ss +0000` for a date-time with
      a year from 1000 to 9999. */
  function FormatTokens(dt: DateTime): (ts: seq<string>)
    requires ValidDateTime(dt) && 1000 <= dt.date.year <= 9999
    ensures |ts| == 6
  {
    [WeekdayNames[Weekday(dt.date) - 1] + ",", Digits(dt.date.day, 2), MonthNames[dt.date.month - 1],
     Digits(dt.date.year, 4),
     Digits(dt.time.hour, 2) + ":" + Digits(dt.time.minute, 2) + ":" + Digits(dt.time.second, 2),
     "+0000"]
  }

  function Format(dt: DateTime): string
    requires ValidDateTime(dt) && 1000 <= dt.date.year <= 9999
  {
    Join(FormatTokens(dt), ' ')
  }

  /** Letters, digits, `,`, `:` and `+`: every character `Format` writes
      inside a token. */
  predicate TokenChar(c: char) {
    ('0' <= c <= '9') || ('A' <= c <= 'Z') || ('a' <= c <= 'z') || c == ',' || c == ':' || c == '+'
  }

  predicate TokenText(t: string) { forall k :: 0 <= k < |t| ==> TokenChar(t[k]) }

  lemma TokenTextPlain(t: string)
    requires |t| >= 1 && TokenText(t)
    ensures PlainToken(t)
  {
    assert forall k :: 0 <= k < |t| ==> !IsJsWhitespace(t[k]) && t[k] != '(' && t[k] != '\n' && t[k] != '\t';
  }

  lemma TokenTextAppend(a: string, b: string)
    requires TokenText(a) && TokenText(b)
    ensures TokenText(a + b)
  {
    assert forall k :: 0 <= k < |a + b| ==> (a + b)[k] == if k < |a| then a[k] else b[k - |a|];
  }

  lemma NamesAreTokens()
    ensures forall k :: 0 <= k < |WeekdayNames| ==> TokenText(WeekdayNames[k] + ",")
    ensures forall k :: 0 <= k < |MonthNames| ==> TokenText(MonthNames[k])
  {
  }

  lemma DigitsAreTokens(n: nat, w: nat)
    ensures TokenText(Digits(n, w))
  {
  }

  lemma FormatIsCanonical(dt: DateTime)
    requires ValidDateTime(dt) && 1000 <= dt.date.year <= 9999
    ensures Preprocess(Format(dt)) == Format(dt)
  {
    FormatTokensPlain(dt);
    PreprocessJoin(FormatTokens(dt));
  }

  /** Every token `Format` writes passes preprocessing untouched. */
  lemma FormatTokensPlain(dt: DateTime)
    requires ValidDateTime(dt) && 1000 <= dt.date.year <= 9999
    ensures forall k :: 0 <= k < |FormatTokens(dt)| ==> PlainToken(FormatTokens(dt)[k])
  {
    var ts := FormatTokens(dt);
    NamesAreTokens();
    DigitsAreTokens(dt.date.day, 2);
    DigitsAreTokens(dt.date.year, 4);
    DigitsAreTokens(dt.time.hour, 2);
    DigitsAreTokens(dt.time.minute, 2);
    DigitsAreTokens(dt.time.second, 2);
    ClockTokenText(Digits(dt.time.hour, 2), Digits(dt.time.minute, 2), Digits(dt.time.second, 2));
    forall k | 0 <= k < |ts| ensures PlainToken(ts[k]) {
      TokenTextPlain(ts[k]);
    }
  }

  /** `hh:mm:ss` built from token text is token text. */
  lemma ClockTokenText(hh: string, mm: string, ss: string)
    requires TokenText(hh) && TokenText(mm) && TokenText(ss)
    ensures TokenText(hh + ":" + mm + ":" + ss)
  {
    TokenTextAppend(hh, ":");
    TokenTextAppend(hh + ":", mm);
    TokenTextAppend(hh + ":" + mm, ":");
    TokenTextAppend(hh + ":" + mm + ":", ss);
  }

  /** The shape `Www, DD Mon YYYY hh:mm:ss +0000`, position by position. */
  predicate CanonicalLayout(s: string, wd: nat, mon: nat) {
    |s| == 31 && wd < |WeekdayNames| && mon < |MonthNames|
    && s[..3] == WeekdayNames[wd] && s[3] == ',' && s[4] == ' '
    && AllDigits(s[5..7]) && s[7] == ' '
    && s[8..11] == MonthNames[mon] && s[11] == ' '
    && AllDigits(s[12..16]) && s[16] == ' '
    && AllDigits(s[17..19]) && s[19] == ':' && AllDigits(s[20..22]) && s[22] == ':'
    && AllDigits(s[23..25]) && s[25] == ' ' && s[26..] == "+0000"
  }

  lemma NamesDistinct()
    ensures forall i, j :: 0 <= i < j < |WeekdayNames| ==> WeekdayNames[i] != WeekdayNames[j]
    ensures forall i, j :: 0 <= i < j < |MonthNames| ==> MonthNames[i] != MonthNames[j]
  {
  }

  lemma IndexOfDistinct(names: seq<string>, k: nat)
    requires k < |names|
    requires forall i, j :: 0 <= i < j < |names| ==> names[i] != names[j]
    ensures IndexOf(names, names[k]) == Some(k)
  {
    assert names[k] in names;
  }

  /** Each weekday name is found at its own position. */
  lemma WeekdayIndex(wd: nat)
    requires wd < |WeekdayNames|
    ensures IndexOf(WeekdayNames, WeekdayNames[wd]) == Some(wd)
  {
    NamesDistinct();
    IndexOfDistinct(WeekdayNames, wd);
  }

  /** Each month name is found at its own position. */
  lemma MonthIndex(mon: nat)
    requires mon < |MonthNames|
    ensures IndexOf(MonthNames, MonthNames[mon]) == Some(mon)
  {
    NamesDistinct();
    IndexOfDistinct(MonthNames, mon);
  }

  lemma WeekdayLayout(s: string, wd: nat, mon: nat)
    requires CanonicalLayout(s, wd, mon)
    ensures WeekdayPrefix(s) == (Some(wd + 1), 5)
  {
    WeekdayIndex(wd);
  }

  lemma DayMonthYearLayout(s: string, wd: nat, mon: nat)
    requires CanonicalLayout(s, wd, mon)
    ensures DayMonthYear(s, 5) == Some((DecimalValue(s[5..7]), mon + 1, FullYear(s[12..16]), 17))
  {
    MonthIndex(mon);
    assert IsDigit(s[5..7][0]) && IsDigit(s[5..7][1]);
    Iso8601.DigitRunIs(s, 5, 2);
    assert IsDigit(s[12..16][0]) && IsDigit(s[12..16][1]) && IsDigit(s[12..16][2]) && IsDigit(s[12..16][3]);
    Iso8601.DigitRunIs(s, 12, 4);
  }

  lemma ClockLayout(s: string, wd: nat, mon: nat)
    requires CanonicalLayout(s, wd, mon)
    ensures ClockAndZone(s, 17) == Some(ClockZone(DecimalValue(s[17..19]), DecimalValue(s[20..22]),
                                                  DecimalValue(s[23..25]), 0))
  {
    assert s[26..] == "+0000";
    UtcZone();
  }

  /** Text laid out as `Format` writes it matches the pattern with the fields it shows. */
  lemma MatchLayout(s: string, wd: nat, mon: nat)
    requires CanonicalLayout(s, wd, mon)
    ensures Match(s) == Some(Fields(Some(wd + 1), DecimalValue(s[5..7]), mon + 1, FullYear(s[12..16]),
                                    DecimalValue(s[17..19]), DecimalValue(s[20..22]),
                                    DecimalValue(s[23..25]), 0))
  {
    WeekdayLayout(s, wd, mon);
    DayMonthYearLayout(s, wd, mon);
    ClockLayout(s, wd, mon);
  }

  lemma UtcZone()
    ensures ZoneOffset("+0000") == Some(0)
  {
    var z := "+0000";
    assert AllDigits(z[1..]);
    assert z[1..3] == "00" && z[3..] == "00";
    assert "00"[..1] == "0";
    assert DecimalValue("0") == 0;
    assert DecimalValue("00") == 0;
  }

  /** One step of `Join`: the token at `k`, a space, then the rest. */
  lemma JoinStep(ts: seq<string>, k: nat)
    requires k + 1 < |ts|
    ensures Join(ts[k..], ' ') == ts[k] + [' '] + Join(ts[k + 1..], ' ')
  {
    assert ts[k..][1..] == ts[k + 1..];
  }

  /** Reading a token and the space after it from position `p`. */
  lemma CutAt(s: string, p: nat, a: string, rest: string)
    requires p <= |s| && s[p..] == a + [' '] + rest
    ensures p + |a| < |s| && s[p..p + |a|] == a && s[p + |a|] == ' ' && s[p + |a| + 1..] == rest
  {
    var u := s[p..];
    assert u[..|a|] == a && u[|a| + 1..] == rest;
    assert s[p..p + |a|] == u[..|a|];
    assert s[p + |a| + 1..] == u[|a| + 1..];
  }

  /** A part of a known piece of `s`. */
  lemma Within(s: string, p: nat, a: string, i: nat, j: nat)
    requires p + |a| <= |s| && s[p..p + |a|] == a && i <= j <= |a|
    ensures s[p + i..p + j] == a[i..j]
  {
    var u := s[p..p + |a|];
    assert forall k :: 0 <= k < j - i ==> s[p + i..p + j][k] == u[i..j][k];
  }

  /** Six tokens of the lengths `Format` writes, joined by spaces, sit at
      fixed positions. */
  lemma SixTokens(a: string, b: string, c: string, d: string, e: string, f: string)
    requires |a| == 4 && |b| == 2 && |c| == 3 && |d| == 4 && |e| == 8 && |f| == 5
    ensures var s := Join([a, b, c, d, e, f], ' ');
      |s| == 31 && s[..4] == a && s[4] == ' ' && s[5..7] == b && s[7] == ' '
      && s[8..11] == c && s[11] == ' ' && s[12..16] == d && s[16] == ' '
      && s[17..25] == e && s[25] == ' ' && s[26..] == f
  {
    var ts := [a, b, c, d, e, f];
    var s := Join(ts, ' ');
    assert ts[0..] == ts;
    JoinStep(ts, 0);
    CutAt(s, 0, a, Join(ts[1..], ' '));
    JoinStep(ts, 1);
    CutAt(s, 5, b, Join(ts[2..], ' '));
    JoinStep(ts, 2);
    CutAt(s, 8, c, Join(ts[3..], ' '));
    JoinStep(ts, 3);
    CutAt(s, 12, d, Join(ts[4..], ' '));
    JoinStep(ts, 4);
    CutAt(s, 17, e, Join(ts[5..], ' '));
    assert ts[5..] == [f];
  }

  /** The clock `hh:mm:ss` at a known place in `s`. */
  lemma ClockPieces(s: string, hh: string, mm: string, ss: string)
    requires |s| == 31 && |hh| == 2 && |mm| == 2 && |ss| == 2 && s[17..25] == hh + ":" + mm + ":" + ss
    ensures s[17..19] == hh && s[19] == ':' && s[20..22] == mm && s[22] == ':' && s[23..25] == ss
  {
    var clock := hh + ":" + mm + ":" + ss;
    assert clock[0..2] == hh && clock[2] == ':' && clock[3..5] == mm && clock[5] == ':' && clock[6..8] == ss;
    Within(s, 17, clock, 0, 2);
    Within(s, 17, clock, 3, 5);
    Within(s, 17, clock, 6, 8);
  }

  /** `Format` lays its text out as `CanonicalLayout` describes. */
  lemma FormatLayout(dt: DateTime)
    requires ValidDateTime(dt) && 1000 <= dt.date.year <= 9999
    ensures CanonicalLayout(Format(dt), Weekday(dt.date) - 1, dt.date.month - 1)
    ensures var s := Format(dt);
      s[5..7] == Digits(dt.date.day, 2) && s[12..16] == Digits(dt.date.year, 4)
      && s[17..19] == Digits(dt.time.hour, 2) && s[20..22] == Digits(dt.time.minute, 2)
      && s[23..25] == Digits(dt.time.second, 2)
  {
    var ts := FormatTokens(dt);
    var s := Format(dt);
    var w := WeekdayNames[Weekday(dt.date) - 1];
    var hh, mm, ss := Digits(dt.time.hour, 2), Digits(dt.time.minute, 2), Digits(dt.time.second, 2);
    assert |w| == 3 && |MonthNames[dt.date.month - 1]| == 3;
    assert ts == [ts[0], ts[1], ts[2], ts[3], ts[4], ts[5]];
    SixTokens(ts[0], ts[1], ts[2], ts[3], ts[4], ts[5]);
    Within(s, 0, ts[0], 0, 3);
    assert ts[0][..3] == w;
    ClockPieces(s, hh, mm, ss);
  }

  /** Reading a matched UTC date-time whose weekday is right yields its date. */
  lemma UtcDateOfFields(s: string, f: Fields, dt: DateTime)
    requires ValidDateTime(dt)
    requires Match(Preprocess(s)) == Some(f)
    requires f == Fields(Some(Weekday(dt.date)), dt.date.day, dt.date.month, dt.date.year,
                         dt.time.hour, dt.time.minute, dt.time.second, 0)
    ensures UtcDate(s) == Some(dt.date)
  {
    FieldsDate(f, dt);
  }

  /** Fields that spell out a valid UTC date-time with its own weekday give
      its date. */
  lemma FieldsDate(f: Fields, dt: DateTime)
    requires ValidDateTime(dt)
    requires f == Fields(Some(Weekday(dt.date)), dt.date.day, dt.date.month, dt.date.year,
                         dt.time.hour, dt.time.minute, dt.time.second, 0)
    ensures DateOfFields(f) == Some(dt.date)
  {
    var local := DateTime(dt.date, Time(dt.time.hour, dt.time.minute, dt.time.second, 0));
    assert Date(f.year, f.month, f.day) == dt.date;
    assert Normalize(dt.date, f.hour, f.minute, f.second, 0) == Some(local);
    AddZeroMinutes(local);
  }

  /** A date-time written in the RFC 2822 form with offset `+0000` is read
      back as its own date: the written weekday agrees, and no offset moves it. */
  lemma RoundTrip(dt: DateTime)
    requires ValidDateTime(dt) && 1000 <= dt.date.year <= 9999
    ensures UtcDate(Format(dt)) == Some(dt.date)
  {
    var s := Format(dt);
    FormatIsCanonical(dt);
    FormatLayout(dt);
    MatchLayout(s, Weekday(dt.date) - 1, dt.date.month - 1);
    DigitsRoundTrip(dt.date.day, 2);
    DigitsRoundTrip(dt.date.year, 4);
    DigitsRoundTrip(dt.time.hour, 2);
    DigitsRoundTrip(dt.time.minute, 2);
    DigitsRoundTrip(dt.time.second, 2);
    assert FullYear(s[12..16]) == dt.date.year;
    var f := Fields(Some(Weekday(dt.date)), dt.date.day, dt.date.month, dt.date.year,
                    dt.time.hour, dt.time.minute, dt.time.second, 0);
    assert Match(s) == Some(f);
    UtcDateOfFields(s, f, dt);
  }
}
