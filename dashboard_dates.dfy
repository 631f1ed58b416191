/** The dashboard's own, older copy of the appointment date-time helper and
    of the upcoming / recent pipelines (`PatientDashboard.js`). Unlike the
    shared helper, it leans entirely on the runtime's `new Date(string)`
    and works on time values: an invalid date is NaN, which every
    comparison rejects, so such a record falls out of both lists. */
module DashboardDates {
  import opened Wrappers
  import opened Calendar
  import opened Records
  import Sorting
  import AppointmentDates

  type Env = AppointmentDates.Env

  /** How a template literal writes a field: `${undefined}` is the text
      `undefined` and `${null}` the text `null`. */
  function TemplateText(f: Field): string {
    match f
    case Absent => "undefined"
    case Null => "null"
    case Text(s) => s
  }

  /** The `YYYY-MM-DD` part of `toISOString()` for a time value. */
  function IsoDatePart(ms: TimeValue): string {
    FormatIsoDate(UtcDateOfMillis(ms))
  }

  /** The local `getAppointmentDateTime`: None stands for an invalid date
      (NaN). The date is read by the runtime and its UTC calendar date
      combined with the time text, first joined by `T`, then by a space;
      when neither combination is a valid date the date's own time value
      is returned. `toISOString` throws on an invalid date, and the handler
      returns the same invalid date. */
  function DashboardDateTime(a: Appointment, env: Env): (r: Option<TimeValue>)
    ensures r.Some? <==> AppointmentDates.NewDate(a.date, env).Some?
  {
    match AppointmentDates.NewDate(a.date, env)
    case None => None
    case Some(ms) =>
      var datePart := IsoDatePart(ms);
      var withT := env.newDate(datePart + "T" + TemplateText(a.time));
      if withT.Some? then withT
      else
        var spaced := env.newDate(datePart + " " + TemplateText(a.time));
        if spaced.Some? then spaced else Some(ms)
  }

  /** Which attempt decides the result, in the fixed order: the `T` form,
      the spaced form, then the date's own value. */
  lemma DashboardStrategyOrder(a: Appointment, env: Env, ms: TimeValue)
    requires AppointmentDates.NewDate(a.date, env) == Some(ms)
    ensures var tForm := IsoDatePart(ms) + "T" + TemplateText(a.time);
      var spaced := IsoDatePart(ms) + " " + TemplateText(a.time);
      (env.newDate(tForm).Some? ==> DashboardDateTime(a, env) == env.newDate(tForm))
      && (env.newDate(tForm).None? && env.newDate(spaced).Some? ==> DashboardDateTime(a, env) == env.newDate(spaced))
      && (env.newDate(tForm).None? && env.newDate(spaced).None? ==> DashboardDateTime(a, env) == Some(ms))
  {
  }

  /** A missing date is an invalid date whatever the time says, and a null
      date is read as time value 0 (1970-01-01) rather than rejected. */
  lemma MissingAndNullDates(a: Appointment, env: Env)
    ensures a.date.Absent? ==> DashboardDateTime(a, env).None?
    ensures a.date.Null? ==> DashboardDateTime(a, env).Some?
  {
  }

  /** The final fallback is the date's own time value, not midnight of its
      day: when the runtime rejects both combinations, any time of day that
      the date text itself carries is kept. */
  lemma FallbackKeepsDateValue(a: Appointment, env: Env)
    requires AppointmentDates.NewDate(a.date, env).Some?
    requires var ms := AppointmentDates.NewDate(a.date, env).value;
      env.newDate(IsoDatePart(ms) + "T" + TemplateText(a.time)).None?
      && env.newDate(IsoDatePart(ms) + " " + TemplateText(a.time)).None?
    ensures DashboardDateTime(a, env) == AppointmentDates.NewDate(a.date, env)
  {
  }

  // ---- Upcoming and recent ----

  /** A record with its time value attached (`{ ...apt, _appointmentDateTime }`). */
  datatype Stamped = Stamped(appt: Appointment, at: Option<TimeValue>)

  function Stamp(appts: seq<Appointment>, env: Env): (r: seq<Stamped>)
    ensures |r| == |appts|
    ensures forall k :: 0 <= k < |r| ==> r[k] == Stamped(appts[k], DashboardDateTime(appts[k], env))
  {
    seq(|appts|, k requires 0 <= k < |appts| => Stamped(appts[k], DashboardDateTime(appts[k], env)))
  }

  function MillisOf(x: Stamped): int { if x.at.Some? then x.at.value else 0 }

  function NegMillisOf(x: Stamped): int { -MillisOf(x) }

  /** `apt._appointmentDateTime > now && apt.status !== 'Cancelled'`; NaN is never after now. */
  predicate IsAfter(now: TimeValue, x: Stamped) {
    x.at.Some? && x.at.value > now && x.appt.status != Cancelled
  }

  /** `apt._appointmentDateTime <= now`; NaN is never at or before now. */
  predicate IsNotAfter(now: TimeValue, x: Stamped) {
    x.at.Some? && x.at.value <= now
  }

  function AfterKeep(now: TimeValue): Stamped -> bool { x => IsAfter(now, x) }

  function NotAfterKeep(now: TimeValue): Stamped -> bool { x => IsNotAfter(now, x) }

  const UpcomingCount := 3
  const DefaultRecentLimit := 5

  /** The local `getUpcomingAppointments`: always at most three. */
  function DashboardUpcoming(appts: seq<Appointment>, now: TimeValue, env: Env): (r: seq<Stamped>)
    ensures forall k :: 0 <= k < |r| ==> IsAfter(now, r[k])
    ensures Sorting.SortedBy(r, MillisOf)
    ensures |r| <= UpcomingCount
  {
    Sorting.TopByShape(Stamp(appts, env), AfterKeep(now), MillisOf, UpcomingCount);
    Sorting.TopBy(Stamp(appts, env), AfterKeep(now), MillisOf, UpcomingCount)
  }

  /** The local `getRecentAppointments(limit = 5)`. */
  function DashboardRecent(appts: seq<Appointment>, now: TimeValue, env: Env, limit: Option<int>): (r: seq<Stamped>)
    ensures forall k :: 0 <= k < |r| ==> IsNotAfter(now, r[k])
    ensures Sorting.SortedBy(r, NegMillisOf)
    ensures limit.GetOr(DefaultRecentLimit) >= 0 ==> |r| <= limit.GetOr(DefaultRecentLimit)
  {
    Sorting.TopByShape(Stamp(appts, env), NotAfterKeep(now), NegMillisOf, limit.GetOr(DefaultRecentLimit));
    Sorting.TopBy(Stamp(appts, env), NotAfterKeep(now), NegMillisOf, limit.GetOr(DefaultRecentLimit))
  }

  /** Every local upcoming entry is an input record with its own time value,
      after now and not cancelled; the list is earliest first and holds at
      most three entries. */
  lemma DashboardUpcomingShape(appts: seq<Appointment>, now: TimeValue, env: Env)
    ensures var r := DashboardUpcoming(appts, now, env);
      (forall k :: 0 <= k < |r| ==>
         r[k].appt in appts && r[k].at == DashboardDateTime(r[k].appt, env)
         && r[k].at.Some? && r[k].at.value > now && r[k].appt.status != Cancelled)
      && (forall i, j :: 0 <= i < j < |r| ==> r[i].at.value <= r[j].at.value)
      && |r| <= 3
  {
    var all := Stamp(appts, env);
    Sorting.TopByShape(all, AfterKeep(now), MillisOf, UpcomingCount);
    var r := DashboardUpcoming(appts, now, env);
    forall k | 0 <= k < |r|
      ensures r[k].appt in appts && r[k].at == DashboardDateTime(r[k].appt, env)
    {
      var i :| 0 <= i < |all| && all[i] == r[k];
    }
  }

  /** Every local recent entry is an input record with its own time value,
      not after now; the list is latest first and holds at most `limit`
      entries (5 by default). */
  lemma DashboardRecentShape(appts: seq<Appointment>, now: TimeValue, env: Env, limit: Option<int>)
    ensures var r := DashboardRecent(appts, now, env, limit);
      (forall k :: 0 <= k < |r| ==>
         r[k].appt in appts && r[k].at == DashboardDateTime(r[k].appt, env)
         && r[k].at.Some? && r[k].at.value <= now)
      && (forall i, j :: 0 <= i < j < |r| ==> r[i].at.value >= r[j].at.value)
      && |r| <= (if limit.Some? && limit.value >= 0 then limit.value else if limit.None? then 5 else |r|)
  {
    var all := Stamp(appts, env);
    Sorting.TopByShape(all, NotAfterKeep(now), NegMillisOf, limit.GetOr(DefaultRecentLimit));
    var r := DashboardRecent(appts, now, env, limit);
    forall k | 0 <= k < |r|
      ensures r[k].appt in appts && r[k].at == DashboardDateTime(r[k].appt, env)
    {
      var i :| 0 <= i < |all| && all[i] == r[k];
    }
  }

  /** For the same now the two lists share no entry, and a record whose date
      the runtime cannot read is in neither. */
  lemma DashboardListsDisjoint(appts: seq<Appointment>, now: TimeValue, env: Env, limit: Option<int>)
    ensures var up := DashboardUpcoming(appts, now, env);
      var re := DashboardRecent(appts, now, env, limit);
      (forall x :: x in up ==> x !in re)
      && (forall a :: a in appts && AppointmentDates.NewDate(a.date, env).None? ==>
            (forall x :: x in up ==> x.appt != a) && (forall x :: x in re ==> x.appt != a))
  {
    DashboardUpcomingShape(appts, now, env);
    DashboardRecentShape(appts, now, env, limit);
  }

  /** The three upcoming entries are the earliest: nothing the cut drops
      comes before anything kept. */
  lemma DashboardUpcomingKeepsEarliest(appts: seq<Appointment>, now: TimeValue, env: Env)
    ensures var all := Sorting.Filter(Stamp(appts, env), AfterKeep(now));
      var sorted := Sorting.SortBy(all, MillisOf);
      var r := DashboardUpcoming(appts, now, env);
      multiset(r) + multiset(sorted[|r|..]) == multiset(all)
      && forall i, j :: 0 <= i < |r| && |r| <= j < |sorted| ==> MillisOf(r[i]) <= MillisOf(sorted[j])
  {
    Sorting.TopByComplete(Stamp(appts, env), AfterKeep(now), MillisOf, UpcomingCount);
  }
}
