/** The patient dashboard's helpers (`PatientDashboard.js`): the status
    badge, the display fallbacks, the nested-path profile form setter, the
    profile save (validation and payload scrubbing) and the cancellation
    of one appointment (local list update and the event detail).

    The component's state is a class whose fields are the `useState`
    slots these handlers write; the network replies are parameters. */
module Dashboard {
  import opened Wrappers
  import opened JsText
  import opened Calendar
  import opened Records
  import AppointmentDates
  import DashboardDates

  // ---- Status badge ----

  /** `getStatusBadgeClass`: each of the four known statuses has its own
      class, and any other value, including a missing one, looks pending. */
  function StatusBadgeClass(status: Field): (r: string)
    ensures r in {"status-badge confirmed", "status-badge pending", "status-badge completed", "status-badge cancelled"}
    ensures r == "status-badge confirmed" <==> status == Text("Confirmed")
    ensures r == "status-badge completed" <==> status == Text("Completed")
    ensures r == "status-badge cancelled" <==> status == Cancelled
    ensures r == "status-badge pending" <==> status !in {Text("Confirmed"), Text("Completed"), Cancelled}
  {
    match status
    case Text("Confirmed") => "status-badge confirmed"
    case Text("Pending") => "status-badge pending"
    case Text("Completed") => "status-badge completed"
    case Text("Cancelled") => "status-badge cancelled"
    case _ => "status-badge pending"
  }

  // ---- Display values ----

  /** The bill a card may be shown for instead of an appointment. */
  datatype Bill = Bill(doctor: DoctorRef, department: Field, createdAt: Field)

  /** The date shown: a dash, the appointment date in the long
      `en-US` form, or the bill's creation date in the default locale form.
      The locale formatting itself is not modelled. */
  datatype DateShown = Dash | AppointmentDay(ms: TimeValue) | BillDay(ms: TimeValue)

  datatype DisplayValues = DisplayValues(docName: string, dept: string, date: DateShown, purpose: string)

  /** `ref?.name`: only a populated doctor has a name. */
  function DoctorName(d: DoctorRef): Field {
    if d.DoctorObject? then d.name else Absent
  }

  /** `f || fallback` when the fallback is a string. */
  function TextOr(f: Field, fallback: string): string {
    if f.Truthy() then f.s else fallback
  }

  /** `getDisplayValues(appointment, billData)`; a missing record is read as
      having no fields. */
  function GetDisplayValues(appt: Option<Appointment>, bill: Option<Bill>, env: AppointmentDates.Env): (r: DisplayValues)
    ensures r.docName != "" && r.dept != "" && r.purpose != ""
    ensures r.date.AppointmentDay? ==> appt.Some? && appt.value.date.Truthy()
    ensures r.date.BillDay? ==> bill.Some? && bill.value.createdAt.Truthy() && !(appt.Some? && appt.value.date.Truthy())
  {
    var apptDoctor := if appt.Some? then DoctorName(appt.value.doctor) else Absent;
    var billDoctor := if bill.Some? then DoctorName(bill.value.doctor) else Absent;
    var apptDate := if appt.Some? then appt.value.date else Absent;
    var billCreated := if bill.Some? then bill.value.createdAt else Absent;
    var apptDept := if appt.Some? then appt.value.department else Absent;
    var billDept := if bill.Some? then bill.value.department else Absent;
    var apptPurpose := if appt.Some? then appt.value.purpose else Absent;
    var shown :=
      if apptDate.Truthy() then
        (match AppointmentDates.NewDate(apptDate, env) case Some(ms) => AppointmentDay(ms) case None => Dash)
      else if billCreated.Truthy() then
        (match AppointmentDates.NewDate(billCreated, env) case Some(ms) => BillDay(ms) case None => Dash)
      else Dash;
    DisplayValues(
      TextOr(Or(apptDoctor, billDoctor), "Doctor"),
      TextOr(Or(apptDept, billDept), "—"),
      shown,
      TextOr(apptPurpose, "Consultation"))
  }

  /** With neither an appointment nor a bill every value falls back:
      `Doctor`, a dash for the department and the date, `Consultation`. */
  lemma DisplayDefaults(env: AppointmentDates.Env)
    ensures GetDisplayValues(None, None, env) == DisplayValues("Doctor", "—", Dash, "Consultation")
  {
  }

  /** The appointment's own values win over the bill's, and the bill's over
      the fallbacks. */
  lemma DisplayPrecedence(a: Appointment, bill: Option<Bill>, env: AppointmentDates.Env)
    ensures var r := GetDisplayValues(Some(a), bill, env);
      (DoctorName(a.doctor).Truthy() ==> r.docName == DoctorName(a.doctor).s)
      && (!DoctorName(a.doctor).Truthy() && bill.Some? && DoctorName(bill.value.doctor).Truthy() ==>
            r.docName == DoctorName(bill.value.doctor).s)
      && (a.department.Truthy() ==> r.dept == a.department.s)
      && (!a.department.Truthy() && bill.Some? && bill.value.department.Truthy() ==> r.dept == bill.value.department.s)
      && (!a.department.Truthy() && (bill.None? || !bill.value.department.Truthy()) ==> r.dept == "—")
      && (a.purpose.Truthy() ==> r.purpose == a.purpose.s)
      && (!a.purpose.Truthy() ==> r.purpose == "Consultation")
  {
  }

  /** Whatever records are present, a doctor named by neither shows as
      `Doctor`, a department given by neither as a dash, and a present
      appointment date shows the time value `new Date` reads from it, or a
      dash exactly when it reads none. */
  lemma DisplayFallbacks(appt: Option<Appointment>, bill: Option<Bill>, env: AppointmentDates.Env)
    ensures var r := GetDisplayValues(appt, bill, env);
      (((appt.None? || !DoctorName(appt.value.doctor).Truthy())
          && (bill.None? || !DoctorName(bill.value.doctor).Truthy()))
         ==> r.docName == "Doctor")
      && (((appt.None? || !appt.value.department.Truthy())
           && (bill.None? || !bill.value.department.Truthy()))
         ==> r.dept == "—")
      && (appt.Some? && appt.value.date.Truthy() ==>
            (r.date == Dash <==> AppointmentDates.NewDate(appt.value.date, env).None?)
            && (AppointmentDates.NewDate(appt.value.date, env).Some? ==>
                  r.date == AppointmentDay(AppointmentDates.NewDate(appt.value.date, env).value)))
  {
  }

  /** A present but unreadable appointment date shows a dash: the bill's
      creation date is consulted only when the appointment has no date. */
  lemma UnreadableDateShowsDash(a: Appointment, bill: Bill, env: AppointmentDates.Env)
    requires a.date.Truthy() && AppointmentDates.NewDate(a.date, env).None?
    ensures GetDisplayValues(Some(a), Some(bill), env).date == Dash
  {
  }

  /** Without an appointment date, a readable bill date is shown. */
  lemma BillDateShown(a: Appointment, bill: Bill, env: AppointmentDates.Env)
    requires !a.date.Truthy() && bill.createdAt.Truthy() && AppointmentDates.NewDate(bill.createdAt, env).Some?
    ensures GetDisplayValues(Some(a), Some(bill), env).date == BillDay(AppointmentDates.NewDate(bill.createdAt, env).value)
  {
  }

  // ---- The profile form: JSON values and nested paths ----

  /** A JSON value of the profile form. */
  datatype Json = JNull | JBool(b: bool) | JNum(n: int) | JStr(s: string) | JObj(fields: map<string, Json>)
  {
    /** JavaScript truthiness. */
    predicate Truthy() {
      match this
      case JNull => false
      case JBool(b) => b
      case JNum(n) => n != 0
      case JStr(s) => s != ""
      case JObj(_) => true
    }
  }

  /** Setting `obj[p0][p1]...[pn] = value`, where a missing or falsy
      intermediate is first replaced by a new empty object. None when an
      intermediate is a truthy primitive: assigning a property to a
      primitive throws in strict-mode code. */
  /** The value the walk steps into under `key`: the value there when it is
      truthy, a new empty object otherwise. */
  function Child(obj: map<string, Json>, key: string): Json {
    if key in obj && obj[key].Truthy() then obj[key] else JObj(map[])
  }

  function SetPath(obj: map<string, Json>, parts: seq<string>, value: Json): (r: Option<map<string, Json>>)
    requires |parts| >= 1
    ensures r.Some? ==> r.value.Keys == obj.Keys + {parts[0]}
    ensures r.Some? ==> forall k :: k in obj && k != parts[0] ==> r.value[k] == obj[k]
    decreases |parts|
  {
    if |parts| == 1 then Some(obj[parts[0] := value])
    else
      var child := Child(obj, parts[0]);
      if !child.JObj? then None
      else match SetPath(child.fields, parts[1..], value)
        case None => None
        case Some(m) => Some(obj[parts[0] := JObj(m)])
  }

  /** Reading `obj[p0][p1]...[pn]` through objects only. */
  function Lookup(obj: map<string, Json>, parts: seq<string>): Option<Json>
    requires |parts| >= 1
    decreases |parts|
  {
    if parts[0] !in obj then None
    else if |parts| == 1 then Some(obj[parts[0]])
    else if obj[parts[0]].JObj? then Lookup(obj[parts[0]].fields, parts[1..])
    else None
  }

  /** The nested objects `{p0: {p1: ... {pn: value}}}`. */
  function Nest(parts: seq<string>, value: Json): map<string, Json>
    requires |parts| >= 1
    decreases |parts|
  {
    if |parts| == 1 then map[parts[0] := value] else map[parts[0] := JObj(Nest(parts[1..], value))]
  }

  /** A path is open in `obj` when every proper prefix of it that reaches a
      truthy value reaches an object. */
  predicate PathOpen(obj: map<string, Json>, parts: seq<string>)
    requires |parts| >= 1
  {
    forall i :: 1 <= i < |parts| ==>
      var v := Lookup(obj, parts[..i]);
      v.Some? && v.value.Truthy() ==> v.value.JObj?
  }

  /** After a successful set, reading the same path gives the value. */
  lemma {:induction false} SetPathThenLookup(obj: map<string, Json>, parts: seq<string>, value: Json)
    requires |parts| >= 1 && SetPath(obj, parts, value).Some?
    ensures Lookup(SetPath(obj, parts, value).value, parts) == Some(value)
    decreases |parts|
  {
    if |parts| > 1 {
      var child := Child(obj, parts[0]);
      SetPathThenLookup(child.fields, parts[1..], value);
    }
  }

  /** Setting a path in an empty object builds the whole chain of objects. */
  lemma {:induction false} SetPathOnEmpty(parts: seq<string>, value: Json)
    requires |parts| >= 1
    ensures SetPath(map[], parts, value) == Some(Nest(parts, value))
    decreases |parts|
  {
    if |parts| > 1 {
      SetPathOnEmpty(parts[1..], value);
    }
  }

  /** A missing or falsy first step is replaced by the nested objects the
      rest of the path needs. */
  lemma CreatesMissing(obj: map<string, Json>, parts: seq<string>, value: Json)
    requires |parts| >= 2 && (parts[0] !in obj || !obj[parts[0]].Truthy())
    ensures SetPath(obj, parts, value) == Some(obj[parts[0] := JObj(Nest(parts[1..], value))])
  {
    SetPathOnEmpty(parts[1..], value);
  }

  /** Setting succeeds exactly when the path is open. */
  lemma {:induction false} SetPathDefined(obj: map<string, Json>, parts: seq<string>, value: Json)
    requires |parts| >= 1
    ensures SetPath(obj, parts, value).Some? <==> PathOpen(obj, parts)
    decreases |parts|
  {
    if |parts| > 1 {
      var k := parts[0];
      assert parts[..1] == [k];
      if k in obj && obj[k].Truthy() {
        if obj[k].JObj? {
          var m := obj[k].fields;
          SetPathDefined(m, parts[1..], value);
          forall i | 2 <= i < |parts| ensures Lookup(obj, parts[..i]) == Lookup(m, parts[1..][..i - 1]) {
            assert parts[..i][1..] == parts[1..][..i - 1];
          }
          if PathOpen(obj, parts) {
            forall i | 1 <= i < |parts[1..]|
              ensures var v := Lookup(m, parts[1..][..i]); v.Some? && v.value.Truthy() ==> v.value.JObj?
            {
              assert Lookup(obj, parts[..i + 1]) == Lookup(m, parts[1..][..i]);
            }
          } else {
            var i :| 1 <= i < |parts| && var v := Lookup(obj, parts[..i]); v.Some? && v.value.Truthy() && !v.value.JObj?;
            assert i >= 2;
            assert Lookup(obj, parts[..i]) == Lookup(m, parts[1..][..i - 1]);
          }
        } else {
          assert Lookup(obj, parts[..1]) == Some(obj[k]);
        }
      } else {
        SetPathOnEmpty(parts[1..], value);
        forall i | 1 <= i < |parts| ensures var v := Lookup(obj, parts[..i]); v.Some? && v.value.Truthy() ==> v.value.JObj? {
          if i >= 2 && k in obj {
            assert parts[..i][0] == k;
          }
        }
      }
    }
  }

  /** The nested objects the path walk leaves behind, innermost last:
      `stack[j]` is the object reached after `keys[..j]`, and `inner` replaces
      the value under the last key of the last one. */
  function Wrap(stack: seq<map<string, Json>>, keys: seq<string>, inner: map<string, Json>): map<string, Json>
    requires |keys| == |stack|
    decreases |stack|
  {
    if stack == [] then inner
    else Wrap(stack[..|stack| - 1], keys[..|keys| - 1], stack[|stack| - 1][keys[|keys| - 1] := JObj(inner)])
  }

  function WrapAll(stack: seq<map<string, Json>>, keys: seq<string>, inner: Option<map<string, Json>>): Option<map<string, Json>>
    requires |keys| == |stack|
  {
    if inner.None? then None else Some(Wrap(stack, keys, inner.value))
  }

  /** One more level on the stack is one more object wrapped around `inner`. */
  lemma WrapPush(stack: seq<map<string, Json>>, keys: seq<string>, cur: map<string, Json>, key: string, inner: map<string, Json>)
    requires |keys| == |stack|
    ensures Wrap(stack + [cur], keys + [key], inner) == Wrap(stack, keys, cur[key := JObj(inner)])
  {
    assert (stack + [cur])[..|stack|] == stack;
    assert (keys + [key])[..|keys|] == keys;
  }

  /** One step of the walk down `parts`: stepping into the child at
      `parts[i]` fails when the child is a truthy primitive, and otherwise
      moves the current object onto the stack. */
  lemma Descend(stack: seq<map<string, Json>>, parts: seq<string>, i: nat, cur: map<string, Json>, value: Json)
    requires i < |parts| - 1 && |stack| == i
    ensures !Child(cur, parts[i]).JObj? ==> SetPath(cur, parts[i..], value).None?
    ensures Child(cur, parts[i]).JObj? ==>
      WrapAll(stack, parts[..i], SetPath(cur, parts[i..], value))
      == WrapAll(stack + [cur], parts[..i + 1], SetPath(Child(cur, parts[i]).fields, parts[i + 1..], value))
  {
    var ps := parts[i..];
    assert ps[0] == parts[i] && ps[1..] == parts[i + 1..];
    assert parts[..i + 1] == parts[..i] + [parts[i]];
    if Child(cur, parts[i]).JObj? {
      var inner := SetPath(Child(cur, parts[i]).fields, parts[i + 1..], value);
      if inner.Some? {
        WrapPush(stack, parts[..i], cur, parts[i], inner.value);
      }
    }
  }

  // ---- The dashboard's state ----

  datatype ToastKind = Success | Failure
  datatype Toast = Toast(message: string, kind: ToastKind)

  /** A PATCH request: its path and its JSON body. */
  datatype Patch = Patch(url: string, body: map<string, Json>)

  /** The properties `saveProfile` strips before sending. */
  const SystemFields: set<string> := {"_id", "user", "patientId"}

  const RequiredMessage := "Please fill required fields: name, age, phone, email"
  const ProfileSaved := "Profile updated successfully"
  const ProfileFailed := "Failed to update profile"
  const CancelSucceeded := "Appointment cancelled successfully."
  const CancelFailed := "Failed to cancel appointment. Please try again."

  /** `o?.[k]` on a JSON value: only objects have properties here. */
  function Prop(o: Option<Json>, k: string): Option<Json> {
    if o.Some? && o.value.JObj? && k in o.value.fields then Some(o.value.fields[k]) else None
  }

  predicate Filled(o: Option<Json>) { o.Some? && o.value.Truthy() }

  /** The client-side check: full name, age, phone and email all truthy. */
  predicate RequiredFilled(form: map<string, Json>) {
    var f := Some(JObj(form));
    Filled(Prop(f, "fullName")) && Filled(Prop(f, "age"))
    && Filled(Prop(Prop(f, "contact"), "phone")) && Filled(Prop(Prop(f, "contact"), "email"))
  }

  /** The payload: the form without its read-only system properties. */
  function Scrub(form: map<string, Json>): (payload: map<string, Json>)
    ensures forall k :: k in payload <==> k in form && k !in SystemFields
    ensures forall k :: k in payload ==> payload[k] == form[k]
  {
    form - SystemFields
  }

  function DecimalText(n: nat): string
    decreases n
  {
    if n < 10 then [('0' as int + n) as char] else DecimalText(n / 10) + [('0' as int + n % 10) as char]
  }

  /** How a template literal writes a JSON value (`undefined` when missing). */
  function TemplateOf(o: Option<Json>): string {
    match o
    case None => "undefined"
    case Some(JNull) => "null"
    case Some(JBool(b)) => if b then "true" else "false"
    case Some(JNum(n)) => if n < 0 then "-" + DecimalText(-n) else DecimalText(n)
    case Some(JStr(s)) => s
    case Some(JObj(_)) => "[object Object]"
  }

  /** What the cancellation event names as the doctor:
      `doctor && (doctor._id || doctor)`. */
  datatype EventDoctor = DoctorValue(f: Field) | DoctorDocument(ref: DoctorRef)

  /** The detail of the `appointmentCancelled` event; `date` is None for null. */
  datatype CancelEvent = CancelEvent(doctorId: EventDoctor, date: Option<string>, time: Field)

  /** `doctor && (doctor._id || doctor)`: a falsy reference is passed on as
      it is, a string has no `_id` and is passed on itself, and a populated
      doctor gives its `_id`, or the whole document when that is falsy. */
  function EventDoctorId(d: DoctorRef): (r: EventDoctor)
    ensures d.DoctorField? ==> r == DoctorValue(d.f)
    ensures d.DoctorObject? && d.id.Truthy() ==> r == DoctorValue(d.id)
    ensures d.DoctorObject? && !d.id.Truthy() ==> r == DoctorDocument(d)
  {
    match d
    case DoctorField(f) => DoctorValue(f)
    case DoctorObject(id, _) => if id.Truthy() then DoctorValue(id) else DoctorDocument(d)
  }

  /** The event for the updated appointment; None when no event is sent,
      which happens when the date is present but invalid (`toISOString`
      throws and the error is swallowed). */
  function CancelEventOf(updated: Appointment, env: AppointmentDates.Env): (r: Option<CancelEvent>)
    ensures r.None? <==> updated.date.Truthy() && AppointmentDates.NewDate(updated.date, env).None?
    ensures r.Some? ==> r.value.doctorId == EventDoctorId(updated.doctor) && r.value.time == updated.time
    ensures r.Some? && !updated.date.Truthy() ==> r.value.date.None?
    ensures r.Some? && updated.date.Truthy() ==>
      r.value.date == Some(DashboardDates.IsoDatePart(AppointmentDates.NewDate(updated.date, env).value))
  {
    if !updated.date.Truthy() then Some(CancelEvent(EventDoctorId(updated.doctor), None, updated.time))
    else match AppointmentDates.NewDate(updated.date, env)
      case None => None
      case Some(ms) => Some(CancelEvent(EventDoctorId(updated.doctor), Some(DashboardDates.IsoDatePart(ms)), updated.time))
  }

  /** The event's date is the `YYYY-MM-DD` of the UTC calendar day, ten
      characters with dashes at 4 and 7 for years 0 to 9999. */
  lemma EventDateShape(updated: Appointment, env: AppointmentDates.Env)
    requires CancelEventOf(updated, env).Some? && CancelEventOf(updated, env).value.date.Some?
    requires var d := UtcDateOfMillis(AppointmentDates.NewDate(updated.date, env).value); 0 <= d.year <= 9999
    ensures var s := CancelEventOf(updated, env).value.date.value;
      |s| == 10 && s[4] == '-' && s[7] == '-'
  {
  }

  /** `prev.map(a => a._id === updated._id ? { ...a, status: updated.status } : a)`. */
  function MarkUpdated(appts: seq<Appointment>, updated: Appointment): (r: seq<Appointment>)
    ensures |r| == |appts|
  {
    seq(|appts|, k requires 0 <= k < |appts| =>
      if appts[k].id == updated.id then appts[k].(status := updated.status) else appts[k])
  }

  /** The local update keeps the length and the order and touches only the
      `status` of the records whose `_id` matches. */
  lemma MarkUpdatedOnlyStatus(appts: seq<Appointment>, updated: Appointment)
    ensures var r := MarkUpdated(appts, updated);
      |r| == |appts|
      && (forall k :: 0 <= k < |r| ==> r[k].(status := appts[k].status) == appts[k])
      && (forall k :: 0 <= k < |r| && appts[k].id == updated.id ==> r[k].status == updated.status)
      && (forall k :: 0 <= k < |r| && appts[k].id != updated.id ==> r[k] == appts[k])
  {
  }

  /** Applying the same reply twice changes nothing more. */
  lemma MarkUpdatedIdempotent(appts: seq<Appointment>, updated: Appointment)
    ensures MarkUpdated(MarkUpdated(appts, updated), updated) == MarkUpdated(appts, updated)
  {
    var once := MarkUpdated(appts, updated);
    var twice := MarkUpdated(once, updated);
    forall k | 0 <= k < |appts| ensures twice[k] == once[k] {
      assert once[k].id == appts[k].id;
    }
  }

  class DashboardState {
    var patient: Option<Json>
    var appointments: seq<Appointment>
    var formState: Option<map<string, Json>>
    var editMode: bool
    var savingProfile: bool
    var toast: Option<Toast>
    var showCancelModal: bool
    var canceling: bool
    var cancelingId: Field

    /** The initial `useState` values. */
    constructor ()
      ensures patient.None? && appointments == [] && formState.None? && !editMode && !savingProfile
      ensures toast.None? && !showCancelModal && !canceling && cancelingId == Null
    {
      patient := None;
      appointments := [];
      formState := None;
      editMode := false;
      savingProfile := false;
      toast := None;
      showCancelModal := false;
      canceling := false;
      cancelingId := Null;
    }

    /** `handleProfileInput(path, value)`: the form state (an empty object
        when null) with the value set at the dotted path, missing or falsy
        intermediates created as empty objects; a truthy primitive on the
        way is a TypeError and the state stays as it was. */
    method HandleProfileInput(path: string, value: Json) returns (ok: bool)
      modifies this`formState
      ensures var r := SetPath(if old(formState).Some? then old(formState).value else map[], Split(path, '.'), value);
        ok == r.Some? && formState == (if ok then r else old(formState))
    {
      var base := if formState.Some? then formState.value else map[];
      var parts := Split(path, '.');
      if '.' !in path {
        SplitSingle(path, '.');
        formState := Some(base[path := value]);
        return true;
      }
      var stack: seq<map<string, Json>> := [];
      var cur := base;
      var i := 0;
      while i < |parts| - 1
        invariant 0 <= i <= |parts| - 1
        invariant |stack| == i && formState == old(formState)
        invariant SetPath(base, parts, value) == WrapAll(stack, parts[..i], SetPath(cur, parts[i..], value))
      {
        Descend(stack, parts, i, cur, value);
        var child := Child(cur, parts[i]);
        if !child.JObj? {
          return false;
        }
        stack := stack + [cur];
        cur := child.fields;
        i := i + 1;
      }
      assert parts[i..] == [parts[i]];
      formState := Some(Wrap(stack, parts[..i], cur[parts[i] := value]));
      ok := true;
    }

    /** `saveProfile(reply)`: nothing happens without a form or a patient;
        an incomplete form only raises the error toast; otherwise the
        scrubbed form is sent to `/patients/<id>`, and the reply either
        replaces the patient and closes the editor or raises the server's
        message (or a generic one) as an error toast. `reply` is the
        outcome of the PATCH: the returned patient, or the error message. */
    method SaveProfile(reply: Result<Option<Json>, Field>) returns (sent: Option<Patch>)
      modifies this`patient, this`formState, this`editMode, this`toast, this`savingProfile
      ensures old(formState).None? || !Filled(old(patient)) ==>
        sent.None? && patient == old(patient) && formState == old(formState)
        && editMode == old(editMode) && toast == old(toast) && savingProfile == old(savingProfile)
      ensures old(formState).Some? && Filled(old(patient)) && !RequiredFilled(old(formState).value) ==>
        sent.None? && toast == Some(Toast(RequiredMessage, Failure)) && patient == old(patient)
        && formState == old(formState) && editMode == old(editMode) && savingProfile == old(savingProfile)
      ensures old(formState).Some? && Filled(old(patient)) && RequiredFilled(old(formState).value) ==>
        sent == Some(Patch("/patients/" + TemplateOf(Prop(old(patient), "_id")), Scrub(old(formState).value)))
        && !savingProfile
        && (reply.Ok? ==> patient == reply.value && formState.None? && !editMode
                          && toast == Some(Toast(ProfileSaved, Success)))
        && (reply.Err? ==> patient == old(patient) && formState == old(formState) && editMode == old(editMode)
                           && toast == Some(Toast(TextOr(reply.error, ProfileFailed), Failure)))
    {
      if formState.None? || !Filled(patient) {
        return None;
      }
      var form := formState.value;
      if !RequiredFilled(form) {
        toast := Some(Toast(RequiredMessage, Failure));
        return None;
      }
      savingProfile := true;
      var payload := Scrub(form);
      sent := Some(Patch("/patients/" + TemplateOf(Prop(patient, "_id")), payload));
      match reply {
        case Ok(updated) =>
          patient := updated;
          toast := Some(Toast(ProfileSaved, Success));
          editMode := false;
          formState := None;
        case Err(message) =>
          toast := Some(Toast(TextOr(message, ProfileFailed), Failure));
      }
      savingProfile := false;
    }

    /** `confirmCancel(reply, refetched)`: the modal closes; without a
        pending id nothing else happens. Otherwise `status: 'Cancelled'` is
        sent for that id. On success the list is updated locally and then
        replaced by the re-fetched list when that fetch succeeds, the event
        is sent, and a success toast shows; on failure only the error toast
        shows. Either way the pending id is cleared. `reply` is the updated
        appointment the server returns, None when the request fails. */
    method ConfirmCancel(reply: Option<Appointment>, refetched: Option<seq<Appointment>>, env: AppointmentDates.Env)
      returns (sent: Option<string>, event: Option<CancelEvent>)
      modifies this`showCancelModal, this`canceling, this`cancelingId, this`appointments, this`toast
      ensures !showCancelModal
      ensures !old(cancelingId).Truthy() ==>
        sent.None? && event.None? && appointments == old(appointments) && toast == old(toast)
        && canceling == old(canceling) && cancelingId == old(cancelingId)
      ensures old(cancelingId).Truthy() ==>
        sent == Some("/appointments/" + old(cancelingId).s) && !canceling && cancelingId == Null
        && (reply.None? ==> appointments == old(appointments) && event.None?
                            && toast == Some(Toast(CancelFailed, Failure)))
        && (reply.Some? ==>
              appointments == (if refetched.Some? then refetched.value else MarkUpdated(old(appointments), reply.value))
              && event == CancelEventOf(reply.value, env) && toast == Some(Toast(CancelSucceeded, Success)))
    {
      showCancelModal := false;
      var id := cancelingId;
      if !id.Truthy() {
        return None, None;
      }
      canceling := true;
      sent := Some("/appointments/" + id.s);
      event := None;
      if reply.Some? {
        var updated := reply.value;
        appointments := MarkUpdated(appointments, updated);
        if refetched.Some? {
          appointments := refetched.value;
        }
        event := CancelEventOf(updated, env);
        toast := Some(Toast(CancelSucceeded, Success));
      } else {
        toast := Some(Toast(CancelFailed, Failure));
      }
      canceling := false;
      cancelingId := Null;
    }
  }

  /** An undotted path sets just that key of the form, an empty object
      standing in for a null form. */
  lemma UndottedPathSetsKey(form: Option<map<string, Json>>, path: string, value: Json)
    requires '.' !in path
    ensures SetPath(if form.Some? then form.value else map[], Split(path, '.'), value)
         == Some((if form.Some? then form.value else map[])[path := value])
  {
    SplitSingle(path, '.');
  }

  /** `contact.phone` on a form without `contact` creates `{ phone: value }`
      and keeps every other key. */
  lemma DottedPathCreatesContact(form: map<string, Json>, value: Json)
    requires "contact" !in form
    ensures SetPath(form, Split("contact.phone", '.'), value)
         == Some(form["contact" := JObj(map["phone" := value])])
  {
    assert Split("contact.phone", '.') == ["contact", "phone"] by {
      assert "contact.phone" == "contact" + ['.'] + "phone";
      SplitTwo("contact", "phone", '.');
    }
    CreatesMissing(form, ["contact", "phone"], value);
  }
}
