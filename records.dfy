/** The appointment record as the frontend receives it from the API. Every
    field may be missing, `null` or a string; the doctor may also arrive
    populated as an object with its own `_id` and `name`. */
module Records {

  /** A JSON field that is missing (`undefined`), `null`, or a string. */
  datatype Field = Absent | Null | Text(s: string)
  {
    /** JavaScript truthiness: only a non-empty string is truthy. */
    predicate Truthy() { Text? && s != "" }
  }

  /** `a || b` on two fields. */
  function Or(a: Field, b: Field): (r: Field)
    ensures a.Truthy() ==> r == a
    ensures !a.Truthy() ==> r == b
  {
    if a.Truthy() then a else b
  }

  /** The `doctor` of an appointment: a bare reference (usually the id
      string) or the populated doctor document. */
  datatype DoctorRef = DoctorField(f: Field) | DoctorObject(id: Field, name: Field)
  {
    predicate Truthy() { DoctorObject? || f.Truthy() }
  }

  datatype Appointment = Appointment(
    id: Field,             // _id
    doctor: DoctorRef,
    date: Field,
    time: Field,
    status: Field,
    purpose: Field,
    department: Field)

  const Cancelled: Field := Text("Cancelled")
}
