/** The patient signup form (`PatientSignup.js`): the guards `handleSubmit`
    checks before signing up, and how the result of the email / username
    availability check becomes the per-field status and message.

    The form's state is a class whose fields are its `useState` slots; the
    result of the signup call is a parameter. The debounced, cancellable
    availability request itself is not modelled, only what its outcomes
    write. */
module Signup {
  import opened Wrappers
  import opened JsText

  // ---- Availability ----

  datatype CheckStatus = Idle | Checked | CheckError

  /** One field's availability entry. */
  datatype Check = Check(available: bool, status: CheckStatus, message: string)

  datatype Availability = Availability(email: Check, username: Check)

  /** The entries before any check, and after both inputs are cleared. */
  const Unchecked := Availability(Check(true, Idle, ""), Check(true, Idle, ""))

  /** The state after an edit of the email or username: with both trimmed
      values empty the entries reset; otherwise they stay until the check
      answers. */
  function AfterEdit(email: string, username: string, prev: Availability): (r: Availability)
    ensures Trim(email) == "" && Trim(username) == "" ==> r == Unchecked
    ensures Trim(email) != "" || Trim(username) != "" ==> r == prev
  {
    if Trim(email) == "" && Trim(username) == "" then Unchecked else prev
  }

  /** The entries written when the check answers. */
  function Answered(emailAvailable: bool, usernameAvailable: bool): (r: Availability)
    ensures r.email.status == Checked && r.username.status == Checked
    ensures r.email.available == emailAvailable && r.username.available == usernameAvailable
    ensures r.email.message == "Email available" <==> emailAvailable
    ensures r.username.message == "Username available" <==> usernameAvailable
  {
    Availability(
      Check(emailAvailable, Checked, if emailAvailable then "Email available" else "Email already in use"),
      Check(usernameAvailable, Checked, if usernameAvailable then "Username available" else "Username already in use"))
  }

  /** The entries after a failed check: a cancelled request writes nothing;
      any other failure keeps the flags and reports that it could not
      verify. */
  function Failed(prev: Availability, cancelled: bool): (r: Availability)
    ensures r.email.available == prev.email.available && r.username.available == prev.username.available
    ensures cancelled ==> r == prev
    ensures !cancelled ==> r.email.status == CheckError && r.username.status == CheckError
  {
    if cancelled then prev
    else Availability(
      prev.email.(status := CheckError, message := "Could not verify email"),
      prev.username.(status := CheckError, message := "Could not verify username"))
  }

  /** An answered check reports each field as checked, with a message that
      tells an available value from a taken one. */
  lemma AnsweredMessages(e: bool, u: bool)
    ensures var r := Answered(e, u);
      r.email.available == e && r.username.available == u
      && r.email.status == Checked && r.username.status == Checked
      && (r.email.message == "Email available" <==> e)
      && (r.username.message == "Username available" <==> u)
  {
  }

  /** A failure never changes what is known about availability. */
  lemma FailureKeepsFlags(prev: Availability, cancelled: bool)
    ensures Failed(prev, cancelled).email.available == prev.email.available
    ensures Failed(prev, cancelled).username.available == prev.username.available
    ensures !cancelled ==>
      Failed(prev, cancelled).email.status == CheckError && Failed(prev, cancelled).username.status == CheckError
  {
  }

  /** Clearing both inputs always re-enables signup as far as availability goes. */
  lemma ClearedInputsAllowSignup(email: string, username: string, prev: Availability)
    requires Trim(email) == "" && Trim(username) == ""
    ensures AfterEdit(email, username, prev).email.available && AfterEdit(email, username, prev).username.available
  {
  }

  // ---- handleSubmit ----

  const Mismatch := "Passwords do not match"
  const TooShort := "Password must be at least 6 characters long"
  const NotUnique := "Please choose a unique email and username before signing up"
  const MinPasswordLength := 6

  /** `s.length`: UTF-16 code units, two for a character outside the Basic
      Multilingual Plane. */
  function Utf16Length(s: string): (n: nat)
    ensures |s| <= n <= 2 * |s|
  {
    if s == [] then 0 else Utf16Length(s[..|s| - 1]) + (if s[|s| - 1] as int > 0xFFFF then 2 else 1)
  }

  /** Within the Basic Multilingual Plane the length is the number of characters. */
  lemma {:induction false} Utf16LengthBmp(s: string)
    requires forall i :: 0 <= i < |s| ==> s[i] as int <= 0xFFFF
    ensures Utf16Length(s) == |s|
    decreases |s|
  {
    if s != [] {
      Utf16LengthBmp(s[..|s| - 1]);
    }
  }

  /** The form fields every state of the form holds. */
  predicate HasFields(form: map<string, string>) {
    "password" in form && "confirmPassword" in form
  }

  /** The guards in their order: the first failing one gives its message;
      when all pass, the data to submit is the form without
      `confirmPassword`. */
  function Guard(form: map<string, string>, availability: Availability): (r: Result<map<string, string>, string>)
    requires HasFields(form)
    ensures r.Ok? <==> form["password"] == form["confirmPassword"]
                       && Utf16Length(form["password"]) >= MinPasswordLength
                       && availability.email.available && availability.username.available
    ensures r.Ok? ==> forall k :: (k in r.value <==> k in form && k != "confirmPassword")
                               && (k in r.value ==> r.value[k] == form[k])
  {
    if form["password"] != form["confirmPassword"] then Err(Mismatch)
    else if Utf16Length(form["password"]) < MinPasswordLength then Err(TooShort)
    else if !availability.email.available || !availability.username.available then Err(NotUnique)
    else Ok(form - {"confirmPassword"})
  }

  /** A mismatch is reported before anything else is looked at. */
  lemma MismatchFirst(form: map<string, string>, availability: Availability)
    requires HasFields(form) && form["password"] != form["confirmPassword"]
    ensures Guard(form, availability) == Err(Mismatch)
  {
  }

  /** A matching but short password is reported before availability. */
  lemma ShortPasswordSecond(form: map<string, string>, availability: Availability)
    requires HasFields(form) && form["password"] == form["confirmPassword"]
    requires Utf16Length(form["password"]) < MinPasswordLength
    ensures Guard(form, availability) == Err(TooShort)
  {
  }

  /** A password of five characters is too short, whatever else holds. */
  lemma FiveCharactersTooShort(form: map<string, string>, availability: Availability)
    requires HasFields(form) && form["password"] == form["confirmPassword"] && |form["password"]| == 5
    requires forall i :: 0 <= i < 5 ==> form["password"][i] as int <= 0xFFFF
    ensures Guard(form, availability) == Err(TooShort)
  {
    Utf16LengthBmp(form["password"]);
  }

  /** A taken email or username refuses signup once the password is fine. */
  lemma TakenRefused(form: map<string, string>, availability: Availability)
    requires HasFields(form) && form["password"] == form["confirmPassword"]
    requires Utf16Length(form["password"]) >= MinPasswordLength
    requires !availability.email.available || !availability.username.available
    ensures Guard(form, availability) == Err(NotUnique)
  {
  }

  /** After an answered check, signup goes ahead exactly when both values
      were free and the password is confirmed and long enough. */
  lemma AnsweredGuard(form: map<string, string>, e: bool, u: bool)
    requires HasFields(form)
    ensures Guard(form, Answered(e, u)).Ok? <==>
      e && u && form["password"] == form["confirmPassword"] && Utf16Length(form["password"]) >= MinPasswordLength
  {
  }

  /** What the signup call answered. */
  datatype SignupResult = SignupResult(success: bool, message: string)

  const DashboardPath := "/patient-dashboard"

  class SignupForm {
    var formData: map<string, string>
    var availability: Availability
    var loading: bool
    var error: string
    var navigatedTo: Option<string>

    /** The initial state: every field empty and nothing checked. */
    constructor ()
      ensures HasFields(formData)
      ensures formData == map["username" := "", "email" := "", "password" := "", "confirmPassword" := "",
                              "fullName" := "", "age" := "", "gender" := "", "phone" := "", "bloodGroup" := "",
                              "address" := ""]
      ensures availability == Unchecked && !loading && error == "" && navigatedTo.None?
    {
      formData := map["username" := "", "email" := "", "password" := "", "confirmPassword" := "",
                      "fullName" := "", "age" := "", "gender" := "", "phone" := "", "bloodGroup" := "",
                      "address" := ""];
      availability := Unchecked;
      loading := false;
      error := "";
      navigatedTo := None;
    }

    /** `handleChange`: one field takes the new value and the error clears. */
    method HandleChange(name: string, value: string)
      requires HasFields(formData)
      modifies this`formData, this`error
      ensures formData == old(formData)[name := value] && HasFields(formData) && error == ""
    {
      formData := formData[name := value];
      error := "";
    }

    /** `handleSubmit(result)`: a failing guard sets its message and sends
        nothing; otherwise the form without `confirmPassword` is sent and
        the result either opens the dashboard or shows its message. The
        form ends not loading either way. */
    method HandleSubmit(result: SignupResult) returns (submitted: Option<map<string, string>>)
      requires HasFields(formData)
      modifies this`loading, this`error, this`navigatedTo
      ensures !loading
      ensures Guard(formData, availability).Err? ==>
        submitted.None? && error == Guard(formData, availability).error && navigatedTo == old(navigatedTo)
      ensures Guard(formData, availability).Ok? ==>
        submitted == Some(Guard(formData, availability).value)
        && (result.success ==> navigatedTo == Some(DashboardPath) && error == "")
        && (!result.success ==> navigatedTo == old(navigatedTo) && error == result.message)
    {
      loading := true;
      error := "";
      if formData["password"] != formData["confirmPassword"] {
        error := Mismatch;
        loading := false;
        return None;
      }
      if Utf16Length(formData["password"]) < MinPasswordLength {
        error := TooShort;
        loading := false;
        return None;
      }
      if !availability.email.available || !availability.username.available {
        error := NotUnique;
        loading := false;
        return None;
      }
      submitted := Some(formData - {"confirmPassword"});
      if result.success {
        navigatedTo := Some(DashboardPath);
      } else {
        error := result.message;
      }
      loading := false;
    }
  }
}
