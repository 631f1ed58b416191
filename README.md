# HMS patient-side date handling, dashboard handlers, API client and admin bootstrap

This project models the scheduling and session core of a hospital
management system's patient web app, plus one back-end script. It covers
six pieces:

- **The shared date-time helper** (`appointmentDateUtils.js`). It turns an
  appointment record's loosely formatted `date` and free-text `time` into
  one local date-time. The date is read in this order:
  1. as ISO 8601;
  2. as RFC 2822;
  3. by the runtime's `new Date`.

  The time is then read in this order:
  1. as an ISO 8601 time;
  2. under six clock formats;
  3. by `new Date`.

  On top of it are built the "upcoming" list (future, not cancelled, earliest
  first, three by default) and the "recent" list (past, latest first, five by
  default).
- **The patient dashboard's own handlers** (`PatientDashboard.js`):
  - the older local copy of the date helper and of its two lists;
  - the status badge;
  - the display fallbacks;
  - the dotted-path profile form setter;
  - the profile save;
  - the cancellation of an appointment, including the event it broadcasts.
- **The HTTP client** (`api.js`): the base URL computed from the
  environment, the request interceptor that attaches the bearer token, and
  the response interceptor that drops the session on a 401.
- **The patient signup form** (`PatientSignup.js`): the availability
  check's outcomes, and the guards applied before signing up.
- **The admin bootstrap script** (`bootstrapAdmin.js`): command-line
  parsing, and the defaults and usage check applied before any database
  work.

The library parsers the helper relies on are modelled concretely as
recognisers over text:

- Luxon's `fromISO` for calendar dates, times and offsets (`Iso8601`);
- `fromRFC2822` (`Rfc2822`);
- `fromFormat` for the six clock formats (`TimeFormats`).

The JavaScript runtime enters through a parameter, `AppointmentDates.Env`:

- `new Date(string)` is an uninterpreted function from text to a time value;
- the viewer's zone is a fixed offset in minutes.

"Now", the network replies and the browser storage are parameters or class
fields.

Each stateful piece is a class whose fields are the component's state slots
or the client's storage:

- `Dashboard.DashboardState`;
- `Signup.SignupForm`;
- `ApiClient.Client`.

Their handlers are methods whose postconditions state the whole new state.
The dotted-path setter walks the path in a loop, as the source does. It is
proved equal to the recursive specification `Dashboard.SetPath`.

Where the code and its own comments disagree, the model follows the code:

- The dashboard's local helper says its final fallback uses "the date only
  (midnight)". The code returns `new Date(appointment.date)`, which keeps
  any time of day the date text carries (`DashboardDates.FallbackKeepsDateValue`).
- `api.js` says the environment URL may be given "with or without a trailing
  /api". A value ending in `/api/` is not recognised as having one. This is
  listed under Findings.

## Model

| member | source | states |
|---|---|---|
| AppointmentDates.NewDate | frontend/src/utils/appointmentDateUtils.js:26-27 | `new Date(undefined)` is invalid and `new Date(null)` is time value 0 |
| AppointmentDates.DateOf | frontend/src/utils/appointmentDateUtils.js:8-32 | any date read is a valid calendar date |
| AppointmentDates.TimeText | frontend/src/utils/appointmentDateUtils.js:35 | a falsy time becomes `00:00`, a truthy one its trimmed text |
| AppointmentDates.Combine | frontend/src/utils/appointmentDateUtils.js:37-52 | any date-time produced by the three time strategies is valid |
| AppointmentDates.GetAppointmentDateTime | frontend/src/utils/appointmentDateUtils.js:5-53 | a result is a valid date-time, and only a present record whose date was read gives one |
| AppointmentDates.DateStrategyOrder | frontend/src/utils/appointmentDateUtils.js:10-32 | ISO 8601 wins when it reads the date; RFC 2822 comes next; then the UTC day of `new Date`; with none of them the date is unread |
| AppointmentDates.UnreadDateIsNull | frontend/src/utils/appointmentDateUtils.js:29-31 | a date no strategy reads makes the whole result null, never a default date |
| AppointmentDates.MissingDateIsNull | frontend/src/utils/appointmentDateUtils.js:26-31 | a record without a date has no date-time |
| AppointmentDates.IsoDateIsRead | frontend/src/utils/appointmentDateUtils.js:11-14 | a `YYYY-MM-DD` date is read as exactly that day, whatever the runtime does |
| AppointmentDates.MidnightDefault | frontend/src/utils/appointmentDateUtils.js:34-39 | a missing, null or empty time gives midnight of the record's day |
| AppointmentDates.TimeIsTrimmed | frontend/src/utils/appointmentDateUtils.js:35 | surrounding white space in the time changes nothing |
| AppointmentDates.SameTimeTextSameResult | frontend/src/utils/appointmentDateUtils.js:34-53 | two records with the same date and the same trimmed time text read as the same date-time |
| AppointmentDates.FirstFormatWins | frontend/src/utils/appointmentDateUtils.js:41-46 | after the ISO 8601 reading fails, the first format in list order that reads the text decides the result |
| AppointmentDates.IsoCoversPaddedFormat | frontend/src/utils/appointmentDateUtils.js:38-46 | whatever `HH:mm` or `HH:mm:ss` reads, the ISO 8601 step reads identically |
| AppointmentDates.EffectiveFormats | frontend/src/utils/appointmentDateUtils.js:42-46 | once ISO 8601 has failed, the six-format loop gives what `h:mm a`, `H:mm`, `h:mm:ss a` alone give |
| AppointmentDates.PaddedSecondsUnread | frontend/src/utils/appointmentDateUtils.js:42-46 | once ISO 8601 has failed, `HH:mm:ss` reads nothing |
| AppointmentDates.LastFormatNone | frontend/src/utils/appointmentDateUtils.js:43-46 | a last format that reads nothing does not change the loop's result |
| AppointmentDates.HourMinuteTimeIsRead | frontend/src/utils/appointmentDateUtils.js:37-39 | an `HH:mm` time is read as exactly that wall-clock time on the record's day |
| AppointmentDates.UtcDateWithClockTime | frontend/src/utils/__tests__/appointmentDateUtils.test.js:9-16 | `2025-10-24T00:00:00.000Z` with `14:30` is 14:30 on 24 October 2025 |
| AppointmentDates.DateWithMeridiemTime | frontend/src/utils/__tests__/appointmentDateUtils.test.js:18-24 | `2025-10-24` with `2:15 PM` is 14:15 on that day, through `h:mm a` |
| AppointmentDates.UtcMidnightIsRead | frontend/src/utils/appointmentDateUtils.js:11-14 | `YYYY-MM-DDT00:00:00.000Z` is read as that day |
| AppointmentDates.Annotate | frontend/src/utils/appointmentDateUtils.js:59 | each record is paired with its own date-time, in input order |
| AppointmentDates.Upcoming | frontend/src/utils/appointmentDateUtils.js:55-63 | every entry has a date-time after now and is not cancelled; the list is earliest first; a non-negative `limit` (3 when absent) bounds its length |
| AppointmentDates.Recent | frontend/src/utils/appointmentDateUtils.js:65-73 | every entry has a date-time at or before now; the list is latest first; a non-negative `limit` (5 when absent) bounds its length |
| AppointmentDates.UpcomingShape | frontend/src/utils/appointmentDateUtils.js:55-63 | upcoming entries are input records after now and not cancelled, earliest first, at most `limit` (3 by default) |
| AppointmentDates.RecentShape | frontend/src/utils/appointmentDateUtils.js:65-73 | recent entries are input records at or before now, latest first, at most `limit` (5 by default) |
| AppointmentDates.UpcomingRecentDisjoint | frontend/src/utils/__tests__/appointmentDateUtils.test.js:26-43 | no entry is both upcoming and recent, and an undated record is in neither list |
| AppointmentDates.UpcomingIncludes | frontend/src/utils/__tests__/appointmentDateUtils.test.js:37-41 | a future record that is not cancelled is listed as upcoming when the limit leaves room |
| AppointmentDates.RecentIncludes | frontend/src/utils/__tests__/appointmentDateUtils.test.js:38-42 | a past record is listed as recent when the limit leaves room |
| AppointmentDates.UpcomingKeepsEarliest | frontend/src/utils/appointmentDateUtils.js:60-62 | kept and dropped entries together are all upcoming records, and no dropped entry is earlier than a kept one |
| Iso8601.DigitRun | frontend/src/utils/appointmentDateUtils.js:11 | the maximal run of digits from a position |
| Iso8601.TimeBase | frontend/src/utils/appointmentDateUtils.js:38 | an ISO 8601 time must start with two digits |
| Iso8601.FullClockRead | frontend/src/utils/appointmentDateUtils.js:11 | `hh:mm:ss.fff` not followed by a digit is read whole, as its four fields |
| Iso8601.UtcDate | frontend/src/utils/appointmentDateUtils.js:11-14 | a date read by `fromISO` in UTC is a valid calendar date |
| Iso8601.LocalDateTime | frontend/src/utils/appointmentDateUtils.js:38-39 | a combined local date-time is valid, and it requires a two-digit hour |
| Iso8601.FormatHourMinute | frontend/src/utils/appointmentDateUtils.js:35 | `HH:mm` text is five characters with a colon at index 2 |
| Iso8601.HourMinuteRoundTrip | frontend/src/utils/appointmentDateUtils.js:38-39 | reading `HH:mm` on a day gives back that exact time |
| Iso8601.IsoDateRoundTrip | frontend/src/utils/appointmentDateUtils.js:11-14 | reading a formatted `YYYY-MM-DD` gives back the date |
| Iso8601.SingleDigitHourRejected | frontend/src/utils/appointmentDateUtils.js:38-39 | a time without a two-digit hour is not ISO 8601 |
| Rfc2822.CommentClose | frontend/src/utils/appointmentDateUtils.js:17 | the closing parenthesis of a comment, with nothing nested before it |
| Rfc2822.SpaceRun | frontend/src/utils/appointmentDateUtils.js:17 | the run of white space at a position |
| Rfc2822.Preprocess | frontend/src/utils/appointmentDateUtils.js:17 | after comments are blanked and runs of white space collapsed, the text neither starts nor ends with white space |
| Rfc2822.PreprocessJoin | frontend/src/utils/appointmentDateUtils.js:17 | single-spaced plain tokens pass the comment and space clean-up unchanged |
| Rfc2822.IndexOf | frontend/src/utils/appointmentDateUtils.js:17 | a weekday or month name's index, or None exactly when the name is not listed |
| Rfc2822.ZoneOffset | frontend/src/utils/appointmentDateUtils.js:17 | `GMT`, `Z` and `z` are offset 0; `UT` is not a zone Luxon can read |
| Rfc2822.UtcDate | frontend/src/utils/appointmentDateUtils.js:17-18 | a date read by `fromRFC2822` is a valid calendar date |
| Rfc2822.DateOfFields | frontend/src/utils/appointmentDateUtils.js:17-18 | matched fields give a date only when it is a valid calendar date |
| Rfc2822.FieldsDate | frontend/src/utils/appointmentDateUtils.js:17-18 | fields that spell a valid UTC date-time with its own weekday give its date |
| Rfc2822.FormatIsCanonical | frontend/src/utils/appointmentDateUtils.js:17 | canonical RFC 2822 text is its own clean-up |
| Rfc2822.Match | frontend/src/utils/appointmentDateUtils.js:17 | a match carries the weekday written in front of the date, if any (1 to 7), and a month from 1 to 12 |
| Rfc2822.MatchLayout | frontend/src/utils/appointmentDateUtils.js:17 | text in the canonical layout is matched field by field |
| Rfc2822.FormatLayout | frontend/src/utils/appointmentDateUtils.js:17 | the canonical text puts each field's zero-padded digits at its fixed position |
| Rfc2822.RoundTrip | frontend/src/utils/appointmentDateUtils.js:17-18 | reading a formatted RFC 2822 date-time gives back its date |
| TimeFormats.MeridiemOf | frontend/src/utils/appointmentDateUtils.js:42 | `a` reads AM or PM in any letter case, and nothing else |
| TimeFormats.MatchClock | frontend/src/utils/appointmentDateUtils.js:42-44 | a meridiem is present exactly for the `a` formats; fields are at most two digits |
| TimeFormats.MeridiemClock | frontend/src/utils/appointmentDateUtils.js:42 | 12 AM is midnight, and PM hours are 12 to 23 |
| TimeFormats.FromFormat | frontend/src/utils/appointmentDateUtils.js:44-45 | a date-time read under a format is valid |
| TimeFormats.FirstSuccess | frontend/src/utils/appointmentDateUtils.js:43-46 | the loop fails exactly when every format fails |
| TimeFormats.FirstSuccessWins | frontend/src/utils/appointmentDateUtils.js:43-46 | the first format that reads the text gives the result |
| TimeFormats.FromFormatOnDate | frontend/src/utils/appointmentDateUtils.js:44 | `yyyy-MM-dd fmt` on a four-digit-year date reads the time on that date |
| TimeFormats.PaddedFormatsNeverWin | frontend/src/utils/appointmentDateUtils.js:42 | `hh:mm a` and `HH:mm` never decide the loop's result |
| TimeFormats.TwelveHourRoundTrip | frontend/src/utils/appointmentDateUtils.js:42-45 | a time written `h:mm AM/PM` is read back exactly under `h:mm a` |
| TimeFormats.AfternoonExample | frontend/src/utils/__tests__/appointmentDateUtils.test.js:18-24 | `2:15 PM` reads as 14:15 |
| Calendar.Normalize | frontend/src/utils/appointmentDateUtils.js:38 | a clock is accepted exactly when valid, or 24:00 |
| Calendar.DateOfEpochDayRoundTrip | frontend/src/utils/appointmentDateUtils.js:28 | converting a day to a day number and back is the identity |
| Calendar.EpochDayInjective | frontend/src/utils/appointmentDateUtils.js:28 | different valid dates have different day numbers |
| Calendar.UtcDateOfMillis | frontend/src/utils/appointmentDateUtils.js:28 | the UTC day of a time value is a valid date |
| Calendar.LocalOfMillis | frontend/src/utils/appointmentDateUtils.js:50 | the local wall-clock reading of a time value is valid |
| Calendar.KeyOrder | frontend/src/utils/appointmentDateUtils.js:61 | the sort key orders date-times chronologically, and equal keys mean equal date-times |
| Calendar.FormatIsoDate | frontend/src/utils/appointmentDateUtils.js:14 | `toISODate()` is ten characters with dashes at 4 and 7 |
| Sorting.Filter | frontend/src/utils/appointmentDateUtils.js:60 | a filtered list is no longer than its input and keeps only passing elements |
| Sorting.FilterContents | frontend/src/utils/appointmentDateUtils.js:60 | an element is kept exactly when it is in the input and passes |
| Sorting.SortBy | frontend/src/utils/appointmentDateUtils.js:61 | the sorted list has the input's length and is a permutation of it |
| Sorting.SortByCorrect | frontend/src/utils/appointmentDateUtils.js:61 | the sort is ordered by key and is a permutation |
| Sorting.SliceEnd | frontend/src/utils/appointmentDateUtils.js:62 | the end index `slice(0, limit)` uses, negative limits included |
| Sorting.TopByShape | frontend/src/utils/appointmentDateUtils.js:58-62 | the pipeline keeps passing input elements in key order, at most `limit`, and all of them when `limit` allows |
| Sorting.TopByComplete | frontend/src/utils/appointmentDateUtils.js:61-62 | the slice keeps the smallest keys |
| Sorting.TopByIncludes | frontend/src/utils/appointmentDateUtils.js:58-62 | every passing element is kept when the limit leaves room for all of them |
| JsText.Trim | frontend/src/utils/appointmentDateUtils.js:35 | `trim()` removes exactly the leading and trailing white space |
| JsText.SplitJoin | frontend/src/pages/PatientDashboard.js:159 | `split` loses nothing: joining the parts gives back the text |
| JsText.SplitSingle | frontend/src/pages/PatientDashboard.js:158 | a path is split into one part exactly when it has no dot |
| JsText.StripTrailing | frontend/src/services/api.js:9-10 | `replace(/\/+$/, '')` removes exactly the trailing slashes |
| DashboardDates.DashboardDateTime | frontend/src/pages/PatientDashboard.js:93-112 | the local helper yields a time value exactly when the runtime reads the date |
| DashboardDates.DashboardStrategyOrder | frontend/src/pages/PatientDashboard.js:97-108 | the `T` form comes first, then the spaced form, then the date's own value |
| DashboardDates.MissingAndNullDates | frontend/src/pages/PatientDashboard.js:97 | a missing date is invalid; a null date is read as 1970-01-01 |
| DashboardDates.FallbackKeepsDateValue | frontend/src/pages/PatientDashboard.js:107-108 | the final fallback is the date's own time value, not its midnight |
| DashboardDates.Stamp | frontend/src/pages/PatientDashboard.js:117 | each record is paired with its own time value, in order |
| DashboardDates.DashboardUpcoming | frontend/src/pages/PatientDashboard.js:114-121 | every entry has a time value after now and is not cancelled; the list is earliest first and holds at most three entries |
| DashboardDates.DashboardRecent | frontend/src/pages/PatientDashboard.js:123-130 | every entry has a time value at or before now; the list is latest first; a non-negative `limit` (5 when absent) bounds its length |
| DashboardDates.DashboardUpcomingShape | frontend/src/pages/PatientDashboard.js:114-121 | local upcoming entries are after now and not cancelled, earliest first, at most three |
| DashboardDates.DashboardRecentShape | frontend/src/pages/PatientDashboard.js:123-130 | local recent entries are at or before now, latest first, at most `limit` (5 by default) |
| DashboardDates.DashboardListsDisjoint | frontend/src/pages/PatientDashboard.js:118-127 | the two local lists share no entry, and an invalid date is in neither |
| DashboardDates.DashboardUpcomingKeepsEarliest | frontend/src/pages/PatientDashboard.js:119-120 | the three kept entries are the earliest upcoming ones |
| Dashboard.StatusBadgeClass | frontend/src/pages/PatientDashboard.js:266-279 | each known status has its own class, and any other value looks pending |
| Dashboard.GetDisplayValues | frontend/src/pages/PatientDashboard.js:75-90 | the doctor, department and purpose shown are never empty; an appointment date is shown only when the appointment has one, and the bill date only when it does not |
| Dashboard.DisplayDefaults | frontend/src/pages/PatientDashboard.js:75-90 | with no appointment and no bill: `Doctor`, dash, dash, `Consultation` |
| Dashboard.DisplayPrecedence | frontend/src/pages/PatientDashboard.js:76-88 | the appointment's doctor, department and purpose win over the bill's; a department neither gives is a dash, a purpose the appointment lacks is `Consultation` |
| Dashboard.DisplayFallbacks | frontend/src/pages/PatientDashboard.js:76-82 | a doctor named by neither record is `Doctor`, a department given by neither is a dash, and a present appointment date shows what `new Date` reads from it, or a dash exactly when it reads nothing |
| Dashboard.UnreadableDateShowsDash | frontend/src/pages/PatientDashboard.js:79-86 | a present but unreadable appointment date shows a dash, without consulting the bill |
| Dashboard.BillDateShown | frontend/src/pages/PatientDashboard.js:83-85 | without an appointment date, a readable bill date is shown |
| Dashboard.SetPath | frontend/src/pages/PatientDashboard.js:158-168 | a set touches only the first key of the path and keeps every other key |
| Dashboard.SetPathThenLookup | frontend/src/pages/PatientDashboard.js:158-168 | after a set, reading the path gives the value |
| Dashboard.SetPathOnEmpty | frontend/src/pages/PatientDashboard.js:161-165 | setting in an empty object builds the whole chain of objects |
| Dashboard.CreatesMissing | frontend/src/pages/PatientDashboard.js:162 | a missing or falsy step is replaced by a fresh object |
| Dashboard.SetPathDefined | frontend/src/pages/PatientDashboard.js:161-165 | a set succeeds exactly when no truthy primitive lies on the path |
| Dashboard.UndottedPathSetsKey | frontend/src/pages/PatientDashboard.js:166-167 | an undotted path sets just that key, on an empty object for a null form |
| Dashboard.DottedPathCreatesContact | frontend/src/pages/PatientDashboard.js:157-165 | `contact.phone` on a form without `contact` adds `{ phone }` and keeps the rest |
| Dashboard.DashboardState.HandleProfileInput | frontend/src/pages/PatientDashboard.js:154-171 | the loop's new form state is `SetPath` of the old one; on a TypeError the state is unchanged |
| Dashboard.Scrub | frontend/src/pages/PatientDashboard.js:208-212 | the payload is the form without `_id`, `user`, `patientId`, all other values unchanged |
| Dashboard.DashboardState.SaveProfile | frontend/src/pages/PatientDashboard.js:197-229 | the no-op, validation, success and error paths, each with its whole new state |
| Dashboard.EventDoctorId | frontend/src/pages/PatientDashboard.js:247 | a string doctor is passed on, a document gives its `_id`, or the document itself when that is falsy |
| Dashboard.CancelEventOf | frontend/src/pages/PatientDashboard.js:246-252 | no event is sent exactly when the date is present but invalid; otherwise the doctor, UTC day (or null) and time are passed on |
| Dashboard.EventDateShape | frontend/src/pages/PatientDashboard.js:248 | the event's date is `YYYY-MM-DD` |
| Dashboard.MarkUpdated | frontend/src/pages/PatientDashboard.js:241 | the local update keeps the list's length |
| Dashboard.MarkUpdatedOnlyStatus | frontend/src/pages/PatientDashboard.js:241 | only the status of records with the updated id changes |
| Dashboard.MarkUpdatedIdempotent | frontend/src/pages/PatientDashboard.js:241 | applying the same reply twice is applying it once |
| Dashboard.DashboardState.ConfirmCancel | frontend/src/pages/PatientDashboard.js:231-264 | the no-id, success and failure paths, each with the list, event, toast and cleared pending id |
| Dashboard.DashboardState.constructor | frontend/src/pages/PatientDashboard.js:15-26 | the initial state slots |
| ApiClient.BaseUrl | frontend/src/services/api.js:5-15 | the four cases of the base URL as written |
| ApiClient.BaseUrlEndsWithApi | frontend/src/services/api.js:8-14 | whatever is configured, the base URL ends in `/api` |
| ApiClient.BaseUrlIdempotent | frontend/src/services/api.js:7-10 | configuring the computed base URL again gives it back |
| ApiClient.TrailingSlashesIgnored | frontend/src/services/api.js:10 | trailing slashes after a root are ignored |
| ApiClient.TrailingSlashAfterApi | frontend/src/services/api.js:9-10 | as written, `http://h:5000/api/` becomes `http://h:5000/api/api` |
| ApiClient.IntendedBaseUrl | frontend/src/services/api.js:4-10 | the corrected base URL strips the slashes first, then appends `/api` only if it is missing |
| ApiClient.IntendedIgnoresTrailingSlash | frontend/src/services/api.js:4 | the corrected base URL does not depend on a trailing slash |
| ApiClient.IntendedAgreesWithoutSlash | frontend/src/services/api.js:7-15 | without a trailing slash, the corrected and written base URLs agree |
| ApiClient.IntendedBaseUrlStable | frontend/src/services/api.js:8 | the corrected base URL ends in `/api` and is its own normal form |
| ApiClient.IntendedTrailingSlashAfterApi | frontend/src/services/api.js:4 | the corrected base URL reads `http://h:5000/api/` as `http://h:5000/api` |
| ApiClient.WithAuth | frontend/src/services/api.js:34-42 | a token sets `Bearer <token>`, its absence removes the header, other headers are kept |
| ApiClient.WithAuthIdempotent | frontend/src/services/api.js:31-43 | setting the header twice is setting it once |
| ApiClient.ClearCredentials | frontend/src/services/api.js:73-74 | the token and the user are removed and nothing else changes |
| ApiClient.IsLoginOrSignup | frontend/src/services/api.js:57 | a URL exempt from the 401 handling always contains `/auth/` |
| ApiClient.AuthPathsAreAuth | frontend/src/services/api.js:57 | each of the three exempt paths lies under `/auth/` |
| ApiClient.Client.OnRequest | frontend/src/services/api.js:29-48 | the request and the defaults both get the header, or both lose it |
| ApiClient.Client.OnResponseError | frontend/src/services/api.js:51-83 | the error is passed on; a 401 outside login/signup clears the session and redirects unless already at `/login` |
| ApiClient.NoBearerAfterLogout | frontend/src/services/api.js:31-41 | after a 401 clears the session, no request carries a bearer header |
| ApiClient.LoginUrlIsExempt | frontend/src/services/api.js:57 | `/api/auth/login` is exempt from the logout |
| Signup.AfterEdit | frontend/src/pages/PatientSignup.js:31-41 | both inputs blank resets the checks; otherwise they stay until the check answers |
| Signup.Answered | frontend/src/pages/PatientSignup.js:57-69 | both fields are marked checked with the flags the server sent; each message says available exactly when the flag is set |
| Signup.Failed | frontend/src/pages/PatientSignup.js:70-76 | a cancelled request changes nothing; any other failure marks both fields as errors and keeps their availability flags |
| Signup.AnsweredMessages | frontend/src/pages/PatientSignup.js:57-69 | an answered check marks both fields checked, with messages that tell free from taken |
| Signup.FailureKeepsFlags | frontend/src/pages/PatientSignup.js:70-76 | a failed check never changes availability; a non-cancelled failure marks both fields as errors |
| Signup.ClearedInputsAllowSignup | frontend/src/pages/PatientSignup.js:35-41 | clearing both inputs makes both fields available again |
| Signup.Utf16Length | frontend/src/pages/PatientSignup.js:107 | `.length` counts between one and two units per character |
| Signup.Utf16LengthBmp | frontend/src/pages/PatientSignup.js:107 | within the Basic Multilingual Plane, `.length` is the number of characters |
| Signup.Guard | frontend/src/pages/PatientSignup.js:101-119 | signup proceeds exactly when all three guards pass, sending the form without `confirmPassword` |
| Signup.MismatchFirst | frontend/src/pages/PatientSignup.js:101-105 | a mismatch is reported before anything else |
| Signup.ShortPasswordSecond | frontend/src/pages/PatientSignup.js:107-111 | a short, matching password is reported before availability |
| Signup.FiveCharactersTooShort | frontend/src/pages/PatientSignup.js:107-111 | five characters are too short |
| Signup.TakenRefused | frontend/src/pages/PatientSignup.js:113-117 | a taken email or username refuses signup |
| Signup.AnsweredGuard | frontend/src/pages/PatientSignup.js:57-69 | after an answered check, signup proceeds exactly when both values are free and the password is fine |
| Signup.SignupForm.constructor | frontend/src/pages/PatientSignup.js:7-24 | all ten form fields start empty, nothing is checked, nothing is loading and there is no error |
| Signup.SignupForm.HandleChange | frontend/src/pages/PatientSignup.js:88-94 | one field takes the new value, and the error clears |
| Signup.SignupForm.HandleSubmit | frontend/src/pages/PatientSignup.js:96-129 | a failing guard sets its message and sends nothing; otherwise the scrubbed form is sent and the result navigates or shows its message |
| BootstrapAdmin.ParseTokens | backend/scripts/bootstrapAdmin.js:15-28 | a successful parse keeps every key already read, and every value it adds is non-empty and not a flag |
| BootstrapAdmin.ParseArgs | backend/scripts/bootstrapAdmin.js:13-29 | the loop computes `ParseTokens` on the tokens after the script path |
| BootstrapAdmin.StoredKeysComeFromFlags | backend/scripts/bootstrapAdmin.js:17-25 | every stored key was given as `--key` followed by its stored value |
| BootstrapAdmin.NoFlagsNoArgs | backend/scripts/bootstrapAdmin.js:15-17 | tokens that are not flags are ignored |
| BootstrapAdmin.PairStored | backend/scripts/bootstrapAdmin.js:24-25 | a pair stores its value and parsing continues after it |
| BootstrapAdmin.RepeatedKeyLastWins | backend/scripts/bootstrapAdmin.js:24 | a repeated key keeps the last value |
| BootstrapAdmin.MissingValueReported | backend/scripts/bootstrapAdmin.js:19-23 | a flag with no value, an empty value or a flag after it stops the script, naming that flag |
| BootstrapAdmin.OnlyUserTokensRead | backend/scripts/bootstrapAdmin.js:15 | the node and script paths are never read |
| BootstrapAdmin.Settings | backend/scripts/bootstrapAdmin.js:33-41 | the usage error occurs exactly when the email or the password is empty |
| BootstrapAdmin.SettingsDefaults | backend/scripts/bootstrapAdmin.js:33-36 | the email is the given email lower-cased; the username defaults to the email before `@`; the name defaults to the username |
| BootstrapAdmin.Prepare | backend/scripts/bootstrapAdmin.js:31-41 | a missing flag value stops the script with that error before the usage check; otherwise the outcome is that of the settings check on the parsed arguments |
| BootstrapAdmin.MissingPasswordIsUsage | backend/scripts/bootstrapAdmin.js:38-41 | an email without a password is a usage error |

## Left out

- Luxon `fromISO` forms beyond calendar dates, times and numeric offsets are not recognised: week dates, ordinal dates, signed six-digit years, time-only text and zone names in brackets. Such text falls through to the RFC 2822 and `new Date` steps.
- Zone tokens of Luxon's `fromRFC2822`: the model reads `GMT`, `Z`, `z`, the eight North American zone names and numeric offsets, and no other token; obsolete zone letters beyond these are not modelled. `UT` is matched by Luxon's pattern but has no offset in its table, so such a date-time is invalid there and is not read here either; the date then falls through to `new Date`.
- The exit when `MONGODB_URI` is unset (bootstrapAdmin.js lines 8-11) is not modelled: `BootstrapAdmin.Prepare` starts from the command line.
- `Iso8601.FractionMillis` reads the first three fraction digits exactly. Luxon goes through a double, `Math.floor(parseFloat("0." + f) * 1000)`, and the two differ once a fraction has 17 or more digits. For example, `.12399999999999999999` is 124 ms in Luxon and 123 here, and a run of 17 nines rounds to 1000 ms in Luxon, which makes the ISO reading invalid. Floating point is not modelled.
- `new Date(string)` is an uninterpreted parameter: the runtime's parsing rules are not modelled.
- The viewer's time zone is one fixed offset: daylight-saving changes are not modelled. "Now" is a parameter.
- `AppointmentDates.Upcoming` and `AppointmentDates.Recent`: date-times are compared by their wall-clock fields, which matches the order of instants only under the fixed offset assumed above.
- Locale formatting (`toLocaleDateString`) is not modelled: `Dashboard.GetDisplayValues` returns the time value to show instead of the text.
- JSON arrays and inherited (prototype) properties are not part of `Dashboard.Json`.
- `Dashboard.DashboardState.HandleProfileInput` works on values. The source's `{ ...prev }` copies only the top level and then mutates the nested objects it shares with the previous state; that aliasing is not captured.
- A TypeError thrown in the profile setter's updater is modelled as the state staying as it was. The React error path that follows is not modelled.
- Toast timers (`setTimeout`) are not modelled. The loading flag, tabs, the avatar preview and the copy and print helpers are not modelled either, because no modelled property depends on them.
- The availability request itself is not modelled: its 400 ms debounce, its abort and the `checking` flag. Only what its outcomes write is (`Signup.Answered`, `Signup.Failed`).
- Network calls (`api.get`, `api.patch`, `patientSignup`) are replaced by their replies, passed as parameters. The order of the awaited re-fetch in `confirmCancel` is reduced to its final effect on the list.
- `BootstrapAdmin.Settings` lower-cases ASCII letters only. JavaScript's `toLowerCase` also folds other scripts.
- The database work of `bootstrapAdmin.js` (connecting, upserting the user and the allowed-admin record) is I/O and is not modelled.
- The billing wrappers of `api.js` (`createBill` and the rest) are not modelled: they only pass replies through.
- The success half of the response interceptor is the identity and is not modelled.
- `process.exit` and the console messages become `Err` values of `BootstrapAdmin.ArgError`.

## Findings

| source | as written | input that shows it | evidently intended | confidence | as-written member | corrected member |
|---|---|---|---|---|---|---|
| frontend/src/services/api.js:9-10 | the `/api` test runs before the trailing slashes are stripped, so a value ending in `/api/` fails it and gains a second `/api` | `REACT_APP_API_URL=http://h:5000/api/` gives `http://h:5000/api/api` | `http://h:5000/api`, as the comment at line 4 promises for a URL given "with or without a trailing /api" | not executed | ApiClient.TrailingSlashAfterApi | ApiClient.IntendedBaseUrl |
