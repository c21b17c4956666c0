# RFID school attendance: verified model of the reader state machine and the backend checks

This project models the core of an RFID attendance system in Dafny.

On the reader (an ESP8266 with an RC522 card reader and a 16x2 LCD), a teacher's
admin card opens an attendance session. Student cards tapped during the session
are collected into a bounded list of at most 50 cards, without duplicates. An admin
card then closes the session and posts the list to the backend as one batch.
A separate reset card, tapped while no session is open, asks the backend to delete
today's attendance.

On the backend, `markAttendance` upper-cases the identifiers and validates the request
in a fixed order before inserting one record per student. `getAnalytics` computes a
student's attendance streak.

Modules:

- `AttendanceSession` (session.dfy): the reader's state machine as values. It covers
  the `Session` state, the per-card `Step`, runs of taps, and the lemmas about them.
- `AttendanceReader` (reader.dfy): the firmware globals `inAttendanceQueue`,
  `recordedUIDs[50]` and `UIDCount` as a class with an array. Its methods update the
  globals in place, and each is proved to follow `AttendanceSession`.
- `UidFormat` (uid_format.dfy): the byte-to-hex loop that turns a card's serial number
  into its identifier text.
- `Lcd` (lcd.dfy): the cursor walk of `printToLCD` and the prompt choice of `printTapMsg`.
- `MarkAttendance` (mark_attendance.dfy): the `markAttendance` handler over abstract
  user and holiday tables.
- `Analytics` (analytics.dfy): `schoolDaysSoFar` and the streak loop of `getAnalytics`.
- `Text`, `Wrappers`, `Numbers`: ASCII upper-casing, `Option` and `Min`.

External results are inputs. Each step takes the HTTP status code that the one request
of that step would receive; a transport error is a code of 0 or less. The bulk insert of
`markAttendance` takes the database error it would raise, if any. The JSON body of the
mark request is the record `Payload(markedBy, studentIds)`.

## Behaviour worth knowing

- A failed submission does not empty the list. `UIDCount` is zeroed only on a 2xx answer
  (embedded/src/attendance.cpp:272-278), but the session is always left (line 294).
  Opening a session never clears the list (line 228). So the cards of a failed batch are
  submitted again with the next session: see `FailedSubmissionCarriesOver`. The lists
  are therefore not always empty while idle, and no such invariant is claimed.
- The reset card is not in `ADMIN_CARDS`, and it is only checked while idle (line 115).
  During a session it is therefore recorded like a student card: see
  `ResetCardRecordedInSession`.
- The firmware does not remember which admin card opened a session. Any admin card closes
  it, and the closing card is the one sent as `markedBy`.

## Model

| member | source | states |
|---|---|---|
| `AttendanceReader.IsAdmin` | embedded/src/attendance.cpp:335-343 | the scan answers true exactly when the card is one of the admin cards |
| `AttendanceSession.AddUid` | embedded/src/attendance.cpp:307-333 | the list is either unchanged or extended by the card at its end; the card is in the new list iff it was already there or there was room; capacity and distinctness are kept; the session flag is untouched |
| `AttendanceSession.Manage` | embedded/src/attendance.cpp:219-305 | the card is passed on to `addUID` exactly when a session is open and the card is not an admin card; otherwise the list is either kept or emptied, never extended |
| `AttendanceSession.Step` | embedded/src/attendance.cpp:109-152 | a step keeps the list within 50 distinct cards, and never adds an admin card to it |
| `AttendanceSession.Requests` | embedded/src/attendance.cpp:115-140 | a step sends at most one request, and it is the reset request exactly when the reset branch was taken |
| `AttendanceSession.IdleNonAdminRefused` | embedded/src/attendance.cpp:221-238 | while idle, a card that is neither an admin card nor the reset card changes nothing and sends nothing |
| `AttendanceSession.IdleAdminOpens` | embedded/src/attendance.cpp:223-229 | while idle, an admin card opens a session, keeps the list as it was, and sends nothing |
| `AttendanceSession.IdleResetCard` | embedded/src/attendance.cpp:115-140 | while idle, the reset card sends exactly one reset request, changes no state for any status code, and succeeds iff the code is 2xx |
| `AttendanceSession.ResetCardRecordedInSession` | embedded/src/attendance.cpp:111-152 | the reset card is not an admin card, and during a session it is appended like a student card |
| `AttendanceSession.SessionNonAdminRecorded` | embedded/src/attendance.cpp:142-149 | during a session a non-admin card is handled exactly by `addUID` and sends nothing |
| `AttendanceSession.EmptyClose` | embedded/src/attendance.cpp:244-253 | an admin card closing an empty session leaves it without any request |
| `AttendanceSession.CloseSubmits` | embedded/src/attendance.cpp:256-297 | an admin card closing a non-empty session sends one request carrying that card and the recorded cards in tap order; the session is left for every code; the list is emptied on a 2xx code and kept otherwise |
| `AttendanceSession.AddUidIdempotent` | embedded/src/attendance.cpp:309-318 | adding the same card twice is the same as adding it once |
| `AttendanceSession.StepIdempotentForStudents` | embedded/src/attendance.cpp:142-149 | during a session, tapping the same student card twice has the effect of tapping it once |
| `AttendanceSession.RunWellFormed` | embedded/src/attendance.cpp:307-333 | every run of taps keeps the list at most 50 long with pairwise distinct entries |
| `AttendanceSession.RunNeverRecordsAdmins` | embedded/src/attendance.cpp:240-303 | no run of taps ever records an admin card |
| `AttendanceSession.RecordUpToCapacity` | embedded/src/attendance.cpp:320-332 | during a session, distinct new student cards are recorded in tap order until the list holds 50, later ones are refused, and no request is sent |
| `AttendanceSession.FailedSubmissionCarriesOver` | embedded/src/attendance.cpp:268-294 | after a non-2xx close, reopening and closing again submits the old cards followed by the new ones |
| `AttendanceSession.ExampleSession` | embedded/src/attendance.cpp:109-152 | admin 1, S1, S2, S1, admin 2 submits exactly `[S1, S2]` marked by admin 2, and a 2xx answer returns the reader to its initial state |
| `AttendanceReader.Reader.constructor` | embedded/src/attendance.cpp:34-38 | power-on state: no session, empty list, array of 50 |
| `AttendanceReader.Reader.AddUID` | embedded/src/attendance.cpp:307-333 | the duplicate scan and append on the array produce the state and outcome of `AddUid` |
| `AttendanceReader.Reader.BuildJSONPayload` | embedded/src/attendance.cpp:345-365 | the payload is the given card and the recorded prefix of the array, in order |
| `AttendanceReader.Reader.ManageAttendanceQueue` | embedded/src/attendance.cpp:219-305 | the in-place updates follow `Manage`; when it returns 0 the globals are unchanged |
| `AttendanceReader.Reader.Loop` | embedded/src/attendance.cpp:109-152 | one pass of the card dispatch updates the globals exactly as `Step` does |
| `UidFormat.ArduinoHex` | embedded/src/attendance.cpp:208 | `String(b, HEX)` has one digit below 0x10 and two otherwise |
| `UidFormat.FormatUid` | embedded/src/attendance.cpp:200-216 | the pad-and-append loop followed by upper-casing yields two upper-case hex digits per byte, high nibble first |
| `UidFormat.UidTextIsUpperHex` | embedded/src/attendance.cpp:200-214 | every character of an identifier is in 0-9 or A-F |
| `UidFormat.UidTextByte` | embedded/src/attendance.cpp:204-209 | byte i is at characters 2i and 2i+1, and a byte below 0x10 starts with '0' |
| `UidFormat.UidTextInjective` | embedded/src/attendance.cpp:200-214 | serial numbers of equal length with equal text are equal |
| `UidFormat.UidTextExample` | embedded/src/attendance.cpp:200-214 | bytes 0x0A, 0x3C give "0A3C" |
| `Lcd.PrintToLcd` | embedded/src/attendance.cpp:367-398 | the loop with its line-break, wrap and stop tests makes exactly the writes of the reference walk `Layout` |
| `Lcd.LayoutLaidOut` | embedded/src/attendance.cpp:375-397 | every write is at column < 16 and row < 2, and none is a line break; at most 32 writes go to strictly increasing cells; the characters written are a prefix of the message without its line breaks; a message without line breaks fills the cells row by row, up to 32 characters |
| `Lcd.TwoLines` | embedded/src/attendance.cpp:377-396 | for a two-line message whose first line fits on a row, the first line is written on row 0 from column 0, and the second on row 1 from column 0, cut after 16 characters |
| `Lcd.LayoutSegment` | embedded/src/attendance.cpp:384-396 | a stretch without line breaks that fits on the current row is written left to right from the cursor |
| `Lcd.TapMessage` | embedded/src/attendance.cpp:400-410 | the teacher prompt is chosen exactly when no session is open |
| `Text.ToUpper` | backend/src/controllers/index.controller.js:13-15 | same length; each lower-case letter becomes the upper-case letter 32 code points below it, every other character is kept |
| `Text.ToUpperIdempotent` | backend/src/controllers/index.controller.js:13-15 | upper-casing twice is upper-casing once |
| `MarkAttendance.Normalize` | backend/src/controllers/index.controller.js:13-15 | the marker and every listed id are upper-cased, in place and order |
| `MarkAttendance.ValidStudents` | backend/src/controllers/index.controller.js:37-40 | an id is valid iff it is listed and is a student in the user table |
| `MarkAttendance.BuildRecords` | backend/src/controllers/index.controller.js:46-50 | exactly one record per valid student, dated today and marked by the teacher |
| `MarkAttendance.MarkAttendance` | backend/src/controllers/index.controller.js:9-68 | an HTTP error inserts nothing; a success reports the number of records attempted |
| `MarkAttendance.HolidayRefusedFirst` | backend/src/controllers/index.controller.js:20-27 | a holiday today gives 400 with its reason, whatever the teacher and students |
| `MarkAttendance.UnknownTeacherRefused` | backend/src/controllers/index.controller.js:29-35 | on a school day, a marker that is not a teacher gives 404 and no insert |
| `MarkAttendance.NoStudentsRefused` | backend/src/controllers/index.controller.js:37-44 | with a teacher on a school day, no listed student gives 400 and no insert |
| `MarkAttendance.AcceptedRecords` | backend/src/controllers/index.controller.js:46-67 | one record per distinct valid student is attempted; no error or a duplicate-key error reports that count; any other error is rethrown |
| `MarkAttendance.CaseInsensitive` | backend/src/controllers/index.controller.js:13-15 | a request and its upper-cased form get the same result, so only upper-cased ids reach the lookups |
| `MarkAttendance.AttemptedUsersListed` | backend/src/controllers/index.controller.js:37-50 | every attempted record is for a listed id (upper-cased) of a student, dated today and marked by the upper-cased marker |
| `Analytics.SchoolDaysSoFar` | backend/src/controllers/index.controller.js:125-126 | the result is at least 1 and at least days minus holidays, and equals one of the two |
| `Analytics.LatestSchoolDay` | backend/src/controllers/index.controller.js:147-149 | the holiday skip ends on a non-holiday not after the start, with only holidays in between |
| `Analytics.ComputeStreak` | backend/src/controllers/index.controller.js:142-157 | the loop with its nested holiday skip computes `Streak` |
| `Analytics.NthSchoolDay` | backend/src/controllers/index.controller.js:147-153 | the j-th school day back is not after the start and is not a holiday |
| `Analytics.StreakAtMostRecords` | backend/src/controllers/index.controller.js:143-157 | the streak never exceeds the number of records |
| `Analytics.StreakDaysAttended` | backend/src/controllers/index.controller.js:146-153 | each of the streak's school days, counting back from today and skipping holidays, has a record |
| `Analytics.StreakStopsAtGap` | backend/src/controllers/index.controller.js:146-157 | with records newest first and one per day, the next school day after the streak has no record |

## Left out

- Wi-Fi provisioning, mDNS and the lost-connection branch of `loop` (embedded/src/attendance.cpp:69-106, 155-184): network set-up I/O.
- The MFRC522 calls (`PICC_IsNewCardPresent`, `PICC_ReadCardSerial`, `PICC_HaltA`, `PCD_StopCrypto1`): hardware. A missing card is the empty card string given to `Loop`.
- `HTTPClient` and ArduinoJson: foreign libraries. The status code is an input, the JSON body is the `Payload` record, and the response body read at line 270 is not used.
- The LCD object, buzzer beeps and `delay`: hardware and timing. Only the layout walk and the prompt choice are modelled. The status texts are represented by the `Outcome` alternatives, not as strings.
- `AttendanceReader.Reader.ManageAttendanceQueue`: when it passes a student card on (the source's return value 0), the returned outcome is not constrained; only the unchanged state is.
- `Text.ToUpper`: ASCII only. JavaScript's `toUpperCase` also maps non-ASCII letters; card identifiers are hex text.
- embedded/src/ai_analytics.cpp and embedded/src/access_control.cpp: an audio demo and a servo demo. The first only repeats the identifier formatting. The second has a different `printToLCD` without the row bound.
- frontend/script.js: browser UI.
- The percentages and `performance` of `getAnalytics` (backend/src/controllers/index.controller.js:129-162): floating point with `toFixed`/`parseFloat`. Its student lookup and the date strings of its response are also left out.
- `getRole`, `resetAttendanceForToday`, Mongoose queries and models, the Express app, routes, seeding and the error handler: database and web wiring. Lookups are the abstract tables.
- `MarkAttendance.MarkAttendance`: a request body without a string `markedBy` or an array `studentIds` makes the source throw a TypeError; this path is not modelled.
- `MarkAttendance.MarkAttendance`: records name users by `userId`, which the user schema makes unique, instead of by the database `_id`. Which records an unordered insert stores before failing is not modelled, only the batch attempted.
- `Analytics.ComputeStreak`: dates are day numbers. The month window of the queries is not modelled: the records and holidays are the inputs.
