/**
 * The `markAttendance` handler of the backend: upper-case the identifiers,
 * refuse on a holiday, refuse an unknown teacher, refuse when no listed
 * identifier is a student, then insert one record per student and ignore
 * duplicate-key errors. The database is abstracted: users are a table from
 * `userId` (unique) to role, holidays a table from day number (unique) to
 * reason, and the outcome of the bulk insert is an input.
 */
module MarkAttendance {
  import opened Wrappers
  import opened Text

  datatype Role = Student | Teacher | Reset

  type UserTable = map<string, Role>
  type HolidayTable = map<int, string>

  datatype MarkRequest = MarkRequest(markedBy: string, studentIds: seq<string>)

  /** A database error: its `code`, and the codes of its `writeErrors` when it has that list. */
  datatype DbError = DbError(code: Option<int>, writeErrors: Option<seq<int>>)

  datatype AttendanceRecord = AttendanceRecord(user: string, date: int, markedBy: string)

  datatype Response =
    | Marked(count: nat)
    | HttpError(status: int, message: string)
    | Rethrown(error: DbError)

  /** The records handed to the bulk insert (none when refused), and the response. */
  datatype MarkResult = MarkResult(attempted: set<AttendanceRecord>, response: Response)

  const DUPLICATE_KEY: int := 11000

  /** Both identifier fields upper-cased, element by element. */
  function Normalize(req: MarkRequest): (n: MarkRequest)
    ensures n.markedBy == ToUpper(req.markedBy)
    ensures |n.studentIds| == |req.studentIds|
    ensures forall i :: 0 <= i < |n.studentIds| ==> n.studentIds[i] == ToUpper(req.studentIds[i])
  {
    MarkRequest(ToUpper(req.markedBy),
                seq(|req.studentIds|, i requires 0 <= i < |req.studentIds| => ToUpper(req.studentIds[i])))
  }

  predicate IsTeacher(users: UserTable, id: string) {
    id in users && users[id] == Teacher
  }

  /** `User.find` with `$in` and role "student": each matching user once. */
  function ValidStudents(users: UserTable, ids: seq<string>): (v: set<string>)
    ensures forall id :: id in v <==> id in ids && id in users && users[id] == Student
  {
    set id | id in ids && id in users && users[id] == Student
  }

  /** One record per valid student, dated today and marked by the teacher. */
  function BuildRecords(students: set<string>, today: int, teacher: string): (rs: set<AttendanceRecord>)
    ensures |rs| == |students|
    ensures forall r :: r in rs <==> r.user in students && r.date == today && r.markedBy == teacher
  {
    var rs := set id | id in students :: AttendanceRecord(id, today, teacher);
    RecordCount(students, today, teacher);
    rs
  }

  lemma {:induction false} RecordCount(students: set<string>, today: int, teacher: string)
    ensures |set id | id in students :: AttendanceRecord(id, today, teacher)| == |students|
    decreases |students|
  {
    if students != {} {
      var x :| x in students;
      var rest := students - {x};
      RecordCount(rest, today, teacher);
      assert (set id | id in students :: AttendanceRecord(id, today, teacher))
        == (set id | id in rest :: AttendanceRecord(id, today, teacher)) + {AttendanceRecord(x, today, teacher)};
    } else {
      assert (set id | id in students :: AttendanceRecord(id, today, teacher)) == {};
    }
  }

  /** The duplicate-key test: code 11000 on the error itself or on one of its write errors. */
  predicate IsDuplicateError(e: DbError) {
    e.code == Some(DUPLICATE_KEY) || (e.writeErrors.Some? && DUPLICATE_KEY in e.writeErrors.value)
  }

  function HolidayMessage(reason: string): string {
    "Cannot mark attendance. Today is " + reason + "."
  }

  /** `markAttendance` for the day `today`, given the outcome of the bulk insert. */
  function MarkAttendance(req: MarkRequest, today: int, holidays: HolidayTable, users: UserTable,
                          insertError: Option<DbError>): (r: MarkResult)
    ensures r.response.HttpError? ==> r.attempted == {}
    ensures r.response.Marked? ==> r.response.count == |r.attempted|
  {
    var n := Normalize(req);
    if today in holidays then
      MarkResult({}, HttpError(400, HolidayMessage(holidays[today])))
    else if !IsTeacher(users, n.markedBy) then
      MarkResult({}, HttpError(404, "Teacher not found"))
    else
      var valid := ValidStudents(users, n.studentIds);
      if valid == {} then
        MarkResult({}, HttpError(400, "No valid student IDs provided"))
      else
        var records := BuildRecords(valid, today, n.markedBy);
        if insertError.Some? && !IsDuplicateError(insertError.value) then
          MarkResult(records, Rethrown(insertError.value))
        else
          MarkResult(records, Marked(|records|))
  }

  // ---------------------------------------------------------------------
  // Properties
  // ---------------------------------------------------------------------

  /** A holiday today refuses with 400 before the teacher is looked up. */
  lemma HolidayRefusedFirst(req: MarkRequest, today: int, holidays: HolidayTable, users: UserTable,
                            insertError: Option<DbError>)
    requires today in holidays
    ensures MarkAttendance(req, today, holidays, users, insertError) ==
      MarkResult({}, HttpError(400, HolidayMessage(holidays[today])))
  {
  }

  /** On a school day, a marker that is not a teacher after upper-casing is refused with 404. */
  lemma UnknownTeacherRefused(req: MarkRequest, today: int, holidays: HolidayTable, users: UserTable,
                              insertError: Option<DbError>)
    requires today !in holidays && !IsTeacher(users, ToUpper(req.markedBy))
    ensures MarkAttendance(req, today, holidays, users, insertError) ==
      MarkResult({}, HttpError(404, "Teacher not found"))
  {
  }

  /** With a teacher on a school day, a list naming no student is refused with 400. */
  lemma NoStudentsRefused(req: MarkRequest, today: int, holidays: HolidayTable, users: UserTable,
                          insertError: Option<DbError>)
    requires today !in holidays && IsTeacher(users, ToUpper(req.markedBy))
    requires forall i :: 0 <= i < |req.studentIds| ==>
      var id := ToUpper(req.studentIds[i]); id !in users || users[id] != Student
    ensures MarkAttendance(req, today, holidays, users, insertError) ==
      MarkResult({}, HttpError(400, "No valid student IDs provided"))
  {
    var n := Normalize(req);
    assert ValidStudents(users, n.studentIds) == {} by {
      forall id | id in n.studentIds
        ensures id !in users || users[id] != Student
      {
        var i :| 0 <= i < |n.studentIds| && n.studentIds[i] == id;
      }
    }
  }

  /**
   * When every check passes, one record is attempted per distinct student
   * named (after upper-casing), dated today and marked by the teacher; a
   * duplicate-key error or no error reports that count, any other error is
   * passed on.
   */
  lemma AcceptedRecords(req: MarkRequest, today: int, holidays: HolidayTable, users: UserTable,
                        insertError: Option<DbError>)
    requires today !in holidays && IsTeacher(users, ToUpper(req.markedBy))
    requires ValidStudents(users, Normalize(req).studentIds) != {}
    ensures var r := MarkAttendance(req, today, holidays, users, insertError);
      var valid := ValidStudents(users, Normalize(req).studentIds);
      && |r.attempted| == |valid|
      && (forall rec :: rec in r.attempted <==>
            rec.user in valid && rec.date == today && rec.markedBy == ToUpper(req.markedBy))
      && (insertError.None? || IsDuplicateError(insertError.value) ==> r.response == Marked(|valid|))
      && (insertError.Some? && !IsDuplicateError(insertError.value) ==> r.response == Rethrown(insertError.value))
  {
  }

  /**
   * Every identifier that reaches a lookup is upper-cased: a request and its
   * upper-cased form get the same result.
   */
  lemma {:induction false} CaseInsensitive(req: MarkRequest, today: int, holidays: HolidayTable,
                                           users: UserTable, insertError: Option<DbError>)
    ensures MarkAttendance(Normalize(req), today, holidays, users, insertError) ==
      MarkAttendance(req, today, holidays, users, insertError)
  {
    var n := Normalize(req);
    ToUpperIdempotent(req.markedBy);
    forall i | 0 <= i < |req.studentIds|
      ensures Normalize(n).studentIds[i] == n.studentIds[i]
    {
      ToUpperIdempotent(req.studentIds[i]);
    }
    assert Normalize(n) == n;
  }

  /** Every attempted record is for a user listed in the request, upper-cased. */
  lemma AttemptedUsersListed(req: MarkRequest, today: int, holidays: HolidayTable, users: UserTable,
                             insertError: Option<DbError>, rec: AttendanceRecord)
    requires rec in MarkAttendance(req, today, holidays, users, insertError).attempted
    ensures exists i :: 0 <= i < |req.studentIds| && rec.user == ToUpper(req.studentIds[i])
    ensures users[rec.user] == Student && rec.date == today && rec.markedBy == ToUpper(req.markedBy)
  {
    var n := Normalize(req);
    assert rec.user in n.studentIds;
    var i :| 0 <= i < |n.studentIds| && n.studentIds[i] == rec.user;
  }
}
