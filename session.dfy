/**
 * The attendance-session state machine of the card reader firmware, as
 * values. `Session` is the firmware's global state (`inAttendanceQueue` and
 * the recorded prefix `recordedUIDs[0..UIDCount)`); `Step` is what `loop`
 * does with one card string and the HTTP status code of the one request the
 * step may send. The class in reader.dfy is proved to follow `Step`.
 */
module AttendanceSession {
  import opened Wrappers
  import opened Numbers

  const MAX_STUDENTS: nat := 50
  const ADMIN_CARDS: seq<string> := ["A3517729", "5D497406"]
  const RESET_CARD_UID: string := "4340F113"

  predicate IsAdminCard(uid: string) {
    uid in ADMIN_CARDS
  }

  /** The success test applied to both HTTP responses. */
  predicate Is2xx(httpCode: int) {
    200 <= httpCode < 300
  }

  /** The JSON body of the mark-attendance request, as a record. */
  datatype Payload = Payload(markedBy: string, studentIds: seq<string>)

  datatype HttpRequest = ResetPost | MarkPost(body: Payload)

  datatype Session = Session(inAttendanceQueue: bool, recorded: seq<string>)

  /** What a step did, one alternative per message the firmware shows. */
  datatype Outcome =
    | NoCard
    | ResetCalled(succeeded: bool)
    | QueueStarted
    | InvalidTeacher
    | NoIdsRecorded
    | Submitted(payload: Payload, marked: bool)
    | AlreadyAdded(total: nat)
    | IdAdded(total: nat)
    | ArrayFull

  /** One card presentation with the status code the server would answer. */
  datatype Tap = Tap(card: string, httpCode: int)

  predicate Distinct(ids: seq<string>) {
    forall i, j :: 0 <= i < j < |ids| ==> ids[i] != ids[j]
  }

  /** The invariant of the recorded list: at most 50 entries, all different. */
  predicate WellFormed(s: Session) {
    |s.recorded| <= MAX_STUDENTS && Distinct(s.recorded)
  }

  const Initial: Session := Session(false, [])

  /** The HTTP requests a step sends. */
  function Requests(o: Outcome): (rs: seq<HttpRequest>)
    ensures |rs| <= 1
    ensures rs == [ResetPost] <==> o.ResetCalled?
  {
    match o
    case ResetCalled(_) => [ResetPost]
    case Submitted(p, _) => [MarkPost(p)]
    case _ => []
  }

  /** `addUID`: a duplicate changes nothing, a new card is appended while there is room. */
  function AddUid(s: Session, card: string): (r: (Session, Outcome))
    ensures r.0.inAttendanceQueue == s.inAttendanceQueue
    ensures r.0.recorded == s.recorded || r.0.recorded == s.recorded + [card]
    ensures card in r.0.recorded <==> card in s.recorded || |s.recorded| < MAX_STUDENTS
    ensures WellFormed(s) ==> WellFormed(r.0)
  {
    if card in s.recorded then (s, AlreadyAdded(|s.recorded|))
    else if |s.recorded| < MAX_STUDENTS then
      (s.(recorded := s.recorded + [card]), IdAdded(|s.recorded| + 1))
    else (s, ArrayFull)
  }

  /**
   * `manageAttendanceQueue`: `Some` when it handles the card (the caller
   * returns), `None` when a session is open and the card is not an admin
   * card, so that the caller goes on to `addUID`.
   */
  function Manage(s: Session, card: string, httpCode: int): (r: Option<(Session, Outcome)>)
    ensures r.None? <==> s.inAttendanceQueue && !IsAdminCard(card)
    ensures r.Some? ==> r.value.0.recorded == s.recorded || r.value.0.recorded == []
  {
    if !s.inAttendanceQueue then
      if IsAdminCard(card) then Some((s.(inAttendanceQueue := true), QueueStarted))
      else Some((s, InvalidTeacher))
    else if IsAdminCard(card) then
      if |s.recorded| == 0 then Some((s.(inAttendanceQueue := false), NoIdsRecorded))
      else
        var marked := Is2xx(httpCode);
        Some((Session(false, if marked then [] else s.recorded),
              Submitted(Payload(card, s.recorded), marked)))
    else None
  }

  /** The card dispatch of `loop`; the empty string means no card was read. */
  function Step(s: Session, card: string, httpCode: int): (r: (Session, Outcome))
    ensures WellFormed(s) ==> WellFormed(r.0)
    ensures IsAdminCard(card) && card !in s.recorded ==> card !in r.0.recorded
  {
    if card == "" then (s, NoCard)
    else if !s.inAttendanceQueue && card == RESET_CARD_UID then (s, ResetCalled(Is2xx(httpCode)))
    else match Manage(s, card, httpCode)
      case Some(r) => r
      case None => AddUid(s, card)
  }

  /** A run of taps: the final state and the requests sent, in order. */
  function Run(s: Session, taps: seq<Tap>): (r: (Session, seq<HttpRequest>))
    decreases |taps|
  {
    if taps == [] then (s, [])
    else
      var (s1, o) := Step(s, taps[0].card, taps[0].httpCode);
      var (s2, rs) := Run(s1, taps[1..]);
      (s2, Requests(o) + rs)
  }

  // ---------------------------------------------------------------------
  // Properties of one step
  // ---------------------------------------------------------------------

  /** While idle, a card that is neither an admin card nor the reset card is refused and changes nothing. */
  lemma IdleNonAdminRefused(s: Session, card: string, httpCode: int)
    requires !s.inAttendanceQueue && card != "" && card != RESET_CARD_UID && !IsAdminCard(card)
    ensures Step(s, card, httpCode) == (s, InvalidTeacher)
    ensures Requests(Step(s, card, httpCode).1) == []
  {
  }

  /** While idle, an admin card opens a session and leaves the recorded list as it was. */
  lemma IdleAdminOpens(s: Session, card: string, httpCode: int)
    requires !s.inAttendanceQueue && IsAdminCard(card)
    ensures Step(s, card, httpCode) == (Session(true, s.recorded), QueueStarted)
    ensures Requests(Step(s, card, httpCode).1) == []
  {
  }

  /** While idle, the reset card sends exactly one reset request and changes no state, whatever the answer. */
  lemma IdleResetCard(s: Session, httpCode: int)
    requires !s.inAttendanceQueue
    ensures Step(s, RESET_CARD_UID, httpCode).0 == s
    ensures Requests(Step(s, RESET_CARD_UID, httpCode).1) == [ResetPost]
    ensures Step(s, RESET_CARD_UID, httpCode).1 == ResetCalled(Is2xx(httpCode))
  {
  }

  /** The reset card is not an admin card: during a session it is recorded like a student's card. */
  lemma ResetCardRecordedInSession(s: Session, httpCode: int)
    requires s.inAttendanceQueue && RESET_CARD_UID !in s.recorded && |s.recorded| < MAX_STUDENTS
    ensures !IsAdminCard(RESET_CARD_UID)
    ensures Step(s, RESET_CARD_UID, httpCode) ==
      (Session(true, s.recorded + [RESET_CARD_UID]), IdAdded(|s.recorded| + 1))
  {
  }

  /** A non-admin card during a session is handled exactly as `addUID` handles it. */
  lemma SessionNonAdminRecorded(s: Session, card: string, httpCode: int)
    requires s.inAttendanceQueue && card != "" && !IsAdminCard(card)
    ensures Step(s, card, httpCode) == AddUid(s, card)
    ensures Requests(Step(s, card, httpCode).1) == []
  {
  }

  /** Closing a session with nothing recorded leaves the session without any request. */
  lemma EmptyClose(s: Session, card: string, httpCode: int)
    requires s.inAttendanceQueue && s.recorded == [] && IsAdminCard(card)
    ensures Step(s, card, httpCode) == (Session(false, []), NoIdsRecorded)
    ensures Requests(Step(s, card, httpCode).1) == []
  {
  }

  /**
   * Any admin card closes a non-empty session: one request carrying the
   * closing card and the recorded cards in tap order; the session is left
   * whatever the answer, and the list is emptied only on a 2xx answer.
   */
  lemma CloseSubmits(s: Session, card: string, httpCode: int)
    requires s.inAttendanceQueue && s.recorded != [] && IsAdminCard(card)
    ensures var (s', o) := Step(s, card, httpCode);
      && Requests(o) == [MarkPost(Payload(card, s.recorded))]
      && !s'.inAttendanceQueue
      && (Is2xx(httpCode) ==> s'.recorded == [])
      && (!Is2xx(httpCode) ==> s'.recorded == s.recorded)
  {
  }

  /** Presenting the same card twice has the effect of presenting it once. */
  lemma AddUidIdempotent(s: Session, card: string)
    ensures AddUid(AddUid(s, card).0, card).0 == AddUid(s, card).0
  {
  }

  /** Presenting the same student card twice during a session is the same as presenting it once. */
  lemma StepIdempotentForStudents(s: Session, card: string, c1: int, c2: int)
    requires s.inAttendanceQueue && card != "" && !IsAdminCard(card)
    ensures Step(Step(s, card, c1).0, card, c2).0 == Step(s, card, c1).0
  {
    SessionNonAdminRecorded(s, card, c1);
    SessionNonAdminRecorded(Step(s, card, c1).0, card, c2);
    AddUidIdempotent(s, card);
  }

  // ---------------------------------------------------------------------
  // Properties of runs
  // ---------------------------------------------------------------------

  /** One step of a run. */
  lemma RunUnfold(s: Session, taps: seq<Tap>)
    requires taps != []
    ensures var (s1, o) := Step(s, taps[0].card, taps[0].httpCode);
      Run(s, taps) == (Run(s1, taps[1..]).0, Requests(o) + Run(s1, taps[1..]).1)
  {
  }

  /** A run that starts with tap `t`. */
  lemma RunCons(s: Session, t: Tap, rest: seq<Tap>)
    ensures var (s1, o) := Step(s, t.card, t.httpCode);
      Run(s, [t] + rest) == (Run(s1, rest).0, Requests(o) + Run(s1, rest).1)
  {
    RunUnfold(s, [t] + rest);
    assert ([t] + rest)[1..] == rest;
  }

  /** Every run keeps the recorded list within capacity and free of duplicates. */
  lemma {:induction false} RunWellFormed(s: Session, taps: seq<Tap>)
    requires WellFormed(s)
    ensures WellFormed(Run(s, taps).0)
    decreases |taps|
  {
    if taps != [] {
      RunWellFormed(Step(s, taps[0].card, taps[0].httpCode).0, taps[1..]);
    }
  }

  /** No admin card is ever recorded when the run starts without one. */
  lemma {:induction false} RunNeverRecordsAdmins(s: Session, taps: seq<Tap>)
    requires forall id :: id in s.recorded ==> !IsAdminCard(id)
    ensures forall id :: id in Run(s, taps).0.recorded ==> !IsAdminCard(id)
    decreases |taps|
  {
    if taps != [] {
      var s1 := Step(s, taps[0].card, taps[0].httpCode).0;
      assert forall id :: id in s1.recorded ==> !IsAdminCard(id);
      RunNeverRecordsAdmins(s1, taps[1..]);
    }
  }

  function StudentTaps(cards: seq<string>, httpCode: int): (taps: seq<Tap>)
    ensures |taps| == |cards|
    ensures forall k :: 0 <= k < |cards| ==> taps[k] == Tap(cards[k], httpCode)
  {
    seq(|cards|, k requires 0 <= k < |cards| => Tap(cards[k], httpCode))
  }

  /**
   * During a session, distinct new student cards are recorded in tap order
   * until the list holds 50; later ones are refused. No request is sent.
   */
  lemma {:induction false} RecordUpToCapacity(s: Session, cards: seq<string>, httpCode: int)
    requires s.inAttendanceQueue && |s.recorded| <= MAX_STUDENTS
    requires Distinct(cards)
    requires forall c :: c in cards ==> c != "" && !IsAdminCard(c) && c !in s.recorded
    ensures Run(s, StudentTaps(cards, httpCode)) ==
      (Session(true, s.recorded + cards[..Min(|cards|, MAX_STUDENTS - |s.recorded|)]), [])
    decreases |cards|
  {
    var taps := StudentTaps(cards, httpCode);
    var none: seq<HttpRequest> := [];
    if cards == [] {
      assert s == Session(true, s.recorded + cards[..0]);
    } else {
      var c := cards[0];
      assert c in cards;
      SessionNonAdminRecorded(s, c, httpCode);
      var s1 := Step(s, c, httpCode).0;
      assert StudentTaps(cards[1..], httpCode) == taps[1..];
      RestFresh(s, s1, cards);
      RecordUpToCapacity(s1, cards[1..], httpCode);
      RunUnfold(s, taps);
      assert none + none == none;
      if |s.recorded| < MAX_STUDENTS {
        PrefixStep(s.recorded, cards, MAX_STUDENTS - |s.recorded|);
      } else {
        assert s == Session(true, s.recorded + cards[..0]);
      }
    }
  }

  /** After the first of distinct fresh cards is handled, the others are still fresh. */
  lemma RestFresh(s: Session, s1: Session, cards: seq<string>)
    requires cards != [] && Distinct(cards)
    requires forall c :: c in cards ==> c != "" && !IsAdminCard(c) && c !in s.recorded
    requires s1.recorded == s.recorded || s1.recorded == s.recorded + [cards[0]]
    ensures forall d :: d in cards[1..] ==> d != "" && !IsAdminCard(d) && d !in s1.recorded
  {
    forall d | d in cards[1..]
      ensures d != "" && !IsAdminCard(d) && d !in s1.recorded
    {
      var k :| 1 <= k < |cards| && cards[k] == d;
      assert d in cards;
    }
  }

  /** Taking the first card, then a prefix of the rest, is taking a prefix of all of them. */
  lemma PrefixStep(xs: seq<string>, cards: seq<string>, n: int)
    requires cards != [] && 0 < n
    ensures xs + [cards[0]] + cards[1..][..Min(|cards| - 1, n - 1)] == xs + cards[..Min(|cards|, n)]
  {
    assert cards[..Min(|cards|, n)] == [cards[0]] + cards[1..][..Min(|cards| - 1, n - 1)];
  }

  /**
   * What the firmware does on a failed submission: the session is left but
   * the list is kept, so the next session's payload starts with the cards
   * of the failed one.
   */
  lemma FailedSubmissionCarriesOver(s: Session, closer: string, opener: string, student: string,
                                    failCode: int, c2: int, c3: int, okCode: int)
    requires s.inAttendanceQueue && WellFormed(s) && s.recorded != []
    requires IsAdminCard(closer) && IsAdminCard(opener) && !Is2xx(failCode)
    requires student != "" && !IsAdminCard(student) && student !in s.recorded
    requires |s.recorded| < MAX_STUDENTS
    ensures Run(s, [Tap(closer, failCode), Tap(opener, c2), Tap(student, c3), Tap(closer, okCode)]).1 ==
      [MarkPost(Payload(closer, s.recorded)), MarkPost(Payload(closer, s.recorded + [student]))]
  {
    var taps := [Tap(closer, failCode), Tap(opener, c2), Tap(student, c3), Tap(closer, okCode)];
    CloseSubmits(s, closer, failCode);
    var s1 := Session(false, s.recorded);
    IdleAdminOpens(s1, opener, c2);
    var s2 := Session(true, s.recorded);
    SessionNonAdminRecorded(s2, student, c3);
    var s3 := Session(true, s.recorded + [student]);
    CloseSubmits(s3, closer, okCode);
    var s4 := Step(s3, closer, okCode).0;
    assert Run(s4, []) == (s4, []);
    RunUnfold(s3, taps[3..]);
    RunUnfold(s2, taps[2..]);
    RunUnfold(s1, taps[1..]);
    RunUnfold(s, taps);
  }

  /** A run whose first step is known. */
  lemma RunThrough(s: Session, t: Tap, rest: seq<Tap>, s1: Session, o: Outcome)
    requires Step(s, t.card, t.httpCode) == (s1, o)
    ensures Run(s, [t] + rest) == (Run(s1, rest).0, Requests(o) + Run(s1, rest).1)
  {
    RunCons(s, t, rest);
  }

  /** The end of the example session: the repeated tap and the closing admin card. */
  lemma ExampleClose(s3: Session, admin2: string, student1: string, httpCode: int)
    requires IsAdminCard(admin2) && Is2xx(httpCode) && student1 in s3.recorded
    requires s3.inAttendanceQueue && !IsAdminCard(student1) && student1 != ""
    ensures Run(s3, [Tap(student1, 0), Tap(admin2, httpCode)]) ==
      (Initial, [MarkPost(Payload(admin2, s3.recorded))])
  {
    var t1, t4 := Tap(student1, 0), Tap(admin2, httpCode);
    var p := Payload(admin2, s3.recorded);
    var none: seq<HttpRequest> := [];
    SessionNonAdminRecorded(s3, student1, 0);
    CloseSubmits(s3, admin2, httpCode);
    RunThrough(s3, t4, [], Initial, Submitted(p, true));
    assert [t4] + [] == [t4];
    assert Run(Initial, []) == (Initial, []);
    assert [MarkPost(p)] + none == [MarkPost(p)];
    assert Run(s3, [t4]) == (Initial, [MarkPost(p)]);
    RunThrough(s3, t1, [t4], s3, AlreadyAdded(|s3.recorded|));
    assert [t1] + [t4] == [t1, t4];
    assert none + [MarkPost(p)] == [MarkPost(p)];
  }

  /** The second student's tap of the example session, followed by its end. */
  lemma ExampleSecondStudent(admin2: string, student1: string, student2: string, httpCode: int)
    requires IsAdminCard(admin2) && Is2xx(httpCode)
    requires student1 != "" && student2 != "" && student1 != student2
    requires !IsAdminCard(student1) && !IsAdminCard(student2)
    ensures Run(Session(true, [student1]), [Tap(student2, 0), Tap(student1, 0), Tap(admin2, httpCode)]) ==
      (Initial, [MarkPost(Payload(admin2, [student1, student2]))])
  {
    var s2 := Session(true, [student1]);
    var s3 := Session(true, [student1, student2]);
    var t1, t2, t4 := Tap(student1, 0), Tap(student2, 0), Tap(admin2, httpCode);
    var none: seq<HttpRequest> := [];
    assert none + [MarkPost(Payload(admin2, s3.recorded))] == [MarkPost(Payload(admin2, s3.recorded))];
    ExampleClose(s3, admin2, student1, httpCode);
    assert s3.recorded == s2.recorded + [student2];
    SessionNonAdminRecorded(s2, student2, 0);
    RunThrough(s2, t2, [t1, t4], s3, IdAdded(2));
    assert [t2] + [t1, t4] == [t2, t1, t4];
  }

  /** The two student taps of the example session, followed by its end. */
  lemma ExampleStudents(admin2: string, student1: string, student2: string, httpCode: int)
    requires IsAdminCard(admin2) && Is2xx(httpCode)
    requires student1 != "" && student2 != "" && student1 != student2
    requires !IsAdminCard(student1) && !IsAdminCard(student2)
    ensures Run(Session(true, []), [Tap(student1, 0), Tap(student2, 0), Tap(student1, 0), Tap(admin2, httpCode)]) ==
      (Initial, [MarkPost(Payload(admin2, [student1, student2]))])
  {
    var s1 := Session(true, []);
    var s2 := Session(true, [student1]);
    var t1, t2, t4 := Tap(student1, 0), Tap(student2, 0), Tap(admin2, httpCode);
    var none: seq<HttpRequest> := [];
    assert none + [MarkPost(Payload(admin2, [student1, student2]))] == [MarkPost(Payload(admin2, [student1, student2]))];
    ExampleSecondStudent(admin2, student1, student2, httpCode);
    assert s2.recorded == s1.recorded + [student1];
    SessionNonAdminRecorded(s1, student1, 0);
    RunThrough(s1, t1, [t2, t1, t4], s2, IdAdded(1));
    assert [t1] + [t2, t1, t4] == [t1, t2, t1, t4];
  }

  /**
   * Tapping an admin card, two student cards, the first student card again
   * and a second admin card submits the two students once each, in tap
   * order, marked by the second admin card; a 2xx answer returns the reader
   * to its initial state.
   */
  lemma ExampleSession(admin1: string, admin2: string, student1: string, student2: string, httpCode: int)
    requires IsAdminCard(admin1) && IsAdminCard(admin2) && Is2xx(httpCode)
    requires student1 != "" && student2 != "" && student1 != student2
    requires !IsAdminCard(student1) && !IsAdminCard(student2)
    ensures Run(Initial, [Tap(admin1, 0), Tap(student1, 0), Tap(student2, 0),
                          Tap(student1, 0), Tap(admin2, httpCode)]) ==
      (Initial, [MarkPost(Payload(admin2, [student1, student2]))])
  {
    var t0, t1, t2, t4 := Tap(admin1, 0), Tap(student1, 0), Tap(student2, 0), Tap(admin2, httpCode);
    var none: seq<HttpRequest> := [];
    assert none + [MarkPost(Payload(admin2, [student1, student2]))] == [MarkPost(Payload(admin2, [student1, student2]))];
    ExampleStudents(admin2, student1, student2, httpCode);
    IdleAdminOpens(Initial, admin1, 0);
    RunThrough(Initial, t0, [t1, t2, t1, t4], Session(true, []), QueueStarted);
    assert [t0] + [t1, t2, t1, t4] == [t0, t1, t2, t1, t4];
  }
}
