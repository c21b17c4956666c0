/**
 * The firmware's globals and the functions that update them in place:
 * `inAttendanceQueue`, the fixed array `recordedUIDs[MAX_STUDENTS]` and its
 * counter `UIDCount`. Each method is proved to do what the value model in
 * session.dfy says, so the properties proved there hold of the firmware.
 * The card string (the global `cardUID`) is passed as a parameter, and the
 * HTTP status code the server would answer is an input.
 */
module AttendanceReader {
  import opened Wrappers
  import opened AttendanceSession

  /** `isAdmin`: a linear scan of the admin card list. */
  method IsAdmin(uid: string) returns (admin: bool)
    ensures admin <==> IsAdminCard(uid)
  {
    var i := 0;
    while i < |ADMIN_CARDS|
      invariant 0 <= i <= |ADMIN_CARDS|
      invariant uid !in ADMIN_CARDS[..i]
    {
      if uid == ADMIN_CARDS[i] {
        return true;
      }
      i := i + 1;
    }
    assert ADMIN_CARDS[..i] == ADMIN_CARDS;
    return false;
  }

  class Reader {
    var inAttendanceQueue: bool
    var recordedUIDs: array<string>
    var uidCount: int

    /** The array has room for 50 cards, and its used prefix holds no duplicate. */
    ghost predicate Valid()
      reads this, recordedUIDs
    {
      recordedUIDs.Length == MAX_STUDENTS &&
      0 <= uidCount <= MAX_STUDENTS &&
      Distinct(recordedUIDs[..uidCount])
    }

    /** The globals as a value of the session model. */
    function State(): (s: Session)
      reads this, recordedUIDs
      requires Valid()
      ensures WellFormed(s)
    {
      Session(inAttendanceQueue, recordedUIDs[..uidCount])
    }

    /** The power-on state: no session, nothing recorded. */
    constructor ()
      ensures Valid() && fresh(recordedUIDs)
      ensures State() == Initial
    {
      inAttendanceQueue := false;
      recordedUIDs := new string[MAX_STUDENTS];
      uidCount := 0;
    }

    /** `addUID`: scan the recorded prefix for the card, then append it if there is room. */
    method AddUID(cardUID: string) returns (o: Outcome)
      requires Valid()
      modifies recordedUIDs, this`uidCount
      ensures Valid()
      ensures (State(), o) == AddUid(old(State()), cardUID)
    {
      var i := 0;
      while i < uidCount
        invariant 0 <= i <= uidCount
        invariant cardUID !in recordedUIDs[..i]
      {
        if recordedUIDs[i] == cardUID {
          assert recordedUIDs[..uidCount][i] == cardUID;
          return AlreadyAdded(uidCount);
        }
        i := i + 1;
      }
      assert recordedUIDs[..i] == recordedUIDs[..uidCount];
      if uidCount < MAX_STUDENTS {
        ghost var before := recordedUIDs[..uidCount];
        recordedUIDs[uidCount] := cardUID;
        uidCount := uidCount + 1;
        assert recordedUIDs[..uidCount] == before + [cardUID];
        o := IdAdded(uidCount);
      } else {
        o := ArrayFull;
      }
    }

    /** `buildJSONPayload`: the closing card and the recorded cards in tap order. */
    method BuildJSONPayload(teacherUID: string) returns (p: Payload)
      requires Valid()
      ensures p.markedBy == teacherUID
      ensures p.studentIds == State().recorded
    {
      var ids: seq<string> := [];
      for i := 0 to uidCount
        invariant ids == recordedUIDs[..i]
      {
        assert recordedUIDs[..i + 1] == recordedUIDs[..i] + [recordedUIDs[i]];
        ids := ids + [recordedUIDs[i]];
      }
      p := Payload(teacherUID, ids);
    }

    /**
     * `manageAttendanceQueue`: `handled` is the value 1 of the source (the
     * caller returns); when it is false the state is unchanged and the
     * caller goes on to `addUID`.
     */
    method ManageAttendanceQueue(cardUID: string, httpCode: int) returns (handled: bool, o: Outcome)
      requires Valid()
      modifies this`inAttendanceQueue, this`uidCount
      ensures Valid()
      ensures handled ==> Manage(old(State()), cardUID, httpCode) == Some((State(), o))
      ensures !handled ==> Manage(old(State()), cardUID, httpCode) == None && State() == old(State())
    {
      var admin := IsAdmin(cardUID);
      if !inAttendanceQueue {
        if admin {
          inAttendanceQueue := true;
          return true, QueueStarted;
        } else {
          return true, InvalidTeacher;
        }
      } else {
        if admin {
          if uidCount == 0 {
            inAttendanceQueue := false;
            return true, NoIdsRecorded;
          }
          var payload := BuildJSONPayload(cardUID);
          var marked := false;
          if httpCode > 0 {
            if 200 <= httpCode < 300 {
              marked := true;
              uidCount := 0;
            }
          }
          inAttendanceQueue := false;
          return true, Submitted(payload, marked);
        } else {
          return false, NoCard;  // a student card: nothing shown yet
        }
      }
    }

    /** The card dispatch of `loop` for one card string ("" when no card was read). */
    method Loop(cardUID: string, httpCode: int) returns (o: Outcome)
      requires Valid()
      modifies this, recordedUIDs
      ensures Valid() && recordedUIDs == old(recordedUIDs)
      ensures (State(), o) == Step(old(State()), cardUID, httpCode)
    {
      if cardUID == "" {
        return NoCard;
      }
      if !inAttendanceQueue && cardUID == RESET_CARD_UID {
        var succeeded := 200 <= httpCode < 300;
        return ResetCalled(succeeded);
      }
      var handled;
      handled, o := ManageAttendanceQueue(cardUID, httpCode);
      if handled {
        return o;
      }
      o := AddUID(cardUID);
    }
  }
}
