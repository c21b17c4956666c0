/**
 * The arithmetic of `getAnalytics`: the number of school days so far in the
 * month, and the attendance streak. Dates are day numbers (one per UTC
 * midnight); `records` are the student's attendance dates of the month,
 * newest first, as the query sorts them.
 */
module Analytics {

  /** `Math.max(1, daysInMonthSoFar - holidays.length)`. */
  function SchoolDaysSoFar(dayOfMonth: int, holidayCount: int): (r: int)
    ensures r >= 1 && r >= dayOfMonth - holidayCount
    ensures r == 1 || r == dayOfMonth - holidayCount
  {
    if dayOfMonth - holidayCount > 1 then dayOfMonth - holidayCount else 1
  }

  function HolidaysUpTo(holidays: set<int>, day: int): set<int> {
    set h | h in holidays && h <= day
  }

  /** Stepping back over a holiday leaves one holiday fewer at or before the date. */
  lemma HolidaysShrink(holidays: set<int>, day: int)
    requires day in holidays
    ensures |HolidaysUpTo(holidays, day - 1)| < |HolidaysUpTo(holidays, day)|
  {
    assert HolidaysUpTo(holidays, day) == HolidaysUpTo(holidays, day - 1) + {day};
  }

  /** The latest day not after `day` that is not a holiday. */
  function LatestSchoolDay(holidays: set<int>, day: int): (d: int)
    ensures d <= day && d !in holidays
    ensures forall e :: d < e <= day ==> e in holidays
    decreases |HolidaysUpTo(holidays, day)|
  {
    if day in holidays then
      HolidaysShrink(holidays, day);
      LatestSchoolDay(holidays, day - 1)
    else day
  }

  /**
   * The streak loop, as a function of the remaining records and the date
   * being looked for: skip holidays, count a record on that date and move
   * one day back, pass over a record after it, stop at a record before it.
   */
  function Streak(records: seq<int>, holidays: set<int>, checkDate: int): (n: nat)
    decreases |records|
  {
    if records == [] then 0
    else
      var c := LatestSchoolDay(holidays, checkDate);
      if records[0] == c then 1 + Streak(records[1..], holidays, c - 1)
      else if records[0] < c then 0
      else Streak(records[1..], holidays, c)
  }

  /** The loop of `getAnalytics` that computes `streak`. */
  method ComputeStreak(records: seq<int>, holidays: set<int>, today: int) returns (streak: nat)
    ensures streak == Streak(records, holidays, today)
  {
    streak := 0;
    var checkDate := today;
    var i := 0;
    while i < |records|
      invariant 0 <= i <= |records|
      invariant streak + Streak(records[i..], holidays, checkDate) == Streak(records, holidays, today)
    {
      while checkDate in holidays
        invariant streak + Streak(records[i..], holidays, checkDate) == Streak(records, holidays, today)
        decreases |HolidaysUpTo(holidays, checkDate)|
      {
        HolidaysShrink(holidays, checkDate);
        checkDate := checkDate - 1;
      }
      assert records[i..][1..] == records[i + 1..];
      if records[i] == checkDate {
        streak := streak + 1;
        checkDate := checkDate - 1;
      } else if records[i] < checkDate {
        break;
      }
      i := i + 1;
    }
  }

  /** The j-th school day counting back from `day` (the 0-th is the latest one not after `day`). */
  function NthSchoolDay(holidays: set<int>, day: int, j: nat): (d: int)
    ensures d <= day && d !in holidays
    decreases j
  {
    var c := LatestSchoolDay(holidays, day);
    if j == 0 then c else NthSchoolDay(holidays, c - 1, j - 1)
  }

  lemma LatestSchoolDayFixed(holidays: set<int>, day: int)
    requires day !in holidays
    ensures LatestSchoolDay(holidays, day) == day
  {
  }

  /** Counting back from a school day or from the holidays just after it gives the same days. */
  lemma NthFromLatest(holidays: set<int>, day: int, j: nat)
    ensures NthSchoolDay(holidays, LatestSchoolDay(holidays, day), j) == NthSchoolDay(holidays, day, j)
  {
    LatestSchoolDayFixed(holidays, LatestSchoolDay(holidays, day));
  }

  /** The streak never exceeds the number of records. */
  lemma {:induction false} StreakAtMostRecords(records: seq<int>, holidays: set<int>, checkDate: int)
    ensures Streak(records, holidays, checkDate) <= |records|
    decreases |records|
  {
    if records != [] {
      var c := LatestSchoolDay(holidays, checkDate);
      StreakAtMostRecords(records[1..], holidays, c - 1);
      StreakAtMostRecords(records[1..], holidays, c);
    }
  }

  /** Each of the `streak` school days counting back from the start date has a record. */
  lemma {:induction false} StreakDaysAttended(records: seq<int>, holidays: set<int>, checkDate: int, j: nat)
    requires j < Streak(records, holidays, checkDate)
    ensures NthSchoolDay(holidays, checkDate, j) in records
    decreases |records|
  {
    var c := LatestSchoolDay(holidays, checkDate);
    if records[0] == c {
      if j > 0 {
        StreakDaysAttended(records[1..], holidays, c - 1, j - 1);
      }
    } else {
      StreakDaysAttended(records[1..], holidays, c, j);
      NthFromLatest(holidays, checkDate, j);
    }
  }

  predicate NewestFirst(records: seq<int>) {
    forall i, j :: 0 <= i < j < |records| ==> records[i] > records[j]
  }

  /**
   * With records strictly newest first (one per day), the school day right
   * after the streak has no record: the streak stops at the first gap.
   */
  lemma {:induction false} StreakStopsAtGap(records: seq<int>, holidays: set<int>, checkDate: int)
    requires NewestFirst(records)
    ensures NthSchoolDay(holidays, checkDate, Streak(records, holidays, checkDate)) !in records
    decreases |records|
  {
    if records != [] {
      var c := LatestSchoolDay(holidays, checkDate);
      var rest := records[1..];
      assert NewestFirst(rest);
      assert forall x :: x in rest ==> x < records[0];
      if records[0] == c {
        StreakStopsAtGap(rest, holidays, c - 1);
      } else if records[0] < c {
        assert forall x :: x in records ==> x <= records[0];
      } else {
        StreakStopsAtGap(rest, holidays, c);
        NthFromLatest(holidays, checkDate, Streak(rest, holidays, c));
      }
    }
  }
}
