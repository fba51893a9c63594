/**
 * `generate_bioe_assignments` (sync_assignments.py:49-75): one BioE 210
 * assignment per Monday, due 23:59 Central, from the first Monday strictly
 * after today until the due passes the end of the semester.
 */
module Bioe {
  import opened Clock
  import opened Tasks
  import opened Identity
  import opened Decimal

  const Course: string := "BioE 210"
  const Source: string := "Canvas"
  const Url: string := "https://canvas.illinois.edu"
  const DeadlineHour: int := 23
  const DeadlineMinute: int := 59

  /** Lines 54-56: the days from `today` to the next Monday, never 0. */
  function DaysUntilNextMonday(today: Date): (n: int)
    ensures 1 <= n <= 7
    ensures Weekday(today + n) == 0
    ensures forall d :: today < d < today + n ==> Weekday(d) != 0
  {
    var n := (7 - Weekday(today)) % 7;
    var q, r := (today + 6) / 7, (today + 6) % 7;
    WeekdayFromDivision(today, q, r);
    var n' := if n == 0 then 7 else n;
    WeekdayFromDivision(today + n', q + 1, 0);
    assert forall d :: today < d < today + n' ==> Weekday(d) != 0 by {
      forall d | today < d < today + n' ensures Weekday(d) != 0 {
        WeekdayFromDivision(d, q, r + (d - today));
      }
    }
    n'
  }

  /** The first due date generated for `today`. */
  function FirstMonday(today: Date): Date {
    today + DaysUntilNextMonday(today)
  }

  /** Line 61: the wall-clock reading 23:59 on date `d`. */
  function DeadlineWall(d: Date): int {
    WallClock(d, DeadlineHour, DeadlineMinute)
  }

  /** A week later on the calendar is a week later on the wall clock. */
  lemma DeadlineWallStep(d: Date)
    ensures DeadlineWall(d + 7) == DeadlineWall(d) + SecondsPerWeek
  {
  }

  /** Lines 61-62: 23:59 on date `d`, localized to Central time. */
  function DeadlineOn(cal: Calendar, d: Date): Instant {
    cal.localize(DeadlineWall(d))
  }

  /** Lines 65-72: the record for week number `week`, due on date `d`. */
  function WeeklyAssignment(cal: Calendar, week: nat, d: Date): Observed {
    var due := DeadlineOn(cal, d);
    Observed(
      TaskId(cal, "bioe210_hw" + NatToString(week), due),
      "BioE 210 \U{2014} Weekly Assignment (Week " + NatToString(week) + ")",
      Course, due, Source, Url)
  }

  /** A deadline falls on its own Central date. */
  lemma DeadlineDate(cal: Calendar, d: Date)
    requires cal.Valid()
    ensures cal.localDate(DeadlineOn(cal, d)) == d
  {
    var w := DeadlineWall(d);
    assert w == d * SecondsPerDay + 86340;
    assert w / SecondsPerDay == d;
  }

  /**
   * The id of week `week` due on `d` is `bioe210_hw<week>__<YYYYMMDD of d>`:
   * it comes from the week number, not from the displayed title.
   */
  lemma WeeklyIdShape(cal: Calendar, week: nat, d: Date)
    requires cal.Valid()
    ensures WeeklyAssignment(cal, week, d).id == "bioe210_hw" + NatToString(week) + "__" + cal.ymd(d)
  {
    var stem := "bioe210_hw" + NatToString(week);
    forall i | 0 <= i < |stem| ensures IsIdChar(stem[i]) {
      if i >= 10 { assert stem[i] == NatToString(week)[i - 10]; }
    }
    SafeOfIdChars(stem);
    DeadlineDate(cal, d);
  }

  /** Assignments due on different dates have different ids. */
  lemma WeeklyIdsDistinct(cal: Calendar, w1: nat, d1: Date, w2: nat, d2: Date)
    requires cal.Valid() && InYmdRange(d1) && InYmdRange(d2)
    requires d1 != d2
    ensures WeeklyAssignment(cal, w1, d1).id != WeeklyAssignment(cal, w2, d2).id
  {
    DeadlineDate(cal, d1);
    DeadlineDate(cal, d2);
    TaskIdEqualIff(cal, "bioe210_hw" + NatToString(w1), DeadlineOn(cal, d1),
                        "bioe210_hw" + NatToString(w2), DeadlineOn(cal, d2));
  }

  /** Week k (from 1) of `s` is the assignment due on the Monday `first + 7 * (k - 1)`. */
  predicate IsWeeklySchedule(cal: Calendar, first: Date, s: seq<Observed>) {
    forall i :: 0 <= i < |s| ==> s[i] == WeeklyAssignment(cal, i + 1, first + 7 * i)
  }

  lemma ScheduleSnoc(cal: Calendar, first: Date, s: seq<Observed>, d: Date)
    requires IsWeeklySchedule(cal, first, s) && d == first + 7 * |s|
    ensures IsWeeklySchedule(cal, first, s + [WeeklyAssignment(cal, |s| + 1, d)])
  {
    var t := s + [WeeklyAssignment(cal, |s| + 1, d)];
    forall i | 0 <= i < |t| ensures t[i] == WeeklyAssignment(cal, i + 1, first + 7 * i) {
      if i < |s| { assert t[i] == s[i]; }
    }
  }

  /**
   * A schedule starting on a Monday falls on Mondays, one calendar week
   * apart, each due at 23:59 of its date, and week k shows "(Week k)".
   */
  lemma ScheduleIsWeekly(cal: Calendar, first: Date, s: seq<Observed>)
    requires cal.Valid()
    requires Weekday(first) == 0 && IsWeeklySchedule(cal, first, s)
    ensures forall i :: 0 <= i < |s| ==> Weekday(cal.localDate(s[i].due)) == 0
    ensures forall i :: 0 < i < |s| ==> cal.localDate(s[i].due) == cal.localDate(s[i - 1].due) + 7
    ensures forall i :: 0 <= i < |s| ==>
      s[i].title == "BioE 210 \U{2014} Weekly Assignment (Week " + NatToString(i + 1) + ")"
  {
    var q := (first + 6) / 7;
    forall i | 0 <= i < |s|
      ensures cal.localDate(s[i].due) == first + 7 * i && Weekday(cal.localDate(s[i].due)) == 0
    {
      DeadlineDate(cal, first + 7 * i);
      WeekdayFromDivision(first + 7 * i, q + i, 0);
    }
  }

  /** A weekly schedule whose dates have four-digit years never repeats an id. */
  lemma ScheduleIdsDistinct(cal: Calendar, first: Date, s: seq<Observed>)
    requires cal.Valid() && IsWeeklySchedule(cal, first, s)
    requires InYmdRange(first) && (s == [] || InYmdRange(first + 7 * (|s| - 1)))
    ensures forall i, j :: 0 <= i < j < |s| ==> s[i].id != s[j].id
  {
    forall i, j | 0 <= i < j < |s| ensures s[i].id != s[j].id {
      ScheduleIdsDistinctAt(cal, first, s, i, j);
    }
  }

  lemma ScheduleIdsDistinctAt(cal: Calendar, first: Date, s: seq<Observed>, i: int, j: int)
    requires cal.Valid() && IsWeeklySchedule(cal, first, s)
    requires 0 <= i < j < |s| && InYmdRange(first) && InYmdRange(first + 7 * (|s| - 1))
    ensures s[i].id != s[j].id
  {
    assert s[i] == WeeklyAssignment(cal, i + 1, first + 7 * i);
    assert s[j] == WeeklyAssignment(cal, j + 1, first + 7 * j);
    WeeklyIdsDistinct(cal, i + 1, first + 7 * i, j + 1, first + 7 * j);
  }

  /**
   * The generator, with `now_ct()` as `now` and `SEMESTER_END` as
   * `semesterEnd`.  Week k (from 1) is due on the k-th Monday after today,
   * seven days after the one before; all are due by `semesterEnd` and the
   * next one would not be; and when the dates have four-digit years, no
   * two weeks share an id.
   */
  method GenerateBioeAssignments(cal: Calendar, now: Instant, semesterEnd: Instant)
    returns (results: seq<Observed>)
    requires cal.LocalizeBounded()
    ensures var first := FirstMonday(cal.localDate(now));
      && IsWeeklySchedule(cal, first, results)
      && (forall i :: 0 <= i < |results| ==> results[i].due <= semesterEnd)
      && DeadlineOn(cal, first + 7 * |results|) > semesterEnd
      && (cal.Valid() && InYmdRange(first) && (results == [] || InYmdRange(first + 7 * (|results| - 1))) ==>
            forall i, j :: 0 <= i < j < |results| ==> results[i].id != results[j].id)
  {
    results := [];
    var today := cal.localDate(now);
    var daysUntilMonday := (7 - Weekday(today)) % 7;
    if daysUntilMonday == 0 {
      daysUntilMonday := 7;
    }
    var current := today + daysUntilMonday;
    ghost var first := current;
    assert first == FirstMonday(today);

    var week := 1;
    while true
      invariant week >= 1 && |results| == week - 1
      invariant current == first + 7 * (week - 1)
      invariant IsWeeklySchedule(cal, first, results)
      invariant forall i :: 0 <= i < |results| ==> results[i].due <= semesterEnd
      decreases semesterEnd + SecondsPerDay - DeadlineWall(current)
    {
      var wall := DeadlineWall(current);
      var due := cal.localize(wall);
      if due > semesterEnd {
        break;
      }
      LocalizeLowerBound(cal, wall);
      ScheduleSnoc(cal, first, results, current);
      results := results + [WeeklyAssignment(cal, week, current)];
      current := current + 7;
      week := week + 1;
      DeadlineWallStep(current - 7);
    }
    if cal.Valid() && InYmdRange(first) && (results == [] || InYmdRange(first + 7 * (|results| - 1))) {
      ScheduleIdsDistinct(cal, first, results);
    }
  }
}
