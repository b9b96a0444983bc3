/** What follows from Next being the least match of a five-year window: iteration, stability, and when it finds none. */
module CronProperties {
  import opened Prelude
  import opened Calendar
  import opened CronNext

  // ---------- iterating Next ----------

  /** ts is what repeated calls of Next return, starting at from. */
  ghost predicate IsIteration(s: Schedule, from: int, ts: seq<int>)
    decreases |ts|
  {
    ts != [] ==> NextMatch(s, from) == Some(ts[0]) && IsIteration(s, ts[0] * MS_PER_MINUTE, ts[1..])
  }

  ghost predicate Increasing(ts: seq<int>) {
    forall i, j | 0 <= i < j < |ts| :: ts[i] < ts[j]
  }

  /** Up to its last element, ts holds exactly the matching minutes after from. */
  ghost predicate Enumerates(s: Schedule, from: int, ts: seq<int>) {
    && (forall t | t in ts :: from < t * MS_PER_MINUTE)
    && (ts != [] ==> forall u | from < u * MS_PER_MINUTE && u <= ts[|ts| - 1] :: Matches(s, u) <==> u in ts)
  }

  /** Iterating Next lists exactly the matching minutes, in increasing order, none skipped or repeated. */
  lemma {:induction false} IterationEnumerates(s: Schedule, from: int, ts: seq<int>)
    requires IsIteration(s, from, ts)
    ensures Increasing(ts) && Enumerates(s, from, ts)
    decreases |ts|
  {
    hide Matches, NextMatch, Limit;
    if ts != [] {
      var first, rest := ts[0], ts[1..];
      NextMatchIsLeast(s, from, first);
      IterationEnumerates(s, first * MS_PER_MINUTE, rest);
      FirstThenRest(s, from, first, rest);
      assert ts == [first] + rest;
    }
  }

  lemma FirstThenRest(s: Schedule, from: int, first: int, rest: seq<int>)
    requires FirstMatchAfter(s, from, first)
    requires Increasing(rest) && Enumerates(s, first * MS_PER_MINUTE, rest)
    ensures Increasing([first] + rest) && Enumerates(s, from, [first] + rest)
  {
    hide Matches;
    var ts := [first] + rest;
    forall j | 0 < j < |ts| ensures first < ts[j] { assert ts[j] in rest; }
    forall u | from < u * MS_PER_MINUTE && u <= ts[|ts| - 1] ensures Matches(s, u) <==> u in ts {
      if u <= first { assert u !in rest; }
    }
  }

  // ---------- how the five-year limit moves ----------

  function LimitDay(d: int): int {
    DayOfDate(Year(d) + MAX_YEARS, Month(d), DayOfMonth(d))
  }

  predicate IsLeapDay(d: int) {
    Month(d) == 2 && DayOfMonth(d) == 29
  }

  /** February 29 and March 1 have the same day five years on; every other day moves the limit forward. */
  lemma LimitDayStep(d: int)
    ensures IsLeapDay(d) ==> LimitDay(d + 1) == LimitDay(d)
    ensures !IsLeapDay(d) ==> LimitDay(d) < LimitDay(d + 1)
  {
    hide YearStart, Year, Month, DayOfMonth, DaysInMonth, IsLeap;
    var y, m, k := Year(d), Month(d), DayOfMonth(d);
    DateOfDay(d);
    FirstDay(y, m);
    if k < DaysInMonth(y, m) {
      DayOfDateInverse(y, m, k + 1);
    } else if m < 12 {
      FirstDay(y, m + 1);
      DayOfDateInverse(y, m + 1, 1);
      FebruaryLengths(y, m);
    } else {
      YearEnd(y);
      YearEnd(y + MAX_YEARS);
      FirstDay(y + 1, 1);
      DayOfDateInverse(y + 1, 1, 1);
    }
  }

  lemma FirstDay(y: int, m: int)
    requires 1 <= m <= 12
    ensures 1 <= DaysInMonth(y, m)
    ensures m == 2 ==> DaysInMonth(y, m) <= 29
  {
  }

  /** The last day of a month is at most the last day five years on, except February 29. */
  lemma FebruaryLengths(y: int, m: int)
    requires 1 <= m < 12
    ensures m == 2 && DaysInMonth(y, m) == 29 ==> DaysInMonth(y + MAX_YEARS, m) == 28
    ensures !(m == 2 && DaysInMonth(y, m) == 29) ==> DaysInMonth(y, m) <= DaysInMonth(y + MAX_YEARS, m)
  {
    FiveYears(y);
  }

  lemma YearEnd(y: int)
    ensures DaysInMonth(y, 12) == 31
    ensures DayOfDate(y, 12, 32) == DayOfDate(y + 1, 1, 1)
  {
    hide DaysInYear;
    MonthsOfYear(y);
    YearLength(y);
  }

  lemma {:induction false} LimitDaysIncrease(d1: int, d2: int)
    requires d1 < d2
    ensures LimitDay(d1) < LimitDay(d2) || (IsLeapDay(d1) && d2 == d1 + 1 && LimitDay(d1) == LimitDay(d2))
    decreases d2 - d1
  {
    hide LimitDay, IsLeapDay;
    LimitDayStep(d2 - 1);
    if d1 + 1 < d2 {
      LimitDaysIncrease(d1, d2 - 1);
      if IsLeapDay(d2 - 1) { NoTwoLeapDays(d2 - 2); }
      LimitDayStep(d1);
      LimitDayStep(d1 + 1);
    }
  }

  lemma NoTwoLeapDays(d: int)
    ensures IsLeapDay(d) ==> !IsLeapDay(d + 1)
  {
    hide Year, Month, DayOfMonth, YearStart;
    if IsLeapDay(d) {
      DateOfDay(d);
      assert DayOfDate(Year(d), 3, 1) == DayOfDate(Year(d), 2, 1 + DaysInMonth(Year(d), 2));
      DayOfDateInverse(Year(d), 3, 1);
    }
  }

  /** t1 falls on a February 29 and t2 on the next day, at an earlier time of day. */
  predicate LeapDayOverlap(t1: int, t2: int) {
    IsLeapDay(DayOf(t1)) && DayOf(t2) == DayOf(t1) + 1 && t2 < t1 + MINUTES_PER_DAY
  }

  /** The limit of a later start is no earlier, with one exception. */
  lemma LimitMonotone(t1: int, t2: int)
    requires t1 <= t2
    ensures Limit(t1) <= Limit(t2) <==> !LeapDayOverlap(t1, t2)
  {
    hide LimitDay, IsLeapDay;
    LimitParts(t1);
    LimitParts(t2);
    if DayOf(t1) < DayOf(t2) {
      LimitDaysIncrease(DayOf(t1), DayOf(t2));
    }
    if IsLeapDay(DayOf(t1)) { LimitDayStep(DayOf(t1)); }
  }

  lemma LimitParts(t: int)
    ensures Limit(t) == MINUTES_PER_DAY * LimitDay(DayOf(t)) + t % MINUTES_PER_DAY
    ensures t == MINUTES_PER_DAY * DayOf(t) + t % MINUTES_PER_DAY && 0 <= t % MINUTES_PER_DAY < MINUTES_PER_DAY
  {
    MinuteParts(t);
  }

  // ---------- calling Next again before its answer ----------

  /** Called anywhere between a and its answer r, Next returns r again if and only if r is inside the later window. */
  lemma SameAnswerIff(s: Schedule, a: int, f: int, r: int)
    requires NextMatch(s, a) == Some(r) && a <= f < r * MS_PER_MINUTE
    ensures NextMatch(s, f) == Some(r) <==> r < Limit(StartMinute(f))
  {
    hide Matches, NextMatch, Limit;
    NextMatchIsLeast(s, a, r);
    NextMatchIsLeast(s, f, r);
  }

  /** It always does, unless the start minute of a is on a February 29 and that of f on the next day,
      earlier in the day. */
  lemma SameAnswer(s: Schedule, a: int, f: int, r: int)
    requires NextMatch(s, a) == Some(r) && a <= f < r * MS_PER_MINUTE
    requires !LeapDayOverlap(StartMinute(a), StartMinute(f))
    ensures NextMatch(s, f) == Some(r)
  {
    hide Matches, NextMatch, Limit;
    assert StartMinute(a) <= StartMinute(f);
    LimitMonotone(StartMinute(a), StartMinute(f));
    NextMatchIsLeast(s, a, r);
    SameAnswerIff(s, a, f, r);
  }

  /** A concrete instance of the exception: 12:00 on Saturdays that are the first of March, asked on 2020-02-29 at
      13:00 and again eleven hours later. The first call finds 2025-03-01T12:00, the second finds nothing. */
  lemma SecondCallCanFindNothing()
    ensures var s := Schedule({0}, {12}, {1}, {3}, {6});
            var a := At(DayOfDate(2020, 2, 29), 13, 0) * MS_PER_MINUTE;
            var f := At(DayOfDate(2020, 3, 1), 0, 0) * MS_PER_MINUTE;
            var r := At(DayOfDate(2025, 3, 1), 12, 0);
            && a < f < r * MS_PER_MINUTE
            && NextMatch(s, a) == Some(r)
            && NextMatch(s, f) == None
  {
    hide Matches, NextMatch, Limit, Year, YearStart, Month, DayOfMonth, Weekday;
    var s := Schedule({0}, {12}, {1}, {3}, {6});
    var a := At(DayOfDate(2020, 2, 29), 13, 0) * MS_PER_MINUTE;
    var f := At(DayOfDate(2020, 3, 1), 0, 0) * MS_PER_MINUTE;
    var r := At(DayOfDate(2025, 3, 1), 12, 0);
    KnownYears();
    SaturdayNoonsInMarch(s, r);
    LimitOfDate(2020, 2, 29, 13, 1);
    LimitOfDate(2020, 3, 1, 0, 1);
    forall u | At(DayOfDate(2020, 2, 29), 0, 0) <= u < r ensures !Matches(s, u) { SaturdayNoonsInMarch(s, u); }
    NextMatchIsLeast(s, a, r);
    NextMatchIsLeast(s, f, r);
  }

  lemma KnownYears()
    ensures YearStart(2020) == 18262 && YearStart(2025) == 20089
  {
    YearStartClosedForm(2020);
    YearStartClosedForm(2025);
  }

  lemma LimitOfDate(y: int, m: int, d: int, h: int, mi: int)
    requires 1 <= m <= 12 && 1 <= d <= DaysInMonth(y, m) && 0 <= h <= 23 && 0 <= mi <= 59
    ensures Limit(At(DayOfDate(y, m, d), h, mi)) == At(DayOfDate(y + 5, m, d), h, mi)
  {
    PartsOfAt(DayOfDate(y, m, d), h, mi);
    DayOfDateInverse(y, m, d);
  }

  lemma SaturdayNoonsInMarch(s: Schedule, u: int)
    requires s == Schedule({0}, {12}, {1}, {3}, {6})
    requires At(DayOfDate(2020, 2, 29), 0, 0) <= u <= At(DayOfDate(2025, 3, 1), 12, 0)
    ensures Matches(s, u) <==> u == At(DayOfDate(2025, 3, 1), 12, 0)
  {
    hide Year, YearStart, Month, DayOfMonth;
    var d := DayOf(u);
    var y := Year(d);
    MinuteParts(u);
    DateOfDay(d);
    DateContains(d);
    KnownYears();
    YearLength(2020);
    YearLength(2021);
    YearLength(2022);
    YearLength(2023);
    YearLength(2024);
    YearLength(2025);
    if y < 2020 { YearsIncrease(y, 2020); }
    if 2025 < y { YearsIncrease(2025, y); }
    assert 2020 <= y <= 2025;
    PartsOfAt(DayOfDate(2025, 3, 1), 12, 0);
    DayOfDateInverse(2025, 3, 1);
    MonthsOfYear(y);
    assert Month(d) == 3 && DayOfMonth(d) == 1 ==> d == YearStart(y) + 31 + DaysInMonth(y, 2);
  }

  // ---------- schedules that never run dry ----------

  /** Any weekday will do, and some allowed date exists in every non-leap year (1970 is one). */
  ghost predicate HasYearlyDate(s: Schedule) {
    && Usable(s) && (forall w | 0 <= w <= 6 :: w in s.dow)
    && exists m, d :: m in s.month && d in s.dom && 1 <= m <= 12 && 1 <= d <= DaysInMonth(1970, m)
  }

  /** Such a schedule always has a next time, within 366 days of the start minute. */
  lemma YearlyDateIsFound(s: Schedule, from: int)
    requires HasYearlyDate(s)
    ensures NextMatch(s, from).Some?
    ensures NextMatch(s, from).value <= StartMinute(from) + 366 * MINUTES_PER_DAY
  {
    hide Limit, NextMatch, Matches;
    var m, d :| m in s.month && d in s.dom && 1 <= m <= 12 && 1 <= d <= DaysInMonth(1970, m);
    var h :| h in s.hour && 0 <= h <= 23;
    var mi :| mi in s.minute && 0 <= mi <= 59;
    var t := StartMinute(from);
    var y := Year(DayOf(t));
    YearlyMatch(s, y, m, d, h, mi);
    YearlyMatch(s, y + 1, m, d, h, mi);
    OneYearLater(y, m, d);
    SameYear(t, m, d, h, mi);
    var c := At(DayOfDate(y, m, d), h, mi);
    var u := if t <= c then c else At(DayOfDate(y + 1, m, d), h, mi);
    assert Matches(s, u) && t <= u <= t + 366 * MINUTES_PER_DAY;
    WindowLength(t);
    AfterStart(from, u);
    NextMatchIsLeast(s, from, u);
    var r := NextMatch(s, from);
    if r.Some? { NextMatchIsLeast(s, from, r.value); }
  }

  lemma YearlyMatch(s: Schedule, y: int, m: int, d: int, h: int, mi: int)
    requires 1 <= m <= 12 && 1 <= d <= DaysInMonth(1970, m) && 0 <= h <= 23 && 0 <= mi <= 59
    requires m in s.month && d in s.dom && h in s.hour && mi in s.minute && forall w | 0 <= w <= 6 :: w in s.dow
    ensures Matches(s, At(DayOfDate(y, m, d), h, mi))
  {
    hide YearStart, Year, Month, DayOfMonth;
    assert DaysInMonth(1970, m) <= DaysInMonth(y, m);
    DayOfDateInverse(y, m, d);
    PartsOfAt(DayOfDate(y, m, d), h, mi);
  }

  lemma OneYearLater(y: int, m: int, d: int)
    requires 1 <= m <= 12
    ensures DayOfDate(y + 1, m, d) <= DayOfDate(y, m, d) + 366
  {
    hide YearStart, DaysBeforeMonth;
    YearLength(y);
    MonthShift(y, y + 1, m);
  }

  lemma SameYear(t: int, m: int, d: int, h: int, mi: int)
    requires 1 <= m <= 12 && 1 <= d <= DaysInMonth(1970, m) && 0 <= h <= 23 && 0 <= mi <= 59
    ensures At(DayOfDate(Year(DayOf(t)), m, d), h, mi) <= t + 366 * MINUTES_PER_DAY
    ensures t <= At(DayOfDate(Year(DayOf(t)) + 1, m, d), h, mi)
  {
    hide YearStart, Year, DaysBeforeMonth;
    var y := Year(DayOf(t));
    DateContains(DayOf(t));
    YearLength(y);
    MonthsOfYear(y);
    BeforeYearEnd(y, m);
    BeforeYearEnd(y + 1, m);
    assert DaysInMonth(1970, m) <= DaysInMonth(y, m);
    assert DaysBeforeMonth(y, m + 1) == DaysBeforeMonth(y, m) + DaysInMonth(y, m) by { MonthStep(y, m); }
    MinuteParts(t);
  }

  lemma MonthStep(y: int, m: int)
    requires 1 <= m <= 12
    ensures DaysBeforeMonth(y, m + 1) == DaysBeforeMonth(y, m) + DaysInMonth(y, m)
  {
  }

  /** A February 29 schedule does run dry: after the leap day that precedes a century without one, such as 2096,
      nothing is found for any later start minute that year, although 29 February 2104 will match. */
  lemma LeapDayScheduleRunsDry(s: Schedule, y: int, from: int)
    requires s.month == {2} && s.dom == {29}
    requires IsLeap(y) && !IsLeap(y + 4)
    requires DayOf(StartMinute(from)) > DayOfDate(y, 2, 29) && Year(DayOf(StartMinute(from))) == y
    ensures NextMatch(s, from) == None
  {
    hide Limit, NextMatch, Year, Month, DayOfMonth, YearStart, DaysBeforeMonth;
    var t := StartMinute(from);
    forall u | from < u * MS_PER_MINUTE && u < Limit(t) ensures !Matches(s, u) {
      AfterStart(from, u);
      NoLeapDayInWindow(y, t, u);
    }
    NextMatchIsLeast(s, from, 0);
  }

  lemma NoLeapDayInWindow(y: int, t: int, u: int)
    requires IsLeap(y) && !IsLeap(y + 4)
    requires t <= u < Limit(t) && DayOf(t) > DayOfDate(y, 2, 29) && Year(DayOf(t)) == y
    ensures !IsLeapDay(DayOf(u))
  {
    hide IsLeap, YearStart, DaysBeforeMonth, Limit, DayOf, Year, Month, DayOfMonth;
    var d, d' := DayOf(t), DayOf(u);
    var y' := Year(d');
    DateOfDay(d');
    DateContains(d');
    DateContains(d);
    LimitYear(t);
    DaysFollowMinutes(t, u);
    DaysFollowMinutes(u, Limit(t));
    assert y <= y' <= y + 5 by {
      if y' < y { YearsIncrease(y', y); }
      if y + 5 < y' { YearsIncrease(y + 5, y'); }
    }
    LeapsApart(y);
  }

  lemma DaysFollowMinutes(t: int, u: int)
    requires t <= u
    ensures DayOf(t) <= DayOf(u)
  {
  }

  lemma LimitYear(t: int)
    ensures DayOf(Limit(t)) < YearStart(Year(DayOf(t)) + MAX_YEARS + 1)
  {
    hide YearStart, Year, Month, DayOfMonth, DaysBeforeMonth;
    var y, m := Year(DayOf(t)) + MAX_YEARS, Month(DayOf(t));
    MinuteParts(t);
    DateOfDay(DayOf(t));
    PartsOfAt(DayOfDate(y, m, DayOfMonth(DayOf(t))), HourOf(t), MinuteOf(t));
    MonthStep(y, m);
    BeforeYearEnd(y, m);
    MonthsOfYear(y);
    YearLength(y);
  }
}
