/** Next combines the two day fields by conjunction. The crontab utility of POSIX.1-2017 (IEEE Std 1003.1-2017, section
    INPUT FILES) takes the union instead when both are given as lists. Here a field is restricted when it lacks a value
    of its range. */
module CronUnion {
  import opened Calendar
  import opened CronNext

  ghost predicate Restricted(field: set<int>, min: int, max: int) {
    exists v | min <= v <= max :: v !in field
  }

  /** The union of the two day fields when both are restricted, within the allowed months. */
  ghost predicate UnionMatches(s: Schedule, day: int) {
    var dom, dow := DayOfMonth(day) in s.dom, Weekday(day) in s.dow;
    && Month(day) in s.month
    && if Restricted(s.dom, 1, 31) && Restricted(s.dow, 0, 6) then dom || dow else dom && dow
  }

  /** The wording of the standard: month and day of month together on one side, day of week on the other. */
  ghost predicate PosixMatches(s: Schedule, day: int) {
    var date, dow := Month(day) in s.month && DayOfMonth(day) in s.dom, Weekday(day) in s.dow;
    if !Restricted(s.dow, 0, 6) then date
    else if !Restricted(s.month, 1, 12) && !Restricted(s.dom, 1, 31) then dow
    else date || dow
  }

  lemma WeekdayAYearLater(n: int)
    ensures Weekday(n + 365) == (Weekday(n) + 1) % 7
  {
  }

  /** Day d of the first month of a year, and of the same month a year later, for two years without a leap day. */
  lemma WeekInTwoYears(y: int, m: int, d: int) returns (day: int, later: int)
    requires 1 <= m <= 12 && 1 <= d <= 7 && !IsLeap(y) && !IsLeap(y + 1)
    ensures day == DayOfDate(y, m, 1) + d - 1
    ensures Month(day) == Month(later) == m && DayOfMonth(day) == DayOfMonth(later) == d
    ensures Weekday(later) == (Weekday(day) + 1) % 7
  {
    day, later := DayOfDate(y, m, d), DayOfDate(y + 1, m, d);
    assert DaysInMonth(y, m) >= 28 && DaysInMonth(y + 1, m) >= 28 && DaysInMonth(y, 2) == DaysInMonth(y + 1, 2);
    hide Month, DayOfMonth, DaysInMonth, DaysBeforeMonth, YearStart, Weekday;
    DayOfDateInverse(y, m, d);
    DayOfDateInverse(y + 1, m, d);
    MonthShift(y, y + 1, m);
    YearLength(y);
    assert later == day + 365;
    WeekdayAYearLater(day);
  }

  /** A weekday is allowed exactly when the next one is. */
  ghost predicate AlikeNext(dow: set<int>, w: int) {
    w in dow <==> (w + 1) % 7 in dow
  }

  /** If the two fields agree on all days of one month, weekdays are alike. */
  lemma WeekdaysAlike(s: Schedule, y: int, m: int, w: int)
    requires !IsLeap(y) && !IsLeap(y + 1) && 1 <= m <= 12 && 0 <= w <= 6
    requires forall day | Month(day) == m :: DayOfMonth(day) in s.dom <==> Weekday(day) in s.dow
    ensures AlikeNext(s.dow, w)
  {
    hide Month, DayOfMonth, Weekday;
    var first := DayOfDate(y, m, 1);
    var d := WeekdayInWeek(first, w);
    var day, later := WeekInTwoYears(y, m, d);
    assert day == first + d - 1;
  }

  lemma WeekdayInWeek(first: int, w: int) returns (d: int)
    requires 0 <= w <= 6
    ensures 1 <= d <= 7 && Weekday(first + d - 1) == w
  {
    d := (w - Weekday(first)) % 7 + 1;
  }

  /** Unless all weekdays are allowed, the two day fields differ on some day of any month. */
  lemma DaysDiffer(s: Schedule, m: int) returns (day: int)
    requires 1 <= m <= 12 && HasValueIn(s.dow, 0, 6) && Restricted(s.dow, 0, 6)
    ensures Month(day) == m && (DayOfMonth(day) in s.dom <==> Weekday(day) !in s.dow)
  {
    hide Month, DayOfMonth, Weekday;
    if forall n | Month(n) == m :: DayOfMonth(n) in s.dom <==> Weekday(n) in s.dow {
      forall w | 0 <= w <= 6 ensures AlikeNext(s.dow, w) {
        WeekdaysAlike(s, 1970, m, w);
      }
      AllOrNone(s.dow);
      assert false;
    } else {
      day :| Month(day) == m && !(DayOfMonth(day) in s.dom <==> Weekday(day) in s.dow);
    }
  }

  lemma AllOrNone(dow: set<int>)
    requires forall w | 0 <= w <= 6 :: AlikeNext(dow, w)
    ensures !(HasValueIn(dow, 0, 6) && Restricted(dow, 0, 6))
  {
    assert AlikeNext(dow, 0) && AlikeNext(dow, 1) && AlikeNext(dow, 2);
    assert AlikeNext(dow, 3) && AlikeNext(dow, 4) && AlikeNext(dow, 5);
    assert forall w | 0 <= w <= 6 :: w in dow <==> 0 in dow;
  }

  /** Conjunction and union select the same days if and only if one of the two day fields allows everything. */
  lemma UnionIff(s: Schedule)
    requires Usable(s)
    ensures (forall day :: DateMatches(s, day) <==> UnionMatches(s, day))
            <==> !Restricted(s.dom, 1, 31) || !Restricted(s.dow, 0, 6)
  {
    hide Month, DayOfMonth, Weekday, Restricted;
    if Restricted(s.dom, 1, 31) && Restricted(s.dow, 0, 6) {
      var m :| m in s.month && 1 <= m <= 12;
      var day := DaysDiffer(s, m);
      assert UnionMatches(s, day) && !DateMatches(s, day);
    }
  }

  /** The code follows the wording of the standard if and only if every weekday is allowed, or every month and every day
      of the month. */
  lemma PosixIff(s: Schedule)
    requires Usable(s)
    ensures (forall day :: DateMatches(s, day) <==> PosixMatches(s, day))
            <==> !Restricted(s.dow, 0, 6) || (!Restricted(s.month, 1, 12) && !Restricted(s.dom, 1, 31))
  {
    hide Month, DayOfMonth, Weekday;
    if !Restricted(s.dow, 0, 6) {
      forall day ensures Weekday(day) in s.dow { WeekdayRange(day); }
    } else if !Restricted(s.month, 1, 12) && !Restricted(s.dom, 1, 31) {
      forall day ensures Month(day) in s.month && DayOfMonth(day) in s.dom { DateRange(day); }
    } else {
      hide Restricted;
      var m :| m in s.month && 1 <= m <= 12;
      var day := DaysDiffer(s, m);
      assert PosixMatches(s, day) && !DateMatches(s, day);
    }
  }

  lemma WeekdayRange(day: int)
    ensures 0 <= Weekday(day) <= 6
  {
  }

  lemma DateRange(day: int)
    ensures 1 <= Month(day) <= 12 && 1 <= DayOfMonth(day) <= 31
  {
    hide Month, DayOfMonth, Year;
    DateOfDay(day);
  }
}
