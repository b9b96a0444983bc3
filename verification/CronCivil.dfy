/** When a schedule fires and on which day a run counts, in terms of the civil date and time alone: a second definition
    that shares nothing with the calendar functions of the search. */
module CronCivil {
  import opened Prelude
  import opened Calendar
  import opened CronNext
  import opened CronParse
  import opened Model
  import opened Text
  import opened DayKeys

  ghost predicate LeapYear(y: int) {
    y % 4 == 0 && (y % 100 != 0 || y % 400 == 0)
  }

  /** The day number of a date, counted from 1970-01-01, by the Gregorian closed form. */
  ghost function CivilDay(y: int, m: int, d: int): int
    requires 1 <= m <= 12
  {
    365 * (y - 1) + (y - 1) / 4 - (y - 1) / 100 + (y - 1) / 400 - 719162
    + [0, 31, 59, 90, 120, 151, 181, 212, 243, 273, 304, 334][m - 1] + (if m > 2 && LeapYear(y) then 1 else 0) + d - 1
  }

  ghost predicate IsDate(y: int, m: int, d: int) {
    1 <= m <= 12
    && 1 <= d <= [31, 28, 31, 30, 31, 30, 31, 31, 30, 31, 30, 31][m - 1] + (if m == 2 && LeapYear(y) then 1 else 0)
  }

  /** The instant, in milliseconds, is the start of the minute with that date and time of day. */
  ghost predicate IsCivilMinute(ms: int, y: int, m: int, d: int, h: int, mi: int) {
    && IsDate(y, m, d) && 0 <= h <= 23 && 0 <= mi <= 59
    && ms == 60000 * (60 * (24 * CivilDay(y, m, d) + h) + mi)
  }

  /** The instant is the start of a minute whose month, day of month, day of week (0 is Sunday, and 1970-01-04 was one),
      hour and minute are all allowed. */
  ghost predicate CivilMatch(s: Schedule, ms: int) {
    exists y, m, d, h, mi :: IsCivilMinute(ms, y, m, d, h, mi)
      && m in s.month && d in s.dom && (CivilDay(y, m, d) - 3) % 7 in s.dow && h in s.hour && mi in s.minute
  }

  lemma CivilDayIs(y: int, m: int, d: int)
    requires 1 <= m <= 12
    ensures CivilDay(y, m, d) == DayOfDate(y, m, d)
    ensures IsDate(y, m, d) <==> 1 <= d <= DaysInMonth(y, m)
  {
    DayOfDateClosedForm(y, m, d);
    hide DayOfDate;
  }

  lemma CivilPartsOf(u: int)
    ensures IsCivilMinute(60000 * u, Year(DayOf(u)), Month(DayOf(u)), DayOfMonth(DayOf(u)), HourOf(u), MinuteOf(u))
    ensures CivilDay(Year(DayOf(u)), Month(DayOf(u)), DayOfMonth(DayOf(u))) == DayOf(u)
  {
    var n := DayOf(u);
    DateOfDay(n);
    CivilDayIs(Year(n), Month(n), DayOfMonth(n));
    MinuteParts(u);
    hide Year, Month, DayOfMonth, DayOf, HourOf, MinuteOf, CivilDay, IsDate, DaysInMonth;
  }

  lemma CivilMinuteIs(ms: int, y: int, m: int, d: int, h: int, mi: int)
    requires IsCivilMinute(ms, y, m, d, h, mi)
    ensures ms == 60000 * At(DayOfDate(y, m, d), h, mi)
    ensures var n := DayOf(At(DayOfDate(y, m, d), h, mi));
            && n == CivilDay(y, m, d) && Year(n) == y && Month(n) == m && DayOfMonth(n) == d
            && HourOf(At(DayOfDate(y, m, d), h, mi)) == h && MinuteOf(At(DayOfDate(y, m, d), h, mi)) == mi
  {
    hide CivilDay, DayOfDate, DayOf, HourOf, MinuteOf, Year, Month, DayOfMonth;
    CivilDayIs(y, m, d);
    DayOfDateInverse(y, m, d);
    PartsOfAt(DayOfDate(y, m, d), h, mi);
  }

  lemma WeekdayIs(n: int)
    ensures Weekday(n) == (n - 3) % 7
  {
  }

  /** The search's notion of a match is the civil one. */
  lemma MatchesIsCivil(s: Schedule, u: int)
    ensures Matches(s, u) <==> CivilMatch(s, 60000 * u)
  {
    hide Year, Month, DayOfMonth, Weekday, DayOf, HourOf, MinuteOf, CivilDay;
    CivilPartsOf(u);
    WeekdayIs(DayOf(u));
    if CivilMatch(s, 60000 * u) {
      var y, m, d, h, mi :| IsCivilMinute(60000 * u, y, m, d, h, mi)
        && m in s.month && d in s.dom && (CivilDay(y, m, d) - 3) % 7 in s.dow && h in s.hour && mi in s.minute;
      CivilMinuteIs(60000 * u, y, m, d, h, mi);
    }
  }

  lemma CivilMatchIsWholeMinute(s: Schedule, ms: int)
    requires CivilMatch(s, ms)
    ensures ms == 60000 * (ms / 60000)
  {
    hide CivilDay;
    var y, m, d, h, mi :| IsCivilMinute(ms, y, m, d, h, mi)
      && m in s.month && d in s.dom && (CivilDay(y, m, d) - 3) % 7 in s.dow && h in s.hour && mi in s.minute;
    assert ms / 60000 == 60 * (24 * CivilDay(y, m, d) + h) + mi;
  }

  /** The end of the search in milliseconds: the first whole minute after from, five years on. */
  ghost function SearchEnd(from: int): int {
    60000 * Limit(StartMinute(from))
  }

  /** Five years on means the same month, day of month and time of day; February 29 counts as March 1. */
  lemma SearchEndIsCivil(from: int, y: int, m: int, d: int, h: int, mi: int)
    requires IsCivilMinute(60000 * (from / 60000 + 1), y, m, d, h, mi)
    ensures SearchEnd(from) == 60000 * (60 * (24 * CivilDay(y + 5, m, d) + h) + mi)
  {
    hide Year, Month, DayOfMonth, DayOf, HourOf, MinuteOf, CivilDay, DayOfDate, IsCivilMinute;
    CivilMinuteIs(60000 * (from / 60000 + 1), y, m, d, h, mi);
    assert StartMinute(from) == At(DayOfDate(y, m, d), h, mi);
    IsDateParts(60000 * (from / 60000 + 1), y, m, d, h, mi);
    CivilDayIs(y + 5, m, d);
  }

  lemma IsDateParts(ms: int, y: int, m: int, d: int, h: int, mi: int)
    requires IsCivilMinute(ms, y, m, d, h, mi)
    ensures 1 <= m <= 12
  {
  }

  /** What ComputeNextCron answers for a cron task whose expression parses: the first instant after from, and before the
      end of the search, at which the schedule fires; none if it does not fire there. Other tasks get none. */
  lemma NextCronIsCivil(t: Task, from: int)
    ensures t.specType != SpecCron || ParseSpec(t.cronExpr).None? ==> NextCron(t, from) == None
    ensures t.specType == SpecCron && ParseSpec(t.cronExpr).Some? ==>
              var s := ParseSpec(t.cronExpr).value;
              match NextCron(t, from)
              case Some(ms) =>
                CivilMatch(s, ms) && from < ms < SearchEnd(from) && forall v | from < v < ms :: !CivilMatch(s, v)
              case None => forall v | from < v < SearchEnd(from) :: !CivilMatch(s, v)
  {
    hide ParseSpec, NextMatch, Matches, CivilMatch, Limit;
    if t.specType == SpecCron && ParseSpec(t.cronExpr).Some? {
      NextOfSchedule(t, ParseSpec(t.cronExpr).value, from);
    }
  }

  lemma NextOfSchedule(t: Task, s: Schedule, from: int)
    requires t.specType == SpecCron && ParseSpec(t.cronExpr) == Some(s)
    ensures match NextCron(t, from)
            case Some(ms) =>
              CivilMatch(s, ms) && from < ms < SearchEnd(from) && forall v | from < v < ms :: !CivilMatch(s, v)
            case None => forall v | from < v < SearchEnd(from) :: !CivilMatch(s, v)
  {
    hide ParseSpec, NextMatch, Matches, CivilMatch, Limit;
    var r := NextMatch(s, from);
    var end := if r.Some? then r.value else Limit(StartMinute(from));
    NextMatchIsLeast(s, from, if r.Some? then r.value else 0);
    if r.Some? { MatchesIsCivil(s, r.value); }
    forall v | from < v < 60000 * end ensures !CivilMatch(s, v) {
      if CivilMatch(s, v) {
        CivilMatchIsWholeMinute(s, v);
        MatchesIsCivil(s, v / 60000);
      }
    }
  }

  /** The day string of an instant: its civil year with at least four digits, month and day of month. */
  lemma DayStringIsCivil(ms: int, y: int, m: int, d: int)
    requires IsDate(y, m, d) && 86_400_000 * CivilDay(y, m, d) <= ms < 86_400_000 * (CivilDay(y, m, d) + 1)
    ensures var year := if y < 0 then 0 - y else y;
            DayString(DayOfMs(ms))
            == (if y < 0 then "-" else "")
               + (if year < 10000 then ["0123456789"[year / 1000], "0123456789"[year / 100 % 10],
                                        "0123456789"[year / 10 % 10], "0123456789"[year % 10]]
                  else Itoa(year))
               + ("-" + ["0123456789"[m / 10], "0123456789"[m % 10]]
                  + "-" + ["0123456789"[d / 10], "0123456789"[d % 10]])
  {
    hide Year, Month, DayOfMonth, CivilDay, DayOfDate, Itoa, Pad, IsDate, DaysInMonth;
    DateBounds(y, m, d);
    CivilDayIs(y, m, d);
    DayOfDateInverse(y, m, d);
    DayOfInstant(ms, CivilDay(y, m, d));
    var year := if y < 0 then 0 - y else y;
    if year < 10000 { FourDigits(year); }
    TwoDigits(m);
    TwoDigits(d);
  }

  lemma DateBounds(y: int, m: int, d: int)
    requires IsDate(y, m, d)
    ensures 1 <= m <= 12 && 1 <= d <= 31
  {
  }

  lemma DayOfInstant(ms: int, n: int)
    requires 86_400_000 * n <= ms < 86_400_000 * (n + 1)
    ensures DayOfMs(ms) == n
  {
  }
}
