/** The proleptic Gregorian calendar in UTC, as far as Go's package time uses it for cron.

    Days are counted from 1970-01-01, minutes from 1970-01-01T00:00; both may be negative. */
module Calendar {

  const MINUTES_PER_DAY := 1440

  predicate IsLeap(y: int) {
    y % 4 == 0 && (y % 100 != 0 || y % 400 == 0)
  }

  function DaysInYear(y: int): int {
    if IsLeap(y) then 366 else 365
  }

  function DaysInMonth(y: int, m: int): int
    requires 1 <= m <= 12
  {
    if m == 2 then (if IsLeap(y) then 29 else 28)
    else if m == 4 || m == 6 || m == 9 || m == 11 then 30
    else 31
  }

  /** The day number of January 1st. */
  function YearStart(y: int): int
    decreases if y < 1970 then 1970 - y else y - 1970
  {
    if y == 1970 then 0
    else if 1970 < y then YearStart(y - 1) + DaysInYear(y - 1)
    else YearStart(y + 1) - DaysInYear(y)
  }

  /** Days of year y that precede month m; m == 13 gives the length of the year. */
  function DaysBeforeMonth(y: int, m: int): int
    requires 1 <= m <= 13
    decreases m
  {
    if m == 1 then 0 else DaysBeforeMonth(y, m - 1) + DaysInMonth(y, m - 1)
  }

  /** time.Date for a day: a day past the end of its month runs on into the next, and so does month 13. */
  function DayOfDate(y: int, m: int, d: int): int
    requires 1 <= m <= 13
  {
    YearStart(y) + DaysBeforeMonth(y, m) + d - 1
  }

  // ---------- from a day number to a date ----------

  /** The year that contains day n. */
  function Year(n: int): int {
    YearFrom(1970, n)
  }

  /** The year that contains the k-th day counted from the start of year y. */
  function YearFrom(y: int, k: int): int
    decreases k < 0, if k < 0 then -k else k
  {
    if k < 0 then YearFrom(y - 1, k + DaysInYear(y - 1))
    else if DaysInYear(y) <= k then YearFrom(y + 1, k - DaysInYear(y))
    else y
  }

  function Month(n: int): (m: int)
    ensures 1 <= m <= 12
  {
    MonthFrom(Year(n), 1, n - YearStart(Year(n)))
  }

  /** The month that contains the k-th day counted from the start of month m. */
  function MonthFrom(y: int, m: int, k: int): (r: int)
    requires 1 <= m <= 12
    ensures 1 <= r <= 12
    decreases 12 - m
  {
    if m == 12 || k < DaysInMonth(y, m) then m else MonthFrom(y, m + 1, k - DaysInMonth(y, m))
  }

  function DayOfMonth(n: int): int {
    n - DayOfDate(Year(n), Month(n), 1) + 1
  }

  /** 0 is Sunday; 1970-01-01 was a Thursday. */
  function Weekday(n: int): int {
    (n + 4) % 7
  }

  // ---------- minutes ----------

  function DayOf(t: int): int { t / MINUTES_PER_DAY }
  function HourOf(t: int): int { t % MINUTES_PER_DAY / 60 }
  function MinuteOf(t: int): int { t % 60 }

  /** time.Date for a minute. */
  function At(day: int, hour: int, minute: int): int {
    MINUTES_PER_DAY * day + 60 * hour + minute
  }

  // ---------- the date functions invert each other ----------

  lemma YearLength(y: int)
    ensures YearStart(y + 1) == YearStart(y) + DaysInYear(y)
  {
  }

  lemma MonthsOfYear(y: int)
    ensures DaysBeforeMonth(y, 13) == DaysInYear(y)
    ensures DaysBeforeMonth(y, 3) == 31 + DaysInMonth(y, 2)
  {
    assert DaysBeforeMonth(y, 4) == 62 + DaysInMonth(y, 2);
    assert DaysBeforeMonth(y, 7) == 153 + DaysInMonth(y, 2);
    assert DaysBeforeMonth(y, 10) == 245 + DaysInMonth(y, 2);
  }

  lemma {:induction false} YearFromContains(y: int, k: int)
    ensures var r := YearFrom(y, k); YearStart(r) <= YearStart(y) + k < YearStart(r + 1)
    decreases k < 0, if k < 0 then -k else k
  {
    YearLength(y);
    YearLength(y - 1);
    if k < 0 {
      YearFromContains(y - 1, k + DaysInYear(y - 1));
    } else if DaysInYear(y) <= k {
      YearFromContains(y + 1, k - DaysInYear(y));
    }
  }

  lemma {:induction false} MonthFromContains(y: int, m: int, k: int)
    requires 1 <= m <= 12 && 0 <= k < DaysBeforeMonth(y, 13) - DaysBeforeMonth(y, m)
    ensures var r := MonthFrom(y, m, k);
            DaysBeforeMonth(y, r) <= DaysBeforeMonth(y, m) + k < DaysBeforeMonth(y, r + 1)
    decreases 12 - m
  {
    hide DaysInMonth;
    if m < 12 && DaysInMonth(y, m) <= k {
      MonthFromContains(y, m + 1, k - DaysInMonth(y, m));
    }
  }

  /** A day lies in its year and in its month. */
  lemma DateContains(n: int)
    ensures YearStart(Year(n)) <= n < YearStart(Year(n) + 1)
    ensures DayOfDate(Year(n), Month(n), 1) <= n < DayOfDate(Year(n), Month(n) + 1, 1)
  {
    hide YearFrom, MonthFrom, DaysInYear, DaysInMonth, YearStart;
    assert YearStart(1970) == 0 by { YearCountStart(); }
    YearFromContains(1970, n);
    YearLength(Year(n));
    MonthsOfYear(Year(n));
    MonthFromContains(Year(n), 1, n - YearStart(Year(n)));
  }

  lemma YearCountStart()
    ensures YearStart(1970) == 0
  {
  }

  lemma {:induction false} YearsIncrease(y1: int, y2: int)
    requires y1 < y2
    ensures YearStart(y1 + 1) <= YearStart(y2)
    decreases y2 - y1
  {
    if y1 + 1 < y2 {
      YearsIncrease(y1, y2 - 1);
      YearLength(y2 - 1);
    }
  }

  lemma {:induction false} MonthsIncrease(y: int, m1: int, m2: int)
    requires 1 <= m1 < m2 <= 13
    ensures DaysBeforeMonth(y, m1 + 1) <= DaysBeforeMonth(y, m2)
    decreases m2
  {
    if m1 + 1 < m2 {
      MonthsIncrease(y, m1, m2 - 1);
    }
  }

  /** The date of a day is a real date, and it denotes that day. */
  lemma DateOfDay(n: int)
    ensures 1 <= DayOfMonth(n) <= DaysInMonth(Year(n), Month(n))
    ensures DayOfDate(Year(n), Month(n), DayOfMonth(n)) == n
  {
    DateContains(n);
  }

  /** A real date is the date of the day it denotes. */
  lemma DayOfDateInverse(y: int, m: int, d: int)
    requires 1 <= m <= 12 && 1 <= d <= DaysInMonth(y, m)
    ensures Year(DayOfDate(y, m, d)) == y
    ensures Month(DayOfDate(y, m, d)) == m
    ensures DayOfMonth(DayOfDate(y, m, d)) == d
  {
    var n := DayOfDate(y, m, d);
    var y', m' := Year(n), Month(n);
    DateContains(n);
    assert YearStart(y) <= n < YearStart(y + 1) by { YearLength(y); MonthsOfYear(y); BeforeYearEnd(y, m); }
    if y' < y { YearsIncrease(y', y); }
    if y < y' { YearsIncrease(y, y'); }
    if m' < m { MonthsIncrease(y, m', m); }
    if m < m' { MonthsIncrease(y, m, m'); }
  }

  lemma {:induction false} BeforeYearEnd(y: int, m: int)
    requires 1 <= m <= 12
    ensures 0 <= DaysBeforeMonth(y, m) && DaysBeforeMonth(y, m + 1) <= DaysBeforeMonth(y, 13)
  {
    if m < 12 { MonthsIncrease(y, m, 13); }
    if 1 < m { MonthsIncrease(y, 1, m); }
  }

  /** The count of days agrees with the Gregorian closed form; 719162 days precede 1970-01-01 in the common era. */
  lemma {:induction false} YearStartClosedForm(y: int)
    ensures YearStart(y) == 365 * (y - 1) + (y - 1) / 4 - (y - 1) / 100 + (y - 1) / 400 - 719162
    decreases if y < 1970 then 1970 - y else y - 1970
  {
    if 1970 < y {
      YearStartClosedForm(y - 1);
      LeapDays(y - 1);
    } else if y < 1970 {
      YearStartClosedForm(y + 1);
      LeapDays(y);
    }
  }

  /** The start of every month, without reference to the lengths of months: the usual table of days, and the leap day
      from March on. */
  lemma DayOfDateClosedForm(y: int, m: int, d: int)
    requires 1 <= m <= 12
    ensures DayOfDate(y, m, d)
            == 365 * (y - 1) + (y - 1) / 4 - (y - 1) / 100 + (y - 1) / 400 - 719162
               + [0, 31, 59, 90, 120, 151, 181, 212, 243, 273, 304, 334][m - 1]
               + (if m > 2 && y % 4 == 0 && (y % 100 != 0 || y % 400 == 0) then 1 else 0) + d - 1
  {
    YearStartClosedForm(y);
    MonthStarts(y);
    hide YearStart, DaysBeforeMonth;
  }

  lemma MonthStarts(y: int)
    ensures forall m | 1 <= m <= 12 ::
              DaysBeforeMonth(y, m) == [0, 31, 59, 90, 120, 151, 181, 212, 243, 273, 304, 334][m - 1]
                                       + (if m > 2 && IsLeap(y) then 1 else 0)
  {
    assert DaysBeforeMonth(y, 1) == 0 && DaysBeforeMonth(y, 2) == 31;
    assert DaysBeforeMonth(y, 3) == 31 + DaysInMonth(y, 2) && DaysBeforeMonth(y, 4) == 62 + DaysInMonth(y, 2);
    assert DaysBeforeMonth(y, 5) == 92 + DaysInMonth(y, 2) && DaysBeforeMonth(y, 6) == 123 + DaysInMonth(y, 2);
    assert DaysBeforeMonth(y, 7) == 153 + DaysInMonth(y, 2) && DaysBeforeMonth(y, 8) == 184 + DaysInMonth(y, 2);
    assert DaysBeforeMonth(y, 9) == 215 + DaysInMonth(y, 2) && DaysBeforeMonth(y, 10) == 245 + DaysInMonth(y, 2);
    assert DaysBeforeMonth(y, 11) == 276 + DaysInMonth(y, 2) && DaysBeforeMonth(y, 12) == 306 + DaysInMonth(y, 2);
  }

  /** The year, month and day of month of a day: a date of the calendar, within the usual length of its month, whose
      number by the closed form is that day. */
  lemma CivilDate(n: int)
    ensures var y, m, d := Year(n), Month(n), DayOfMonth(n);
            && 1 <= m <= 12
            && 1 <= d <= [31, 28, 31, 30, 31, 30, 31, 31, 30, 31, 30, 31][m - 1]
                         + (if m == 2 && y % 4 == 0 && (y % 100 != 0 || y % 400 == 0) then 1 else 0)
            && n == 365 * (y - 1) + (y - 1) / 4 - (y - 1) / 100 + (y - 1) / 400 - 719162
                    + [0, 31, 59, 90, 120, 151, 181, 212, 243, 273, 304, 334][m - 1]
                    + (if m > 2 && y % 4 == 0 && (y % 100 != 0 || y % 400 == 0) then 1 else 0) + d - 1
  {
    DateOfDay(n);
    DayOfDateClosedForm(Year(n), Month(n), DayOfMonth(n));
    hide Year, Month, DayOfMonth, DayOfDate;
  }

  lemma LeapDays(y: int)
    ensures y / 4 - y / 100 + y / 400 == (y - 1) / 4 - (y - 1) / 100 + (y - 1) / 400 + (if IsLeap(y) then 1 else 0)
  {
    QuotientStep(y, 4);
    QuotientStep(y, 100);
    QuotientStep(y, 400);
  }

  lemma QuotientStep(y: int, b: int)
    requires b == 4 || b == 100 || b == 400
    ensures y / b == (y - 1) / b + (if y % b == 0 then 1 else 0)
  {
  }

  lemma MinuteParts(t: int)
    ensures 0 <= HourOf(t) <= 23 && 0 <= MinuteOf(t) <= 59
    ensures t == At(DayOf(t), HourOf(t), MinuteOf(t))
  {
    var k := t % MINUTES_PER_DAY;
    QuotientUnique(t, 60, 24 * (t / MINUTES_PER_DAY) + k / 60, k % 60);
  }

  lemma PartsOfAt(day: int, hour: int, minute: int)
    requires 0 <= hour <= 23 && 0 <= minute <= 59
    ensures DayOf(At(day, hour, minute)) == day
    ensures HourOf(At(day, hour, minute)) == hour
    ensures MinuteOf(At(day, hour, minute)) == minute
  {
    var t, k := At(day, hour, minute), 60 * hour + minute;
    assert 0 <= k < MINUTES_PER_DAY && t == MINUTES_PER_DAY * day + k;
    QuotientUnique(t, MINUTES_PER_DAY, day, k);
    QuotientUnique(k, 60, hour, minute);
    QuotientUnique(t, 60, 24 * day + hour, minute);
  }

  lemma QuotientUnique(n: int, b: int, q: int, r: int)
    requires b == MINUTES_PER_DAY || b == 60
    requires n == b * q + r && 0 <= r < b
    ensures n / b == q && n % b == r
  {
  }
}
