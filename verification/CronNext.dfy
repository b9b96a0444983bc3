/** Schedule.Next of internal/cron/parser.go: the skip search and the search it has to agree with.

    Instants are milliseconds since 1970, times inside the search are whole minutes since 1970 (UTC).
    None stands for the zero time that Next returns when nothing matches. */
module CronNext {
  import opened Prelude
  import opened Calendar

  const MAX_YEARS := 5
  const MS_PER_MINUTE := 60000

  /** The value sets of a parsed expression; the two day fields are combined by conjunction. */
  datatype Schedule = Schedule(minute: set<int>, hour: set<int>, dom: set<int>, month: set<int>, dow: set<int>)

  predicate DateMatches(s: Schedule, day: int) {
    Month(day) in s.month && DayOfMonth(day) in s.dom && Weekday(day) in s.dow
  }

  predicate Matches(s: Schedule, t: int) {
    DateMatches(s, DayOf(t)) && HourOf(t) in s.hour && MinuteOf(t) in s.minute
  }

  ghost predicate HasValueIn(field: set<int>, min: int, max: int) {
    exists v :: v in field && min <= v <= max
  }

  /** What the parser guarantees about the five fields: each holds a value of its range. */
  ghost predicate Usable(s: Schedule) {
    && HasValueIn(s.minute, 0, 59) && HasValueIn(s.hour, 0, 23)
    && HasValueIn(s.dom, 1, 31) && HasValueIn(s.month, 1, 12) && HasValueIn(s.dow, 0, 6)
  }

  /** from.Add(time.Minute).Truncate(time.Minute) */
  function StartMinute(from: int): int {
    from / MS_PER_MINUTE + 1
  }

  /** t.AddDate(maxYears, 0, 0); February 29 becomes March 1, since five years after a leap year there is none. */
  function Limit(t: int): int {
    var d := DayOf(t);
    At(DayOfDate(Year(d) + MAX_YEARS, Month(d), DayOfMonth(d)), HourOf(t), MinuteOf(t))
  }

  function FirstOfNextMonth(t: int): int {
    var d := DayOf(t);
    At(DayOfDate(Year(d), Month(d) + 1, 1), 0, 0)
  }

  function NextDay(t: int): int {
    var d := DayOf(t);
    At(DayOfDate(Year(d), Month(d), DayOfMonth(d) + 1), 0, 0)
  }

  function NextHour(t: int): int {
    var d := DayOf(t);
    At(DayOfDate(Year(d), Month(d), DayOfMonth(d)), HourOf(t), 0) + 60
  }

  // ---------- the reference: try every minute ----------

  function MinuteSearch(s: Schedule, t: int, limit: int): Option<int>
    decreases limit - t
  {
    if t >= limit then None else if Matches(s, t) then Some(t) else MinuteSearch(s, t + 1, limit)
  }

  /** What Next has to return. */
  function NextMatch(s: Schedule, from: int): Option<int> {
    MinuteSearch(s, StartMinute(from), Limit(StartMinute(from)))
  }

  ghost predicate NoMatchIn(s: Schedule, lo: int, hi: int) {
    forall u | lo <= u < hi :: !Matches(s, u)
  }

  lemma {:induction false} MinuteSearchIsLeast(s: Schedule, t: int, limit: int)
    ensures var r := MinuteSearch(s, t, limit);
            && (r.None? <==> NoMatchIn(s, t, limit))
            && (r.Some? ==> t <= r.value < limit && Matches(s, r.value) && NoMatchIn(s, t, r.value))
    decreases limit - t
  {
    if t < limit && !Matches(s, t) {
      MinuteSearchIsLeast(s, t + 1, limit);
    }
  }

  /** m is the first match strictly after the instant from. */
  ghost predicate FirstMatchAfter(s: Schedule, from: int, m: int) {
    Matches(s, m) && from < m * MS_PER_MINUTE && NoMatchAfter(s, from, m)
  }

  ghost predicate NoMatchAfter(s: Schedule, from: int, end: int) {
    forall u | from < u * MS_PER_MINUTE && u < end :: !Matches(s, u)
  }

  /** The reference search is the first match after from, if that is before the limit, and None if there is none. */
  lemma NextMatchIsLeast(s: Schedule, from: int, m: int)
    ensures NextMatch(s, from) == Some(m) <==> FirstMatchAfter(s, from, m) && m < Limit(StartMinute(from))
    ensures NextMatch(s, from) == None <==> NoMatchAfter(s, from, Limit(StartMinute(from)))
  {
    hide Matches, Limit;
    var t := StartMinute(from);
    forall u ensures from < u * MS_PER_MINUTE <==> t <= u { AfterStart(from, u); }
    MinuteSearchIsLeast(s, t, Limit(t));
    if FirstMatchAfter(s, from, m) && m < Limit(t) {
      var r := MinuteSearch(s, t, Limit(t));
      assert r.Some? && !(r.value < m) && !(m < r.value);
    }
  }

  lemma AfterStart(from: int, u: int)
    ensures from < u * MS_PER_MINUTE <==> StartMinute(from) <= u
  {
  }

  /** Minutes known not to match may be skipped. */
  lemma {:induction false} SkipKeepsSearch(s: Schedule, t: int, t': int, limit: int)
    requires t <= t' && NoMatchIn(s, t, t')
    ensures MinuteSearch(s, t, limit) == MinuteSearch(s, t', limit)
    decreases t' - t
  {
    if t < t' {
      SkipKeepsSearch(s, t + 1, t', limit);
    }
  }

  // ---------- no jump passes over a match ----------

  lemma NextMonthIsNext(t: int)
    ensures var f := FirstOfNextMonth(t);
            && Month(DayOf(f)) == Month(DayOf(t)) % 12 + 1 && DayOfMonth(DayOf(f)) == 1
            && HourOf(f) == 0 && MinuteOf(f) == 0
  {
    hide Year, Month, DayOfMonth, DayOf, HourOf, MinuteOf, DayOfDate;
    var y, m := Year(DayOf(t)), Month(DayOf(t));
    PartsOfAt(DayOfDate(y, m + 1, 1), 0, 0);
    NextMonthStart(y, m);
  }

  lemma NextMonthStart(y: int, m: int)
    requires 1 <= m <= 12
    ensures var n := DayOfDate(y, m + 1, 1); Month(n) == m % 12 + 1 && DayOfMonth(n) == 1
  {
    hide Year, Month, DayOfMonth, YearStart;
    if m == 12 {
      YearLength(y);
      MonthsOfYear(y);
      assert DayOfDate(y, 13, 1) == DayOfDate(y + 1, 1, 1);
      DayOfDateInverse(y + 1, 1, 1);
    } else {
      assert DaysInMonth(y, m + 1) >= 1;
      DayOfDateInverse(y, m + 1, 1);
    }
  }

  lemma SameMonthUntilNext(t: int)
    ensures t < FirstOfNextMonth(t)
    ensures forall u | t <= u < FirstOfNextMonth(t) :: Month(DayOf(u)) == Month(DayOf(t))
  {
    var d := DayOf(t);
    var y, m := Year(d), Month(d);
    DateContains(d);
    forall u | t <= u < FirstOfNextMonth(t) ensures Month(DayOf(u)) == m {
      var d' := DayOf(u);
      assert DayOfDate(y, m, 1) <= d <= d' < DayOfDate(y, m + 1, 1);
      DayOfDateInverse(y, m, d' - DayOfDate(y, m, 1) + 1);
    }
  }

  lemma NextDayIsNext(t: int)
    ensures NextDay(t) == At(DayOf(t) + 1, 0, 0)
    ensures t < NextDay(t)
    ensures forall u | t <= u < NextDay(t) :: DayOf(u) == DayOf(t)
  {
    DateOfDay(DayOf(t));
  }

  lemma NextHourIsNext(t: int)
    ensures NextHour(t) == At(DayOf(t), HourOf(t) + 1, 0)
    ensures t < NextHour(t)
    ensures forall u | t <= u < NextHour(t) :: DayOf(u) == DayOf(t) && HourOf(u) == HourOf(t)
  {
    DateOfDay(DayOf(t));
    MinuteParts(t);
    forall u | t <= u < NextHour(t) ensures DayOf(u) == DayOf(t) && HourOf(u) == HourOf(t) {
      PartsOfAt(DayOf(t), HourOf(t), u - At(DayOf(t), HourOf(t), 0));
    }
  }

  // ---------- how far five years are ----------

  lemma FiveYears(y: int)
    ensures 365 * 5 <= YearStart(y + 5) - YearStart(y) <= 365 * 5 + 2
    ensures IsLeap(y + 5) ==> YearStart(y + 5) - YearStart(y) <= 365 * 5 + 1
    ensures IsLeap(y) ==> !IsLeap(y + 5) && 365 * 5 + 1 <= YearStart(y + 5) - YearStart(y)
  {
    YearLength(y);
    YearLength(y + 1);
    YearLength(y + 2);
    YearLength(y + 3);
    YearLength(y + 4);
    LeapsApart(y);
  }

  lemma LeapsApart(y: int)
    ensures IsLeap(y) ==> !IsLeap(y + 1) && !IsLeap(y + 2) && !IsLeap(y + 3) && !IsLeap(y + 5)
    ensures IsLeap(y + 1) ==> !IsLeap(y + 2) && !IsLeap(y + 3) && !IsLeap(y + 4)
    ensures IsLeap(y + 2) ==> !IsLeap(y + 3) && !IsLeap(y + 4) && !IsLeap(y + 5)
    ensures IsLeap(y + 3) ==> !IsLeap(y + 4) && !IsLeap(y + 5)
    ensures IsLeap(y + 4) ==> !IsLeap(y + 5)
  {
    hide IsLeap;
    LeapByFour(y);
    LeapByFour(y + 1);
    LeapByFour(y + 2);
    LeapByFour(y + 3);
    LeapByFour(y + 4);
    LeapByFour(y + 5);
  }

  lemma LeapByFour(y: int)
    ensures IsLeap(y) ==> y % 4 == 0
  {
  }

  /** Years differ in where their months start only by February's leap day. */
  lemma {:induction false} MonthShift(y1: int, y2: int, m: int)
    requires 1 <= m <= 13
    ensures DaysBeforeMonth(y2, m) - DaysBeforeMonth(y1, m)
            == if m <= 2 then 0 else DaysInMonth(y2, 2) - DaysInMonth(y1, 2)
    decreases m
  {
    if 1 < m { MonthShift(y1, y2, m - 1); }
  }

  /** The window holds 1825 to 1827 days. */
  lemma WindowLength(t: int)
    ensures t + 1825 * MINUTES_PER_DAY <= Limit(t) <= t + 1827 * MINUTES_PER_DAY
    ensures DayOf(Limit(t)) <= DayOf(t) + 1827
  {
    var d := DayOf(t);
    DateOfDay(d);
    FiveYears(Year(d));
    MonthShift(Year(d), Year(d) + 5, Month(d));
    MinuteParts(t);
    PartsOfAt(DayOfDate(Year(d) + 5, Month(d), DayOfMonth(d)), HourOf(t), MinuteOf(t));
  }

  // ---------- the number of iterations ----------

  /** What the loop can have spent on its way from minute m0 of hour h0 of day d0 to minute m of hour h of day d,
      and what it has seen of that day and hour; dateOk says that day d matches. */
  ghost predicate Budget(hours: set<int>, minutes: set<int>, d0: int, h0: int, m0: int,
                         dateOk: bool, d: int, h: int, m: int, spent: int)
  {
    && 0 <= h0 <= 23 && 0 <= m0 <= 59 && 0 <= h <= 23 && 0 <= m <= 59 && d0 <= d
    && (if d == d0 && h == h0 then
          && m0 <= m && spent == m - m0
          && (forall k | m0 <= k < m :: k !in minutes)
          && (m0 < m ==> dateOk && h in hours)
        else
          && (forall k | 0 <= k < m :: k !in minutes)
          && (0 < m ==> h in hours)
          && if d == d0 then
               h0 < h && dateOk && spent <= 58 + h - h0 + m
             else
               && (forall k | 0 <= k < h :: k !in hours)
               && (0 < h || 0 < m ==> dateOk)
               && spent <= 81 + d - d0 + h + m)
  }

  ghost predicate Spent(s: Schedule, t0: int, t: int, n: int) {
    Budget(s.hour, s.minute, DayOf(t0), HourOf(t0), MinuteOf(t0),
           DateMatches(s, DayOf(t)), DayOf(t), HourOf(t), MinuteOf(t), n)
  }

  lemma DateSkipBudget(hours: set<int>, minutes: set<int>, d0: int, h0: int, m0: int,
                       d: int, h: int, m: int, spent: int, dateOk': bool, d': int)
    requires Budget(hours, minutes, d0, h0, m0, false, d, h, m, spent) && d < d'
    ensures Budget(hours, minutes, d0, h0, m0, dateOk', d', 0, 0, spent + 1)
  {
  }

  lemma HourSkipBudget(hours: set<int>, minutes: set<int>, d0: int, h0: int, m0: int,
                       d: int, h: int, m: int, spent: int, nextOk: bool)
    requires HasValueIn(hours, 0, 23) && Budget(hours, minutes, d0, h0, m0, true, d, h, m, spent) && h !in hours
    ensures h < 23 ==> Budget(hours, minutes, d0, h0, m0, true, d, h + 1, 0, spent + 1)
    ensures h == 23 ==> Budget(hours, minutes, d0, h0, m0, nextOk, d + 1, 0, 0, spent + 1)
  {
    var k :| k in hours && 0 <= k <= 23;
    assert k < h || h < k;
  }

  lemma MinuteSkipBudget(hours: set<int>, minutes: set<int>, d0: int, h0: int, m0: int,
                         d: int, h: int, m: int, spent: int, nextOk: bool)
    requires HasValueIn(minutes, 0, 59) && Budget(hours, minutes, d0, h0, m0, true, d, h, m, spent)
    requires h in hours && m !in minutes
    ensures m < 59 ==> Budget(hours, minutes, d0, h0, m0, true, d, h, m + 1, spent + 1)
    ensures m == 59 && h < 23 ==> Budget(hours, minutes, d0, h0, m0, true, d, h + 1, 0, spent + 1)
    ensures m == 59 && h == 23 ==> Budget(hours, minutes, d0, h0, m0, nextOk, d + 1, 0, 0, spent + 1)
  {
    var k :| k in minutes && 0 <= k <= 59;
    assert k < m || m < k;
  }

  lemma NothingSpent(s: Schedule, t: int)
    ensures Spent(s, t, t, 0)
  {
    MinuteParts(t);
  }

  lemma SpentBound(s: Schedule, t0: int, t: int, n: int)
    requires Spent(s, t0, t, n) && t < Limit(t0)
    ensures n <= 1990
  {
    WindowLength(t0);
  }

  /** One jump of the loop, from t to t': it goes forward, misses no match and stays within the budget. */
  ghost predicate GoodJump(s: Schedule, t0: int, t: int, t': int, n: int) {
    && t < t' && NoMatchIn(s, t, t')
    && (Usable(s) && Spent(s, t0, t, n) ==> Spent(s, t0, t', n + 1))
  }

  lemma MonthJump(s: Schedule, t0: int, t: int, n: int)
    requires Month(DayOf(t)) !in s.month
    ensures GoodJump(s, t0, t, FirstOfNextMonth(t), n)
  {
    var d := DayOf(t);
    var d' := DayOfDate(Year(d), Month(d) + 1, 1);
    SameMonthUntilNext(t);
    PartsOfAt(d', 0, 0);
    if Spent(s, t0, t, n) {
      DateSkipBudget(s.hour, s.minute, DayOf(t0), HourOf(t0), MinuteOf(t0),
                     d, HourOf(t), MinuteOf(t), n, DateMatches(s, d'), d');
    }
  }

  lemma DayJump(s: Schedule, t0: int, t: int, n: int)
    requires !DateMatches(s, DayOf(t))
    ensures GoodJump(s, t0, t, NextDay(t), n)
  {
    NextDayIsNext(t);
    PartsOfAt(DayOf(t) + 1, 0, 0);
    if Spent(s, t0, t, n) {
      DateSkipBudget(s.hour, s.minute, DayOf(t0), HourOf(t0), MinuteOf(t0),
                     DayOf(t), HourOf(t), MinuteOf(t), n, DateMatches(s, DayOf(t) + 1), DayOf(t) + 1);
    }
  }

  lemma HourJump(s: Schedule, t0: int, t: int, n: int)
    requires DateMatches(s, DayOf(t)) && HourOf(t) !in s.hour
    ensures GoodJump(s, t0, t, NextHour(t), n)
  {
    NextHourIsNext(t);
    PartsOfHour(t);
    if Usable(s) && Spent(s, t0, t, n) {
      HourSkipBudget(s.hour, s.minute, DayOf(t0), HourOf(t0), MinuteOf(t0),
                     DayOf(t), HourOf(t), MinuteOf(t), n, DateMatches(s, DayOf(t) + 1));
    }
  }

  lemma PartsOfHour(t: int)
    ensures var t' := At(DayOf(t), HourOf(t) + 1, 0);
            && MinuteOf(t') == 0
            && (HourOf(t) < 23 ==> DayOf(t') == DayOf(t) && HourOf(t') == HourOf(t) + 1)
            && (HourOf(t) == 23 ==> DayOf(t') == DayOf(t) + 1 && HourOf(t') == 0)
  {
    MinuteParts(t);
    if HourOf(t) < 23 {
      PartsOfAt(DayOf(t), HourOf(t) + 1, 0);
    } else {
      PartsOfAt(DayOf(t) + 1, 0, 0);
    }
  }

  lemma PartsOfNextMinute(t: int)
    ensures MinuteOf(t) < 59 ==>
              DayOf(t + 1) == DayOf(t) && HourOf(t + 1) == HourOf(t) && MinuteOf(t + 1) == MinuteOf(t) + 1
    ensures MinuteOf(t) == 59 ==> t + 1 == At(DayOf(t), HourOf(t) + 1, 0)
  {
    MinuteParts(t);
    if MinuteOf(t) < 59 {
      PartsOfAt(DayOf(t), HourOf(t), MinuteOf(t) + 1);
    }
  }

  lemma MinuteJump(s: Schedule, t0: int, t: int, n: int)
    requires DateMatches(s, DayOf(t)) && HourOf(t) in s.hour && MinuteOf(t) !in s.minute
    ensures GoodJump(s, t0, t, t + 1, n)
  {
    hide DayOf, HourOf, MinuteOf, DateMatches;
    PartsOfNextMinute(t);
    PartsOfHour(t);
    if Usable(s) && Spent(s, t0, t, n) {
      MinuteSkipBudget(s.hour, s.minute, DayOf(t0), HourOf(t0), MinuteOf(t0),
                       DayOf(t), HourOf(t), MinuteOf(t), n, DateMatches(s, DayOf(t) + 1));
    }
  }

  /** The skip search. It returns the least match of its window, for any value sets; and for the sets the parser
      leaves it goes round its loop fewer than 2,000 times, although the window holds up to 2,630,880 minutes. */
  method Next(s: Schedule, from: int) returns (r: Option<int>, ghost iterations: nat)
    ensures r == NextMatch(s, from)
    ensures Usable(s) ==> iterations < 2000
  {
    hide DayOf, HourOf, MinuteOf, Month, DayOfMonth, Weekday, Limit, FirstOfNextMonth, NextDay, NextHour, Usable, Spent;
    var t := StartMinute(from);
    var limit := Limit(t);
    ghost var t0 := t;
    iterations := 0;
    NothingSpent(s, t);
    while t < limit
      invariant MinuteSearch(s, t0, limit) == MinuteSearch(s, t, limit)
      invariant Usable(s) ==> Spent(s, t0, t, iterations) && iterations <= 1991
      decreases limit - t
    {
      ghost var seen := t;
      if Usable(s) { SpentBound(s, t0, t, iterations); }
      if Month(DayOf(t)) !in s.month {
        MonthJump(s, t0, t, iterations);
        t := FirstOfNextMonth(t);
      } else if DayOfMonth(DayOf(t)) !in s.dom {
        DayJump(s, t0, t, iterations);
        t := NextDay(t);
      } else if Weekday(DayOf(t)) !in s.dow {
        DayJump(s, t0, t, iterations);
        t := NextDay(t);
      } else if HourOf(t) !in s.hour {
        HourJump(s, t0, t, iterations);
        t := NextHour(t);
      } else if MinuteOf(t) !in s.minute {
        MinuteJump(s, t0, t, iterations);
        t := t + 1;
      } else {
        return Some(t), iterations + 1;
      }
      SkipKeepsSearch(s, seen, t, limit);
      iterations := iterations + 1;
    }
    return None, iterations;
  }
}
