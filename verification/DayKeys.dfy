/** The day strings that key stats_daily: their lexicographic order is the order of the days. */
module DayKeys {
  import opened Calendar
  import opened Text

  const MS_PER_DAY := 86_400_000

  /** The UTC day of an instant in milliseconds. */
  function DayOfMs(ms: int): int {
    ms / MS_PER_DAY
  }

  function Digit(n: int): char {
    '0' + (n % 10) as char
  }

  /** The last w decimal digits, with leading zeros. */
  function Pad(n: int, w: nat): (s: string)
    ensures |s| == w
    decreases w
  {
    if w == 0 then "" else Pad(n / 10, w - 1) + [Digit(n)]
  }

  /** Format("2006-01-02") */
  function DayString(n: int): string {
    DateString(Year(n), Month(n), DayOfMonth(n))
  }

  function DateString(y: int, m: int, d: int): string {
    YearText(y) + MonthDayText(m, d)
  }

  function MonthDayText(m: int, d: int): (s: string)
    ensures |s| == 6
  {
    "-" + (Pad(m, 2) + ("-" + Pad(d, 2)))
  }

  /** Four digits with leading zeros, more from the year 10000 on, and a sign before the year 0. */
  function YearText(y: int): string {
    var abs := if y < 0 then 0 - y else y;
    (if y < 0 then "-" else "") + if abs < 10000 then Pad(abs, 4) else Itoa(abs)
  }

  lemma LastDigit(n: int, w: nat)
    ensures Pad(n, w + 1) == Pad(n / 10, w) + ["0123456789"[n % 10]]
  {
    DigitAt(n % 10);
  }

  lemma TwoDigits(n: int)
    requires 0 <= n < 100
    ensures Pad(n, 2) == ["0123456789"[n / 10], "0123456789"[n % 10]]
  {
    LastDigit(n, 1);
    LastDigit(n / 10, 0);
  }

  lemma FourDigits(n: int)
    requires 0 <= n < 10000
    ensures Pad(n, 4)
            == ["0123456789"[n / 1000], "0123456789"[n / 100 % 10], "0123456789"[n / 10 % 10], "0123456789"[n % 10]]
  {
    hide Pad;
    LastDigit(n, 3);
    LastDigit(n / 10, 2);
    TwoDigits(n / 100);
    assert n / 10 / 10 == n / 100 && n / 100 / 10 == n / 1000;
  }

  /** The day's year has four digits. */
  predicate HasDayString(n: int) {
    0 <= Year(n) <= 9999
  }

  /** Byte order of texts. */
  predicate Less(a: string, b: string) {
    b != "" && (a == "" || a[0] < b[0] || (a[0] == b[0] && Less(a[1..], b[1..])))
  }

  predicate AtMost(a: string, b: string) {
    a == b || Less(a, b)
  }

  lemma {:induction false} LessOfConcat(a: string, b: string, c: string, d: string)
    requires |a| == |b|
    ensures Less(a + c, b + d) <==> Less(a, b) || (a == b && Less(c, d))
  {
    if a == "" {
      assert a + c == c && b + d == d;
    } else {
      LessOfConcat(a[1..], b[1..], c, d);
      assert (a + c)[1..] == a[1..] + c && (b + d)[1..] == b[1..] + d;
      assert a == b <==> a[0] == b[0] && a[1..] == b[1..] by {
        assert a == [a[0]] + a[1..] && b == [b[0]] + b[1..];
      }
    }
  }

  ghost function Pow10(w: nat): int {
    if w == 0 then 1 else 10 * Pow10(w - 1)
  }

  lemma {:induction false} PadOrder(a: int, b: int, w: nat)
    requires 0 <= a < Pow10(w) && 0 <= b < Pow10(w)
    ensures Less(Pad(a, w), Pad(b, w)) <==> a < b
    ensures Pad(a, w) == Pad(b, w) <==> a == b
  {
    if w > 0 {
      PadOrder(a / 10, b / 10, w - 1);
      LessOfConcat(Pad(a / 10, w - 1), Pad(b / 10, w - 1), [Digit(a)], [Digit(b)]);
      assert Less([Digit(a)], [Digit(b)]) <==> a % 10 < b % 10;
      if Pad(a, w) == Pad(b, w) {
        assert Pad(a, w)[..w - 1] == Pad(a / 10, w - 1) && Pad(b, w)[..w - 1] == Pad(b / 10, w - 1);
        assert Pad(a, w)[w - 1] == Pad(b, w)[w - 1];
      }
    }
  }

  ghost predicate DateLess(y1: int, m1: int, d1: int, y2: int, m2: int, d2: int) {
    y1 < y2 || (y1 == y2 && (m1 < m2 || (m1 == m2 && d1 < d2)))
  }

  lemma DateStringOrder(y1: int, m1: int, d1: int, y2: int, m2: int, d2: int)
    requires 0 <= y1 <= 9999 && 0 <= y2 <= 9999
    requires 1 <= m1 <= 12 && 1 <= m2 <= 12 && 1 <= d1 <= 31 && 1 <= d2 <= 31
    ensures Less(DateString(y1, m1, d1), DateString(y2, m2, d2)) <==> DateLess(y1, m1, d1, y2, m2, d2)
  {
    hide Pad;
    assert Pow10(4) == 10000 && Pow10(2) == 100;
    PadOrder(y1, y2, 4);
    PadOrder(m1, m2, 2);
    PadOrder(d1, d2, 2);
    var (t1, t2) := (Pad(m1, 2) + ("-" + Pad(d1, 2)), Pad(m2, 2) + ("-" + Pad(d2, 2)));
    assert YearText(y1) == Pad(y1, 4) && YearText(y2) == Pad(y2, 4);
    LessOfConcat(Pad(y1, 4), Pad(y2, 4), "-" + t1, "-" + t2);
    LessOfConcat("-", "-", t1, t2);
    LessOfConcat(Pad(m1, 2), Pad(m2, 2), "-" + Pad(d1, 2), "-" + Pad(d2, 2));
    LessOfConcat("-", "-", Pad(d1, 2), Pad(d2, 2));
    assert Less("-", "-") == false;
  }

  lemma DateOrder(n1: int, n2: int)
    ensures n1 < n2 <==> DateLess(Year(n1), Month(n1), DayOfMonth(n1), Year(n2), Month(n2), DayOfMonth(n2))
  {
    if n1 < n2 {
      EarlierDate(n1, n2);
    } else if n2 < n1 {
      EarlierDate(n2, n1);
    }
  }

  lemma EarlierDate(n1: int, n2: int)
    requires n1 < n2
    ensures DateLess(Year(n1), Month(n1), DayOfMonth(n1), Year(n2), Month(n2), DayOfMonth(n2))
  {
    hide Year, Month, YearStart, DaysBeforeMonth;
    var y1, y2, m1, m2 := Year(n1), Year(n2), Month(n1), Month(n2);
    DateContains(n1);
    DateContains(n2);
    if y2 < y1 { YearsIncrease(y2, y1); }
    if y1 == y2 && m2 < m1 { MonthsIncrease(y1, m2, m1); }
  }

  /** For years 0 to 9999, the order of the day strings is the order of the days. */
  lemma DayStringOrder(n1: int, n2: int)
    requires HasDayString(n1) && HasDayString(n2)
    ensures Less(DayString(n1), DayString(n2)) <==> n1 < n2
    ensures DayString(n1) == DayString(n2) <==> n1 == n2
  {
    hide Year, Month, DayOfMonth, DateString, Less;
    LessIsStrict(DayString(n1));
    DaysUpTo31(n1);
    DaysUpTo31(n2);
    DateOrder(n1, n2);
    DateStringOrder(Year(n1), Month(n1), DayOfMonth(n1), Year(n2), Month(n2), DayOfMonth(n2));
    DateOrder(n2, n1);
    DateStringOrder(Year(n2), Month(n2), DayOfMonth(n2), Year(n1), Month(n1), DayOfMonth(n1));
  }

  lemma DaysUpTo31(n: int)
    ensures 1 <= DayOfMonth(n) <= 31
  {
    hide Year, Month, DayOfMonth;
    DateOfDay(n);
  }

  lemma {:induction false} LessIsStrict(s: string)
    ensures !Less(s, s)
  {
    if s != "" { LessIsStrict(s[1..]); }
  }

  /** A day lies between two day strings exactly when it lies between the two days. */
  lemma RangeIsChronological(first: int, last: int, n: int)
    requires HasDayString(first) && HasDayString(last) && HasDayString(n)
    ensures AtMost(DayString(first), DayString(n)) && AtMost(DayString(n), DayString(last)) <==> first <= n <= last
  {
    hide DayString, Less;
    DayStringOrder(first, n);
    DayStringOrder(n, last);
  }

  // ---------- different days have different strings ----------

  lemma {:induction false} PadDigits(n: int, w: nat)
    ensures forall c | c in Pad(n, w) :: IsDigit(c)
    decreases w
  {
    if w > 0 { PadDigits(n / 10, w - 1); }
  }

  lemma {:induction false} ItoaLength(n: nat)
    requires n >= 10000
    ensures |Itoa(n)| >= 5
  {
    if n >= 100000 {
      ItoaLength(n / 10);
    } else {
      assert Itoa(n) == Itoa(n / 10) + ['0' + (n % 10) as char];
      assert Itoa(n / 10) == Itoa(n / 10 / 10) + ['0' + (n / 10 % 10) as char];
      assert |Itoa(n / 10 / 10)| >= 3 by { ThreeDigitsAtLeast(n / 10 / 10); }
    }
  }

  lemma ThreeDigitsAtLeast(n: nat)
    requires n >= 100
    ensures |Itoa(n)| >= 3
  {
    assert |Itoa(n / 10)| >= 2;
  }

  function AbsText(n: nat): string {
    if n < 10000 then Pad(n, 4) else Itoa(n)
  }

  lemma AbsTextDistinct(a: nat, b: nat)
    requires AbsText(a) == AbsText(b)
    ensures a == b
  {
    hide Pad, Itoa;
    assert Pow10(4) == 10000;
    if a < 10000 && b < 10000 {
      PadOrder(a, b, 4);
    } else if a >= 10000 && b >= 10000 {
      ItoaDigits(a);
      ItoaDigits(b);
    } else if a < 10000 {
      ItoaLength(b);
    } else {
      ItoaLength(a);
    }
  }

  lemma AbsTextDigits(n: nat)
    ensures AbsText(n) != "" && IsDigit(AbsText(n)[0])
  {
    PadDigits(n, 4);
    ItoaDigits(n);
    hide Pad, Itoa;
    assert AbsText(n)[0] in AbsText(n);
  }

  lemma YearTextDistinct(a: int, b: int)
    requires YearText(a) == YearText(b)
    ensures a == b
  {
    var m, n := if a < 0 then 0 - a else a, if b < 0 then 0 - b else b;
    assert YearText(a) == (if a < 0 then "-" else "") + AbsText(m);
    assert YearText(b) == (if b < 0 then "-" else "") + AbsText(n);
    hide YearText, AbsText;
    AbsTextDigits(m);
    AbsTextDigits(n);
    assert ("-" + AbsText(m))[1..] == AbsText(m) && ("-" + AbsText(n))[1..] == AbsText(n);
    assert "" + AbsText(m) == AbsText(m) && "" + AbsText(n) == AbsText(n);
    assert AbsText(m) == AbsText(n);
    AbsTextDistinct(m, n);
  }

  lemma MonthDayDistinct(m1: int, d1: int, m2: int, d2: int)
    requires 0 <= m1 < 100 && 0 <= m2 < 100 && 0 <= d1 < 100 && 0 <= d2 < 100
    requires MonthDayText(m1, d1) == MonthDayText(m2, d2)
    ensures m1 == m2 && d1 == d2
  {
    hide Pad;
    assert Pow10(2) == 100;
    assert MonthDayText(m1, d1)[1..3] == Pad(m1, 2) && MonthDayText(m2, d2)[1..3] == Pad(m2, 2);
    assert MonthDayText(m1, d1)[4..6] == Pad(d1, 2) && MonthDayText(m2, d2)[4..6] == Pad(d2, 2);
    PadOrder(m1, m2, 2);
    PadOrder(d1, d2, 2);
  }

  /** In any year, different days have different strings, so a string is as good a key as the day. */
  lemma DayStringDistinct(n1: int, n2: int)
    requires DayString(n1) == DayString(n2)
    ensures n1 == n2
  {
    hide Year, Month, DayOfMonth, YearText, MonthDayText;
    var y1, y2 := YearText(Year(n1)), YearText(Year(n2));
    var t1, t2 := MonthDayText(Month(n1), DayOfMonth(n1)), MonthDayText(Month(n2), DayOfMonth(n2));
    assert |y1| == |y2|;
    assert (y1 + t1)[..|y1|] == y1 && (y2 + t2)[..|y2|] == y2;
    assert (y1 + t1)[|y1|..] == t1 && (y2 + t2)[|y2|..] == t2;
    YearTextDistinct(Year(n1), Year(n2));
    DaysUpTo31(n1);
    DaysUpTo31(n2);
    MonthDayDistinct(Month(n1), DayOfMonth(n1), Month(n2), DayOfMonth(n2));
    DateOfDay(n1);
    DateOfDay(n2);
  }

  // ---------- byte order is an order ----------

  lemma {:induction false} LessIsTotal(a: string, b: string)
    ensures AtMost(a, b) || AtMost(b, a)
  {
    if a != "" && b != "" && a[0] == b[0] {
      LessIsTotal(a[1..], b[1..]);
      assert a == [a[0]] + a[1..] && b == [b[0]] + b[1..];
    }
  }

  lemma {:induction false} LessIsTransitive(a: string, b: string, c: string)
    requires Less(a, b) && Less(b, c)
    ensures Less(a, c)
  {
    if a != "" && a[0] == b[0] && b[0] == c[0] {
      LessIsTransitive(a[1..], b[1..], c[1..]);
    }
  }
}
