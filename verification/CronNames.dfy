/** What whole expressions mean: the roles and bounds of the five fields, and the names of months and weekdays. */
module CronNames {
  import opened Prelude
  import opened Text
  import opened CronNext
  import opened CronParse
  import opened CronRender

  // ---------- five words ----------

  ghost function AllFive(minute: Option<set<int>>, hour: Option<set<int>>, dom: Option<set<int>>,
                         month: Option<set<int>>, dow: Option<set<int>>): Option<Schedule> {
    if minute.None? || hour.None? || dom.None? || month.None? || dow.None? then None
    else Some(Schedule(minute.value, hour.value, dom.value, month.value, dow.value))
  }

  ghost function FiveFields(a: string, b: string, c: string, d: string, e: string): Option<Schedule> {
    AllFive(FieldValues(a, 0, 59, map[]), FieldValues(b, 0, 23, map[]), FieldValues(c, 1, 31, map[]),
            FieldValues(d, 1, 12, MONTH_NAMES), FieldValues(e, 0, 6, DOW_NAMES))
  }

  lemma ParseOfWords(a: string, b: string, c: string, d: string, e: string)
    requires IsWord(a) && IsWord(b) && IsWord(c) && IsWord(d) && IsWord(e)
    ensures ParseSpec(a + " " + b + " " + c + " " + d + " " + e) == FiveFields(a, b, c, d, e)
  {
    var words := [a, b, c, d, e];
    var text := a + " " + b + " " + c + " " + d + " " + e;
    assert text == Join(words, ' ') by {
      assert words[1..] == [b, c, d, e] && [b, c, d, e][1..] == [c, d, e] && [c, d, e][1..] == [d, e]
             && [d, e][1..] == [e];
      assert Join([d, e], ' ') == d + [' '] + e;
      assert Join([c, d, e], ' ') == c + [' '] + (d + [' '] + e);
    }
    hide FieldValues, IsWord, Fields, TrimSpace, Join;
    TrimOfJoin(words);
    FieldsOfJoin(words);
  }

  /** Any other number of words is rejected. */
  lemma NotFiveWords(words: seq<string>)
    requires (forall w | w in words :: IsWord(w)) && |words| != 5
    ensures ParseSpec(Join(words, ' ')) == None
  {
    hide FieldValues, TrimSpace, Fields, Join;
    FieldsOfTrimmed(Join(words, ' '));
    FieldsOfJoin(words);
  }

  /** Only the words count, not the white space between or around them. */
  lemma SpacingIsFree(expr: string, other: string)
    requires Fields(expr) == Fields(other)
    ensures ParseSpec(expr) == ParseSpec(other)
  {
    hide FieldValues, TrimSpace, Fields;
    FieldsOfTrimmed(expr);
    FieldsOfTrimmed(other);
  }

  /** One word that is not a range and has no step. */
  lemma OneValueField(w: string, min: int, max: int, names: map<string, int>)
    requires FieldBounds(min, max) && w != "" && w != "*" && '/' !in w && '-' !in w && ',' !in w
    ensures var v := Resolve(w, names);
            FieldValues(w, min, max, names) == if v.Some? && min <= v.value <= max then Some({v.value}) else None
  {
    hide Resolve, FieldValues;
    OnePartField(w, min, max, names);
    var v := Resolve(w, names);
    if v.Some? && min <= v.value <= max {
      assert PartMeaning(w, min, max, names) == Some(Progression(v.value, v.value, 1));
      hide PartMeaning, Visited;
      VisitedIff(v.value, v.value, 1);
      assert Multiples(v.value, v.value, 1) == {v.value} by { assert OnProgression(v.value, 1, v.value); }
    }
  }

  lemma NumberResolves(n: nat, names: map<string, int>)
    requires NamesStartWithLetters(names)
    ensures Resolve(Itoa(n), names) == if n <= MAX_INT64 then Some(n) else None
  {
    ItoaDigits(n);
    AtoiItoa(n);
    var s := Itoa(n);
    assert IsDigit(s[0]) && Lower(s)[0] == s[0];
  }

  lemma NumberField(n: nat, min: int, max: int, names: map<string, int>)
    requires FieldBounds(min, max) && NamesStartWithLetters(names)
    ensures FieldValues(Itoa(n), min, max, names) == (if min <= n <= max then Some({n as int}) else None)
    ensures IsWord(Itoa(n))
  {
    hide FieldValues, Resolve;
    ItoaDigits(n);
    NumberResolves(n, names);
    var w := Itoa(n);
    assert w[0] in w && IsDigit(w[0]);
    OneValueField(w, min, max, names);
  }

  lemma MonthNumber(n: nat)
    ensures FieldValues(Itoa(n), 1, 12, MONTH_NAMES) == (if 1 <= n <= 12 then Some({n as int}) else None)
  {
    hide FieldValues, IsWord, Itoa;
    NumberField(n, 1, 12, MONTH_NAMES);
  }

  lemma WeekdayNumber(n: nat)
    ensures FieldValues(Itoa(n), 0, 6, DOW_NAMES) == (if n <= 6 then Some({n as int}) else None)
  {
    hide FieldValues, IsWord, Itoa;
    NumberField(n, 0, 6, DOW_NAMES);
  }

  lemma NumberIsWord(n: nat)
    ensures IsWord(Itoa(n))
  {
    hide Itoa;
    ItoaDigits(n);
  }

  /** Five numbers are minute, hour, day of month, month and day of week, each within its bounds. */
  lemma FiveNumbers(a: nat, b: nat, c: nat, d: nat, e: nat)
    ensures ParseSpec(Itoa(a) + " " + Itoa(b) + " " + Itoa(c) + " " + Itoa(d) + " " + Itoa(e))
            == if a <= 59 && b <= 23 && 1 <= c <= 31 && 1 <= d <= 12 && e <= 6
               then Some(Schedule(minute := {a}, hour := {b}, dom := {c}, month := {d}, dow := {e})) else None
  {
    hide *;
    NumberFields(a, b, c);
    NumberIsWord(d);
    NumberIsWord(e);
    FiveNumberFields(a, b, c, d, e);
    ParseOfWords(Itoa(a), Itoa(b), Itoa(c), Itoa(d), Itoa(e));
  }

  lemma FiveNumberFields(a: nat, b: nat, c: nat, d: nat, e: nat)
    ensures FiveFields(Itoa(a), Itoa(b), Itoa(c), Itoa(d), Itoa(e))
            == if a <= 59 && b <= 23 && 1 <= c <= 31 && 1 <= d <= 12 && e <= 6
               then Some(Schedule(minute := {a}, hour := {b}, dom := {c}, month := {d}, dow := {e})) else None
  {
    hide FieldValues, IsWord, Itoa, AllFive;
    NumberFields(a, b, c);
    MonthNumber(d);
    WeekdayNumber(e);
    AllFiveNumbers(a, b, c, d, e);
  }

  lemma AllFiveNumbers(a: nat, b: nat, c: nat, d: nat, e: nat)
    ensures AllFive(if a <= 59 then Some({a as int}) else None, if b <= 23 then Some({b as int}) else None,
                    if 1 <= c <= 31 then Some({c as int}) else None, if 1 <= d <= 12 then Some({d as int}) else None,
                    if e <= 6 then Some({e as int}) else None)
            == if a <= 59 && b <= 23 && 1 <= c <= 31 && 1 <= d <= 12 && e <= 6
               then Some(Schedule(minute := {a}, hour := {b}, dom := {c}, month := {d}, dow := {e})) else None
  {
  }

  lemma NumberFields(a: nat, b: nat, c: nat)
    ensures FieldValues(Itoa(a), 0, 59, map[]) == (if a <= 59 then Some({a as int}) else None) && IsWord(Itoa(a))
    ensures FieldValues(Itoa(b), 0, 23, map[]) == (if b <= 23 then Some({b as int}) else None) && IsWord(Itoa(b))
    ensures FieldValues(Itoa(c), 1, 31, map[]) == (if 1 <= c <= 31 then Some({c as int}) else None) && IsWord(Itoa(c))
  {
    hide FieldValues, IsWord, Itoa;
    NumberField(a, 0, 59, map[]);
    NumberField(b, 0, 23, map[]);
    NumberField(c, 1, 31, map[]);
  }

  /** Five stars allow everything in bounds. */
  lemma FiveStars()
    ensures var all := ParseSpec("* * * * *");
            && all.Some?
            && (forall v :: v in all.value.minute <==> 0 <= v <= 59)
            && (forall v :: v in all.value.hour <==> 0 <= v <= 23)
            && (forall v :: v in all.value.dom <==> 1 <= v <= 31)
            && (forall v :: v in all.value.month <==> 1 <= v <= 12)
            && (forall v :: v in all.value.dow <==> 0 <= v <= 6)
  {
    hide FieldValues, ParseSpec;
    StarField(0, 59, map[]);
    StarField(0, 23, map[]);
    StarField(1, 31, map[]);
    StarField(1, 12, MONTH_NAMES);
    StarField(0, 6, DOW_NAMES);
    ParseOfWords("*", "*", "*", "*", "*");
    assert "*" + " " + "*" + " " + "*" + " " + "*" + " " + "*" == "* * * * *";
  }

  lemma StarField(min: int, max: int, names: map<string, int>)
    requires FieldBounds(min, max)
    ensures var all := FieldValues("*", min, max, names); all.Some? && forall v :: v in all.value <==> min <= v <= max
    ensures IsWord("*")
  {
    OnePartField("*", min, max, names);
    assert IndexOf("*", '/') == None;
    assert PartMeaning("*", min, max, names) == Some(Progression(min, max, 1));
    hide PartMeaning, Visited, FieldValues;
    VisitedIff(min, max, 1);
    forall v ensures v in Multiples(min, max, 1) <==> min <= v <= max {
      if min <= v <= max { assert OnProgression(min, 1, v); }
    }
  }

  // ---------- names ----------

  /** The word is the name, each letter small or capital; a small i may also be written as a capital with a dot. */
  ghost predicate Spells(w: string, small: string, capital: string)
    requires |small| == |capital|
  {
    |w| == |small|
    && forall i | 0 <= i < |w| :: w[i] == small[i] || w[i] == capital[i] || (small[i] == 'i' && w[i] == '\U{130}')
  }

  /** Three small letters and the capitals of them. */
  ghost predicate IsName(small: string, capital: string) {
    && |small| == |capital| == 3
    && forall i | 0 <= i < 3 :: 'a' <= small[i] <= 'z' && small[i] as int == capital[i] as int + 32
  }

  lemma LowerOfName(w: string, small: string, capital: string)
    requires IsName(small, capital) && Spells(w, small, capital)
    ensures Lower(w) == small
  {
    assert w == [w[0], w[1], w[2]] && small == [small[0], small[1], small[2]];
    assert w[1..] == [w[1], w[2]] && w[1..][1..] == [w[2]];
    assert LowerChar(w[0]) == small[0] && LowerChar(w[1]) == small[1] && LowerChar(w[2]) == small[2];
    assert Lower([w[2]]) == [small[2]];
    assert Lower([w[1], w[2]]) == [small[1], small[2]];
  }

  /** The field of a name of three letters means the one value that the name stands for. */
  lemma NameField(w: string, small: string, capital: string, min: int, max: int, names: map<string, int>)
    requires IsName(small, capital) && Spells(w, small, capital)
    requires FieldBounds(min, max) && small in names && min <= names[small] <= max
    ensures FieldValues(w, min, max, names) == Some({names[small]}) && IsWord(w)
  {
    LowerOfName(w, small, capital);
    forall c | c in w ensures c != '/' && c != '-' && c != ',' && c != '*' && !IsSpace(c) {
      var i :| 0 <= i < 3 && w[i] == c;
      assert 'a' <= small[i] <= 'z' && small[i] as int == capital[i] as int + 32;
    }
    assert w != "*" by { assert w[0] in w; }
    hide FieldValues, Lower;
    OneValueField(w, min, max, names);
  }

  /** In the month field, jan to dec in any mix of cases stand for 1 to 12, whatever the other fields are. */
  lemma MonthNames(k: nat, w: string, a: string, b: string, c: string, e: string)
    requires 1 <= k <= 12 && IsWord(a) && IsWord(b) && IsWord(c) && IsWord(e)
    requires Spells(w, ["jan", "feb", "mar", "apr", "may", "jun", "jul", "aug", "sep", "oct", "nov", "dec"][k - 1],
                       ["JAN", "FEB", "MAR", "APR", "MAY", "JUN", "JUL", "AUG", "SEP", "OCT", "NOV", "DEC"][k - 1])
    ensures var named := ParseSpec(a + " " + b + " " + c + " " + w + " " + e);
            && named == ParseSpec(a + " " + b + " " + c + " " + Itoa(k) + " " + e)
            && (named.Some? ==> named.value.month == {k})
  {
    hide FieldValues, IsWord, Itoa, ParseSpec, Spells;
    MonthNameField(k, w);
    MonthNumber(k);
    NumberIsWord(k);
    ParseOfWords(a, b, c, w, e);
    ParseOfWords(a, b, c, Itoa(k), e);
  }

  lemma MonthNameField(k: nat, w: string)
    requires 1 <= k <= 12
    requires Spells(w, ["jan", "feb", "mar", "apr", "may", "jun", "jul", "aug", "sep", "oct", "nov", "dec"][k - 1],
                       ["JAN", "FEB", "MAR", "APR", "MAY", "JUN", "JUL", "AUG", "SEP", "OCT", "NOV", "DEC"][k - 1])
    ensures FieldValues(w, 1, 12, MONTH_NAMES) == Some({k as int}) && IsWord(w)
  {
    hide FieldValues, IsWord, Spells;
    var small := ["jan", "feb", "mar", "apr", "may", "jun", "jul", "aug", "sep", "oct", "nov", "dec"];
    var capital := ["JAN", "FEB", "MAR", "APR", "MAY", "JUN", "JUL", "AUG", "SEP", "OCT", "NOV", "DEC"];
    MonthTable(k, small[k - 1], capital[k - 1]);
    NameField(w, small[k - 1], capital[k - 1], 1, 12, MONTH_NAMES);
  }

  lemma MonthTable(k: nat, small: string, capital: string)
    requires 1 <= k <= 12
    requires small == ["jan", "feb", "mar", "apr", "may", "jun", "jul", "aug", "sep", "oct", "nov", "dec"][k - 1]
    requires capital == ["JAN", "FEB", "MAR", "APR", "MAY", "JUN", "JUL", "AUG", "SEP", "OCT", "NOV", "DEC"][k - 1]
    ensures IsName(small, capital) && small in MONTH_NAMES && MONTH_NAMES[small] == k
  {
    if k <= 6 {
      EarlyMonths(k, small);
    } else {
      LateMonths(k, small);
    }
  }

  lemma EarlyMonths(k: nat, small: string)
    requires 1 <= k <= 6 && small == ["jan", "feb", "mar", "apr", "may", "jun"][k - 1]
    ensures small in MONTH_NAMES && MONTH_NAMES[small] == k
  {
  }

  lemma LateMonths(k: nat, small: string)
    requires 7 <= k <= 12 && small == ["jul", "aug", "sep", "oct", "nov", "dec"][k - 7]
    ensures small in MONTH_NAMES && MONTH_NAMES[small] == k
  {
  }

  /** In the weekday field, sun to sat stand for 0 to 6. */
  lemma WeekdayNames(k: nat, w: string, a: string, b: string, c: string, d: string)
    requires k <= 6 && IsWord(a) && IsWord(b) && IsWord(c) && IsWord(d)
    requires Spells(w, ["sun", "mon", "tue", "wed", "thu", "fri", "sat"][k],
                       ["SUN", "MON", "TUE", "WED", "THU", "FRI", "SAT"][k])
    ensures var named := ParseSpec(a + " " + b + " " + c + " " + d + " " + w);
            && named == ParseSpec(a + " " + b + " " + c + " " + d + " " + Itoa(k))
            && (named.Some? ==> named.value.dow == {k})
  {
    hide FieldValues, IsWord, Itoa, ParseSpec, Spells;
    WeekdayNameField(k, w);
    WeekdayNumber(k);
    NumberIsWord(k);
    ParseOfWords(a, b, c, d, w);
    ParseOfWords(a, b, c, d, Itoa(k));
  }

  lemma WeekdayNameField(k: nat, w: string)
    requires k <= 6
    requires Spells(w, ["sun", "mon", "tue", "wed", "thu", "fri", "sat"][k],
                       ["SUN", "MON", "TUE", "WED", "THU", "FRI", "SAT"][k])
    ensures FieldValues(w, 0, 6, DOW_NAMES) == Some({k as int}) && IsWord(w)
  {
    var small := ["sun", "mon", "tue", "wed", "thu", "fri", "sat"][k];
    var capital := ["SUN", "MON", "TUE", "WED", "THU", "FRI", "SAT"][k];
    hide FieldValues, IsWord, Spells;
    NameField(w, small, capital, 0, 6, DOW_NAMES);
  }

  // ---------- no other names ----------

  /** A word that is not a star and does not begin like a number, without the signs of lists, ranges and steps. */
  ghost predicate Wordlike(w: string) {
    IsWord(w) && w[0] !in "+-0123456789*" && '/' !in w && '-' !in w && ',' !in w
  }

  lemma WordlikeIsNoNumber(w: string)
    requires Wordlike(w)
    ensures Atoi(w) == None && w != "*"
  {
    assert w[0] in w;
    if IsDigit(w[0]) {
      DigitIsListed(w[0]);
      assert false;
    }
  }

  lemma DigitIsListed(c: char)
    requires IsDigit(c)
    ensures c in "+-0123456789*"
  {
    assert "0123456789"[c as int - '0' as int] == c;
    assert "+-0123456789*" == "+-" + "0123456789" + "*";
  }

  /** The other three fields have no names. */
  lemma NamesElsewhere(w: string, a: string, b: string, c: string, d: string, e: string)
    requires IsWord(a) && IsWord(b) && IsWord(c) && IsWord(d) && IsWord(e) && Wordlike(w)
    ensures ParseSpec(w + " " + b + " " + c + " " + d + " " + e) == None
    ensures ParseSpec(a + " " + w + " " + c + " " + d + " " + e) == None
    ensures ParseSpec(a + " " + b + " " + w + " " + d + " " + e) == None
  {
    NoNames(w);
    hide FieldValues, IsWord, ParseSpec;
    ParseOfWords(w, b, c, d, e);
    ParseOfWords(a, w, c, d, e);
    ParseOfWords(a, b, w, d, e);
  }

  lemma NoNames(w: string)
    requires Wordlike(w)
    ensures FieldValues(w, 0, 59, map[]) == None
    ensures FieldValues(w, 0, 23, map[]) == None && FieldValues(w, 1, 31, map[]) == None
  {
    WordlikeIsNoNumber(w);
    assert Resolve(w, map[]) == None;
    hide Resolve, FieldValues;
    OneValueField(w, 0, 59, map[]);
    OneValueField(w, 0, 23, map[]);
    OneValueField(w, 1, 31, map[]);
  }

  /** The month field knows no other names than the twelve. */
  lemma NoOtherMonths(w: string, a: string, b: string, c: string, e: string)
    requires IsWord(a) && IsWord(b) && IsWord(c) && IsWord(e) && Wordlike(w)
    requires forall k | 0 <= k < 12 ::
               !Spells(w, ["jan", "feb", "mar", "apr", "may", "jun", "jul", "aug", "sep", "oct", "nov", "dec"][k],
                       ["JAN", "FEB", "MAR", "APR", "MAY", "JUN", "JUL", "AUG", "SEP", "OCT", "NOV", "DEC"][k])
    ensures ParseSpec(a + " " + b + " " + c + " " + w + " " + e) == None
  {
    hide *;
    NoMonth(w);
    WordlikeIsWord(w);
    ParseOfWords(a, b, c, w, e);
    WithoutMonth(a, b, c, w, e);
  }

  lemma WordlikeIsWord(w: string)
    requires Wordlike(w)
    ensures IsWord(w)
  {
  }

  lemma WithoutMonth(a: string, b: string, c: string, d: string, e: string)
    requires FieldValues(d, 1, 12, MONTH_NAMES) == None
    ensures FiveFields(a, b, c, d, e) == None
  {
    hide FieldValues;
  }

  lemma WithoutWeekday(a: string, b: string, c: string, d: string, e: string)
    requires FieldValues(e, 0, 6, DOW_NAMES) == None
    ensures FiveFields(a, b, c, d, e) == None
  {
    hide FieldValues;
  }

  lemma NoMonth(w: string)
    requires Wordlike(w)
    requires forall k | 0 <= k < 12 ::
               !Spells(w, ["jan", "feb", "mar", "apr", "may", "jun", "jul", "aug", "sep", "oct", "nov", "dec"][k],
                       ["JAN", "FEB", "MAR", "APR", "MAY", "JUN", "JUL", "AUG", "SEP", "OCT", "NOV", "DEC"][k])
    ensures FieldValues(w, 1, 12, MONTH_NAMES) == None
  {
    hide Spells, Wordlike, Lower, FieldValues;
    if Lower(w) in MONTH_NAMES {
      var k := MonthKey(Lower(w));
      SpelledMonth(w, k);
      assert false;
    }
    NoSuchName(w, 1, 12, MONTH_NAMES);
  }

  lemma SpelledMonth(w: string, k: nat)
    requires k < 12
    requires Lower(w) == ["jan", "feb", "mar", "apr", "may", "jun", "jul", "aug", "sep", "oct", "nov", "dec"][k]
    ensures Spells(w, ["jan", "feb", "mar", "apr", "may", "jun", "jul", "aug", "sep", "oct", "nov", "dec"][k],
                   ["JAN", "FEB", "MAR", "APR", "MAY", "JUN", "JUL", "AUG", "SEP", "OCT", "NOV", "DEC"][k])
  {
    hide Spells, Lower;
    var small := ["jan", "feb", "mar", "apr", "may", "jun", "jul", "aug", "sep", "oct", "nov", "dec"][k];
    var capital := ["JAN", "FEB", "MAR", "APR", "MAY", "JUN", "JUL", "AUG", "SEP", "OCT", "NOV", "DEC"][k];
    MonthTable(k + 1, small, capital);
    SpelledAs(w, small, capital);
  }

  lemma NoWeekday(w: string)
    requires Wordlike(w)
    requires forall k | 0 <= k < 7 ::
               !Spells(w, ["sun", "mon", "tue", "wed", "thu", "fri", "sat"][k],
                       ["SUN", "MON", "TUE", "WED", "THU", "FRI", "SAT"][k])
    ensures FieldValues(w, 0, 6, DOW_NAMES) == None
  {
    hide Spells, Wordlike, Lower, FieldValues;
    if Lower(w) in DOW_NAMES {
      var k := WeekdayKey(Lower(w));
      SpelledWeekday(w, k);
      assert false;
    }
    NoSuchName(w, 0, 6, DOW_NAMES);
  }

  lemma SpelledWeekday(w: string, k: nat)
    requires k < 7 && Lower(w) == ["sun", "mon", "tue", "wed", "thu", "fri", "sat"][k]
    ensures Spells(w, ["sun", "mon", "tue", "wed", "thu", "fri", "sat"][k],
                   ["SUN", "MON", "TUE", "WED", "THU", "FRI", "SAT"][k])
  {
    hide Spells, Lower;
    SpelledAs(w, ["sun", "mon", "tue", "wed", "thu", "fri", "sat"][k],
              ["SUN", "MON", "TUE", "WED", "THU", "FRI", "SAT"][k]);
  }

  lemma NoSuchName(w: string, min: int, max: int, names: map<string, int>)
    requires Wordlike(w) && Lower(w) !in names && FieldBounds(min, max)
    ensures FieldValues(w, min, max, names) == None
  {
    WordlikeIsNoNumber(w);
    hide FieldValues;
    OneValueField(w, min, max, names);
  }

  lemma MonthKey(name: string) returns (k: nat)
    requires name in MONTH_NAMES
    ensures k < 12 && name == ["jan", "feb", "mar", "apr", "may", "jun", "jul", "aug", "sep", "oct", "nov", "dec"][k]
  {
    k := if name == "jan" then 0 else if name == "feb" then 1 else if name == "mar" then 2
         else if name == "apr" then 3 else if name == "may" then 4 else if name == "jun" then 5
         else if name == "jul" then 6 else if name == "aug" then 7 else if name == "sep" then 8
         else if name == "oct" then 9 else if name == "nov" then 10 else 11;
  }

  lemma WeekdayKey(name: string) returns (k: nat)
    requires name in DOW_NAMES
    ensures k < 7 && name == ["sun", "mon", "tue", "wed", "thu", "fri", "sat"][k]
  {
    k := if name == "sun" then 0 else if name == "mon" then 1 else if name == "tue" then 2
         else if name == "wed" then 3 else if name == "thu" then 4 else if name == "fri" then 5 else 6;
  }

  lemma SpelledAs(w: string, small: string, capital: string)
    requires IsName(small, capital) && 'k' !in small && Lower(w) == small
    ensures Spells(w, small, capital)
  {
    assert w == [w[0], w[1], w[2]];
    assert w[1..] == [w[1], w[2]] && w[1..][1..] == [w[2]];
    assert small == [LowerChar(w[0])] + Lower([w[1], w[2]]) && Lower([w[1], w[2]]) == [LowerChar(w[1])] + Lower([w[2]]);
    assert Lower([w[2]]) == [LowerChar(w[2])];
    forall i | 0 <= i < 3 ensures w[i] == small[i] || w[i] == capital[i] || (small[i] == 'i' && w[i] == '\U{130}') {
      assert small[i] == LowerChar(w[i]) && small[i] in small;
    }
  }

  /** Nor does the weekday field know others than the seven. */
  lemma NoOtherWeekdays(w: string, a: string, b: string, c: string, d: string)
    requires IsWord(a) && IsWord(b) && IsWord(c) && IsWord(d) && Wordlike(w)
    requires forall k | 0 <= k < 7 ::
               !Spells(w, ["sun", "mon", "tue", "wed", "thu", "fri", "sat"][k],
                       ["SUN", "MON", "TUE", "WED", "THU", "FRI", "SAT"][k])
    ensures ParseSpec(a + " " + b + " " + c + " " + d + " " + w) == None
  {
    hide *;
    NoWeekday(w);
    WordlikeIsWord(w);
    ParseOfWords(a, b, c, d, w);
    WithoutWeekday(a, b, c, d, w);
  }
}
