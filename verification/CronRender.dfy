/** The other direction of the parser: every schedule with values in range is the meaning of some expression. */
module CronRender {
  import opened Prelude
  import opened Text
  import opened CronNext
  import opened CronParse

  /** The decimal representations of the values. */
  function Decimals(xs: seq<nat>): (parts: seq<string>)
    ensures |parts| == |xs|
    ensures forall i | 0 <= i < |xs| :: parts[i] == Itoa(xs[i])
  {
    if xs == [] then [] else [Itoa(xs[0])] + Decimals(xs[1..])
  }

  function RenderField(xs: seq<nat>): string {
    Join(Decimals(xs), ',')
  }

  function Render(minute: seq<nat>, hour: seq<nat>, dom: seq<nat>, month: seq<nat>, dow: seq<nat>): string {
    Join([RenderField(minute), RenderField(hour), RenderField(dom), RenderField(month), RenderField(dow)], ' ')
  }

  ghost predicate NamesStartWithLetters(names: map<string, int>) {
    forall k | k in names :: k != "" && !IsDigit(k[0])
  }

  lemma NumberIsNoName(n: nat, names: map<string, int>)
    requires NamesStartWithLetters(names) && n <= MAX_INT64
    ensures Resolve(Itoa(n), names) == Some(n)
  {
    ItoaDigits(n);
    AtoiItoa(n);
    var s := Itoa(n);
    assert IsDigit(s[0]) && Lower(s)[0] == s[0];
  }

  lemma NumberMeaning(n: nat, min: int, max: int, names: map<string, int>)
    requires FieldBounds(min, max) && min <= n <= max && NamesStartWithLetters(names)
    ensures PartMeaning(Itoa(n), min, max, names) == Some(Progression(n, n, 1))
  {
    hide Resolve, Itoa;
    ItoaDigits(n);
    NumberIsNoName(n, names);
    var s := Itoa(n);
    assert '/' !in s && '-' !in s && s[0] in s && s != "*";
  }

  lemma NumberValues(n: nat, min: int, max: int, names: map<string, int>)
    requires FieldBounds(min, max) && min <= n <= max && NamesStartWithLetters(names)
    ensures PartValues(Itoa(n), min, max, names) == Some({n})
  {
    hide PartMeaning, Visited;
    NumberMeaning(n, min, max, names);
    VisitedIff(n, n, 1);
    assert Multiples(n, n, 1) == {n} by { assert OnProgression(n, 1, n); }
  }

  lemma {:induction false} NumbersValues(xs: seq<nat>, min: int, max: int, names: map<string, int>)
    requires FieldBounds(min, max) && NamesStartWithLetters(names) && forall x | x in xs :: min <= x <= max
    ensures PartsValues(Decimals(xs), min, max, names) == Some(set x: int | x in xs)
  {
    hide PartValues, Itoa;
    if xs == [] {
      assert (set x: int | x in xs) == {};
    } else {
      assert xs[0] in xs && forall x | x in xs[1..] :: x in xs;
      NumberValues(xs[0], min, max, names);
      NumbersValues(xs[1..], min, max, names);
      assert Decimals(xs)[1..] == Decimals(xs[1..]);
      assert (set x: int | x in xs) == {xs[0] as int} + (set x: int | x in xs[1..]);
    }
  }

  /** The comma-joined decimal list of any non-empty set of values in range is accepted and means that set. */
  lemma RenderedFieldValues(xs: seq<nat>, min: int, max: int, names: map<string, int>)
    requires FieldBounds(min, max) && NamesStartWithLetters(names)
    requires xs != [] && forall x | x in xs :: min <= x <= max
    ensures FieldValues(RenderField(xs), min, max, names) == Some(set x: int | x in xs)
    ensures IsWord(RenderField(xs))
  {
    hide PartsValues, Decimals;
    var parts := Decimals(xs);
    forall p | p in parts ensures IsWord(p) && ',' !in p {
      var i :| 0 <= i < |parts| && parts[i] == p;
      ItoaDigits(xs[i]);
    }
    SplitJoin(parts, ',');
    NumbersValues(xs, min, max, names);
    JoinOfWords(parts);
  }

  lemma {:induction false} JoinOfWords(parts: seq<string>)
    requires parts != [] && forall p | p in parts :: IsWord(p)
    ensures IsWord(Join(parts, ','))
  {
    assert IsWord(parts[0]);
    if |parts| > 1 {
      JoinOfWords(parts[1..]);
      var rest := Join(parts[1..], ',');
      forall c | c in Join(parts, ',') ensures !IsSpace(c) {
        assert c in parts[0] || c == ',' || c in rest;
      }
    }
  }

  lemma TrimOfJoin(words: seq<string>)
    requires words != [] && forall w | w in words :: IsWord(w)
    ensures TrimSpace(Join(words, ' ')) == Join(words, ' ')
  {
    JoinEnds(words);
    TrimSpaceTrims(Join(words, ' '));
  }

  lemma {:induction false} JoinEnds(words: seq<string>)
    requires words != [] && forall w | w in words :: IsWord(w)
    ensures Join(words, ' ') != "" && Trimmed(Join(words, ' '))
  {
    var w := words[0];
    assert IsWord(w) && w[0] in w && w[|w| - 1] in w;
    if |words| > 1 {
      JoinEnds(words[1..]);
    }
  }

  ghost predicate Lists(xs: seq<nat>, field: set<int>, min: int, max: int) {
    xs != [] && (forall x | x in xs :: min <= x <= max) && field == set x: int | x in xs
  }

  /** Parsing the rendering of a schedule gives the schedule back. */
  lemma ParseOfRender(s: Schedule, minute: seq<nat>, hour: seq<nat>, dom: seq<nat>, month: seq<nat>, dow: seq<nat>)
    requires Lists(minute, s.minute, 0, 59) && Lists(hour, s.hour, 0, 23) && Lists(dom, s.dom, 1, 31)
    requires Lists(month, s.month, 1, 12) && Lists(dow, s.dow, 0, 6)
    ensures ParseSpec(Render(minute, hour, dom, month, dow)) == Some(s)
  {
    hide FieldValues, RenderField, IsWord, Fields, TrimSpace, Join;
    RenderedFieldValues(minute, 0, 59, map[]);
    RenderedFieldValues(hour, 0, 23, map[]);
    RenderedFieldValues(dom, 1, 31, map[]);
    RenderedFieldValues(month, 1, 12, MONTH_NAMES);
    RenderedFieldValues(dow, 0, 6, DOW_NAMES);
    var words := [RenderField(minute), RenderField(hour), RenderField(dom), RenderField(month), RenderField(dow)];
    TrimOfJoin(words);
    FieldsOfJoin(words);
  }

  lemma {:induction false} SetCanBeListed(field: set<int>, min: nat, max: int) returns (xs: seq<nat>)
    requires (exists v :: v in field) && forall v | v in field :: min <= v <= max
    ensures Lists(xs, field, min, max)
    decreases |field|
  {
    var v :| v in field;
    var rest := field - {v};
    if forall u :: u !in rest {
      xs := [v];
      assert rest == {};
      assert field == rest + {v} == set x: int | x in xs;
    } else {
      var ys := SetCanBeListed(rest, min, max);
      xs := [v] + ys;
      assert field == rest + {v} == set x: int | x in xs;
    }
  }

  /** Every schedule whose five fields are non-empty and in range is the meaning of an expression. */
  lemma EveryScheduleIsReached(s: Schedule) returns (expr: string)
    requires Usable(s)
    requires (forall v | v in s.minute :: 0 <= v <= 59) && (forall v | v in s.hour :: 0 <= v <= 23)
    requires (forall v | v in s.dom :: 1 <= v <= 31) && (forall v | v in s.month :: 1 <= v <= 12)
    requires forall v | v in s.dow :: 0 <= v <= 6
    ensures ParseSpec(expr) == Some(s)
  {
    hide ParseSpec, Render;
    var minute := SetCanBeListed(s.minute, 0, 59);
    var hour := SetCanBeListed(s.hour, 0, 23);
    var dom := SetCanBeListed(s.dom, 1, 31);
    var month := SetCanBeListed(s.month, 1, 12);
    var dow := SetCanBeListed(s.dow, 0, 6);
    ParseOfRender(s, minute, hour, dom, month, dow);
    expr := Render(minute, hour, dom, month, dow);
  }

  // ---------- steps whose first addition overflows ----------

  lemma {:induction false} IndexOfFirst(p: string, c: char, s: string)
    requires c !in p
    ensures IndexOf(p + [c] + s, c) == Some(|p|)
  {
    if p == "" {
      assert p + [c] + s == [c] + s;
    } else {
      assert p == [p[0]] + p[1..];
      IndexOfFirst(p[1..], c, s);
      assert (p + [c] + s)[1..] == p[1..] + [c] + s;
    }
  }

  lemma SteppedMeaning(n: nat, step: nat, min: int, max: int, names: map<string, int>)
    requires FieldBounds(min, max) && min <= n <= max && 1 <= step <= MAX_INT64 && NamesStartWithLetters(names)
    ensures PartMeaning(Itoa(n) + "/" + Itoa(step), min, max, names) == Some(Progression(n, n, step))
  {
    var base, text := Itoa(n), Itoa(step);
    ItoaDigits(n);
    AtoiItoa(step);
    NumberIsNoName(n, names);
    hide Resolve, Itoa, Atoi;
    assert '/' !in base && '-' !in base && base[0] in base && base != "*";
    IndexOfFirst(base, '/', text);
    var part := base + "/" + text;
    assert base + ['/'] + text == part && part[..|base|] == base && part[|base| + 1..] == text;
  }

  lemma OnePartField(part: string, min: int, max: int, names: map<string, int>)
    requires FieldBounds(min, max) && part != "" && ',' !in part
    ensures FieldValues(part, min, max, names) == PartValues(part, min, max, names)
  {
    hide PartValues;
    SplitOfFree(part, ',');
    assert [part][1..] == [] && [part][0] == part;
    assert PartsValues([], min, max, names) == Some({});
    var values := PartValues(part, min, max, names);
    if values.Some? {
      assert values.value + {} == values.value;
    }
  }

  lemma SteppedWord(n: nat, step: nat)
    ensures IsWord(Itoa(n) + "/" + Itoa(step)) && ',' !in Itoa(n) + "/" + Itoa(step)
  {
    ItoaDigits(n);
    ItoaDigits(step);
    hide Itoa;
    forall c | c in Itoa(n) + "/" + Itoa(step) ensures !IsSpace(c) && c != ',' {
      assert c in Itoa(n) || c == '/' || c in Itoa(step);
    }
  }

  lemma OverflowingPart(part: string, n: int, step: int, min: int, max: int, names: map<string, int>)
    requires FieldBounds(min, max) && PartMeaning(part, min, max, names) == Some(Progression(n, n, step))
    ensures PartValues(part, min, max, names).Some?
    ensures n + step > MAX_INT64 ==>
              Wrap64(n + step) in PartValues(part, min, max, names).value && Wrap64(n + step) < 0
  {
    hide PartMeaning, Wrap64, Visited;
    assert PartValues(part, min, max, names).Some?;
    hide PartValues;
    PartValuesInRange(part, min, max, names);
  }

  /** Every field of one number and a step is accepted; if the first addition overflows, it holds a negative value. */
  lemma OverflowIsAccepted(n: nat, step: nat, min: int, max: int, names: map<string, int>)
    requires FieldBounds(min, max) && min <= n <= max && 1 <= step <= MAX_INT64 && NamesStartWithLetters(names)
    ensures var field := FieldValues(Itoa(n) + "/" + Itoa(step), min, max, names);
            && field.Some?
            && (n + step > MAX_INT64 ==> Wrap64(n + step) in field.value && Wrap64(n + step) < 0)
  {
    hide PartMeaning, Wrap64, Itoa, Visited, FieldValues, PartValues, IsWord;
    var part := Itoa(n) + "/" + Itoa(step);
    SteppedWord(n, step);
    assert part != "" by { assert '/' in part; }
    SteppedMeaning(n, step, min, max, names);
    OnePartField(part, min, max, names);
    OverflowingPart(part, n, step, min, max, names);
  }

  lemma StarIsAccepted(min: int, max: int, names: map<string, int>)
    requires FieldBounds(min, max)
    ensures FieldValues("*", min, max, names).Some? && IsWord("*")
  {
    assert IndexOf("*", '/') == None;
    OnePartField("*", min, max, names);
  }

  /** 1/9223372036854775807 * * * * */
  const OVERFLOWING := Join([Itoa(1) + "/" + Itoa(MAX_INT64), "*", "*", "*", "*"], ' ')

  /** An expression that Parse accepts although the least 64-bit number is among its minutes. */
  lemma OverflowingExpression()
    ensures ParseSpec(OVERFLOWING).Some? && MIN_INT64 in ParseSpec(OVERFLOWING).value.minute
  {
    hide FieldValues, IsWord, Fields, TrimSpace, Join, Itoa;
    var field := Itoa(1) + "/" + Itoa(MAX_INT64);
    SteppedWord(1, MAX_INT64);
    OverflowIsAccepted(1, MAX_INT64, 0, 59, map[]);
    StarIsAccepted(0, 23, map[]);
    StarIsAccepted(1, 31, map[]);
    StarIsAccepted(1, 12, MONTH_NAMES);
    StarIsAccepted(0, 6, DOW_NAMES);
    var words := [field, "*", "*", "*", "*"];
    TrimOfJoin(words);
    FieldsOfJoin(words);
  }

  lemma OneMoreDigit(n: nat, d: nat)
    requires 1 <= n && d < 10
    ensures Itoa(10 * n + d) == Itoa(n) + ['0' + d as char]
  {
    assert (10 * n + d) / 10 == n && (10 * n + d) % 10 == d;
  }

  lemma ThreeDigits(n: nat, a: nat, b: nat, c: nat)
    requires 1 <= n && a < 10 && b < 10 && c < 10
    ensures Itoa(1000 * n + 100 * a + 10 * b + c) == Itoa(n) + ['0' + a as char, '0' + b as char, '0' + c as char]
  {
    hide Itoa;
    OneMoreDigit(n, a);
    OneMoreDigit(10 * n + a, b);
    OneMoreDigit(10 * (10 * n + a) + b, c);
    assert 10 * (10 * (10 * n + a) + b) + c == 1000 * n + 100 * a + 10 * b + c;
  }

  /** The text of the step in that expression. */
  lemma StepText()
    ensures Itoa(1) == "1"
    ensures Itoa(MAX_INT64) == "9223372036854775807"
  {
    hide Itoa;
    assert Itoa(9) == "9" && Itoa(1) == "1" by { OneDigit(9); OneDigit(1); }
    ThreeDigits(9, 2, 2, 3);
    assert Itoa(9223) == "9223";
    ThreeDigits(9223, 3, 7, 2);
    assert Itoa(9223372) == "9223372";
    ThreeDigits(9223372, 0, 3, 6);
    assert Itoa(9223372036) == "9223372036";
    ThreeDigits(9223372036, 8, 5, 4);
    assert Itoa(9223372036854) == "9223372036854";
    ThreeDigits(9223372036854, 7, 7, 5);
    assert Itoa(9223372036854775) == "9223372036854775";
    ThreeDigits(9223372036854775, 8, 0, 7);
    var max := 1000 * 9223372036854775 + 807;
    assert Itoa(max) == "9223372036854775807";
    assert max == MAX_INT64;
  }

  lemma OneDigit(n: nat)
    requires n < 10
    ensures Itoa(n) == ['0' + n as char]
  {
  }
}
