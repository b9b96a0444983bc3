/** The parts of a cron field by what they look like rather than by how they are taken apart: a part is a star, a value
    or a range of values, optionally followed by a slash and a positive step. */
module CronGrammar {
  import opened Prelude
  import opened Text
  import opened CronParse
  import opened CronRender

  ghost predicate AllDigits(s: string) {
    s != "" && forall c | c in s :: c in "0123456789"
  }

  lemma AllDigitsIff(s: string)
    ensures AllDigits(s) <==> s != "" && forall c | c in s :: IsDigit(c)
  {
    forall c | c in s ensures IsDigit(c) <==> c in "0123456789" { DigitIff(c); }
  }

  /** Decimal digits with an optional sign, within 64 bits. */
  ghost predicate IsNumber(tok: string, v: int) {
    MIN_INT64 <= v <= MAX_INT64 && exists digits :: AllDigits(digits) && IsSigned(tok, digits, v)
  }

  ghost predicate IsSigned(tok: string, digits: string, v: int)
    requires AllDigits(digits)
  {
    AllDigitsIff(digits);
    || ((tok == digits || tok == "+" + digits) && v == DigitsValue(digits))
    || (tok == "-" + digits && v == 0 - DigitsValue(digits))
  }

  /** A name of the field, in any case, or a number. */
  ghost predicate IsValue(tok: string, names: map<string, int>, v: int) {
    if Lower(tok) in names then v == names[Lower(tok)] else IsNumber(tok, v)
  }

  ghost predicate IsPair(range: string, names: map<string, int>, lo: int, hi: int) {
    exists a, b :: range == a + ['-'] + b && '-' !in a && IsValue(a, names, lo) && IsValue(b, names, hi)
  }

  ghost predicate IsRange(range: string, min: int, max: int, names: map<string, int>, lo: int, hi: int) {
    if range == "*" then lo == min && hi == max
    else (lo == hi && '-' !in range && IsValue(range, names, lo)) || IsPair(range, names, lo, hi)
  }

  ghost predicate HasStep(part: string, range: string, step: int) {
    exists text :: part == range + ['/'] + text && '/' !in range && IsNumber(text, step)
  }

  /** The part asks for the progression. */
  ghost predicate Denotes(part: string, min: int, max: int, names: map<string, int>, p: Progression) {
    && min <= p.lo <= p.hi <= max && 1 <= p.step
    && exists range :: IsRange(range, min, max, names, p.lo, p.hi)
                       && ((range == part && '/' !in part && p.step == 1) || HasStep(part, range, p.step))
  }

  lemma AtoiIff(tok: string, v: int)
    ensures Atoi(tok) == Some(v) <==> IsNumber(tok, v)
  {
    hide AllDigits, Atoi, IsSigned;
    if Atoi(tok) == Some(v) {
      var digits := DigitsOf(tok, v);
    }
    if IsNumber(tok, v) {
      var digits :| AllDigits(digits) && IsSigned(tok, digits, v);
      SignedIsRead(tok, digits, v);
    }
  }

  lemma DigitsOf(tok: string, v: int) returns (digits: string)
    requires Atoi(tok) == Some(v)
    ensures MIN_INT64 <= v <= MAX_INT64 && AllDigits(digits) && IsSigned(tok, digits, v)
  {
    hide AllDigits, DigitsValue;
    var signed := tok[0] == '+' || tok[0] == '-';
    digits := if signed then tok[1..] else tok;
    AllDigitsIff(digits);
    assert signed ==> tok == [tok[0]] + digits;
  }

  lemma SignedIsRead(tok: string, digits: string, v: int)
    requires MIN_INT64 <= v <= MAX_INT64 && AllDigits(digits) && IsSigned(tok, digits, v)
    ensures Atoi(tok) == Some(v)
  {
    hide AllDigits, DigitsValue;
    AllDigitsIff(digits);
    assert digits[0] in digits && IsDigit(digits[0]);
    assert ("+" + digits)[1..] == digits && ("-" + digits)[1..] == digits;
  }

  lemma ResolveIff(tok: string, names: map<string, int>, v: int)
    ensures Resolve(tok, names) == Some(v) <==> IsValue(tok, names, v)
  {
    hide Atoi, IsNumber;
    AtoiIff(tok, v);
  }

  lemma PairIff(range: string, names: map<string, int>, lo: int, hi: int)
    ensures IsPair(range, names, lo, hi) <==>
              var i := IndexOf(range, '-');
              && i.Some?
              && Resolve(range[..i.value], names) == Some(lo) && Resolve(range[i.value + 1..], names) == Some(hi)
  {
    hide Resolve, IsValue;
    var i := IndexOf(range, '-');
    if i.Some? {
      var a, b := range[..i.value], range[i.value + 1..];
      assert range == a + ['-'] + b;
      ResolveIff(a, names, lo);
      ResolveIff(b, names, hi);
    }
    if IsPair(range, names, lo, hi) {
      var a, b :| range == a + ['-'] + b && '-' !in a && IsValue(a, names, lo) && IsValue(b, names, hi);
      IndexOfFirst(a, '-', b);
      assert range[..|a|] == a && range[|a| + 1..] == b;
    }
  }

  lemma RangeIff(range: string, min: int, max: int, names: map<string, int>, lo: int, hi: int)
    ensures PartBounds(range, min, max, names) == Some((lo, hi)) <==> IsRange(range, min, max, names, lo, hi)
  {
    hide Resolve, IsValue, IsPair;
    PairIff(range, names, lo, hi);
    ResolveIff(range, names, lo);
  }

  lemma StepIff(part: string, range: string, step: int)
    ensures HasStep(part, range, step) <==>
              var i := IndexOf(part, '/');
              i.Some? && range == part[..i.value] && Atoi(part[i.value + 1..]) == Some(step)
  {
    hide Atoi, IsNumber;
    var i := IndexOf(part, '/');
    if i.Some? {
      var text := part[i.value + 1..];
      assert part == part[..i.value] + ['/'] + text;
      AtoiIff(text, step);
    }
    if HasStep(part, range, step) {
      var text :| part == range + ['/'] + text && '/' !in range && IsNumber(text, step);
      IndexOfFirst(range, '/', text);
      assert part[..|range|] == range && part[|range| + 1..] == text;
    }
  }

  lemma MeaningIs(part: string, min: int, max: int, names: map<string, int>, p: Progression)
    ensures PartMeaning(part, min, max, names) == Some(p) <==>
              var slash := IndexOf(part, '/');
              && min <= p.lo <= p.hi <= max && 1 <= p.step
              && (if slash.Some? then Atoi(part[slash.value + 1..]) == Some(p.step) else p.step == 1)
              && PartBounds(if slash.Some? then part[..slash.value] else part, min, max, names) == Some((p.lo, p.hi))
  {
    hide Atoi, PartBounds;
    var slash := IndexOf(part, '/');
    var step := if slash.Some? then Atoi(part[slash.value + 1..]) else Some(1);
    var bounds := PartBounds(if slash.Some? then part[..slash.value] else part, min, max, names);
    assert p == Progression(p.lo, p.hi, p.step);
    if bounds.Some? {
      assert bounds.value == (bounds.value.0, bounds.value.1);
    }
    assert PartMeaning(part, min, max, names) ==
           if step.None? || step.value <= 0 || bounds.None? then None
           else if bounds.value.0 < min || bounds.value.1 > max || bounds.value.0 > bounds.value.1 then None
           else Some(Progression(bounds.value.0, bounds.value.1, step.value));
  }

  /** The parser gives a part a meaning exactly when the part denotes it. */
  lemma GrammarIff(part: string, min: int, max: int, names: map<string, int>, p: Progression)
    ensures PartMeaning(part, min, max, names) == Some(p) <==> Denotes(part, min, max, names, p)
  {
    MeaningIs(part, min, max, names, p);
    hide Atoi, PartBounds, IsRange, HasStep, PartMeaning;
    var slash := IndexOf(part, '/');
    var range := if slash.Some? then part[..slash.value] else part;
    RangeIff(range, min, max, names, p.lo, p.hi);
    forall r
      ensures HasStep(part, r, p.step) <==>
                slash.Some? && r == range && Atoi(part[slash.value + 1..]) == Some(p.step)
    {
      StepIff(part, r, p.step);
    }
    if PartMeaning(part, min, max, names) == Some(p) {
      assert IsRange(range, min, max, names, p.lo, p.hi);
    }
  }

  /** So it rejects exactly the parts that denote nothing, and no part denotes two things. */
  lemma MalformedIff(part: string, min: int, max: int, names: map<string, int>)
    ensures PartMeaning(part, min, max, names) == None <==> forall p :: !Denotes(part, min, max, names, p)
    ensures forall p, q | Denotes(part, min, max, names, p) && Denotes(part, min, max, names, q) :: p == q
  {
    hide PartMeaning, Denotes;
    forall p ensures PartMeaning(part, min, max, names) == Some(p) <==> Denotes(part, min, max, names, p) {
      GrammarIff(part, min, max, names, p);
    }
    if PartMeaning(part, min, max, names).Some? {
      assert Denotes(part, min, max, names, PartMeaning(part, min, max, names).value);
    }
  }
}
