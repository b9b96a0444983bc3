/** Parse, parseField, parsePart and resolve of internal/cron/parser.go. Which error is reported is not modelled. */
module CronParse {
  import opened Prelude
  import opened Text
  import opened CronNext

  const MONTH_NAMES: map<string, int> :=
    map["jan" := 1, "feb" := 2, "mar" := 3, "apr" := 4, "may" := 5, "jun" := 6,
        "jul" := 7, "aug" := 8, "sep" := 9, "oct" := 10, "nov" := 11, "dec" := 12]

  const DOW_NAMES: map<string, int> :=
    map["sun" := 0, "mon" := 1, "tue" := 2, "wed" := 3, "thu" := 4, "fri" := 5, "sat" := 6]

  /** A field without names uses the empty table. */
  function Resolve(tok: string, names: map<string, int>): Option<int> {
    if Lower(tok) in names then Some(names[Lower(tok)]) else Atoi(tok)
  }

  /** The values lo, lo + step, ... up to hi that one part of a field asks for. */
  datatype Progression = Progression(lo: int, hi: int, step: int)

  function PartBounds(range: string, min: int, max: int, names: map<string, int>): Option<(int, int)> {
    if range == "*" then Some((min, max))
    else match IndexOf(range, '-')
      case Some(i) =>
        var lo, hi := Resolve(range[..i], names), Resolve(range[i + 1..], names);
        if lo.None? || hi.None? then None else Some((lo.value, hi.value))
      case None =>
        var v := Resolve(range, names);
        if v.None? then None else Some((v.value, v.value))
  }

  /** What a part means; None for every part that is rejected. */
  function PartMeaning(part: string, min: int, max: int, names: map<string, int>): (r: Option<Progression>)
    ensures r.Some? ==> min <= r.value.lo <= r.value.hi <= max && 1 <= r.value.step <= MAX_INT64
  {
    var slash := IndexOf(part, '/');
    var step := if slash.Some? then Atoi(part[slash.value + 1..]) else Some(1);
    if step.None? || step.value <= 0 then None
    else
      var bounds := PartBounds(if slash.Some? then part[..slash.value] else part, min, max, names);
      if bounds.None? then None
      else
        var (lo, hi) := bounds.value;
        if lo < min || hi > max || lo > hi then None else Some(Progression(lo, hi, step.value))
  }

  /** The bounds the five fields use. */
  ghost predicate FieldBounds(min: int, max: int) {
    0 <= min <= max <= 59
  }

  // ---------- the loop of parsePart, with 64-bit addition ----------

  /** The number of steps the loop can still take, up to a factor. A step that overflows makes v negative, the next
      one brings it back lower than before, until a step leaves the range upwards. */
  ghost function LoopMeasure(v: int, hi: int, step: int): nat
    requires MIN_INT64 <= v <= MAX_INT64 && 0 <= hi <= 59 && 1 <= step <= MAX_INT64
  {
    if v > hi then 0
    else if hi < v + step <= MAX_INT64 then 1
    else if step <= MAX_INT64 - hi then hi - v + 2
    else if v >= 0 then 2 * v + 3
    else 2 * (v - MIN_INT64) + 2
  }

  lemma LoopMeasureDecreases(v: int, hi: int, step: int)
    requires MIN_INT64 <= v <= hi && 0 <= hi <= 59 && 1 <= step <= MAX_INT64
    ensures LoopMeasure(Wrap64(v + step), hi, step) < LoopMeasure(v, hi, step)
  {
    WrapOnce(v + step);
  }

  lemma WrapOnce(n: int)
    requires MIN_INT64 <= n <= 2 * MAX_INT64
    ensures Wrap64(n) == if n <= MAX_INT64 then n else n - 0x1_0000_0000_0000_0000
  {
  }

  /** The values the loop puts into the set. */
  ghost function Visited(v: int, hi: int, step: int): set<int>
    requires MIN_INT64 <= v <= MAX_INT64 && 0 <= hi <= 59 && 1 <= step <= MAX_INT64
    decreases LoopMeasure(v, hi, step)
  {
    if v > hi then {}
    else
      LoopMeasureDecreases(v, hi, step);
      {v} + Visited(Wrap64(v + step), hi, step)
  }

  /** The values a progression stands for. */
  ghost function Multiples(lo: int, hi: int, step: int): set<int>
    requires 1 <= step
  {
    set v | lo <= v <= hi && OnProgression(lo, step, v)
  }

  ghost predicate OnProgression(lo: int, step: int, v: int)
    requires 1 <= step
  {
    (v - lo) % step == 0
  }

  lemma {:induction false} VisitedWithoutOverflow(v: int, hi: int, step: int)
    requires 0 <= v && 0 <= hi <= 59 && 1 <= step && v <= MAX_INT64 && hi + step <= MAX_INT64
    ensures Visited(v, hi, step) == Multiples(v, hi, step)
    decreases hi - v
  {
    if v <= hi {
      VisitedWithoutOverflow(v + step, hi, step);
      forall u ensures u in Multiples(v, hi, step) <==> u == v || u in Multiples(v + step, hi, step) {
        MultiplesStep(v, u, step);
      }
    }
  }

  lemma MultiplesStep(v: int, u: int, step: int)
    requires 1 <= step
    ensures (v <= u && (u - v) % step == 0) <==> (u == v || (v + step <= u && (u - (v + step)) % step == 0))
  {
    if v <= u < v + step {
      assert (u - v) % step == u - v;
    }
    if v + step <= u {
      ModStep(u - v, step);
    }
  }

  lemma ModStep(n: int, step: int)
    requires 1 <= step <= n
    ensures (n - step) % step == n % step
  {
    var q, r := n / step, n % step;
    assert n - step == step * (q - 1) + r;
    ModUnique(n - step, step, q - 1, r);
  }

  lemma ModUnique(n: int, b: int, q: int, r: int)
    requires 1 <= b && n == b * q + r && 0 <= r < b
    ensures n % b == r
  {
    var k := n / b - q;
    assert b * k == r - n % b;
    assert k >= 1 ==> b * k >= b;
    assert k <= -1 ==> b * k <= -b;
  }

  /** The loop stores exactly the values the part stands for if and only if its first step does not overflow.
      Otherwise it stores a negative number as well. */
  lemma VisitedIff(lo: int, hi: int, step: int)
    requires 0 <= lo <= hi <= 59 && 1 <= step <= MAX_INT64
    ensures Visited(lo, hi, step) == Multiples(lo, hi, step) <==> lo + step <= MAX_INT64
    ensures (forall v | v in Visited(lo, hi, step) :: lo <= v <= hi) <==> lo + step <= MAX_INT64
    ensures lo in Visited(lo, hi, step)
  {
    LoopMeasureDecreases(lo, hi, step);
    WrapOnce(lo + step);
    if hi + step <= MAX_INT64 {
      VisitedWithoutOverflow(lo, hi, step);
    } else if lo + step <= MAX_INT64 {
      forall u ensures u in Multiples(lo, hi, step) <==> u == lo {
        MultiplesStep(lo, u, step);
      }
      assert Visited(lo + step, hi, step) == {};
    } else {
      var v := Wrap64(lo + step);
      assert v < 0 && v in Visited(v, hi, step);
    }
  }

  /** A map[int]bool that the parser fills in place. */
  class IntSet {
    var elems: set<int>

    constructor ()
      ensures elems == {}
    {
      elems := {};
    }
  }

  /** What one part adds to the set. */
  ghost function PartValues(part: string, min: int, max: int, names: map<string, int>): Option<set<int>>
    requires FieldBounds(min, max)
  {
    var r := PartMeaning(part, min, max, names);
    if r.None? then None else Some(Visited(r.value.lo, r.value.hi, r.value.step))
  }

  /** parsePart; a rejected part leaves the set as it was. */
  method ParsePart(part: string, min: int, max: int, names: map<string, int>, into: IntSet) returns (ok: bool)
    requires FieldBounds(min, max)
    modifies into
    ensures ok == PartValues(part, min, max, names).Some?
    ensures into.elems == old(into.elems) + (if ok then PartValues(part, min, max, names).value else {})
  {
    var meaning := PartMeaning(part, min, max, names);
    if meaning.None? {
      return false;
    }
    var Progression(lo, hi, step) := meaning.value;
    var v := lo;
    while v <= hi
      invariant MIN_INT64 <= v <= MAX_INT64
      invariant into.elems + Visited(v, hi, step) == old(into.elems) + Visited(lo, hi, step)
      decreases LoopMeasure(v, hi, step)
    {
      LoopMeasureDecreases(v, hi, step);
      into.elems := into.elems + {v};
      v := Wrap64(v + step);
    }
    return true;
  }

  /** What the parts of a field add up to; None as soon as one of them is rejected. */
  ghost function PartsValues(parts: seq<string>, min: int, max: int, names: map<string, int>): Option<set<int>>
    requires FieldBounds(min, max)
  {
    if parts == [] then Some({})
    else
      var first := PartValues(parts[0], min, max, names);
      if first.None? then None
      else
        var rest := PartsValues(parts[1..], min, max, names);
        if rest.None? then None else Some(first.value + rest.value)
  }

  /** The set parseField leaves for a field it accepts. */
  ghost function FieldValues(spec: string, min: int, max: int, names: map<string, int>): Option<set<int>>
    requires FieldBounds(min, max)
  {
    if spec == "" then None else PartsValues(Split(spec, ','), min, max, names)
  }

  /** A field is accepted when every part is, and then it holds the values of all parts, in whatever order they come. */
  lemma {:induction false} PartsValuesAreUnion(parts: seq<string>, min: int, max: int, names: map<string, int>)
    requires FieldBounds(min, max)
    ensures PartsValues(parts, min, max, names).Some? <==> forall p | p in parts :: PartValues(p, min, max, names).Some?
    ensures PartsValues(parts, min, max, names).Some? ==>
              forall v :: v in PartsValues(parts, min, max, names).value
                          <==> exists p :: p in parts && PartValues(p, min, max, names).Some?
                                           && v in PartValues(p, min, max, names).value
  {
    if parts != [] {
      hide PartValues;
      PartsValuesAreUnion(parts[1..], min, max, names);
      assert forall p :: p in parts <==> p == parts[0] || p in parts[1..];
    }
  }

  lemma PartOrderIsIrrelevant(parts: seq<string>, parts': seq<string>, min: int, max: int, names: map<string, int>)
    requires FieldBounds(min, max) && multiset(parts) == multiset(parts')
    ensures PartsValues(parts, min, max, names) == PartsValues(parts', min, max, names)
  {
    hide PartValues, PartsValues;
    forall p ensures p in parts <==> p in parts' {
      assert p in parts <==> p in multiset(parts);
      assert p in parts' <==> p in multiset(parts');
    }
    PartsValuesAreUnion(parts, min, max, names);
    PartsValuesAreUnion(parts', min, max, names);
    var a, b := PartsValues(parts, min, max, names), PartsValues(parts', min, max, names);
    if a.Some? {
      UnionInclusion(parts, parts', min, max, names);
      UnionInclusion(parts', parts, min, max, names);
      assert a.value == b.value;
    }
  }

  lemma UnionInclusion(parts: seq<string>, parts': seq<string>, min: int, max: int, names: map<string, int>)
    requires FieldBounds(min, max) && forall p | p in parts :: p in parts'
    requires PartsValues(parts, min, max, names).Some? && PartsValues(parts', min, max, names).Some?
    ensures PartsValues(parts, min, max, names).value <= PartsValues(parts', min, max, names).value
  {
    hide PartValues, PartsValues;
    PartsValuesAreUnion(parts, min, max, names);
    PartsValuesAreUnion(parts', min, max, names);
    forall v | v in PartsValues(parts, min, max, names).value ensures v in PartsValues(parts', min, max, names).value {
      var p :| p in parts && PartValues(p, min, max, names).Some? && v in PartValues(p, min, max, names).value;
      assert p in parts';
    }
  }

  /** No part's first step overflows. */
  ghost predicate StepsFit(parts: seq<string>, min: int, max: int, names: map<string, int>) {
    forall p | p in parts && PartMeaning(p, min, max, names).Some? ::
      var r := PartMeaning(p, min, max, names).value; r.lo + r.step <= MAX_INT64
  }

  lemma PartValuesInRange(part: string, min: int, max: int, names: map<string, int>)
    requires FieldBounds(min, max) && PartValues(part, min, max, names).Some?
    ensures var r, values := PartMeaning(part, min, max, names).value, PartValues(part, min, max, names).value;
            && min <= r.lo <= max && r.lo in values
            && (r.lo + r.step <= MAX_INT64 ==> forall v | v in values :: min <= v <= max)
            && (r.lo + r.step > MAX_INT64 ==> Wrap64(r.lo + r.step) in values && Wrap64(r.lo + r.step) < 0)
  {
    hide Visited, Multiples, PartBounds, Atoi, Wrap64;
    var r := PartMeaning(part, min, max, names).value;
    VisitedIff(r.lo, r.hi, r.step);
    if r.lo + r.step > MAX_INT64 { OverflowGoesNegative(r.lo, r.hi, r.step); }
  }

  lemma OverflowGoesNegative(lo: int, hi: int, step: int)
    requires 0 <= lo <= hi <= 59 && 1 <= step <= MAX_INT64 && lo + step > MAX_INT64
    ensures Wrap64(lo + step) < 0 && Wrap64(lo + step) in Visited(lo, hi, step)
  {
    LoopMeasureDecreases(lo, hi, step);
    WrapOnce(lo + step);
    var v := Wrap64(lo + step);
    assert v in Visited(v, hi, step);
  }

  /** An accepted field holds a value of its range, and nothing else if and only if no step overflows. */
  lemma FieldValuesInRange(spec: string, min: int, max: int, names: map<string, int>)
    requires FieldBounds(min, max) && FieldValues(spec, min, max, names).Some?
    ensures var values := FieldValues(spec, min, max, names).value;
            && HasValueIn(values, min, max)
            && ((forall v | v in values :: min <= v <= max) <==> StepsFit(Split(spec, ','), min, max, names))
  {
    hide PartMeaning, PartsValues, Wrap64;
    var parts := Split(spec, ',');
    PartsValuesAreUnion(parts, min, max, names);
    var values := PartsValues(parts, min, max, names).value;
    forall p | p in parts
      ensures PartValues(p, min, max, names).Some? && PartMeaning(p, min, max, names).Some?
    {
    }
    hide PartValues;
    assert parts[0] in parts;
    PartValuesInRange(parts[0], min, max, names);
    assert PartMeaning(parts[0], min, max, names).value.lo in values;
    if StepsFit(parts, min, max, names) {
      forall v | v in values ensures min <= v <= max {
        var p :| p in parts && PartValues(p, min, max, names).Some? && v in PartValues(p, min, max, names).value;
        PartValuesInRange(p, min, max, names);
      }
    } else {
      var p :| p in parts && PartMeaning(p, min, max, names).Some?
               && PartMeaning(p, min, max, names).value.lo + PartMeaning(p, min, max, names).value.step > MAX_INT64;
      PartValuesInRange(p, min, max, names);
      var r := PartMeaning(p, min, max, names).value;
      var v := Wrap64(r.lo + r.step);
      assert PartValues(p, min, max, names).Some? && v in PartValues(p, min, max, names).value;
      assert v in values && v < min;
    }
  }

  /** parseField on a fresh set. */
  method ParseField(spec: string, min: int, max: int, names: map<string, int>, into: IntSet) returns (ok: bool)
    requires FieldBounds(min, max) && into.elems == {}
    modifies into
    ensures ok == FieldValues(spec, min, max, names).Some?
    ensures ok ==> into.elems == FieldValues(spec, min, max, names).value
  {
    hide PartValues;
    if spec == "" {
      return false;
    }
    var parts := Split(spec, ',');
    ghost var whole := PartsValues(parts, min, max, names);
    var i := 0;
    while i < |parts|
      invariant 0 <= i <= |parts|
      invariant whole.Some? <==> PartsValues(parts[i..], min, max, names).Some?
      invariant whole.Some? ==> into.elems + PartsValues(parts[i..], min, max, names).value == whole.value
    {
      var fine := ParsePart(parts[i], min, max, names, into);
      if !fine {
        return false;
      }
      assert parts[i..][1..] == parts[i + 1..];
      i := i + 1;
    }
    FieldValuesInRange(spec, min, max, names);
    if into.elems == {} {
      return false;
    }
    return true;
  }

  /** What Parse returns; None for every expression it rejects. */
  ghost function ParseSpec(expr: string): Option<Schedule> {
    var f := Fields(TrimSpace(expr));
    if |f| != 5 then None
    else
      var minute, hour := FieldValues(f[0], 0, 59, map[]), FieldValues(f[1], 0, 23, map[]);
      var dom := FieldValues(f[2], 1, 31, map[]);
      var month, dow := FieldValues(f[3], 1, 12, MONTH_NAMES), FieldValues(f[4], 0, 6, DOW_NAMES);
      if minute.None? || hour.None? || dom.None? || month.None? || dow.None? then None
      else Some(Schedule(minute.value, hour.value, dom.value, month.value, dow.value))
  }

  method Parse(expr: string) returns (r: Option<Schedule>)
    ensures r == ParseSpec(expr)
  {
    hide FieldValues, Fields, TrimSpace;
    var fields := Fields(TrimSpace(expr));
    if |fields| != 5 {
      return None;
    }
    var minute := new IntSet();
    var hour := new IntSet();
    var dom := new IntSet();
    var month := new IntSet();
    var dow := new IntSet();
    var ok := ParseField(fields[0], 0, 59, map[], minute);
    if !ok { return None; }
    ok := ParseField(fields[1], 0, 23, map[], hour);
    if !ok { return None; }
    ok := ParseField(fields[2], 1, 31, map[], dom);
    if !ok { return None; }
    ok := ParseField(fields[3], 1, 12, MONTH_NAMES, month);
    if !ok { return None; }
    ok := ParseField(fields[4], 0, 6, DOW_NAMES, dow);
    if !ok { return None; }
    return Some(Schedule(minute.elems, hour.elems, dom.elems, month.elems, dow.elems));
  }

  /** Every schedule that Parse accepts meets what the iteration bound of Next asks for. */
  lemma ParsedIsUsable(expr: string)
    requires ParseSpec(expr).Some?
    ensures Usable(ParseSpec(expr).value)
  {
    hide FieldValues, HasValueIn;
    var f := Fields(TrimSpace(expr));
    FieldValuesInRange(f[0], 0, 59, map[]);
    FieldValuesInRange(f[1], 0, 23, map[]);
    FieldValuesInRange(f[2], 1, 31, map[]);
    FieldValuesInRange(f[3], 1, 12, MONTH_NAMES);
    FieldValuesInRange(f[4], 0, 6, DOW_NAMES);
  }
}
