/** The parts of Go's packages strings and strconv that the parser and the tag column use.
    Strings are sequences of characters; byte-level encoding is not modelled. */
module Text {
  import opened Prelude

  const MAX_INT64 := 0x7FFF_FFFF_FFFF_FFFF
  const MIN_INT64 := -0x8000_0000_0000_0000

  /** The 64-bit value of an integer after wrap-around. */
  function Wrap64(n: int): (r: int)
    ensures MIN_INT64 <= r <= MAX_INT64
    ensures MIN_INT64 <= n <= MAX_INT64 ==> r == n
  {
    (n - MIN_INT64) % 0x1_0000_0000_0000_0000 + MIN_INT64
  }

  // ---------- splitting and joining ----------

  /** strings.Split with a one-character separator. */
  function Split(s: string, sep: char): (parts: seq<string>)
    ensures |parts| >= 1
  {
    if s == "" then [""]
    else if s[0] == sep then [""] + Split(s[1..], sep)
    else var rest := Split(s[1..], sep); [[s[0]] + rest[0]] + rest[1..]
  }

  /** strings.Join with a one-character separator. */
  function Join(parts: seq<string>, sep: char): string {
    if |parts| == 0 then ""
    else if |parts| == 1 then parts[0]
    else parts[0] + [sep] + Join(parts[1..], sep)
  }

  lemma {:induction false} SplitIsFree(s: string, sep: char)
    ensures forall p | p in Split(s, sep) :: sep !in p
  {
    if s != "" {
      SplitIsFree(s[1..], sep);
      var rest := Split(s[1..], sep);
      forall p | p in Split(s, sep) ensures sep !in p {
        if s[0] != sep && p == [s[0]] + rest[0] { assert rest[0] in rest; }
      }
    }
  }

  /** Splitting loses nothing. */
  lemma {:induction false} JoinSplit(s: string, sep: char)
    ensures Join(Split(s, sep), sep) == s
  {
    if s != "" {
      JoinSplit(s[1..], sep);
      var rest := Split(s[1..], sep);
      assert s == [s[0]] + s[1..];
      if s[0] == sep {
        assert ([""] + rest)[1..] == rest;
      } else {
        assert ([[s[0]] + rest[0]] + rest[1..])[1..] == rest[1..];
        if |rest| > 1 {
          assert [s[0]] + (rest[0] + [sep] + Join(rest[1..], sep)) == ([s[0]] + rest[0]) + [sep] + Join(rest[1..], sep);
        }
      }
    }
  }

  lemma {:induction false} SplitOfFree(p: string, sep: char)
    requires sep !in p
    ensures Split(p, sep) == [p]
  {
    if p != "" {
      SplitOfFree(p[1..], sep);
      assert p == [p[0]] + p[1..];
    }
  }

  lemma {:induction false} SplitAppend(p: string, sep: char, s: string)
    requires sep !in p
    ensures Split(p + [sep] + s, sep) == [p] + Split(s, sep)
  {
    if p == "" {
      assert p + [sep] + s == [sep] + s;
    } else {
      SplitAppend(p[1..], sep, s);
      assert (p + [sep] + s)[1..] == p[1..] + [sep] + s;
      assert p == [p[0]] + p[1..];
    }
  }

  /** Joining separator-free parts loses nothing either. */
  lemma {:induction false} SplitJoin(parts: seq<string>, sep: char)
    requires parts != [] && forall p | p in parts :: sep !in p
    ensures Split(Join(parts, sep), sep) == parts
  {
    if |parts| == 1 {
      SplitOfFree(parts[0], sep);
    } else {
      SplitJoin(parts[1..], sep);
      SplitAppend(parts[0], sep, Join(parts[1..], sep));
    }
  }

  /** strings.Index for one character. */
  function IndexOf(s: string, c: char): (i: Option<nat>)
    ensures i.Some? ==> i.value < |s| && s[i.value] == c && c !in s[..i.value]
    ensures i.None? <==> c !in s
  {
    if s == "" then None
    else if s[0] == c then Some(0)
    else match IndexOf(s[1..], c)
      case None => None
      case Some(i) => assert s[..i + 1] == [s[0]] + s[1..][..i]; Some(i + 1)
  }

  // ---------- white space ----------

  /** unicode.IsSpace */
  predicate IsSpace(c: char) {
    || c == ' ' || '\t' <= c <= '\r' || c == '\U{85}' || c == '\U{A0}' || c == '\U{1680}'
    || '\U{2000}' <= c <= '\U{200A}' || c == '\U{2028}' || c == '\U{2029}' || c == '\U{202F}'
    || c == '\U{205F}' || c == '\U{3000}'
  }

  /** The white space of Unicode. */
  lemma IsSpaceIff(c: char)
    ensures IsSpace(c)
            <==> c as int in {0x9, 0xA, 0xB, 0xC, 0xD, 0x20, 0x85, 0xA0, 0x1680, 0x2000, 0x2001, 0x2002, 0x2003, 0x2004,
                              0x2005, 0x2006, 0x2007, 0x2008, 0x2009, 0x200A, 0x2028, 0x2029, 0x202F, 0x205F, 0x3000}
  {
    assert '\t' as int == 9 && '\r' as int == 13 && ' ' as int == 32 && '\U{2000}' as int == 0x2000;
    if IsSpace(c) {
      assert c as int <= 13 || c as int >= 32;
    }
  }

  function TrimLeft(s: string): string {
    if s != "" && IsSpace(s[0]) then TrimLeft(s[1..]) else s
  }

  function TrimRight(s: string): string {
    if s != "" && IsSpace(s[|s| - 1]) then TrimRight(s[..|s| - 1]) else s
  }

  /** strings.TrimSpace */
  function TrimSpace(s: string): string {
    TrimRight(TrimLeft(s))
  }

  predicate Trimmed(s: string) {
    s != "" ==> !IsSpace(s[0]) && !IsSpace(s[|s| - 1])
  }

  lemma {:induction false} TrimLeftTrims(s: string)
    ensures TrimLeft(s) != "" ==> !IsSpace(TrimLeft(s)[0])
    ensures forall c | c in TrimLeft(s) :: c in s
  {
    if s != "" && IsSpace(s[0]) { TrimLeftTrims(s[1..]); }
  }

  lemma {:induction false} TrimRightTrims(s: string)
    requires s != "" ==> !IsSpace(s[0])
    ensures Trimmed(TrimRight(s))
    ensures forall c | c in TrimRight(s) :: c in s
  {
    if s != "" && IsSpace(s[|s| - 1]) { TrimRightTrims(s[..|s| - 1]); }
  }

  lemma TrimSpaceTrims(s: string)
    ensures Trimmed(TrimSpace(s))
    ensures forall c | c in TrimSpace(s) :: c in s
    ensures Trimmed(s) ==> TrimSpace(s) == s
  {
    TrimLeftTrims(s);
    TrimRightTrims(TrimLeft(s));
  }

  lemma {:induction false} TrimLeftKeeps(s: string, c: char)
    requires c in s && !IsSpace(c)
    ensures c in TrimLeft(s)
  {
    if s != "" && IsSpace(s[0]) {
      assert s == [s[0]] + s[1..];
      TrimLeftKeeps(s[1..], c);
    }
  }

  lemma {:induction false} TrimRightKeeps(s: string, c: char)
    requires c in s && !IsSpace(c)
    ensures c in TrimRight(s)
  {
    if s != "" && IsSpace(s[|s| - 1]) {
      assert s == s[..|s| - 1] + [s[|s| - 1]];
      TrimRightKeeps(s[..|s| - 1], c);
    }
  }

  /** Only white space is trimmed. */
  lemma TrimSpaceKeeps(s: string, c: char)
    requires c in s && !IsSpace(c)
    ensures c in TrimSpace(s)
  {
    TrimLeftKeeps(s, c);
    TrimRightKeeps(TrimLeft(s), c);
  }

  /** Trimming takes white space off the two ends until none is left there. */
  lemma TrimSpaceIs(s: string) returns (left: string, right: string)
    ensures s == left + TrimSpace(s) + right && forall c | c in left + right :: IsSpace(c)
    ensures TrimSpace(s) != "" ==> !IsSpace(TrimSpace(s)[0]) && !IsSpace(TrimSpace(s)[|TrimSpace(s)| - 1])
  {
    TrimSpaceTrims(s);
    left := TrimLeftCuts(s);
    right := TrimRightCuts(TrimLeft(s));
    hide TrimLeft, TrimRight;
    assert s == left + (TrimSpace(s) + right);
    assert left + (TrimSpace(s) + right) == left + TrimSpace(s) + right;
  }

  lemma {:induction false} TrimLeftCuts(s: string) returns (left: string)
    ensures s == left + TrimLeft(s) && forall c | c in left :: IsSpace(c)
  {
    left := "";
    if s != "" && IsSpace(s[0]) {
      left := TrimLeftCuts(s[1..]);
      left := [s[0]] + left;
      assert s == [s[0]] + s[1..];
    }
  }

  lemma {:induction false} TrimRightCuts(s: string) returns (right: string)
    ensures s == TrimRight(s) + right && forall c | c in right :: IsSpace(c)
  {
    right := "";
    if s != "" && IsSpace(s[|s| - 1]) {
      right := TrimRightCuts(s[..|s| - 1]);
      right := right + [s[|s| - 1]];
      assert s == s[..|s| - 1] + [s[|s| - 1]];
    }
  }

  function WordLength(s: string): (n: nat)
    ensures n <= |s|
    ensures s != "" && !IsSpace(s[0]) ==> 0 < n
  {
    if s == "" || IsSpace(s[0]) then 0 else 1 + WordLength(s[1..])
  }

  /** strings.Fields: the maximal runs without white space. */
  function Fields(s: string): seq<string>
    decreases |s|
  {
    if s == "" then []
    else if IsSpace(s[0]) then Fields(s[1..])
    else [s[..WordLength(s)]] + Fields(s[WordLength(s)..])
  }

  predicate IsWord(w: string) {
    w != "" && forall c | c in w :: !IsSpace(c)
  }

  lemma {:induction false} WordThenRest(w: string, s: string)
    requires forall c | c in w :: !IsSpace(c)
    requires s == "" || IsSpace(s[0])
    ensures WordLength(w + s) == |w|
  {
    if w == "" {
      assert w + s == s;
    } else {
      WordThenRest(w[1..], s);
      assert (w + s)[1..] == w[1..] + s;
    }
  }

  lemma FieldsOfWordThenRest(w: string, s: string)
    requires IsWord(w) && (s == "" || IsSpace(s[0]))
    ensures Fields(w + s) == [w] + Fields(s)
  {
    WordThenRest(w, s);
    assert w[0] in w && (w + s)[0] == w[0];
    assert (w + s)[..|w|] == w && (w + s)[|w|..] == s;
  }

  /** White space separates fields; together with a single word being a field, this determines the fields of a text. */
  lemma {:induction false} FieldsAppend(s: string, c: char, t: string)
    requires IsSpace(c)
    ensures Fields(s + [c] + t) == Fields(s) + Fields(t)
    decreases |s|
  {
    hide IsSpace, IsWord, Fields;
    if s == "" {
      assert s + [c] + t == [c] + t;
      FieldsSkipOne(c, t);
    } else if IsSpace(s[0]) {
      FieldsAppend(s[1..], c, t);
      assert s == [s[0]] + s[1..] && s + [c] + t == [s[0]] + (s[1..] + [c] + t);
      FieldsSkipOne(s[0], s[1..]);
      FieldsSkipOne(s[0], s[1..] + [c] + t);
    } else {
      FirstField(s);
      var n := WordLength(s);
      var w, rest := s[..n], s[n..];
      FieldsAppend(rest, c, t);
      assert s == w + rest && s + [c] + t == w + (rest + [c] + t);
      FieldsOfWordThenRest(w, rest + [c] + t);
      FieldsOfWordThenRest(w, rest);
    }
    assert Fields("") == [] by { FieldsOfNothing(); }
  }

  lemma FieldsOfNothing()
    ensures Fields("") == []
  {
  }

  lemma FieldOfWord(w: string)
    requires IsWord(w)
    ensures Fields(w) == [w]
  {
    assert w + "" == w;
    FieldsOfWordThenRest(w, "");
  }

  lemma FirstField(s: string)
    requires s != "" && !IsSpace(s[0])
    ensures var n := WordLength(s); IsWord(s[..n]) && (s[n..] == "" || IsSpace(s[n]))
  {
    if |s| > 1 && !IsSpace(s[1]) {
      FirstField(s[1..]);
      var n := WordLength(s);
      assert s[..n] == [s[0]] + s[1..][..n - 1];
    }
  }

  /** White space at the ends makes no difference. */
  lemma FieldsOfTrimmed(s: string)
    ensures Fields(TrimSpace(s)) == Fields(s)
  {
    hide TrimSpace, IsSpace;
    var left, right := TrimSpaceIs(s);
    assert left + TrimSpace(s) + right == left + (TrimSpace(s) + right);
    FieldsSkipLeft(left, TrimSpace(s) + right);
    FieldsSkipRight(TrimSpace(s), right);
  }

  lemma {:induction false} FieldsSkipLeft(left: string, s: string)
    requires forall c | c in left :: IsSpace(c)
    ensures Fields(left + s) == Fields(s)
  {
    if left == "" {
      assert left + s == s;
    } else {
      FieldsSkipLeft(left[1..], s);
      FieldsAppend("", left[0], left[1..] + s);
      assert left + s == "" + [left[0]] + (left[1..] + s);
    }
  }

  lemma {:induction false} FieldsSkipRight(s: string, right: string)
    requires forall c | c in right :: IsSpace(c)
    ensures Fields(s + right) == Fields(s)
  {
    if right == "" {
      assert s + right == s;
    } else {
      FieldsSkipLeft(right[1..], "");
      assert right[1..] + "" == right[1..];
      FieldsAppend(s, right[0], right[1..]);
      assert s + right == s + [right[0]] + right[1..];
    }
  }

  lemma FieldsSkipOne(c: char, s: string)
    requires IsSpace(c)
    ensures Fields([c] + s) == Fields(s)
  {
    assert ([c] + s)[1..] == s;
  }

  /** Words joined by single spaces come apart again. */
  lemma {:induction false} FieldsOfJoin(words: seq<string>)
    requires forall w | w in words :: IsWord(w)
    ensures Fields(Join(words, ' ')) == words
  {
    if words != [] {
      var first, rest := words[0], words[1..];
      assert words == [first] + rest && IsWord(first);
      if rest == [] {
        assert first + "" == first;
        FieldsOfWordThenRest(first, "");
      } else {
        assert IsSpace(' ');
        hide IsSpace, Fields, IsWord;
        FieldsOfJoin(rest);
        FieldsSkipOne(' ', Join(rest, ' '));
        assert Join(words, ' ') == first + ([' '] + Join(rest, ' '));
        FieldsOfWordThenRest(first, [' '] + Join(rest, ' '));
      }
    }
  }

  // ---------- numbers ----------

  predicate IsDigit(c: char) { '0' <= c <= '9' }

  function DigitsValue(s: string): nat
    requires forall c | c in s :: IsDigit(c)
  {
    if s == "" then 0 else assert IsDigit(s[|s| - 1]); 10 * DigitsValue(s[..|s| - 1]) + (s[|s| - 1] - '0') as int
  }

  /** strconv.Atoi: an optional sign, then decimal digits; None for a syntax or range error. */
  function Atoi(s: string): Option<int> {
    var signed := s != "" && (s[0] == '+' || s[0] == '-');
    var digits := if signed then s[1..] else s;
    if digits == "" || exists c | c in digits :: !IsDigit(c) then None
    else
      var n: int := (if signed && s[0] == '-' then -1 else 1) * DigitsValue(digits);
      if MIN_INT64 <= n <= MAX_INT64 then Some(n) else None
  }

  /** The decimal representation of a natural number. */
  function Itoa(n: nat): string {
    if n < 10 then ['0' + n as char] else Itoa(n / 10) + ['0' + (n % 10) as char]
  }

  lemma {:induction false} ItoaDigits(n: nat)
    ensures Itoa(n) != "" && (forall c | c in Itoa(n) :: IsDigit(c)) && DigitsValue(Itoa(n)) == n
  {
    if n >= 10 {
      ItoaDigits(n / 10);
      var s := Itoa(n);
      assert s[..|s| - 1] == Itoa(n / 10);
    }
  }

  lemma DigitIff(c: char)
    ensures IsDigit(c) <==> c in "0123456789"
  {
    if IsDigit(c) {
      assert "0123456789"[c as int - '0' as int] == c;
    }
  }

  lemma DigitAt(d: nat)
    requires d < 10
    ensures "0123456789"[d] == '0' + d as char && IsDigit("0123456789"[d])
  {
  }

  /** One more digit of a decimal number, read and written. */
  lemma DecimalDigits(s: string, n: nat, d: nat)
    requires d < 10 && forall c | c in s :: c in "0123456789"
    ensures (forall c | c in s + ["0123456789"[d]] :: IsDigit(c)) && (forall c | c in s :: IsDigit(c))
    ensures DigitsValue("") == 0 && DigitsValue(s + ["0123456789"[d]]) == 10 * DigitsValue(s) + d
    ensures Itoa(10 * n + d) == (if n == 0 then "" else Itoa(n)) + ["0123456789"[d]]
  {
    DigitAt(d);
    forall c | c in s ensures IsDigit(c) { DigitIff(c); }
    var c := '0' + d as char;
    assert (s + [c])[..|s|] == s;
    assert (10 * n + d) / 10 == n && (10 * n + d) % 10 == d;
  }

  /** Every number of 64 bits is read back from its text, negative ones from their absolute value after a minus. */
  lemma AtoiItoa(n: nat)
    ensures n <= MAX_INT64 ==> Atoi(Itoa(n)) == Some(n)
    ensures n > MAX_INT64 ==> Atoi(Itoa(n)) == None
    ensures n <= 0 - MIN_INT64 ==> Atoi("-" + Itoa(n)) == Some(0 - n)
  {
    ItoaDigits(n);
    assert Itoa(n)[0] in Itoa(n) && IsDigit(Itoa(n)[0]);
    assert ("-" + Itoa(n))[1..] == Itoa(n);
  }

  // ---------- case ----------

  /** unicode.ToLower as far as the result can be an ASCII letter: besides A to Z, two other capitals have one. */
  function LowerChar(c: char): char {
    if 'A' <= c <= 'Z' then c + 32 as char
    else if c == '\U{130}' then 'i'
    else if c == '\U{212A}' then 'k'
    else c
  }

  /** strings.ToLower */
  function Lower(s: string): (r: string)
    ensures |r| == |s|
  {
    if s == "" then "" else [LowerChar(s[0])] + Lower(s[1..])
  }
}
