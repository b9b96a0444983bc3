/** CanRetry and BackoffMillis of internal/scheduler/retry.go. */
module Retry {
  import opened Text

  /** Attempts count from 1. */
  predicate CanRetry(attempt: int, maxRetries: int) {
    attempt <= maxRetries
  }

  ghost function Pow2(n: nat): nat {
    if n == 0 then 1 else 2 * Pow2(n - 1)
  }

  /** int64(x) << uint(k): the shift count is unsigned, so a negative one is larger than any width. */
  function ShiftLeft64(x: int, k: int): int
    decreases if k < 0 then 0 else k
  {
    if k < 0 || 64 <= k then 0 else if k == 0 then Wrap64(x) else Wrap64(2 * ShiftLeft64(x, k - 1))
  }

  function BackoffMillis(attempt: int): int {
    var b := ShiftLeft64(1000, attempt - 1);
    if b > 60000 then 60000 else b
  }

  ghost function Min(a: int, b: int): int {
    if a < b then a else b
  }

  /** The shift computes the low 64 bits of the product. */
  lemma {:induction false} ShiftIsProduct(k: nat)
    requires k < 64
    ensures ShiftLeft64(1000, k) == Wrap64(1000 * Pow2(k))
    decreases k
  {
    if k > 0 {
      ShiftIsProduct(k - 1);
      WrapDouble(1000 * Pow2(k - 1));
    }
  }

  lemma WrapDouble(n: int)
    ensures Wrap64(2 * Wrap64(n)) == Wrap64(2 * n)
  {
    var m := 0x1_0000_0000_0000_0000;
    var q := (n - MIN_INT64) / m;
    assert Wrap64(n) == n - m * q;
    WrapShift(2 * n, -2 * q);
  }

  lemma WrapShift(n: int, q: int)
    ensures Wrap64(n + 0x1_0000_0000_0000_0000 * q) == Wrap64(n)
  {
    var m := 0x1_0000_0000_0000_0000;
    var a := n - MIN_INT64;
    assert (a + m * q) / m == a / m + q;
  }

  lemma {:induction false} Pow2Grows(a: nat, b: nat)
    requires a <= b
    ensures Pow2(a) <= Pow2(b)
    decreases b
  {
    if a < b { Pow2Grows(a, b - 1); }
  }

  lemma Pow2Values()
    ensures Pow2(6) == 64 && Pow2(53) == 0x20_0000_0000_0000
  {
    assert Pow2(6) == 64;
    assert Pow2(12) == 0x1000;
    assert Pow2(18) == 0x4_0000;
    assert Pow2(24) == 0x100_0000;
    assert Pow2(30) == 0x4000_0000;
    assert Pow2(36) == 0x10_0000_0000;
    assert Pow2(42) == 0x400_0000_0000;
    assert Pow2(48) == 0x1_0000_0000_0000;
    assert Pow2(53) == 0x20_0000_0000_0000;
  }

  /** The backoff for attempts whose shift does not overflow: doubling from one second, capped at a minute. */
  lemma BackoffInRange(attempt: int)
    requires 1 <= attempt <= 54
    ensures BackoffMillis(attempt) == Min(1000 * Pow2(attempt - 1), 60000)
  {
    ShiftIsProduct(attempt - 1);
    Pow2Values();
    Pow2Grows(attempt - 1, 53);
  }

  /** From attempt 55 on the 64-bit product wraps. */
  lemma BackoffBeyondRange(attempt: int)
    requires 55 <= attempt
    ensures BackoffMillis(attempt) == 60000 <==> attempt == 60
  {
    if attempt <= 64 {
      ShiftNearOverflow(attempt - 1);
    }
  }

  /** One more doubling, which wraps q times. */
  lemma ShiftStep(k: nat, x: int, q: int)
    requires k < 63 && ShiftLeft64(1000, k) == x
    requires MIN_INT64 <= 2 * x - 0x1_0000_0000_0000_0000 * q <= MAX_INT64
    ensures ShiftLeft64(1000, k + 1) == 2 * x - 0x1_0000_0000_0000_0000 * q
  {
    WrapShift(2 * x, -q);
  }

  lemma ShiftNearOverflow(k: nat)
    requires 54 <= k <= 63
    ensures k != 59 ==> ShiftLeft64(1000, k) <= 0
    ensures k == 59 ==> ShiftLeft64(1000, k) == 0x4000_0000_0000_0000
  {
    hide ShiftLeft64, Wrap64;
    BeforeOverflow();
    ShiftStep(53, 0x7D00_0000_0000_0000, 1);
    ShiftStep(54, -0x600_0000_0000_0000, 0);
    ShiftStep(55, -0xC00_0000_0000_0000, 0);
    ShiftStep(56, -0x1800_0000_0000_0000, 0);
    ShiftStep(57, -0x3000_0000_0000_0000, 0);
    ShiftStep(58, -0x6000_0000_0000_0000, -1);
    ShiftStep(59, 0x4000_0000_0000_0000, 1);
    ShiftStep(60, -0x8000_0000_0000_0000, -1);
    ShiftStep(61, 0x0, 0);
    ShiftStep(62, 0x0, 0);
  }

  lemma BeforeOverflow()
    ensures ShiftLeft64(1000, 53) == 0x7D00_0000_0000_0000
  {
    hide ShiftLeft64;
    ShiftIsProduct(53);
    Pow2Values();
  }

  /** For attempts from 1 on, the result is the capped power of two exactly up to attempt 54, and by accident at 60. */
  lemma BackoffIff(attempt: int)
    requires 1 <= attempt
    ensures BackoffMillis(attempt) == Min(1000 * Pow2(attempt - 1), 60000) <==> attempt <= 54 || attempt == 60
  {
    if attempt <= 54 {
      BackoffInRange(attempt);
    } else {
      BackoffBeyondRange(attempt);
      Pow2Values();
      Pow2Grows(6, attempt - 1);
    }
  }

  /** One second at first, doubling up to half a minute, then a minute. */
  lemma BackoffTable(attempt: int)
    requires 1 <= attempt <= 54
    ensures BackoffMillis(attempt)
            == if attempt <= 6 then [1000, 2000, 4000, 8000, 16000, 32000][attempt - 1] else 60000
  {
    BackoffInRange(attempt);
    Pow2Values();
    if attempt >= 7 {
      Pow2Grows(6, attempt - 1);
    }
  }

  /** Within that range the backoff never shrinks. */
  lemma BackoffMonotone(a: int, b: int)
    requires 1 <= a <= b <= 54
    ensures 1000 <= BackoffMillis(a) <= BackoffMillis(b) <= 60000
  {
    BackoffInRange(a);
    BackoffInRange(b);
    Pow2Grows(0, a - 1);
    Pow2Grows(a - 1, b - 1);
  }
}
