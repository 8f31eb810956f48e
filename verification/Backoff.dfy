/** The delay before the next push attempt, in signed 64-bit nanoseconds. */
module Backoff {

  const TWO62: int := 0x4000_0000_0000_0000
  const TWO63: int := 0x8000_0000_0000_0000
  const TWO64: int := 0x1_0000_0000_0000_0000

  /** Two's complement wrap-around. */
  function Wrap(x: int): int { (x + TWO63) % TWO64 - TWO63 }

  /** The loop: double, and stop at the cap. k is the number of doublings still to do. */
  function Doubled(d: int, max: int, k: nat): int
    decreases k
  {
    if k == 0 then (if d > max then max else d)
    else
      var d' := Wrap(d * 2);
      if d' >= max then max else Doubled(d', max, k - 1)
  }

  /** The delay after n failed attempts, as the code computes it. */
  function DelayOf(base: int, max: int, n: int): int { Doubled(base, max, if n < 1 then 0 else n - 1) }

  method Delay(base: int, max: int, n: int) returns (d: int)
    ensures d == DelayOf(base, max, n)
  {
    d := base;
    var i := 1;
    while i < n
      invariant 1 <= i && (i <= n || n < 1)
      invariant DelayOf(base, max, n) == Doubled(d, max, if n < 1 then 0 else n - i)
    {
      d := Wrap(d * 2);
      if d >= max {
        return max;
      }
      i := i + 1;
    }
    if d > max {
      return max;
    }
  }

  // ---------------------------------------------------------------- meaning

  function Pow2(k: nat): (p: int)
    ensures p >= 1
  {
    if k == 0 then 1 else 2 * Pow2(k - 1)
  }

  function Min(a: int, b: int): int { if a <= b then a else b }

  /** The documented delay: base * 2^(n-1), capped. */
  function Documented(base: int, max: int, n: nat): int
    requires n >= 1
  {
    Min(base * Pow2(n - 1), max)
  }

  /** The last value of base, 2 base, 4 base, ... that fits 64 bits. */
  function Top(d: int): (t: int)
    requires 0 < d < TWO63
    ensures TWO62 <= t < TWO63 && d <= t
    decreases TWO63 - d
  {
    if d >= TWO62 then d else Top(2 * d)
  }

  lemma PowDoubles(d: int, k: nat)
    requires k > 0
    ensures d * Pow2(k) == 2 * d * Pow2(k - 1)
  {
    assert d * (2 * Pow2(k - 1)) == 2 * d * Pow2(k - 1);
  }

  lemma PowAtLeast(d: int, k: nat)
    requires d > 0
    ensures d * Pow2(k) >= d
  {
    assert d * (Pow2(k) - 1) >= 0;
    assert d * Pow2(k) == d * (Pow2(k) - 1) + d;
  }

  lemma {:induction false} DoubledExact(d: int, max: int, k: nat)
    requires 0 < d < TWO62 && max <= Top(d)
    ensures Doubled(d, max, k) == Min(d * Pow2(k), max)
    decreases k
  {
    if k > 0 {
      assert Wrap(d * 2) == d * 2;
      PowDoubles(d, k);
      PowAtLeast(2 * d, k - 1);
      if d * 2 < max {
        DoubledExact(d * 2, max, k - 1);
      }
    }
  }

  /** Past the top value the loop doubles into the sign bit and returns a negative delay. */
  lemma {:induction false} DoubledWraps(d: int, max: int) returns (k: nat)
    requires 0 < d < TWO63 && Top(d) < max
    ensures Doubled(d, max, k) < 0 && max > 0
    decreases TWO63 - d
  {
    if d >= TWO62 {
      k := 1;
      assert Wrap(d * 2) == d * 2 - TWO64;
    } else {
      assert Wrap(d * 2) == d * 2;
      var j := DoubledWraps(2 * d, max);
      k := j + 1;
    }
  }

  /** The computed delay is the documented one for every attempt, if and only if the base is
      below 2^62 ns and the cap does not exceed the last doubling of the base that fits. */
  lemma DelayDocumentedIff(base: int, max: int)
    requires 0 < base < TWO63 && 0 < max < TWO63
    ensures (forall n: nat :: n >= 1 ==> DelayOf(base, max, n) == Documented(base, max, n))
            <==> base < TWO62 && max <= Top(base)
  {
    if base < TWO62 && max <= Top(base) {
      forall n: nat | n >= 1
        ensures DelayOf(base, max, n) == Documented(base, max, n)
      {
        DoubledExact(base, max, n - 1);
      }
    } else if base >= TWO62 {
      assert Wrap(base * 2) == base * 2 - TWO64;
      assert Doubled(base * 2 - TWO64, max, 0) == base * 2 - TWO64 < max;
      assert DelayOf(base, max, 2) == Doubled(base, max, 1) == base * 2 - TWO64;
      assert Pow2(1) == 2;
      assert Documented(base, max, 2) > 0;
    } else {
      var k := DoubledWraps(base, max);
      PowAtLeast(base, k);
      assert DelayOf(base, max, k + 1) < 0 < Documented(base, max, k + 1);
    }
  }

  /** A cap of at most 2^62 ns and a smaller base always qualify: no delay overflows. */
  lemma OrdinaryCaps(base: int, max: int, n: nat)
    requires 0 < base < TWO62 && 0 < max <= TWO62 && n >= 1
    ensures DelayOf(base, max, n) == Documented(base, max, n) && 0 < DelayOf(base, max, n) <= max
  {
    DoubledExact(base, max, n - 1);
    PowAtLeast(base, n - 1);
  }
}
