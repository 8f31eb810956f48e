/**
 Facts about products, division and rising sequences of times that the solver does not find
 by itself. Products that occur in bounds are written as repeated addition.
 */
module Arithmetic {

  /** k * n, by repeated addition. */
  function Times(k: nat, n: nat): nat { if k == 0 then 0 else n + Times(k - 1, n) }

  lemma {:induction false} TimesIsProduct(k: nat, n: nat)
    ensures Times(k, n) == k * n
  {
    if k > 0 {
      TimesIsProduct(k - 1, n);
      assert k * n == (k - 1) * n + n;
    }
  }

  lemma {:induction false} TimesMonotone(k: nat, k': nat, n: nat)
    requires k' <= k
    ensures Times(k', n) <= Times(k, n)
    ensures k' < k ==> Times(k', n) + n <= Times(k, n)
  {
    if k' < k {
      TimesMonotone(k - 1, k', n);
    }
  }

  lemma AtLeast(m: int, k: int)
    requires m > 0 && k >= 1
    ensures m * k >= m
  {
  }

  lemma DivisionIs(a: int, m: int, q: int, r: int)
    requires m > 0 && a == m * q + r && 0 <= r < m
    ensures a / m == q && a % m == r
  {
    var q', r' := a / m, a % m;
    assert a == m * q' + r';
    assert m * (q - q') == r' - r && m * (q' - q) == r - r';
    if q > q' {
      AtLeast(m, q - q');
      assert false;
    }
    if q < q' {
      AtLeast(m, q' - q);
      assert false;
    }
  }

  /** Times that never go back. */
  ghost predicate Ascending(times: seq<int>)
  {
    forall i, j :: 0 <= i < j < |times| ==> times[i] <= times[j]
  }
}
