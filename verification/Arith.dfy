/**
 * Products and quotients behind names, so that longer proofs can hide them
 * and use only the laws below.
 */
module Arith {

  function Times(a: int, b: int): int { a * b }

  function Scale(t: real, x: real): real { t * x }

  /** `n` over `k`, rounded up. */
  function CeilDiv(n: nat, k: nat): nat
    requires k > 0
  {
    (n + k - 1) / k
  }

  lemma TimesStep(n: int, k: int)
    ensures Times(n, k) == Times(n - 1, k) + k
    ensures Times(0, k) == 0
  {
  }

  lemma TimesStepRight(n: int, k: int)
    ensures Times(n, k + 1) == Times(n, k) + n
  {
  }

  lemma TimesNonNegative(n: nat, k: nat)
    ensures Times(n, k) >= 0
  {
  }

  lemma ScaleAdd(t: real, x: real, y: real)
    ensures Scale(t, x + y) == Scale(t, x) + Scale(t, y)
    ensures Scale(t, 0.0) == 0.0
  {
  }

  lemma BlocksFit(n: nat, k: nat)
    requires k > 0
    ensures 0 <= Times(n / k, k) <= n && n - Times(n / k, k) == n % k
  {
  }

  lemma CeilDivStep(n: nat, k: nat)
    requires k > 0 && n > 0
    ensures CeilDiv(n, k) == 1 + CeilDiv(if n <= k then 0 else n - k, k)
  {
    if n <= k {
      DivUnique(n - 1 + k, k, 1, n - 1);
      DivUnique(k - 1, k, 0, k - 1);
    } else {
      DivUnique(n + k - 1, k, 1 + (n - 1) / k, (n - 1) % k);
    }
  }

  lemma TimesMonotone(a: int, b: int, k: nat)
    requires a <= b
    ensures a * k <= b * k
  {
  }

  lemma DivUnique(n: nat, k: nat, q: nat, r: nat)
    requires 0 <= r < k && n == q * k + r
    ensures n / k == q && n % k == r
  {
    var d := n / k;
    if q > d {
      TimesMonotone(d + 1, q, k);
    } else if q < d {
      TimesMonotone(q + 1, d, k);
    }
  }

  lemma QuotientBelow(x: real, y: real, t: real)
    requires y > 0.0
    ensures x / y < t <==> x < t * y
  {
    assert x == (x / y) * y;
    if x / y < t {
      assert (x / y) * y < t * y;
    } else {
      assert (x / y) * y >= t * y;
    }
  }

  lemma ScaleOne(t: real)
    ensures Scale(t, 1.0) == t
  {
  }

  lemma TimesGrows(m: nat, n: nat, k: nat)
    requires m <= n
    ensures Times(m, k) <= Times(n, k)
  {
    TimesMonotone(m, n, k);
  }

  lemma TimesSum(m: nat, n: nat, k: nat)
    ensures Times(m + n, k) == Times(m, k) + Times(n, k)
  {
  }

  lemma TimesIs(n: int, k: int)
    ensures Times(n, k) == n * k
  {
  }
}
