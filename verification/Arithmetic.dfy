/** The few facts about products and quotients that the proofs need one at a time. */
module Arithmetic {

  lemma MulMonotone(a: int, b: int, d: int)
    requires a <= b && 0 <= d
    ensures a * d <= b * d
  {
  }

  lemma MulCancels(a: int, b: int, d: int)
    requires 0 < d
    ensures a * d < b * d ==> a < b
  {
    if b <= a {
      MulMonotone(b, a, d);
    }
  }

  lemma QuotientBounds(n: int, d: int)
    requires 0 < d
    ensures n / d * d <= n < (n / d + 1) * d
    ensures n == n / d * d + n % d && 0 <= n % d < d
  {
    assert (n / d + 1) * d == n / d * d + d;
  }

  lemma QuotientIs(n: int, d: int, q: int)
    requires 0 < d && q * d <= n < q * d + d
    ensures n / d == q && n % d == n - q * d
  {
    QuotientBounds(n, d);
    assert (q + 1) * d == q * d + d;
    MulCancels(q, n / d + 1, d);
    MulCancels(n / d, q + 1, d);
  }

  lemma QuotientIsLargest(n: int, d: int, q: int)
    requires 0 < d
    ensures q <= n / d <==> q * d <= n
  {
    QuotientBounds(n, d);
    if q <= n / d {
      MulMonotone(q, n / d, d);
    } else {
      MulMonotone(n / d + 1, q, d);
    }
  }

  lemma QuotientIsSmaller(n: int, d: int)
    requires 0 < n && 1 < d
    ensures 0 <= n / d < n
  {
    QuotientIsLargest(n, d, n);
    QuotientIsLargest(n, d, 0);
    MulMonotone(2, d, n);
  }

  lemma QuotientMonotone(a: int, b: int, d: int)
    requires 0 < d && a <= b
    ensures a / d <= b / d
  {
    QuotientBounds(a, d);
    QuotientIsLargest(b, d, a / d);
  }

  lemma NestedQuotient(n: int, c: int, k: int)
    requires 0 < c && 0 < k
    ensures 0 < c * k && n / c / k == n / (c * k)
  {
    var q := n / c / k;
    QuotientBounds(n / c, k);
    QuotientIsLargest(n, c, q * k);
    QuotientIsLargest(n, c, q * k + k);
    assert q * k * c == q * (c * k) && (q * k + k) * c == q * (c * k) + c * k;
    MulMonotone(1, c, k);
    QuotientIs(n, c * k, q);
  }

  lemma ShiftedQuotient(n: int, d: int, shift: int)
    requires 0 < d
    ensures (n - shift * d) / d == n / d - shift
  {
    QuotientBounds(n, d);
    assert (n / d - shift) * d == n / d * d - shift * d;
    QuotientIs(n - shift * d, d, n / d - shift);
  }

  /** A quotient grows by one where its divisor divides, and stays otherwise. */
  lemma QuotientSteps(n: int, d: int, shift: int)
    requires 1 < d
    ensures (n - shift * d) / d == (n - 1 - shift * d) / d + if n % d == 0 then 1 else 0
  {
    ShiftedQuotient(n, d, shift);
    ShiftedQuotient(n - 1, d, shift);
    QuotientBounds(n, d);
    if n % d == 0 {
      assert (n / d - 1) * d == n / d * d - d;
      QuotientIs(n - 1, d, n / d - 1);
    } else {
      QuotientIs(n - 1, d, n / d);
    }
  }

  lemma MultipleOfAMultiple(n: int, d: int, k: int)
    requires 0 < d && 0 < k && 0 < d * k && n % (d * k) == 0
    ensures n % d == 0
  {
    QuotientBounds(n, d * k);
    assert n / (d * k) * (d * k) == n / (d * k) * k * d;
    QuotientIs(n, d, n / (d * k) * k);
  }
}
