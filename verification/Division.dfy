/** Quotients and remainders by a variable divisor. */
module Division {
  lemma Scaled(n: int, a: int, b: int)
    requires n >= 0 && a <= b
    ensures n * a <= n * b
  {
  }

  /** Quotient and remainder are unique. */
  lemma QuotientIs(x: int, n: int, q: int, m: int)
    requires 0 <= m < n && x == n * q + m
    ensures x / n == q && x % n == m
  {
    var k := x / n;
    assert x == n * k + x % n;
    if k > q {
      Scaled(n, q + 1, k);
    } else if k < q {
      Scaled(n, k + 1, q);
    }
  }

  /** Dividing twice is dividing by the product. */
  lemma Twice(x: nat, n: nat, k: nat)
    requires n > 0 && k > 0
    ensures n * k > 0 && x / n / k == x / (n * k)
  {
    var q, m := x / n, x % n;
    var high, low := q / k, q % k;
    assert x == n * q + m && q == k * high + low;
    Scaled(n, low, k - 1);
    assert n * q == n * (k * high) + n * low == n * k * high + n * low;
    assert n * (k - 1) == n * k - n;
    QuotientIs(x, n * k, high, n * low + m);
  }
}
