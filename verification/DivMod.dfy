/** Quotients and remainders. */
module DivMod {

  lemma SmallMultiple(n: int, m: int)
    requires n > 0 && -n < n * m < n
    ensures m == 0
  {
  }

  lemma Scale(n: int, a: int, b: int)
    requires n >= 0 && a <= b
    ensures n * a <= n * b
  {
  }

  /** A number is determined by, and determines, its quotient and remainder. */
  lemma Unique(x: int, n: int, q: int, r: int)
    requires n > 0 && x == q * n + r && 0 <= r < n
    ensures x / n == q && x % n == r
  {
    var m := q - x / n;
    assert n * m == x % n - r by { assert n * m == n * q - n * (x / n); }
    SmallMultiple(n, m);
  }

  /** Adding a whole divisor moves the quotient by one. */
  lemma AddDivisor(x: int, n: int)
    requires n > 0
    ensures (x + n) / n == x / n + 1 && (x + n) % n == x % n
  {
    Unique(x + n, n, x / n + 1, x % n);
  }

  lemma QuotientMonotone(x: int, y: int, n: int)
    requires n > 0 && x <= y
    ensures x / n <= y / n
  {
    var m := x / n - y / n;
    assert n * m <= n - 1 by {
      assert x == n * (x / n) + x % n && y == n * (y / n) + y % n;
      assert n * m == n * (x / n) - n * (y / n);
    }
    if m >= 1 { Scale(n, 1, m); }
  }

  lemma QuotientBelow(n: nat, d: nat, q: nat)
    requires d > 0
    ensures n / d < q <==> n < d * q
  {
    var k := n / d;
    assert n == d * k + n % d;
    if k < q { Scale(d, k + 1, q); } else { Scale(d, q, k); }
  }

  lemma QuotientAtLeastOne(x: int, n: int)
    requires 0 < n <= x
    ensures x / n >= 1 && n * (x / n) <= x
  {
    AddDivisor(x - n, n);
    QuotientMonotone(n, x, n);
    Unique(n, n, 1, 0);
  }
}
