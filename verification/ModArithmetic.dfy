/** Facts about the remainder by a positive divisor. */
module ModArithmetic {
  lemma SmallMod(a: int, n: int)
    requires 0 <= a < n
    ensures a % n == a
  {
  }

  /** Quotient and remainder are unique. */
  lemma UniqueMod(a: int, n: int, q: int, r: int)
    requires n > 0 && 0 <= r < n && a == q * n + r
    ensures a % n == r && a / n == q
  {
    var d := a / n - q;
    assert d * n == r - a % n;
    ProductSpread(d, n);
  }

  /** A nonzero multiple of n is at least n away from zero. */
  lemma ProductSpread(d: int, n: int)
    requires n > 0
    ensures d >= 1 ==> d * n >= n
    ensures d <= -1 ==> d * n <= -n
  {
    if d >= 1 {
      assert d * n == (d - 1) * n + n;
    } else if d <= -1 {
      assert d * n == (d + 1) * n - n;
    }
  }

  lemma AddMod(a: int, n: int)
    requires n > 0
    ensures (a + n) % n == a % n && (a + n) / n == a / n + 1
  {
    assert a == n * (a / n) + a % n;
    UniqueMod(a + n, n, a / n + 1, a % n);
  }

  /** Equal remainders mean a difference that is a multiple of the divisor. */
  lemma EqualMod(a: int, b: int, n: int)
    requires n > 0
    ensures a % n == b % n <==> (b - a) % n == 0
  {
    var qa, qb, qd := a / n, b / n, (b - a) / n;
    if a % n == b % n {
      assert b - a == (qb - qa) * n + 0;
      UniqueMod(b - a, n, qb - qa, 0);
    }
    if (b - a) % n == 0 {
      assert b == (qa + qd) * n + a % n;
      UniqueMod(b, n, qa + qd, a % n);
    }
  }
}
