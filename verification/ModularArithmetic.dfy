/** Facts about products, quotients and remainders that the solver does not find by itself. */
module ModularArithmetic {
  import opened Bits

  lemma MulNonNegative(a: int, b: int)
    requires 0 <= a && 0 <= b
    ensures 0 <= a * b
  {
  }

  lemma MulMonotone(a: int, b: int, m: int)
    requires a <= b && 0 <= m
    ensures a * m <= b * m
  {
    MulNonNegative(b - a, m);
    assert (b - a) * m == b * m - a * m;
  }

  /** Quotient and remainder are determined by the division equation. */
  lemma DivModUnique(x: int, q: int, r: int, m: int)
    requires 0 < m && x == q * m + r && 0 <= r < m
    ensures x / m == q && x % m == r
  {
    var q', r' := x / m, x % m;
    assert x == q' * m + r';
    assert (q + 1) * m == q * m + m && (q' + 1) * m == q' * m + m;
    if q < q' {
      MulMonotone(q + 1, q', m);
    } else if q' < q {
      MulMonotone(q' + 1, q, m);
    }
  }

  lemma ModPlusMultiple(x: int, q: int, m: int)
    requires 0 < m
    ensures (x + q * m) % m == x % m
  {
    assert x + q * m == (x / m + q) * m + x % m by {
      assert (x / m + q) * m == x / m * m + q * m;
    }
    DivModUnique(x + q * m, x / m + q, x % m, m);
  }

  lemma WrapOfSum(w: nat, x: int, y: int)
    ensures Wrap(w, Wrap(w, x) + y) == Wrap(w, x + y)
  {
    var m := Pow2(w);
    assert x + y == x % m + y + x / m * m;
    ModPlusMultiple(x % m + y, x / m, m);
  }

  lemma SumOfWraps(w: nat, x: int, y: int)
    ensures Wrap(w, Wrap(w, x) + Wrap(w, y)) == Wrap(w, x + y)
  {
    WrapOfSum(w, x, Wrap(w, y));
    WrapOfSum(w, y, x);
  }

  lemma WrapOfProduct(w: nat, x: int, y: int)
    ensures Wrap(w, Wrap(w, x) * y) == Wrap(w, x * y)
  {
    var m := Pow2(w);
    var q, r := x / m, x % m;
    assert x * y == r * y + q * y * m by {
      assert x * y == (q * m + r) * y;
      assert (q * m + r) * y == q * m * y + r * y;
      assert q * m * y == q * y * m;
    }
    ModPlusMultiple(r * y, q * y, m);
  }

  lemma ProductOfWraps(w: nat, x: int, y: int)
    ensures Wrap(w, Wrap(w, x) * Wrap(w, y)) == Wrap(w, x * y)
  {
    WrapOfProduct(w, x, Wrap(w, y));
    WrapOfProduct(w, y, x);
    assert x * Wrap(w, y) == Wrap(w, y) * x && x * y == y * x;
  }

  lemma ScaledSum(w: nat, x: int, y: int, z: int)
    ensures Wrap(w, Wrap(w, x) + Wrap(w, y) * Wrap(w, z)) == Wrap(w, x + y * z)
  {
    ProductOfWraps(w, y, z);
    SumOfWraps(w, x, y * z);
    WrapOfSum(w, Wrap(w, y) * Wrap(w, z), Wrap(w, x));
  }

  /** A narrower reading does not see whether the wider one is signed. */
  lemma WrapOfSigned(from: Width, w: Width, x: nat)
    requires x < Pow2(from) && w <= from
    ensures Wrap(w, Signed(from, x)) == Wrap(w, x)
  {
    Pow2Sum(from - w, w);
    if Pow2(from - 1) <= x {
      MinusMultiple(x, Pow2(from - w), Pow2(w));
    }
  }

  lemma MinusMultiple(x: int, q: nat, m: nat)
    requires 0 < m
    ensures (x - q * m) % m == x % m
  {
    assert (0 - q) * m == 0 - q * m;
    ModPlusMultiple(x, 0 - q, m);
  }

  /** A multiple exceeds a bound exactly when the factor exceeds the quotient. */
  lemma AboveQuotient(x: int, k: int, m: int)
    requires 0 < k && 0 <= m
    ensures x > m / k <==> x * k > m
    ensures 0 <= m / k <= m
    ensures k > 1 && m > 0 ==> m / k < m
  {
    var q := m / k;
    assert m == q * k + m % k;
    assert (q + 1) * k == q * k + k;
    if x > q { MulMonotone(q + 1, x, k); } else { MulMonotone(x, q, k); }
    if q > 0 {
      MulMonotone(1, k, q);
      if k > 1 { MulMonotone(2, k, q); }
    }
  }

  /** A quotient by a positive number does not grow. */
  lemma QuotientSmall(x: nat, d: nat)
    requires d > 0
    ensures x / d <= x
  {
    AboveQuotient(0, d, x);
  }

  /** A number in the signed range is read back from its pattern. */
  lemma SignedOfWrap(w: Width, a: int)
    requires SMin(w) <= a <= SMax(w)
    ensures Signed(w, Wrap(w, a)) == a
  {
    if a < 0 {
      ModPlusMultiple(a, 1, Pow2(w));
      WrapSmall(w, a + Pow2(w));
    } else {
      WrapSmall(w, a);
    }
  }
}
