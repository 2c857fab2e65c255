// Facts about real products. The product is kept behind a function so that
// a product term can be reasoned about as a single quantity.
module Reals {

  function Product(a: real, b: real): real { a * b }

  lemma ProductPositive(a: real, b: real)
    requires (a > 0.0 && b > 0.0) || (a < 0.0 && b < 0.0)
    ensures Product(a, b) > 0.0
  {
  }

  lemma SquareSign(r: real)
    ensures Product(r, r) >= 0.0
    ensures r != 0.0 ==> Product(r, r) > 0.0
  {
    if r != 0.0 { ProductPositive(r, r); }
  }

  /** A fraction in [0, 1) of a positive length lies in [0, length). */
  lemma ProductFraction(k: real, u: real)
    requires k > 0.0 && 0.0 <= u < 1.0
    ensures 0.0 <= Product(k, u) < k
  {
    assert k * u <= k * 1.0 by { ProductMonotone(k, u, 1.0); }
    assert k * u != k * 1.0 by {
      if k * u == k * 1.0 { ProductCancel(k, u, 1.0); }
    }
  }

  lemma ProductMonotone(k: real, a: real, b: real)
    requires k >= 0.0 && a <= b
    ensures Product(k, a) <= Product(k, b)
  {
    assert k * b - k * a == k * (b - a);
  }

  lemma ProductCancel(k: real, a: real, b: real)
    requires k != 0.0 && Product(k, a) == Product(k, b)
    ensures a == b
  {
    assert k * (a - b) == 0.0;
  }

  /** Dividing by a positive d (multiplying by 1/d) keeps the order with
      respect to t exactly when the dividend is compared with t * d. */
  lemma DividePositive(a: real, d: real, t: real)
    requires d > 0.0
    ensures Product(a, 1.0 / d) < t <==> a < Product(t, d)
    ensures Product(a, 1.0 / d) > t <==> a > Product(t, d)
  {
    var q := Product(a, 1.0 / d);
    assert Product(q, d) == a;
    if q < t { ProductStrict(d, q, t); }
    if q > t { ProductStrict(d, t, q); }
    if q == t { assert Product(t, d) == a; }
  }

  /** Dividing by a negative d reverses the comparison. */
  lemma DivideNegative(a: real, d: real, t: real)
    requires d < 0.0
    ensures Product(a, 1.0 / d) < t <==> a > Product(t, d)
    ensures Product(a, 1.0 / d) > t <==> a < Product(t, d)
  {
    DividePositive(-a, -d, t);
    assert Product(-a, 1.0 / -d) == Product(a, 1.0 / d);
    assert Product(t, -d) == -Product(t, d);
  }

  lemma ProductStrict(k: real, a: real, b: real)
    requires k > 0.0 && a < b
    ensures Product(a, k) < Product(b, k)
  {
    assert b * k - a * k == (b - a) * k;
    ProductPositive(b - a, k);
  }

  /** A product is zero only when a factor is. */
  lemma ProductZero(a: real, b: real)
    requires Product(a, b) == 0.0
    ensures a == 0.0 || b == 0.0
  {
    if a > 0.0 && b < 0.0 { assert Product(a, -b) == -Product(a, b); ProductPositive(a, -b); }
    if a < 0.0 && b > 0.0 { assert Product(-a, b) == -Product(a, b); ProductPositive(-a, b); }
    if a > 0.0 && b > 0.0 { ProductPositive(a, b); }
    if a < 0.0 && b < 0.0 { ProductPositive(a, b); }
  }

  /** A real whose square is at most r * r, for r >= 0, lies in [-r, r]. */
  lemma SquareBound(d: real, r: real)
    requires r >= 0.0 && Product(d, d) <= Product(r, r)
    ensures -r <= d <= r
  {
    if d > r {
      assert Product(r, d) == Product(d, r);
      ProductStrict(d, r, d);
      ProductMonotone(r, r, d);
    }
    if d < -r {
      assert Product(r, -d) == Product(-d, r);
      assert Product(-d, -d) == Product(d, d);
      ProductStrict(-d, r, -d);
      ProductMonotone(r, r, -d);
    }
  }

  /** m a + (1 - m) b for m in [0, 1] lies between a and b. */
  lemma Interpolation(m: real, a: real, b: real)
    requires 0.0 <= m <= 1.0
    ensures var r := Product(m, a) + Product(1.0 - m, b); (a <= r <= b) || (b <= r <= a)
  {
    var r := Product(m, a) + Product(1.0 - m, b);
    assert r == b + Product(m, a - b);
    if a >= b {
      ProductMonotone(m, 0.0, a - b);
      ProductMonotone(a - b, m, 1.0);
      assert Product(m, a - b) == Product(a - b, m);
    } else {
      ProductMonotone(m, a - b, 0.0);
      ProductMonotone(b - a, m, 1.0);
      assert Product(m, a - b) == -Product(b - a, m);
    }
  }
}
