/** Facts about products and quotients of reals, one step each. */
module RealFacts {

  function Ceiling(r: real): int {
    -((-r).Floor)
  }

  lemma MulMonotone(x: real, y: real, w: real)
    requires x <= y && w >= 0.0
    ensures x * w <= y * w
  {
    assert (y - x) * w >= 0.0;
  }

  lemma MulStrict(x: real, y: real, w: real)
    requires x < y && w > 0.0
    ensures x * w < y * w
  {
    assert (y - x) * w > 0.0;
  }

  lemma MulEqual(x: real, y: real, w: real)
    requires x == y
    ensures x * w == y * w
  {
  }

  lemma SameProduct(r: real, t: real, u: real, p: real)
    requires t == u && r * t == p
    ensures r * u == p
  {
  }

  lemma ShareOfItself(x: real)
    requires x > 0.0
    ensures x / x == 1.0 && 0.0 / x == 0.0
  {
  }

  lemma OneMore(k: real, q: real)
    ensures (k + 1.0) * q == k * q + q
  {
  }

  lemma PositiveProduct(x: real, y: real)
    requires x > 0.0 && y > 0.0
    ensures x * y > 0.0
  {
  }

  lemma Distribute(x: real, y: real, f: real)
    ensures (x - y) * f == x * f - y * f
  {
  }

  lemma DivideThenMultiply(x: real, n: real)
    requires n != 0.0
    ensures n * (x / n) == x
  {
  }

  lemma CancelFactor(k: real, v: real, w: real, n: real, q: real)
    requires w > 0.0 && q == v * w && k * q <= n * w
    ensures k * v <= n
  {
    MulEqual(q, v * w, k);
    assert (v * w) * k == (k * v) * w;
    if k * v > n { MulStrict(n, k * v, w); }
  }

  lemma DistributeSum(f: real, x: real, y: real)
    ensures f * (x + y) == f * x + f * y
  {
  }

  lemma QuotientBounds(x: real, t: real, lo: real, hi: real)
    requires t > 0.0 && lo * t <= x <= hi * t
    ensures lo <= x / t <= hi
  {
    var q := x / t;
    DivideThenMultiply(x, t);
    if q < lo { MulStrict(q, lo, t); }
    if q > hi { MulStrict(hi, q, t); }
  }
}
