/** Divisibility by powers of two, phrased one bit at a time so that every proof stays linear. */
module PowersOfTwo {

  function Pow2(k: nat): (r: nat)
    ensures r > 0
  {
    if k == 0 then 1 else 2 * Pow2(k - 1)
  }

  lemma {:induction false} Pow2Add(j: nat, k: nat)
    ensures Pow2(j + k) == Pow2(j) * Pow2(k)
  {
    if j > 0 { Pow2Add(j - 1, k); }
  }

  /** The k lowest binary digits of n are zero. */
  predicate ZeroBits(k: nat, n: int) {
    k == 0 || (n % 2 == 0 && ZeroBits(k - 1, n / 2))
  }

  lemma {:induction false} ZeroBitsIsDivisibility(k: nat, n: int)
    ensures ZeroBits(k, n) <==> n % Pow2(k) == 0
  {
    if k == 0 {
    } else {
      ZeroBitsIsDivisibility(k - 1, n / 2);
      HalveModulus(n, Pow2(k - 1));
    }
  }

  lemma HalveModulus(n: int, m: nat)
    requires m > 0
    ensures n % (2 * m) == 0 <==> n % 2 == 0 && (n / 2) % m == 0
  {
    if n % 2 == 0 && (n / 2) % m == 0 {
      MultipleHasNoRemainder((n / 2) / m, 2 * m);
      assert n == ((n / 2) / m) * (2 * m);
    }
    if n % (2 * m) == 0 {
      var q := n / (2 * m);
      assert n == 2 * (q * m);
      MultipleHasNoRemainder(q, m);
    }
  }

  lemma MultiplesLeaveGaps(d: int, m: int)
    requires m > 0
    ensures d >= 1 ==> d * m >= m
    ensures d <= -1 ==> d * m <= -m
  {
  }

  lemma MultipleHasNoRemainder(q: int, m: nat)
    requires m > 0
    ensures (q * m) % m == 0
  {
    var d := (q * m) / m - q;
    assert (q * m) % m == -(d * m);
    MultiplesLeaveGaps(d, m);
  }

  /** Equal remainders mean a difference that the modulus divides. */
  lemma SameRemainder(a: int, b: int, m: nat)
    requires m > 0
    ensures a % m == b % m <==> (a - b) % m == 0
  {
    var q := a / m - b / m;
    var r := a % m - b % m;
    assert a - b == q * m + r;
    if r == 0 {
      MultipleHasNoRemainder(q, m);
    }
    if (a - b) % m == 0 {
      var d := (a - b) / m - q;
      assert d * m == r;
      MultiplesLeaveGaps(d, m);
    }
  }

  lemma CloseTogether(a: int, b: int, m: int)
    requires m > 0 && -m < a - b < m && a % m == b % m
    ensures a == b
  {
    MultiplesLeaveGaps(a / m - b / m, m);
  }

  lemma AddMultiple(a: int, q: int, m: nat)
    requires m > 0
    ensures (a + q * m) % m == a % m
  {
    MultipleHasNoRemainder(q, m);
    SameRemainder(a + q * m, a, m);
  }

  lemma DoubleZeroBits(k: nat, v: int)
    requires k > 0
    ensures ZeroBits(k, 2 * v) <==> ZeroBits(k - 1, v)
  {
    assert 2 * v / 2 == v;
  }

  lemma DoubleProduct(h: int, m: int)
    ensures (2 * h) * m == 2 * (h * m)
  {
  }

  lemma OddTimesOdd(n: int, t: int)
    requires n % 2 == 1
    ensures (n * (2 * t + 1)) % 2 == 1
  {
    TimesOdd(n, t);
    StaysOdd(n * (2 * t + 1), n * t, n);
  }

  lemma TimesOdd(n: int, t: int)
    ensures n * (2 * t + 1) == 2 * (n * t) + n
  {
  }

  lemma StaysOdd(v: int, p: int, n: int)
    requires v == 2 * p + n && n % 2 == 1
    ensures v % 2 == 1
  {
  }

  /** An odd factor never contributes a zero bit. */
  lemma {:induction false} OddFactor(k: nat, n: int, t: int)
    ensures ZeroBits(k, n * (2 * t + 1)) <==> ZeroBits(k, n)
  {
    if k == 0 {
    } else if n % 2 == 0 {
      var h, m := n / 2, 2 * t + 1;
      DoubleProduct(h, m);
      DoubleZeroBits(k, h * m);
      OddFactor(k - 1, h, t);
    } else {
      OddTimesOdd(n, t);
    }
  }
}
