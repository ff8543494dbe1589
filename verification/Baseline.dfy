/** Baseline statistics over exact reals: percentiles, derived tolerance bounds, and what the bounds guarantee. */
module Baseline {
  import opened RealFacts
  import opened Sequences
  import opened Text

  datatype Bounds = Bounds(lower: real, upper: real) {
    predicate Contains(value: real) {
      lower <= value <= upper
    }
  }

  // ---------------------------------------------------------------------------------------------
  // Mean and spread

  function Sum(data: seq<real>): real {
    if data == [] then 0.0 else data[0] + Sum(data[1..])
  }

  function Mean(data: seq<real>): Option<real> {
    if data == [] then None else Some(Sum(data) / |data| as real)
  }

  function Times(x: real, y: real): real {
    x * y
  }

  function Square(x: real): real {
    Times(x, x)
  }

  function SquaredDeviations(data: seq<real>, m: real): real {
    if data == [] then 0.0 else Square(data[0] - m) + SquaredDeviations(data[1..], m)
  }

  /** The sample variance, with Bessel's correction. */
  function Variance(data: seq<real>): real
    requires |data| >= 2
  {
    SquaredDeviations(data, Mean(data).value) / (|data| - 1) as real
  }

  /** The value of the standard deviation: undefined below two samples, else the nonnegative root of the variance. */
  predicate IsStddev(data: seq<real>, sd: Option<real>) {
    if |data| < 2 then sd.None? else sd.Some? && sd.value >= 0.0 && Square(sd.value) == Variance(data)
  }

  function MeanStddevBounds(data: seq<real>, sigma: real, sd: Option<real>): Bounds {
    match Mean(data)
    case None => Bounds(0.0, 0.0)
    case Some(m) =>
      var s := if sd.None? then 0.0 else sd.value;
      Bounds(m - sigma * s, m + sigma * s)
  }

  // ---------------------------------------------------------------------------------------------
  // Compliance

  function Within(data: seq<real>, b: Bounds): nat {
    if data == [] then 0 else (if b.Contains(data[0]) then 1 else 0) + Within(data[1..], b)
  }

  function ComplianceRatio(samples: seq<real>, b: Bounds): real {
    if samples == [] then 0.0 else Within(samples, b) as real / |samples| as real
  }

  lemma {:induction false} WithinAtMostAll(data: seq<real>, b: Bounds)
    ensures Within(data, b) <= |data|
  {
    if data != [] { WithinAtMostAll(data[1..], b); }
  }

  lemma {:induction false} WithinConcat(x: seq<real>, y: seq<real>, b: Bounds)
    ensures Within(x + y, b) == Within(x, b) + Within(y, b)
  {
    if x == [] {
      assert x + y == y;
    } else {
      assert (x + y)[1..] == x[1..] + y;
      WithinConcat(x[1..], y, b);
    }
  }

  lemma {:induction false} AllWithin(data: seq<real>, b: Bounds)
    requires forall x <- data :: b.Contains(x)
    ensures Within(data, b) == |data|
  {
    if data != [] { AllWithin(data[1..], b); }
  }

  /** The compliance ratio is the share of the sample's places that hold a complying value. */
  lemma {:induction false} WithinCounts(data: seq<real>, b: Bounds)
    ensures Within(data, b) == |set i | 0 <= i < |data| && b.Contains(data[i])|
  {
    var places := set i | 0 <= i < |data| && b.Contains(data[i]);
    if data == [] {
      assert places == {};
    } else {
      var n := |data| - 1;
      var front := set i | 0 <= i < n && b.Contains(data[..n][i]);
      WithinCounts(data[..n], b);
      WithinConcat(data[..n], [data[n]], b);
      assert data == data[..n] + [data[n]];
      assert [data[n]][1..] == [];
      assert places == front + if b.Contains(data[n]) then {n} else {};
    }
  }

  // ---------------------------------------------------------------------------------------------
  // What the mean and the deviation are

  function SumOfSquares(data: seq<real>): real {
    if data == [] then 0.0 else Square(data[0]) + SumOfSquares(data[1..])
  }

  lemma ShiftedSquare(x: real, c: real)
    ensures Square(x - c) == Square(x) - 2.0 * Times(c, x) + Square(c)
  {
  }

  lemma TimesSum(c: real, x: real, y: real)
    ensures Times(c, x + y) == Times(c, x) + Times(c, y)
  {
  }

  lemma OneMoreTime(n: real, q: real)
    ensures Times(n + 1.0, q) == Times(n, q) + q
  {
  }

  lemma TimesNothing(c: real)
    ensures Times(c, 0.0) == 0.0 && Times(0.0, c) == 0.0
  {
  }

  lemma {:induction false} DeviationsExpanded(data: seq<real>, c: real)
    ensures SquaredDeviations(data, c) ==
            SumOfSquares(data) - 2.0 * Times(c, Sum(data)) + Times(|data| as real, Square(c))
  {
    hide Times, Square;
    if data == [] {
      TimesNothing(c);
      TimesNothing(Square(c));
    } else {
      var rest := data[1..];
      DeviationsExpanded(rest, c);
      ShiftedSquare(data[0], c);
      TimesSum(c, data[0], Sum(rest));
      OneMoreTime(|rest| as real, Square(c));
      assert |data| as real == |rest| as real + 1.0;
    }
  }

  lemma CompleteSquare(n: real, m: real, c: real, t: real)
    requires t == n * m
    ensures -2.0 * Times(c, t) + Times(n, Square(c)) == -2.0 * Times(m, t) + Times(n, Square(m)) + Times(n, Square(c - m))
  {
    assert Times(c, t) == n * (c * m) && Times(m, t) == n * (m * m);
    assert Square(c - m) == c * c - 2.0 * (c * m) + m * m;
    ThreeTerms(n, c * c, c * m, m * m);
  }

  lemma ThreeTerms(n: real, x: real, y: real, z: real)
    ensures n * (x - 2.0 * y + z) == n * x - 2.0 * (n * y) + n * z
  {
  }

  /** The mean is the point of least squared deviation, and every other point pays for its distance. */
  lemma MeanIsLeastSquares(data: seq<real>, c: real)
    requires data != []
    ensures SquaredDeviations(data, c) ==
            SquaredDeviations(data, Mean(data).value) + Times(|data| as real, Square(c - Mean(data).value))
  {
    hide Times, Square;
    var n, m := |data| as real, Mean(data).value;
    DivideThenMultiply(Sum(data), n);
    DeviationsExpanded(data, c);
    DeviationsExpanded(data, m);
    CompleteSquare(n, m, c, Sum(data));
  }

  /** The squared distances from the samples of one list to those of another. */
  function PairDistances(data: seq<real>, all: seq<real>): real {
    if data == [] then 0.0 else SquaredDeviations(all, data[0]) + PairDistances(data[1..], all)
  }

  lemma {:induction false} PairDistancesAround(data: seq<real>, all: seq<real>, m: real)
    requires all != [] && m == Mean(all).value
    ensures PairDistances(data, all) ==
            Times(|data| as real, SquaredDeviations(all, m)) + Times(|all| as real, SquaredDeviations(data, m))
  {
    hide Times, Square, Mean;
    if data == [] {
      TimesNothing(SquaredDeviations(all, m));
      TimesNothing(|all| as real);
    } else {
      var rest := data[1..];
      PairDistancesAround(rest, all, m);
      MeanIsLeastSquares(all, data[0]);
      OneMoreTime(|rest| as real, SquaredDeviations(all, m));
      TimesSum(|all| as real, Square(data[0] - m), SquaredDeviations(rest, m));
      assert |data| as real == |rest| as real + 1.0;
    }
  }

  /** The variance is the mean squared distance between two different samples, halved. */
  lemma VarianceIsPairDistance(data: seq<real>)
    requires |data| >= 2
    ensures PairDistances(data, data) == 2.0 * Times(|data| as real, Times((|data| - 1) as real, Variance(data)))
  {
    hide Times, SquaredDeviations, PairDistances;
    var m, k := Mean(data).value, (|data| - 1) as real;
    PairDistancesAround(data, data, m);
    DivideThenMultiply(SquaredDeviations(data, m), k);
    TimesIsProduct(k, SquaredDeviations(data, m) / k);
    assert Times(k, Variance(data)) == SquaredDeviations(data, m);
  }

  lemma TimesIsProduct(x: real, y: real)
    ensures Times(x, y) == x * y
  {
  }

  // ---------------------------------------------------------------------------------------------
  // Chebyshev's inequality for mean and deviation bounds

  lemma SquareIsPositive(d: real)
    ensures 0.0 <= Square(d)
    ensures d != 0.0 ==> Square(d) > 0.0
  {
    if d != 0.0 {
      SameSigns(d, d);
    }
  }

  lemma SameSigns(x: real, y: real)
    requires (x > 0.0 && y > 0.0) || (x < 0.0 && y < 0.0)
    ensures Times(x, y) > 0.0
  {
  }

  lemma FartherSquare(d: real, t: real)
    requires 0.0 <= t && (t <= d || d <= -t)
    ensures Square(t) <= Square(d)
  {
    var e := if d < 0.0 then -d else d;
    SquareGrows(t, e);
    assert e * e == d * d;
  }

  lemma SquareGrows(t: real, e: real)
    requires 0.0 <= t <= e
    ensures t * t <= e * e
  {
    MulMonotone(t, e, t);
    MulMonotone(t, e, e);
  }

  function Outside(data: seq<real>, b: Bounds): int {
    |data| - Within(data, b)
  }

  lemma {:induction false} FarSamplesCost(data: seq<real>, m: real, t: real, b: Bounds)
    requires t >= 0.0 && b == Bounds(m - t, m + t)
    ensures 0.0 <= SquaredDeviations(data, m)
    ensures Outside(data, b) as real * Square(t) <= SquaredDeviations(data, m)
  {
    hide Square;
    if data != [] {
      var d := data[0] - m;
      var far := Outside(data[1..], b);
      FarSamplesCost(data[1..], m, t, b);
      SquareIsPositive(d);
      if b.Contains(data[0]) {
        assert Outside(data, b) == far;
      } else {
        FartherSquare(d, t);
        assert Outside(data, b) == far + 1;
        OneMore(far as real, Square(t));
      }
    }
  }

  lemma {:induction false} NoSpreadNoOutliers(data: seq<real>, m: real)
    requires SquaredDeviations(data, m) <= 0.0
    ensures Outside(data, Bounds(m, m)) == 0
  {
    hide Square;
    if data != [] {
      SquareIsPositive(data[0] - m);
      FarSamplesCost(data[1..], m, 0.0, Bounds(m, m));
      SquareOfZero();
      NoSpreadNoOutliers(data[1..], m);
    }
  }

  lemma SquareOfZero()
    ensures Square(0.0) == 0.0
  {
  }

  lemma SquareOfProduct(x: real, y: real)
    ensures Square(x * y) == Square(x) * Square(y)
  {
  }

  /** At most (n-1)/sigma^2 of the samples lie outside mean plus or minus sigma deviations. */
  lemma Chebyshev(data: seq<real>, sigma: real, sd: Option<real>)
    requires data != [] && sigma >= 0.0 && IsStddev(data, sd)
    ensures Outside(data, MeanStddevBounds(data, sigma, sd)) as real * Square(sigma) <= (|data| - 1) as real
  {
    hide Square, Outside;
    if |data| == 1 {
      OneSample(data, sigma);
    } else {
      var m, s, n := Mean(data).value, sd.value, (|data| - 1) as real;
      DivideThenMultiply(SquaredDeviations(data, m), n);
      assert n * Square(s) == SquaredDeviations(data, m);
      hide Variance, SquaredDeviations, Mean;
      SquareIsPositive(s);
      if s == 0.0 {
        SquareOfZero();
        NoSpreadNoOutliers(data, m);
        assert MeanStddevBounds(data, sigma, sd) == Bounds(m, m);
        assert Outside(data, Bounds(m, m)) as real * Square(sigma) == 0.0;
      } else {
        assert MeanStddevBounds(data, sigma, sd) == Bounds(m - sigma * s, m + sigma * s);
        ChebyshevAround(data, m, sigma, s, n);
      }
    }
  }

  lemma ChebyshevAround(data: seq<real>, m: real, sigma: real, s: real, n: real)
    requires sigma >= 0.0 && s > 0.0 && SquaredDeviations(data, m) == n * Square(s)
    ensures Outside(data, Bounds(m - sigma * s, m + sigma * s)) as real * Square(sigma) <= n
  {
    hide Square, Outside, SquaredDeviations;
    var b := Bounds(m - sigma * s, m + sigma * s);
    SquareIsPositive(s);
    MulMonotone(0.0, sigma, s);
    FarSamplesCost(data, m, sigma * s, b);
    SquareOfProduct(sigma, s);
    CancelFactor(Outside(data, b) as real, Square(sigma), Square(s), n, Square(sigma * s));
  }

  lemma OneSample(data: seq<real>, sigma: real)
    requires |data| == 1
    ensures Outside(data, MeanStddevBounds(data, sigma, None)) == 0
  {
    assert Sum(data) == data[0] + Sum(data[1..]);
    assert Mean(data) == Some(data[0]);
    assert MeanStddevBounds(data, sigma, None) == Bounds(data[0], data[0]);
    assert Within(data, Bounds(data[0], data[0])) == 1 + Within(data[1..], Bounds(data[0], data[0]));
  }

  /** The same bound as a compliance ratio. */
  lemma ChebyshevCompliance(data: seq<real>, sigma: real, sd: Option<real>)
    requires data != [] && sigma > 0.0 && IsStddev(data, sd)
    ensures |data| as real * Square(sigma) > 0.0
    ensures ComplianceRatio(data, MeanStddevBounds(data, sigma, sd)) >=
            1.0 - (|data| - 1) as real / (|data| as real * Square(sigma))
  {
    hide IsStddev, MeanStddevBounds, Within, Square;
    var b := MeanStddevBounds(data, sigma, sd);
    Chebyshev(data, sigma, sd);
    SquareIsPositive(sigma);
    var n, w := |data|, Within(data, b);
    assert (n - w) as real == n as real - w as real && (n - 1) as real == n as real - 1.0;
    MulEqual(Outside(data, b) as real, n as real - w as real, Square(sigma));
    PositiveProduct(n as real, Square(sigma));
    RatioFromCount(n as real, w as real, Square(sigma));
    MulEqual((n - 1) as real, n as real - 1.0, 1.0 / (n as real * Square(sigma)));
  }

  lemma RatioFromCount(n: real, w: real, q: real)
    requires n > 0.0 && q > 0.0 && (n - w) * q <= n - 1.0
    ensures w / n >= 1.0 - (n - 1.0) / (n * q)
  {
    var x, y, d := w / n, (n - 1.0) / (n * q), n * q;
    PositiveProduct(n, q);
    DivideThenMultiply(w, n);
    DivideThenMultiply(n - 1.0, d);
    CountSide(n, w, q, x, d);
    BoundSide(n, w, q, y, d);
    if x < 1.0 - y { MulStrict(x, 1.0 - y, d); }
  }

  lemma CountSide(n: real, w: real, q: real, x: real, d: real)
    requires d == n * q && n * x == w
    ensures x * d == w * q
  {
    MulEqual(n * x, w, q);
    MulEqual(d, n * q, x);
    assert (n * q) * x == (n * x) * q;
  }

  lemma BoundSide(n: real, w: real, q: real, y: real, d: real)
    requires d == n * q && d * y == n - 1.0 && (n - w) * q <= n - 1.0
    ensures w * q >= (1.0 - y) * d
  {
    Distribute(n, w, q);
    Distribute(1.0, y, d);
  }

  // ---------------------------------------------------------------------------------------------
  // Sorting and order statistics

  function Insert(x: real, s: seq<real>): seq<real> {
    if s == [] || x <= s[0] then [x] + s else [s[0]] + Insert(x, s[1..])
  }

  function Sorted(data: seq<real>): (s: seq<real>) {
    if data == [] then [] else Insert(data[0], Sorted(data[1..]))
  }

  predicate Ascending(s: seq<real>) {
    forall i, j :: 0 <= i <= j < |s| ==> s[i] <= s[j]
  }

  function CountUpTo(data: seq<real>, v: real): nat {
    if data == [] then 0 else (if data[0] <= v then 1 else 0) + CountUpTo(data[1..], v)
  }

  lemma {:induction false} InsertKeepsAll(x: real, s: seq<real>)
    ensures |Insert(x, s)| == |s| + 1
    ensures multiset(Insert(x, s)) == multiset{x} + multiset(s)
  {
    if s != [] && x > s[0] {
      InsertKeepsAll(x, s[1..]);
      assert s == [s[0]] + s[1..];
    }
  }

  lemma ConsAscending(x: real, s: seq<real>)
    requires Ascending(s) && forall y <- s :: x <= y
    ensures Ascending([x] + s)
  {
    var t := [x] + s;
    forall i, j | 0 <= i <= j < |t| ensures t[i] <= t[j] {
      assert j > 0 ==> t[j] in s;
    }
  }

  lemma {:induction false} InsertAscending(x: real, s: seq<real>)
    requires Ascending(s)
    ensures Ascending(Insert(x, s))
  {
    if s != [] && x > s[0] {
      var rest := Insert(x, s[1..]);
      InsertAscending(x, s[1..]);
      InsertKeepsAll(x, s[1..]);
      forall y | y in rest ensures s[0] <= y {
        assert y in multiset{x} + multiset(s[1..]);
      }
      ConsAscending(s[0], rest);
    } else {
      ConsAscending(x, s);
    }
  }

  /** The sort yields an ascending permutation. */
  lemma {:induction false} SortedFacts(data: seq<real>)
    ensures Ascending(Sorted(data)) && |Sorted(data)| == |data|
    ensures multiset(Sorted(data)) == multiset(data)
  {
    if data != [] {
      SortedFacts(data[1..]);
      InsertAscending(data[0], Sorted(data[1..]));
      InsertKeepsAll(data[0], Sorted(data[1..]));
      assert data == [data[0]] + data[1..];
    }
  }

  lemma {:induction false} CountUpToConcat(x: seq<real>, y: seq<real>, v: real)
    ensures CountUpTo(x + y, v) == CountUpTo(x, v) + CountUpTo(y, v)
  {
    if x == [] {
      assert x + y == y;
    } else {
      assert (x + y)[1..] == x[1..] + y;
      CountUpToConcat(x[1..], y, v);
    }
  }

  lemma CountsAt(x: seq<real>, j: nat, v: real, b: Bounds)
    requires j < |x|
    ensures CountUpTo(x, v) == CountUpTo(x[..j] + x[j + 1..], v) + if x[j] <= v then 1 else 0
    ensures Within(x, b) == Within(x[..j] + x[j + 1..], b) + if b.Contains(x[j]) then 1 else 0
  {
    var p, q := x[..j], x[j + 1..];
    assert x == p + ([x[j]] + q) && ([x[j]] + q)[1..] == q;
    CountUpToConcat(p, q, v);
    CountUpToConcat(p, [x[j]] + q, v);
    WithinConcat(p, q, b);
    WithinConcat(p, [x[j]] + q, b);
  }

  /** Counting, whether up to a value or within bounds, does not depend on the order of the data. */
  lemma {:induction false} CountsIgnoreOrder(x: seq<real>, y: seq<real>, v: real, b: Bounds)
    requires multiset(x) == multiset(y)
    ensures CountUpTo(x, v) == CountUpTo(y, v) && Within(x, b) == Within(y, b)
  {
    hide CountUpTo, Within;
    if x == [] {
      NothingLeft(y);
    } else {
      var j := MatchFirst(x, y);
      assert x[..0] + x[1..] == x[1..];
      CountsIgnoreOrder(x[1..], y[..j] + y[j + 1..], v, b);
      CountsAt(x, 0, v, b);
      CountsAt(y, j, v, b);
    }
  }

  /** Position k of an ascending sequence is at most v exactly when more than k elements are. */
  lemma {:induction false} OrderStatistic(s: seq<real>, k: nat, v: real)
    requires Ascending(s) && k < |s|
    ensures s[k] <= v <==> CountUpTo(s, v) > k
  {
    if s[0] > v {
      NoneUpTo(s, v);
    } else if k > 0 {
      OrderStatistic(s[1..], k - 1, v);
    }
  }

  lemma {:induction false} NoneUpTo(s: seq<real>, v: real)
    requires forall i :: 0 <= i < |s| ==> s[i] > v
    ensures CountUpTo(s, v) == 0
  {
    if s != [] { NoneUpTo(s[1..], v); }
  }

  /** Sorting forgets the order of its input. */
  lemma SortedIgnoresOrder(x: seq<real>, y: seq<real>)
    requires multiset(x) == multiset(y)
    ensures Sorted(x) == Sorted(y)
  {
    SortedFacts(x);
    SortedFacts(y);
    assert |x| == |multiset(x)| == |multiset(y)| == |y|;
    forall k | 0 <= k < |x| ensures Sorted(x)[k] == Sorted(y)[k] {
      RankCompare(Sorted(x), Sorted(y), k);
      RankCompare(Sorted(y), Sorted(x), k);
    }
  }

  lemma RankCompare(s: seq<real>, t: seq<real>, k: nat)
    requires Ascending(s) && Ascending(t) && multiset(s) == multiset(t) && k < |s| == |t|
    ensures s[k] <= t[k]
  {
    OrderStatistic(t, k, t[k]);
    CountsIgnoreOrder(s, t, t[k], Bounds(0.0, 0.0));
    OrderStatistic(s, k, t[k]);
  }

  lemma {:induction false} CountUpToPointwise(x: seq<real>, y: seq<real>, v: real)
    requires |x| == |y| && forall i :: 0 <= i < |x| ==> x[i] <= y[i]
    ensures CountUpTo(y, v) <= CountUpTo(x, v)
  {
    if x != [] {
      assert forall i :: 0 <= i < |x[1..]| ==> x[1..][i] == x[i + 1] && y[1..][i] == y[i + 1];
      CountUpToPointwise(x[1..], y[1..], v);
    }
  }

  /** Raising samples pointwise raises every order statistic. */
  lemma SortedPointwise(x: seq<real>, y: seq<real>, k: nat)
    requires |x| == |y| && k < |x| && forall i :: 0 <= i < |x| ==> x[i] <= y[i]
    ensures |Sorted(x)| == |Sorted(y)| == |x| && Sorted(x)[k] <= Sorted(y)[k]
  {
    SortedFacts(x);
    SortedFacts(y);
    var v := Sorted(y)[k];
    OrderStatistic(Sorted(y), k, v);
    CountsIgnoreOrder(Sorted(y), y, v, Bounds(0.0, 0.0));
    CountUpToPointwise(x, y, v);
    CountsIgnoreOrder(Sorted(x), x, v, Bounds(0.0, 0.0));
    OrderStatistic(Sorted(x), k, v);
  }

  // ---------------------------------------------------------------------------------------------
  // Percentiles

  function Clamp(p: real): real {
    if p < 0.0 then 0.0 else if p > 100.0 then 100.0 else p
  }

  function Rank(n: nat, p: real): real
    requires n >= 1
  {
    Clamp(p) / 100.0 * (n - 1) as real
  }

  /** Linear interpolation between the two positions around a rank. */
  function Interpolated(s: seq<real>, rank: real): real
    requires 0.0 <= rank <= (|s| - 1) as real
  {
    var lower := rank.Floor;
    var upper := Ceiling(rank);
    var fraction := rank - lower as real;
    s[lower] + fraction * (s[upper] - s[lower])
  }

  lemma RankInRange(n: nat, p: real)
    requires n >= 1
    ensures 0.0 <= Rank(n, p) <= (n - 1) as real
  {
    var c := Clamp(p) / 100.0;
    ScaleBetween(c, (n - 1) as real);
  }

  lemma ScaleBetween(c: real, m: real)
    requires 0.0 <= c <= 1.0 && m >= 0.0
    ensures 0.0 <= c * m <= m
  {
    MulMonotone(0.0, c, m);
    MulMonotone(c, 1.0, m);
  }

  function PercentileSorted(sorted: seq<real>, p: real): real {
    if sorted == [] then 0.0
    else if |sorted| == 1 then sorted[0]
    else
      RankInRange(|sorted|, p);
      Interpolated(sorted, Rank(|sorted|, p))
  }

  function Percentile(data: seq<real>, p: real): real {
    if |data| < 2 then PercentileSorted(data, p) else PercentileSorted(Sorted(data), p)
  }

  lemma InterpolatedAt(s: seq<real>, l: nat, f: real)
    requires l + 1 < |s| && 0.0 <= f < 1.0
    ensures Interpolated(s, l as real + f) == s[l] + f * (s[l + 1] - s[l])
  {
    var rank := l as real + f;
    assert rank.Floor == l;
    if f == 0.0 {
      assert Ceiling(rank) == l;
    } else {
      assert Ceiling(rank) == l + 1;
    }
  }

  lemma ConvexCombination(f: real, x: real, y: real)
    requires 0.0 <= f <= 1.0 && x <= y
    ensures x <= x + f * (y - x) <= y
  {
    MulMonotone(0.0, f, y - x);
    MulMonotone(f, 1.0, y - x);
  }

  lemma InterpolatedBetween(s: seq<real>, rank: real)
    requires Ascending(s) && 0.0 <= rank <= (|s| - 1) as real
    ensures s[rank.Floor] <= Interpolated(s, rank) <= s[Ceiling(rank)]
  {
    var l, u := rank.Floor, Ceiling(rank);
    var f := rank - l as real;
    assert l <= u < |s| && 0.0 <= f <= 1.0;
    ConvexCombination(f, s[l], s[u]);
    assert Interpolated(s, rank) == s[l] + f * (s[u] - s[l]);
  }

  lemma SameCell(s: seq<real>, l: nat, f: real, g: real)
    requires Ascending(s) && l + 1 < |s| && 0.0 <= f <= g < 1.0
    ensures Interpolated(s, l as real + f) <= Interpolated(s, l as real + g)
  {
    hide Interpolated;
    InterpolatedAt(s, l, f);
    InterpolatedAt(s, l, g);
    MulMonotone(f, g, s[l + 1] - s[l]);
  }

  lemma InterpolatedMonotone(s: seq<real>, q: real, r: real)
    requires Ascending(s) && 0.0 <= q <= r <= (|s| - 1) as real
    ensures Interpolated(s, q) <= Interpolated(s, r)
  {
    hide Interpolated;
    var lq, lr := q.Floor, r.Floor;
    InterpolatedBetween(s, q);
    InterpolatedBetween(s, r);
    if lq < lr {
      assert Ceiling(q) <= lr;
    } else if q > lq as real {
      SameCell(s, lq, q - lq as real, r - lq as real);
    }
  }

  /** Percentiles ignore the order of the samples. */
  lemma PercentileIgnoresOrder(x: seq<real>, y: seq<real>, p: real)
    requires multiset(x) == multiset(y)
    ensures Percentile(x, p) == Percentile(y, p)
  {
    assert |x| == |multiset(x)| == |multiset(y)| == |y|;
    if |x| >= 2 {
      SortedIgnoresOrder(x, y);
    } else if |x| == 1 {
      assert x[0] in multiset(y);
    }
  }

  lemma ClampMonotone(p: real, q: real, n: nat)
    requires p <= q && n >= 1
    ensures Rank(n, p) <= Rank(n, q)
  {
    var c, d, m := Clamp(p) / 100.0, Clamp(q) / 100.0, (n - 1) as real;
    MulMonotone(c, d, m);
  }

  /** A higher percentile is never a lower value, within one cell or across cells. */
  lemma PercentileMonotone(data: seq<real>, p: real, q: real)
    requires p <= q
    ensures Percentile(data, p) <= Percentile(data, q)
  {
    if |data| >= 2 {
      SortedFacts(data);
      var n := |data|;
      RankInRange(n, p);
      RankInRange(n, q);
      ClampMonotone(p, q, n);
      InterpolatedMonotone(Sorted(data), Rank(n, p), Rank(n, q));
    }
  }

  /** Raising samples pointwise never lowers a percentile. */
  lemma PercentilePointwise(x: seq<real>, y: seq<real>, p: real)
    requires |x| == |y| && forall i :: 0 <= i < |x| ==> x[i] <= y[i]
    ensures Percentile(x, p) <= Percentile(y, p)
  {
    if |x| >= 2 {
      hide Sorted, Interpolated;
      var r := Rank(|x|, p);
      RankInRange(|x|, p);
      hide Rank;
      SortedPointwise(x, y, r.Floor);
      SortedPointwise(x, y, Ceiling(r));
      InterpolatedPointwise(Sorted(x), Sorted(y), r);
    }
  }

  lemma InterpolatedPointwise(s: seq<real>, t: seq<real>, rank: real)
    requires |s| == |t| && 0.0 <= rank <= (|s| - 1) as real
    requires s[rank.Floor] <= t[rank.Floor] && s[Ceiling(rank)] <= t[Ceiling(rank)]
    ensures Interpolated(s, rank) <= Interpolated(t, rank)
  {
    var l, u := rank.Floor, Ceiling(rank);
    Mixture(rank - l as real, s[l], s[u], t[l], t[u]);
  }

  lemma Mixture(f: real, a: real, b: real, c: real, d: real)
    requires 0.0 <= f <= 1.0 && a <= c && b <= d
    ensures a + f * (b - a) <= c + f * (d - c)
  {
    var g := 1.0 - f;
    Blend(f, g, a, b);
    Blend(f, g, c, d);
    MulMonotone(a, c, g);
    MulMonotone(b, d, f);
    AddBounds(a * g, b * f, c * g, d * f, a + f * (b - a), c + f * (d - c));
  }

  lemma Blend(f: real, g: real, a: real, b: real)
    requires f + g == 1.0
    ensures a + f * (b - a) == a * g + b * f
  {
    assert a == a * (f + g);
  }

  lemma AddBounds(p: real, q: real, r: real, s: real, x: real, y: real)
    requires p <= r && q <= s && x == p + q && y == r + s
    ensures x <= y
  {
  }

  /** Percentiles stay among the samples, and the ends are the extreme samples. */
  lemma PercentileRange(data: seq<real>, p: real)
    requires data != []
    ensures forall x <- data :: Percentile(data, 0.0) <= x <= Percentile(data, 100.0)
    ensures Percentile(data, 0.0) in data && Percentile(data, 100.0) in data
    ensures Percentile(data, 0.0) <= Percentile(data, p) <= Percentile(data, 100.0)
  {
    if |data| >= 2 {
      ExtremePercentiles(data);
      RankInRange(|data|, p);
      SortedFacts(data);
      InterpolatedBetween(Sorted(data), Rank(|data|, p));
    }
  }

  lemma ExtremePercentiles(data: seq<real>)
    requires |data| >= 2
    ensures |Sorted(data)| == |data|
    ensures Percentile(data, 0.0) == Sorted(data)[0] && Percentile(data, 100.0) == Sorted(data)[|data| - 1]
    ensures Sorted(data)[0] in data && Sorted(data)[|data| - 1] in data
    ensures forall x <- data :: Sorted(data)[0] <= x <= Sorted(data)[|data| - 1]
  {
    var s, n := Sorted(data), |data|;
    SortedFacts(data);
    EndsOfInterpolation(s);
    assert s[0] in multiset(s) && s[n - 1] in multiset(s);
    forall x | x in data ensures s[0] <= x <= s[n - 1] {
      assert x in multiset(s);
      var i :| 0 <= i < n && s[i] == x;
    }
  }

  lemma EndsOfInterpolation(s: seq<real>)
    requires |s| >= 2
    ensures PercentileSorted(s, 0.0) == s[0] && PercentileSorted(s, 100.0) == s[|s| - 1]
  {
    var last := |s| - 1;
    assert Rank(|s|, 0.0) == 0.0 && Rank(|s|, 100.0) == last as real;
    assert (0.0).Floor == 0 == Ceiling(0.0);
    assert (last as real).Floor == last == Ceiling(last as real);
  }

  // ---------------------------------------------------------------------------------------------
  // Interquartile fences

  /** Tukey's fences around two quartiles. */
  function Fences(q1: real, q3: real): Bounds {
    var iqr := q3 - q1;
    Bounds(q1 - 1.5 * iqr, q3 + 1.5 * iqr)
  }

  function IqrBounds(data: seq<real>): Bounds {
    var q1 := Percentile(data, 25.0);
    var q3 := Percentile(data, 75.0);
    Fences(q1, q3)
  }

  lemma WithinRun(s: seq<real>, i: nat, j: nat, b: Bounds)
    requires Ascending(s) && i <= j < |s| && b.lower <= s[i] && s[j] <= b.upper
    ensures Within(s, b) >= j - i + 1
  {
    var run := s[i..j + 1];
    assert s == s[..i] + (run + s[j + 1..]);
    WithinConcat(s[..i], run + s[j + 1..], b);
    WithinConcat(run, s[j + 1..], b);
    AllWithin(run, b);
  }

  /** More than half of the sequence lies between the fences around two quartiles. */
  predicate MajorityBetween(s: seq<real>, q1: real, q3: real) {
    2 * Within(s, Fences(q1, q3)) > |s|
  }

  lemma FirstQuartile(s: seq<real>, l: nat, f: real)
    requires |s| >= 2 && l + 1 < |s| && 0.0 <= f < 1.0 && (|s| - 1) as real == 4.0 * (l as real + f)
    ensures PercentileSorted(s, 25.0) == s[l] + f * (s[l + 1] - s[l])
  {
    assert Rank(|s|, 25.0) == l as real + f;
    InterpolatedAt(s, l, f);
  }

  lemma ThirdQuartile(s: seq<real>, l: nat, f: real)
    requires |s| >= 2 && l + 1 < |s| && 0.0 <= f < 1.0 && 3.0 * (|s| - 1) as real == 4.0 * (l as real + f)
    ensures PercentileSorted(s, 75.0) == s[l] + f * (s[l + 1] - s[l])
  {
    assert Rank(|s|, 75.0) == l as real + f;
    InterpolatedAt(s, l, f);
  }

  lemma QuartersOfFour(s: seq<real>, m: nat)
    requires Ascending(s) && m >= 1 && |s| == 4 * m
    ensures MajorityBetween(s, PercentileSorted(s, 25.0), PercentileSorted(s, 75.0))
  {
    var q1, q3 := PercentileSorted(s, 25.0), PercentileSorted(s, 75.0);
    hide PercentileSorted, Within;
    assert (|s| - 1) as real == 4.0 * (m - 1) as real + 3.0 && (3 * m - 1) as real == 3.0 * (m - 1) as real + 2.0;
    FirstQuartile(s, m - 1, 0.75);
    ThirdQuartile(s, 3 * m - 1, 0.25);
    var w, x, y, z := s[m - 1], s[m], s[3 * m - 1], s[3 * m];
    assert w <= x <= y <= z;
    assert q1 == w + 0.75 * (x - w) && q3 == y + 0.25 * (z - y);
    if x - w <= z - y {
      assert Fences(q1, q3).lower <= w;
      WithinRun(s, m - 1, 3 * m - 1, Fences(q1, q3));
    } else {
      assert Fences(q1, q3).upper >= z;
      WithinRun(s, m, 3 * m, Fences(q1, q3));
    }
  }

  lemma QuartersOfOne(s: seq<real>, m: nat)
    requires Ascending(s) && m >= 1 && |s| == 4 * m + 1
    ensures MajorityBetween(s, PercentileSorted(s, 25.0), PercentileSorted(s, 75.0))
  {
    var q1, q3 := PercentileSorted(s, 25.0), PercentileSorted(s, 75.0);
    hide PercentileSorted, Within;
    assert (|s| - 1) as real == 4.0 * m as real && (3 * m) as real == 3.0 * m as real;
    FirstQuartile(s, m, 0.0);
    ThirdQuartile(s, 3 * m, 0.0);
    WithinRun(s, m, 3 * m, Fences(q1, q3));
  }

  lemma QuartersOfTwo(s: seq<real>, m: nat)
    requires Ascending(s) && |s| == 4 * m + 2
    ensures MajorityBetween(s, PercentileSorted(s, 25.0), PercentileSorted(s, 75.0))
  {
    var q1, q3 := PercentileSorted(s, 25.0), PercentileSorted(s, 75.0);
    hide PercentileSorted, Within;
    assert (|s| - 1) as real == 4.0 * m as real + 1.0 && (3 * m) as real == 3.0 * m as real;
    FirstQuartile(s, m, 0.25);
    ThirdQuartile(s, 3 * m, 0.75);
    WithinRun(s, m, 3 * m + 1, Fences(q1, q3));
  }

  lemma QuartersOfThree(s: seq<real>, m: nat)
    requires Ascending(s) && |s| == 4 * m + 3
    ensures MajorityBetween(s, PercentileSorted(s, 25.0), PercentileSorted(s, 75.0))
  {
    var q1, q3 := PercentileSorted(s, 25.0), PercentileSorted(s, 75.0);
    hide PercentileSorted, Within;
    assert (|s| - 1) as real == 4.0 * m as real + 2.0 && (3 * m + 1) as real == 3.0 * m as real + 1.0;
    FirstQuartile(s, m, 0.5);
    ThirdQuartile(s, 3 * m + 1, 0.5);
    WithinRun(s, m, 3 * m + 2, Fences(q1, q3));
  }

  /** The fences around an ascending sample of at least two keep more than half of it. */
  lemma FencesKeepMajority(s: seq<real>)
    requires Ascending(s) && |s| >= 2
    ensures MajorityBetween(s, PercentileSorted(s, 25.0), PercentileSorted(s, 75.0))
  {
    var m := |s| / 4;
    if |s| % 4 == 0 {
      QuartersOfFour(s, m);
    } else if |s| % 4 == 1 {
      QuartersOfOne(s, m);
    } else if |s| % 4 == 2 {
      QuartersOfTwo(s, m);
    } else {
      QuartersOfThree(s, m);
    }
  }

  /** Whatever the data and its order, more than half of it lies inside its own interquartile fences. */
  lemma IqrKeepsMajority(data: seq<real>)
    requires data != []
    ensures 2 * Within(data, IqrBounds(data)) > |data|
    ensures ComplianceRatio(data, IqrBounds(data)) > 0.5
  {
    var b := IqrBounds(data);
    if |data| == 1 {
      assert b == Bounds(data[0], data[0]);
      assert Within(data, b) == 1 + Within(data[1..], b);
    } else {
      SortedFacts(data);
      FencesKeepMajority(Sorted(data));
      CountsIgnoreOrder(Sorted(data), data, 0.0, b);
    }
    MoreThanHalf(Within(data, b), |data|);
  }

  lemma MoreThanHalf(w: nat, n: nat)
    requires 2 * w > n > 0
    ensures w as real / n as real > 0.5
  {
    HalfOf(w as real, n as real);
  }

  lemma HalfOf(x: real, t: real)
    requires 2.0 * x > t > 0.0
    ensures x / t > 0.5
  {
    var q := x / t;
    DivideThenMultiply(x, t);
    if q <= 0.5 { MulMonotone(q, 0.5, t); }
  }

  lemma {:induction false} SortedOfAscending(s: seq<real>)
    requires Ascending(s)
    ensures Sorted(s) == s
  {
    if s != [] {
      SortedOfAscending(s[1..]);
      assert s == [s[0]] + s[1..];
    }
  }

  lemma {:induction false} NoneWithin(data: seq<real>, b: Bounds)
    requires forall x <- data :: !b.Contains(x)
    ensures Within(data, b) == 0
  {
    if data != [] { NoneWithin(data[1..], b); }
  }

  /** m samples of -1, 2m + 1 of 0 and m of 1. */
  function Spread(m: nat): (s: seq<real>)
    ensures |s| == 4 * m + 1 && Ascending(s)
  {
    seq(4 * m + 1, i => if i < m then -1.0 else if i <= 3 * m then 0.0 else 1.0)
  }

  /** The majority cannot be improved at any size: the fences of these samples keep one more than the others. */
  lemma IqrMajorityIsTight(m: nat)
    requires m >= 1
    ensures IqrBounds(Spread(m)) == Bounds(0.0, 0.0)
    ensures 2 * Within(Spread(m), IqrBounds(Spread(m))) == |Spread(m)| + 1
  {
    hide IqrBounds, Within;
    SpreadFences(m);
    SpreadWithin(m);
  }

  lemma SpreadFences(m: nat)
    requires m >= 1
    ensures IqrBounds(Spread(m)) == Bounds(0.0, 0.0)
  {
    hide PercentileSorted, Sorted;
    var s := Spread(m);
    SortedOfAscending(s);
    FirstQuartile(s, m, 0.0);
    ThirdQuartile(s, 3 * m, 0.0);
    assert s[m] == 0.0 && s[m + 1] == 0.0 && s[3 * m] == 0.0;
    assert 0.0 * (s[3 * m + 1] - s[3 * m]) == 0.0;
  }

  lemma SpreadWithin(m: nat)
    requires m >= 1
    ensures Within(Spread(m), Bounds(0.0, 0.0)) == 2 * m + 1
  {
    hide Within;
    var s, b := Spread(m), Bounds(0.0, 0.0);
    var low, middle, high := s[..m], s[m..3 * m + 1], s[3 * m + 1..];
    assert s == low + (middle + high);
    WithinConcat(low, middle + high, b);
    WithinConcat(middle, high, b);
    NoneWithin(low, b);
    AllWithin(middle, b);
    NoneWithin(high, b);
  }

  // ---------------------------------------------------------------------------------------------
  // Tolerance methods and recovery

  datatype Method =
    | Static(lower: real, upper: real)
    | PercentileTimes(percentile: real, multiplier: real)
    | MeanStddev(sigma: real)
    | Iqr

  function DeriveTolerance(samples: seq<real>, how: Method, sd: Option<real>): Bounds {
    match how
    case Static(lower, upper) => Bounds(lower, upper)
    case PercentileTimes(p, multiplier) => Bounds(0.0, Percentile(samples, p) * multiplier)
    case MeanStddev(sigma) => MeanStddevBounds(samples, sigma, sd)
    case Iqr => IqrBounds(samples)
  }

  lemma {:induction false} WithinIsCountUpTo(data: seq<real>, v: real, upper: real)
    requires v <= upper && forall x <- data :: 0.0 <= x
    ensures CountUpTo(data, v) <= Within(data, Bounds(0.0, upper))
  {
    if data != [] {
      assert data[0] in data && forall x <- data[1..] :: x in data;
      WithinIsCountUpTo(data[1..], v, upper);
    }
  }

  /** More samples than the rank of a percentile lie at or below it. */
  lemma PercentileCounts(data: seq<real>, p: real)
    requires data != []
    ensures CountUpTo(data, Percentile(data, p)) > Rank(|data|, p).Floor
  {
    hide CountUpTo;
    var n, v := |data|, Percentile(data, p);
    RankInRange(n, p);
    if n == 1 {
      OrderStatistic(data, 0, v);
    } else {
      var k := Rank(n, p).Floor;
      SortedFacts(data);
      InterpolatedBetween(Sorted(data), Rank(n, p));
      OrderStatistic(Sorted(data), k, v);
      CountsIgnoreOrder(Sorted(data), data, v, Bounds(0.0, 0.0));
    }
  }

  /** The share of samples that mean plus or minus sigma deviations always keeps. */
  function ChebyshevShare(n: nat, sigma: real): real
    requires n >= 1 && sigma > 0.0
  {
    SquareIsPositive(sigma);
    PositiveProduct(n as real, Square(sigma));
    1.0 - (n - 1) as real / (n as real * Square(sigma))
  }

  lemma PercentileBoundKeeps(data: seq<real>, p: real, upper: real)
    requires data != [] && upper >= Percentile(data, p) && forall x <- data :: 0.0 <= x
    ensures Within(data, Bounds(0.0, upper)) > Rank(|data|, p).Floor
  {
    hide Percentile, CountUpTo, Within;
    PercentileCounts(data, p);
    WithinIsCountUpTo(data, Percentile(data, p), upper);
  }

  /** A percentile tolerance with a multiplier of at least 1 keeps more samples than the percentile's rank. */
  lemma PercentileToleranceKeeps(data: seq<real>, p: real, multiplier: real)
    requires data != [] && multiplier >= 1.0 && forall x <- data :: 0.0 <= x
    ensures Within(data, DeriveTolerance(data, PercentileTimes(p, multiplier), None)) > Rank(|data|, p).Floor
  {
    hide Percentile, Within, Rank;
    var b := DeriveTolerance(data, PercentileTimes(p, multiplier), None);
    PercentileRange(data, p);
    MulMonotone(1.0, multiplier, Percentile(data, p));
    assert b.upper == multiplier * Percentile(data, p);
    PercentileBoundKeeps(data, p, b.upper);
  }

  lemma MeanToleranceKeeps(data: seq<real>, sigma: real, sd: Option<real>)
    requires data != [] && sigma > 0.0 && IsStddev(data, sd)
    ensures ComplianceRatio(data, MeanStddevBounds(data, sigma, sd)) >= ChebyshevShare(|data|, sigma)
  {
    hide ComplianceRatio, MeanStddevBounds, Square, IsStddev;
    ChebyshevCompliance(data, sigma, sd);
  }

  /** What each way of deriving a tolerance promises of the very samples it was derived from. */
  lemma DerivedToleranceKeeps(samples: seq<real>, how: Method, sd: Option<real>)
    requires samples != [] && IsStddev(samples, sd)
    ensures var n, b := |samples|, DeriveTolerance(samples, how, sd);
            && 0.0 <= ComplianceRatio(samples, b) <= 1.0
            && (how.Iqr? ==> ComplianceRatio(samples, b) > 0.5)
            && (how.MeanStddev? && how.sigma > 0.0 ==> ComplianceRatio(samples, b) >= ChebyshevShare(n, how.sigma))
            && (how.PercentileTimes? && how.multiplier >= 1.0 && (forall x <- samples :: 0.0 <= x) ==>
                  Within(samples, b) > Rank(n, how.percentile).Floor)
  {
    hide ComplianceRatio, Within, IqrBounds, MeanStddevBounds, Percentile, IsStddev, Rank, ChebyshevShare;
    RatioInUnit(samples, DeriveTolerance(samples, how, sd));
    match how
    case Static(_, _) =>
    case PercentileTimes(p, multiplier) =>
      if multiplier >= 1.0 && forall x <- samples :: 0.0 <= x {
        assert DeriveTolerance(samples, how, sd) == DeriveTolerance(samples, how, None);
        PercentileToleranceKeeps(samples, p, multiplier);
      }
    case MeanStddev(sigma) => if sigma > 0.0 { MeanToleranceKeeps(samples, sigma, sd); }
    case Iqr => IqrKeepsMajority(samples);
  }

  lemma SquareOrder(d: real, t: real)
    requires t >= 0.0
    ensures -t <= d <= t <==> Square(d) <= Square(t)
  {
    hide Square;
    var e := if d < 0.0 then -d else d;
    SquareOfOpposite(d);
    if e <= t {
      FartherSquare(t, e);
    } else {
      SquareStrict(t, e);
    }
  }

  lemma SquareOfOpposite(d: real)
    ensures Square(-d) == Square(d)
  {
  }

  lemma SquareStrict(t: real, e: real)
    requires 0.0 <= t < e
    ensures Square(t) < Square(e)
  {
    ProductStrict(t, e);
    TimesIsProduct(t, t);
    TimesIsProduct(e, e);
  }

  lemma ProductStrict(t: real, e: real)
    requires 0.0 <= t < e
    ensures t * t < e * e
  {
    var d := e - t;
    assert d * (e + t) > 0.0;
    assert e * e - t * t == d * (e + t);
  }

  lemma ProductOfSquares(x: real, y: real, t: real)
    requires t == x * y
    ensures Square(t) == Times(Square(x), Square(y))
  {
  }

  /** Exactly which values each derived tolerance admits. */
  lemma DerivedToleranceExactly(samples: seq<real>, how: Method, sd: Option<real>, x: real)
    requires IsStddev(samples, sd)
    ensures var inside := DeriveTolerance(samples, how, sd).Contains(x);
            match how
            case Static(lower, upper) => inside <==> lower <= x && x <= upper
            case PercentileTimes(p, multiplier) => inside <==> 0.0 <= x && x <= multiplier * Percentile(samples, p)
            case Iqr =>
              var q1, q3 := Percentile(samples, 25.0), Percentile(samples, 75.0);
              inside <==> 2.0 * (q1 - x) <= 3.0 * (q3 - q1) && 2.0 * (x - q3) <= 3.0 * (q3 - q1)
            case MeanStddev(sigma) =>
              && (samples == [] ==> (inside <==> x == 0.0))
              && (|samples| == 1 ==> (inside <==> x == samples[0]))
              && (|samples| >= 2 && sigma >= 0.0 ==>
                    (inside <==> Square(x - Mean(samples).value) <= Times(Square(sigma), Variance(samples))))
  {
    hide Percentile, Variance, Square, Times;
    match how
    case Static(_, _) =>
    case PercentileTimes(p, multiplier) => CommutingFactors(Percentile(samples, p), multiplier);
    case Iqr =>
    case MeanStddev(sigma) =>
      if |samples| == 1 {
        assert Sum(samples) == samples[0] + Sum(samples[1..]) && samples[1..] == [];
        assert Mean(samples) == Some(samples[0]);
      } else if |samples| >= 2 && sigma >= 0.0 {
        var d, t := x - Mean(samples).value, sigma * sd.value;
        assert MeanStddevBounds(samples, sigma, sd) == Bounds(Mean(samples).value - t, Mean(samples).value + t);
        hide Mean, MeanStddevBounds;
        MulMonotone(0.0, sigma, sd.value);
        SquareOrder(d, t);
        ProductOfSquares(sigma, sd.value, t);
        assert Square(t) == Times(Square(sigma), Variance(samples));
      }
  }

  lemma CommutingFactors(x: real, y: real)
    ensures x * y == y * x
  {
  }

  /** The percentile of any data, read off any ascending arrangement of it at the interpolated place. */
  lemma PercentileExactly(data: seq<real>, s: seq<real>, p: real, k: nat, f: real)
    requires |data| >= 2 && Ascending(s) && multiset(s) == multiset(data)
    requires 0.0 <= p <= 100.0 && 0.0 <= f < 1.0 && k + 1 < |s| && p * (|s| - 1) as real == 100.0 * (k as real + f)
    ensures Percentile(data, p) == s[k] + f * (s[k + 1] - s[k])
  {
    hide Sorted, PercentileSorted;
    assert |s| == |multiset(s)| == |multiset(data)| == |data|;
    SortedIgnoresOrder(data, s);
    SortedOfAscending(s);
    PercentileSortedAt(s, p, k, f);
  }

  lemma PercentileSortedAt(s: seq<real>, p: real, k: nat, f: real)
    requires 0.0 <= p <= 100.0 && 0.0 <= f < 1.0 && k + 1 < |s| && p * (|s| - 1) as real == 100.0 * (k as real + f)
    ensures PercentileSorted(s, p) == s[k] + f * (s[k + 1] - s[k])
  {
    RankOf(|s|, p, k as real + f);
    hide Rank, Interpolated;
    InterpolatedAt(s, k, f);
  }

  lemma RankOf(n: nat, p: real, r: real)
    requires n >= 1 && 0.0 <= p <= 100.0 && p * (n - 1) as real == 100.0 * r
    ensures Rank(n, p) == r
  {
    var m := (n - 1) as real;
    assert p / 100.0 * m == (p * m) / 100.0;
  }

  /** The ratio is the number of complying samples over all, and nothing complies where there is nothing. */
  lemma RatioExactly(samples: seq<real>, b: Bounds)
    ensures samples != [] ==> |samples| as real * ComplianceRatio(samples, b) == Within(samples, b) as real
    ensures samples == [] ==> ComplianceRatio(samples, b) == 0.0
  {
    hide Within;
    if samples != [] { DivideThenMultiply(Within(samples, b) as real, |samples| as real); }
  }

  /** Too little data to interpolate. */
  lemma ShortPercentiles(x: real, p: real)
    ensures Percentile([], p) == 0.0 && Percentile([x], p) == x
  {
  }

  lemma RatioInUnit(samples: seq<real>, b: Bounds)
    ensures 0.0 <= ComplianceRatio(samples, b) <= 1.0
  {
    hide Within;
    WithinAtMostAll(samples, b);
    if samples != [] { QuotientBounds(Within(samples, b) as real, |samples| as real, 0.0, 1.0); }
  }

  predicate RecoveredFrom(samples: seq<real>, b: Bounds, i: nat) {
    forall j :: i <= j < |samples| ==> b.Contains(samples[j])
  }

  /** The least index from which every sample is within bounds; none when the last sample is not. */
  method RecoveryIndex(samples: seq<real>, b: Bounds) returns (r: Option<nat>)
    ensures r.None? <==> samples == [] || !b.Contains(samples[|samples| - 1])
    ensures r.Some? ==> r.value < |samples| && RecoveredFrom(samples, b, r.value)
    ensures r.Some? ==> forall i: nat :: RecoveredFrom(samples, b, i) ==> r.value <= i
  {
    if |samples| == 0 {
      return None;
    }
    for i := |samples| downto 0
      invariant RecoveredFrom(samples, b, i)
    {
      if !b.Contains(samples[i]) {
        if i + 1 < |samples| {
          return Some(i + 1);
        }
        return None;
      }
    }
    return Some(0);
  }
}
