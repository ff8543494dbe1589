/** The seeded 64-bit generator behind the fault gate, and why it is a single cycle. */
module Generator {
  import opened PowersOfTwo
  import opened MachineWords
  import opened RealFacts

  const MULTIPLIER: nat := 6364136223846793005
  const UNIT: nat := 0x20_0000_0000_0000

  /** wrapping_mul then wrapping_add. */
  function Advance(state: u64): u64 {
    (state * MULTIPLIER + 1) % MODULUS
  }

  function StateAfter(seed: u64, draws: nat): u64 {
    if draws == 0 then seed else Advance(StateAfter(seed, draws - 1))
  }

  /** The top 53 bits of the state as a fraction of 2^53; exact in an f64. */
  function UnitDraw(state: u64): real {
    (state / 2048) as real / UNIT as real
  }

  predicate Gate(state: u64, probability: real) {
    UnitDraw(state) < probability
  }

  // ---------------------------------------------------------------------------------------------
  // The unreduced recurrence x -> a*x + 1

  function Orbit(a: int, x: int, n: nat): int {
    if n == 0 then x else a * Orbit(a, x, n - 1) + 1
  }

  lemma {:induction false} OrbitCompose(a: int, x: int, m: nat, n: nat)
    ensures Orbit(a, x, m + n) == Orbit(a, Orbit(a, x, m), n)
  {
    if n > 0 { OrbitCompose(a, x, m, n - 1); }
  }

  /** Every orbit is an affine image of the orbit of zero. */
  lemma {:induction false} OrbitDisplacement(a: int, x: int, n: nat)
    ensures Orbit(a, x, n) == x + Orbit(a, 0, n) * ((a - 1) * x + 1)
  {
    if n > 0 {
      OrbitDisplacement(a, x, n - 1);
      DisplacementStep(a, x, Orbit(a, 0, n - 1), (a - 1) * x + 1);
    }
  }

  lemma DisplacementStep(a: int, x: int, g: int, t: int)
    requires t == (a - 1) * x + 1
    ensures a * (x + g * t) + 1 == x + (a * g + 1) * t
  {
    Distribute(x, g * t, a);
    Distribute(a * g, 1, t);
    Distribute(a, -1, x);
    assert a * (g * t) == (a * g) * t;
  }

  lemma OrbitOfZeroDoubles(a: int, m: nat) returns (t: int)
    requires a % 4 == 1
    ensures Orbit(a, 0, 2 * m) == 2 * (Orbit(a, 0, m) * (2 * t + 1))
  {
    var g := Orbit(a, 0, m);
    OrbitCompose(a, 0, m, m);
    OrbitDisplacement(a, g, m);
    t := a / 4 * g;
    assert (a - 1) * g == 4 * t;
  }

  lemma OddStepFlipsParity(a: int, g: int)
    requires a % 2 == 1
    ensures (a * g + 1) % 2 == 1 - g % 2
  {
    var b := a / 2;
    var p := b * g;
    Distribute(2 * b, 1, g);
    assert (2 * b) * g == 2 * p;
    ParityOfSum(a * g, p, g);
  }

  lemma Distribute(x: int, y: int, z: int)
    ensures (x + y) * z == x * z + y * z
  {
  }

  lemma ParityOfSum(v: int, p: int, g: int)
    requires v == 2 * p + g
    ensures (v + 1) % 2 == 1 - g % 2
  {
  }

  lemma {:induction false} OrbitOfZeroParity(a: int, n: nat)
    requires a % 2 == 1
    ensures Orbit(a, 0, n) % 2 == n % 2
  {
    if n > 0 {
      OrbitOfZeroParity(a, n - 1);
      OddStepFlipsParity(a, Orbit(a, 0, n - 1));
    }
  }

  lemma OrbitOfZeroHalves(a: int, m: nat, k: nat)
    requires a % 4 == 1 && k > 0
    ensures ZeroBits(k, Orbit(a, 0, 2 * m)) <==> ZeroBits(k - 1, Orbit(a, 0, m))
  {
    var t := OrbitOfZeroDoubles(a, m);
    DoubleZeroBits(k, Orbit(a, 0, m) * (2 * t + 1));
    OddFactor(k - 1, Orbit(a, 0, m), t);
  }

  /** The orbit of zero at n has exactly as many zero bits as n itself. */
  lemma {:induction false} OrbitOfZeroBits(a: int, n: nat, k: nat)
    requires a % 4 == 1
    ensures ZeroBits(k, Orbit(a, 0, n)) <==> ZeroBits(k, n)
    decreases n
  {
    hide Orbit, ZeroBits;
    if n == 0 {
      OrbitStarts(a, 0);
    } else if k == 0 {
      NoBitsAsked(n);
      NoBitsAsked(Orbit(a, 0, n));
    } else if n % 2 == 0 {
      var m := n / 2;
      DoubleZeroBits(k, m);
      OrbitOfZeroHalves(a, m, k);
      OrbitOfZeroBits(a, m, k - 1);
    } else {
      OddCase(a, n, k);
    }
  }

  lemma OddCase(a: int, n: nat, k: nat)
    requires a % 4 == 1 && n % 2 == 1 && k > 0
    ensures !ZeroBits(k, Orbit(a, 0, n)) && !ZeroBits(k, n)
  {
    hide Orbit;
    OneModFour(a);
    OrbitOfZeroParity(a, n);
  }

  lemma OneModFour(a: int)
    requires a % 4 == 1
    ensures a % 2 == 1
  {
    StaysOdd(a, 2 * (a / 4), 1);
  }

  lemma OrbitStarts(a: int, x: int)
    ensures Orbit(a, x, 0) == x
  {
  }

  lemma NoBitsAsked(n: int)
    ensures ZeroBits(0, n)
  {
  }

  /** Two points of one orbit agree modulo 2^k exactly when their positions do: one full cycle, for every k. */
  lemma FullPeriod(a: int, x: int, i: nat, j: nat, k: nat)
    requires a % 4 == 1
    ensures Orbit(a, x, i) % Pow2(k) == Orbit(a, x, j) % Pow2(k) <==> i % Pow2(k) == j % Pow2(k)
    decreases i > j
  {
    if i > j {
      FullPeriod(a, x, j, i, k);
    } else {
      var y, z, d := Orbit(a, x, i), Orbit(a, x, j), j - i;
      var t := a / 4 * y * 2;
      OrbitCompose(a, x, i, d);
      OrbitDisplacement(a, y, d);
      assert (a - 1) * y == 2 * t;
      OddFactor(k, Orbit(a, 0, d), t);
      OrbitOfZeroBits(a, d, k);
      ZeroBitsIsDivisibility(k, z - y);
      ZeroBitsIsDivisibility(k, d);
      SameRemainder(z, y, Pow2(k));
      SameRemainder(j, i, Pow2(k));
    }
  }

  // ---------------------------------------------------------------------------------------------
  // The 64-bit engine

  lemma {:induction false} StateIsReducedOrbit(seed: u64, n: nat)
    ensures StateAfter(seed, n) == Orbit(MULTIPLIER, seed, n) % MODULUS
  {
    if n > 0 {
      StateIsReducedOrbit(seed, n - 1);
      var o := Orbit(MULTIPLIER, seed, n - 1);
      var q := o / MODULUS;
      AddMultiple((o % MODULUS) * MULTIPLIER + 1, MULTIPLIER * q, MODULUS);
      assert MULTIPLIER * o + 1 == (o % MODULUS) * MULTIPLIER + 1 + (MULTIPLIER * q) * MODULUS;
    }
  }

  lemma OrbitPeriod(x: int, i: nat, j: nat)
    ensures Orbit(MULTIPLIER, x, i) % MODULUS == Orbit(MULTIPLIER, x, j) % MODULUS <==> i % MODULUS == j % MODULUS
  {
    SixtyFourBits();
    FullPeriod(MULTIPLIER, x, i, j, 64);
  }

  /** The gate's state recurs after exactly 2^64 draws and never sooner, from any seed. */
  lemma EnginePeriod(seed: u64, i: nat, j: nat)
    ensures StateAfter(seed, i) == StateAfter(seed, j) <==> i % MODULUS == j % MODULUS
  {
    StateIsReducedOrbit(seed, i);
    StateIsReducedOrbit(seed, j);
    OrbitPeriod(seed, i, j);
  }

  lemma DistinctWithinPeriod(seed: u64, i: nat, j: nat)
    requires 0 < i <= MODULUS && 0 < j <= MODULUS && StateAfter(seed, i) == StateAfter(seed, j)
    ensures i == j
  {
    EnginePeriod(seed, i, j);
    CloseTogether(i, j, MODULUS);
  }

  /** The first states from the seed 0. */
  lemma KnownStates()
    ensures StateAfter(0, 1) == 1 && StateAfter(0, 2) == 6_364_136_223_846_793_006
  {
    assert StateAfter(0, 0) == 0;
    assert StateAfter(0, 1) == Advance(0);
    assert StateAfter(0, 2) == Advance(1);
  }

  /** Every draw is a probability: never below 0, never 1. */
  lemma DrawsAreUnit(state: u64)
    ensures 0.0 <= UnitDraw(state) < 1.0
  {
    assert state / 2048 < UNIT;
  }

  // ---------------------------------------------------------------------------------------------
  // Exact frequency

  /** How often a fault of this probability applies in the given number of draws. */
  function TimesApplied(seed: u64, probability: real, draws: nat): nat {
    if draws == 0 then 0
    else TimesApplied(seed, probability, draws - 1) + if Gate(StateAfter(seed, draws), probability) then 1 else 0
  }

  /** The number of 53-bit draws that lie below the probability. */
  function Threshold(probability: real): nat {
    var c := Ceiling(probability * UNIT as real);
    if c < 0 then 0 else if c > UNIT then UNIT else c
  }

  lemma GateIsThreshold(state: u64, probability: real)
    ensures Gate(state, probability) <==> state < 2048 * Threshold(probability)
  {
    var v := state / 2048;
    assert v < UNIT;
    var scaled := probability * UNIT as real;
    assert UnitDraw(state) * UNIT as real == v as real;
    assert Gate(state, probability) <==> v as real < scaled;
    assert v as real < scaled <==> v < Ceiling(scaled);
  }

  ghost function Hits(seed: u64, limit: nat, draws: nat): set<nat> {
    set i: nat | 0 < i <= draws && StateAfter(seed, i) < limit
  }

  lemma {:induction false} TimesAppliedIsHits(seed: u64, probability: real, draws: nat)
    ensures TimesApplied(seed, probability, draws) == |Hits(seed, 2048 * Threshold(probability), draws)|
  {
    var limit := 2048 * Threshold(probability);
    if draws == 0 {
      assert Hits(seed, limit, 0) == {};
    } else {
      TimesAppliedIsHits(seed, probability, draws - 1);
      GateIsThreshold(StateAfter(seed, draws), probability);
      var before := Hits(seed, limit, draws - 1);
      assert Hits(seed, limit, draws) == before + if StateAfter(seed, draws) < limit then {draws} else {};
    }
  }

  ghost function Below(n: nat): (r: set<nat>)
    ensures forall i: nat :: i in r <==> i < n
    ensures |r| == n
  {
    if n == 0 then {} else Below(n - 1) + {n - 1}
  }

  ghost predicate InjectiveOn(f: nat -> nat, s: set<nat>) {
    forall i, j :: i in s && j in s && f(i) == f(j) ==> i == j
  }

  lemma {:induction false} InjectiveImage(f: nat -> nat, s: set<nat>)
    requires InjectiveOn(f, s)
    ensures |set i <- s :: f(i)| == |s|
  {
    var image := set i <- s :: f(i);
    if s == {} {
      assert image == {};
    } else {
      var p :| p in s;
      InjectiveImage(f, s - {p});
      var others := set i <- s - {p} :: f(i);
      assert f(p) !in others;
      assert image == others + {f(p)};
    }
  }

  lemma SubsetOfEqualSize(a: set<nat>, b: set<nat>)
    requires a <= b && |a| == |b|
    ensures a == b
  {
    assert b == a + (b - a);
    assert |b| == |a| + |b - a|;
  }

  /** Counting lemma: an injection of n positions into 0..n-1 takes values below any bound exactly that often. */
  lemma InjectionHitsEveryBound(f: nat -> nat, positions: set<nat>, limit: nat)
    requires limit <= |positions|
    requires forall i :: i in positions ==> f(i) < |positions|
    requires InjectiveOn(f, positions)
    ensures |set i <- positions | f(i) < limit| == limit
  {
    var image := set i <- positions :: f(i);
    InjectiveImage(f, positions);
    SubsetOfEqualSize(image, Below(|positions|));
    var hits := set i <- positions | f(i) < limit;
    InjectiveImage(f, hits);
    var low := set i <- hits :: f(i);
    forall s | s in Below(limit) ensures s in low {
      assert s in image;
    }
    assert low == Below(limit);
  }

  ghost function Positions(n: nat): (r: set<nat>)
    ensures forall i: nat :: i in r <==> 0 < i <= n
    ensures |r| == n
  {
    if n == 0 then {} else Positions(n - 1) + {n}
  }

  lemma StatesDistinctInPeriod(seed: u64, period: nat)
    requires period == MODULUS
    ensures InjectiveOn((i: nat) => StateAfter(seed, i) as nat, Positions(period))
  {
    forall i: nat, j: nat | 0 < i <= period && 0 < j <= period && StateAfter(seed, i) == StateAfter(seed, j)
      ensures i == j
    {
      DistinctWithinPeriod(seed, i, j);
    }
  }

  /** Every one of the 2^64 states is visited within one period. */
  lemma EveryStateIsVisited(seed: u64, period: nat, s: u64) returns (i: nat)
    requires period == MODULUS
    ensures 0 < i <= period && StateAfter(seed, i) == s
  {
    hide StateAfter, Positions, Below, InjectiveOn;
    var f := (i: nat) => StateAfter(seed, i) as nat;
    var positions := Positions(period);
    var image := set i <- positions :: f(i);
    StatesDistinctInPeriod(seed, period);
    InjectiveImage(f, positions);
    SubsetOfEqualSize(image, Below(period));
    assert s as nat in image;
    i :| i in positions && f(i) == s as nat;
  }

  /** Over one period, from any seed, a fault applies exactly ceil(p * 2^53) * 2^11 times (clamped to 0 .. 2^64). The
      period is a parameter equal to MODULUS only so that the solver does not count it out. */
  lemma ExactFrequency(seed: u64, probability: real, period: nat)
    requires period == MODULUS
    ensures TimesApplied(seed, probability, period) == 2048 * Threshold(probability)
  {
    hide StateAfter, Positions, Below, InjectiveOn, TimesApplied;
    var limit := 2048 * Threshold(probability);
    var f := (i: nat) => StateAfter(seed, i) as nat;
    StatesDistinctInPeriod(seed, period);
    InjectionHitsEveryBound(f, Positions(period), limit);
    TimesAppliedIsHits(seed, probability, period);
    assert Hits(seed, limit, period) == set i <- Positions(period) | f(i) < limit;
  }
}
