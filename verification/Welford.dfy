/** The running mean and variance of a (process, port) pair and the multiplier drawn from them
    (internal/baseline/baseline.go, lines 24-61, 245-270), over the real numbers. */
module Welford {
  import opened Sequences

  datatype Stats = Stats(n: nat, mean: real, m2: real)

  const NOTHING: Stats := Stats(0, 0.0, 0.0)

  const MIN_OBSERVATIONS: nat := 5

  function Observed(s: Stats, x: real): Stats {
    var n := s.n + 1;
    var delta := x - s.mean;
    var mean := s.mean + delta / n as real;
    Stats(n, mean, s.m2 + Times(delta, x - mean))
  }

  function Times(a: real, b: real): real {
    a * b
  }

  ghost function Fold(xs: seq<real>): Stats {
    if xs == [] then NOTHING else Observed(Fold(xs[..|xs| - 1]), xs[|xs| - 1])
  }

  // ----- the reference: two passes over the observations

  ghost function Sum(xs: seq<real>): real {
    if xs == [] then 0.0 else Sum(xs[..|xs| - 1]) + xs[|xs| - 1]
  }

  /** The sum of the squared distances from `m`. */
  ghost function Deviation(xs: seq<real>, m: real): (d: real)
    ensures d >= 0.0
  {
    if xs == [] then 0.0 else Deviation(xs[..|xs| - 1], m) + Square(xs[|xs| - 1] - m)
  }

  function Square(x: real): (s: real)
    ensures s >= 0.0
  {
    x * x
  }

  lemma {:induction false} ShiftOne(x: real, a: real, b: real)
    ensures Square(x - a) == Square(x - b) + 2.0 * Times(b - a, x - b) + Square(b - a)
  {
    assert x - a == (x - b) + (b - a);
    var u, v := x - b, b - a;
    assert (u + v) * (u + v) == u * u + 2.0 * (v * u) + v * v;
  }

  lemma {:induction false} TimesLinear(a: real, b: real, c: real)
    ensures Times(a, b + c) == Times(a, b) + Times(a, c) && Times(b + c, a) == Times(b, a) + Times(c, a) && Times(a, b) == Times(b, a)
    ensures Times(a, 0.0) == 0.0 && Times(1.0, a) == a && Times(a, a) == Square(a)
  {
  }

  /** Moving the centre away from the mean adds the squared shift for every observation. */
  lemma {:induction false} Shift(xs: seq<real>, a: real, b: real)
    ensures Deviation(xs, a) == Deviation(xs, b) + 2.0 * Times(b - a, Sum(xs) - Times(|xs| as real, b)) + Times(|xs| as real, Square(b - a))
  {
    hide Times, Square;
    if xs == [] {
      TimesLinear(b, 0.0, 0.0);
      TimesLinear(Square(b - a), 0.0, 0.0);
      TimesLinear(b - a, 0.0, 0.0);
    } else {
      var front, x, n := xs[..|xs| - 1], xs[|xs| - 1], (|xs| - 1) as real;
      Shift(front, a, b);
      ShiftOne(x, a, b);
      TimesLinear(b, n, 1.0);
      TimesLinear(Square(b - a), n, 1.0);
      TimesLinear(b - a, Sum(front) - Times(n, b), x - b);
      assert |xs| as real == n + 1.0;
      assert Sum(xs) - Times(n + 1.0, b) == (Sum(front) - Times(n, b)) + (x - b);
    }
  }

  /** The step's algebra, with `e` the shift of the mean: n e^2 + (d - e)^2 = d (d - e) where (n + 1) e = d. */
  lemma {:induction false} StepAlgebra(n: real, d: real, e: real)
    requires Times(n + 1.0, e) == d
    ensures Times(n, Square(e)) + Square(d - e) == Times(d, d - e)
  {
    assert n * e == d - e;
    assert n * (e * e) == (n * e) * e;
    assert (d - e) * e + (d - e) * (d - e) == (d - e) * d;
  }

  lemma {:induction false} Divided(d: real, n: real)
    requires n > 0.0
    ensures Times(n, d / n) == d
  {
  }

  /** Welford's recurrence is exact: N times the mean is the sum, and M2 is the sum of the squared distances from the
      mean of all observations. */
  lemma {:induction false} WelfordIsExact(xs: seq<real>)
    ensures var s := Fold(xs); s.n == |xs| && Times(|xs| as real, s.mean) == Sum(xs) && s.m2 == Deviation(xs, s.mean)
  {
    hide Times, Square;
    if xs == [] {
      TimesLinear(0.0, 0.0, 0.0);
    } else {
      var front, x, n := xs[..|xs| - 1], xs[|xs| - 1], (|xs| - 1) as real;
      var s := Fold(front);
      WelfordIsExact(front);
      var d := x - s.mean;
      var e := d / (n + 1.0);
      var mean := s.mean + e;
      assert Fold(xs) == Stats(|xs|, mean, s.m2 + Times(d, x - mean));
      Divided(d, n + 1.0);
      StepAlgebra(n, d, e);
      TimesLinear(n + 1.0, s.mean, e);
      TimesLinear(s.mean, n, 1.0);
      assert Times(n + 1.0, mean) == Sum(front) + s.mean + d;
      Shift(front, mean, s.mean);
      SquareOfNegative(e);
      TimesLinear(s.mean - mean, 0.0, 0.0);
      assert Deviation(xs, mean) == s.m2 + Times(n, Square(e)) + Square(d - e);
    }
  }

  lemma {:induction false} SquareOfNegative(e: real)
    ensures Square(-e) == Square(e)
  {
  }

  // ----- order

  lemma {:induction false} SumSnoc(xs: seq<real>, x: real)
    ensures Sum(xs + [x]) == Sum(xs) + x
  {
    assert (xs + [x])[..|xs|] == xs;
  }

  lemma {:induction false} DeviationSnoc(xs: seq<real>, x: real, m: real)
    ensures Deviation(xs + [x], m) == Deviation(xs, m) + Square(x - m)
  {
    hide Square;
    assert (xs + [x])[..|xs|] == xs;
  }

  lemma {:induction false} Concat(a: seq<real>, b: seq<real>, m: real)
    ensures Sum(a + b) == Sum(a) + Sum(b) && Deviation(a + b, m) == Deviation(a, m) + Deviation(b, m)
  {
    if b == [] {
      assert a + b == a;
    } else {
      hide Sum, Deviation, Square;
      var front, x := b[..|b| - 1], b[|b| - 1];
      assert b == front + [x] && a + b == a + front + [x];
      Concat(a, front, m);
      SumSnoc(a + front, x);
      SumSnoc(front, x);
      DeviationSnoc(a + front, x, m);
      DeviationSnoc(front, x, m);
    }
  }

  lemma {:induction false} Permuted(a: seq<real>, c: seq<real>, m: real)
    requires multiset(a) == multiset(c)
    ensures |a| == |c| && Sum(a) == Sum(c) && Deviation(a, m) == Deviation(c, m)
    decreases |a|
  {
    assert |multiset(a)| == |a| && |multiset(c)| == |c|;
    if a != [] {
      hide Sum, Deviation, Square;
      var front, last := a[..|a| - 1], a[|a| - 1];
      assert a == front + [last];
      var x, y := TakeOut(c, last);
      Permuted(front, x + y, m);
      SumSnoc(front, last);
      DeviationSnoc(front, last, m);
      Concat(x, y, m);
      Concat(x + [last], y, m);
      SumSnoc(x, last);
      DeviationSnoc(x, last, m);
    }
  }

  lemma {:induction false} SameMean(n: real, a: real, b: real)
    requires n > 0.0 && Times(n, a) == Times(n, b)
    ensures a == b
  {
    assert n * (a - b) == 0.0;
  }

  /** The statistics do not depend on the order of the observations. */
  lemma {:induction false} OrderIsIrrelevant(a: seq<real>, c: seq<real>)
    requires multiset(a) == multiset(c)
    ensures Fold(a) == Fold(c)
  {
    hide Times;
    WelfordIsExact(a);
    WelfordIsExact(c);
    Permuted(a, c, Fold(a).mean);
    if a == [] {
      assert c == [];
    } else {
      hide Fold, Sum, Deviation;
      SameMean(|a| as real, Fold(a).mean, Fold(c).mean);
    }
  }

  // ----- the anomaly multiplier

  /** What is assumed of the square root. */
  ghost predicate Exact(sqrt: real -> real) {
    forall v :: v >= 0.0 ==> sqrt(v) >= 0.0 && Square(sqrt(v)) == v
  }

  /** The sample variance; zero below two observations. */
  function Variance(s: Stats): real {
    if s.n < 2 then 0.0 else s.m2 / (s.n - 1) as real
  }

  function StdDev(s: Stats, sqrt: real -> real): real {
    if s.n < 2 then 0.0 else sqrt(Variance(s))
  }

  function Abs(x: real): real {
    if x < 0.0 then -x else x
  }

  /** How many standard deviations `sd` a value lies from the mean. */
  function ZScore(s: Stats, sd: real, x: real): real {
    if sd == 0.0 then 0.0 else (x - s.mean) / sd
  }

  function Factor(z: real): real {
    if z >= 3.0 then 1.8 else if z >= 2.0 then 1.3 else if z >= 1.0 then 1.0 else 0.7
  }

  function Multiplier(s: Stats, sqrt: real -> real, x: real): real {
    if s.n < MIN_OBSERVATIONS then 1.0 else Factor(Abs(ZScore(s, StdDev(s, sqrt), x)))
  }

  /** `sd` is the square root of the variance. */
  ghost predicate Root(s: Stats, sd: real) {
    sd >= 0.0 && Square(sd) == Variance(s)
  }

  lemma {:induction false} StdDevIsRoot(xs: seq<real>, sqrt: real -> real)
    requires Exact(sqrt)
    ensures Root(Fold(xs), StdDev(Fold(xs), sqrt))
  {
    var s := Fold(xs);
    WelfordIsExact(xs);
    hide Fold, Square;
    if s.n < 2 {
      ZeroSquare();
    } else {
      Quotient(s.m2, (s.n - 1) as real);
    }
  }

  lemma {:induction false} ZeroSquare()
    ensures Square(0.0) == 0.0
  {
  }

  lemma {:induction false} Quotient(a: real, n: real)
    requires a >= 0.0 && n > 0.0
    ensures a / n >= 0.0
  {
  }

  lemma {:induction false} AbsDivided(d: real, sd: real)
    requires sd > 0.0
    ensures Abs(d / sd) == Abs(d) / sd
  {
    if d < 0.0 {
      assert d / sd < 0.0;
    }
  }

  lemma {:induction false} QuotientAtLeast(a: real, sd: real, k: real)
    requires sd > 0.0
    ensures a / sd >= k <==> a >= k * sd
  {
    assert a == (a / sd) * sd;
    if a / sd >= k {
      assert (a / sd - k) * sd >= 0.0;
    } else {
      assert (k - a / sd) * sd > 0.0;
    }
  }

  lemma {:induction false} QuotientMonotone(a: real, b: real, sd: real)
    requires sd > 0.0 && a <= b
    ensures a / sd <= b / sd
  {
  }

  /** The further from the mean, the larger the multiplier. */
  lemma {:induction false} MultiplierIsMonotone(xs: seq<real>, sqrt: real -> real, x: real, y: real)
    requires Exact(sqrt) && Abs(x - Fold(xs).mean) <= Abs(y - Fold(xs).mean)
    ensures Multiplier(Fold(xs), sqrt, x) <= Multiplier(Fold(xs), sqrt, y)
  {
    var s := Fold(xs);
    var sd := StdDev(s, sqrt);
    StdDevIsRoot(xs, sqrt);
    hide Fold, StdDev, Variance, Square;
    if sd > 0.0 {
      AbsDivided(x - s.mean, sd);
      AbsDivided(y - s.mean, sd);
      QuotientMonotone(Abs(x - s.mean), Abs(y - s.mean), sd);
    }
  }

  lemma {:induction false} ProductSign(x: real, y: real)
    ensures x > 0.0 && y > 0.0 ==> Times(x, y) > 0.0
    ensures x >= 0.0 && y >= 0.0 ==> Times(x, y) >= 0.0
  {
  }

  lemma {:induction false} DifferenceOfSquares(a: real, b: real)
    ensures Square(b) - Square(a) == Times(b - a, b + a)
  {
  }

  lemma {:induction false} SquareMonotone(a: real, b: real)
    requires a >= 0.0 && b >= 0.0
    ensures a >= b <==> Square(a) >= Square(b)
  {
    hide Times, Square;
    DifferenceOfSquares(a, b);
    DifferenceOfSquares(b, a);
    ProductSign(b - a, b + a);
    ProductSign(a - b, a + b);
  }

  lemma {:induction false} SquareOfScaled(k: real, sd: real)
    ensures Square(k * sd) == Times(Square(k), Square(sd))
  {
    assert (k * sd) * (k * sd) == (k * k) * (sd * sd);
  }

  /** A value reaches a multiple `k` of the standard deviation exactly if its squared distance reaches k^2 variances. */
  lemma {:induction false} ReachesIff(s: Stats, sd: real, x: real, k: real)
    requires Root(s, sd) && sd > 0.0 && k >= 0.0
    ensures Abs(ZScore(s, sd, x)) >= k <==> Square(x - s.mean) >= Times(Square(k), Variance(s))
  {
    var d := x - s.mean;
    hide Times, Square, Variance;
    AbsDivided(d, sd);
    QuotientAtLeast(Abs(d), sd, k);
    assert k * sd >= 0.0;
    SquareMonotone(Abs(d), k * sd);
    SquareOfScaled(k, sd);
    SquareOfNegative(d);
  }

  /** Below five observations nothing counts as unusual. */
  lemma {:induction false} FewObservations(xs: seq<real>, sqrt: real -> real, x: real)
    requires |xs| < 5
    ensures Multiplier(Fold(xs), sqrt, x) == 1.0
  {
    WelfordIsExact(xs);
    hide Fold;
  }

  /** The variance is the sum of the squared distances from the mean, divided by one less than their number. */
  lemma {:induction false} VarianceIsExact(xs: seq<real>)
    requires |xs| >= 2
    ensures Times((|xs| - 1) as real, Variance(Fold(xs))) == Deviation(xs, Fold(xs).mean)
  {
    WelfordIsExact(xs);
    hide Fold;
    Divided(Fold(xs).m2, (|xs| - 1) as real);
  }

  /** The four outcomes in terms of squared distance and variance of the history, without a root. */
  lemma {:induction false} MultiplierIff(xs: seq<real>, sqrt: real -> real, x: real)
    requires Exact(sqrt) && |xs| >= 5
    ensures var far, v, m := Square(x - Fold(xs).mean), Variance(Fold(xs)), Multiplier(Fold(xs), sqrt, x);
            && (m == 1.8 <==> v > 0.0 && far >= 9.0 * v)
            && (m == 1.3 <==> v > 0.0 && 4.0 * v <= far < 9.0 * v)
            && (m == 1.0 <==> v > 0.0 && v <= far < 4.0 * v)
            && (m == 0.7 <==> v == 0.0 || far < v)
  {
    var s := Fold(xs);
    var sd := StdDev(s, sqrt);
    WelfordIsExact(xs);
    StdDevIsRoot(xs, sqrt);
    RootPositive(s, sd);
    hide Fold, StdDev, Variance;
    if sd > 0.0 {
      ReachesIff(s, sd, x, 3.0);
      ReachesIff(s, sd, x, 2.0);
      ReachesIff(s, sd, x, 1.0);
    }
  }

  lemma {:induction false} RootPositive(s: Stats, sd: real)
    requires Root(s, sd)
    ensures Variance(s) >= 0.0 && (sd > 0.0 <==> Variance(s) > 0.0)
  {
    hide Variance, Square, Times;
    ProductSign(sd, sd);
    TimesLinear(sd, 0.0, 0.0);
  }

  lemma {:induction false} DeviationOfConstant(xs: seq<real>, v: real)
    requires forall i :: 0 <= i < |xs| ==> xs[i] == v
    ensures Deviation(xs, v) == 0.0 && Sum(xs) == Times(|xs| as real, v)
  {
    if xs != [] {
      DeviationOfConstant(xs[..|xs| - 1], v);
    }
  }

  /** A history of equal values has no spread: every later value, however far off, counts as normal. */
  lemma {:induction false} ConstantHistoryHidesOutliers(xs: seq<real>, v: real, sqrt: real -> real, x: real)
    requires |xs| >= MIN_OBSERVATIONS && forall i :: 0 <= i < |xs| ==> xs[i] == v
    requires Exact(sqrt)
    ensures Multiplier(Fold(xs), sqrt, x) == 0.7
  {
    MultiplierIff(xs, sqrt, x);
    hide Times, Square, Fold, Sum, Deviation, Multiplier;
    WelfordIsExact(xs);
    DeviationOfConstant(xs, v);
    SameMean(|xs| as real, Fold(xs).mean, v);
    assert Variance(Fold(xs)) == 0.0;
  }

  /** How many of the values lie at least the square root of `t` away from `m`. */
  ghost function Outliers(xs: seq<real>, m: real, t: real): nat {
    if xs == [] then 0 else Outliers(xs[..|xs| - 1], m, t) + if Square(xs[|xs| - 1] - m) >= t then 1 else 0
  }

  lemma {:induction false} OutliersWeigh(xs: seq<real>, m: real, t: real)
    requires t >= 0.0
    ensures Times(Outliers(xs, m, t) as real, t) <= Deviation(xs, m)
  {
    hide Times, Square;
    if xs == [] {
      TimesLinear(t, 0.0, 0.0);
    } else {
      OutliersWeigh(xs[..|xs| - 1], m, t);
      TimesLinear(t, Outliers(xs[..|xs| - 1], m, t) as real, 1.0);
    }
  }

  /** Judged by their own baseline, at most one in nine of the observations gets the largest multiplier. */
  lemma {:induction false} OutliersAreRare(xs: seq<real>)
    requires |xs| >= MIN_OBSERVATIONS && Variance(Fold(xs)) > 0.0
    ensures 9 * Outliers(xs, Fold(xs).mean, 9.0 * Variance(Fold(xs))) <= |xs| - 1
  {
    var s := Fold(xs);
    var v := Variance(s);
    var k := Outliers(xs, s.mean, 9.0 * v);
    WelfordIsExact(xs);
    OutliersWeigh(xs, s.mean, 9.0 * v);
    hide Fold, Outliers, Deviation, Sum;
    assert Times((|xs| - 1) as real, v) == s.m2 by {
      Divided(s.m2, (|xs| - 1) as real);
    }
    Cancel(k as real, (|xs| - 1) as real, v);
  }

  lemma {:induction false} NineTimes(k: real, n: real, v: real)
    ensures Times(n, v) - Times(k, 9.0 * v) == Times(n - 9.0 * k, v)
    ensures Times(k, 9.0 * v) - Times(n, v) == Times(9.0 * k - n, v)
  {
    assert k * (9.0 * v) == (9.0 * k) * v;
  }

  lemma {:induction false} Cancel(k: real, n: real, v: real)
    requires v > 0.0
    ensures Times(k, 9.0 * v) <= Times(n, v) <==> 9.0 * k <= n
  {
    hide Times;
    NineTimes(k, n, v);
    ProductSign(n - 9.0 * k, v);
    ProductSign(9.0 * k - n, v);
  }

  // ----- the entry object

  class Entry {
    var n: nat
    var meanB: real
    var m2B: real
    var lastSeen: int

    ghost function Value(): Stats
      reads `n, `meanB, `m2B
    {
      Stats(n, meanB, m2B)
    }

    constructor ()
      ensures Value() == NOTHING && lastSeen == 0
    {
      n, meanB, m2B, lastSeen := 0, 0.0, 0.0, 0;
    }

    /** stddev. */
    method Stddev(sqrt: real -> real) returns (sd: real)
      ensures sd == StdDev(Value(), sqrt)
    {
      if n < 2 {
        return 0.0;
      }
      sd := sqrt(m2B / (n - 1) as real);
    }

    /** zScore. */
    method ZScoreOf(x: real, sqrt: real -> real) returns (z: real)
      ensures z == ZScore(Value(), StdDev(Value(), sqrt), x)
    {
      var sd := Stddev(sqrt);
      if sd == 0.0 {
        return 0.0;
      }
      z := (x - meanB) / sd;
    }

    /** observe. */
    method Observe(x: real)
      modifies `n, `meanB, `m2B
      ensures Value() == Observed(old(Value()), x)
    {
      n := n + 1;
      var delta := x - meanB;
      meanB := meanB + delta / n as real;
      var delta2 := x - meanB;
      m2B := m2B + Times(delta, delta2);
    }
  }
}
