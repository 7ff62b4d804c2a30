/** Levinson-Durbin recursion of computeLP.c in exact arithmetic, for any order. */
module LevinsonDurbin {
  import opened RealSums
  import FixedPoint

  /** Row m of the Toeplitz system: sum over j < n of a[j] * r[|m-j|]. */
  function Row(a: seq<real>, r: seq<real>, m: int, n: nat): real {
    Sum(n, j => At(a, j) * Lag(r, m - j))
  }

  /** The autocorrelation is an even function of the lag. */
  function Lag(r: seq<real>, d: int): real {
    At(r, FixedPoint.Abs(d))
  }

  function Ratio(x: real, y: real): real {
    if y == 0.0 then 0.0 else x / y
  }

  /** Division as the code performs it: the divisor must not be zero. */
  function Quotient(x: real, y: real): (q: real)
    requires y != 0.0
    ensures q == Ratio(x, y) && q * y == x
  {
    x / y
  }

  /** Predictor and residual energy after i iterations. */
  datatype Stage = Stage(a: seq<real>, e: real)

  /** The reflection coefficient computed from a stage. */
  function Reflection(s: Stage, r: seq<real>): real {
    -Ratio(Row(s.a, r, |s.a|, |s.a|), s.e)
  }

  /** The predictor read backwards, one place later. */
  function Mirror(a: seq<real>): seq<real> {
    seq(|a| + 1, j => At(a, |a| - j))
  }

  function Grow(a: seq<real>, k: real): seq<real> {
    seq(|a| + 1, j => At(a, j) + k * At(a, |a| - j))
  }

  function Shrink(e: real, k: real): real {
    e * (1.0 - k * k)
  }

  function Next(s: Stage, r: seq<real>): Stage {
    var k := Reflection(s, r);
    Stage(Grow(s.a, k), Shrink(s.e, k))
  }

  function Levinson(r: seq<real>, i: nat): Stage {
    if i == 0 then Stage([1.0], At(r, 0)) else Next(Levinson(r, i - 1), r)
  }

  /** The reflection coefficients of the first n iterations. */
  function Reflections(r: seq<real>, n: nat): seq<real> {
    if n == 0 then [] else Reflections(r, n - 1) + [Reflection(Levinson(r, n - 1), r)]
  }

  /** No iteration up to order p divides by zero. */
  ghost predicate Regular(r: seq<real>, p: nat) {
    forall i :: 0 <= i < p ==> Levinson(r, i).e != 0.0
  }

  /** a is monic and solves the normal equations of order |a|-1 with residual energy e. */
  ghost predicate SolvesNormalEquations(a: seq<real>, r: seq<real>, e: real) {
    && |a| > 0 && a[0] == 1.0
    && Row(a, r, 0, |a|) == e
    && forall m :: 1 <= m < |a| ==> Row(a, r, m, |a|) == 0.0
  }

  /** Reading a predictor backwards mirrors the row index. */
  lemma RowMirrored(a: seq<real>, r: seq<real>, m: int)
    ensures Row(Mirror(a), r, m, |a| + 1) == Row(a, r, |a| - m, |a| + 1)
  {
    var n := |a|;
    var f := (j: int) => At(a, j) * Lag(r, n - m - j);
    var g := (j: int) => At(Mirror(a), j) * Lag(r, m - j);
    forall j | 0 <= j < n + 1
      ensures g(j) == f(n + 1 - 1 - j)
    {
      assert Lag(r, m - j) == Lag(r, n - m - (n - j));
      assert At(Mirror(a), j) == At(a, n - j);
    }
    SumReverse(n + 1, f, g);
  }

  /** One zero more at the end changes no row. */
  lemma RowExtended(a: seq<real>, r: seq<real>, m: int)
    ensures Row(a, r, m, |a| + 1) == Row(a, r, m, |a|)
  {
  }

  lemma Distribute(x: real, y: real, k: real, l: real)
    ensures (x + k * y) * l == x * l + k * (y * l)
  {
  }

  lemma RowCombination(a: seq<real>, b: seq<real>, c: seq<real>, r: seq<real>, k: real, m: int, n: nat)
    requires forall j :: 0 <= j < n ==> At(c, j) == At(a, j) + k * At(b, j)
    ensures Row(c, r, m, n) == Row(a, r, m, n) + k * Row(b, r, m, n)
  {
    var f := (j: int) => At(a, j) * Lag(r, m - j);
    var g := (j: int) => At(b, j) * Lag(r, m - j);
    var h := (j: int) => At(c, j) * Lag(r, m - j);
    forall j | 0 <= j < n
      ensures h(j) == f(j) + k * g(j)
    {
      Distribute(At(a, j), At(b, j), k, Lag(r, m - j));
    }
    SumLinear(n, f, g, h, k);
  }

  lemma GrowRow(a: seq<real>, r: seq<real>, k: real, m: int)
    ensures Row(Grow(a, k), r, m, |a| + 1) == Row(a, r, m, |a|) + k * Row(a, r, |a| - m, |a|)
  {
    var n := |a|;
    RowCombination(a, Mirror(a), Grow(a, k), r, k, m, n + 1);
    RowMirrored(a, r, m);
    RowExtended(a, r, m);
    RowExtended(a, r, n - m);
  }

  lemma StepSolves(s: Stage, r: seq<real>)
    requires SolvesNormalEquations(s.a, r, s.e) && s.e != 0.0
    ensures SolvesNormalEquations(Next(s, r).a, r, Next(s, r).e)
  {
    var n := |s.a|;
    var k := Reflection(s, r);
    ReflectionCancels(Row(s.a, r, n, n), s.e);
    GrowRow(s.a, r, k, 0);
    forall m {:trigger Row(Grow(s.a, k), r, m, n + 1)} | 1 <= m <= n
      ensures Row(Grow(s.a, k), r, m, n + 1) == 0.0
    {
      GrowRow(s.a, r, k, m);
    }
  }

  lemma ReflectionCancels(d: real, e: real)
    requires e != 0.0
    ensures d + -Ratio(d, e) * e == 0.0
    ensures e + -Ratio(d, e) * d == e * (1.0 - Ratio(d, e) * Ratio(d, e))
  {
    var k := Ratio(d, e);
    assert k * e == d;
    assert k * d == k * (k * e) == e * (k * k);
    assert e * (1.0 - k * k) == e - e * (k * k);
  }

  /** Every order reached without a division by zero solves its normal equations. */
  lemma {:induction false} NormalEquations(r: seq<real>, p: nat)
    requires Regular(r, p)
    ensures |Levinson(r, p).a| == p + 1
    ensures SolvesNormalEquations(Levinson(r, p).a, r, Levinson(r, p).e)
  {
    if p == 0 {
      RowOfOne(r, 0);
    } else {
      NormalEquations(r, p - 1);
      StepSolves(Levinson(r, p - 1), r);
    }
  }

  lemma RowOfOne(r: seq<real>, m: int)
    ensures Row([1.0], r, m, 1) == Lag(r, m)
  {
    var term := (j: int) => At([1.0], j) * Lag(r, m - j);
    assert Sum(1, term) == Sum(0, term) + term(0);
  }

  /** sum = r[i] + sum over 1 <= j < i of a[j] * r[i-j] */
  method PredictionSum(lp: array<real>, r: seq<real>, i: nat) returns (sum: real)
    requires 1 <= i < lp.Length && i < |r| && lp[0] == 1.0
    ensures sum == Row(lp[..i], r, i, i)
  {
    ghost var a := lp[..i];
    ghost var term := (m: int) => At(a, m) * Lag(r, i - m);
    assert Sum(1, term) == r[i] by {
      assert Sum(1, term) == Sum(0, term) + term(0);
    }
    sum := 0.0;
    var j := 1;
    while j < i
      invariant 1 <= j <= i
      invariant lp[..i] == a
      invariant sum + r[i] == Sum(j, term)
    {
      sum := sum + lp[j] * r[i - j];
      assert term(j) == lp[j] * r[i - j];
      j := j + 1;
    }
    sum := sum + r[i];
  }

  /** a[j] += a[i] * previous[i-j] for 1 <= j < i, in place. */
  method UpdatePredictor(lp: array<real>, previous: array<real>, i: nat)
    requires 1 <= i < lp.Length && i < previous.Length && lp != previous
    requires lp[0] == 1.0
    requires forall m :: 1 <= m < i ==> previous[m] == lp[m]
    modifies lp
    ensures lp[..i + 1] == Grow(old(lp[..i]), old(lp[i]))
    ensures lp[i + 1..] == old(lp[i + 1..])
  {
    ghost var a, k := lp[..i], lp[i];
    ghost var grown := Grow(a, k);
    var j := 1;
    while j < i
      invariant 1 <= j <= i
      invariant lp[i] == k && lp[0] == 1.0
      invariant lp[i + 1..] == old(lp[i + 1..])
      invariant forall m :: 1 <= m < j ==> lp[m] == grown[m]
      invariant forall m :: j <= m < i ==> lp[m] == a[m]
    {
      lp[j] := lp[j] + lp[i] * previous[i - j];
      j := j + 1;
    }
    assert k * a[0] == k;
    assert lp[..i + 1] == grown;
  }

  /** The state after iteration 1, set directly before the loop. */
  method FirstIteration(lp: array<real>, r: seq<real>) returns (k: real, residualEnergy: real)
    requires lp.Length > 1 && |r| > 1 && Levinson(r, 0).e != 0.0
    modifies lp
    ensures k == Reflection(Levinson(r, 0), r)
    ensures lp[..2] == Levinson(r, 1).a && residualEnergy == Levinson(r, 1).e
  {
    k := -Quotient(r[1], r[0]);
    lp[0], lp[1] := 1.0, k;
    residualEnergy := Shrink(r[0], k);
    FirstStage(r, Reflection(Levinson(r, 0), r));
    assert lp[..2] == [1.0, k];
  }

  /** Iteration i of the outer loop: from the stage of order i-1 to the stage of order i. */
  method Iterate(lp: array<real>, r: seq<real>, i: nat, e: real) returns (k: real, residualEnergy: real)
    requires 2 <= i < lp.Length && i < |r|
    requires lp[..i] == Levinson(r, i - 1).a && e == Levinson(r, i - 1).e
    requires lp[0] == 1.0 && e != 0.0
    modifies lp
    ensures k == Reflection(Levinson(r, i - 1), r)
    ensures lp[..i + 1] == Levinson(r, i).a && residualEnergy == Levinson(r, i).e
  {
    var previous := new real[i + 1];
    var j := 1;
    while j < i
      invariant 1 <= j <= i
      invariant lp[..i] == old(lp[..i])
      invariant forall m :: 1 <= m < j ==> previous[m] == lp[m]
    {
      previous[j] := lp[j];
      j := j + 1;
    }
    var sum := PredictionSum(lp, r, i);
    k := -Quotient(sum, e);
    lp[i] := k;
    assert lp[..i] == old(lp[..i]);
    assert k == Reflection(Levinson(r, i - 1), r);
    UpdatePredictor(lp, previous, i);
    residualEnergy := Shrink(e, k);
  }

  /** The monic solution of regular normal equations, with its reflection coefficients. */
  method AutoCorrelation2LP(r: seq<real>, p: nat)
    returns (lp: array<real>, reflection: array<real>, residualEnergy: real)
    requires p >= 1 && |r| > p && Regular(r, p)
    ensures fresh(lp) && fresh(reflection)
    ensures lp[..] == Levinson(r, p).a && residualEnergy == Levinson(r, p).e
    ensures SolvesNormalEquations(lp[..], r, residualEnergy)
    ensures reflection[..] == Reflections(r, p)
  {
    hide Levinson, Reflection, Reflections, SolvesNormalEquations;
    lp := new real[p + 1];
    reflection := new real[p];
    assert Levinson(r, 0).e != 0.0;
    reflection[0], residualEnergy := FirstIteration(lp, r);
    NextReflection(r, 0);
    assert reflection[..1] == Reflections(r, 0) + [reflection[0]];
    var i := 2;
    while i < p + 1
      invariant 2 <= i <= p + 1
      invariant lp[..i] == Levinson(r, i - 1).a
      invariant residualEnergy == Levinson(r, i - 1).e
      invariant reflection[..i - 1] == Reflections(r, i - 1)
    {
      Monic(r, i - 1);
      assert lp[0] == lp[..i][0];
      NextReflection(r, i - 1);
      reflection[i - 1], residualEnergy := Iterate(lp, r, i, residualEnergy);
      assert reflection[..i] == reflection[..i - 1] + [reflection[i - 1]];
      i := i + 1;
    }
    NormalEquations(r, p);
    assert lp[..] == lp[..p + 1] && reflection[..] == reflection[..p];
  }

  lemma NextReflection(r: seq<real>, n: nat)
    ensures Reflections(r, 0) == [] && Reflections(r, n + 1) == Reflections(r, n) + [Reflection(Levinson(r, n), r)]
  {
  }

  lemma Monic(r: seq<real>, n: nat)
    requires |r| > n && Regular(r, n)
    ensures |Levinson(r, n).a| == n + 1 && Levinson(r, n).a[0] == 1.0
  {
    NormalEquations(r, n);
  }

  lemma GrowOne(k: real)
    ensures Grow([1.0], k) == [1.0, k]
  {
    assert At([1.0], 0) == 1.0 && At([1.0], 1) == 0.0;
    assert Grow([1.0], k)[1] == At([1.0], 1) + k * At([1.0], 0);
    assert Grow([1.0], k)[0] == At([1.0], 0) + k * At([1.0], 1);
  }

  lemma FirstStage(r: seq<real>, k: real)
    requires |r| > 1 && k == Reflection(Levinson(r, 0), r)
    ensures k == -Ratio(r[1], r[0])
    ensures Levinson(r, 1) == Stage([1.0, k], Shrink(r[0], k))
  {
    RowOfOne(r, 1);
    GrowOne(k);
  }
}
