/** The Toeplitz quadratic form behind linear prediction, and the energy of a predictor. */
module QuadraticForms {
  import opened RealSums
  import opened LevinsonDurbin

  /** sum over i, j < n of x[i] * y[j] * r[|i-j|] */
  function Form(x: seq<real>, y: seq<real>, r: seq<real>, n: nat): real {
    Sum(n, i => At(x, i) * Row(y, r, i, n))
  }

  /** No combination of delayed signals has negative energy. */
  ghost predicate PositiveSemidefinite(r: seq<real>, n: nat) {
    forall v: seq<real> :: |v| <= n ==> Form(v, v, r, |v|) >= 0.0
  }

  lemma FormLinearLeft(x: seq<real>, z: seq<real>, w: seq<real>, y: seq<real>, r: seq<real>, c: real, n: nat)
    requires forall i :: 0 <= i < n ==> At(w, i) == At(x, i) + c * At(z, i)
    ensures Form(w, y, r, n) == Form(x, y, r, n) + c * Form(z, y, r, n)
  {
    var f := (i: int) => At(x, i) * Row(y, r, i, n);
    var g := (i: int) => At(z, i) * Row(y, r, i, n);
    var h := (i: int) => At(w, i) * Row(y, r, i, n);
    forall i | 0 <= i < n
      ensures h(i) == f(i) + c * g(i)
    {
      Distribute(At(x, i), At(z, i), c, Row(y, r, i, n));
    }
    SumLinear(n, f, g, h, c);
  }

  function Times(x: real, y: real, l: real): real {
    x * (y * l)
  }

  lemma TimesCommutes(x: real, y: real, l: real)
    ensures Times(x, y, l) == y * (x * l)
  {
  }

  lemma FormRow(x: real, y: seq<real>, r: seq<real>, i: int, n: nat, f: int -> real)
    requires forall j {:trigger f(j)} :: 0 <= j < n ==> f(j) == Times(x, At(y, j), Lag(r, i - j))
    ensures Sum(n, f) == x * Row(y, r, i, n)
  {
    SumScale(n, j => At(y, j) * Lag(r, i - j), f, x);
  }

  lemma FormColumn(x: seq<real>, y: real, r: seq<real>, j: int, n: nat, f: int -> real)
    requires forall i {:trigger f(i)} :: 0 <= i < n ==> f(i) == Times(At(x, i), y, Lag(r, i - j))
    ensures Sum(n, f) == y * Row(x, r, j, n)
  {
    forall i | 0 <= i < n
      ensures f(i) == Times(y, At(x, i), Lag(r, j - i))
    {
      assert Lag(r, i - j) == Lag(r, j - i);
      TimesCommutes(At(x, i), y, Lag(r, i - j));
    }
    FormRow(y, x, r, j, n, f);
  }

  lemma FormSymmetric(x: seq<real>, y: seq<real>, r: seq<real>, n: nat)
    ensures Form(x, y, r, n) == Form(y, x, r, n)
  {
    var f := (i: int, j: int) => Times(At(x, i), At(y, j), Lag(r, i - j));
    var rows := (i: int) => At(x, i) * Row(y, r, i, n);
    var columns := (j: int) => At(y, j) * Row(x, r, j, n);
    forall i | 0 <= i < n
      ensures rows(i) == Sum(n, j => f(i, j))
    {
      FormRow(At(x, i), y, r, i, n, j => f(i, j));
    }
    forall j | 0 <= j < n
      ensures columns(j) == Sum(n, i => f(i, j))
    {
      FormColumn(x, At(y, j), r, j, n, i => f(i, j));
    }
    SumSwapNamed(n, n, f, rows, columns);
  }

  function Minus(b: seq<real>, a: seq<real>): seq<real>
    requires |a| == |b|
  {
    seq(|b|, i requires 0 <= i < |b| => b[i] - a[i])
  }

  /** Orthogonality: a change that keeps the predictor monic does not correlate with its residual. */
  lemma ResidualOrthogonal(d: seq<real>, a: seq<real>, r: seq<real>, e: real)
    requires SolvesNormalEquations(a, r, e) && |d| == |a| && d[0] == 0.0
    ensures Form(d, a, r, |a|) == 0.0
  {
    var n := |a|;
    var f := (i: int) => At(d, i) * Row(a, r, i, n);
    forall i | 0 <= i < n
      ensures f(i) == 0.0
    {
      if i > 0 {
        assert Row(a, r, i, n) == 0.0;
      }
    }
    SumZero(n, f);
  }

  /** The energy of the solution itself. */
  lemma SolutionEnergy(a: seq<real>, r: seq<real>, e: real)
    requires SolvesNormalEquations(a, r, e)
    ensures Form(a, a, r, |a|) == e
  {
    var n := |a|;
    var unit := seq(n, i => if i == 0 then 1.0 else 0.0);
    var d := Minus(a, unit);
    FormLinearLeft(unit, d, a, a, r, 1.0, n);
    ResidualOrthogonal(d, a, r, e);
    var f := (i: int) => At(unit, i) * Row(a, r, i, n);
    var tail := (i: int) => f(1 + i);
    SumSplit(1, n - 1, f, tail);
    SumZero(n - 1, tail);
    assert Sum(1, f) == Sum(0, f) + f(0);
  }

  /** The energy of any other monic predictor exceeds it by the form of the difference. */
  lemma EnergyAboveSolution(b: seq<real>, a: seq<real>, r: seq<real>, e: real)
    requires SolvesNormalEquations(a, r, e) && |b| == |a| && b[0] == 1.0
    ensures Form(b, b, r, |b|) == e + Form(Minus(b, a), Minus(b, a), r, |b|)
  {
    var n := |a|;
    var d := Minus(b, a);
    FormLinearLeft(a, d, b, b, r, 1.0, n);
    FormSymmetric(a, b, r, n);
    FormLinearLeft(a, d, b, a, r, 1.0, n);
    FormSymmetric(d, b, r, n);
    FormLinearLeft(a, d, b, d, r, 1.0, n);
    FormSymmetric(a, d, r, n);
    ResidualOrthogonal(d, a, r, e);
    SolutionEnergy(a, r, e);
  }

  /** No monic predictor of the same order has less energy than the Levinson-Durbin one. */
  lemma LevinsonIsOptimal(b: seq<real>, r: seq<real>, p: nat)
    requires Regular(r, p) && PositiveSemidefinite(r, p + 1)
    requires |b| == p + 1 && b[0] == 1.0
    ensures Form(b, b, r, p + 1) >= Levinson(r, p).e
    ensures Form(Levinson(r, p).a, Levinson(r, p).a, r, p + 1) == Levinson(r, p).e
  {
    NormalEquations(r, p);
    var a := Levinson(r, p).a;
    EnergyAboveSolution(b, a, r, Levinson(r, p).e);
    SolutionEnergy(a, r, Levinson(r, p).e);
    assert Form(Minus(b, a), Minus(b, a), r, |Minus(b, a)|) >= 0.0;
  }

  /** Reflection coefficients stay inside (-1, 1) and energies stay positive, as the Q31 format assumes. */
  lemma ReflectionInsideUnitInterval(r: seq<real>, p: nat)
    requires Regular(r, p + 1) && Levinson(r, p + 1).e != 0.0 && PositiveSemidefinite(r, p + 2)
    ensures 0.0 < Levinson(r, p + 1).e <= Levinson(r, p).e
    ensures -1.0 < Reflection(Levinson(r, p), r) < 1.0
  {
    var s := Levinson(r, p);
    var k := Reflection(s, r);
    NormalEquations(r, p);
    NormalEquations(r, p + 1);
    SolutionEnergy(s.a, r, s.e);
    SolutionEnergy(Levinson(r, p + 1).a, r, Levinson(r, p + 1).e);
    assert Form(s.a, s.a, r, |s.a|) >= 0.0;
    assert Form(Levinson(r, p + 1).a, Levinson(r, p + 1).a, r, |Levinson(r, p + 1).a|) >= 0.0;
    assert Levinson(r, p + 1).e == Shrink(s.e, k);
    ShrinkBounds(s.e, k);
  }

  lemma NonPositiveProduct(x: real, y: real)
    requires x > 0.0 && y <= 0.0
    ensures x * y <= 0.0
  {
  }

  lemma ShrinkBounds(e: real, k: real)
    requires e > 0.0 && Shrink(e, k) > 0.0
    ensures -1.0 < k < 1.0 && Shrink(e, k) <= e
  {
    if 1.0 - k * k <= 0.0 {
      NonPositiveProduct(e, 1.0 - k * k);
      assert false;
    }
    assert e * (k * k) >= 0.0;
    assert Shrink(e, k) == e - e * (k * k);
  }
}
