/** The LPC filter comparison of dtx.c in its fixed-point format, against the exact quadratic form. */
module DtxFilters {
  import opened IntSums
  import opened FixedPoint
  import opened SumConversion
  import R = RealSums
  import QuadraticForms
  import FilterDistance

  /** Product of two coefficients, shifted; zero past the last one. */
  function ShiftedProduct(a: seq<int>, i: int, j: int, n: nat): int {
    Shr(At(a, i) * At(a, j), n)
  }

  /** Coefficient j in Q20, from p filter coefficients in Q12; the leading 1 is not stored. */
  function FixedCoefficient(lp: seq<int>, j: nat): int
    requires j <= |lp|
  {
    if j == 0 then 4096 * 4096 / 16 + Sum(|lp|, k => ShiftedProduct(lp, k, k, 4))
    else lp[j - 1] * 512 + Sum(|lp| - j, k => ShiftedProduct(lp, k, k + j, 3))
  }

  method ComputeLPCoefficientAutocorrelation(lp: seq<int>) returns (ra: array<int>)
    ensures fresh(ra) && ra.Length == |lp| + 1
    ensures forall j :: 0 <= j <= |lp| ==> ra[j] == FixedCoefficient(lp, j)
  {
    ra := new int[|lp| + 1];
    ra[0] := 4096 * 4096 / 16;
    var k := 0;
    while k < |lp|
      invariant 0 <= k <= |lp|
      invariant ra[0] == 4096 * 4096 / 16 + Sum(k, k => ShiftedProduct(lp, k, k, 4))
    {
      ra[0] := ra[0] + Shr(lp[k] * lp[k], 4);
      assert ShiftedProduct(lp, k, k, 4) == Shr(lp[k] * lp[k], 4);
      k := k + 1;
    }
    var j := 1;
    while j < |lp| + 1
      invariant 1 <= j <= |lp| + 1
      invariant forall i :: 0 <= i < j ==> ra[i] == FixedCoefficient(lp, i)
    {
      ra[j] := lp[j - 1] * 512;
      k := 0;
      while k < |lp| - j
        invariant 0 <= k <= |lp| - j
        invariant forall i :: 0 <= i < j ==> ra[i] == FixedCoefficient(lp, i)
        invariant ra[j] == lp[j - 1] * 512 + Sum(k, k => ShiftedProduct(lp, k, k + j, 3))
      {
        ra[j] := ra[j] + Shr(lp[k] * lp[k + j], 3);
        assert ShiftedProduct(lp, k, k + j, 3) == Shr(lp[k] * lp[k + j], 3);
        k := k + 1;
      }
      j := j + 1;
    }
  }

  /** eq B.12: 1 when the filters significantly differ. */
  method CompareLPCFilters(ra: seq<int>, r: seq<int>, residualEnergy: int, threshold: int) returns (flag: int)
    requires |ra| == |r|
    ensures flag == if Sum(|r|, i => At(ra, i) * At(r, i)) >= residualEnergy * threshold then 1 else 0
  {
    var acc := 0;
    var i := 0;
    while i < |r|
      invariant 0 <= i <= |r|
      invariant acc == Sum(i, i => At(ra, i) * At(r, i))
    {
      acc := acc + ra[i] * r[i];
      i := i + 1;
    }
    flag := if acc >= residualEnergy * threshold then 1 else 0;
  }

  /** The filter with its leading coefficient, in Q12. */
  function Taps(lp: seq<int>): seq<int> {
    [4096] + lp
  }

  /** Coefficient j without rounding, in Q24. */
  function ExactCoefficient(lp: seq<int>, j: nat): int
    requires j <= |lp|
  {
    if j == 0 then Sum(|lp| + 1, k => At(Taps(lp), k) * At(Taps(lp), k))
    else 2 * Sum(|lp| + 1 - j, k => At(Taps(lp), k) * At(Taps(lp), k + j))
  }

  /** What dropping bits from n products costs: every term loses less than slack. */
  lemma {:induction false} RoundingLoss(n: nat, exact: int -> int, fixed: int -> int, scale: int, slack: int)
    requires forall k {:trigger exact(k)} {:trigger fixed(k)} :: 0 <= k < n ==>
             0 <= exact(k) - scale * fixed(k) <= slack
    ensures 0 <= Sum(n, exact) - scale * Sum(n, fixed) <= n * slack
  {
    if n > 0 {
      RoundingLoss(n - 1, exact, fixed, scale, slack);
      assert 0 <= exact(n - 1) - scale * fixed(n - 1) <= slack;
      assert scale * Sum(n, fixed) == scale * Sum(n - 1, fixed) + scale * fixed(n - 1);
      assert n * slack == (n - 1) * slack + slack;
    }
  }

  lemma ShiftedProductsLoss(lp: seq<int>, n: nat, j: nat, b: nat)
    ensures 0 <= Sum(n, k => At(lp, k) * At(lp, k + j)) - Pow2(b) * Sum(n, k => ShiftedProduct(lp, k, k + j, b))
              <= n * (Pow2(b) - 1)
  {
    hide At, ShiftedProduct, Pow2;
    var exact := (k: int) => At(lp, k) * At(lp, k + j);
    var fixed := (k: int) => ShiftedProduct(lp, k, k + j, b);
    forall k | 0 <= k < n
      ensures 0 <= exact(k) - Pow2(b) * fixed(k) <= Pow2(b) - 1
    {
      ProductLoss(lp, k, k + j, b);
    }
    RoundingLoss(n, exact, fixed, Pow2(b), Pow2(b) - 1);
  }

  /** The exact sum with the products of the stored, implicit first tap split off. */
  lemma FirstProduct(lp: seq<int>, n: nat, j: nat)
    requires j + n <= |lp|
    ensures Sum(n + 1, k => At(Taps(lp), k) * At(Taps(lp), k + j))
         == 4096 * (if j == 0 then 4096 else lp[j - 1]) + Sum(n, k => At(lp, k) * At(lp, k + j))
  {
    hide At, Taps;
    var all := (k: int) => At(Taps(lp), k) * At(Taps(lp), k + j);
    var exact := (k: int) => At(lp, k) * At(lp, k + j);
    forall k | 0 <= k < n
      ensures exact(k) == all(1 + k)
    {
      TapsAt(lp, k);
      TapsAt(lp, k + j);
      assert 1 + k + j == 1 + (k + j);
    }
    SumSplit(1, n, all, exact);
    assert Sum(1, all) == Sum(0, all) + all(0);
    FirstTap(lp, j);
  }

  /** The Q20 coefficient is the exact one rounded down, never by more than one unit a product. */
  lemma FixedCoefficientClose(lp: seq<int>, j: nat)
    requires j <= |lp|
    ensures 0 <= ExactCoefficient(lp, j) - 16 * FixedCoefficient(lp, j) <= 15 * |lp|
  {
    hide At, Taps, ShiftedProduct;
    var p := |lp|;
    var taps := Taps(lp);
    Powers();
    FirstProduct(lp, p - j, j);
    if j == 0 {
      ShiftedProductsLoss(lp, p, 0, 4);
      SumCong(p + 1, k => At(taps, k) * At(taps, k + j), k => At(taps, k) * At(taps, k));
      SumCong(p, k => ShiftedProduct(lp, k, k + j, 4), k => ShiftedProduct(lp, k, k, 4));
    } else {
      ShiftedProductsLoss(lp, p - j, j, 3);
    }
  }

  lemma ProductLoss(a: seq<int>, i: int, j: int, n: nat)
    ensures 0 <= At(a, i) * At(a, j) - Pow2(n) * ShiftedProduct(a, i, j, n) <= Pow2(n) - 1
  {
    hide At, Pow2;
    ShiftBounds(At(a, i) * At(a, j), n);
    assert Pow2(n) * ShiftedProduct(a, i, j, n) == ShiftedProduct(a, i, j, n) * Pow2(n);
  }

  lemma TapsAt(lp: seq<int>, k: int)
    requires k >= 0
    ensures At(Taps(lp), 1 + k) == At(lp, k)
  {
  }

  lemma FirstTap(lp: seq<int>, j: nat)
    requires j <= |lp|
    ensures At(Taps(lp), 0) * At(Taps(lp), 0 + j) == 4096 * (if j == 0 then 4096 else lp[j - 1])
  {
  }

  lemma ExactCoefficientAsReal(lp: seq<int>, j: nat)
    requires j <= |lp|
    ensures FilterDistance.FilterAutocorrelation(AsReals(Taps(lp)), j, |lp| + 1) == ExactCoefficient(lp, j) as real
  {
    hide At, R.At, Taps, AsReals;
    var taps := Taps(lp);
    var a := AsReals(taps);
    var f := (k: int) => At(taps, k) * At(taps, k + j);
    var g := (k: int) => R.At(a, k) * R.At(a, k + j);
    forall k
      ensures g(k) == f(k) as real
    {
      AtAsReal(taps, k);
      AtAsReal(taps, k + j);
      ProductAsReal(At(taps, k), At(taps, k + j));
    }
    SumAsReal(|lp| + 1 - j, f, g);
    if j == 0 {
      SumCong(|lp| + 1, f, k => At(taps, k) * At(taps, k));
      R.SumCong(|lp| + 1, g, k => R.At(a, k) * R.At(a, k));
    }
  }

  /** The exact distance of a Q12 filter from an integer autocorrelation, in Q24. */
  function ExactDistance(lp: seq<int>, r: seq<int>): int {
    Sum(|lp| + 1, j => ExactTerm(lp, r, j))
  }

  function ExactTerm(lp: seq<int>, r: seq<int>, j: int): int {
    if 0 <= j <= |lp| then ExactCoefficient(lp, j) * At(r, j) else 0
  }

  lemma ExactDistanceIsForm(lp: seq<int>, r: seq<int>)
    ensures ExactDistance(lp, r) as real
         == QuadraticForms.Form(AsReals(Taps(lp)), AsReals(Taps(lp)), AsReals(r), |lp| + 1)
  {
    hide At, R.At, Taps, AsReals, ExactCoefficient, FilterDistance.FilterAutocorrelation, QuadraticForms.Form;
    var n := |lp| + 1;
    var a := AsReals(Taps(lp));
    var g := (j: int) => FilterDistance.Weighted(a, AsReals(r), n, j);
    var f := (j: int) => ExactTerm(lp, r, j);
    forall j | 0 <= j < n
      ensures g(j) == f(j) as real
    {
      ExactCoefficientAsReal(lp, j);
      AtAsReal(r, j);
      ProductAsReal(ExactCoefficient(lp, j), At(r, j));
    }
    SumAsReal(n, f, g);
    FilterDistance.DistanceIsForm(a, AsReals(r), n);
  }

  /** ra holds the Q20 coefficients of the filter lp. */
  ghost predicate HoldsCoefficients(ra: seq<int>, lp: seq<int>) {
    |ra| == |lp| + 1 && forall j :: 0 <= j <= |lp| ==> ra[j] == FixedCoefficient(lp, j)
  }

  /** The accumulator of the comparison follows the exact distance within its rounding. */
  lemma FixedDistanceClose(lp: seq<int>, ra: seq<int>, r: seq<int>)
    requires HoldsCoefficients(ra, lp) && |r| == |ra|
    requires forall j :: 0 <= j < |r| ==> Abs(r[j]) <= r[0]
    ensures Abs(ExactDistance(lp, r) - 16 * Sum(|r|, i => At(ra, i) * At(r, i))) <= |r| * (15 * |lp| * r[0])
  {
    hide ExactCoefficient, FixedCoefficient;
    var n := |r|;
    var exact := (j: int) => ExactTerm(lp, r, j);
    var fixed := (i: int) => At(ra, i) * At(r, i);
    var gap := (j: int) => exact(j) + -16 * fixed(j);
    var bound := (j: int) => 15 * |lp| * r[0];
    SumLinear(n, exact, fixed, gap, -16);
    forall j | 0 <= j < n
      ensures Abs(gap(j)) <= bound(j)
    {
      FixedCoefficientClose(lp, j);
      AtBounded(r, j);
      GapBound(ExactCoefficient(lp, j) - 16 * ra[j], 15 * |lp|, At(r, j), r[0]);
      TermGap(ExactCoefficient(lp, j), ra[j], At(r, j));
    }
    AbsSum(n, gap, bound);
    ConstantSum(n, 15 * |lp| * r[0], bound);
  }

  /** The comparison measures the prediction error of the filter on the signal, in Q20, up to rounding. */
  lemma ComparisonMeasuresPredictionError(lp: seq<int>, ra: seq<int>, r: seq<int>)
    requires HoldsCoefficients(ra, lp) && |r| == |ra|
    requires forall j :: 0 <= j < |r| ==> Abs(r[j]) <= r[0]
    ensures var acc := Sum(|r|, i => At(ra, i) * At(r, i));
            var error := QuadraticForms.Form(AsReals(Taps(lp)), AsReals(Taps(lp)), AsReals(r), |r|);
            var slack := |r| * (15 * |lp| * r[0]);
            (16 * acc - slack) as real <= error <= (16 * acc + slack) as real
  {
    hide At, Taps, AsReals, ExactTerm, QuadraticForms.Form;
    FixedDistanceClose(lp, ra, r);
    ExactDistanceIsForm(lp, r);
  }

  lemma AtBounded(r: seq<int>, j: int)
    requires |r| > 0 && forall j :: 0 <= j < |r| ==> Abs(r[j]) <= r[0]
    ensures Abs(At(r, j)) <= r[0]
  {
    assert Abs(r[0]) <= r[0];
  }

  lemma TermGap(x: int, y: int, r: int)
    ensures x * r + -16 * (y * r) == (x - 16 * y) * r
  {
  }

  lemma GapBound(d: int, m: int, r: int, r0: int)
    requires 0 <= d <= m && Abs(r) <= r0
    ensures Abs(d * r) <= m * r0
  {
    assert d * r0 <= m * r0 by { MultiplyMonotone(d, m, r0); }
    assert d * r <= d * r0 && d * -r <= d * r0 by {
      MultiplyMonotone(r, r0, d);
      MultiplyMonotone(-r, r0, d);
    }
  }

  lemma {:induction false} ConstantSum(n: nat, c: int, f: int -> int)
    requires forall i {:trigger f(i)} :: 0 <= i < n ==> f(i) == c
    ensures Sum(n, f) == n * c
  {
    if n > 0 {
      ConstantSum(n - 1, c, f);
      assert f(n - 1) == c;
      assert n * c == (n - 1) * c + c;
    }
  }
}
