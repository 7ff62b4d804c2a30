/** The closed-form gains of gainQuantization.c minimise the error of the specification, in exact arithmetic. */
module GainOptimum {
  import opened RealSums

  function Product(x: seq<real>, y: seq<real>, i: int): real {
    At(x, i) * At(y, i)
  }

  function Inner(x: seq<real>, y: seq<real>, n: nat): real {
    Sum(n, i => Product(x, y, i))
  }

  /** Target minus both scaled contributions, at one sample. */
  function Miss(x: seq<real>, y: seq<real>, z: seq<real>, gp: real, gc: real, i: int): real {
    At(x, i) - gp * At(y, i) - gc * At(z, i)
  }

  /** eq 63 */
  function Error(x: seq<real>, y: seq<real>, z: seq<real>, gp: real, gc: real, n: nat): real {
    Sum(n, i => SquaredMiss(x, y, z, gp, gc, i))
  }

  function SquaredMiss(x: seq<real>, y: seq<real>, z: seq<real>, gp: real, gc: real, i: int): real {
    Miss(x, y, z, gp, gc, i) * Miss(x, y, z, gp, gc, i)
  }

  /** The terms of eq 63. */
  datatype Terms = Terms(xx: real, xy: real, yy: real, xz: real, yz: real, zz: real)

  function TermsOf(x: seq<real>, y: seq<real>, z: seq<real>, n: nat): Terms {
    Terms(Inner(x, x, n), Inner(x, y, n), Inner(y, y, n), Inner(x, z, n), Inner(y, z, n), Inner(z, z, n))
  }

  /** eq 63 multiplied out. */
  function Quadratic(t: Terms, gp: real, gc: real): real {
    t.xx + gp * gp * t.yy + gc * gc * t.zz - 2.0 * (gp * t.xy) - 2.0 * (gc * t.xz) + 2.0 * (gp * gc * t.yz)
  }

  /** The terms contributed by one sample. */
  function SampleTerms(a: real, b: real, c: real): Terms {
    Terms(a * a, a * b, b * b, a * c, b * c, c * c)
  }

  lemma ExpandMiss(x: seq<real>, y: seq<real>, z: seq<real>, gp: real, gc: real, n: int)
    ensures SquaredMiss(x, y, z, gp, gc, n) == Quadratic(SampleTerms(At(x, n), At(y, n), At(z, n)), gp, gc)
  {
    hide At;
    var a, b, c := At(x, n), At(y, n), At(z, n);
    var u, v := gp * b, gc * c;
    assert (a - u - v) * (a - u - v) == a * a + u * u + v * v - 2.0 * (a * u) - 2.0 * (a * v) + 2.0 * (u * v);
    assert u * u == gp * gp * (b * b) && v * v == gc * gc * (c * c);
    assert a * u == gp * (a * b) && a * v == gc * (a * c) && u * v == gp * gc * (b * c);
  }

  lemma {:induction false} ErrorIsQuadratic(x: seq<real>, y: seq<real>, z: seq<real>, gp: real, gc: real, n: nat)
    ensures Error(x, y, z, gp, gc, n) == Quadratic(TermsOf(x, y, z, n), gp, gc)
  {
    hide SquaredMiss, Quadratic, TermsOf, Plus, SampleTerms;
    if n == 0 {
      NoTerms(x, y, z, gp, gc);
    } else {
      ErrorIsQuadratic(x, y, z, gp, gc, n - 1);
      ExpandMiss(x, y, z, gp, gc, n - 1);
      TermsGrow(x, y, z, n - 1);
      QuadraticAdds(TermsOf(x, y, z, n - 1), SampleTerms(At(x, n - 1), At(y, n - 1), At(z, n - 1)), gp, gc);
    }
  }

  lemma NoTerms(x: seq<real>, y: seq<real>, z: seq<real>, gp: real, gc: real)
    ensures Error(x, y, z, gp, gc, 0) == 0.0 && Quadratic(TermsOf(x, y, z, 0), gp, gc) == 0.0
  {
    assert TermsOf(x, y, z, 0) == Terms(0.0, 0.0, 0.0, 0.0, 0.0, 0.0);
  }

  function Plus(s: Terms, t: Terms): Terms {
    Terms(s.xx + t.xx, s.xy + t.xy, s.yy + t.yy, s.xz + t.xz, s.yz + t.yz, s.zz + t.zz)
  }

  lemma TermsGrow(x: seq<real>, y: seq<real>, z: seq<real>, n: nat)
    ensures TermsOf(x, y, z, n + 1) == Plus(TermsOf(x, y, z, n), SampleTerms(At(x, n), At(y, n), At(z, n)))
  {
    hide At;
  }

  lemma QuadraticAdds(s: Terms, t: Terms, gp: real, gc: real)
    ensures Quadratic(Plus(s, t), gp, gc) == Quadratic(s, gp, gc) + Quadratic(t, gp, gc)
  {
    Spread(gp * gp, s.yy, t.yy);
    Spread(gc * gc, s.zz, t.zz);
    Spread(gp, s.xy, t.xy);
    Spread(gc, s.xz, t.xz);
    Spread(gp * gc, s.yz, t.yz);
  }

  lemma Spread(c: real, a: real, b: real)
    ensures c * (a + b) == c * a + c * b
  {
  }

  lemma ErrorNonNegative(x: seq<real>, y: seq<real>, z: seq<real>, gp: real, gc: real, n: nat)
    ensures Error(x, y, z, gp, gc, n) >= 0.0
  {
    var f := (i: int) => SquaredMiss(x, y, z, gp, gc, i);
    forall i | 0 <= i < n
      ensures f(i) >= 0.0
    {
      SquareNonNegative(Miss(x, y, z, gp, gc, i));
    }
    SumNonNegative(n, f);
  }

  lemma SquareNonNegative(v: real)
    ensures v * v >= 0.0
  {
  }

  /** The Cauchy-Schwarz inequality, for vectors of any length. */
  lemma CauchySchwarz(y: seq<real>, z: seq<real>, n: nat)
    ensures Inner(y, z, n) * Inner(y, z, n) <= Inner(y, y, n) * Inner(z, z, n)
    ensures Inner(y, y, n) >= 0.0
  {
    hide Inner;
    var a, b, c := Inner(y, y, n), Inner(y, z, n), Inner(z, z, n);
    InnerNonNegative(y, n);
    if a == 0.0 {
      if b != 0.0 {
        var g := (c + 1.0) / (2.0 * b);
        Solves(b, c, g);
        ParabolaNonNegative(y, z, n, g);
        FlatParabola(c, b, g);
        assert false;
      }
    } else {
      var g := b / a;
      assert g * a == b;
      ParabolaNonNegative(y, z, n, g);
      LeastSquare(a, b, c, g);
    }
  }

  /** The energy of z minus a multiple of y, as a function of the multiple. */
  function Parabola(c: real, b: real, a: real, g: real): real {
    c - 2.0 * (g * b) + g * g * a
  }

  lemma ParabolaNonNegative(y: seq<real>, z: seq<real>, n: nat, g: real)
    ensures Parabola(Inner(z, z, n), Inner(y, z, n), Inner(y, y, n), g) >= 0.0
  {
    hide Inner, Error, Quadratic, Parabola;
    ErrorNonNegative(z, y, [], g, 0.0, n);
    ErrorIsQuadratic(z, y, [], g, 0.0, n);
    InnerSymmetric(z, y, n);
    var t := TermsOf(z, y, [], n);
    assert t == Terms(Inner(z, z, n), Inner(y, z, n), Inner(y, y, n), t.xz, t.yz, t.zz);
    ZeroGain(Inner(z, z, n), Inner(y, z, n), Inner(y, y, n), t.xz, t.yz, t.zz, g);
  }

  lemma ZeroGain(xx: real, xy: real, yy: real, xz: real, yz: real, zz: real, g: real)
    ensures Quadratic(Terms(xx, xy, yy, xz, yz, zz), g, 0.0) == Parabola(xx, xy, yy, g)
  {
    assert g * 0.0 * yz == 0.0;
  }

  lemma FlatParabola(c: real, b: real, g: real)
    requires 2.0 * (g * b) == c + 1.0
    ensures Parabola(c, b, 0.0, g) < 0.0
  {
    assert g * g * 0.0 == 0.0;
  }

  lemma Solves(b: real, c: real, g: real)
    requires b != 0.0 && g == (c + 1.0) / (2.0 * b)
    ensures 2.0 * (g * b) == c + 1.0
  {
    assert g * (2.0 * b) == c + 1.0;
  }

  lemma LeastSquare(a: real, b: real, c: real, g: real)
    requires a > 0.0 && g * a == b && Parabola(c, b, a, g) >= 0.0
    ensures b * b <= a * c
  {
    assert g * g * a == g * (g * a) == g * b;
    assert c - g * b >= 0.0;
    assert a * (c - g * b) >= 0.0;
    assert a * (g * b) == b * b;
  }

  lemma InnerSymmetric(x: seq<real>, y: seq<real>, n: nat)
    ensures Inner(x, y, n) == Inner(y, x, n)
  {
    SumCong(n, i => Product(x, y, i), i => Product(y, x, i));
  }

  lemma InnerNonNegative(y: seq<real>, n: nat)
    ensures Inner(y, y, n) >= 0.0
  {
    forall i
      ensures Product(y, y, i) >= 0.0
    {
      SquareNonNegative(At(y, i));
    }
    SumNonNegative(n, i => Product(y, y, i));
  }

  function Determinant(t: Terms): real {
    t.yy * t.zz - t.yz * t.yz
  }

  /** Numerators of the two gains. */
  function AdaptiveNumerator(t: Terms): real {
    t.zz * t.xy - t.xz * t.yz
  }

  function FixedNumerator(t: Terms): real {
    t.yy * t.xz - t.xy * t.yz
  }

  /** The best gains solve the two stationarity equations. */
  lemma Stationary(t: Terms, gp: real, gc: real)
    requires Determinant(t) != 0.0
    requires gp == AdaptiveNumerator(t) / Determinant(t) && gc == FixedNumerator(t) / Determinant(t)
    ensures gp * t.yy + gc * t.yz == t.xy
    ensures gp * t.yz + gc * t.zz == t.xz
  {
    var d := Determinant(t);
    assert gp * d == AdaptiveNumerator(t) && gc * d == FixedNumerator(t);
    Scaled(gp, t.yy, gc, t.yz, d, AdaptiveNumerator(t), FixedNumerator(t));
    Scaled(gp, t.yz, gc, t.zz, d, AdaptiveNumerator(t), FixedNumerator(t));
    CramerFirst(t);
    CramerSecond(t);
    Cancel(gp * t.yy + gc * t.yz, t.xy, d);
    Cancel(gp * t.yz + gc * t.zz, t.xz, d);
  }

  lemma Scaled(gp: real, a: real, gc: real, b: real, d: real, p: real, q: real)
    requires gp * d == p && gc * d == q
    ensures (gp * a + gc * b) * d == p * a + q * b
  {
    assert gp * a * d == gp * d * a && gc * b * d == gc * d * b;
  }

  lemma CramerFirst(t: Terms)
    ensures AdaptiveNumerator(t) * t.yy + FixedNumerator(t) * t.yz == t.xy * Determinant(t)
  {
    assert t.zz * t.xy * t.yy == t.xy * (t.yy * t.zz);
    assert t.xz * t.yz * t.yy == t.yy * t.xz * t.yz;
    assert t.xy * t.yz * t.yz == t.xy * (t.yz * t.yz);
  }

  lemma CramerSecond(t: Terms)
    ensures AdaptiveNumerator(t) * t.yz + FixedNumerator(t) * t.zz == t.xz * Determinant(t)
  {
    assert t.zz * t.xy * t.yz == t.xy * t.yz * t.zz;
    assert t.xz * t.yz * t.yz == t.xz * (t.yz * t.yz);
    assert t.yy * t.xz * t.zz == t.xz * (t.yy * t.zz);
  }

  lemma Cancel(x: real, y: real, d: real)
    requires d != 0.0 && x * d == y * d
    ensures x == y
  {
    assert (x - y) * d == 0.0;
  }

  /** Away from a stationary point the error grows by a quadratic form of the displacement. */
  lemma ErrorAroundStationary(t: Terms, gp: real, gc: real, dp: real, dc: real)
    requires gp * t.yy + gc * t.yz == t.xy && gp * t.yz + gc * t.zz == t.xz
    ensures Quadratic(t, gp + dp, gc + dc)
         == Quadratic(t, gp, gc) + (dp * dp * t.yy + dc * dc * t.zz + 2.0 * (dp * dc * t.yz))
  {
    BinomialSquare(gp, dp, t.yy);
    BinomialSquare(gc, dc, t.zz);
    assert (gp + dp) * t.xy == gp * t.xy + dp * t.xy && (gc + dc) * t.xz == gc * t.xz + dc * t.xz;
    BinomialProduct(gp, dp, gc, dc, t.yz);
    assert dp * t.xy == gp * dp * t.yy + dp * gc * t.yz by { Distribute3(dp, gp, t.yy, gc, t.yz); }
    assert dc * t.xz == gp * dc * t.yz + gc * dc * t.zz by { Distribute3(dc, gp, t.yz, gc, t.zz); }
  }

  lemma BinomialSquare(g: real, d: real, y: real)
    ensures (g + d) * (g + d) * y == g * g * y + 2.0 * (g * d * y) + d * d * y
  {
    assert (g + d) * (g + d) == g * g + 2.0 * (g * d) + d * d;
  }

  lemma BinomialProduct(gp: real, dp: real, gc: real, dc: real, y: real)
    ensures (gp + dp) * (gc + dc) * y == gp * gc * y + gp * dc * y + dp * gc * y + dp * dc * y
  {
    assert (gp + dp) * (gc + dc) == gp * gc + gp * dc + dp * gc + dp * dc;
  }

  lemma Distribute3(d: real, g: real, y: real, h: real, z: real)
    ensures d * (g * y + h * z) == g * d * y + d * h * z
    ensures d * (g * y + h * z) == g * d * y + h * d * z
  {
    assert d * (g * y) == g * d * y && d * (h * z) == d * h * z == h * d * z;
  }

  /** A binary quadratic form with positive leading term and determinant vanishes only at the origin. */
  lemma PositiveForm(dp: real, dc: real, yy: real, zz: real, yz: real)
    requires yy > 0.0 && yy * zz - yz * yz > 0.0
    ensures var q := dp * dp * yy + dc * dc * zz + 2.0 * (dp * dc * yz);
            q >= 0.0 && (q == 0.0 <==> dp == 0.0 && dc == 0.0)
  {
    var q := dp * dp * yy + dc * dc * zz + 2.0 * (dp * dc * yz);
    var u := yy * dp + yz * dc;
    var d := yy * zz - yz * yz;
    CompletedSquare(dp, dc, yy, zz, yz, q, u, d);
    SignOfForm(dp, dc, yy, yz, q, u, d);
  }

  lemma CompletedSquare(dp: real, dc: real, yy: real, zz: real, yz: real, q: real, u: real, d: real)
    requires q == dp * dp * yy + dc * dc * zz + 2.0 * (dp * dc * yz)
    requires u == yy * dp + yz * dc && d == yy * zz - yz * yz
    ensures yy * q == u * u + d * (dc * dc)
  {
    var a, b := yy * dp, yz * dc;
    assert (a + b) * (a + b) == a * a + 2.0 * (a * b) + b * b;
    assert a * a == yy * (dp * dp * yy) && b * b == yz * yz * (dc * dc) && a * b == yy * (dp * dc * yz);
    assert yy * zz * (dc * dc) == yy * (dc * dc * zz);
    assert d * (dc * dc) == yy * zz * (dc * dc) - yz * yz * (dc * dc);
    assert yy * (2.0 * (dp * dc * yz)) == 2.0 * (yy * (dp * dc * yz));
  }

  lemma SignOfForm(dp: real, dc: real, yy: real, yz: real, q: real, u: real, d: real)
    requires yy > 0.0 && d > 0.0 && u == yy * dp + yz * dc
    requires yy * q == u * u + d * (dc * dc)
    requires dp == 0.0 && dc == 0.0 ==> q == 0.0
    ensures q >= 0.0 && (q == 0.0 <==> dp == 0.0 && dc == 0.0)
  {
    SquareNonNegative(u);
    SquareNonNegative(dc);
    NonNegativeProduct(d, dc * dc);
    if q < 0.0 {
      NegativeProduct(yy, q);
      assert false;
    }
    if q == 0.0 {
      assert yy * q == 0.0;
      ZeroSum(u, d, dc);
      assert yz * dc == 0.0;
      Cancel(dp, 0.0, yy);
    }
  }

  lemma NegativeProduct(a: real, b: real)
    requires a > 0.0 && b < 0.0
    ensures a * b < 0.0
  {
  }

  lemma ZeroSum(u: real, d: real, dc: real)
    requires d > 0.0 && u * u + d * (dc * dc) == 0.0
    ensures u == 0.0 && dc == 0.0
  {
    SquareNonNegative(u);
    SquareNonNegative(dc);
    NonNegativeProduct(d, dc * dc);
    assert u * u == 0.0 && d * (dc * dc) == 0.0;
    ZeroSquare(u);
    FactorZero(d, dc * dc);
    ZeroSquare(dc);
  }

  lemma FactorZero(d: real, v: real)
    requires d > 0.0 && v >= 0.0 && d * v == 0.0
    ensures v == 0.0
  {
    if v > 0.0 {
      PositiveProduct(d, v);
    }
  }

  lemma PositiveProduct(a: real, b: real)
    requires a > 0.0 && b > 0.0
    ensures a * b > 0.0
  {
  }

  lemma NegatedSquare(u: real)
    ensures -u * -u == u * u
  {
  }

  lemma ZeroSquare(u: real)
    requires u * u == 0.0
    ensures u == 0.0
  {
    var m := if u < 0.0 then -u else u;
    NegatedSquare(u);
    assert m * m == 0.0;
    if m > 0.0 {
      FactorZero(m, m);
    }
  }

  /** The closed-form gains are the only minimiser of the error over all pairs of real gains. */
  lemma BestGainsOptimal(x: seq<real>, y: seq<real>, z: seq<real>, n: nat, gp: real, gc: real, hp: real, hc: real)
    requires var t := TermsOf(x, y, z, n);
             t.yy > 0.0 && Determinant(t) > 0.0
             && gp == AdaptiveNumerator(t) / Determinant(t) && gc == FixedNumerator(t) / Determinant(t)
    ensures Error(x, y, z, gp, gc, n) <= Error(x, y, z, hp, hc, n)
    ensures Error(x, y, z, gp, gc, n) == Error(x, y, z, hp, hc, n) <==> hp == gp && hc == gc
  {
    hide Error, TermsOf, Quadratic, AdaptiveNumerator, FixedNumerator;
    var t := TermsOf(x, y, z, n);
    Stationary(t, gp, gc);
    ErrorAroundStationary(t, gp, gc, hp - gp, hc - gc);
    PositiveForm(hp - gp, hc - gc, t.yy, t.zz, t.yz);
    ErrorIsQuadratic(x, y, z, gp, gc, n);
    ErrorIsQuadratic(x, y, z, hp, hc, n);
    assert gp + (hp - gp) == hp && gc + (hc - gc) == hc;
  }

  /** The divisor of both gains is never negative before rounding. */
  lemma DeterminantNonNegative(x: seq<real>, y: seq<real>, z: seq<real>, n: nat)
    ensures Determinant(TermsOf(x, y, z, n)) >= 0.0
  {
    CauchySchwarz(y, z, n);
  }
}
