/** The best gains of gainQuantization.c: 64-bit quotients whose shifts depend on the size of the numerator, and the
    whole search. */
module GainQuotient {
  import opened FixedPoint
  import opened GainSearch
  import GainOptimum

  /** How far a 64-bit numerator can be shifted left, judged from its upper word. */
  function Headroom(numerator: int): nat {
    LeadingZeros(Abs(Shr(numerator, 32)))
  }

  /** The quotient in q more fractional bits: shifted numerator, or shifted denominator where that leaves something,
      or shifted result. */
  function Quotient(numerator: int, denominator: int, q: nat): int
    requires denominator != 0
  {
    var n := Headroom(numerator);
    if n >= q then Cast32(Truncate(numerator * Pow2(q), denominator))
    else
      var d := Shr(denominator, q - n);
      if d > 0 then Cast32(Truncate(numerator * Pow2(n), d))
      else Cast32(Cast32(Truncate(numerator * Pow2(n), denominator)) * Pow2(q - n))
  }

  function AdaptiveNumerator(t: Terms): int {
    t.zz * t.xy - t.xz * t.yz
  }

  function FixedNumerator(t: Terms): int {
    t.yy * t.xz - t.xy * t.yz
  }

  /** The best adaptive gain in Q9. */
  function BestAdaptive(t: Terms): int {
    if Denominator(t) == 0 then Cast32(Shr(AdaptiveNumerator(t), 15))
    else Quotient(AdaptiveNumerator(t), Denominator(t), 9)
  }

  /** The best fixed gain in Q2. */
  function BestFixed(t: Terms): int {
    if Denominator(t) == 0 then Cast32(Shr(FixedNumerator(t), 10)) else Quotient(FixedNumerator(t), Denominator(t), 14)
  }

  /** Numerators of this size never leave 64 bits. */
  predicate Fits62(x: int) {
    -0x4000000000000000 <= x < 0x4000000000000000
  }

  method DivideGain(numerator: int, denominator: int, q: nat) returns (gain: int)
    requires denominator != 0 && Fits62(numerator)
    ensures gain == Quotient(numerator, denominator, q)
  {
    hide Cast32, Truncate, Pow2, LeadingZeros;
    UpperWord(numerator);
    var numeratorH := Shr(numerator, 32);
    numeratorH := if numeratorH > 0 then numeratorH else -numeratorH;
    var numeratorNorm := CountLeadingZeros(numeratorH);
    if numeratorNorm >= q {
      gain := Cast32(Truncate(numerator * Pow2(q), denominator));
    } else {
      var shiftedDenominator := Shr(denominator, q - numeratorNorm);
      if shiftedDenominator > 0 {
        gain := Cast32(Truncate(numerator * Pow2(numeratorNorm), shiftedDenominator));
      } else {
        gain := Cast32(Truncate(numerator * Pow2(numeratorNorm), denominator));
        gain := Cast32(gain * Pow2(q - numeratorNorm));
      }
    }
  }

  lemma UpperWord(numerator: int)
    requires Fits62(numerator)
    ensures Abs(Shr(numerator, 32)) <= 0x40000000 && Pow2(32) == 0x100000000
    ensures Shr(numerator, 32) * 0x100000000 <= numerator < Shr(numerator, 32) * 0x100000000 + 0x100000000
  {
    assert Pow2(10) == 1024 && Pow2(20) == 1024 * 1024 && Pow2(30) == 0x40000000;
  }

  lemma NumeratorsFit(t: Terms)
    requires Normalised(t)
    ensures Fits62(AdaptiveNumerator(t)) && Fits62(FixedNumerator(t))
  {
    ProductBetween(t.zz, t.xy, MAXINT32, 0x40000000);
    ProductBetween(t.yy, t.xz, MAXINT32, 0x40000000);
    SignedBetween(t.xz, t.yz, 0x40000000);
    SignedBetween(t.xy, t.yz, 0x40000000);
  }

  lemma SignedBetween(x: int, y: int, m: int)
    requires -m <= x <= m && -m <= y <= m
    ensures -(m * m) <= x * y <= m * m
  {
    if x >= 0 {
      ProductBetween(x, y, m, m);
    } else {
      ProductBetween(-x, y, m, m);
      assert -x * y == -(x * y);
    }
  }

  method ComputeBestGains(t: Terms) returns (bestAdaptativeCodebookGain: int, bestFixedCodebookGain: int)
    requires Normalised(t)
    ensures bestAdaptativeCodebookGain == BestAdaptive(t) && bestFixedCodebookGain == BestFixed(t)
  {
    hide Quotient, Shr, Cast32, Normalised;
    NumeratorsFit(t);
    var denominator := t.yy * t.zz - t.yz * t.yz;
    if denominator == 0 {
      bestAdaptativeCodebookGain := Cast32(Shr(t.zz * t.xy - t.xz * t.yz, 15));
      bestFixedCodebookGain := Cast32(Shr(t.yy * t.xz - t.xy * t.yz, 10));
    } else {
      bestAdaptativeCodebookGain := DivideGain(t.zz * t.xy - t.xz * t.yz, denominator, 9);
      bestFixedCodebookGain := DivideGain(t.yy * t.xz - t.xy * t.yz, denominator, 14);
    }
  }

  // ---- The shifts are safe

  /** Whatever the numerator, no left shift of it reaches 64 bits. */
  lemma ShiftStaysInWord(numerator: int, q: nat)
    requires Fits62(numerator)
    ensures var n := if Headroom(numerator) >= q then q else Headroom(numerator);
            -0x8000000000000000 <= numerator * Pow2(n) < 0x8000000000000000 || q > 31
  {
    hide LeadingZeros, Pow2;
    UpperWord(numerator);
    var h := Shr(numerator, 32);
    var room := Headroom(numerator);
    var n := if room >= q then q else room;
    if q <= 31 {
      if h == 0 {
        ZeroRoom();
        Pow2Monotone(n, 31);
        HighPowers();
        MultiplyMonotone(Pow2(n), 0x80000000, numerator);
        MultiplyMonotone(0, numerator, Pow2(n));
      } else {
        LeadingZerosFill(Abs(h));
        Pow2Monotone(n, room);
        MultiplyMonotone(Pow2(n), Pow2(room), Abs(h));
        UpperWordShifted(h, numerator, Pow2(n), n);
      }
    }
  }

  lemma ZeroRoom()
    ensures LeadingZeros(0) == 31
  {
  }

  lemma UpperWordShifted(h: int, numerator: int, p: int, n: nat)
    requires p == Pow2(n) && n <= 31 && Abs(h) * p <= MAXINT32
    requires h * 0x100000000 <= numerator < h * 0x100000000 + 0x100000000
    ensures -0x8000000000000000 <= numerator * p < 0x8000000000000000
  {
    hide Pow2, Abs;
    NextMultiple(h, p, n);
    MultiplyMonotone(h * 0x100000000, numerator, p);
    MultiplyMonotone(numerator, h * 0x100000000 + 0xffffffff, p);
    Words(h, p);
  }

  lemma Words(h: int, p: int)
    ensures h * 0x100000000 * p == 0x100000000 * (h * p)
    ensures (h * 0x100000000 + 0xffffffff) * p == 0x100000000 * (h * p + p) - p
  {
  }

  /** A multiple of 2 to the n below 2 to the 31 leaves room for the next one. */
  lemma NextMultiple(h: int, p: int, n: nat)
    requires p == Pow2(n) && n <= 31 && Abs(h) * p <= MAXINT32
    ensures -MAXINT32 <= h * p && h * p + p <= 0x80000000
  {
    hide Pow2;
    HighPowers();
    Pow2Sum(n, 31 - n);
    var top := Pow2(31 - n);
    if h >= 0 {
      if h >= top {
        MultiplyMonotone(top, h, p);
        assert false;
      }
      MultiplyMonotone(h + 1, top, p);
    } else {
      MultiplyMonotone(h + 1, 0, p);
      assert -h * p == -(h * p);
    }
  }

  // ---- How close the quotients come

  lemma TruncateError(a: int, b: int)
    requires b != 0
    ensures Abs(Truncate(a, b) * b - a) < Abs(b)
  {
    var q := Abs(a) / Abs(b);
    assert q * Abs(b) <= Abs(a) < q * Abs(b) + Abs(b);
    Negations(q, b);
  }

  lemma Negations(q: int, b: int)
    ensures q * -b == -(q * b) && -q * b == -(q * b)
  {
  }

  /** The gain before any conversion to 32 bits. */
  function Uncut(numerator: int, denominator: int, q: nat): int
    requires denominator != 0
  {
    var n := Headroom(numerator);
    if n >= q then Truncate(numerator * Pow2(q), denominator)
    else if Shr(denominator, q - n) > 0 then Truncate(numerator * Pow2(n), Shr(denominator, q - n))
    else Truncate(numerator * Pow2(n), denominator) * Pow2(q - n)
  }

  /** A word that fits after a left shift fits before it. */
  lemma FitsBeforeShift(x: int, p: int)
    requires p >= 1 && Fits32(x * p)
    ensures Fits32(x)
  {
    if x >= 0 {
      MultiplyMonotone(1, p, x);
    } else {
      MultiplyMonotone(1, p, -x);
      assert p * -x == -(x * p);
    }
  }

  /** The error allowed, times the denominator: one unit; or one unit and what the shifted denominator lost; or one
      shifted unit. */
  function Allowance(denominator: int, q: nat, n: nat, quotient: int): int {
    if n >= q then Abs(denominator)
    else if Shr(denominator, q - n) > 0 then denominator + Abs(quotient) * Pow2(q - n)
    else Abs(denominator) * Pow2(q - n)
  }

  /** Where it fits 32 bits, each of the three quotients comes that close to the exact one in q fractional
      bits. */
  lemma QuotientClose(numerator: int, denominator: int, q: nat)
    requires denominator != 0 && Fits32(Uncut(numerator, denominator, q))
    ensures var v := Quotient(numerator, denominator, q);
            Abs(v * denominator - numerator * Pow2(q)) < Allowance(denominator, q, Headroom(numerator), v)
  {
    hide Truncate, Abs, Pow2, Headroom, Shr, Cast32;
    var n := Headroom(numerator);
    if n >= q {
      TruncateError(numerator * Pow2(q), denominator);
    } else {
      var p, d := Pow2(q - n), Shr(denominator, q - n);
      Pow2Sum(n, q - n);
      ShiftBounds(denominator, q - n);
      if d > 0 {
        TruncateError(numerator * Pow2(n), d);
        ShiftedDenominator(Truncate(numerator * Pow2(n), d), numerator * Pow2(n), denominator, d, p);
      } else {
        TruncateError(numerator * Pow2(n), denominator);
        FitsBeforeShift(Truncate(numerator * Pow2(n), denominator), p);
        ShiftedResult(Truncate(numerator * Pow2(n), denominator), numerator * Pow2(n), denominator, p);
      }
      Associate(numerator, Pow2(n), p);
    }
  }

  lemma Associate(x: int, y: int, z: int)
    ensures x * y * z == x * (y * z)
  {
  }

  lemma ShiftedDenominator(v: int, a: int, denominator: int, d: int, p: int)
    requires d > 0 && p >= 1 && d * p <= denominator < d * p + p && Abs(v * d - a) < Abs(d)
    ensures Abs(v * denominator - a * p) < denominator + Abs(v) * p
  {
    var lost := denominator - d * p;
    assert v * denominator == v * (d * p) + v * lost;
    Associate(v, d, p);
    assert v * d * p - a * p == (v * d - a) * p;
    StrictScale(v * d - a, d, p);
    if v >= 0 {
      MultiplyMonotone(lost, p, v);
      MultiplyMonotone(0, lost, v);
    } else {
      MultiplyMonotone(lost, p, -v);
      MultiplyMonotone(0, lost, -v);
      assert -v * lost == -(v * lost);
    }
  }

  lemma StrictScale(x: int, d: int, p: int)
    requires p >= 1 && Abs(x) < d
    ensures -(d * p) < x * p < d * p
  {
    MultiplyMonotone(x + 1, d, p);
    MultiplyMonotone(-d, x - 1, p);
    assert (x + 1) * p == x * p + p && (x - 1) * p == x * p - p && -d * p == -(d * p);
  }

  lemma ShiftedResult(w: int, a: int, denominator: int, p: int)
    requires p >= 1 && Abs(w * denominator - a) < Abs(denominator)
    ensures Abs(w * p * denominator - a * p) < Abs(denominator) * p
  {
    StrictScale(w * denominator - a, Abs(denominator), p);
    assert w * p * denominator == w * denominator * p;
    assert (w * denominator - a) * p == w * denominator * p - a * p;
  }

  /** The exact quotients are the two gains that minimise eq 63, in Q9 and Q2. */
  lemma QuotientsAreBestGains(t: Terms, xx: real)
    requires Denominator(t) != 0
    ensures var q := GainOptimum.Terms(xx, t.xy as real, t.yy as real, t.xz as real / 4096.0, t.yz as real / 4096.0,
                                       t.zz as real / 16777216.0);
            var d := GainOptimum.Determinant(q);
            && d != 0.0
            && 512.0 * (GainOptimum.AdaptiveNumerator(q) / d)
               == (AdaptiveNumerator(t) * 512) as real / Denominator(t) as real
            && 4.0 * (GainOptimum.FixedNumerator(q) / d) == (FixedNumerator(t) * 16384) as real / Denominator(t) as real
  {
    var q := GainOptimum.Terms(xx, t.xy as real, t.yy as real, t.xz as real / 4096.0, t.yz as real / 4096.0,
                               t.zz as real / 16777216.0);
    Scaled2(t.yy, t.zz, q.yy, q.zz, 16777216.0);
    Scaled2(t.yz, t.yz, q.yz * 4096.0, q.yz, 4096.0);
    Scaled2(t.zz, t.xy, q.zz * 16777216.0, q.xy, 1.0);
  }

  lemma Scaled2(x: int, y: int, u: real, v: real, k: real)
    requires x as real == u && y as real == v * k
    ensures (x * y) as real == u * v * k
  {
  }

  /** The first of the closest pairs of two windows inside the codebooks. */
  ghost predicate ClosestPair(t: Terms, predicted: int, baseGa: int, baseGb: int, a: int, b: int) {
    && 0 <= baseGa && baseGa + 4 <= 8 && 0 <= baseGb && baseGb + 8 <= 16 && InWindow(baseGa, baseGb, a, b)
    && EarlierFarther(t, predicted, baseGa, baseGb, a, b)
    && forall x, y :: InWindow(baseGa, baseGb, x, y) ==>
       PairDistance(t, predicted, a, b) <= PairDistance(t, predicted, x, y)
  }

  /** The windows start two and four steps before the first entries that reach the best gains of t. */
  ghost predicate ChosenAround(t: Terms, predicted: int, firstGa: int, firstGb: int, a: int, b: int) {
    && FirstReaching(BestFixed(t), k => GaThreshold(predicted, k), 6, firstGa)
    && FirstReaching(BestAdaptive(t), k => GbThreshold(k), 12, firstGb)
    && ClosestPair(t, predicted, BackOff(firstGa, 2), BackOff(firstGb, 4), a, b)
  }

  /** The pair that normalisation, best gains, windows and search lead to. */
  ghost predicate Quantised(xy64: int, yy64: int, xz64: int, yz64: int, zz64: int, predicted: int, a: int, b: int) {
    exists shift: nat, firstGa: int, firstGb: int ::
      && LeastShift(xy64, yy64, xz64, yz64, zz64, shift)
      && ChosenAround(ShiftedTerms(xy64, yy64, xz64, yz64, zz64, shift), predicted, firstGa, firstGb, a, b)
  }

  /** gainQuantization from the five sums on. */
  method GainQuantization(xy64: int, yy64: int, xz64: int, yz64: int, zz64: int, predicted: int)
    returns (indexGa: int, indexGb: int, gp: int, gc: int)
    requires SumsInRange(xy64, yy64, xz64, yz64, zz64) && 0 <= predicted <= MAXINT16
    ensures 0 <= indexGa < 8 && 0 <= indexGb < 16
            && Quantised(xy64, yy64, xz64, yz64, zz64, predicted, indexGa, indexGb)
    ensures gp == AdaptiveGain(indexGa, indexGb) && gc == Shr(FixedGain(indexGa, indexGb, predicted), 1)
  {
    hide LeastShift, BestFixed, BestAdaptive, PairDistance, FixedGain, AdaptiveGain, Shr, Normalised, GaThreshold;
    hide GbThreshold, EarlierFarther, FirstReaching;
    var t, shift := NormaliseTerms(xy64, yy64, xz64, yz64, zz64);
    var bestAdaptive, bestFixed := ComputeBestGains(t);
    var baseGa, baseGb;
    ghost var firstGa, firstGb;
    baseGa, baseGb, firstGa, firstGb := Preselect(bestFixed, bestAdaptive, predicted);
    indexGa, indexGb, gp, gc := SearchGains(t, predicted, baseGa, baseGb);
    assert ChosenAround(t, predicted, firstGa, firstGb, indexGa, indexGb);
  }
}
