/** How close the gain arithmetic of decodeGains.c and utils.c comes to the formulas of section 3.9 and 4.4: products
    of decimals, without shifts. */
module GainFormulas {
  import opened FixedPoint
  import opened GainDecoding
  import GainSearch

  /** A rounding shift errs by half a unit of what it shifts out. */
  lemma RoundedShift(a: int, n: nat)
    requires n > 0
    ensures -(Pow2(n) as int) <= 2 * (Pshr(a, n) * Pow2(n) - a) <= Pow2(n)
  {
    assert Pow2(n) == 2 * Pow2(n - 1);
    hide Pow2;
    ShiftBounds(a + Pow2(n) / 2, n);
  }

  // ---- Erased subframes

  /** Nine tenths and 98 hundredths of the gains, within one unit and a bit, and no adaptive gain above 0.9. */
  lemma AttenuationIsNineTenths(gain: int)
    requires Fits16(gain)
    ensures gain < 16384 ==> -2.0 < AttenuatedAdaptive(gain) as real - 0.9 * gain as real < 1.0
    ensures gain >= 16384 ==> -1.0 < AttenuatedAdaptive(gain) as real - 0.9 * 16384.0 < 1.0
    ensures -2.0 < AttenuatedFixed(gain) as real - 0.98 * gain as real < 1.0
  {
    Powers();
    assert gain < 16384 ==> -20 < 10 * AttenuatedAdaptive(gain) - 9 * gain < 10;
    assert -200 < 100 * AttenuatedFixed(gain) - 98 * gain < 100;
  }

  /** Four decibels, in Q10, below the mean of the four errors, but never below -14. */
  lemma AttenuatedErrorIsMean(errors: seq<int>)
    requires |errors| == 4
    ensures var e := AttenuatedError(errors);
            var sum := errors[0] + errors[1] + errors[2] + errors[3];
            && e >= -14 * 1024
            && (4 * e > -14 * 4096 ==> -2 <= 4 * (e + 4 * 1024) - sum <= 2)
            && (sum <= -10 * 4096 - 3 ==> e == -14 * 1024)
  {
    Powers();
  }

  // ---- The predicted fixed gain

  /** The exponent of eq 71 in Q11: 0.1660964 is log2(10) / 20, log the logarithm of the energy in Q16, and the errors
      of eq 69 stand newest first in Q10. */
  function Exponent(log: int, errors: seq<int>): real
    requires |errors| == 4
  {
    2048.0 * 0.1660964 * (124.2884 - 3.0103 * log as real / 65536.0
                          + (0.68 * errors[0] as real + 0.58 * errors[1] as real + 0.34 * errors[2] as real
                             + 0.19 * errors[3] as real) / 1024.0)
  }

  ghost predicate PredictedBy(m: Maths, errors: seq<int>, vector: seq<int>, x: int)
    requires |errors| == 4
  {
    MACodeGainPrediction(m, errors, vector) == m.exp2(Cast16(x))
  }

  /** The predicted gain is a power of two whose exponent is that of eq 71, up to eight units of Q11. */
  lemma PredictionIsEq71(m: Maths, errors: seq<int>, vector: seq<int>)
    requires |errors| == 4 && forall i :: 0 <= i < 4 ==> Fits16(errors[i])
    requires 0 <= m.log2(SquareSum(vector)) <= 31 * 0x10000
    ensures exists x :: PredictedBy(m, errors, vector, x)
                        && -8.0 <= x as real - Exponent(m.log2(SquareSum(vector)), errors) <= 8.0
  {
    hide SplitMultiply, Shr, Pshr, Cast16;
    var log := m.log2(SquareSum(vector));
    var scaled := SplitMultiply(-24660, log, 13);
    var acc := 0x100 * (8145364 + scaled) + errors[0] * 11141 + errors[1] * 9503 + errors[2] * 5571 + errors[3] * 3113;
    var product := SplitMultiply(5442, Shr(acc, 2), 15);
    var x := Pshr(product, 11);
    assert PredictedBy(m, errors, vector, x);
    PredictionShifts(log, scaled, acc, product, x);
    ExponentClose(log, scaled, errors, acc, x);
  }

  lemma PredictionShifts(log: int, scaled: int, acc: int, product: int, x: int)
    requires scaled == SplitMultiply(-24660, log, 13) && product == SplitMultiply(5442, Shr(acc, 2), 15)
    requires x == Pshr(product, 11)
    ensures -24660 * log - 0x2000 <= 0x2000 * scaled <= -24660 * log
    ensures -134400000 <= x * 0x10000000 - 5442 * acc <= 134400000
  {
    hide SplitMultiply, Shr, Pshr, Pow2;
    SplitMultiplyIsFloor(-24660, log, 13);
    SplitMultiplyIsFloor(5442, Shr(acc, 2), 15);
    ShiftBounds(-24660 * log, 13);
    ShiftBounds(acc, 2);
    ShiftBounds(5442 * Shr(acc, 2), 15);
    RoundedShift(product, 11);
    Powers();
    assert Pow2(11) == 0x800 by { Pow2Sum(3, 8); }
  }

  lemma ExponentClose(log: int, scaled: int, errors: seq<int>, acc: int, x: int)
    requires |errors| == 4 && (forall i :: 0 <= i < 4 ==> Fits16(errors[i])) && 0 <= log <= 31 * 0x10000
    requires -24660 * log - 0x2000 <= 0x2000 * scaled <= -24660 * log
    requires acc == 0x100 * (8145364 + scaled) + errors[0] * 11141 + errors[1] * 9503 + errors[2] * 5571
                    + errors[3] * 3113
    requires -134400000 <= x * 0x10000000 - 5442 * acc <= 134400000
    ensures -8.0 <= x as real - Exponent(log, errors) <= 8.0
  {
    var e0, e1, e2, e3 := errors[0], errors[1], errors[2], errors[3];
    assert x as real * 268435456.0 == (x * 0x10000000) as real;
  }

  // ---- The decoded gains

  /** eq 73 and 74: the sum of both entries, and the correction in Q12 times the predicted gain in Q16, as a word in
      Q1. */
  lemma DecodedIsProduct(m: Maths, g: Gains, a: int, b: int, vector: seq<int>)
    requires |g.errors| == 4 && 0 <= a < 8 && 0 <= b < 16
    ensures var r := Decoded(m, g, a, b, vector);
            var product := (GainSearch.GA[a].1 + GainSearch.GB[b].1) * MACodeGainPrediction(m, g.errors, vector);
            && r.adaptive == GainSearch.GA[a].0 + GainSearch.GB[b].0
            && (0 <= product < 0x7fff * 0x8000000 ==> -0x4001000 <= 0x8000000 * r.fixed - product <= 0x4001000)
  {
    hide SplitMultiply, Pshr, MACodeGainPrediction, PredictionError, Cast16;
    var correction := GainSearch.Correction(a, b);
    ProductClose(correction, MACodeGainPrediction(m, g.errors, vector));
  }

  lemma ProductClose(correction: int, predicted: int)
    ensures var x := Pshr(SplitMultiply(correction, predicted, 12), 15);
            -0x4001000 <= 0x8000000 * x - correction * predicted <= 0x4001000
            && (0 <= correction * predicted < 0x7fff * 0x8000000 ==> Fits16(x))
  {
    hide SplitMultiply, Pshr, Pow2;
    SplitMultiplyIsFloor(correction, predicted, 12);
    ShiftBounds(correction * predicted, 12);
    RoundedShift(SplitMultiply(correction, predicted, 12), 15);
    Powers();
  }

  /** eq 72: the error entered is 20 log10 of the correction, in Q10, and the others move up one place; log is the
      binary logarithm of the correction in Q16, 12 that of its format, and 6.0206 is 20 log10(2). */
  lemma ErrorIsEq72(m: Maths, g: Gains, a: int, b: int, vector: seq<int>)
    requires |g.errors| == 4 && 0 <= a < 8 && 0 <= b < 16
    requires 7 * 0x10000 <= m.log2(GainSearch.GA[a].1 + GainSearch.GB[b].1) <= 16 * 0x10000
    ensures var e := Decoded(m, g, a, b, vector).errors;
            var log := m.log2(GainSearch.GA[a].1 + GainSearch.GB[b].1);
            && -1.0 < e[0] as real - 6.0206 * 1024.0 * (log as real / 65536.0 - 12.0) < 1.0
            && e[1] == g.errors[0] && e[2] == g.errors[1] && e[3] == g.errors[2]
  {
    hide SplitMultiply, Pshr, MACodeGainPrediction, Cast16;
    LogarithmClose(m.log2(GainSearch.Correction(a, b)));
  }

  lemma LogarithmClose(log: int)
    requires 7 * 0x10000 <= log <= 16 * 0x10000
    ensures var x := Pshr(SplitMultiply(24660, log - 786432, 12), 6);
            Fits16(x) && -1.0 < x as real - 6.0206 * 1024.0 * (log as real / 65536.0 - 12.0) < 1.0
  {
    hide SplitMultiply, Pshr, Pow2;
    var scaled := SplitMultiply(24660, log - 786432, 12);
    var x := Pshr(scaled, 6);
    SplitMultiplyIsFloor(24660, log - 786432, 12);
    ShiftBounds(24660 * (log - 786432), 12);
    RoundedShift(scaled, 6);
    Powers();
    assert Pow2(6) == 64 by { Pow2Sum(3, 3); }
    assert x as real * 64.0 == (x * 64) as real;
  }

  // ---- The encoder's search

  /** The fixed gain of a pair in the search: the correction in Q12 times the predicted gain in Q4, as Q2. */
  lemma SearchedGainIsProduct(a: int, b: int, predicted: int)
    requires 0 <= a < 8 && 0 <= b < 16
    ensures var product := (GainSearch.GA[a].1 + GainSearch.GB[b].1) * predicted;
            0 <= product - 0x4000 * GainSearch.FixedGain(a, b, predicted) < 0x4000
  {
    hide Pow2;
    Powers();
    ShiftBounds((GainSearch.GA[a].1 + GainSearch.GB[b].1) * predicted, 14);
  }

  /** The preselection passes an entry exactly while the best gain exceeds what that entry contributes, before any
      shift: in the first codebook to the fixed gain, in the second one to the adaptive gain, of Q14 against Q9. */
  lemma ThresholdsAreContributions(best: int, predicted: int, k: int)
    requires 0 <= k < 8
    ensures best > GainSearch.GaThreshold(predicted, k) <==> 0x4000 * best > GainSearch.GA[k].1 * predicted
    ensures best > GainSearch.GbThreshold(k) <==> 32 * best > GainSearch.GB[k].0
    ensures best > GainSearch.GbThreshold(k + 8) <==> 32 * best > GainSearch.GB[k + 8].0
  {
    hide Pow2;
    Powers();
    ShiftBounds(GainSearch.GA[k].1 * predicted, 14);
    ShiftBounds(GainSearch.GB[k].0, 5);
    ShiftBounds(GainSearch.GB[k + 8].0, 5);
  }
}
