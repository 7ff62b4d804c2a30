/** The analysis filter of computeWeightedSpeech.c and the synthesis filter of LPSynthesisFilter.c. */
module LPFilters {
  import opened IntSums
  import opened FixedPoint

  /** sum over j < |a| of a[j] * s[n-1-j] */
  function Predict(a: seq<int>, s: seq<int>, n: int): int {
    Sum(|a|, j => PredictTerm(a, s, n, j))
  }

  function PredictTerm(a: seq<int>, s: seq<int>, n: int, j: int): int {
    At(a, j) * At(s, n - 1 - j)
  }

  /** Residual sample before saturation: coefficients in Q12, signal in Q0. */
  function Residual(a: seq<int>, s: seq<int>, n: int): int {
    Pshr(At(s, n) * 4096 + Predict(a, s, n), 12)
  }

  /** Synthesised sample from its excitation and the samples before it. */
  function Synthesis(a: seq<int>, excitation: int, s: seq<int>, n: int): int {
    Saturate16(Pshr(excitation * 4096 - Predict(a, s, n), 12))
  }

  /** The terms of the prediction are the products of eq A.3 and eq 77, newest sample first. */
  lemma PredictIs(a: seq<int>, s: seq<int>, n: int)
    ensures Predict(a, s, n) == Sum(|a|, j => At(a, j) * At(s, n - 1 - j))
  {
    SumCong(|a|, j => PredictTerm(a, s, n, j), j => At(a, j) * At(s, n - 1 - j));
  }

  /** A residual sample is the signal filtered by A(z), in Q12, rounded to the nearest word. */
  lemma ResidualIsNearest(a: seq<int>, s: seq<int>, n: int)
    requires 0 <= n < |s|
    ensures NearestWord(Saturate16(Residual(a, s, n)), 4096 * s[n] + Sum(|a|, j => At(a, j) * At(s, n - 1 - j)), 4096)
  {
    hide Predict, Pshr, Saturate16, NearestWord;
    PredictIs(a, s, n);
    Powers();
    SaturatedIsNearest(At(s, n) * 4096 + Predict(a, s, n), 12);
  }

  /** A synthesised sample is its excitation less the same sum over the samples already synthesised. */
  lemma SynthesisIsNearest(a: seq<int>, e: int, s: seq<int>, n: int)
    ensures NearestWord(Synthesis(a, e, s, n), 4096 * e - Sum(|a|, j => At(a, j) * At(s, n - 1 - j)), 4096)
  {
    hide Predict, Pshr, Saturate16, NearestWord;
    PredictIs(a, s, n);
    Powers();
    SaturatedIsNearest(e * 4096 - Predict(a, s, n), 12);
  }

  /** A signal that obeys the recursion of A(z) has no residual: the nearest word to zero is zero. */
  lemma PredictedSignalHasNoResidual(a: seq<int>, s: seq<int>, n: int)
    requires 0 <= n < |s| && 4096 * s[n] == -Sum(|a|, j => At(a, j) * At(s, n - 1 - j))
    ensures Saturate16(Residual(a, s, n)) == 0
  {
    hide Residual, Saturate16;
    ResidualIsNearest(a, s, n);
  }

  lemma NextTerm(a: seq<int>, s: seq<int>, n: int, j: int)
    requires 0 <= j < |a| && 0 <= n - 1 - j < |s|
    ensures PredictTerm(a, s, n, j) == a[j] * s[n - 1 - j]
  {
  }

  /** The prediction reads only the samples before n. */
  lemma PredictReadsPast(a: seq<int>, s: seq<int>, t: seq<int>, n: int)
    requires 0 <= n <= |s| && n <= |t| && s[..n] == t[..n]
    ensures Predict(a, s, n) == Predict(a, t, n)
  {
    forall j | 0 <= j < |a|
      ensures PredictTerm(a, s, n, j) == PredictTerm(a, t, n, j)
    {
      var k := n - 1 - j;
      assert 0 <= k ==> s[..n][k] == t[..n][k];
      assert At(s, k) == At(t, k);
    }
    SumCong(|a|, j => PredictTerm(a, s, n, j), j => PredictTerm(a, t, n, j));
  }

  /** The coefficients in use at sample i of a frame of two subframes. */
  function CoefficientsAt(qLP: seq<int>, p: nat, subframe: nat, i: int): seq<int>
    requires |qLP| == 2 * p
  {
    if i < subframe then qLP[..p] else qLP[p..]
  }

  /** eq A.3 over a frame; x starts with the p samples before the frame. */
  method ComputeLPResidual(x: seq<int>, qLP: seq<int>, p: nat, subframe: nat) returns (residual: array<int>)
    requires |qLP| == 2 * p && |x| == p + 2 * subframe
    ensures fresh(residual) && residual.Length == 2 * subframe
    ensures forall i :: 0 <= i < 2 * subframe ==>
                          residual[i] == Saturate16(Residual(CoefficientsAt(qLP, p, subframe, i), x, p + i))
    ensures forall i {:trigger residual[i]} :: 0 <= i < 2 * subframe ==>
              var a := CoefficientsAt(qLP, p, subframe, i);
              NearestWord(residual[i], 4096 * x[p + i] + Sum(p, j => At(a, j) * At(x, p + i - 1 - j)), 4096)
  {
    hide Residual, Predict, NearestWord, Saturate16;
    residual := new int[2 * subframe];
    var i := 0;
    while i < subframe
      invariant 0 <= i <= subframe
      invariant forall k :: 0 <= k < i ==>
                residual[k] == Saturate16(Residual(CoefficientsAt(qLP, p, subframe, k), x, p + k))
    {
      residual[i] := ResidualSample(x, qLP[..p], p, i);
      i := i + 1;
    }
    while i < 2 * subframe
      invariant subframe <= i <= 2 * subframe
      invariant forall k :: 0 <= k < i ==>
                residual[k] == Saturate16(Residual(CoefficientsAt(qLP, p, subframe, k), x, p + k))
    {
      residual[i] := ResidualSample(x, qLP[p..], p, i);
      i := i + 1;
    }
    forall k | 0 <= k < 2 * subframe
      ensures var a := CoefficientsAt(qLP, p, subframe, k);
              NearestWord(residual[k], 4096 * x[p + k] + Sum(p, j => At(a, j) * At(x, p + k - 1 - j)), 4096)
    {
      ResidualIsNearest(CoefficientsAt(qLP, p, subframe, k), x, p + k);
    }
  }

  method ResidualSample(x: seq<int>, a: seq<int>, p: nat, i: nat) returns (r: int)
    requires |a| == p && p + i < |x|
    ensures r == Saturate16(Residual(a, x, p + i))
  {
    var acc := x[p + i] * 4096;
    var j := 0;
    while j < p
      invariant 0 <= j <= p
      invariant acc == x[p + i] * 4096 + Sum(j, j => PredictTerm(a, x, p + i, j))
    {
      NextTerm(a, x, p + i, j);
      acc := acc + a[j] * x[p + i - j - 1];
      j := j + 1;
    }
    r := Saturate16(Pshr(acc, 12));
  }

  /** eq 77 over one subframe, in place behind the samples already reconstructed. */
  method LPSynthesisFilter(excitation: seq<int>, a: seq<int>, y: array<int>, start: nat)
    requires |a| <= start && start + |excitation| <= y.Length
    modifies y
    ensures y[..start] == old(y[..start])
    ensures y[start + |excitation|..] == old(y[start + |excitation|..])
    ensures forall i :: 0 <= i < |excitation| ==> y[start + i] == Synthesis(a, excitation[i], y[..], start + i)
    ensures var s := y[..];
            forall i :: 0 <= i < |excitation| ==>
              NearestWord(s[start + i], 4096 * excitation[i] - Sum(|a|, j => At(a, j) * At(s, start + i - 1 - j)), 4096)
  {
    hide Synthesis, Predict, NearestWord;
    var i := 0;
    while i < |excitation|
      invariant 0 <= i <= |excitation|
      invariant y[..start] == old(y[..start])
      invariant y[start + i..] == old(y[start + i..])
      invariant forall k :: 0 <= k < i ==> y[start + k] == Synthesis(a, excitation[k], y[..], start + k)
    {
      var before := y[..];
      var sample := SynthesisSample(excitation[i], a, y, start + i);
      y[start + i] := sample;
      forall k | 0 <= k <= i
        ensures Synthesis(a, excitation[k], y[..], start + k) == Synthesis(a, excitation[k], before, start + k)
      {
        assert y[..][..start + k] == before[..start + k];
        SynthesisReadsPast(a, excitation[k], y[..], before, start + k);
      }
      i := i + 1;
    }
    ghost var s := y[..];
    forall k | 0 <= k < |excitation|
      ensures NearestWord(s[start + k], 4096 * excitation[k] - Sum(|a|, j => At(a, j) * At(s, start + k - 1 - j)), 4096)
    {
      SynthesisIsNearest(a, excitation[k], s, start + k);
    }
  }

  lemma SynthesisReadsPast(a: seq<int>, e: int, s: seq<int>, t: seq<int>, n: int)
    requires 0 <= n <= |s| && n <= |t| && s[..n] == t[..n]
    ensures Synthesis(a, e, s, n) == Synthesis(a, e, t, n)
  {
    PredictReadsPast(a, s, t, n);
  }

  method SynthesisSample(excitation: int, a: seq<int>, y: array<int>, n: nat) returns (sample: int)
    requires |a| <= n < y.Length
    ensures sample == Synthesis(a, excitation, y[..], n)
  {
    ghost var s := y[..];
    var acc := excitation * 4096;
    var j := 0;
    while j < |a|
      invariant 0 <= j <= |a|
      invariant acc == excitation * 4096 - Sum(j, j => PredictTerm(a, s, n, j))
    {
      NextTerm(a, s, n, j);
      acc := acc - a[j] * y[n - j - 1];
      j := j + 1;
    }
    sample := Saturate16(Pshr(acc, 12));
  }

  // ---- The 32-bit accumulators

  /** Sum of the magnitudes of the coefficients, Q12. */
  function Magnitude(a: seq<int>): int {
    Sum(|a|, j => Abs(At(a, j)))
  }

  /** The first k terms of the prediction. */
  function PartialPrediction(a: seq<int>, s: seq<int>, n: int, k: nat): int {
    Sum(k, j => PredictTerm(a, s, n, j))
  }

  lemma TermBounded(a: seq<int>, s: seq<int>, n: int, j: int)
    requires forall i :: 0 <= i < |s| ==> Fits16(s[i])
    ensures Abs(PredictTerm(a, s, n, j)) <= 0x8000 * Abs(At(a, j))
  {
    var x, y := At(a, j), At(s, n - 1 - j);
    assert -0x8000 <= y <= 0x8000;
    if x >= 0 {
      MultiplyMonotone(y, 0x8000, x);
      MultiplyMonotone(-0x8000, y, x);
    } else {
      MultiplyMonotone(y, 0x8000, -x);
      MultiplyMonotone(-0x8000, y, -x);
      assert y * -x == -(x * y);
    }
  }

  lemma {:induction false} PartialMagnitude(a: seq<int>, k: nat, m: nat)
    requires k <= m
    ensures 0 <= Sum(k, j => Abs(At(a, j))) <= Sum(m, j => Abs(At(a, j)))
  {
    if m > k {
      PartialMagnitude(a, k, m - 1);
    } else if m > 0 {
      PartialMagnitude(a, k - 1, m - 1);
    }
  }

  /** Fifteen in Q12, less one. */
  const MAGNITUDE_LIMIT := 61439

  /** Below that limit no accumulator of either filter leaves 32 bits on 16-bit samples, at no term of the sum and not
      in the final rounding. */
  lemma AccumulatorsFit(a: seq<int>, s: seq<int>, sample: int, n: int, k: nat)
    requires Magnitude(a) <= MAGNITUDE_LIMIT && Fits16(sample) && k <= |a|
    requires forall i :: 0 <= i < |s| ==> Fits16(s[i])
    ensures var p := PartialPrediction(a, s, n, k);
            && Fits32(sample * 4096 + p) && Fits32(sample * 4096 + p + 2048)
            && Fits32(sample * 4096 - p) && Fits32(sample * 4096 - p + 2048)
  {
    hide PredictTerm;
    var f, g := (j: int) => PredictTerm(a, s, n, j), (j: int) => Abs(At(a, j));
    var h := (j: int) => 0x8000 * g(j);
    forall j | 0 <= j < k
      ensures Abs(f(j)) <= h(j)
    {
      TermBounded(a, s, n, j);
    }
    AbsSum(k, f, h);
    SumScale(k, g, h, 0x8000);
    PartialMagnitude(a, k, |a|);
  }

  /** What both filters return: a residual inside 16 bits, unless the prediction lies halfway between two integers
      and both round up; a residual cut by saturation only where a tie or the saturation of the synthesis undoes the
      cut. */
  predicate Reproducible(prediction: int, sample: int) {
    var residual := Pshr(sample * 4096 + prediction, 12);
    var tie := prediction % 4096 == 2048;
    if residual > MAXINT16 then (residual == MAXINT16 + 1 && tie) || sample == -MAXINT16 - 1
    else if residual < -MAXINT16 - 1 then sample == MAXINT16
    else !tie || sample == MAXINT16
  }

  /** One sample through both filters with the same past. */
  lemma SampleReproduced(x: int, s: int)
    requires Fits16(x)
    ensures Saturate16(Pshr(Saturate16(Pshr(x * 4096 + s, 12)) * 4096 - s, 12)) == x <==> Reproducible(s, x)
  {
    Powers();
    var q, t := s / 4096, s % 4096;
    assert s == q * 4096 + t;
    var up := if t < 2048 then 0 else 1;
    QuotientUnique(x * 4096 + s + 2048, 4096, x + q + up);
    var e := Saturate16(x + q + up);
    QuotientUnique(e * 4096 - s + 2048, 4096, e - q - if t <= 2048 then 0 else 1);
  }

  /** y is x synthesised back from its residual, with coefficients that may change at every sample. */
  ghost predicate Resynthesised(x: seq<int>, y: seq<int>, coefficients: int -> seq<int>, p: nat) {
    && |x| == |y| && p <= |x| && x[..p] == y[..p]
    && forall n :: p <= n < |x| ==>
       y[n] == Synthesis(coefficients(n), Saturate16(Residual(coefficients(n), x, n)), y, n)
  }

  lemma SampleByInduction(x: seq<int>, y: seq<int>, coefficients: int -> seq<int>, p: nat, n: nat)
    requires Resynthesised(x, y, coefficients, p) && p <= n < |x| && x[..n] == y[..n] && Fits16(x[n])
    ensures y[n] == x[n] <==> Reproducible(Predict(coefficients(n), x, n), x[n])
  {
    hide Predict, Pshr, Saturate16;
    var a := coefficients(n);
    PredictReadsPast(a, x, y, n);
    SampleReproduced(x[n], Predict(a, x, n));
  }

  lemma {:induction false} PrefixReproduced(x: seq<int>, y: seq<int>, coefficients: int -> seq<int>, p: nat, n: nat)
    requires Resynthesised(x, y, coefficients, p) && p <= n <= |x|
    requires forall k :: p <= k < |x| ==> Fits16(x[k])
    requires forall k :: p <= k < n ==> Reproducible(Predict(coefficients(k), x, k), x[k])
    ensures x[..n] == y[..n]
  {
    hide Synthesis, Residual, Predict;
    if n > p {
      PrefixReproduced(x, y, coefficients, p, n - 1);
      SampleByInduction(x, y, coefficients, p, n - 1);
      assert x[..n] == x[..n - 1] + [x[n - 1]] && y[..n] == y[..n - 1] + [y[n - 1]];
    }
  }

  /** Analysis then synthesis returns the very signal exactly when every sample is reproducible. */
  lemma PerfectReconstruction(x: seq<int>, y: seq<int>, coefficients: int -> seq<int>, p: nat)
    requires Resynthesised(x, y, coefficients, p)
    requires forall k :: p <= k < |x| ==> Fits16(x[k])
    ensures y == x <==> forall n :: p <= n < |x| ==> Reproducible(Predict(coefficients(n), x, n), x[n])
  {
    hide Synthesis, Residual, Predict;
    if forall n :: p <= n < |x| ==> Reproducible(Predict(coefficients(n), x, n), x[n]) {
      PrefixReproduced(x, y, coefficients, p, |x|);
      assert x == x[..|x|] && y == y[..|y|];
    }
    if y == x {
      forall n | p <= n < |x|
        ensures Reproducible(Predict(coefficients(n), x, n), x[n])
      {
        SampleByInduction(x, y, coefficients, p, n);
      }
    }
  }

  /** A whole frame through both filters, two sets of coefficients and one history. */
  method AnalyseAndSynthesise(x: seq<int>, qLP: seq<int>, p: nat, subframe: nat) returns (y: array<int>)
    requires |qLP| == 2 * p && |x| == p + 2 * subframe
    requires forall k :: 0 <= k < |x| ==> Fits16(x[k])
    ensures y[..] == x <==> forall i :: 0 <= i < 2 * subframe ==>
                              Reproducible(Predict(CoefficientsAt(qLP, p, subframe, i), x, p + i), x[p + i])
  {
    hide Synthesis, Residual, Predict;
    var residual := ComputeLPResidual(x, qLP, p, subframe);
    var excitation := residual[..];
    y := new int[|x|];
    var k := 0;
    while k < p
      invariant 0 <= k <= p && y[..k] == x[..k]
    {
      y[k] := x[k];
      k := k + 1;
    }
    LPSynthesisFilter(excitation[..subframe], qLP[..p], y, p);
    ghost var half := y[..];
    LPSynthesisFilter(excitation[subframe..], qLP[p..], y, p + subframe);
    assert y[..][..p + subframe] == half[..p + subframe];
    FrameResynthesised(x, y[..], half, excitation, qLP, p, subframe);
    hide Reproducible, Fits16, Resynthesised, CoefficientsAt;
    FrameReconstructed(x, y[..], qLP, p, subframe);
  }

  lemma FrameReconstructed(x: seq<int>, y: seq<int>, qLP: seq<int>, p: nat, subframe: nat)
    requires |qLP| == 2 * p && |x| == p + 2 * subframe && forall k :: 0 <= k < |x| ==> Fits16(x[k])
    requires Resynthesised(x, y, n => CoefficientsAt(qLP, p, subframe, n - p), p)
    ensures y == x <==> forall i :: 0 <= i < 2 * subframe ==>
                          Reproducible(Predict(CoefficientsAt(qLP, p, subframe, i), x, p + i), x[p + i])
  {
    hide Reproducible, Predict, Fits16, Resynthesised, CoefficientsAt;
    var coefficients := (n: int) => CoefficientsAt(qLP, p, subframe, n - p);
    PerfectReconstruction(x, y, coefficients, p);
    forall i | 0 <= i < 2 * subframe
      ensures coefficients(p + i) == CoefficientsAt(qLP, p, subframe, i)
    {
    }
  }

  /** Two filtered subframes, the second one behind the first, make a resynthesised frame. */
  lemma FrameResynthesised(x: seq<int>, y: seq<int>, half: seq<int>, excitation: seq<int>, qLP: seq<int>, p: nat,
                           subframe: nat)
    requires |qLP| == 2 * p && |x| == |y| == |half| == p + 2 * subframe && |excitation| == 2 * subframe
    requires half[..p] == x[..p] && y[..p + subframe] == half[..p + subframe]
    requires forall i :: 0 <= i < 2 * subframe ==>
             excitation[i] == Saturate16(Residual(CoefficientsAt(qLP, p, subframe, i), x, p + i))
    requires forall i :: 0 <= i < subframe ==>
               half[p + i] == Synthesis(qLP[..p], excitation[..subframe][i], half, p + i)
    requires forall i :: 0 <= i < subframe ==>
               y[p + subframe + i] == Synthesis(qLP[p..], excitation[subframe..][i], y, p + subframe + i)
    ensures Resynthesised(x, y, n => CoefficientsAt(qLP, p, subframe, n - p), p)
  {
    hide Synthesis, Residual;
    var coefficients := (n: int) => CoefficientsAt(qLP, p, subframe, n - p);
    forall n | p <= n < |x|
      ensures y[n] == Synthesis(coefficients(n), Saturate16(Residual(coefficients(n), x, n)), y, n)
    {
      var i := n - p;
      assert excitation[i] == Saturate16(Residual(coefficients(n), x, p + i));
      if i < subframe {
        assert half[p + i] == Synthesis(qLP[..p], excitation[..subframe][i], half, p + i);
        assert y[..n] == y[..p + subframe][..n] == half[..n];
        SynthesisReadsPast(qLP[..p], excitation[i], half, y, n);
        assert y[n] == y[..p + subframe][n] == half[n];
      } else {
        assert y[p + subframe + (i - subframe)] == Synthesis(qLP[p..], excitation[subframe..][i - subframe], y, n);
      }
    }
    assert y[..p] == y[..p + subframe][..p] == half[..p];
  }
}
