/** Windowing, autocorrelation and normalisation of computeLP.c in fixed point. */
module Autocorrelation {
  import opened IntSums
  import opened FixedPoint
  import opened SumConversion
  import R = RealSums
  import QuadraticForms
  import SignalAutocorrelation

  /** sum over j < m of w[j] * w[j-k] */
  function LagSum(w: seq<int>, k: nat, m: nat): int {
    Sum(m, j => Pair(w, j, j - k))
  }

  lemma LagZero(w: seq<int>, m: nat)
    ensures LagSum(w, 0, m) == EnergyOf(w, m)
  {
    SumCong(m, j => Pair(w, j, j - 0), j => Pair(w, j, j));
  }

  /** No partial sum at any lag exceeds the energy of the frame. */
  lemma PartialLagSumBounded(w: seq<int>, k: nat, m: nat, n: nat)
    requires m <= n
    ensures Abs(LagSum(w, k, m)) <= LagSum(w, 0, n)
  {
    hide Pair;
    CorrelationBounded(w, 0, k, m, j => Pair(w, j, j - k));
    EnergyGrows(w, m, n);
    LagZero(w, n);
  }

  /** The 64-bit energy is halved until it fits 32 bits. */
  method HalveUntilFits(x: int) returns (y: int, shift: nat)
    requires x > MAXINT32
    ensures shift > 0 && y == Shr(x, shift) && 0x40000000 <= y <= MAXINT32
  {
    y := x / 2;
    shift := 1;
    assert Pow2(0) == 1 && Pow2(1) == 2;
    while y > MAXINT32
      invariant shift > 0 && y == Shr(x, shift) && y >= 0x40000000
      decreases y
    {
      ShiftTwice(x, shift, 1);
      y := y / 2;
      shift := shift + 1;
    }
  }

  /** A lag sum in the common scale: shifted left when the scale is positive, right when it is negative. */
  function Scaled(acc: int, scale: int): int {
    if scale >= 0 then acc * Pow2(scale) else Shr(acc, -scale)
  }

  /** A sum no larger than the energy still fits 32 bits after the same shift. */
  lemma ScaledFits(acc: int, energy: int, scale: int)
    requires Abs(acc) <= energy && 0 <= Scaled(energy, scale) <= MAXINT32
    ensures Fits32(Scaled(acc, scale))
  {
    if scale >= 0 {
      MultiplyMonotone(acc, energy, Pow2(scale));
      MultiplyMonotone(-energy, acc, Pow2(scale));
      assert -energy * Pow2(scale) == -(energy * Pow2(scale));
    } else {
      QuotientFits(acc, energy, Pow2(-scale));
    }
  }

  /** The energy with the lower limit r(0) = 1 of the specification. */
  function Energy(w: seq<int>): int {
    if LagSum(w, 0, |w|) == 0 then 1 else LagSum(w, 0, |w|)
  }

  /** The n first coefficients on 32 bits, all in the scale that brings r(0) between 2^30 and 2^31. */
  method ComputeAutocorrelation(w: seq<int>, n: nat) returns (r: array<int>, scale: int)
    requires n > 0
    ensures fresh(r) && r.Length == n
    ensures 0x40000000 <= r[0] <= MAXINT32 && r[0] == Scaled(Energy(w), scale)
    ensures forall k: nat :: 1 <= k < n ==> Fits32(r[k]) && r[k] == Scaled(LagSum(w, k, |w|), scale)
  {
    r := new int[n];
    var acc64 := 0;
    var i := 0;
    while i < |w|
      invariant 0 <= i <= |w|
      invariant acc64 == LagSum(w, 0, i)
    {
      PairIs(w, i, i - 0);
      acc64 := acc64 + w[i] * w[i];
      i := i + 1;
    }
    LagZero(w, |w|);
    EnergyGrows(w, 0, |w|);
    if acc64 == 0 {
      acc64 := 1;
    }
    var rightShiftToNormalise: int := 0;
    if acc64 > MAXINT32 {
      r[0], rightShiftToNormalise := HalveUntilFits(acc64);
    } else {
      var zeros := CountLeadingZeros(acc64);
      rightShiftToNormalise := -(zeros as int);
      r[0] := acc64 * Pow2(zeros);
    }
    scale := -rightShiftToNormalise;
    i := 1;
    while i < n
      invariant 1 <= i <= n
      invariant r[0] == Scaled(Energy(w), scale) && 0x40000000 <= r[0] <= MAXINT32
      invariant forall k: nat :: 1 <= k < i ==> Fits32(r[k]) && r[k] == Scaled(LagSum(w, k, |w|), scale)
    {
      var acc: int;
      if rightShiftToNormalise > 0 {
        acc := LagSum64(w, i);
      } else {
        acc := LagSum32(w, i);
      }
      r[i] := Scaled(acc, scale);
      PartialLagSumBounded(w, i, |w|, |w|);
      ScaledFits(acc, Energy(w), scale);
      i := i + 1;
    }
  }

  method LagSum64(w: seq<int>, i: nat) returns (acc: int)
    ensures acc == LagSum(w, i, |w|)
  {
    acc := 0;
    EmptyLagSum(w, i);
    var j := i;
    while j < |w|
      invariant i <= j && (j <= |w| || j == i)
      invariant acc == LagSum(w, i, j)
    {
      acc := acc + w[j] * w[j - i];
      PairIs(w, j, j - i);
      j := j + 1;
    }
    if j > |w| {
      EmptyLagSums(w, i, |w|);
    }
  }

  /** The fast branch: every intermediate value fits 32 bits because the energy does. */
  method LagSum32(w: seq<int>, i: nat) returns (acc: int)
    requires LagSum(w, 0, |w|) <= MAXINT32
    ensures acc == LagSum(w, i, |w|) && Fits32(acc)
  {
    acc := 0;
    EmptyLagSum(w, i);
    var j := i;
    while j < |w|
      invariant i <= j && (j <= |w| || j == i)
      invariant acc == LagSum(w, i, j) && Fits32(acc)
    {
      acc := acc + w[j] * w[j - i];
      PairIs(w, j, j - i);
      PartialLagSumBounded(w, i, j + 1, |w|);
      j := j + 1;
    }
    if j > |w| {
      EmptyLagSums(w, i, |w|);
    }
  }

  lemma {:induction false} EmptyLagSums(w: seq<int>, i: nat, m: nat)
    requires m <= i
    ensures LagSum(w, i, m) == 0
  {
    if m > 0 {
      EmptyLagSums(w, i, m - 1);
      PairIs(w, m - 1, m - 1 - i);
    }
  }

  lemma EmptyLagSum(w: seq<int>, i: nat)
    ensures LagSum(w, i, i) == 0
  {
    EmptyLagSums(w, i, i);
  }

  /** MULT16_16_P15 with a window sample. */
  function Windowed(sample: int, window: int): (v: int)
    requires Fits16(sample) && 0 <= window <= MAXINT16
    ensures Fits16(v) && NearestWord(v, sample * window, 0x8000)
  {
    WindowedFits(sample, window);
    Powers();
    SaturatedIsNearest(sample * window, 15);
    Shr(16384 + sample * window, 15)
  }

  lemma WindowedFits(sample: int, window: int)
    requires Fits16(sample) && 0 <= window <= MAXINT16
    ensures Fits16(Shr(16384 + sample * window, 15))
  {
    MultiplyMonotone(sample, 0x7fff, window);
    MultiplyMonotone(-0x8000, sample, window);
    Powers();
    assert Shr(16384 + sample * window, 15) == (16384 + sample * window) / 0x8000;
    QuotientBelow(16384 + sample * window, 0x8000, 0x8000);
    QuotientAbove(16384 + sample * window, 0x8000, -0x8000);
  }

  /** Lag windowing keeps every coefficient within the magnitude it had. */
  lemma LagWindowShrinks(window: int, r: int)
    requires 0 <= window <= MAXINT16
    ensures Abs(SplitMultiplyRounded(window, r, 15)) <= Abs(r)
  {
    hide SplitMultiplyRounded;
    SplitMultiplyRoundedIsNearest(window, r, 15);
    Powers();
    hide Pow2;
    var m: int := Abs(r);
    MultiplyMonotone(window, 0x7fff, m);
    assert window * r == window * m || window * r == -(window * m) by {
      assert r == m || r == -m;
    }
    MultiplyMonotone(0, window, m);
    if r != 0 {
      QuotientBelow(window * r + 16384, 0x8000, m + 1);
      QuotientAbove(window * r + 16384, 0x8000, -m);
    }
  }

  method ApplyWindow(signal: seq<int>, wlp: seq<int>) returns (w: seq<int>)
    requires |wlp| == |signal|
    requires forall i :: 0 <= i < |signal| ==> Fits16(signal[i]) && 0 <= wlp[i] <= MAXINT16
    ensures |w| == |signal| && forall i :: 0 <= i < |w| ==> w[i] == Windowed(signal[i], wlp[i])
    ensures forall i :: 0 <= i < |w| ==> NearestWord(w[i], signal[i] * wlp[i], 0x8000)
  {
    hide NearestWord;
    var windowed := new int[|signal|];
    var i := 0;
    while i < |signal|
      invariant 0 <= i <= |signal|
      invariant forall j :: 0 <= j < i ==> windowed[j] == Windowed(signal[j], wlp[j])
    {
      windowed[i] := Windowed(signal[i], wlp[i]);
      i := i + 1;
    }
    w := windowed[..];
  }

  /** eq 7, in place; r(0) is left alone. */
  method ApplyLagWindow(r: array<int>, wlag: seq<int>)
    requires 0 < r.Length <= |wlag|
    requires forall k :: 0 <= k < r.Length ==> 0 <= wlag[k] <= MAXINT16
    modifies r
    ensures r[0] == old(r[0])
    ensures forall k :: 1 <= k < r.Length ==> r[k] == Pshr(wlag[k] * old(r[k]), 15) && Abs(r[k]) <= Abs(old(r[k]))
  {
    hide Pshr, SplitMultiplyRounded;
    var i := 1;
    while i < r.Length
      invariant 1 <= i <= r.Length && r[0] == old(r[0])
      invariant forall k :: i <= k < r.Length ==> r[k] == old(r[k])
      invariant forall k :: 1 <= k < i ==> r[k] == Pshr(wlag[k] * old(r[k]), 15) && Abs(r[k]) <= Abs(old(r[k]))
    {
      LagWindowShrinks(wlag[i], r[i]);
      SplitMultiplyRoundedIsNearest(wlag[i], r[i], 15);
      r[i] := SplitMultiplyRounded(wlag[i], r[i], 15);
      i := i + 1;
    }
  }

  /** Windowing, autocorrelation and lag windowing; noLag is what DTX reads. */
  method ComputeLagWindowedAutocorrelation(signal: seq<int>, wlp: seq<int>, wlag: seq<int>, n: nat)
    returns (r: array<int>, noLag: seq<int>, scale: int, w: seq<int>)
    requires 0 < n <= |wlag| && |wlp| == |signal|
    requires forall i :: 0 <= i < |signal| ==> Fits16(signal[i]) && 0 <= wlp[i] <= MAXINT16
    requires forall k :: 0 <= k < n ==> 0 <= wlag[k] <= MAXINT16
    ensures fresh(r) && r.Length == |noLag| == n
    ensures |w| == |signal| && forall i :: 0 <= i < |w| ==> w[i] == Windowed(signal[i], wlp[i])
    ensures forall i :: 0 <= i < |w| ==> NearestWord(w[i], signal[i] * wlp[i], 0x8000)
    ensures 0x40000000 <= r[0] == noLag[0] <= MAXINT32 && r[0] == Scaled(Energy(w), scale)
    ensures forall k: nat :: 1 <= k < n ==> Fits32(noLag[k]) && noLag[k] == Scaled(LagSum(w, k, |w|), scale)
    ensures forall k: nat :: 1 <= k < n ==> r[k] == Pshr(wlag[k] * noLag[k], 15) && Abs(r[k]) <= Abs(noLag[k])
  {
    hide Pshr, Scaled, Windowed, LagSum, Energy, NearestWord;
    w := ApplyWindow(signal, wlp);
    r, scale := ComputeAutocorrelation(w, n);
    noLag := r[..];
    ApplyLagWindow(r, wlag);
  }

  lemma PairAsReal(w: seq<int>, i: int, j: int)
    ensures SignalAutocorrelation.Pair(AsReals(w), i, j) == Pair(w, i, j) as real
  {
    assert R.At(AsReals(w), i) == At(w, i) as real && R.At(AsReals(w), j) == At(w, j) as real;
    ProductAsReal(At(w, i), At(w, j));
  }

  /** The exact lag sums of a frame, as reals. */
  function ExactCoefficients(w: seq<int>, n: nat): seq<real> {
    seq(n, k => if k >= 0 then LagSum(w, k, |w|) as real else 0.0)
  }

  /** Hence every predictor computed from a frame has non-negative energy, whatever the samples. */
  lemma FrameIsPositiveSemidefinite(w: seq<int>, n: nat)
    ensures QuadraticForms.PositiveSemidefinite(ExactCoefficients(w, n), n)
  {
    var x := AsReals(w);
    forall k | 0 <= k < n
      ensures LagSum(w, k, |w|) as real == SignalAutocorrelation.Autocorrelation(x, k)
    {
      var f := (j: int) => Pair(w, j, j - k);
      var g := (j: int) => SignalAutocorrelation.Pair(x, j, j - k);
      forall j
        ensures g(j) == f(j) as real
      {
        PairAsReal(w, j, j - k);
      }
      SumAsReal(|w|, f, g);
    }
    assert ExactCoefficients(w, n) == SignalAutocorrelation.Coefficients(x, n);
    SignalAutocorrelation.SignalIsPositiveSemidefinite(x, n);
  }
}
