/** The interpolated past excitation, as the encoder and the decoder compute it in place. */
module AdaptiveCodebook {
  import opened CodecParameters
  import opened FixedPoint
  import opened IntSums

  const B30: seq<int> := [29443, 25207, 14701, 3143, -4402, -5850, -2783, 1211, 3130, 2259, 0, -1652, -1666, -464, 756,
                          1099, 550, -245, -634, -451, 0, 308, 296, 78, -120, -165, -79, 34, 91, 70, 0]

  /** Coefficient i of the interpolation filter, in Q15. */
  function B30At(i: int): int
    requires 0 <= i < 31
  {
    B30[i]
  }

  /** A whole delay k and a phase t of the interpolation filter, and the past it reads. */
  datatype Delay = Delay(k: int, t: int)

  predicate InRange(d: Delay) {
    19 <= d.k <= 144 && 0 <= d.t <= 2
  }

  /** eq 40 as a recursion: sample n from earlier samples only, the past for n < 0. */
  function Sample(past: seq<int>, d: Delay, n: int): int
    requires |past| == L_PAST_EXCITATION && InRange(d) && -L_PAST_EXCITATION <= n
    decreases n + L_PAST_EXCITATION, 11
  {
    if n < 0 then past[L_PAST_EXCITATION + n] else Saturate16(Pshr(Accumulator(past, d, n, 10), 15))
  }

  /** The first i pairs of products. */
  function Accumulator(past: seq<int>, d: Delay, n: int, i: nat): int
    requires |past| == L_PAST_EXCITATION && InRange(d) && 0 <= n && i <= 10
    decreases n + L_PAST_EXCITATION, i
  {
    if i == 0 then 0
    else Accumulator(past, d, n, i - 1)
         + Sample(past, d, n - d.k - (i - 1)) * B30At(d.t + 3 * (i - 1))
         + Sample(past, d, n - d.k + 1 + (i - 1)) * B30At(3 - d.t + 3 * (i - 1))
  }

  /** The 40 samples of a subframe. */
  function Vector(past: seq<int>, d: Delay): (r: seq<int>)
    requires |past| == L_PAST_EXCITATION && InRange(d)
    ensures |r| == L_SUBFRAME
  {
    seq(L_SUBFRAME, n requires 0 <= n < L_SUBFRAME => Sample(past, d, n))
  }

  /** The past excitation a subframe later. */
  function Advanced(past: seq<int>, subframe: seq<int>): (r: seq<int>)
    requires |past| == L_PAST_EXCITATION && |subframe| == L_SUBFRAME
    ensures |r| == L_PAST_EXCITATION
  {
    past[L_SUBFRAME..] + subframe
  }

  /** Fractional lag to whole delay and filter phase. */
  function DelayOf(intPitchDelay: int, fracPitchDelay: int): Delay {
    if fracPitchDelay == 1 then Delay(intPitchDelay + 1, 2) else Delay(intPitchDelay, -fracPitchDelay)
  }

  ghost predicate Fresh40(excitation: array<int>, start: int) {
    L_PAST_EXCITATION <= start && start + L_SUBFRAME <= excitation.Length
  }

  /** The samples before start are the past, those from start to start + n the recursion. */
  ghost predicate Filled(buffer: seq<int>, start: int, past: seq<int>, d: Delay, n: int)
    requires |past| == L_PAST_EXCITATION && InRange(d)
  {
    && L_PAST_EXCITATION <= start && start + n <= |buffer|
    && forall m :: -L_PAST_EXCITATION <= m < n ==> buffer[start + m] == Sample(past, d, m)
  }

  /** One sample from a buffer in which everything it reads is already there. */
  method InterpolatedSample(excitation: array<int>, start: int, ghost past: seq<int>, d: Delay, n: nat) returns (v: int)
    requires |past| == L_PAST_EXCITATION && InRange(d) && n < L_SUBFRAME && start + n < excitation.Length
    requires Filled(excitation[..], start, past, d, n)
    ensures v == Sample(past, d, n)
  {
    hide Saturate16, Pshr, Sample, B30At;
    ghost var buffer := excitation[..];
    var acc, i, j := 0, 0, 0;
    EmptyAccumulator(past, d, n);
    while i < 10
      invariant 0 <= i <= 10 && j == 3 * i
      invariant acc == Accumulator(past, d, n, i)
    {
      assert buffer[start + (n - d.k - i)] == Sample(past, d, n - d.k - i);
      assert buffer[start + (n - d.k + 1 + i)] == Sample(past, d, n - d.k + 1 + i);
      NextAccumulator(past, d, n, i);
      acc := acc + excitation[start - d.k + n - i] * B30At(d.t + j);
      acc := acc + excitation[start - d.k + n + 1 + i] * B30At(3 - d.t + j);
      i, j := i + 1, j + 3;
    }
    SampleIs(past, d, n);
    v := Saturate16(Pshr(acc, 15));
  }

  lemma EmptyAccumulator(past: seq<int>, d: Delay, n: int)
    requires |past| == L_PAST_EXCITATION && InRange(d) && 0 <= n
    ensures Accumulator(past, d, n, 0) == 0
  {
  }

  lemma NextAccumulator(past: seq<int>, d: Delay, n: int, i: nat)
    requires |past| == L_PAST_EXCITATION && InRange(d) && 0 <= n && i < 10
    ensures Accumulator(past, d, n, i + 1)
         == Accumulator(past, d, n, i) + Sample(past, d, n - d.k - i) * B30At(d.t + 3 * i)
          + Sample(past, d, n - d.k + 1 + i) * B30At(3 - d.t + 3 * i)
  {
    hide B30At, Sample;
  }

  lemma SampleIs(past: seq<int>, d: Delay, n: int)
    requires |past| == L_PAST_EXCITATION && InRange(d) && 0 <= n
    ensures Sample(past, d, n) == Saturate16(Pshr(Accumulator(past, d, n, 10), 15))
  {
  }

  lemma PastSamples(buffer: seq<int>, start: int, past: seq<int>, d: Delay)
    requires |past| == L_PAST_EXCITATION && InRange(d) && L_PAST_EXCITATION <= start <= |buffer|
    requires past == buffer[start - L_PAST_EXCITATION..start]
    ensures Filled(buffer, start, past, d, 0)
  {
  }

  /** Sample n is the word nearest to eq 40 at a delay counted in thirds of a sample: two branches of ten products, the
      filter read at every third place from the phase on, in Q15. */
  ghost predicate Interpolates(buffer: seq<int>, start: int, thirds: int, n: nat) {
    var k := (thirds + 2) / 3;
    var t := 3 * k - thirds;
    && 0 <= start + n < |buffer|
    && NearestWord(buffer[start + n],
                   Sum(10, i => At(buffer, start + n - k - i) * At(B30, t + 3 * i)
                                + At(buffer, start + n - k + 1 + i) * At(B30, 3 - t + 3 * i)), 0x8000)
  }

  /** A whole delay less a phase of 0, 1 or 2 thirds. */
  lemma DelayInThirds(intPitchDelay: int, fracPitchDelay: int)
    requires -1 <= fracPitchDelay <= 1
    ensures var d := DelayOf(intPitchDelay, fracPitchDelay);
            && 3 * d.k - d.t == 3 * intPitchDelay + fracPitchDelay && 0 <= d.t <= 2
            && d.k == (3 * intPitchDelay + fracPitchDelay + 2) / 3
  {
  }

  lemma {:induction false} AccumulatorIsSum(buffer: seq<int>, start: int, past: seq<int>, d: Delay, n: nat, m: nat,
                                            f: int -> int)
    requires |past| == L_PAST_EXCITATION && InRange(d) && n < L_SUBFRAME && m <= 10
    requires Filled(buffer, start, past, d, n)
    requires forall i {:trigger f(i)} :: 0 <= i < m ==>
               f(i) == At(buffer, start + n - d.k - i) * At(B30, d.t + 3 * i)
                       + At(buffer, start + n - d.k + 1 + i) * At(B30, 3 - d.t + 3 * i)
    ensures Accumulator(past, d, n, m) == Sum(m, f)
  {
    hide Sample;
    if m > 0 {
      var i := m - 1;
      AccumulatorIsSum(buffer, start, past, d, n, i, f);
      ReadsInRange(d, n, i);
      assert buffer[start + (n - d.k - i)] == Sample(past, d, n - d.k - i);
      assert buffer[start + (n - d.k + 1 + i)] == Sample(past, d, n - d.k + 1 + i);
      assert f(i) == At(buffer, start + n - d.k - i) * At(B30, d.t + 3 * i)
                     + At(buffer, start + n - d.k + 1 + i) * At(B30, 3 - d.t + 3 * i);
      NextAccumulator(past, d, n, i);
    }
  }

  lemma SampleInterpolates(buffer: seq<int>, start: int, past: seq<int>, d: Delay, n: nat)
    requires |past| == L_PAST_EXCITATION && InRange(d) && Filled(buffer, start, past, d, n + 1) && n < L_SUBFRAME
    ensures Interpolates(buffer, start, 3 * d.k - d.t, n)
  {
    hide Sample, Saturate16, Pshr, NearestWord, Accumulator, At, Sum;
    var f := (i: int) => At(buffer, start + n - d.k - i) * At(B30, d.t + 3 * i)
                         + At(buffer, start + n - d.k + 1 + i) * At(B30, 3 - d.t + 3 * i);
    AccumulatorIsSum(buffer, start, past, d, n, 10, f);
    SampleIs(past, d, n);
    Powers();
    SaturatedIsNearest(Sum(10, f), 15);
    assert buffer[start + n] == Sample(past, d, n);
    WholeDelay(d);
  }

  lemma WholeDelay(d: Delay)
    requires InRange(d)
    ensures (3 * d.k - d.t + 2) / 3 == d.k
  {
  }

  ghost predicate AllInterpolate(buffer: seq<int>, start: int, thirds: int) {
    forall n :: 0 <= n < L_SUBFRAME ==> Interpolates(buffer, start, thirds, n)
  }

  lemma FilledInterpolates(buffer: seq<int>, start: int, past: seq<int>, d: Delay)
    requires |past| == L_PAST_EXCITATION && InRange(d) && Filled(buffer, start, past, d, L_SUBFRAME)
    ensures AllInterpolate(buffer, start, 3 * d.k - d.t)
  {
    hide Sample, Interpolates;
    var thirds := 3 * d.k - d.t;
    forall n | 0 <= n < L_SUBFRAME
      ensures Interpolates(buffer, start, thirds, n)
    {
      SampleInterpolates(buffer, start, past, d, n);
    }
  }

  /** The decoder's version: reads reach back 153 samples at most and never to a sample not yet written. */
  method ComputeAdaptativeCodebookVector(excitation: array<int>, start: int, fracPitchDelay: int, intPitchDelay: int)
    requires Fresh40(excitation, start) && -1 <= fracPitchDelay <= 1 && InRange(DelayOf(intPitchDelay, fracPitchDelay))
    modifies excitation
    ensures excitation[..start] == old(excitation[..start])
    ensures excitation[start + L_SUBFRAME..] == old(excitation[start + L_SUBFRAME..])
    ensures excitation[start..start + L_SUBFRAME]
         == Vector(old(excitation[start - L_PAST_EXCITATION..start]), DelayOf(intPitchDelay, fracPitchDelay))
    ensures AllInterpolate(excitation[..], start, 3 * intPitchDelay + fracPitchDelay)
  {
    hide Sample, AllInterpolate;
    var delay: int, phase: int;
    if fracPitchDelay == 1 {
      delay, phase := intPitchDelay + 1, 2;
    } else {
      delay, phase := intPitchDelay, -fracPitchDelay;
    }
    ghost var past := excitation[start - L_PAST_EXCITATION..start];
    var d := Delay(delay, phase);
    PastSamples(excitation[..], start, past, d);
    var n := 0;
    while n < L_SUBFRAME
      invariant 0 <= n <= L_SUBFRAME
      invariant excitation[..start] == old(excitation[..start])
      invariant excitation[start + L_SUBFRAME..] == old(excitation[start + L_SUBFRAME..])
      invariant Filled(excitation[..], start, past, d, n)
    {
      var v := InterpolatedSample(excitation, start, past, d, n);
      excitation[start + n] := v;
      n := n + 1;
    }
    VectorFilled(excitation[..], start, past, d);
    DelayInThirds(intPitchDelay, fracPitchDelay);
    FilledInterpolates(excitation[..], start, past, d);
    assert excitation[start..start + L_SUBFRAME] == excitation[..][start..start + L_SUBFRAME];
  }

  lemma VectorFilled(buffer: seq<int>, start: int, past: seq<int>, d: Delay)
    requires |past| == L_PAST_EXCITATION && InRange(d) && Filled(buffer, start, past, d, L_SUBFRAME)
    ensures buffer[start..start + L_SUBFRAME] == Vector(past, d)
  {
  }

  /** The encoder's version: another way to split the lag, the same vector. */
  method GenerateAdaptativeCodebookVector(excitation: array<int>, start: int, intPitchDelay: int, fracPitchDelay: int)
    requires Fresh40(excitation, start) && -1 <= fracPitchDelay <= 1 && InRange(DelayOf(intPitchDelay, fracPitchDelay))
    modifies excitation
    ensures excitation[..start] == old(excitation[..start])
    ensures excitation[start + L_SUBFRAME..] == old(excitation[start + L_SUBFRAME..])
    ensures excitation[start..start + L_SUBFRAME]
         == Vector(old(excitation[start - L_PAST_EXCITATION..start]), DelayOf(intPitchDelay, fracPitchDelay))
    ensures AllInterpolate(excitation[..], start, 3 * intPitchDelay + fracPitchDelay)
  {
    hide Sample, AllInterpolate;
    var phase, delay := -fracPitchDelay, intPitchDelay;
    if phase < 0 {
      delay, phase := delay + 1, 2;
    }
    ghost var past := excitation[start - L_PAST_EXCITATION..start];
    var d := Delay(delay, phase);
    PastSamples(excitation[..], start, past, d);
    var n := 0;
    while n < L_SUBFRAME
      invariant 0 <= n <= L_SUBFRAME
      invariant excitation[..start] == old(excitation[..start])
      invariant excitation[start + L_SUBFRAME..] == old(excitation[start + L_SUBFRAME..])
      invariant Filled(excitation[..], start, past, d, n)
    {
      var v := InterpolatedSample(excitation, start, past, d, n);
      excitation[start + n] := v;
      n := n + 1;
    }
    VectorFilled(excitation[..], start, past, d);
    DelayInThirds(intPitchDelay, fracPitchDelay);
    FilledInterpolates(excitation[..], start, past, d);
    assert excitation[start..start + L_SUBFRAME] == excitation[..][start..start + L_SUBFRAME];
  }

  /** Where sample n of a subframe may read: far enough behind it, never before the start of the past. */
  lemma ReadsInRange(d: Delay, n: nat, i: nat)
    requires InRange(d) && n < L_SUBFRAME && i < 10
    ensures -153 <= n - d.k - i && n - d.k + 1 + i <= n - 9
    ensures 0 <= d.t + 3 * i <= 29 && 1 <= 3 - d.t + 3 * i <= 30
  {
  }
}
