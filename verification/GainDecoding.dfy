/** Gain decoding and the excitation of one decoder subframe, good or erased (decodeGains.c, decoder.c, utils.c). */
module GainDecoding {
  import opened CodecParameters
  import opened FixedPoint
  import GainSearch

  const BOUNDED_PITCH_GAIN_MIN := 3277
  const BOUNDED_PITCH_GAIN_MAX := 13107
  const LOWEST_ERROR := -14336

  /** The polynomial approximations of the source, used alike on both sides of the channel. */
  datatype Maths = Maths(log2: int -> int, exp2: int -> int)

  /** eq 69 to 71 */
  function MACodeGainPrediction(m: Maths, errors: seq<int>, vector: seq<int>): int
    requires |errors| == 4
  {
    var acc := 0x100 * (8145364 + SplitMultiply(-24660, m.log2(SquareSum(vector)), 13))
               + errors[0] * 11141 + errors[1] * 9503 + errors[2] * 5571 + errors[3] * 3113;
    m.exp2(Cast16(Pshr(SplitMultiply(5442, Shr(acc, 2), 15), 11)))
  }

  /** eq 72 */
  function PredictionError(m: Maths, correction: int): int {
    Cast16(Pshr(SplitMultiply(24660, m.log2(correction) - 786432, 12), 6))
  }

  function Entered(e: int, errors: seq<int>): (r: seq<int>)
    requires |errors| == 4
    ensures |r| == 4
  {
    [e, errors[0], errors[1], errors[2]]
  }

  datatype Gains = Gains(errors: seq<int>, adaptive: int, fixed: int, bounded: int)

  function Bounded(gain: int): int {
    if gain > BOUNDED_PITCH_GAIN_MAX then BOUNDED_PITCH_GAIN_MAX
    else if gain < BOUNDED_PITCH_GAIN_MIN then BOUNDED_PITCH_GAIN_MIN else gain
  }

  function Decoded(m: Maths, g: Gains, a: int, b: int, vector: seq<int>): (r: Gains)
    requires |g.errors| == 4 && 0 <= a < 8 && 0 <= b < 16
    ensures |r.errors| == 4
  {
    var correction := GainSearch.Correction(a, b);
    var gain := GainSearch.AdaptiveGain(a, b);
    Gains(Entered(PredictionError(m, correction), g.errors), gain,
          Cast16(Pshr(SplitMultiply(correction, MACodeGainPrediction(m, g.errors, vector), 12), 15)), Bounded(gain))
  }

  /** eq 94 */
  function AttenuatedAdaptive(gain: int): int {
    if gain < 16384 then Shr(gain * 29491, 15) else 14746
  }

  /** eq 93 */
  function AttenuatedFixed(gain: int): int {
    Shr(gain * 32113, 15)
  }

  function AttenuatedError(errors: seq<int>): int
    requires |errors| == 4
  {
    var mean := Pshr(errors[0] + errors[1] + errors[2] + errors[3], 2);
    if mean < -10240 then LOWEST_ERROR else mean - 4096
  }

  function Attenuated(g: Gains): (r: Gains)
    requires |g.errors| == 4
    ensures |r.errors| == 4
  {
    var gain := AttenuatedAdaptive(g.adaptive);
    Gains(Entered(Cast16(AttenuatedError(g.errors)), g.errors), gain, Cast16(AttenuatedFixed(g.fixed)), Bounded(gain))
  }

  /** eq 75 */
  function ExcitationSample(adaptiveSample: int, codeSample: int, adaptive: int, fixed: int): int {
    Saturate16(Pshr(adaptiveSample * adaptive + codeSample * fixed, 14))
  }

  /** It is the word nearest to the two samples times their gains, in Q14. */
  lemma ExcitationIsNearest(adaptiveSample: int, codeSample: int, adaptive: int, fixed: int)
    ensures NearestWord(ExcitationSample(adaptiveSample, codeSample, adaptive, fixed),
                        adaptiveSample * adaptive + codeSample * fixed, 0x4000)
  {
    hide Pshr, Saturate16, NearestWord;
    Powers();
    SaturatedIsNearest(adaptiveSample * adaptive + codeSample * fixed, 14);
  }

  class GainDecoder {
    const previousGainPredictionError: array<int>
    var adaptativeCodebookGain: int
    var fixedCodebookGain: int
    var boundedAdaptativeCodebookGain: int

    ghost predicate Valid()
      reads this
    {
      previousGainPredictionError.Length == 4
    }

    ghost function State(): (g: Gains)
      requires Valid()
      reads this, previousGainPredictionError
      ensures |g.errors| == 4
    {
      Gains(previousGainPredictionError[..], adaptativeCodebookGain, fixedCodebookGain, boundedAdaptativeCodebookGain)
    }

    constructor ()
      ensures Valid() && fresh(previousGainPredictionError)
      ensures State() == Gains([LOWEST_ERROR, LOWEST_ERROR, LOWEST_ERROR, LOWEST_ERROR], 0, 0, BOUNDED_PITCH_GAIN_MIN)
    {
      previousGainPredictionError := new int[4](i => LOWEST_ERROR);
      adaptativeCodebookGain, fixedCodebookGain, boundedAdaptativeCodebookGain := 0, 0, BOUNDED_PITCH_GAIN_MIN;
    }

    method EnterError(e: int)
      requires Valid()
      modifies previousGainPredictionError
      ensures previousGainPredictionError[..] == Entered(e, old(previousGainPredictionError[..]))
    {
      previousGainPredictionError[3] := previousGainPredictionError[2];
      previousGainPredictionError[2] := previousGainPredictionError[1];
      previousGainPredictionError[1] := previousGainPredictionError[0];
      previousGainPredictionError[0] := e;
    }

    /** DecodeGains for transmitted indices gA and gB, or for an erased frame. */
    method DecodeGains(m: Maths, gA: int, gB: int, fixedCodebookVector: seq<int>, frameErasureFlag: bool)
      requires Valid() && 0 <= gA < 8 && 0 <= gB < 16
      modifies this, previousGainPredictionError
      ensures Valid() && boundedAdaptativeCodebookGain == old(boundedAdaptativeCodebookGain)
      ensures var next := if frameErasureFlag then Attenuated(old(State()))
                          else Decoded(m, old(State()), GainSearch.REVERSE_INDEX_MAPPING_GA[gA],
                                       GainSearch.REVERSE_INDEX_MAPPING_GB[gB], fixedCodebookVector);
              State() == next.(bounded := boundedAdaptativeCodebookGain)
    {
      hide Cast16, Pshr, Shr, SplitMultiply, MACodeGainPrediction;
      GainSearch.MappingsInverse(gA);
      GainSearch.MappingsInverse(gB);
      if frameErasureFlag {
        if adaptativeCodebookGain < 16384 {
          adaptativeCodebookGain := Shr(adaptativeCodebookGain * 29491, 15);
        } else {
          adaptativeCodebookGain := 14746;
        }
        fixedCodebookGain := Cast16(Shr(fixedCodebookGain * 32113, 15));
        ghost var errors := previousGainPredictionError[..];
        var currentGainPredictionError := 0;
        var i := 0;
        while i < 4
          invariant 0 <= i <= 4
          invariant currentGainPredictionError == (if i > 0 then errors[0] else 0) + (if i > 1 then errors[1] else 0)
                                                  + (if i > 2 then errors[2] else 0) + (if i > 3 then errors[3] else 0)
        {
          currentGainPredictionError := currentGainPredictionError + previousGainPredictionError[i];
          i := i + 1;
        }
        currentGainPredictionError := Pshr(currentGainPredictionError, 2);
        if currentGainPredictionError < -10240 {
          currentGainPredictionError := LOWEST_ERROR;
        } else {
          currentGainPredictionError := currentGainPredictionError - 4096;
        }
        EnterError(Cast16(currentGainPredictionError));
        return;
      }
      var a := GainSearch.REVERSE_INDEX_MAPPING_GA[gA];
      var b := GainSearch.REVERSE_INDEX_MAPPING_GB[gB];
      adaptativeCodebookGain := GainSearch.GA[a].0 + GainSearch.GB[b].0;
      var predicted := MACodeGainPrediction(m, previousGainPredictionError[..], fixedCodebookVector);
      var correction := GainSearch.GA[a].1 + GainSearch.GB[b].1;
      fixedCodebookGain := Cast16(Pshr(SplitMultiply(correction, predicted, 12), 15));
      EnterError(PredictionError(m, correction));
    }

    /** The part of the subframe loop after the two vectors are known: gains, their bound, and the excitation over
        the adaptive vector. */
    method DecodeSubframe(m: Maths, gA: int, gB: int, fixedCodebookVector: seq<int>, frameErasureFlag: bool,
                          excitation: array<int>, start: nat)
      requires Valid() && 0 <= gA < 8 && 0 <= gB < 16 && |fixedCodebookVector| == L_SUBFRAME
      requires excitation != previousGainPredictionError && start + L_SUBFRAME <= excitation.Length
      modifies this, previousGainPredictionError, excitation
      ensures Valid()
      ensures State() == if frameErasureFlag then Attenuated(old(State()))
                         else Decoded(m, old(State()), GainSearch.REVERSE_INDEX_MAPPING_GA[gA],
                                      GainSearch.REVERSE_INDEX_MAPPING_GB[gB], fixedCodebookVector)
      ensures forall i :: 0 <= i < excitation.Length ==>
                excitation[i] == if start <= i < start + L_SUBFRAME
                                 then ExcitationSample(old(excitation[i]), fixedCodebookVector[i - start],
                                                       State().adaptive, State().fixed)
                                 else old(excitation[i])
      ensures forall i :: 0 <= i < L_SUBFRAME ==>
                NearestWord(excitation[start + i], old(excitation[start + i]) * adaptativeCodebookGain
                                                   + fixedCodebookVector[i] * fixedCodebookGain, 0x4000)
    {
      hide NearestWord;
      hide Cast16, Pshr, Shr, SplitMultiply, MACodeGainPrediction, ExcitationSample;
      DecodeGains(m, gA, gB, fixedCodebookVector, frameErasureFlag);
      boundedAdaptativeCodebookGain := adaptativeCodebookGain;
      if boundedAdaptativeCodebookGain > BOUNDED_PITCH_GAIN_MAX {
        boundedAdaptativeCodebookGain := BOUNDED_PITCH_GAIN_MAX;
      }
      if boundedAdaptativeCodebookGain < BOUNDED_PITCH_GAIN_MIN {
        boundedAdaptativeCodebookGain := BOUNDED_PITCH_GAIN_MIN;
      }
      ghost var now := State();
      var i := 0;
      while i < L_SUBFRAME
        invariant 0 <= i <= L_SUBFRAME && State() == now
        invariant forall k :: 0 <= k < excitation.Length ==>
                    excitation[k] == if start <= k < start + i
                                     then ExcitationSample(old(excitation[k]), fixedCodebookVector[k - start],
                                                           now.adaptive, now.fixed)
                                     else old(excitation[k])
      {
        excitation[start + i] := ExcitationSample(excitation[start + i], fixedCodebookVector[i], adaptativeCodebookGain,
                                                  fixedCodebookGain);
        i := i + 1;
      }
      forall k | 0 <= k < L_SUBFRAME
        ensures NearestWord(excitation[start + k], old(excitation[start + k]) * adaptativeCodebookGain
                                                   + fixedCodebookVector[k] * fixedCodebookGain, 0x4000)
      {
        ExcitationIsNearest(old(excitation[start + k]), fixedCodebookVector[k], adaptativeCodebookGain,
                            fixedCodebookGain);
      }
    }
  }

  // ---- Long erasures

  /** n erased subframes in a row. */
  function ErasedRun(g: Gains, n: nat): (r: Gains)
    requires |g.errors| == 4
    ensures |r.errors| == 4
  {
    if n == 0 then g else Attenuated(ErasedRun(g, n - 1))
  }

  ghost predicate Words(g: Gains) {
    |g.errors| == 4 && Fits16(g.adaptive) && Fits16(g.fixed) && forall i :: 0 <= i < 4 ==> Fits16(g.errors[i])
  }

  /** Each positive gain strictly decreases, zero stays, and a negative gain stays negative. */
  lemma GainsDecay(g: Gains)
    requires Words(g)
    ensures var r := Attenuated(g);
            && Words(r)
            && (if g.adaptive > 0 then 0 <= r.adaptive < g.adaptive else if g.adaptive == 0 then r.adaptive == 0
                else r.adaptive < 0)
            && (if g.fixed > 0 then 0 <= r.fixed < g.fixed else if g.fixed == 0 then r.fixed == 0 else r.fixed < 0)
  {
    Powers();
  }

  lemma {:induction false} RunDecays(g: Gains, n: nat)
    requires Words(g)
    ensures var r := ErasedRun(g, n);
            && Words(r)
            && (g.adaptive >= 0 ==> 0 <= r.adaptive && r.adaptive + n <= if n <= g.adaptive then g.adaptive else n)
            && (g.fixed >= 0 ==> 0 <= r.fixed && r.fixed + n <= if n <= g.fixed then g.fixed else n)
            && (g.adaptive < 0 ==> r.adaptive < 0) && (g.fixed < 0 ==> r.fixed < 0)
  {
    hide Attenuated;
    if n > 0 {
      RunDecays(g, n - 1);
      GainsDecay(ErasedRun(g, n - 1));
    }
  }

  // One erased subframe multiplies each gain by at most 32113 / 32768, five by 0.905, and 35 halve it.

  predicate Shrunk(x: int, y: int) {
    0 <= y && y * 0x8000 <= x * 32113
  }

  predicate ShrunkByFive(x: int, y: int) {
    0 <= y && y * 1000 <= x * 905
  }

  lemma AttenuationShrinks(g: Gains)
    requires Words(g) && g.adaptive >= 0 && g.fixed >= 0
    ensures Shrunk(g.adaptive, Attenuated(g).adaptive) && Shrunk(g.fixed, Attenuated(g).fixed)
  {
    Powers();
  }

  lemma FiveShrink(a: int, b: int, c: int, d: int, e: int, f: int)
    requires Shrunk(a, b) && Shrunk(b, c) && Shrunk(c, d) && Shrunk(d, e) && Shrunk(e, f)
    ensures ShrunkByFive(a, f)
  {
  }

  lemma SevenFivesHalve(a: int, b: int, c: int, d: int, e: int, f: int, g: int, h: int)
    requires ShrunkByFive(a, b) && ShrunkByFive(b, c) && ShrunkByFive(c, d) && ShrunkByFive(d, e)
             && ShrunkByFive(e, f) && ShrunkByFive(f, g) && ShrunkByFive(g, h)
    ensures 2 * h <= a
  {
  }

  lemma FiveSubframes(g: Gains, n: nat)
    requires Words(g) && g.adaptive >= 0 && g.fixed >= 0
    ensures ShrunkByFive(ErasedRun(g, n).adaptive, ErasedRun(g, n + 5).adaptive)
    ensures ShrunkByFive(ErasedRun(g, n).fixed, ErasedRun(g, n + 5).fixed)
  {
    hide Attenuated, Shrunk, ShrunkByFive;
    forall i: nat | n <= i < n + 5
      ensures Shrunk(ErasedRun(g, i).adaptive, ErasedRun(g, i + 1).adaptive)
      ensures Shrunk(ErasedRun(g, i).fixed, ErasedRun(g, i + 1).fixed)
    {
      RunDecays(g, i);
      AttenuationShrinks(ErasedRun(g, i));
    }
    hide ErasedRun;
    FiveShrink(ErasedRun(g, n).adaptive, ErasedRun(g, n + 1).adaptive, ErasedRun(g, n + 2).adaptive,
               ErasedRun(g, n + 3).adaptive, ErasedRun(g, n + 4).adaptive, ErasedRun(g, n + 5).adaptive);
    FiveShrink(ErasedRun(g, n).fixed, ErasedRun(g, n + 1).fixed, ErasedRun(g, n + 2).fixed,
               ErasedRun(g, n + 3).fixed, ErasedRun(g, n + 4).fixed, ErasedRun(g, n + 5).fixed);
  }

  const HALF_LIFE := 35

  lemma ErasureHalves(g: Gains, n: nat)
    requires Words(g) && g.adaptive >= 0 && g.fixed >= 0
    ensures 2 * ErasedRun(g, n + HALF_LIFE).adaptive <= ErasedRun(g, n).adaptive
    ensures 2 * ErasedRun(g, n + HALF_LIFE).fixed <= ErasedRun(g, n).fixed
  {
    hide ErasedRun, ShrunkByFive;
    var a := seq(8, i requires 0 <= i < 8 => ErasedRun(g, n + 5 * i));
    forall i | 0 <= i < 7
      ensures ShrunkByFive(a[i].adaptive, a[i + 1].adaptive) && ShrunkByFive(a[i].fixed, a[i + 1].fixed)
    {
      FiveSubframes(g, n + 5 * i);
    }
    SevenFivesHalve(a[0].adaptive, a[1].adaptive, a[2].adaptive, a[3].adaptive, a[4].adaptive, a[5].adaptive,
                    a[6].adaptive, a[7].adaptive);
    SevenFivesHalve(a[0].fixed, a[1].fixed, a[2].fixed, a[3].fixed, a[4].fixed, a[5].fixed, a[6].fixed, a[7].fixed);
  }

  /** After 35 k erased subframes both gains have lost k binary digits. */
  lemma {:induction false} GeometricDecay(g: Gains, n: nat, k: nat)
    requires Words(g) && g.adaptive >= 0 && g.fixed >= 0 && n >= HALF_LIFE * k
    ensures 0 <= ErasedRun(g, n).adaptive * Pow2(k) <= g.adaptive && 0 <= ErasedRun(g, n).fixed * Pow2(k) <= g.fixed
  {
    hide ErasedRun;
    RunDecays(g, n);
    if k > 0 {
      GeometricDecay(g, n - HALF_LIFE, k - 1);
      ErasureHalves(g, n - HALF_LIFE);
      var p := Pow2(k - 1);
      DoubledProduct(ErasedRun(g, n).adaptive, ErasedRun(g, n - HALF_LIFE).adaptive, p);
      DoubledProduct(ErasedRun(g, n).fixed, ErasedRun(g, n - HALF_LIFE).fixed, p);
    }
  }

  lemma DoubledProduct(y: int, x: int, p: int)
    requires 0 <= 2 * y <= x && p >= 0
    ensures 0 <= y * (2 * p) <= x * p
  {
    MultiplyMonotone(2 * y, x, p);
    MultiplyMonotone(0, y, 2 * p);
    assert y * (2 * p) == 2 * y * p;
  }

  /** Binary digits of a gain. */
  function BinaryDigits(gain: int): (k: nat)
    ensures gain < Pow2(k)
  {
    if gain <= 0 then 0 else 1 + BinaryDigits(gain / 2)
  }

  /** Erased subframes that silence a gain: its own value, or 35 for each of its binary digits. */
  function MutingTime(gain: int): (n: nat)
    requires Fits16(gain)
    ensures n <= 525
  {
    Powers();
    DigitsOfWord(gain, 15);
    var steps := HALF_LIFE * BinaryDigits(gain);
    if 0 <= gain < steps then gain else steps
  }

  lemma {:induction false} DigitsOfWord(gain: int, k: nat)
    requires gain < Pow2(k)
    ensures BinaryDigits(gain) <= k
  {
    if gain > 0 {
      DigitsOfWord(gain / 2, k - 1);
    }
  }

  lemma NothingLeft(x: int, p: int, gain: int)
    requires 0 <= x && p >= 0 && x * p <= gain < p
    ensures x == 0
  {
    if x >= 1 {
      MultiplyMonotone(1, x, p);
      assert false;
    }
  }

  /** From non-negative gains both are zero after a number of erased subframes logarithmic in the larger one, at most
      525, and for ever after. */
  lemma ErasureMutes(g: Gains, n: nat)
    requires Words(g) && g.adaptive >= 0 && g.fixed >= 0 && n >= MutingTime(g.adaptive) && n >= MutingTime(g.fixed)
    ensures ErasedRun(g, n).adaptive == 0 && ErasedRun(g, n).fixed == 0
  {
    hide ErasedRun, Pow2, BinaryDigits, Fits16;
    RunDecays(g, n);
    if n < g.adaptive {
      var k := BinaryDigits(g.adaptive);
      GeometricDecay(g, n, k);
      NothingLeft(ErasedRun(g, n).adaptive, Pow2(k), g.adaptive);
    }
    if n < g.fixed {
      var k := BinaryDigits(g.fixed);
      GeometricDecay(g, n, k);
      NothingLeft(ErasedRun(g, n).fixed, Pow2(k), g.fixed);
    }
  }

  /** A gain below zero never recovers: the decoder falls silent exactly from non-negative gains. */
  lemma MutesExactlyFromNonNegative(g: Gains)
    requires Words(g)
    ensures (exists n: nat :: ErasedRun(g, n).adaptive == 0 && ErasedRun(g, n).fixed == 0)
            <==> g.adaptive >= 0 && g.fixed >= 0
  {
    if g.adaptive >= 0 && g.fixed >= 0 {
      ErasureMutes(g, 525);
    } else {
      forall n: nat
        ensures !(ErasedRun(g, n).adaptive == 0 && ErasedRun(g, n).fixed == 0)
      {
        RunDecays(g, n);
      }
    }
  }

  /** Whatever the vectors, the excitation of a muted subframe is zero. */
  lemma MutedExcitation(g: Gains, n: nat, adaptiveSample: int, codeSample: int)
    requires Words(g) && g.adaptive >= 0 && g.fixed >= 0 && n >= MutingTime(g.adaptive) && n >= MutingTime(g.fixed)
    ensures ExcitationSample(adaptiveSample, codeSample, ErasedRun(g, n).adaptive, ErasedRun(g, n).fixed) == 0
  {
    ErasureMutes(g, n);
    MutedSample(adaptiveSample, codeSample);
  }

  lemma MutedSample(adaptiveSample: int, codeSample: int)
    ensures ExcitationSample(adaptiveSample, codeSample, 0, 0) == 0
  {
    Powers();
    assert adaptiveSample * 0 + codeSample * 0 == 0;
  }

  ghost predicate ErrorsAbove(errors: seq<int>, low: int) {
    forall i :: 0 <= i < |errors| ==> errors[i] >= low
  }

  ghost predicate ErrorsBelow(errors: seq<int>, high: int) {
    forall i :: 0 <= i < |errors| ==> errors[i] <= high
  }

  lemma AttenuatedErrorBounds(g: Gains)
    requires Words(g)
    ensures Attenuated(g).errors[0] >= LOWEST_ERROR
    ensures forall high {:trigger ErrorsBelow(g.errors, high)} :: ErrorsBelow(g.errors, high) ==>
              Attenuated(g).errors[0] <= if high - 4096 >= LOWEST_ERROR then high - 4096 else LOWEST_ERROR
  {
    Powers();
  }

  /** Entries at or above -14 dB stay there, and after four erased subframes all are, whatever the state before. */
  lemma {:induction false} ErrorsKeepFloor(g: Gains, n: nat)
    requires Words(g)
    ensures ErrorsAbove(g.errors, LOWEST_ERROR) || n >= 4 ==> ErrorsAbove(ErasedRun(g, n).errors, LOWEST_ERROR)
    ensures forall i :: 0 <= i < 4 && i < n ==> ErasedRun(g, n).errors[i] >= LOWEST_ERROR
  {
    hide Attenuated;
    if n > 0 {
      ErrorsKeepFloor(g, n - 1);
      RunDecays(g, n - 1);
      var s := ErasedRun(g, n - 1);
      AttenuatedErrorBounds(s);
      NewestFirst(s);
    }
  }

  ghost predicate NewestBelow(errors: seq<int>, k: nat, high: int) {
    forall i :: 0 <= i < k && i < |errors| ==> errors[i] <= high
  }

  /** Upper limit of the memory after k times four erased subframes. */
  function Ceiling(high: int, k: nat): int {
    if high - 4096 * k >= LOWEST_ERROR then high - 4096 * k else LOWEST_ERROR
  }

  lemma FourSubframes(g: Gains, n: nat, high: int)
    requires Words(g) && high >= LOWEST_ERROR && ErrorsBelow(ErasedRun(g, n).errors, high)
    ensures ErrorsBelow(ErasedRun(g, n + 4).errors, Ceiling(high, 1))
  {
    hide Attenuated;
    var i := 0;
    while i < 4
      invariant 0 <= i <= 4
      invariant ErrorsBelow(ErasedRun(g, n + i).errors, high)
      invariant NewestBelow(ErasedRun(g, n + i).errors, i, Ceiling(high, 1))
    {
      RunDecays(g, n + i);
      var s := ErasedRun(g, n + i);
      AttenuatedErrorBounds(s);
      NewestFirst(s);
      assert ErasedRun(g, n + i + 1) == Attenuated(s);
      i := i + 1;
    }
  }

  lemma NewestFirst(g: Gains)
    requires |g.errors| == 4
    ensures Attenuated(g).errors == Entered(Attenuated(g).errors[0], g.errors)
  {
  }

  lemma {:induction false} ErrorsSink(g: Gains, k: nat)
    requires Words(g)
    ensures ErrorsBelow(ErasedRun(g, 4 * k).errors, Ceiling(MAXINT16, k))
  {
    if k > 0 {
      ErrorsSink(g, k - 1);
      FourSubframes(g, 4 * (k - 1), Ceiling(MAXINT16, k - 1));
    }
  }

  /** After 48 erased subframes the prediction memory is back in its initial state, whatever it was. */
  lemma ErasureResetsPrediction(g: Gains)
    requires Words(g)
    ensures ErasedRun(g, 48).errors == [LOWEST_ERROR, LOWEST_ERROR, LOWEST_ERROR, LOWEST_ERROR]
  {
    ErrorsKeepFloor(g, 48);
    ErrorsSink(g, 12);
    hide ErasedRun;
    var e := ErasedRun(g, 48).errors;
    assert forall i :: 0 <= i < 4 ==> e[i] >= LOWEST_ERROR && e[i] <= Ceiling(MAXINT16, 12);
  }

  /** And stays there. */
  lemma {:induction false} ErasureStaysReset(g: Gains, n: nat)
    requires Words(g) && n >= 48
    ensures ErasedRun(g, n).errors == [LOWEST_ERROR, LOWEST_ERROR, LOWEST_ERROR, LOWEST_ERROR]
  {
    if n == 48 {
      ErasureResetsPrediction(g);
    } else {
      ErasureStaysReset(g, n - 1);
      ResetStep(ErasedRun(g, n - 1));
    }
  }

  lemma ResetStep(g: Gains)
    requires g.errors == [LOWEST_ERROR, LOWEST_ERROR, LOWEST_ERROR, LOWEST_ERROR]
    ensures Attenuated(g).errors == g.errors
  {
    Powers();
  }
}
