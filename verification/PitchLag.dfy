/** Pitch lags: the closed-loop search of the encoder, their codewords, and the decoder's lag state. */
module PitchLag {
  import opened CodecParameters
  import opened FixedPoint
  import opened AdaptiveCodebook
  import opened IntSums

  const MAXIMUM_INT_PITCH_DELAY := 143

  datatype Lag = Lag(delay: int, frac: int)

  /** A lag whose interpolation stays inside the excitation buffer. */
  predicate Usable(l: Lag) {
    19 <= l.delay <= 144 && -1 <= l.frac <= 1 && (l.frac == 1 ==> l.delay <= 143)
  }

  lemma UsableIsInRange(l: Lag)
    requires Usable(l)
    ensures InRange(DelayOf(l.delay, l.frac))
  {
  }

  /** MULT16_16_Q15 by 10923, the third of the code. */
  function Third(x: int): int {
    Shr(x * 10923, 15)
  }

  /** It is the exact quotient on all 16-bit values. */
  lemma ThirdIsQuotient(x: int)
    requires 0 <= x < 0x8000
    ensures Third(x) == x / 3
  {
    Powers();
  }

  /** P1 */
  function DecodeFirst(code: int): Lag {
    if code < 197 then var t := Third(code + 2) + 19; Lag(t, code - 3 * t + 58)
    else Lag(code - 112, 0)
  }

  /** Lower end of the second subframe's range, from the lag of the first. */
  function LowerEnd(first: int): int {
    var tMin := if first - 5 < 20 then 20 else first - 5;
    if tMin > 134 then 134 else tMin
  }

  /** P2 */
  function DecodeSecond(code: int, first: int): Lag {
    var d := Third(code + 2) - 1;
    Lag(d + LowerEnd(first), code - 3 * d - 2)
  }

  function EncodeFirst(l: Lag): int {
    if l.delay <= 85 then 3 * l.delay - 58 + l.frac else l.delay + 112
  }

  function EncodeSecond(l: Lag, tMin: int): int {
    3 * (l.delay - tMin) + l.frac + 2
  }

  /** What the first-subframe search can return. */
  predicate FirstChoice(l: Lag) {
    20 <= l.delay <= MAXIMUM_INT_PITCH_DELAY && -1 <= l.frac <= 1 && (l.delay >= 85 ==> l.frac == 0)
  }

  predicate SecondChoice(l: Lag, tMin: int) {
    tMin <= l.delay <= tMin + 9 && -1 <= l.frac <= 1
  }

  /** The codes count thirds of a sample: from 19 1/3 on, whole samples from 85 on, and in the second subframe from two
      thirds below the lower end of its range on. */
  lemma LagsInThirds(code1: int, code2: int, first: int)
    requires 0 <= code1 < 256 && 0 <= code2 < 32
    ensures var l := DecodeFirst(code1);
            -1 <= l.frac <= 1 && 3 * l.delay + l.frac == if code1 < 197 then code1 + 58 else 3 * (code1 - 112)
    ensures var l := DecodeSecond(code2, first);
            var low := if first - 5 < 20 then 20 else if first + 4 > 143 then 134 else first - 5;
            -1 <= l.frac <= 1 && 3 * l.delay + l.frac == code2 + 3 * low - 2
  {
    hide Third;
    ThirdIsQuotient(code1 + 2);
    ThirdIsQuotient(code2 + 2);
  }

  /** Every lag of the first subframe survives its 8-bit code. */
  lemma FirstRoundTrip(l: Lag)
    requires FirstChoice(l)
    ensures 0 <= EncodeFirst(l) < 256 && DecodeFirst(EncodeFirst(l)) == l && Usable(l)
  {
    if l.delay < 85 {
      ThirdIsQuotient(EncodeFirst(l) + 2);
    }
  }

  /** Every lag of the second subframe survives its 5-bit code, both sides deriving the same range. */
  lemma SecondRoundTrip(l: Lag, first: int)
    requires 20 <= first <= MAXIMUM_INT_PITCH_DELAY && SecondChoice(l, LowerEnd(first))
    ensures 0 <= EncodeSecond(l, LowerEnd(first)) < 32
    ensures DecodeSecond(EncodeSecond(l, LowerEnd(first)), first) == l && Usable(l)
  {
    ThirdIsQuotient(EncodeSecond(l, LowerEnd(first)) + 2);
  }

  /** Any 8-bit code, any 5-bit code after any lag: the decoded lag is usable. */
  lemma DecodedUsable(code1: int, code2: int, first: int)
    requires 0 <= code1 < 256 && 0 <= code2 < 32
    ensures Usable(DecodeFirst(code1)) && Usable(DecodeSecond(code2, first))
  {
    if code1 < 197 {
      ThirdIsQuotient(code1 + 2);
    }
    ThirdIsQuotient(code2 + 2);
  }

  /** Lag to use when a frame or its parity is bad, and the one kept for next time. */
  function AfterLoss(previous: int): int {
    if previous + 1 > MAXIMUM_INT_PITCH_DELAY then MAXIMUM_INT_PITCH_DELAY else previous + 1
  }

  /** Result of decoding one subframe: the lag, and the new state. */
  function DecodeLag(previous: int, second: bool, code: int, parityError: bool, erased: bool, first: int): (Lag, int) {
    if erased || (!second && parityError) then (Lag(previous, 0), AfterLoss(previous))
    else
      var l := if second then DecodeSecond(code, first) else DecodeFirst(code);
      (l, l.delay)
  }

  /** The pitch part of the decoder context. */
  class LagDecoder {
    var previousIntPitchDelay: int

    ghost predicate Valid()
      reads this
    {
      19 <= previousIntPitchDelay <= 144
    }

    constructor ()
      ensures Valid() && previousIntPitchDelay == 60
    {
      previousIntPitchDelay := 60;
    }

    /** Decodes a lag and leaves the interpolated past excitation in place. */
    method DecodeAdaptativeCodeVector(second: bool, adaptativeCodebookIndex: int, parityFlag: bool,
                                      frameErasureFlag: bool, intPitchDelayIn: int, excitation: array<int>, start: int)
      returns (intPitchDelay: int, fracPitchDelay: int)
      requires Valid() && 0 <= adaptativeCodebookIndex < (if second then 32 else 256)
      requires Fresh40(excitation, start)
      modifies this, excitation
      ensures Valid() && Usable(Lag(intPitchDelay, fracPitchDelay))
      ensures (Lag(intPitchDelay, fracPitchDelay), previousIntPitchDelay)
           == DecodeLag(old(previousIntPitchDelay), second, adaptativeCodebookIndex, parityFlag, frameErasureFlag,
                        intPitchDelayIn)
      ensures excitation[..start] == old(excitation[..start])
      ensures excitation[start + L_SUBFRAME..] == old(excitation[start + L_SUBFRAME..])
      ensures InRange(DelayOf(intPitchDelay, fracPitchDelay))
      ensures excitation[start..start + L_SUBFRAME]
           == Vector(old(excitation[start - L_PAST_EXCITATION..start]), DelayOf(intPitchDelay, fracPitchDelay))
    {
      hide Third, Vector;
      if !second {
        if parityFlag || frameErasureFlag {
          intPitchDelay, fracPitchDelay := previousIntPitchDelay, 0;
          previousIntPitchDelay := previousIntPitchDelay + 1;
          if previousIntPitchDelay > MAXIMUM_INT_PITCH_DELAY { previousIntPitchDelay := MAXIMUM_INT_PITCH_DELAY; }
        } else {
          if adaptativeCodebookIndex < 197 {
            intPitchDelay := Third(adaptativeCodebookIndex + 2) + 19;
            fracPitchDelay := adaptativeCodebookIndex - intPitchDelay * 3 + 58;
          } else {
            intPitchDelay, fracPitchDelay := adaptativeCodebookIndex - 112, 0;
          }
          DecodedUsable(adaptativeCodebookIndex, 0, 0);
          previousIntPitchDelay := intPitchDelay;
        }
      } else {
        if frameErasureFlag {
          intPitchDelay, fracPitchDelay := previousIntPitchDelay, 0;
          previousIntPitchDelay := previousIntPitchDelay + 1;
          if previousIntPitchDelay > MAXIMUM_INT_PITCH_DELAY { previousIntPitchDelay := MAXIMUM_INT_PITCH_DELAY; }
        } else {
          var tMin := intPitchDelayIn - 5;
          if tMin < 20 { tMin := 20; }
          if tMin > 134 { tMin := 134; }
          intPitchDelay := Third(adaptativeCodebookIndex + 2) - 1;
          fracPitchDelay := adaptativeCodebookIndex - intPitchDelay * 3 - 2;
          intPitchDelay := intPitchDelay + tMin;
          DecodedUsable(0, adaptativeCodebookIndex, intPitchDelayIn);
          previousIntPitchDelay := intPitchDelay;
        }
      }
      ComputeAdaptativeCodebookVector(excitation, start, fracPitchDelay, intPitchDelay);
    }
  }

  /** What one frame offers the lag decoder. */
  datatype FrameLags = FrameLags(p1: int, p2: int, parityError: bool, erased: bool)

  predicate ReceivedFrame(f: FrameLags) {
    0 <= f.p1 < 256 && 0 <= f.p2 < 32
  }

  /** The lags of a whole run, two a frame. */
  function RunLags(previous: int, frames: seq<FrameLags>): seq<Lag>
    decreases |frames|
  {
    if |frames| == 0 then []
    else
      var f := frames[0];
      var first := DecodeLag(previous, false, f.p1, f.parityError, f.erased, 0);
      var second := DecodeLag(first.1, true, f.p2, f.parityError, f.erased, first.0.delay);
      [first.0, second.0] + RunLags(second.1, frames[1..])
  }

  /** While frames are lost the lag grows by one a subframe, up to its maximum. */
  lemma {:induction false} LostLagsGrow(previous: int, frames: seq<FrameLags>, k: nat)
    requires 19 <= previous <= 144 && k < |RunLags(previous, frames)|
    requires forall i :: 0 <= i < |frames| ==> frames[i].erased
    ensures var grown := previous + k;
            var l := RunLags(previous, frames)[k];
            l.frac == 0
            && l.delay == if k > 0 && grown > MAXIMUM_INT_PITCH_DELAY then MAXIMUM_INT_PITCH_DELAY else grown
    decreases |frames|
  {
    if k >= 2 {
      LostLagsGrow(AfterLoss(AfterLoss(previous)), frames[1..], k - 2);
    }
  }

  lemma StepUsable(previous: int, second: bool, code: int, parityError: bool, erased: bool, first: int)
    requires 19 <= previous <= 144 && 0 <= code < (if second then 32 else 256)
    ensures var r := DecodeLag(previous, second, code, parityError, erased, first);
            Usable(r.0) && 19 <= r.1 <= 144
  {
    if second {
      DecodedUsable(0, code, first);
    } else {
      DecodedUsable(code, 0, first);
    }
  }

  /** For every bitstream and every pattern of parity errors and erasures all lags of a run are usable. */
  lemma {:induction false} RunUsable(previous: int, frames: seq<FrameLags>, k: nat)
    requires 19 <= previous <= 144 && (forall i :: 0 <= i < |frames| ==> ReceivedFrame(frames[i]))
    requires k < |RunLags(previous, frames)|
    ensures Usable(RunLags(previous, frames)[k])
    decreases |frames|
  {
    hide DecodeLag;
    if |frames| > 0 {
      var f := frames[0];
      StepUsable(previous, false, f.p1, f.parityError, f.erased, 0);
      var first := DecodeLag(previous, false, f.p1, f.parityError, f.erased, 0);
      StepUsable(first.1, true, f.p2, f.parityError, f.erased, first.0.delay);
      var second := DecodeLag(first.1, true, f.p2, f.parityError, f.erased, first.0.delay);
      if k >= 2 {
        RunUsable(second.1, frames[1..], k - 2);
      }
    }
  }

  /** Sum of split products, as MAC16_32_Q12 accumulates them. */
  function Correlation(v: seq<int>, target: seq<int>, n: nat): int
    requires n <= |v| && n <= |target|
  {
    if n == 0 then 0 else Correlation(v, target, n - 1) + SplitMultiply(v[n - 1], target[n - 1], 12)
  }

  /** In Q12 it is the inner product of both vectors, less the fractions that forty floors drop. */
  lemma {:induction false} CorrelationClose(v: seq<int>, target: seq<int>, n: nat)
    requires n <= |v| && n <= |target|
    ensures var exact := Sum(n, j => At(v, j) * At(target, j));
            exact - 4096 * n <= 4096 * Correlation(v, target, n) <= exact
  {
    hide SplitMultiply;
    if n > 0 {
      CorrelationClose(v, target, n - 1);
      Powers();
      SplitMultiplyIsFloor(v[n - 1], target[n - 1], 12);
      ShiftBounds(v[n - 1] * target[n - 1], 12);
    }
  }

  method Correlate(excitation: array<int>, from: int, target: seq<int>) returns (correlation: int)
    requires |target| == L_SUBFRAME && 0 <= from && from + L_SUBFRAME <= excitation.Length
    ensures correlation == Correlation(excitation[from..from + L_SUBFRAME], target, L_SUBFRAME)
  {
    hide SplitMultiply;
    correlation := 0;
    ghost var v := excitation[from..from + L_SUBFRAME];
    var j := 0;
    while j < L_SUBFRAME
      invariant 0 <= j <= L_SUBFRAME
      invariant correlation == Correlation(v, target, j)
    {
      assert v[j] == excitation[from + j];
      correlation := correlation + SplitMultiply(excitation[from + j], target[j], 12);
      j := j + 1;
    }
  }

  /** Correlation of the target with the buffer delayed by a whole lag. */
  function DelayedCorrelation(buffer: seq<int>, start: int, lag: int, target: seq<int>): int
    requires |target| == L_SUBFRAME && 0 <= start - lag && start - lag + L_SUBFRAME <= |buffer|
  {
    Correlation(buffer[start - lag..start - lag + L_SUBFRAME], target, L_SUBFRAME)
  }

  /** eq A.7: the first lag of the range with the largest correlation. */
  method FindDelay(excitation: array<int>, start: int, min: int, max: int, target: seq<int>) returns (delay: int)
    requires Fresh40(excitation, start) && |target| == L_SUBFRAME && 20 <= min <= max <= MAXIMUM_INT_PITCH_DELAY
    requires forall i :: min <= i <= max ==> DelayedCorrelation(excitation[..], start, i, target) > -0x80000000
    ensures min <= delay <= max
    ensures forall i :: min <= i <= max ==>
              DelayedCorrelation(excitation[..], start, i, target)
                <= DelayedCorrelation(excitation[..], start, delay, target)
    ensures forall i :: min <= i < delay ==>
              DelayedCorrelation(excitation[..], start, i, target) < DelayedCorrelation(excitation[..], start, delay,
                                                                                        target)
  {
    hide Correlation;
    var correlationMax := -0x80000000;
    delay := min;
    var i := min;
    while i <= max
      invariant min <= i <= max + 1 && min <= delay <= max
      invariant i == min ==> correlationMax == -0x80000000
      invariant i > min ==> delay < i && correlationMax == DelayedCorrelation(excitation[..], start, delay, target)
      invariant forall k :: min <= k < i ==> DelayedCorrelation(excitation[..], start, k, target) <= correlationMax
      invariant forall k :: min <= k < i && k < delay ==>
                DelayedCorrelation(excitation[..], start, k, target) < correlationMax
    {
      var correlation := Correlate(excitation, start - i, target);
      assert excitation[start - i..start - i + L_SUBFRAME] == excitation[..][start - i..start - i + L_SUBFRAME];
      assert correlation == DelayedCorrelation(excitation[..], start, i, target);
      if correlation > correlationMax {
        correlationMax, delay := correlation, i;
      }
      i := i + 1;
    }
  }

  /** Correlation of the target with the interpolated vector of a fractional lag. */
  function FractionScore(past: seq<int>, delay: int, frac: int, target: seq<int>): int
    requires |past| == L_PAST_EXCITATION && |target| == L_SUBFRAME && 20 <= delay <= MAXIMUM_INT_PITCH_DELAY
             && -1 <= frac <= 1
  {
    Correlation(Vector(past, DelayOf(delay, frac)), target, L_SUBFRAME)
  }

  /** The best of the three fractions around a whole lag, its vector left in the buffer. */
  method FindFraction(excitation: array<int>, start: int, delay: int, target: seq<int>) returns (frac: int)
    requires Fresh40(excitation, start) && |target| == L_SUBFRAME && 20 <= delay <= MAXIMUM_INT_PITCH_DELAY
    requires excitation[start..start + L_SUBFRAME]
          == Vector(excitation[start - L_PAST_EXCITATION..start], DelayOf(delay, 0))
    modifies excitation
    ensures -1 <= frac <= 1
    ensures excitation[..start] == old(excitation[..start])
    ensures excitation[start + L_SUBFRAME..] == old(excitation[start + L_SUBFRAME..])
    ensures excitation[start..start + L_SUBFRAME]
         == Vector(old(excitation[start - L_PAST_EXCITATION..start]), DelayOf(delay, frac))
    ensures var past := old(excitation[start - L_PAST_EXCITATION..start]);
            && (forall f :: -1 <= f <= 1 ==>
                FractionScore(past, delay, f, target) <= FractionScore(past, delay, frac, target))
            && (frac != 0 ==> FractionScore(past, delay, 0, target) < FractionScore(past, delay, frac, target))
            && (frac == 1 ==> FractionScore(past, delay, -1, target) < FractionScore(past, delay, 1, target))
  {
    hide Correlation, Vector;
    ghost var past := excitation[start - L_PAST_EXCITATION..start];
    frac := 0;
    var correlationMax := Correlate(excitation, start, target);
    var best := excitation[start..start + L_SUBFRAME];
    GenerateAdaptativeCodebookVector(excitation, start, delay, -1);
    PastKept(excitation[..], old(excitation[..]), start);
    var correlation := Correlate(excitation, start, target);
    if correlation > correlationMax {
      frac, correlationMax := -1, correlation;
      best := excitation[start..start + L_SUBFRAME];
    }
    GenerateAdaptativeCodebookVector(excitation, start, delay, 1);
    PastKept(excitation[..], old(excitation[..]), start);
    correlation := Correlate(excitation, start, target);
    if correlation > correlationMax {
      frac := 1;
    } else {
      Restore(excitation, start, best);
    }
    forall f | -1 <= f <= 1
      ensures FractionScore(past, delay, f, target) <= FractionScore(past, delay, frac, target)
    {
      assert f == -1 || f == 0 || f == 1;
    }
  }

  lemma PastKept(now: seq<int>, before: seq<int>, start: int)
    requires L_PAST_EXCITATION <= start <= |now| && start <= |before| && now[..start] == before[..start]
    ensures now[start - L_PAST_EXCITATION..start] == before[start - L_PAST_EXCITATION..start]
  {
  }

  method Restore(excitation: array<int>, start: int, v: seq<int>)
    requires 0 <= start && start + L_SUBFRAME <= excitation.Length && |v| == L_SUBFRAME
    modifies excitation
    ensures excitation[..start] == old(excitation[..start])
    ensures excitation[start + L_SUBFRAME..] == old(excitation[start + L_SUBFRAME..])
    ensures excitation[start..start + L_SUBFRAME] == v
  {
    var i := 0;
    while i < L_SUBFRAME
      invariant 0 <= i <= L_SUBFRAME
      invariant excitation[..start] == old(excitation[..start])
      invariant excitation[start + L_SUBFRAME..] == old(excitation[start + L_SUBFRAME..])
      invariant forall k :: 0 <= k < i ==> excitation[start + k] == v[k]
    {
      excitation[start + i] := v[i];
      i := i + 1;
    }
  }

  /** Closed-loop search of one subframe: lag, codeword, and the range of the next subframe. */
  method AdaptativeCodebookSearch(excitation: array<int>, start: int, minIn: int, maxIn: int, target: seq<int>,
                                  second: bool)
    returns (lag: Lag, codeword: int, min: int, max: int)
    requires Fresh40(excitation, start) && |target| == L_SUBFRAME && 20 <= minIn <= maxIn <= MAXIMUM_INT_PITCH_DELAY
    requires forall i :: minIn <= i <= maxIn ==> DelayedCorrelation(excitation[..], start, i, target) > -0x80000000
    requires second ==> maxIn <= minIn + 9
    modifies excitation
    ensures minIn <= lag.delay <= maxIn && -1 <= lag.frac <= 1
    ensures forall i :: minIn <= i <= maxIn ==>
              DelayedCorrelation(old(excitation[..]), start, i, target)
                <= DelayedCorrelation(old(excitation[..]), start, lag.delay, target)
    ensures var past := old(excitation[start - L_PAST_EXCITATION..start]);
            if !second && lag.delay >= 85 then lag.frac == 0
            else forall f :: -1 <= f <= 1 ==>
              FractionScore(past, lag.delay, f, target) <= FractionScore(past, lag.delay, lag.frac, target)
    ensures excitation[..start] == old(excitation[..start])
    ensures excitation[start..start + L_SUBFRAME]
         == Vector(old(excitation[start - L_PAST_EXCITATION..start]), DelayOf(lag.delay, lag.frac))
    ensures !second ==> FirstChoice(lag) && codeword == EncodeFirst(lag) && min == LowerEnd(lag.delay) && max == min + 9
    ensures second ==> SecondChoice(lag, minIn) && codeword == EncodeSecond(lag, minIn) && min == minIn && max == maxIn
  {
    hide Correlation, Vector;
    min, max := minIn, maxIn;
    var delay := FindDelay(excitation, start, min, max, target);
    var frac := 0;
    GenerateAdaptativeCodebookVector(excitation, start, delay, 0);
    PastKept(excitation[..], old(excitation[..]), start);
    if !(!second && delay >= 85) {
      frac := FindFraction(excitation, start, delay, target);
    }
    lag := Lag(delay, frac);
    if !second {
      min := delay - 5;
      if min < 20 { min := 20; }
      max := min + 9;
      if max > MAXIMUM_INT_PITCH_DELAY {
        max := MAXIMUM_INT_PITCH_DELAY;
        min := MAXIMUM_INT_PITCH_DELAY - 9;
      }
      codeword := if delay <= 85 then 3 * delay - 58 + frac else delay + 112;
    } else {
      codeword := 3 * (delay - min) + frac + 2;
    }
  }

  /** Range of the first subframe around the open-loop lag. */
  function OpenLoopRange(openLoop: int): (r: (int, int))
    requires 20 <= openLoop <= MAXIMUM_INT_PITCH_DELAY
    ensures 20 <= r.0 <= openLoop <= r.1 <= MAXIMUM_INT_PITCH_DELAY && r.1 == r.0 + 6
  {
    var min := if openLoop - 3 < 20 then 20 else openLoop - 3;
    if min + 6 > MAXIMUM_INT_PITCH_DELAY then (MAXIMUM_INT_PITCH_DELAY - 6, MAXIMUM_INT_PITCH_DELAY) else (min, min + 6)
  }
}
