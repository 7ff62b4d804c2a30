/** What a decoded or concealed frame puts into the excitation history: eq 75 at every sample. */
module DecodedExcitation {
  import opened CodecParameters
  import opened FixedPoint
  import opened Bitstream
  import opened PitchLag
  import opened ComfortNoise
  import opened SpeechExcitation
  import opened LockStep
  import A = AdaptiveCodebook
  import G = GainDecoding

  /** Each sample is the word nearest to the interpolated past times the adaptive gain plus the code times the fixed
      gain, both gains in Q14. */
  ghost predicate IsMixture(subframe: seq<int>, past: seq<int>, lag: Lag, code: seq<int>, g: G.Gains)
    requires |past| == L_PAST_EXCITATION && Usable(lag)
  {
    && |subframe| == |code| == L_SUBFRAME
    && var w := A.Vector(past, A.DelayOf(lag.delay, lag.frac));
       forall i :: 0 <= i < L_SUBFRAME ==> NearestWord(subframe[i], w[i] * g.adaptive + code[i] * g.fixed, 0x4000)
  }

  lemma SubframeIsMixture(past: seq<int>, lag: Lag, code: seq<int>, g: G.Gains)
    requires |past| == L_PAST_EXCITATION && Usable(lag) && |code| == L_SUBFRAME
    ensures IsMixture(SpeechSubframe(past, lag, code, g.adaptive, g.fixed), past, lag, code, g)
  {
    hide A.Vector, G.ExcitationSample, NearestWord;
    var w := A.Vector(past, A.DelayOf(lag.delay, lag.frac));
    forall i | 0 <= i < L_SUBFRAME
      ensures NearestWord(G.ExcitationSample(w[i], code[i], g.adaptive, g.fixed),
                          w[i] * g.adaptive + code[i] * g.fixed, 0x4000)
    {
      G.ExcitationIsNearest(w[i], code[i], g.adaptive, g.fixed);
    }
  }

  /** The two newest subframes of a past, and the past between them. */
  function FirstOf(past: seq<int>): (r: seq<int>)
    requires |past| == L_PAST_EXCITATION
    ensures |r| == L_SUBFRAME
  {
    past[L_PAST_EXCITATION - L_FRAME..L_PAST_EXCITATION - L_SUBFRAME]
  }

  function SecondOf(past: seq<int>): (r: seq<int>)
    requires |past| == L_PAST_EXCITATION
    ensures |r| == L_SUBFRAME
  {
    past[L_PAST_EXCITATION - L_SUBFRAME..]
  }

  function Between(before: seq<int>, after: seq<int>): (r: seq<int>)
    requires |before| == |after| == L_PAST_EXCITATION
    ensures |r| == L_PAST_EXCITATION
  {
    before[L_SUBFRAME..] + FirstOf(after)
  }

  lemma TwiceAdvanced(before: seq<int>, first: seq<int>, second: seq<int>)
    requires |before| == L_PAST_EXCITATION && |first| == |second| == L_SUBFRAME
    ensures var after := A.Advanced(A.Advanced(before, first), second);
            && FirstOf(after) == first && SecondOf(after) == second
            && Between(before, after) == A.Advanced(before, first)
            && after[..L_PAST_EXCITATION - L_FRAME] == before[L_FRAME..]
  {
  }

  /** A frame shifts the past by eighty samples and adds two mixtures: each from its own lag, its own code and the gains
      of its own subframe, the second one on the past that the first one left. */
  ghost predicate AddsTwoMixtures(before: seq<int>, after: seq<int>, lag1: Lag, code1: seq<int>, g1: G.Gains, lag2: Lag,
                                  code2: seq<int>, g2: G.Gains)
    requires |before| == |after| == L_PAST_EXCITATION && Usable(lag1) && Usable(lag2)
  {
    && after[..L_PAST_EXCITATION - L_FRAME] == before[L_FRAME..]
    && IsMixture(FirstOf(after), before, lag1, code1, g1)
    && IsMixture(SecondOf(after), Between(before, after), lag2, code2, g2)
  }

  lemma TwoExcited(past: seq<int>, lag1: Lag, positions1: int, signs1: int, bounded1: int, g1: G.Gains, lag2: Lag,
                   positions2: int, signs2: int, bounded2: int, g2: G.Gains)
    requires |past| == L_PAST_EXCITATION && Usable(lag1) && Usable(lag2)
    ensures AddsTwoMixtures(past, Excited(Excited(past, lag1, positions1, signs1, bounded1, g1), lag2, positions2,
                                          signs2, bounded2, g2),
                            lag1, CodeOf(positions1, signs1, lag1, bounded1), g1,
                            lag2, CodeOf(positions2, signs2, lag2, bounded2), g2)
  {
    hide CodeOf, SpeechSubframe, IsMixture;
    var code1, code2 := CodeOf(positions1, signs1, lag1, bounded1), CodeOf(positions2, signs2, lag2, bounded2);
    var first := SpeechSubframe(past, lag1, code1, g1.adaptive, g1.fixed);
    var middle := A.Advanced(past, first);
    var second := SpeechSubframe(middle, lag2, code2, g2.adaptive, g2.fixed);
    SubframeIsMixture(past, lag1, code1, g1);
    SubframeIsMixture(middle, lag2, code2, g2);
    TwiceAdvanced(past, first, second);
  }

  /** The newest eighty samples after a received frame. */
  lemma ReceivedExcitation(h: Shared, d: Decoder, bytes: seq<bv8>)
    requires IsDecoder(d) && |bytes| == 10
    ensures var p := Unpacked(bytes);
            InRangeFields(FirstFields(p), false) && InRangeFields(SecondFields(p), true)
    ensures var p := Unpacked(bytes);
            var f1, f2 := FirstFields(p), SecondFields(p);
            var lags := HearLags(d.previousLag, f1.p, f2.p, ParityError(p), false);
            var g1 := GainsAfter(h.maths, d.gains, f1, lags.0);
            var g2 := GainsAfter(h.maths, g1, f2, lags.1);
            AddsTwoMixtures(d.past, DecodeFrame(h, d, bytes).0.past,
                            lags.0, CodeOf(f1.c, f1.s, lags.0, d.gains.bounded), g1,
                            lags.1, CodeOf(f2.c, f2.s, lags.1, g1.bounded), g2)
  {
    hide Unpacked, InFields, ParityError, HearLags, GainsAfter, CodeOf, AddsTwoMixtures, Excited;
    UnpackRoundTrip(bytes);
    var p := Unpacked(bytes);
    ReceivedFieldsInRange(p);
    var f1, f2 := FirstFields(p), SecondFields(p);
    var lags := HearLags(d.previousLag, f1.p, f2.p, ParityError(p), false);
    var g1 := GainsAfter(h.maths, d.gains, f1, lags.0);
    var g2 := GainsAfter(h.maths, g1, f2, lags.1);
    TwoExcited(d.past, lags.0, f1.c, f1.s, d.gains.bounded, g1, lags.1, f2.c, f2.s, g1.bounded, g2);
  }

  /** And after a lost one: both lags from the last one, drawn pulses, attenuated gains. */
  lemma ConcealedExcitation(h: Shared, d: Decoder)
    requires IsDecoder(d) && d.previousActive
    ensures var lags := HearLags(d.previousLag, 0, 0, false, true);
            var g1 := G.Attenuated(d.gains);
            var next := SeedAfter(d.randomSeed, 2);
            AddsTwoMixtures(d.past, DecodeFrame(h, d, []).0.past,
                            lags.0, CodeOf(RandomPositions(d.randomSeed), RandomSigns(d.randomSeed), lags.0,
                                           d.gains.bounded), g1,
                            lags.1, CodeOf(RandomPositions(next), RandomSigns(next), lags.1, g1.bounded),
                            G.Attenuated(g1))
  {
    hide HearLags, CodeOf, AddsTwoMixtures, Excited, G.Attenuated, RandomPositions, RandomSigns, SeedAfter;
    var lags := HearLags(d.previousLag, 0, 0, false, true);
    var g1 := G.Attenuated(d.gains);
    var seed, next := d.randomSeed, SeedAfter(d.randomSeed, 2);
    TwoExcited(d.past, lags.0, RandomPositions(seed), RandomSigns(seed), d.gains.bounded, g1, lags.1,
               RandomPositions(next), RandomSigns(next), g1.bounded, G.Attenuated(g1));
  }
}
