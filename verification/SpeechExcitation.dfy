/** The excitation of a speech subframe, eq 75, and the history it leaves (decoder.c). */
module SpeechExcitation {
  import opened CodecParameters
  import opened PitchLag
  import AdaptiveCodebook
  import P = PulseCode
  import G = GainDecoding

  /** Adaptive and code vector times their gains. */
  function SpeechSubframe(past: seq<int>, lag: Lag, code: seq<int>, adaptive: int, fixed: int): (r: seq<int>)
    requires |past| == L_PAST_EXCITATION && Usable(lag) && |code| == L_SUBFRAME
    ensures |r| == L_SUBFRAME
  {
    var v := AdaptiveCodebook.Vector(past, AdaptiveCodebook.DelayOf(lag.delay, lag.frac));
    seq(L_SUBFRAME, i requires 0 <= i < L_SUBFRAME => G.ExcitationSample(v[i], code[i], adaptive, fixed))
  }

  /** The sharpened code vector of a pulse and a sign code. */
  function CodeOf(positions: int, signs: int, lag: Lag, bounded: int): (r: seq<int>)
    requires lag.delay > 0
    ensures |r| == L_SUBFRAME
  {
    P.Sharpened(P.CodeVector(P.DecodePositions(positions), signs), lag.delay, bounded, P.ROUNDED)
  }

  lemma SamplesOfSubframe(before: seq<int>, after: seq<int>, start: nat, adaptive: seq<int>, code: seq<int>, ga: int,
                          gc: int)
    requires |after| == |before| && start + L_SUBFRAME <= |before| && |adaptive| == |code| == L_SUBFRAME
    requires before[start..start + L_SUBFRAME] == adaptive
    requires forall i :: 0 <= i < |after| ==>
               after[i] == if start <= i < start + L_SUBFRAME
                 then G.ExcitationSample(before[i], code[i - start], ga, gc)
                           else before[i]
    ensures after[..start] == before[..start]
    ensures after[start..start + L_SUBFRAME]
         == seq(L_SUBFRAME, i requires 0 <= i < L_SUBFRAME => G.ExcitationSample(adaptive[i], code[i], ga, gc))
  {
  }

  /** With both gains zero a subframe is silent, whatever its lag, code and past. */
  lemma MutedSubframe(past: seq<int>, lag: Lag, code: seq<int>)
    requires |past| == L_PAST_EXCITATION && Usable(lag) && |code| == L_SUBFRAME
    ensures SpeechSubframe(past, lag, code, 0, 0) == seq(L_SUBFRAME, i => 0)
  {
    hide AdaptiveCodebook.Vector, G.ExcitationSample;
    var v := AdaptiveCodebook.Vector(past, AdaptiveCodebook.DelayOf(lag.delay, lag.frac));
    forall i | 0 <= i < L_SUBFRAME
      ensures G.ExcitationSample(v[i], code[i], 0, 0) == 0
    {
      G.MutedSample(v[i], code[i]);
    }
  }
}
