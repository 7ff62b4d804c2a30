/** What a decoder of speech does when packets stop coming: gains, prediction memory and excitation over any number
    of losses. */
module LostPackets {
  import opened CodecParameters
  import opened LsfErasure
  import opened SilenceCoding
  import opened ComfortNoise
  import opened PitchLag
  import opened SpeechExcitation
  import opened LockStep
  import G = GainDecoding

  /** The decoder after n lost packets. */
  function LostRun(h: Shared, d: Decoder, n: nat): (r: Decoder)
    requires IsDecoder(d)
    ensures IsDecoder(r)
  {
    if n == 0 then d else DecodeFrame(h, LostRun(h, d, n - 1), []).0
  }

  /** A lost packet is concealed, and the next one will be too. */
  lemma LostIsConcealed(h: Shared, d: Decoder)
    requires IsDecoder(d) && d.previousActive
    ensures var r := DecodeFrame(h, d, []).0;
            r.previousActive && r.gains == G.Attenuated(G.Attenuated(d.gains)) && r.cng == d.cng
  {
    hide Erased, Cosines, HearLags, G.Attenuated, SeedAfter, ConcealedPast, ConcealedSubframe;
  }

  /** Two erased subframes a packet. */
  lemma {:induction false} LostGains(h: Shared, d: Decoder, n: nat)
    requires IsDecoder(d) && d.previousActive
    ensures LostRun(h, d, n).previousActive && LostRun(h, d, n).gains == G.ErasedRun(d.gains, 2 * n)
  {
    hide DecodeFrame, G.Attenuated;
    if n > 0 {
      LostGains(h, d, n - 1);
      LostIsConcealed(h, LostRun(h, d, n - 1));
      assert G.ErasedRun(d.gains, 2 * n - 1) == G.Attenuated(G.ErasedRun(d.gains, 2 * n - 2));
    }
  }

  ghost predicate Silent(s: seq<int>) {
    forall i :: 0 <= i < |s| ==> s[i] == 0
  }

  /** The newest n samples of the past. */
  ghost predicate SilentEnd(past: seq<int>, n: nat) {
    |past| == L_PAST_EXCITATION && (n <= L_PAST_EXCITATION ==> Silent(past[L_PAST_EXCITATION - n..]))
    && (n > L_PAST_EXCITATION ==> Silent(past))
  }

  predicate Muted(g: G.Gains) {
    g.adaptive == 0 && g.fixed == 0
  }

  lemma MutedStays(g: G.Gains)
    requires |g.errors| == 4 && Muted(g)
    ensures Muted(G.Attenuated(g))
  {
  }

  /** A muted subframe pushes forty zeros into the past. */
  lemma MutedSubframePast(past: seq<int>, lag: Lag, positions: int, signs: int, bounded: int, now: G.Gains, n: nat)
    requires SilentEnd(past, n) && Usable(lag) && Muted(now)
    ensures SilentEnd(Excited(past, lag, positions, signs, bounded, now), n + L_SUBFRAME)
  {
    hide CodeOf, SpeechSubframe;
    MutedSubframe(past, lag, CodeOf(positions, signs, lag, bounded));
  }

  lemma MutedFrame(h: Shared, d: Decoder, n: nat)
    requires IsDecoder(d) && d.previousActive && Muted(d.gains) && SilentEnd(d.past, n)
    ensures SilentEnd(DecodeFrame(h, d, []).0.past, n + L_FRAME)
  {
    hide Erased, Cosines, SeedAfter, ConcealedSubframe, RandomPositions, RandomSigns, SilentEnd, Excited, Muted;
    hide G.Attenuated, Usable, HearLags;
    var lags := HearLags(d.previousLag, 0, 0, false, true);
    var g1 := G.Attenuated(d.gains);
    var g2 := G.Attenuated(g1);
    MutedStays(d.gains);
    MutedStays(g1);
    var seed, next := d.randomSeed, SeedAfter(d.randomSeed, 2);
    var first := Excited(d.past, lags.0, RandomPositions(seed), RandomSigns(seed), d.gains.bounded, g1);
    MutedSubframePast(d.past, lags.0, RandomPositions(seed), RandomSigns(seed), d.gains.bounded, g1, n);
    MutedSubframePast(first, lags.1, RandomPositions(next), RandomSigns(next), g1.bounded, g2, n + L_SUBFRAME);
    assert n + L_SUBFRAME + L_SUBFRAME == n + L_FRAME;
  }

  lemma {:induction false} LostPast(h: Shared, d: Decoder, n: nat, m: nat)
    requires IsDecoder(d) && d.previousActive && G.Words(d.gains) && d.gains.adaptive >= 0 && d.gains.fixed >= 0
    requires 2 * n >= G.MutingTime(d.gains.adaptive) && 2 * n >= G.MutingTime(d.gains.fixed) && m >= n
    ensures SilentEnd(LostRun(h, d, m).past, (m - n) * L_FRAME)
    decreases m
  {
    hide DecodeFrame, SilentEnd;
    if m > n {
      LostPast(h, d, n, m - 1);
      LostMuted(h, d, n, m - 1);
      MutedFrame(h, LostRun(h, d, m - 1), (m - 1 - n) * L_FRAME);
      assert (m - 1 - n) * L_FRAME + L_FRAME == (m - n) * L_FRAME;
    } else {
      NothingSilentYet(LostRun(h, d, m).past);
    }
  }

  lemma NothingSilentYet(past: seq<int>)
    requires |past| == L_PAST_EXCITATION
    ensures SilentEnd(past, 0)
  {
  }

  lemma LostMuted(h: Shared, d: Decoder, n: nat, m: nat)
    requires IsDecoder(d) && d.previousActive && G.Words(d.gains) && d.gains.adaptive >= 0 && d.gains.fixed >= 0
    requires 2 * n >= G.MutingTime(d.gains.adaptive) && 2 * n >= G.MutingTime(d.gains.fixed) && m >= n
    ensures LostRun(h, d, m).previousActive && Muted(LostRun(h, d, m).gains)
  {
    hide G.ErasedRun, DecodeFrame;
    LostGains(h, d, m);
    G.ErasureMutes(d.gains, 2 * m);
  }

  /** Lost packets, in a number logarithmic in the larger gain, silence every new subframe; two more clear the whole
      excitation history, for as long as nothing is received. By the second packet no entry of the prediction memory is
      below its floor, by the twenty-fourth all are back at their initial value. */
  lemma LostPacketsMute(h: Shared, d: Decoder, n: nat, m: nat)
    requires IsDecoder(d) && d.previousActive && G.Words(d.gains) && d.gains.adaptive >= 0 && d.gains.fixed >= 0
    requires 2 * n >= G.MutingTime(d.gains.adaptive) && 2 * n >= G.MutingTime(d.gains.fixed) && m >= n
    ensures var r := LostRun(h, d, m);
            && Muted(r.gains) && SilentEnd(r.past, (m - n) * L_FRAME) && (m >= n + 2 ==> Silent(r.past))
            && (m >= 2 ==> G.ErrorsAbove(r.gains.errors, G.LOWEST_ERROR))
            && (m >= 24 ==> r.gains.errors == [G.LOWEST_ERROR, G.LOWEST_ERROR, G.LOWEST_ERROR, G.LOWEST_ERROR])
  {
    hide G.ErasedRun, DecodeFrame, G.ErrorsAbove;
    LostMuted(h, d, n, m);
    LostPast(h, d, n, m);
    LostGains(h, d, m);
    G.ErrorsKeepFloor(d.gains, 2 * m);
    if m >= 24 {
      G.ErasureStaysReset(d.gains, 2 * m);
    }
  }

  /** Five and a quarter seconds without a packet, and whatever was received before, the decoder is silent: 263 packets
      mute any gains a decoder can hold, and 265 leave nothing in its past. */
  lemma AnyDecoderMutes(h: Shared, d: Decoder, m: nat)
    requires IsDecoder(d) && d.previousActive && G.Words(d.gains) && d.gains.adaptive >= 0 && d.gains.fixed >= 0
    ensures m >= 263 ==> Muted(LostRun(h, d, m).gains)
    ensures m >= 265 ==> Silent(LostRun(h, d, m).past)
  {
    hide LostRun, DecodeFrame;
    if m >= 263 {
      LostPacketsMute(h, d, 263, m);
    }
  }
}
