/** The frame step of the decoder over its context (decoder.c), built from the stages of the other modules. */
module DecoderChannel {
  import opened CodecParameters
  import opened LsfPrediction
  import opened LsfErasure
  import opened SilenceCoding
  import opened ComfortNoise
  import opened Bitstream
  import opened PitchLag
  import opened SpeechExcitation
  import opened LockStep
  import N = NoiseExcitation
  import P = PulseCode
  import G = GainDecoding
  import AdaptiveCodebook

  /** Where a subframe lies in the excitation buffer. */
  function Start(second: bool): nat {
    L_PAST_EXCITATION + if second then L_SUBFRAME else 0
  }

  /** Two subframes behind the past, and what is left when a frame has moved out. */
  lemma TwoSubframes(past: seq<int>, first: seq<int>, second: seq<int>)
    requires |past| == L_PAST_EXCITATION && |first| == |second| == L_SUBFRAME
    ensures (past + first + second)[L_FRAME..]
            == AdaptiveCodebook.Advanced(AdaptiveCodebook.Advanced(past, first), second)
  {
  }

  /** An erased frame ignores its fields. */
  lemma ErasedLags(previousLag: int, f1: Fields, f2: Fields, parityError: bool)
    requires 19 <= previousLag <= 144 && InRangeFields(f1, false) && InRangeFields(f2, true)
    ensures HearLags(previousLag, f1.p, f2.p, parityError, true) == HearLags(previousLag, 0, 0, false, true)
  {
  }

  lemma HeardParts(h: Shared, d: Decoder, p: seq<bv16>, now: Decoder, first: Lag, second: Lag)
    requires IsDecoder(d) && InFields(p) && Usable(first) && Usable(second)
    requires InRangeFields(FirstFields(p), false) && InRangeFields(SecondFields(p), true)
    requires now.lsf == Received(d.lsf, Field(p, 0), CodebookSum(h.models.books, Field(p, 1), Field(p, 2), Field(p, 3)))
    requires now.previousqLSP == Cosines(h.models.cos, now.lsf.lastqLSF)
    requires (first, second, now.previousLag)
             == HearLags(d.previousLag, FirstFields(p).p, SecondFields(p).p, ParityError(p), false)
    requires now.gains == GainsAfter(h.maths, GainsAfter(h.maths, d.gains, FirstFields(p), first), SecondFields(p),
                                     second)
    requires now.randomSeed == d.randomSeed && now.previousActive && now.seed == CNG_DTX_RANDOM_SEED_INIT
             && now.cng == d.cng
    requires now.past == SpokenPast(h.maths, d.gains, FirstFields(p), SecondFields(p), first, second, d.past)
    ensures (now, [HearSubframe(FirstFields(p), first), HearSubframe(SecondFields(p), second)])
            == HearParameters(h, d, p)
  {
    hide SpokenPast, Received, CodebookSum, Cosines, HearLags, GainsAfter, FirstFields, SecondFields, ParityError;
    hide HearSubframe, Field, InFields, Usable;
  }

  lemma ConcealedParts(h: Shared, d: Decoder, now: Decoder, first: Lag, second: Lag)
    requires IsDecoder(d)
    requires now.lsf == Erased(d.lsf) && now.previousqLSP == Cosines(h.models.cos, now.lsf.lastqLSF)
    requires (first, second, now.previousLag) == HearLags(d.previousLag, 0, 0, false, true)
    requires now.gains == G.Attenuated(G.Attenuated(d.gains)) && now.randomSeed == SeedAfter(d.randomSeed, 4)
    requires now.previousActive && now.seed == CNG_DTX_RANDOM_SEED_INIT && now.cng == d.cng && d.previousActive
    requires Usable(first) && Usable(second) && now.past == ConcealedPast(d.gains, d.randomSeed, first, second, d.past)
    ensures (now, [ConcealedSubframe(d.randomSeed, first), ConcealedSubframe(SeedAfter(d.randomSeed, 2), second)])
            == ConcealSpeech(h, d)
  {
    hide Erased, Cosines, HearLags, G.Attenuated, SeedAfter, ConcealedPast, ConcealedSubframe, Usable;
  }

  class Channel {
    const lsp: LspDecoder
    const lags: LagDecoder
    const gains: G.GainDecoder
    const cng: CNGChannel
    const cngGenerator: Generator
    const generator: Generator
    const previousqLSP: array<int>
    const excitationVector: array<int>
    var previousFrameIsActiveFlag: bool

    ghost predicate Separate()
      reads this
    {
      && cngGenerator != generator
      && lsp.lastqLSF != gains.previousGainPredictionError && lsp.lastqLSF != previousqLSP
      && lsp.lastqLSF != excitationVector
      && gains.previousGainPredictionError != previousqLSP && gains.previousGainPredictionError != excitationVector
      && previousqLSP != excitationVector
    }

    ghost predicate Valid()
      reads this, lsp, lags, gains, cng, cngGenerator, generator
    {
      && Separate() && lsp.Valid() && lags.Valid() && gains.Valid() && cngGenerator.Valid() && generator.Valid()
      && previousqLSP.Length == |cng.qLSP| == NB_LSP_COEFF && excitationVector.Length == L_PAST_EXCITATION + L_FRAME
    }

    ghost function State(): (d: Decoder)
      requires Valid()
      reads this, lsp, lsp.previousLCodeWord, lsp.lastqLSF, lags, gains, gains.previousGainPredictionError, cng,
            cngGenerator, generator,
            previousqLSP, excitationVector
      ensures IsDecoder(d)
    {
      Decoder(lsp.State(), previousqLSP[..], gains.State(), lags.previousIntPitchDelay, generator.seed,
              previousFrameIsActiveFlag, cngGenerator.seed, cng.State(), excitationVector[..L_PAST_EXCITATION])
    }

    constructor ()
      ensures Valid() && State() == InitialDecoder()
    {
      lsp := new LspDecoder();
      lags := new LagDecoder();
      gains := new G.GainDecoder();
      cng := new CNGChannel();
      cngGenerator := new Generator();
      generator := new Generator();
      var init := INITIAL_QLSP;
      previousqLSP := new int[NB_LSP_COEFF](i => if 0 <= i < NB_LSP_COEFF then init[i] else 0);
      excitationVector := new int[L_PAST_EXCITATION + L_FRAME](i => 0);
      previousFrameIsActiveFlag := true;
      new;
      hide P.Sharpened, DecodeLag;
      generator.seed := RANDOM_SEED_INIT;
      assert excitationVector[..L_PAST_EXCITATION] == seq(L_PAST_EXCITATION, i => 0);
      assert previousqLSP[..] == init;
    }

    /** One subframe of speech: lag and adaptive vector, code vector, gains, excitation. */
    method DecodeSubframe(h: Shared, second: bool, f: Fields, parityErrorFlag: bool, frameErasureFlag: bool,
                          intPitchDelayIn: int)
      returns (lag: Lag, heard: Heard)
      requires Valid() && InRangeFields(f, second)
      modifies lags, gains, gains.previousGainPredictionError, excitationVector, generator
      ensures Valid() && Usable(lag)
      ensures (lag, lags.previousIntPitchDelay)
           == DecodeLag(old(lags.previousIntPitchDelay), second, f.p, parityErrorFlag, frameErasureFlag,
                        intPitchDelayIn)
      ensures gains.State() == if frameErasureFlag then G.Attenuated(old(gains.State()))
              else GainsAfter(h.maths, old(gains.State()), f, lag)
      ensures generator.seed == if frameErasureFlag then SeedAfter(old(generator.seed), 2) else old(generator.seed)
      ensures heard == if frameErasureFlag then ConcealedSubframe(old(generator.seed), lag) else HearSubframe(f, lag)
      ensures var start := Start(second);
              && excitationVector[..start] == old(excitationVector[..start])
              && AdaptiveCodebook.Advanced(old(excitationVector[start - L_PAST_EXCITATION..start]),
                                           excitationVector[start..start + L_SUBFRAME])
                 == Excited(old(excitationVector[start - L_PAST_EXCITATION..start]), lag,
                            if frameErasureFlag then RandomPositions(old(generator.seed)) else f.c,
                            if frameErasureFlag then RandomSigns(old(generator.seed)) else f.s,
                            old(gains.boundedAdaptativeCodebookGain), gains.State())
    {
      hide DecodeLag, G.Attenuated, G.Decoded, P.Sharpened, P.CodeVector, AdaptiveCodebook.Vector, NextSeed;
      hide G.ExcitationSample;
      hide P.DecodePositions, Signs, AdaptiveCodebook.Advanced;
      var start := Start(second);
      ghost var past := excitationVector[start - L_PAST_EXCITATION..start];
      var intPitchDelay, fracPitchDelay := lags.DecodeAdaptativeCodeVector(second, f.p, parityErrorFlag,
                                                                           frameErasureFlag, intPitchDelayIn,
                                                                           excitationVector, start);
      lag := Lag(intPitchDelay, fracPitchDelay);
      ghost var adaptive := AdaptiveCodebook.Vector(past, AdaptiveCodebook.DelayOf(intPitchDelay, fracPitchDelay));
      ghost var before := excitationVector[..];
      assert before[start..start + L_SUBFRAME] == adaptive;
      assert before[..start] == old(excitationVector[..start]);
      var positions, signs := f.c, f.s;
      if frameErasureFlag {
        ghost var seed := generator.seed;
        assert SeedAfter(seed, 1) == NextSeed(SeedAfter(seed, 0)) && SeedAfter(seed, 2) == NextSeed(SeedAfter(seed, 1));
        var r := generator.PseudoRandom();
        positions := r % 0x2000;
        r := generator.PseudoRandom();
        signs := r % 16;
      }
      heard := if frameErasureFlag then Concealed(lag, P.DecodePositions(positions), Signs(signs))
        else HearSubframe(f, lag);
      var fixedCodebookVector := P.DecodeFixedCodeVector(signs, positions, intPitchDelay,
                                                         gains.boundedAdaptativeCodebookGain);
      ghost var code := fixedCodebookVector[..];
      assert excitationVector[..] == before;
      gains.DecodeSubframe(h.maths, f.ga, f.gb, fixedCodebookVector[..], frameErasureFlag, excitationVector, start);
      SamplesOfSubframe(before, excitationVector[..], start, adaptive, code, gains.adaptativeCodebookGain,
                        gains.fixedCodebookGain);
    }

    /** The past excitation and the new frame move left by a frame. */
    method ShiftExcitation()
      requires excitationVector.Length == L_PAST_EXCITATION + L_FRAME
      modifies excitationVector
      ensures excitationVector[..L_PAST_EXCITATION] == old(excitationVector[L_FRAME..])
    {
      var i := 0;
      while i < L_PAST_EXCITATION
        invariant 0 <= i <= L_PAST_EXCITATION
        invariant forall k :: 0 <= k < i ==> excitationVector[k] == old(excitationVector[k + L_FRAME])
        invariant forall k :: i <= k < excitationVector.Length ==> excitationVector[k] == old(excitationVector[k])
      {
        excitationVector[i] := excitationVector[i + L_FRAME];
        i := i + 1;
      }
    }

    /** LSFs of the frame, and the previous LSPs for the next. */
    method DecodeSpectrum(h: Shared, parameters: seq<bv16>, frameErasureFlag: bool)
      requires Valid() && |parameters| == NB_PARAMETERS && InFields(parameters)
      modifies lsp, lsp.previousLCodeWord, lsp.lastqLSF, previousqLSP
      ensures Valid()
      ensures lsp.State() == if frameErasureFlag then Erased(old(lsp.State()))
                             else Received(old(lsp.State()), Field(parameters, 0),
                                           CodebookSum(h.models.books, Field(parameters, 1), Field(parameters, 2),
                                                       Field(parameters, 3)))
      ensures previousqLSP[..] == Cosines(h.models.cos, lsp.State().lastqLSF)
    {
      hide Received, Erased, CodebookSum, Field, Interpolated, InFields, Row, Rows;
      var l := [Field(parameters, 0), Field(parameters, 1), Field(parameters, 2), Field(parameters, 3)];
      var qLSP := lsp.DecodeLSP(h.models.books, l, frameErasureFlag, h.models.cos);
      assert qLSP == Cosines(h.models.cos, lsp.lastqLSF[..]);
      var interpolated := UpdateqLSP(previousqLSP, qLSP);
    }

    /** Both subframes of speech. */
    method DecodeExcitation(h: Shared, f1: Fields, f2: Fields, parityErrorFlag: bool, frameErasureFlag: bool)
      returns (first: Lag, second: Lag, heard: seq<Heard>)
      requires Valid() && InRangeFields(f1, false) && InRangeFields(f2, true)
      modifies lags, gains, gains.previousGainPredictionError, excitationVector, generator
      ensures Valid() && Usable(first) && Usable(second)
      ensures (first, second, lags.previousIntPitchDelay)
           == HearLags(old(lags.previousIntPitchDelay), f1.p, f2.p, parityErrorFlag, frameErasureFlag)
      ensures gains.State() == if frameErasureFlag then G.Attenuated(G.Attenuated(old(gains.State())))
                               else GainsAfter(h.maths, GainsAfter(h.maths, old(gains.State()), f1, first), f2, second)
      ensures generator.seed == if frameErasureFlag then SeedAfter(old(generator.seed), 4) else old(generator.seed)
      ensures heard == if frameErasureFlag then [ConcealedSubframe(old(generator.seed), first),
                                                 ConcealedSubframe(SeedAfter(old(generator.seed), 2), second)]
                       else [HearSubframe(f1, first), HearSubframe(f2, second)]
      ensures var past := old(excitationVector[..L_PAST_EXCITATION]);
              excitationVector[..L_PAST_EXCITATION]
              == if frameErasureFlag then ConcealedPast(old(gains.State()), old(generator.seed), first, second, past)
                 else SpokenPast(h.maths, old(gains.State()), f1, f2, first, second, past)
    {
      hide GainsAfter, G.Attenuated, DecodeLag, SeedAfter, ConcealedSubframe, HearSubframe, Excited, RandomPositions;
      hide RandomSigns, Usable;
      SeedAfterSum(generator.seed, 2, 2);
      ghost var past := excitationVector[..L_PAST_EXCITATION];
      var heard1, heard2;
      first, heard1 := DecodeSubframe(h, false, f1, parityErrorFlag, frameErasureFlag, 0);
      ghost var s1 := excitationVector[L_PAST_EXCITATION..L_PAST_EXCITATION + L_SUBFRAME];
      ghost var half := excitationVector[..L_PAST_EXCITATION + L_SUBFRAME];
      assert half == past + s1;
      assert excitationVector[L_SUBFRAME..L_SUBFRAME + L_PAST_EXCITATION] == AdaptiveCodebook.Advanced(past, s1);
      second, heard2 := DecodeSubframe(h, true, f2, parityErrorFlag, frameErasureFlag, first.delay);
      ghost var s2 := excitationVector[L_PAST_EXCITATION + L_SUBFRAME..];
      assert excitationVector[..] == half + s2;
      TwoSubframes(past, s1, s2);
      heard := [heard1, heard2];
      ShiftExcitation();
    }

    /** The active branch for a received frame. */
    method DecodeSpeech(h: Shared, parameters: seq<bv16>) returns (heard: seq<Heard>)
      requires Valid() && |parameters| == NB_PARAMETERS && InFields(parameters)
      modifies this, lsp, lsp.previousLCodeWord, lsp.lastqLSF, lags, gains, gains.previousGainPredictionError,
               cngGenerator, generator,
               previousqLSP, excitationVector
      ensures Valid() && (State(), heard) == HearParameters(h, old(State()), parameters)
    {
      hide Received, Erased, CodebookSum, GainsAfter, HearSubframe, G.Attenuated, HearLags, Cosines, SeedAfter;
      hide ParityError, Field, FirstFields;
      hide SecondFields, InFields, InRangeFields, Usable, Row, Rows, HearParameters, SpokenPast, ConcealedPast;
      hide ConcealedSubframe;
      ReceivedFieldsInRange(parameters);
      ghost var d := State();
      previousFrameIsActiveFlag := true;
      cngGenerator.seed := CNG_DTX_RANDOM_SEED_INIT;
      DecodeSpectrum(h, parameters, false);
      var first, second;
      first, second, heard := DecodeExcitation(h, FirstFields(parameters), SecondFields(parameters),
                                               ParityError(parameters), false);
      HeardParts(h, d, parameters, State(), first, second);
    }

    /** The same branch for a lost frame, whose parameters are all zero. */
    method Conceal(h: Shared, parameters: seq<bv16>) returns (heard: seq<Heard>)
      requires Valid() && |parameters| == NB_PARAMETERS && InFields(parameters) && previousFrameIsActiveFlag
      modifies this, lsp, lsp.previousLCodeWord, lsp.lastqLSF, lags, gains, gains.previousGainPredictionError,
               cngGenerator, generator,
               previousqLSP, excitationVector
      ensures Valid() && (State(), heard) == ConcealSpeech(h, old(State()))
    {
      hide Received, Erased, CodebookSum, GainsAfter, HearSubframe, G.Attenuated, HearLags, Cosines, SeedAfter;
      hide ParityError, Field, FirstFields;
      hide SecondFields, InFields, InRangeFields, Usable, Row, Rows, ConcealSpeech, SpokenPast, ConcealedPast;
      hide ConcealedSubframe;
      ReceivedFieldsInRange(parameters);
      ErasedLags(lags.previousIntPitchDelay, FirstFields(parameters), SecondFields(parameters),
                 ParityError(parameters));
      ghost var d := State();
      previousFrameIsActiveFlag := true;
      cngGenerator.seed := CNG_DTX_RANDOM_SEED_INIT;
      DecodeSpectrum(h, parameters, true);
      var first, second;
      first, second, heard := DecodeExcitation(h, FirstFields(parameters), SecondFields(parameters),
                                               ParityError(parameters), true);
      ConcealedParts(h, d, State(), first, second);
    }

    /** The comfort noise branch: two bytes of a SID frame, or none. */
    method DecodeNoise(h: Shared, bitStream: seq<bv8>) returns (heard: seq<Heard>)
      requires Valid() && (bitStream == [] || |bitStream| == 2)
      modifies this, lsp.previousLCodeWord, gains, cng, cngGenerator, previousqLSP, excitationVector
      ensures Valid() && (State(), heard) == HearNoise(h, old(State()), bitStream)
    {
      hide NextCng, SeedAfter, Interpolated, Drawn, N.NoiseSubframe, N.Playable;
      ghost var past, seed := excitationVector[..L_PAST_EXCITATION], cngGenerator.seed;
      var interpolated, first, second;
      interpolated, first, second := cng.DecodeSIDframe(h.models, h.roots, previousFrameIsActiveFlag, bitStream,
                                                        lsp.previousLCodeWord, previousqLSP, cngGenerator,
                                                        excitationVector);
      ghost var s1 := N.NoiseSubframe(h.roots, cng.smoothedSIDGain, first, past);
      TwoSubframes(past, s1,
                   N.NoiseSubframe(h.roots, cng.smoothedSIDGain, second, AdaptiveCodebook.Advanced(past, s1)));
      N.PlayableHasFour(first);
      N.PlayableHasFour(second);
      heard := [HeardOf(first), HeardOf(second)];
      previousFrameIsActiveFlag := false;
      gains.boundedAdaptativeCodebookGain := G.BOUNDED_PITCH_GAIN_MIN;
      ShiftExcitation();
    }

    /** One received packet: ten bytes of speech, two of a SID frame, or nothing at all. */
    method Decode(h: Shared, bitStream: seq<bv8>) returns (heard: seq<Heard>)
      requires Valid() && (|bitStream| == 0 || |bitStream| == 2 || |bitStream| == 10)
      modifies this, lsp, lsp.previousLCodeWord, lsp.lastqLSF, lags, gains, gains.previousGainPredictionError, cng,
               cngGenerator, generator,
               previousqLSP, excitationVector
      ensures Valid() && (State(), heard) == DecodeFrame(h, old(State()), bitStream)
    {
      hide HearParameters, ConcealSpeech, HearNoise, Unpacked, InFields;
      var frameErasureFlag := bitStream == [];
      var sidFrameFlag := |bitStream| == 2;
      if frameErasureFlag {
        sidFrameFlag := !previousFrameIsActiveFlag;
      }
      if sidFrameFlag {
        heard := DecodeNoise(h, bitStream);
        return;
      }
      var received := if frameErasureFlag then [0, 0, 0, 0, 0, 0, 0, 0, 0, 0] else bitStream;
      UnpackRoundTrip(received);
      if frameErasureFlag {
        heard := Conceal(h, Unpacked(received));
      } else {
        heard := DecodeSpeech(h, Unpacked(received));
      }
    }
  }
}
