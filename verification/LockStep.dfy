/** Frame steps of encoder and decoder as far as the other side depends on them, and their agreement over whole runs. */
module LockStep {
  import opened CodecParameters
  import opened FixedPoint
  import opened LsfPrediction
  import opened LsfErasure
  import opened SilenceCoding
  import opened ComfortNoise
  import opened Bitstream
  import opened PitchLag
  import opened NoiseExcitation
  import opened SpeechExcitation
  import P = PulseCode
  import G = GainDecoding
  import GainSearch
  import A = AdaptiveCodebook

  const INITIAL_QLSP := [30000, 26000, 21000, 15000, 8000, 0, -8000, -15000, -21000, -26000]
  const O2_IN_Q14 := 3277
  const ONE_POINT_2_IN_Q14 := 19661
  const RANDOM_SEED_INIT := 21845

  /** Approximations and codebooks shared by both sides. */
  datatype Shared = Shared(models: Models, maths: G.Maths, roots: Roots)

  // ---- What the searches of the encoder choose

  datatype Subframe = Subframe(lag: Lag, pulses: P.Pulse4, s0: int, s1: int, s2: int, s3: int, a: int, b: int)

  datatype Choice = Speech(l0: int, l1: int, l2: int, l3: int, first: Subframe, second: Subframe) | Quiet(noise: Noise)

  ghost predicate GoodSubframe(s: Subframe) {
    P.OnTracks(s.pulses) && P.IsSign(s.s0) && P.IsSign(s.s1) && P.IsSign(s.s2) && P.IsSign(s.s3) && 0 <= s.a < 8
      && 0 <= s.b < 16
  }

  ghost predicate GoodChoice(c: Choice) {
    match c
    case Speech(l0, l1, l2, l3, first, second) =>
      && 0 <= l0 < 2 && 0 <= l1 < 128 && 0 <= l2 < 32 && 0 <= l3 < 32 && GoodSubframe(first) && GoodSubframe(second)
      && FirstChoice(first.lag) && SecondChoice(second.lag, LowerEnd(first.lag.delay))
    case Quiet(noise) => Searched(noise)
  }

  function FrameOf(c: Choice): Frame {
    if c.Speech? then Voice else Silent(c.noise)
  }

  // ---- The encoder

  datatype Encoder = Encoder(memory: seq<seq<int>>, previousqLSP: seq<int>, errors: seq<int>, lastGain: int, dtx: Dtx,
                             sidqLSP: seq<int>)

  ghost predicate IsEncoder(e: Encoder) {
    IsMemory(e.memory) && |e.previousqLSP| == |e.sidqLSP| == NB_LSP_COEFF && |e.errors| == 4
  }

  function InitialMemory(): (m: seq<seq<int>>)
    ensures IsMemory(m)
  {
    [InitialCodeWord(), InitialCodeWord(), InitialCodeWord(), InitialCodeWord()]
  }

  function InitialEncoder(): (e: Encoder)
    ensures IsEncoder(e)
  {
    Encoder(InitialMemory(), INITIAL_QLSP, [G.LOWEST_ERROR, G.LOWEST_ERROR, G.LOWEST_ERROR, G.LOWEST_ERROR], O2_IN_Q14,
            InitialDtx(), [0, 0, 0, 0, 0, 0, 0, 0, 0, 0])
  }

  function Clamped(gain: int): int {
    if gain > ONE_POINT_2_IN_Q14 then ONE_POINT_2_IN_Q14 else if gain < O2_IN_Q14 then O2_IN_Q14 else gain
  }

  function SignCode(s: Subframe): int {
    if P.IsSign(s.s0) && P.IsSign(s.s1) && P.IsSign(s.s2) && P.IsSign(s.s3) then P.EncodeSigns(s.s0, s.s1, s.s2, s.s3)
    else 0
  }

  /** The fifteen parameters of a speech frame. */
  function Parameters(c: Choice): (p: seq<bv16>)
    requires c.Speech? && 0 <= c.first.a < 8 && 0 <= c.first.b < 16 && 0 <= c.second.a < 8 && 0 <= c.second.b < 16
    ensures |p| == NB_PARAMETERS
  {
    var p1 := Word(EncodeFirst(c.first.lag));
    [Word(c.l0), Word(c.l1), Word(c.l2), Word(c.l3), p1, Parity(p1), Word(P.EncodePositions(c.first.pulses)),
     Word(SignCode(c.first)), Word(GainSearch.INDEX_MAPPING_GA[c.first.a]),
     Word(GainSearch.INDEX_MAPPING_GB[c.first.b]), Word(EncodeSecond(c.second.lag, LowerEnd(c.first.lag.delay))),
     Word(P.EncodePositions(c.second.pulses)), Word(SignCode(c.second)), Word(GainSearch.INDEX_MAPPING_GA[c.second.a]),
     Word(GainSearch.INDEX_MAPPING_GB[c.second.b])]
  }

  function EnteredError(m: G.Maths, s: Subframe, errors: seq<int>): (r: seq<int>)
    requires |errors| == 4 && 0 <= s.a < 8 && 0 <= s.b < 16
    ensures |r| == 4
  {
    G.Entered(G.PredictionError(m, GainSearch.Correction(s.a, s.b)), errors)
  }

  /** One frame: new state and the bytes sent, none for an untransmitted frame. */
  function EncodeFrame(h: Shared, e: Encoder, c: Choice): (r: (Encoder, seq<bv8>))
    requires IsEncoder(e) && GoodChoice(c)
    ensures IsEncoder(r.0) && (|r.1| == 0 || |r.1| == 2 || |r.1| == 10)
  {
    var dtx := NextDtx(h.models.log2, e.dtx, FrameOf(c));
    match c
    case Speech(l0, l1, l2, l3, first, second) =>
      var code := CodeWord(CodebookSum(h.models.books, l1, l2, l3));
      var qLSF := LsfStability.Stable(Predicted(Regular(l0), code, e.memory));
      (Encoder(Shifted(code, e.memory), Cosines(h.models.cos, qLSF),
               EnteredError(h.maths, second, EnteredError(h.maths, first, e.errors)),
               Clamped(GainSearch.AdaptiveGain(second.a, second.b)), dtx, e.sidqLSP),
       Packed(Parameters(c)))
    case Quiet(noise) =>
      var r := EncodedNoise(h.models, e.dtx, Silent(noise), e.memory, e.sidqLSP);
      (e.(memory := r.0, previousqLSP := r.1, dtx := dtx, sidqLSP := r.1), r.2)
  }

  // ---- The decoder

  datatype Decoder = Decoder(lsf: LsfState, previousqLSP: seq<int>, gains: G.Gains, previousLag: int, randomSeed: int,
                             previousActive: bool, seed: int, cng: Cng, past: seq<int>)

  ghost predicate IsDecoder(d: Decoder) {
    && |d.past| == L_PAST_EXCITATION && IsState(d.lsf) && |d.previousqLSP| == |d.cng.qLSP| == NB_LSP_COEFF
    && |d.gains.errors| == 4
    && 19 <= d.previousLag <= 144 && 0 <= d.seed < 0x10000
  }

  function InitialDecoder(): (d: Decoder)
    ensures IsDecoder(d)
  {
    Decoder(LsfState(InitialMemory(), InitialCodeWord(), 0), INITIAL_QLSP,
            G.Gains([G.LOWEST_ERROR, G.LOWEST_ERROR, G.LOWEST_ERROR, G.LOWEST_ERROR], 0, 0, G.BOUNDED_PITCH_GAIN_MIN),
            60, RANDOM_SEED_INIT, true, CNG_DTX_RANDOM_SEED_INIT,
            Cng([31441, 27566, 21458, 13612, 4663, -4663, -13612, -21458, -27566, -31441], 0, 0),
            seq(L_PAST_EXCITATION, i => 0))
  }

  /** What the decoder makes of a subframe: lag, pulses and their signs, and for a received one both factors of the
      gains. */
  datatype Heard = Coded(lag: Lag, pulses: P.Pulse4, signs: seq<int>, adaptiveGain: int, correction: int)
                 | Concealed(lag: Lag, pulses: P.Pulse4, signs: seq<int>)
                 | Comfort(lag: Lag, pulses: P.Pulse4, signs: seq<int>)

  function Signs(code: int): seq<int> {
    [P.SignBit(code, 0), P.SignBit(code, 1), P.SignBit(code, 2), P.SignBit(code, 3)]
  }

  /** The parameters of one subframe as received. */
  datatype Fields = Fields(p: int, c: int, s: int, ga: int, gb: int)

  predicate InRangeFields(f: Fields, second: bool) {
    0 <= f.p < (if second then 32 else 256) && 0 <= f.c < 0x2000 && 0 <= f.s < 16 && 0 <= f.ga < 8 && 0 <= f.gb < 16
  }

  /** Gains and excitation code of a good subframe. */
  function HearSubframe(f: Fields, lag: Lag): Heard
    requires 0 <= f.ga < 8 && 0 <= f.gb < 16
  {
    var a := GainSearch.REVERSE_INDEX_MAPPING_GA[f.ga];
    var b := GainSearch.REVERSE_INDEX_MAPPING_GB[f.gb];
    GainSearch.MappingsInverse(f.ga);
    GainSearch.MappingsInverse(f.gb);
    Coded(lag, P.DecodePositions(f.c), Signs(f.s), GainSearch.AdaptiveGain(a, b), GainSearch.Correction(a, b))
  }

  /** An erased subframe: pulses and signs from two numbers of the generator. */
  function ConcealedSubframe(seed: int, lag: Lag): Heard {
    Concealed(lag, P.DecodePositions(RandomPositions(seed)), Signs(RandomSigns(seed)))
  }

  function RandomPositions(seed: int): int {
    SeedAfter(seed, 1) % 0x2000
  }

  function RandomSigns(seed: int): int {
    SeedAfter(seed, 2) % 16
  }

  function SignOf(bit: int): int {
    if bit == 0 then -1 else 1
  }

  /** A subframe of comfort noise. */
  function NoiseHeard(seed: int): Heard {
    HeardOf(Drawn(seed))
  }

  function HeardOf(d: Draw): Heard
    requires |d.position| == |d.sign| == 4
  {
    Comfort(Lag(d.intPitchDelay, d.fracPitchDelay),
            P.Pulse4(d.position[0], d.position[1], d.position[2], d.position[3], d.position[3] % 5 - 3),
            [SignOf(d.sign[0]), SignOf(d.sign[1]), SignOf(d.sign[2]), SignOf(d.sign[3])])
  }

  // ---- The excitation history

  /** After a subframe of speech: the code vector is sharpened with the gain bound of before, both vectors get the
      gains of now. */
  function Excited(past: seq<int>, lag: Lag, positions: int, signs: int, bounded: int, now: G.Gains): (r: seq<int>)
    requires |past| == L_PAST_EXCITATION && Usable(lag)
    ensures |r| == L_PAST_EXCITATION
  {
    A.Advanced(past, SpeechSubframe(past, lag, CodeOf(positions, signs, lag, bounded), now.adaptive, now.fixed))
  }

  /** After both subframes of a received frame. */
  function SpokenPast(m: G.Maths, g: G.Gains, f1: Fields, f2: Fields, first: Lag, second: Lag,
                      past: seq<int>): (r: seq<int>)
    requires |past| == L_PAST_EXCITATION && Usable(first) && Usable(second) && |g.errors| == 4
    requires 0 <= f1.ga < 8 && 0 <= f1.gb < 16 && 0 <= f2.ga < 8 && 0 <= f2.gb < 16
    ensures |r| == L_PAST_EXCITATION
  {
    var g1 := GainsAfter(m, g, f1, first);
    var g2 := GainsAfter(m, g1, f2, second);
    Excited(Excited(past, first, f1.c, f1.s, g.bounded, g1), second, f2.c, f2.s, g1.bounded, g2)
  }

  /** After both subframes of a lost one. */
  function ConcealedPast(g: G.Gains, seed: int, first: Lag, second: Lag, past: seq<int>): (r: seq<int>)
    requires |past| == L_PAST_EXCITATION && Usable(first) && Usable(second) && |g.errors| == 4
    ensures |r| == L_PAST_EXCITATION
  {
    var g1 := G.Attenuated(g);
    var g2 := G.Attenuated(g1);
    var next := SeedAfter(seed, 2);
    Excited(Excited(past, first, RandomPositions(seed), RandomSigns(seed), g.bounded, g1),
            second, RandomPositions(next), RandomSigns(next), g1.bounded, g2)
  }

  /** After one subframe of comfort noise. */
  function NoiseAdded(r: Roots, targetGain: int, seed: int, past: seq<int>): (s: seq<int>)
    requires |past| == L_PAST_EXCITATION && 0 <= seed < 0x10000
    ensures |s| == L_PAST_EXCITATION
  {
    DrawnPlaced(seed);
    A.Advanced(past, NoiseSubframe(r, targetGain, Drawn(seed), past))
  }

  /** After both. */
  function NoisePast(r: Roots, targetGain: int, seed: int, past: seq<int>): (s: seq<int>)
    requires |past| == L_PAST_EXCITATION && 0 <= seed < 0x10000
    ensures |s| == L_PAST_EXCITATION
  {
    SeedInRange(seed, DRAWS_PER_SUBFRAME);
    NoiseAdded(r, targetGain, SeedAfter(seed, DRAWS_PER_SUBFRAME), NoiseAdded(r, targetGain, seed, past))
  }

  function GainsAfter(m: G.Maths, g: G.Gains, f: Fields, lag: Lag): (r: G.Gains)
    requires |g.errors| == 4 && 0 <= f.ga < 8 && 0 <= f.gb < 16 && lag.delay > 0
    ensures |r.errors| == 4
  {
    GainSearch.MappingsInverse(f.ga);
    GainSearch.MappingsInverse(f.gb);
    G.Decoded(m, g, GainSearch.REVERSE_INDEX_MAPPING_GA[f.ga], GainSearch.REVERSE_INDEX_MAPPING_GB[f.gb],
              P.Sharpened(P.CodeVector(P.DecodePositions(f.c), f.s), lag.delay, g.bounded, P.ROUNDED))
  }

  function Field(p: seq<bv16>, i: nat): int
    requires i < |p|
  {
    Value(p[i])
  }

  function FirstFields(p: seq<bv16>): Fields
    requires |p| == NB_PARAMETERS
  {
    Fields(Field(p, 4), Field(p, 6), Field(p, 7), Field(p, 8), Field(p, 9))
  }

  function SecondFields(p: seq<bv16>): Fields
    requires |p| == NB_PARAMETERS
  {
    Fields(Field(p, 10), Field(p, 11), Field(p, 12), Field(p, 13), Field(p, 14))
  }

  lemma ReceivedFieldsInRange(p: seq<bv16>)
    requires InFields(p)
    ensures Field(p, 0) < 2 && InRangeFields(FirstFields(p), false) && InRangeFields(SecondFields(p), true)
  {
    hide Value;
    FieldValue(p[0]);
    FieldValue(p[4]);
    FieldValue(p[6]);
    FieldValue(p[7]);
    FieldValue(p[8]);
    FieldValue(p[9]);
    FieldValue(p[10]);
    FieldValue(p[11]);
    FieldValue(p[12]);
    FieldValue(p[13]);
    FieldValue(p[14]);
  }

  predicate ParityError(p: seq<bv16>)
    requires |p| == NB_PARAMETERS
  {
    ParityFails(p[4], p[5])
  }

  /** The two lags of a frame, and the lag kept for the next. */
  function HearLags(previousLag: int, p1: int, p2: int, parityError: bool, erased: bool): (r: (Lag, Lag, int))
    requires 19 <= previousLag <= 144 && 0 <= p1 < 256 && 0 <= p2 < 32
    ensures Usable(r.0) && Usable(r.1) && 19 <= r.2 <= 144
  {
    StepUsable(previousLag, false, p1, parityError, erased, 0);
    var first := DecodeLag(previousLag, false, p1, parityError, erased, 0);
    StepUsable(first.1, true, p2, parityError, erased, first.0.delay);
    var second := DecodeLag(first.1, true, p2, parityError, erased, first.0.delay);
    (first.0, second.0, second.1)
  }

  /** An active frame from ten received bytes. */
  function HearSpeech(h: Shared, d: Decoder, bytes: seq<bv8>): (r: (Decoder, seq<Heard>))
    requires IsDecoder(d) && |bytes| == 10
    ensures IsDecoder(r.0) && |r.1| == 2
  {
    UnpackRoundTrip(bytes);
    HearParameters(h, d, Unpacked(bytes))
  }

  function HearParameters(h: Shared, d: Decoder, p: seq<bv16>): (r: (Decoder, seq<Heard>))
    requires IsDecoder(d) && InFields(p)
    ensures IsDecoder(r.0) && |r.1| == 2
  {
    ReceivedFieldsInRange(p);
    var lsf := Received(d.lsf, Field(p, 0), CodebookSum(h.models.books, Field(p, 1), Field(p, 2), Field(p, 3)));
    var f1 := FirstFields(p);
    var f2 := SecondFields(p);
    var lags := HearLags(d.previousLag, f1.p, f2.p, ParityError(p), false);
    var gains := GainsAfter(h.maths, GainsAfter(h.maths, d.gains, f1, lags.0), f2, lags.1);
    (d.(lsf := lsf, previousqLSP := Cosines(h.models.cos, lsf.lastqLSF), gains := gains, previousLag := lags.2,
        previousActive := true, seed := CNG_DTX_RANDOM_SEED_INIT,
        past := SpokenPast(h.maths, d.gains, f1, f2, lags.0, lags.1, d.past)),
     [HearSubframe(f1, lags.0), HearSubframe(f2, lags.1)])
  }

  /** A lost frame while speech is decoded. */
  function ConcealSpeech(h: Shared, d: Decoder): (r: (Decoder, seq<Heard>))
    requires IsDecoder(d)
    ensures IsDecoder(r.0) && |r.1| == 2
  {
    var lsf := Erased(d.lsf);
    var lags := HearLags(d.previousLag, 0, 0, false, true);
    (d.(lsf := lsf, previousqLSP := Cosines(h.models.cos, lsf.lastqLSF), gains := G.Attenuated(G.Attenuated(d.gains)),
        previousLag := lags.2, randomSeed := SeedAfter(d.randomSeed, 4), seed := CNG_DTX_RANDOM_SEED_INIT,
        past := ConcealedPast(d.gains, d.randomSeed, lags.0, lags.1, d.past)),
     [ConcealedSubframe(d.randomSeed, lags.0), ConcealedSubframe(SeedAfter(d.randomSeed, 2), lags.1)])
  }

  /** A SID frame of two bytes, or a comfort noise frame without any. */
  function HearNoise(h: Shared, d: Decoder, bytes: seq<bv8>): (r: (Decoder, seq<Heard>))
    requires IsDecoder(d) && (bytes == [] || |bytes| == 2)
    ensures IsDecoder(r.0) && |r.1| == 2
  {
    var r := NextCng(h.models, d.cng, d.previousActive, bytes, d.lsf.memory);
    SeedInRange(d.seed, 2 * DRAWS_PER_SUBFRAME);
    (d.(lsf := d.lsf.(memory := r.1), previousqLSP := r.0.qLSP, gains := d.gains.(bounded := G.BOUNDED_PITCH_GAIN_MIN),
        previousActive := false, seed := SeedAfter(d.seed, 2 * DRAWS_PER_SUBFRAME), cng := r.0,
        past := NoisePast(h.roots, r.0.smoothed, d.seed, d.past)),
     NoiseFrame(d.seed))
  }

  /** Both subframes of a comfort noise frame. */
  function NoiseFrame(seed: int): (r: seq<Heard>)
    ensures |r| == 2
  {
    [NoiseHeard(seed), NoiseHeard(SeedAfter(seed, DRAWS_PER_SUBFRAME))]
  }

  /** Dispatch of bg729Decoder: a missing packet is speech to conceal or comfort noise, as the last frame was. */
  function DecodeFrame(h: Shared, d: Decoder, bytes: seq<bv8>): (r: (Decoder, seq<Heard>))
    requires IsDecoder(d) && (|bytes| == 0 || |bytes| == 2 || |bytes| == 10)
    ensures IsDecoder(r.0) && |r.1| == 2
  {
    if |bytes| == 10 then HearSpeech(h, d, bytes)
    else if |bytes| == 2 || !d.previousActive then HearNoise(h, d, bytes)
    else ConcealSpeech(h, d)
  }

  /** One frame through a channel that loses nothing. */
  function Exchange(h: Shared, e: Encoder, d: Decoder, c: Choice): (r: (Encoder, Decoder, seq<Heard>))
    requires IsEncoder(e) && IsDecoder(d) && GoodChoice(c)
    ensures IsEncoder(r.0) && IsDecoder(r.1)
  {
    var sent := EncodeFrame(h, e, c);
    var heard := DecodeFrame(h, d, sent.1);
    (sent.0, heard.0, heard.1)
  }

  // ---- Agreement

  ghost predicate Agree(e: Encoder, d: Decoder) {
    && e.memory == d.lsf.memory && e.previousqLSP == d.previousqLSP && e.errors == d.gains.errors
    && e.dtx.previousVoice == d.previousActive && e.dtx.seed == d.seed
    && (!d.previousActive ==>
          e.dtx.gain == d.cng.received && e.dtx.smoothed == d.cng.smoothed && e.sidqLSP == d.cng.qLSP)
  }

  function Chosen(s: Subframe): Heard
    requires 0 <= s.a < 8 && 0 <= s.b < 16
  {
    Coded(s.lag, s.pulses, [s.s0, s.s1, s.s2, s.s3], GainSearch.AdaptiveGain(s.a, s.b), GainSearch.Correction(s.a, s.b))
  }

  /** Received fields of a subframe that was sent. */
  lemma SubframeSurvives(s: Subframe, f: Fields, lag: Lag)
    requires GoodSubframe(s) && 0 <= f.ga < 8 && 0 <= f.gb < 16 && lag == s.lag
    requires f.c == P.EncodePositions(s.pulses) && f.s == SignCode(s)
    requires f.ga == GainSearch.INDEX_MAPPING_GA[s.a] && f.gb == GainSearch.INDEX_MAPPING_GB[s.b]
    ensures HearSubframe(f, lag) == Chosen(s)
  {
    P.PositionsRoundTrip(s.pulses);
    P.SignsRoundTrip(s.s0, s.s1, s.s2, s.s3);
    GainSearch.MappingsInverse(s.a);
    GainSearch.MappingsInverse(s.b);
    hide P.DecodePositions, P.EncodePositions, P.SignBit;
  }

  /** Every parameter of a subframe is read back as the number it was. */
  lemma SubframeValues(s: Subframe)
    requires GoodSubframe(s)
    ensures Value(Word(P.EncodePositions(s.pulses))) == P.EncodePositions(s.pulses)
            && Value(Word(SignCode(s))) == SignCode(s)
    ensures Value(Word(GainSearch.INDEX_MAPPING_GA[s.a])) == GainSearch.INDEX_MAPPING_GA[s.a]
    ensures Value(Word(GainSearch.INDEX_MAPPING_GB[s.b])) == GainSearch.INDEX_MAPPING_GB[s.b]
  {
    hide Value, Word, P.EncodePositions, P.EncodeSigns, P.DecodePositions, P.SignBit;
    P.PositionsRoundTrip(s.pulses);
    P.SignsRoundTrip(s.s0, s.s1, s.s2, s.s3);
    GainSearch.MappingsInverse(s.a);
    GainSearch.MappingsInverse(s.b);
    FieldWord(P.EncodePositions(s.pulses));
    FieldWord(SignCode(s));
    FieldWord(GainSearch.INDEX_MAPPING_GA[s.a]);
    FieldWord(GainSearch.INDEX_MAPPING_GB[s.b]);
  }

  /** And fits its field. */
  lemma SubframeFits(s: Subframe)
    requires GoodSubframe(s)
    ensures Word(P.EncodePositions(s.pulses)) < 0x2000 && Word(SignCode(s)) < 0x10
    ensures Word(GainSearch.INDEX_MAPPING_GA[s.a]) < 0x8 && Word(GainSearch.INDEX_MAPPING_GB[s.b]) < 0x10
  {
    hide Value, Word, P.EncodePositions, P.EncodeSigns, P.DecodePositions, P.SignBit;
    P.PositionsRoundTrip(s.pulses);
    P.SignsRoundTrip(s.s0, s.s1, s.s2, s.s3);
    GainSearch.MappingsInverse(s.a);
    GainSearch.MappingsInverse(s.b);
    FieldWord(P.EncodePositions(s.pulses));
    FieldWord(SignCode(s));
    FieldWord(GainSearch.INDEX_MAPPING_GA[s.a]);
    FieldWord(GainSearch.INDEX_MAPPING_GB[s.b]);
  }

  lemma FrameValues(c: Choice)
    requires GoodChoice(c) && c.Speech?
    ensures Value(Word(c.l0)) == c.l0 && Value(Word(c.l1)) == c.l1 && Value(Word(c.l2)) == c.l2
            && Value(Word(c.l3)) == c.l3
    ensures Value(Word(EncodeFirst(c.first.lag))) == EncodeFirst(c.first.lag)
    ensures var p2 := EncodeSecond(c.second.lag, LowerEnd(c.first.lag.delay));
            Value(Word(p2)) == p2
  {
    hide Value, Word, EncodeFirst, EncodeSecond, DecodeFirst, DecodeSecond, LowerEnd;
    FirstRoundTrip(c.first.lag);
    SecondRoundTrip(c.second.lag, c.first.lag.delay);
    FieldWord(c.l0);
    FieldWord(c.l1);
    FieldWord(c.l2);
    FieldWord(c.l3);
    FieldWord(EncodeFirst(c.first.lag));
    FieldWord(EncodeSecond(c.second.lag, LowerEnd(c.first.lag.delay)));
  }

  lemma FrameFits(c: Choice)
    requires GoodChoice(c) && c.Speech?
    ensures StageInFields(Word(c.l0), Word(c.l1), Word(c.l2), Word(c.l3))
    ensures var p1 := Word(EncodeFirst(c.first.lag));
            PitchInFields(p1, Parity(p1), Word(P.EncodePositions(c.first.pulses)))
    ensures FirstInFields(Word(SignCode(c.first)), Word(GainSearch.INDEX_MAPPING_GA[c.first.a]),
                          Word(GainSearch.INDEX_MAPPING_GB[c.first.b]),
                          Word(EncodeSecond(c.second.lag, LowerEnd(c.first.lag.delay))))
    ensures SecondInFields(Word(P.EncodePositions(c.second.pulses)), Word(SignCode(c.second)),
                           Word(GainSearch.INDEX_MAPPING_GA[c.second.a]), Word(GainSearch.INDEX_MAPPING_GB[c.second.b]))
  {
    hide Value, Word, EncodeFirst, EncodeSecond, DecodeFirst, DecodeSecond, LowerEnd, P.EncodePositions, SignCode;
    hide Parity;
    FirstRoundTrip(c.first.lag);
    SecondRoundTrip(c.second.lag, c.first.lag.delay);
    FieldWord(c.l0);
    FieldWord(c.l1);
    FieldWord(c.l2);
    FieldWord(c.l3);
    FieldWord(EncodeFirst(c.first.lag));
    FieldWord(EncodeSecond(c.second.lag, LowerEnd(c.first.lag.delay)));
    ParityBit(Word(EncodeFirst(c.first.lag)));
    SubframeFits(c.first);
    SubframeFits(c.second);
  }

  lemma ParametersInFields(c: Choice)
    requires GoodChoice(c) && c.Speech?
    ensures InFields(Parameters(c)) && !ParityError(Parameters(c))
  {
    hide Value, Word, P.EncodePositions, SignCode, EncodeFirst, EncodeSecond, LowerEnd, Parity, P.OnTracks, P.IsSign;
    hide FirstChoice, SecondChoice;
    hide StageInFields, PitchInFields, FirstInFields, SecondInFields;
    FrameFits(c);
    ParityBit(Word(EncodeFirst(c.first.lag)));
  }

  /** The channel loses nothing: the fields received are the parameters sent. */
  lemma ParametersSurvive(c: Choice)
    requires GoodChoice(c) && c.Speech?
    ensures var p := Parameters(c);
            && Field(p, 0) == c.l0 && Field(p, 1) == c.l1 && Field(p, 2) == c.l2 && Field(p, 3) == c.l3
            && FirstFields(p) == SentFields(c.first, EncodeFirst(c.first.lag))
            && SecondFields(p) == SentFields(c.second, EncodeSecond(c.second.lag, LowerEnd(c.first.lag.delay)))
  {
    hide Value, Word, P.EncodePositions, SignCode, EncodeFirst, EncodeSecond, LowerEnd, Parity, P.OnTracks, P.IsSign;
    hide FirstChoice, SecondChoice;
    FrameValues(c);
    SubframeValues(c.first);
    SubframeValues(c.second);
  }

  function SentFields(s: Subframe, code: int): Fields
    requires 0 <= s.a < 8 && 0 <= s.b < 16
  {
    Fields(code, P.EncodePositions(s.pulses), SignCode(s), GainSearch.INDEX_MAPPING_GA[s.a],
           GainSearch.INDEX_MAPPING_GB[s.b])
  }

  lemma ParityBit(x: bv16)
    ensures Parity(x) < 2 && Parity(x) ^ Parity(x) == 0
  {
  }

  /** Both sides have the same lags. */
  lemma LagsSurvive(c: Choice, previousLag: int)
    requires GoodChoice(c) && c.Speech? && 19 <= previousLag <= 144
    ensures var p1 := EncodeFirst(c.first.lag);
            var p2 := EncodeSecond(c.second.lag, LowerEnd(c.first.lag.delay));
            && 0 <= p1 < 256 && 0 <= p2 < 32
            && HearLags(previousLag, p1, p2, false, false) == (c.first.lag, c.second.lag, c.second.lag.delay)
  {
    hide EncodeFirst, EncodeSecond, DecodeFirst, DecodeSecond, LowerEnd;
    FirstRoundTrip(c.first.lag);
    SecondRoundTrip(c.second.lag, c.first.lag.delay);
  }

  /** Prediction memory of the decoder after a good subframe. */
  lemma ErrorsFollow(m: G.Maths, g: G.Gains, s: Subframe, code: int, lag: Lag)
    requires |g.errors| == 4 && GoodSubframe(s) && lag.delay > 0
    ensures 0 <= GainSearch.INDEX_MAPPING_GA[s.a] < 8 && 0 <= GainSearch.INDEX_MAPPING_GB[s.b] < 16
    ensures var r := GainsAfter(m, g, SentFields(s, code), lag);
            && r.errors == EnteredError(m, s, g.errors) && r.adaptive == GainSearch.AdaptiveGain(s.a, s.b)
            && r.bounded == G.Bounded(GainSearch.AdaptiveGain(s.a, s.b))
  {
    hide G.MACodeGainPrediction, G.PredictionError, P.Sharpened, P.CodeVector, P.DecodePositions, Cast16, Pshr;
    hide SplitMultiply;
    GainSearch.MappingsInverse(s.a);
    GainSearch.MappingsInverse(s.b);
  }

  /** Gains of the decoder after the two subframes of a choice. */
  function GainsHeard(m: G.Maths, g: G.Gains, c: Choice): (r: G.Gains)
    requires |g.errors| == 4 && GoodChoice(c) && c.Speech?
    ensures |r.errors| == 4
  {
    GainSearch.MappingsInverse(c.first.a);
    GainSearch.MappingsInverse(c.first.b);
    GainSearch.MappingsInverse(c.second.a);
    GainSearch.MappingsInverse(c.second.b);
    var g1 := GainsAfter(m, g, SentFields(c.first, EncodeFirst(c.first.lag)), c.first.lag);
    GainsAfter(m, g1, SentFields(c.second, EncodeSecond(c.second.lag, LowerEnd(c.first.lag.delay))), c.second.lag)
  }

  lemma GainsFollow(m: G.Maths, g: G.Gains, c: Choice)
    requires |g.errors| == 4 && GoodChoice(c) && c.Speech?
    ensures GainsHeard(m, g, c).errors == EnteredError(m, c.second, EnteredError(m, c.first, g.errors))
    ensures GainsHeard(m, g, c).bounded == G.Bounded(GainSearch.AdaptiveGain(c.second.a, c.second.b))
  {
    var p1 := EncodeFirst(c.first.lag);
    var p2 := EncodeSecond(c.second.lag, LowerEnd(c.first.lag.delay));
    hide GainsAfter, EnteredError, EncodeFirst, EncodeSecond, LowerEnd, SentFields;
    ErrorsFollow(m, g, c.first, p1, c.first.lag);
    ErrorsFollow(m, GainsAfter(m, g, SentFields(c.first, p1), c.first.lag), c.second, p2, c.second.lag);
  }

  /** The decoder's frame on the bytes of a speech choice, in terms of the choice. */
  lemma SpeechHeard(h: Shared, d: Decoder, c: Choice)
    requires IsDecoder(d) && GoodChoice(c) && c.Speech?
    ensures var r := HearSpeech(h, d, Packed(Parameters(c)));
            var lsf := Received(d.lsf, c.l0, CodebookSum(h.models.books, c.l1, c.l2, c.l3));
            && r.0 == d.(lsf := lsf, previousqLSP := Cosines(h.models.cos, lsf.lastqLSF),
                         gains := GainsHeard(h.maths, d.gains, c), previousLag := c.second.lag.delay,
                         previousActive := true, seed := CNG_DTX_RANDOM_SEED_INIT, past := r.0.past)
            && r.1 == [Chosen(c.first), Chosen(c.second)]
  {
    ParametersInFields(c);
    PackRoundTrip(Parameters(c));
    LagsSurvive(c, d.previousLag);
    ParametersSurvive(c);
    var p1 := EncodeFirst(c.first.lag);
    var p2 := EncodeSecond(c.second.lag, LowerEnd(c.first.lag.delay));
    SentInRange(c.first, p1);
    SentInRange(c.second, p2);
    hide Parameters, Packed, Unpacked, ParityError, HearLags, Received, CodebookSum, Cosines, InFields, Field;
    hide FirstFields, SecondFields;
    hide GainsAfter, EncodeFirst, EncodeSecond, LowerEnd, HearSubframe;
    SubframeSurvives(c.first, SentFields(c.first, p1), c.first.lag);
    SubframeSurvives(c.second, SentFields(c.second, p2), c.second.lag);
    hide SentFields, Chosen;
  }

  lemma SentInRange(s: Subframe, code: int)
    requires GoodSubframe(s)
    ensures 0 <= SentFields(s, code).ga < 8 && 0 <= SentFields(s, code).gb < 16
  {
  }

  /** Quantised LSPs of a speech frame, on either side. */
  function SpokenLsp(h: Shared, c: Choice, memory: seq<seq<int>>): (r: seq<int>)
    requires c.Speech? && IsMemory(memory)
    ensures |r| == NB_LSP_COEFF
  {
    Cosines(h.models.cos,
            LsfStability.Stable(Predicted(Regular(c.l0), CodeWord(CodebookSum(h.models.books, c.l1, c.l2, c.l3)),
                                          memory)))
  }

  /** The codeword a speech frame enters into the LSF memory, on either side. */
  function Spoken(h: Shared, c: Choice): (r: seq<int>)
    requires c.Speech?
    ensures |r| == NB_LSP_COEFF
  {
    CodeWord(CodebookSum(h.models.books, c.l1, c.l2, c.l3))
  }

  /** A speech frame through the channel, state by state. */
  lemma SpeechExchange(h: Shared, e: Encoder, d: Decoder, c: Choice)
    requires IsEncoder(e) && IsDecoder(d) && GoodChoice(c) && c.Speech?
    ensures var r := Exchange(h, e, d, c);
            && r.0.memory == Shifted(Spoken(h, c), e.memory) && r.1.lsf.memory == Shifted(Spoken(h, c), d.lsf.memory)
            && r.0.previousqLSP == SpokenLsp(h, c, e.memory) && r.1.previousqLSP == SpokenLsp(h, c, d.lsf.memory)
            && r.0.errors == EnteredError(h.maths, c.second, EnteredError(h.maths, c.first, e.errors))
            && r.1.gains.errors == EnteredError(h.maths, c.second, EnteredError(h.maths, c.first, d.gains.errors))
    ensures var r := Exchange(h, e, d, c);
            var gain := GainSearch.AdaptiveGain(c.second.a, c.second.b);
            && r.0.dtx.previousVoice && r.1.previousActive && r.0.dtx.seed == r.1.seed
            && r.0.lastGain == Clamped(gain) && r.1.gains.bounded == G.Bounded(gain)
            && r.2 == [Chosen(c.first), Chosen(c.second)]
  {
    SpeechHeard(h, d, c);
    GainsFollow(h.maths, d.gains, c);
    hide HearSpeech, Parameters, Packed, CodeWord, Shifted, Predicted, LsfStability.Stable, Regular, CodebookSum;
    hide Cosines;
    hide GainsHeard, EnteredError, Chosen, Clamped, G.Bounded, GainSearch.AdaptiveGain;
  }

  /** A speech frame keeps the two sides in step and is heard as it was chosen. */
  lemma SpeechKeepsStep(h: Shared, e: Encoder, d: Decoder, c: Choice)
    requires IsEncoder(e) && IsDecoder(d) && Agree(e, d) && GoodChoice(c) && c.Speech?
    ensures var r := Exchange(h, e, d, c);
            Agree(r.0, r.1) && r.2 == [Chosen(c.first), Chosen(c.second)]
  {
    hide Exchange, Spoken, SpokenLsp, EnteredError, Shifted, Chosen;
    SpeechExchange(h, e, d, c);
  }

  /** Indices a SID frame carries undamaged. */
  predicate SurvivesSid(c: Choice) {
    c.Quiet? ==> c.noise.l2 < 12
  }

  lemma NoiseKeepsStep(h: Shared, e: Encoder, d: Decoder, c: Choice)
    requires IsEncoder(e) && IsDecoder(d) && Agree(e, d) && GoodChoice(c) && c.Quiet? && SurvivesSid(c)
    ensures var r := Exchange(h, e, d, c);
            Agree(r.0, r.1) && !r.1.previousActive && r.2 == NoiseFrame(e.dtx.seed)
  {
    hide SidBytes, SidIndices, SidLsf, Cosines, GainIndex, SeedAfter, Smoothed, Cast16, FrameLogEnergy;
    hide DecodedLogEnergy, Changed;
    hide HearSpeech, ConcealSpeech, NoisePast, NoiseFrame;
    var n := c.noise;
    var index := GainIndex(h.models.log2, e.dtx, n);
    SidReceived(n, index);
  }

  /** The two memories after a SID frame. */
  lemma SidMemories(h: Shared, e: Encoder, d: Decoder, c: Choice)
    requires IsEncoder(e) && IsDecoder(d) && GoodChoice(c) && c.Quiet?
             && KindOf(h.models.log2, e.dtx, FrameOf(c)) == Sid
    ensures var r := Exchange(h, e, d, c);
            var x := SidIndices(SidBytes(c.noise, GainIndex(h.models.log2, e.dtx, c.noise)));
            && r.0.memory == SidLsf(h.models.books, c.noise.l0, c.noise.l1, c.noise.l2, e.memory).0
            && r.1.lsf.memory == SidLsf(h.models.books, x.l0, x.l1, x.l2, d.lsf.memory).0
  {
    hide SidBytes, SidIndices, SidLsf, Cosines, GainIndex, SeedAfter, Smoothed, Cast16, FrameLogEnergy;
    hide DecodedLogEnergy, Changed, KindOf;
    hide HearSpeech, ConcealSpeech, NoisePast, NoiseFrame;
  }

  /** A SID index that does not survive leaves the sides in step exactly when the wrong vector happens to be the
      right one. */
  lemma SidOutOfStep(h: Shared, e: Encoder, d: Decoder, c: Choice)
    requires IsEncoder(e) && IsDecoder(d) && Agree(e, d) && GoodChoice(c) && c.Quiet? && !SurvivesSid(c)
    requires KindOf(h.models.log2, e.dtx, FrameOf(c)) == Sid
    ensures var r := Exchange(h, e, d, c);
            r.0.memory == r.1.lsf.memory <==>
            CodeWord(SidSum(h.models.books, c.noise.l1, c.noise.l2))
              == CodeWord(SidSum(h.models.books, c.noise.l1, c.noise.l2 - 12))
  {
    hide Exchange, SidBytes, SidIndices, GainIndex, KindOf, CodeWord, SidSum, Predicted, NoiseMAPredictor;
    hide LsfStability.Stable;
    var n := c.noise;
    SidReceived(n, GainIndex(h.models.log2, e.dtx, n));
    SidMemories(h, e, d, c);
    var sent := CodeWord(SidSum(h.models.books, n.l1, n.l2));
    var received := CodeWord(SidSum(h.models.books, n.l1, n.l2 - 12));
    assert Shifted(sent, e.memory)[0] == sent && Shifted(received, d.lsf.memory)[0] == received;
  }

  // ---- Whole runs

  ghost predicate GoodChoices(choices: seq<Choice>) {
    forall i :: 0 <= i < |choices| ==> GoodChoice(choices[i]) && SurvivesSid(choices[i])
  }

  /** States of both sides after a run over a lossless channel. */
  function Run(h: Shared, e: Encoder, d: Decoder, choices: seq<Choice>): (r: (Encoder, Decoder))
    requires IsEncoder(e) && IsDecoder(d) && GoodChoices(choices)
    ensures IsEncoder(r.0) && IsDecoder(r.1)
  {
    if |choices| == 0 then (e, d)
    else
      var before := Run(h, e, d, choices[..|choices| - 1]);
      var after := Exchange(h, before.0, before.1, choices[|choices| - 1]);
      (after.0, after.1)
  }

  /** From agreeing states both sides agree after every frame of every run: on the LSF memory, the quantised LSPs,
      the gain-prediction memory, the activity flag, the seed, and during noise on the gains and LSPs of the last SID
      frame. */
  lemma {:induction false} RunKeepsStep(h: Shared, e: Encoder, d: Decoder, choices: seq<Choice>)
    requires IsEncoder(e) && IsDecoder(d) && GoodChoices(choices) && Agree(e, d)
    ensures var r := Run(h, e, d, choices);
            Agree(r.0, r.1)
    decreases |choices|
  {
    hide Exchange, Agree;
    if |choices| > 0 {
      var before := choices[..|choices| - 1];
      RunKeepsStep(h, e, d, before);
      var r := Run(h, e, d, before);
      var c := choices[|choices| - 1];
      if c.Speech? {
        SpeechKeepsStep(h, r.0, r.1, c);
      } else {
        NoiseKeepsStep(h, r.0, r.1, c);
      }
    }
  }

  lemma InitialAgree()
    ensures Agree(InitialEncoder(), InitialDecoder())
  {
  }

  ghost predicate HeardAsChosen(h: Shared, s: (Encoder, Decoder), c: Choice)
    requires IsEncoder(s.0) && IsDecoder(s.1) && GoodChoice(c) && c.Speech?
  {
    Exchange(h, s.0, s.1, c).2 == [Chosen(c.first), Chosen(c.second)]
  }

  /** From start-up, every speech frame of every erasure-free run is decoded with the lags, pulses, signs and gain
      factors the encoder chose. */
  lemma EveryFrameHeardAsChosen(h: Shared, choices: seq<Choice>, i: nat)
    requires i < |choices| && choices[i].Speech? && GoodChoices(choices)
    ensures HeardAsChosen(h, Run(h, InitialEncoder(), InitialDecoder(), choices[..i]), choices[i])
  {
    hide Run, Exchange, Agree, InitialEncoder, InitialDecoder;
    InitialAgree();
    RunKeepsStep(h, InitialEncoder(), InitialDecoder(), choices[..i]);
    var r := Run(h, InitialEncoder(), InitialDecoder(), choices[..i]);
    SpeechKeepsStep(h, r.0, r.1, choices[i]);
  }

  /** From agreeing states a frame that is not transmitted, a missing packet to the decoder, is always taken for
      comfort noise. */
  lemma UntransmittedIsComfortNoise(h: Shared, e: Encoder, d: Decoder, c: Choice)
    requires IsEncoder(e) && IsDecoder(d) && Agree(e, d) && GoodChoice(c) && c.Quiet?
    ensures var sent := EncodeFrame(h, e, c).1;
            (sent == [] || |sent| == 2) && DecodeFrame(h, d, sent) == HearNoise(h, d, sent)
  {
    hide SidBytes, SidLsf, Cosines, GainIndex, HearNoise, HearSpeech, FrameLogEnergy, Changed;
  }

  lemma NoiseGains(h: Shared, e: Encoder, d: Decoder, c: Choice)
    requires IsEncoder(e) && IsDecoder(d) && Agree(e, d) && GoodChoice(c) && c.Quiet?
    ensures var r := Exchange(h, e, d, c);
            r.0.lastGain == e.lastGain && r.1.gains.bounded == G.BOUNDED_PITCH_GAIN_MIN
  {
    hide SidBytes, SidLsf, Cosines, GainIndex, NextCng, HearSpeech, ConcealSpeech, FrameLogEnergy, Changed, SeedAfter;
    hide NoisePast, NoiseFrame;
  }

  /** The sharpening gains are not kept in step: their bounds differ, and noise resets only the decoder's. */
  lemma SharpeningGains(h: Shared, e: Encoder, d: Decoder, c: Choice)
    requires IsEncoder(e) && IsDecoder(d) && Agree(e, d) && GoodChoice(c)
    ensures var r := Exchange(h, e, d, c);
            r.0.lastGain == r.1.gains.bounded <==>
            if c.Speech? then GainSearch.AdaptiveGain(c.second.a, c.second.b) <= G.BOUNDED_PITCH_GAIN_MAX
            else e.lastGain == O2_IN_Q14
  {
    hide Exchange, Agree, Spoken, SpokenLsp, EnteredError, Shifted, Chosen, GainSearch.AdaptiveGain;
    if c.Speech? {
      SpeechExchange(h, e, d, c);
    } else {
      NoiseGains(h, e, d, c);
    }
  }

  // ---- Recovery

  /** Agreement after k speech frames from unrelated states: k codewords, two prediction errors a frame. */
  ghost predicate PartlyAgree(e: Encoder, d: Decoder, k: nat)
    requires IsEncoder(e) && IsDecoder(d)
  {
    && (forall j :: 0 <= j < k && j < MA_MAX_K ==> e.memory[j] == d.lsf.memory[j])
    && (forall j :: 0 <= j < 2 * k && j < 4 ==> e.errors[j] == d.gains.errors[j])
    && (k >= 1 ==> e.dtx.previousVoice && d.previousActive && e.dtx.seed == d.seed)
    && (k >= 5 ==> e.previousqLSP == d.previousqLSP)
  }

  lemma SpeechRecovers(h: Shared, e: Encoder, d: Decoder, c: Choice, k: nat)
    requires IsEncoder(e) && IsDecoder(d) && GoodChoice(c) && c.Speech? && PartlyAgree(e, d, k)
    ensures var r := Exchange(h, e, d, c);
            PartlyAgree(r.0, r.1, k + 1)
  {
    hide Exchange, Spoken, SpokenLsp, Chosen, G.PredictionError, GainSearch.Correction, GainSearch.AdaptiveGain;
    hide G.Bounded, Clamped;
    SpeechExchange(h, e, d, c);
    if k >= 4 {
      SameMemory(e.memory, d.lsf.memory);
    }
  }

  lemma SameMemory(a: seq<seq<int>>, b: seq<seq<int>>)
    requires |a| == |b| == MA_MAX_K && forall j :: 0 <= j < MA_MAX_K ==> a[j] == b[j]
    ensures a == b
  {
  }

  lemma {:induction false} RunRecovers(h: Shared, e: Encoder, d: Decoder, choices: seq<Choice>)
    requires IsEncoder(e) && IsDecoder(d) && GoodChoices(choices) && forall i :: 0 <= i < |choices| ==>
             choices[i].Speech?
    ensures var r := Run(h, e, d, choices);
            PartlyAgree(r.0, r.1, |choices|)
    decreases |choices|
  {
    hide Exchange, PartlyAgree;
    if |choices| > 0 {
      var before := choices[..|choices| - 1];
      RunRecovers(h, e, d, before);
      var r := Run(h, e, d, before);
      SpeechRecovers(h, r.0, r.1, choices[|choices| - 1], |before|);
    } else {
      Unrelated(e, d);
    }
  }

  lemma Unrelated(e: Encoder, d: Decoder)
    requires IsEncoder(e) && IsDecoder(d)
    ensures PartlyAgree(e, d, 0)
  {
  }

  lemma FullyAgree(e: Encoder, d: Decoder, k: nat)
    requires IsEncoder(e) && IsDecoder(d) && k >= 5 && PartlyAgree(e, d, k)
    ensures Agree(e, d)
  {
  }

  /** Whatever was lost before, five received speech frames bring the two sides back in step. */
  lemma FiveFramesRecover(h: Shared, e: Encoder, d: Decoder, choices: seq<Choice>)
    requires IsEncoder(e) && IsDecoder(d) && GoodChoices(choices) && |choices| >= 5
             && forall i :: 0 <= i < |choices| ==> choices[i].Speech?
    ensures var r := Run(h, e, d, choices);
            Agree(r.0, r.1)
  {
    hide Run, Exchange, PartlyAgree, GoodChoice;
    RunRecovers(h, e, d, choices);
    var r := Run(h, e, d, choices);
    FullyAgree(r.0, r.1, |choices|);
  }

  // ---- Any stream

  ghost predicate Packets(stream: seq<seq<bv8>>) {
    forall i :: 0 <= i < |stream| ==> |stream[i]| == 0 || |stream[i]| == 2 || |stream[i]| == 10
  }

  /** The decoder over any sequence of packets, arbitrary bytes and losses included. */
  function Decode(h: Shared, stream: seq<seq<bv8>>): (d: Decoder)
    requires Packets(stream)
    ensures IsDecoder(d)
  {
    if |stream| == 0 then InitialDecoder()
    else DecodeFrame(h, Decode(h, stream[..|stream| - 1]), stream[|stream| - 1]).0
  }

  /** A lag that keeps the interpolation inside the excitation buffer, pulses on their tracks. */
  ghost predicate Sound(heard: Heard) {
    Usable(heard.lag) && A.InRange(A.DelayOf(heard.lag.delay, heard.lag.frac)) && P.OnTracks(heard.pulses)
  }

  lemma SpeechSound(h: Shared, d: Decoder, p: seq<bv16>, k: nat)
    requires IsDecoder(d) && InFields(p) && k < 2
    ensures Sound(HearParameters(h, d, p).1[k])
  {
    hide P.DecodePositions, P.EncodePositions, P.OnTracks, Received, CodebookSum, GainsAfter, Signs, Usable, SpokenPast;
    ReceivedFieldsInRange(p);
    P.CodeRoundTrip(FirstFields(p).c);
    P.CodeRoundTrip(SecondFields(p).c);
    UsableIsInRange(HearParameters(h, d, p).1[k].lag);
  }

  lemma ConcealedSound(h: Shared, d: Decoder, k: nat)
    requires IsDecoder(d) && k < 2
    ensures Sound(ConcealSpeech(h, d).1[k])
  {
    hide P.DecodePositions, P.EncodePositions, P.OnTracks, Erased, G.Attenuated, Signs, Usable, ConcealedPast;
    P.CodeRoundTrip(RandomPositions(d.randomSeed));
    P.CodeRoundTrip(RandomPositions(SeedAfter(d.randomSeed, 2)));
    UsableIsInRange(ConcealSpeech(h, d).1[k].lag);
  }

  lemma NoiseSound(seed: int)
    requires 0 <= seed < 0x10000
    ensures Sound(NoiseHeard(seed))
  {
    hide Drawn;
    DrawnInRange(seed);
  }

  /** Whatever the packet is, received, lost or comfort noise, and whatever came before it: every lag the decoder
      then uses keeps the interpolation inside the excitation buffer, and every pulse is on its track. */
  lemma EveryStreamUsable(h: Shared, stream: seq<seq<bv8>>, packet: seq<bv8>, k: nat)
    requires Packets(stream) && (|packet| == 0 || |packet| == 2 || |packet| == 10) && k < 2
    ensures Sound(DecodeFrame(h, Decode(h, stream), packet).1[k])
  {
    hide Unpacked, HearParameters, ConcealSpeech, Decode, Sound, NoiseHeard, InFields, NextCng, NoisePast;
    var d := Decode(h, stream);
    if |packet| == 10 {
      UnpackRoundTrip(packet);
      SpeechSound(h, d, Unpacked(packet), k);
    } else if |packet| == 2 || !d.previousActive {
      SeedInRange(d.seed, DRAWS_PER_SUBFRAME);
      NoiseSound(d.seed);
      NoiseSound(SeedAfter(d.seed, DRAWS_PER_SUBFRAME));
    } else {
      ConcealedSound(h, d, k);
    }
  }
}
