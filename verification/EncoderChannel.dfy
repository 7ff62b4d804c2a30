/** The frame step of the encoder over its context (encoder.c): what it keeps and sends once the searches have
    chosen. */
module EncoderChannel {
  import opened LsfPrediction
  import opened LsfErasure
  import opened SilenceCoding
  import opened Bitstream
  import opened PitchLag
  import opened LockStep
  import P = PulseCode
  import G = GainDecoding
  import GainSearch

  /** C, S, GA and GB of a subframe. */
  function SubframeParameters(s: Subframe): (r: seq<bv16>)
    requires 0 <= s.a < 8 && 0 <= s.b < 16
    ensures |r| == 4
  {
    [Word(P.EncodePositions(s.pulses)), Word(SignCode(s)), Word(GainSearch.INDEX_MAPPING_GA[s.a]),
     Word(GainSearch.INDEX_MAPPING_GB[s.b])]
  }

  /** All fifteen in the order the encoder produces them. */
  function FrameParameters(c: Choice, p1: bv16, parity: bv16): (r: seq<bv16>)
    requires c.Speech? && GoodSubframe(c.first) && GoodSubframe(c.second)
    ensures |r| == NB_PARAMETERS
  {
    [Word(c.l0), Word(c.l1), Word(c.l2), Word(c.l3), p1, parity] + SubframeParameters(c.first)
    + [Word(EncodeSecond(c.second.lag, LowerEnd(c.first.lag.delay)))] + SubframeParameters(c.second)
  }

  lemma InOrder(c: Choice)
    requires c.Speech? && GoodSubframe(c.first) && GoodSubframe(c.second)
    ensures var p1 := Word(EncodeFirst(c.first.lag));
            FrameParameters(c, p1, Parity(p1)) == Parameters(c)
  {
    hide Word, EncodeFirst, EncodeSecond, P.EncodePositions, SignCode, LowerEnd, Parity, P.OnTracks, P.IsSign;
  }

  /** What a speech frame sends, as numbers; the parity bit is the only one that depends on another. */
  function SentNumbers(c: Choice): (n: seq<int>)
    requires GoodChoice(c) && c.Speech?
    ensures |n| == NB_PARAMETERS
  {
    var p1 := EncodeFirst(c.first.lag);
    [c.l0, c.l1, c.l2, c.l3, p1, FieldNumber(Parity(Word(p1))), P.EncodePositions(c.first.pulses), SignCode(c.first),
     GainSearch.INDEX_MAPPING_GA[c.first.a], GainSearch.INDEX_MAPPING_GB[c.first.b],
     EncodeSecond(c.second.lag, LowerEnd(c.first.lag.delay)), P.EncodePositions(c.second.pulses), SignCode(c.second),
     GainSearch.INDEX_MAPPING_GA[c.second.a], GainSearch.INDEX_MAPPING_GB[c.second.b]]
  }

  lemma ParametersAreSent(c: Choice)
    requires GoodChoice(c) && c.Speech?
    ensures Numbers(Parameters(c)) == SentNumbers(c)
  {
    hide Word, Value, EncodeFirst, EncodeSecond, P.EncodePositions, SignCode, LowerEnd, Parity, P.OnTracks, P.IsSign;
    hide FieldNumber, FirstChoice, SecondChoice, InFields, Field, Numbers;
    ParametersInFields(c);
    ParametersSurvive(c);
    var p := Parameters(c);
    FieldsAreNumbers(p);
    assert FieldNumber(p[5]) == FieldNumber(Parity(Word(EncodeFirst(c.first.lag))));
    hide Parameters;
    NumbersAre(p, SentNumbers(c));
  }

  lemma NumbersAre(p: seq<bv16>, n: seq<int>)
    requires |p| == |n| == NB_PARAMETERS
    requires FieldNumber(p[0]) == n[0] && FieldNumber(p[1]) == n[1] && FieldNumber(p[2]) == n[2]
             && FieldNumber(p[3]) == n[3] && FieldNumber(p[4]) == n[4] && FieldNumber(p[5]) == n[5]
             && FieldNumber(p[6]) == n[6] && FieldNumber(p[7]) == n[7] && FieldNumber(p[8]) == n[8]
             && FieldNumber(p[9]) == n[9] && FieldNumber(p[10]) == n[10] && FieldNumber(p[11]) == n[11]
             && FieldNumber(p[12]) == n[12] && FieldNumber(p[13]) == n[13] && FieldNumber(p[14]) == n[14]
    ensures Numbers(p) == n
  {
    hide FieldNumber;
  }

  lemma FieldsAreNumbers(p: seq<bv16>)
    requires InFields(p)
    ensures forall i :: 0 <= i < NB_PARAMETERS ==> FieldNumber(p[i]) == Field(p, i)
  {
    forall i | 0 <= i < NB_PARAMETERS
      ensures FieldNumber(p[i]) == Field(p, i)
    {
      FieldIsNumber(p, i);
    }
  }

  lemma FieldIsNumber(p: seq<bv16>, i: nat)
    requires InFields(p) && i < NB_PARAMETERS
    ensures FieldNumber(p[i]) == Field(p, i)
  {
    WithinWidest(p, i);
    hide FieldNumber, Value, InFields;
    ValueIsNumber(p[i]);
  }

  lemma WithinWidest(p: seq<bv16>, i: nat)
    requires InFields(p) && i < NB_PARAMETERS
    ensures p[i] < 0x2000
  {
    assert i == 0 || i == 1 || i == 2 || i == 3 || i == 4 || i == 5 || i == 6 || i == 7 || i == 8 || i == 9 || i == 10
           || i == 11 || i == 12 || i == 13 || i == 14;
  }

  class Channel {
    const DTXChannelContext: DTXChannel
    const previousqLSF: array2<int>
    const previousqLSPCoefficients: array<int>
    const previousGainPredictionError: array<int>
    var lastQuantizedAdaptativeCodebookGain: int

    ghost predicate Valid()
      reads this, DTXChannelContext, DTXChannelContext.generator
    {
      && DTXChannelContext.Valid() && IsArray(previousqLSF) && previousqLSPCoefficients.Length == NB_LSP_COEFF
      && previousGainPredictionError.Length == 4 && previousGainPredictionError != previousqLSPCoefficients
    }

    ghost function State(): (e: Encoder)
      requires Valid()
      reads this, DTXChannelContext, DTXChannelContext.generator, previousqLSF, previousqLSPCoefficients,
            previousGainPredictionError
      ensures IsEncoder(e)
    {
      Encoder(Rows(previousqLSF), previousqLSPCoefficients[..], previousGainPredictionError[..],
              lastQuantizedAdaptativeCodebookGain, DTXChannelContext.State(), DTXChannelContext.qLSPCoefficients)
    }

    constructor ()
      ensures Valid() && State() == InitialEncoder()
    {
      DTXChannelContext := new DTXChannel();
      var lsf, lsp := InitialCodeWord(), INITIAL_QLSP;
      previousqLSF := new int[MA_MAX_K, NB_LSP_COEFF]((j, i) => if 0 <= i < NB_LSP_COEFF then lsf[i] else 0);
      previousqLSPCoefficients := new int[NB_LSP_COEFF](i => if 0 <= i < NB_LSP_COEFF then lsp[i] else 0);
      previousGainPredictionError := new int[4](i => G.LOWEST_ERROR);
      lastQuantizedAdaptativeCodebookGain := O2_IN_Q14;
      new;
      assert forall j :: 0 <= j < MA_MAX_K ==> Row(previousqLSF, j) == lsf;
      assert previousqLSPCoefficients[..] == lsp;
    }

    /** Reconstruction of the quantised LSFs of a speech frame, and the previous LSPs for the next. */
    method QuantiseSpectrum(h: Shared, c: Choice)
      requires Valid() && c.Speech?
      modifies previousqLSF, previousqLSPCoefficients
      ensures Valid()
      ensures var code := CodeWord(CodebookSum(h.models.books, c.l1, c.l2, c.l3));
              && Rows(previousqLSF) == Shifted(code, old(Rows(previousqLSF)))
              && previousqLSPCoefficients[..]
                 == Cosines(h.models.cos, LsfStability.Stable(Predicted(Regular(c.l0), code, old(Rows(previousqLSF)))))
    {
      hide CodeWord, Predicted, Regular, Shifted, LsfStability.Stable, Cosines, Interpolated;
      var sum := CodebookSum(h.models.books, c.l1, c.l2, c.l3);
      var quantizerOutput := new int[NB_LSP_COEFF](i => if 0 <= i < NB_LSP_COEFF then sum[i] else 0);
      assert quantizerOutput[..] == sum;
      var qLSF := Reconstruct(quantizerOutput, previousqLSF, Regular(c.l0));
      var interpolated := UpdateqLSP(previousqLSPCoefficients, Cosines(h.models.cos, qLSF[..]));
    }

    /** Memories of one subframe: prediction error and bounded adaptive gain. */
    method UpdateGains(h: Shared, s: Subframe)
      requires Valid() && 0 <= s.a < 8 && 0 <= s.b < 16
      modifies previousGainPredictionError, `lastQuantizedAdaptativeCodebookGain
      ensures Valid()
      ensures previousGainPredictionError[..] == EnteredError(h.maths, s, old(previousGainPredictionError[..]))
      ensures lastQuantizedAdaptativeCodebookGain == Clamped(GainSearch.AdaptiveGain(s.a, s.b))
    {
      hide G.PredictionError;
      var e := G.PredictionError(h.maths, GainSearch.GA[s.a].1 + GainSearch.GB[s.b].1);
      previousGainPredictionError[3] := previousGainPredictionError[2];
      previousGainPredictionError[2] := previousGainPredictionError[1];
      previousGainPredictionError[1] := previousGainPredictionError[0];
      previousGainPredictionError[0] := e;
      lastQuantizedAdaptativeCodebookGain := GainSearch.GA[s.a].0 + GainSearch.GB[s.b].0;
      if lastQuantizedAdaptativeCodebookGain > ONE_POINT_2_IN_Q14 {
        lastQuantizedAdaptativeCodebookGain := ONE_POINT_2_IN_Q14;
      }
      if lastQuantizedAdaptativeCodebookGain < O2_IN_Q14 {
        lastQuantizedAdaptativeCodebookGain := O2_IN_Q14;
      }
    }

    /** The ten bytes of a speech frame. */
    method PackSpeech(c: Choice) returns (bytes: seq<bv8>)
      requires GoodChoice(c) && c.Speech?
      ensures bytes == Packed(Parameters(c)) && BigEndian(bytes) == FrameNumber(SentNumbers(c))
    {
      hide BigEndian, FrameNumber, SentNumbers;
      hide Packed, Word, EncodeFirst, EncodeSecond, P.EncodePositions, SignCode, LowerEnd, Parity, P.OnTracks, P.IsSign;
      hide FirstChoice, SecondChoice;
      var p1 := Word(EncodeFirst(c.first.lag));
      var parity := ComputeParity(p1);
      var p := FrameParameters(c, p1, parity);
      InOrder(c);
      ParametersInFields(c);
      ParametersAreSent(c);
      hide FrameParameters, Parameters, InFields;
      var parameters := new bv16[NB_PARAMETERS](i => if 0 <= i < NB_PARAMETERS then p[i] else 0);
      assert parameters[..] == p;
      var bitStream := new bv8[10];
      ParametersArray2BitStream(parameters, bitStream);
      bytes := bitStream[..];
    }

    /** One frame: the noise decision first, then either its packet or a speech packet. */
    method Encode(h: Shared, c: Choice) returns (bitStream: seq<bv8>)
      requires Valid() && GoodChoice(c)
      modifies this, DTXChannelContext, DTXChannelContext.generator, previousqLSF, previousqLSPCoefficients,
               previousGainPredictionError
      ensures Valid() && (State(), bitStream) == EncodeFrame(h, old(State()), c)
    {
      hide NextDtx, EncodedNoise, Packed, Parameters, CodeWord, CodebookSum, Predicted, Regular, LsfStability.Stable;
      hide Cosines, EnteredError;
      hide Clamped, Interpolated, Row, Rows, GainSearch.AdaptiveGain;
      var interpolated;
      bitStream, interpolated := DTXChannelContext.EncodeSIDFrame(h.models, FrameOf(c), previousqLSF,
                                                                  previousqLSPCoefficients);
      if c.Quiet? {
        return;
      }
      VoiceSendsNothing(h, old(State()), c);
      QuantiseSpectrum(h, c);
      UpdateGains(h, c.first);
      UpdateGains(h, c.second);
      bitStream := PackSpeech(c);
    }
  }

  lemma VoiceSendsNothing(h: Shared, e: Encoder, c: Choice)
    requires IsEncoder(e) && c.Speech?
    ensures EncodedNoise(h.models, e.dtx, FrameOf(c), e.memory, e.sidqLSP) == (e.memory, e.sidqLSP, [])
  {
  }
}
