/** Discontinuous transmission: the decisions of dtx.c, SID frames, and their decoding in cng.c. */
module SilenceCoding {
  import opened CodecParameters
  import opened FixedPoint
  import opened LsfPrediction
  import opened LsfErasure
  import opened ComfortNoise
  import opened Bitstream
  import AdaptiveCodebook
  import N = NoiseExcitation

  /** Approximations and codebooks shared by both sides. */
  datatype Models = Models(log2: int -> int, cos: int -> int, books: Codebooks)

  const L1_SUBSET_INDEX := [96, 52, 20, 54, 86, 114, 82, 68, 36, 121, 48, 92, 18, 120, 94, 124,
                            50, 125, 4, 100, 28, 76, 12, 117, 81, 22, 90, 116, 127, 21, 108, 66]
  const L2_SUBSET_INDEX := [31, 21, 9, 3, 10, 2, 19, 26, 4, 3, 11, 29, 15, 27, 21, 12]
  const L3_SUBSET_INDEX := [16, 1, 0, 0, 8, 25, 22, 20, 19, 23, 20, 31, 4, 31, 20, 31]
  const SID_GAIN_CODEBOOK := [2, 5, 8, 13, 20, 32, 50, 64, 80, 101, 127, 160, 201, 253, 318, 401, 505, 635, 800, 1007,
                              1268, 1596, 2010, 2530, 3185, 4009, 5048, 6355, 8000, 10071, 12679, 15962]

  function NoiseMAPredictor(l0: int): (p: Predictor)
    ensures IsPredictor(p)
  {
    if l0 == 0 then Predictor(MAPredictor(0), MAPredictorSum(0))
    else
      Predictor([[8145, 8617, 8779, 8648, 8718, 8829, 8713, 8705, 8806, 8231],
                 [5894, 5525, 5603, 5773, 6016, 5968, 5896, 5835, 5721, 5707],
                 [4568, 3765, 3605, 3963, 4144, 4038, 4225, 4139, 3914, 4255],
                 [3643, 2455, 1944, 2466, 2438, 2259, 2798, 2775, 2479, 3124]],
                [10514, 12402, 12833, 11914, 11447, 11670, 11132, 11311, 11844, 11447])
  }

  /** Ten times a coefficient, against six times that of the first regular predictor and four times that of the second. */
  predicate Mixes(mixed: int, first: int, second: int) {
    -20 <= 10 * mixed - 6 * first - 4 * second <= 20
  }

  /** The predictors of noise frames: the first one of speech, and 0.6 of that with 0.4 of the second, up to two units. */
  lemma NoisePredictors(j: nat, i: nat)
    requires j < MA_MAX_K && i < NB_LSP_COEFF
    ensures NoiseMAPredictor(0) == Regular(0)
    ensures Mixes(NoiseMAPredictor(1).rows[j][i], Regular(0).rows[j][i], Regular(1).rows[j][i])
    ensures Mixes(NoiseMAPredictor(1).sum[i], Regular(0).sum[i], Regular(1).sum[i])
  {
  }

  function SidSum(books: Codebooks, l1: int, l2: int): (r: seq<int>)
    requires 0 <= l1 < 32 && 0 <= l2 < 16
    ensures |r| == NB_LSP_COEFF
  {
    CodebookSum(books, L1_SUBSET_INDEX[l1], L2_SUBSET_INDEX[l2], L3_SUBSET_INDEX[l2])
  }

  // ---- Energy quantisation

  const INV_LOG2_10_Q15 := 9864

  /** A tenth of the frame energy in dB, Q15. */
  function LogEnergy(log2: int -> int, energy: int, scale: int): int {
    SplitMultiply(INV_LOG2_10_Q15, Shr(log2(energy) - (479849 + scale * 0x10000), 1), 15)
  }

  /** In Q15 it is the decimal logarithm of the energy less that of the 80 samples and the window: 0.30103 is log10(2),
      479849 its share in Q16. */
  lemma LogEnergyIsDecimal(log2: int -> int, energy: int, scale: int)
    requires -0x400000 <= log2(energy) - (479849 + scale * 0x10000) <= 0x400000
    ensures var exact := 0.30103 * ((log2(energy) - 479849) as real / 65536.0 - scale as real);
            -13.0 < LogEnergy(log2, energy, scale) as real - 32768.0 * exact < 13.0
  {
    hide SplitMultiply, Pow2;
    var x := log2(energy) - (479849 + scale * 0x10000);
    SplitMultiplyIsFloor(INV_LOG2_10_Q15, Shr(x, 1), 15);
    ShiftBounds(INV_LOG2_10_Q15 * Shr(x, 1), 15);
    ShiftBounds(x, 1);
    Powers();
    DecimalClose(x, Shr(x, 1), LogEnergy(log2, energy, scale));
    assert (log2(energy) - 479849) as real / 65536.0 - scale as real == x as real / 65536.0;
  }

  lemma DecimalClose(x: int, half: int, y: int)
    requires -0x400000 <= x <= 0x400000 && 2 * half <= x < 2 * half + 2
    requires 0x8000 * y <= 9864 * half < 0x8000 * y + 0x8000
    ensures -13.0 < y as real - 32768.0 * (0.30103 * (x as real / 65536.0)) < 13.0
  {
    assert 32768.0 * (0.30103 * (x as real / 65536.0)) == 0.150515 * x as real;
    assert -70000 < 65536 * y - 9864 * x + 19728 <= 19728 + 19728;
    assert -130000 * 65536 < 10000 * (65536 * y) - 98641510 * x < 130000 * 65536;
  }

  function QuantisedIndex(acc: int): int {
    if acc < -26214 then 0
    else if acc < 45875 then 1 + (if acc + 19661 < 0 then 0 else Shr(SplitMultiply(20480, acc + 19661, 13), 15))
    else if acc < 216268 then 6 + (if acc - 49152 < 0 then 0 else Shr(SplitMultiply(20480, acc - 49152, 12), 15))
    else 31
  }

  function DecodedLogEnergy(acc: int): int {
    if acc < -26214 then -12
    else if acc < 45875 then -2 + 4 * (if acc + 19661 < 0 then 0 else Shr(SplitMultiply(20480, acc + 19661, 13), 15))
    else if acc < 216268 then 16 + 2 * (if acc - 49152 < 0 then 0 else Shr(SplitMultiply(20480, acc - 49152, 12), 15))
    else 66
  }

  /** Energy in dB that an index stands for. */
  function LogEnergyOf(index: int): int {
    if index == 0 then -12 else if index <= 5 then -2 + 4 * (index - 1) else 16 + 2 * (index - 6)
  }

  lemma Steps(x: int)
    ensures Shr(SplitMultiply(20480, x, 13), 15) == x * 5 / 0x10000
            && Shr(SplitMultiply(20480, x, 12), 15) == x * 5 / 0x8000
  {
    hide SplitMultiply, Pow2;
    SplitMultiplyIsFloor(20480, x, 13);
    SplitMultiplyIsFloor(20480, x, 12);
    Powers();
    ShiftTwice(20480 * x, 13, 15);
    ShiftTwice(20480 * x, 12, 15);
    HighPowers();
    QuotientTwice(x * 5 * 4096, 4096, 0x10000);
    QuotientTwice(x * 5 * 4096, 4096, 0x8000);
    QuotientUnique(x * 5 * 4096, 4096, x * 5);
  }

  /** For every energy: the index fits its five bits, grows with the energy, and determines the decoded energy. */
  lemma QuantiserSound(acc: int, more: int)
    requires acc <= more
    ensures 0 <= QuantisedIndex(acc) <= QuantisedIndex(more) <= 31
    ensures DecodedLogEnergy(acc) == LogEnergyOf(QuantisedIndex(acc))
  {
    hide SplitMultiply;
    Steps(acc + 19661);
    Steps(acc - 49152);
    Steps(more + 19661);
    Steps(more - 49152);
  }

  /** From -6 to 14 dB, in steps of four, it is above the energy by four at most. */
  lemma LowQuantiserError(acc: int)
    requires -19661 <= acc < 45875
    ensures -4 * 0x8000 - 2 <= 10 * acc - DecodedLogEnergy(acc) * 0x8000 < 0
  {
    hide SplitMultiply;
    Steps(acc + 19661);
  }

  /** From 14 dB up the decoded energy is within one dB; acc counts 3276.8 a dB. */
  lemma QuantiserError(acc: int)
    requires 45875 <= acc < 216268
    ensures -32772 <= 10 * acc - DecodedLogEnergy(acc) * 0x8000 <= 32768
         || (acc < 49152 && DecodedLogEnergy(acc) == 16)
  {
    hide SplitMultiply;
    Steps(acc - 49152);
  }

  // ---- The transmission decision

  /** What the analysis of a noise frame and the quantiser search found. */
  datatype Noise = Noise(energy: int, scale: int, filterChanged: bool, l0: int, l1: int, l2: int)

  datatype Frame = Voice | Silent(noise: Noise)

  datatype Kind = Speech | Sid | Untransmitted

  datatype Dtx = Dtx(previousVoice: bool, countFr: int, energy: int, energyScale: int, logEnergy: int,
                     gain: int, smoothed: int, seed: int)

  function InitialDtx(): Dtx {
    Dtx(true, 0, 0, 0, 0, 0, 0, CNG_DTX_RANDOM_SEED_INIT)
  }

  /** Mean energy over the current and previous frames with its scale, or the current one after speech. */
  function MeanEnergy(s: Dtx, n: Noise): (int, int) {
    if s.previousVoice then (n.energy, n.scale)
    else if n.scale < s.energyScale then (Shr(n.energy, 1) + Shr(s.energy, s.energyScale - n.scale + 1), n.scale)
    else (Shr(n.energy, n.scale - s.energyScale + 1) + Shr(s.energy, 1), s.energyScale)
  }

  /** Twice the mean is the sum of both energies in the lower of their scales, up to the four units of two shifts
      downwards; an energy e in scale s stands for e over 2 to the s. */
  lemma MeanIsHalfSum(s: Dtx, n: Noise)
    requires !s.previousVoice
    ensures var (mean, scale) := MeanEnergy(s, n);
            && scale == (if n.scale < s.energyScale then n.scale else s.energyScale)
            && var p, q := Pow2(n.scale - scale), Pow2(s.energyScale - scale);
               2 * mean * (p * q) <= n.energy * q + s.energy * p < 2 * mean * (p * q) + 4 * (p * q)
  {
    hide Pow2;
    PowerZero();
    if n.scale < s.energyScale {
      HalvedSum(n.energy, s.energy, s.energyScale - n.scale);
    } else {
      HalvedSum(s.energy, n.energy, n.scale - s.energyScale);
    }
  }

  lemma PowerZero()
    ensures Pow2(0) == 1 && Pow2(1) == 2
  {
  }

  lemma HalvedSum(low: int, other: int, n: nat)
    ensures var p := Pow2(n);
            var mean := Shr(low, 1) + Shr(other, n + 1);
            2 * mean * p <= low * p + other < 2 * mean * p + 4 * p
  {
    PowerZero();
    var p := Pow2(n);
    assert Pow2(n + 1) == 2 * p;
    hide Pow2;
    ShiftBounds(low, 1);
    ShiftBounds(other, n + 1);
    HalvesTimes(Shr(low, 1), Shr(other, n + 1), low, other, p);
  }

  lemma HalvesTimes(x: int, y: int, low: int, other: int, p: int)
    requires x * 2 <= low < x * 2 + 2 && y * (2 * p) <= other < y * (2 * p) + 2 * p && p >= 1
    ensures 2 * (x + y) * p <= low * p + other < 2 * (x + y) * p + 4 * p
  {
    MultiplyMonotone(2 * x, low, p);
    MultiplyMonotone(low, 2 * x + 1, p);
    SpreadHalves(x, y, p);
  }

  lemma SpreadHalves(x: int, y: int, p: int)
    ensures 2 * x * p == 2 * (x * p) && (2 * x + 1) * p == 2 * (x * p) + p
    ensures y * (2 * p) == 2 * (y * p) && 2 * (x + y) * p == 2 * (x * p) + 2 * (y * p)
  {
  }

  /** The context keeps the scale in an unsigned byte. */
  function StoredScale(scale: int): int {
    scale % 256
  }

  function FrameLogEnergy(log2: int -> int, s: Dtx, n: Noise): int {
    LogEnergy(log2, MeanEnergy(s, n).0, MeanEnergy(s, n).1)
  }

  predicate Changed(log2: int -> int, s: Dtx, n: Noise) {
    n.filterChanged || Abs(s.logEnergy - DecodedLogEnergy(FrameLogEnergy(log2, s, n))) > 2
  }

  function KindOf(log2: int -> int, s: Dtx, f: Frame): Kind {
    if f.Voice? then Speech
    else if s.previousVoice then Sid
    else if s.countFr + 1 < 3 || !Changed(log2, s, f.noise) then Untransmitted
    else Sid
  }

  function GainIndex(log2: int -> int, s: Dtx, n: Noise): (r: int)
    ensures 0 <= r <= 31
  {
    QuantiserSound(FrameLogEnergy(log2, s, n), FrameLogEnergy(log2, s, n));
    QuantisedIndex(FrameLogEnergy(log2, s, n))
  }

  function NextDtx(log2: int -> int, s: Dtx, f: Frame): Dtx {
    if f.Voice? then s.(previousVoice := true, seed := CNG_DTX_RANDOM_SEED_INIT)
    else
      var n := f.noise;
      var sid := KindOf(log2, s, f) == Sid;
      var gain := if sid then SID_GAIN_CODEBOOK[GainIndex(log2, s, n)] else s.gain;
      Dtx(false,
          if sid then 0 else if s.countFr + 1 < 3 then s.countFr + 1 else 3,
          n.energy, StoredScale(n.scale),
          if sid then DecodedLogEnergy(FrameLogEnergy(log2, s, n)) else s.logEnergy,
          gain,
          if s.previousVoice then gain else Cast16(Smoothed(s.smoothed, gain)),
          SeedAfter(s.seed, 2 * DRAWS_PER_SUBFRAME))
  }

  /** A negative scale does not survive its store: the mean over two noise frames then takes nothing from the first. */
  lemma NegativeScaleForgotten(log2: int -> int, s: Dtx, first: Noise, second: Noise)
    requires -128 <= first.scale <= 127 && second.scale <= 98 && 0 <= first.energy <= MAXINT32
    ensures var t := NextDtx(log2, s, Silent(first));
            && (t.energyScale == first.scale <==> first.scale >= 0)
            && (first.scale < 0 ==> MeanEnergy(t, second) == (Shr(second.energy, 1), second.scale))
  {
    hide KindOf, Changed, GainIndex, FrameLogEnergy, SeedAfter, DecodedLogEnergy, Cast16, Smoothed;
    if first.scale < 0 {
      var shift := StoredScale(first.scale) - second.scale + 1;
      Pow2Monotone(31, shift);
      HighPowers();
      QuotientUnique(first.energy, Pow2(shift), 0);
    }
  }

  function Run(log2: int -> int, s: Dtx, frames: seq<Frame>): Dtx {
    if |frames| == 0 then s else NextDtx(log2, Run(log2, s, frames[..|frames| - 1]), frames[|frames| - 1])
  }

  /** Kind of frame i of a run from the initial state. */
  function KindAt(log2: int -> int, frames: seq<Frame>, i: nat): Kind
    requires i < |frames|
  {
    KindOf(log2, Run(log2, InitialDtx(), frames[..i]), frames[i])
  }

  lemma RunStep(log2: int -> int, s: Dtx, frames: seq<Frame>, i: nat)
    requires i < |frames|
    ensures Run(log2, s, frames[..i + 1]) == NextDtx(log2, Run(log2, s, frames[..i]), frames[i])
  {
    assert frames[..i + 1][..i] == frames[..i];
  }

  /** The counter never leaves its range. */
  lemma {:induction false} CounterInRange(log2: int -> int, frames: seq<Frame>)
    ensures 0 <= Run(log2, InitialDtx(), frames).countFr <= 3
  {
    if |frames| > 0 {
      CounterInRange(log2, frames[..|frames| - 1]);
    }
  }

  predicate GainsBounded(s: Dtx) {
    0 <= s.gain <= 15962 && 0 <= s.smoothed <= 15962
  }

  lemma GainStep(log2: int -> int, s: Dtx, f: Frame)
    requires GainsBounded(s)
    ensures GainsBounded(NextDtx(log2, s, f))
  {
    if f.Silent? {
      var index := GainIndex(log2, s, f.noise);
      var gain := if KindOf(log2, s, f) == Sid then SID_GAIN_CODEBOOK[index] else s.gain;
      assert 0 <= gain <= 15962;
      SmoothingStep(s.smoothed, gain);
      hide KindOf, GainIndex, FrameLogEnergy, SeedAfter, DecodedLogEnergy, Cast16, Smoothed;
    }
  }

  /** Gains stay within the codebook, so the 16-bit stores of the smoothing never cut anything. */
  lemma {:induction false} GainsInRange(log2: int -> int, frames: seq<Frame>)
    ensures GainsBounded(Run(log2, InitialDtx(), frames))
  {
    hide NextDtx;
    if |frames| > 0 {
      GainsInRange(log2, frames[..|frames| - 1]);
      GainStep(log2, Run(log2, InitialDtx(), frames[..|frames| - 1]), frames[|frames| - 1]);
    }
  }

  /** The first noise frame of a run and the first after any speech is always a SID frame. */
  lemma FirstNoiseIsSid(log2: int -> int, frames: seq<Frame>, i: nat)
    requires i < |frames| && frames[i].Silent? && (i == 0 || frames[i - 1].Voice?)
    ensures KindAt(log2, frames, i) == Sid
  {
  }

  lemma CounterStep(log2: int -> int, s: Dtx, f: Frame)
    ensures var t := NextDtx(log2, s, f);
            && (KindOf(log2, s, f) == Sid ==> !t.previousVoice && t.countFr == 0)
            && (KindOf(log2, s, f) == Untransmitted ==>
                  !s.previousVoice && !t.previousVoice && t.countFr == if s.countFr + 1 < 3 then s.countFr + 1 else 3)
  {
    hide Changed, GainIndex, FrameLogEnergy, SeedAfter, DecodedLogEnergy, Cast16;
  }

  lemma {:induction false} CounterAfterSid(log2: int -> int, frames: seq<Frame>, i: nat, j: nat)
    requires i < j <= |frames| && KindAt(log2, frames, i) == Sid
    requires forall k :: i < k < j ==> KindAt(log2, frames, k) == Untransmitted
    ensures var s := Run(log2, InitialDtx(), frames[..j]);
            !s.previousVoice && s.countFr == if j - i - 1 < 3 then j - i - 1 else 3
    decreases j
  {
    hide NextDtx, KindOf, Run;
    RunStep(log2, InitialDtx(), frames, j - 1);
    CounterStep(log2, Run(log2, InitialDtx(), frames[..j - 1]), frames[j - 1]);
    if j > i + 1 {
      assert KindAt(log2, frames, j - 1) == Untransmitted;
      CounterAfterSid(log2, frames, i, j - 1);
    }
  }

  /** Consecutive SID frames of one noise period are at least three frames apart. */
  lemma SidSpacing(log2: int -> int, frames: seq<Frame>, i: nat, j: nat)
    requires i < j < |frames| && KindAt(log2, frames, i) == Sid && KindAt(log2, frames, j) == Sid
    requires forall k :: i < k < j ==> KindAt(log2, frames, k) == Untransmitted
    ensures j - i >= 3
  {
    CounterAfterSid(log2, frames, i, j);
  }

  /** What the decoder reads as the energy of frame i, in dB. */
  function DecodedAt(log2: int -> int, frames: seq<Frame>, i: nat): int
    requires i < |frames| && frames[i].Silent?
  {
    DecodedLogEnergy(FrameLogEnergy(log2, Run(log2, InitialDtx(), frames[..i]), frames[i].noise))
  }

  lemma LogEnergyStep(log2: int -> int, s: Dtx, f: Frame)
    ensures var t := NextDtx(log2, s, f);
            && (KindOf(log2, s, f) == Sid ==>
                  f.Silent? && t.logEnergy == DecodedLogEnergy(FrameLogEnergy(log2, s, f.noise)))
            && (KindOf(log2, s, f) == Untransmitted ==> t.logEnergy == s.logEnergy)
  {
    hide Changed, GainIndex, FrameLogEnergy, SeedAfter, DecodedLogEnergy, Cast16;
  }

  /** The energy kept for comparison is that of the last frame sent. */
  lemma {:induction false} LastSentEnergy(log2: int -> int, frames: seq<Frame>, i: nat, j: nat)
    requires i < j <= |frames| && KindAt(log2, frames, i) == Sid
    requires forall k :: i < k < j ==> KindAt(log2, frames, k) == Untransmitted
    ensures frames[i].Silent? && Run(log2, InitialDtx(), frames[..j]).logEnergy == DecodedAt(log2, frames, i)
    decreases j
  {
    hide NextDtx, KindOf, Run, FrameLogEnergy, DecodedLogEnergy;
    RunStep(log2, InitialDtx(), frames, j - 1);
    LogEnergyStep(log2, Run(log2, InitialDtx(), frames[..j - 1]), frames[j - 1]);
    if j > i + 1 {
      assert KindAt(log2, frames, j - 1) == Untransmitted;
      LastSentEnergy(log2, frames, i, j - 1);
    }
  }

  /** From the third frame after a SID frame on, a frame is sent exactly when the filter has changed or the energy
      differs from the one sent last by more than two decibels. */
  lemma ChangeIsSent(log2: int -> int, frames: seq<Frame>, i: nat, j: nat)
    requires i + 3 <= j < |frames| && KindAt(log2, frames, i) == Sid && frames[j].Silent?
    requires forall k :: i < k < j ==> KindAt(log2, frames, k) == Untransmitted
    ensures frames[i].Silent?
    ensures KindAt(log2, frames, j) == Sid
            <==> frames[j].noise.filterChanged || DecodedAt(log2, frames, j) > DecodedAt(log2, frames, i) + 2
                 || DecodedAt(log2, frames, j) < DecodedAt(log2, frames, i) - 2
  {
    hide Run, FrameLogEnergy, DecodedLogEnergy;
    CounterAfterSid(log2, frames, i, j);
    LastSentEnergy(log2, frames, i, j);
  }

  // ---- The encoder side

  predicate Searched(n: Noise) {
    0 <= n.l0 <= 1 && 0 <= n.l1 < 32 && 0 <= n.l2 < 16
  }

  /** Bytes of a SID frame. */
  function SidBytes(n: Noise, gainIndex: int): (b: seq<bv8>)
    requires Searched(n) && 0 <= gainIndex < 32
    ensures |b| == 2
  {
    SidPacked(Word(n.l0), Word(n.l1), Word(n.l2), Word(gainIndex))
  }

  /** As 16 bits they are the four indices, but L2 only modulo 12. */
  lemma SidBytesNumber(n: Noise, gainIndex: int)
    requires Searched(n) && 0 <= gainIndex < 32
    ensures BigEndian(SidBytes(n, gainIndex))
         == SidNumber(n.l0, n.l1, if n.l2 < 12 then n.l2 else n.l2 - 12, gainIndex)
  {
    hide SidPacked, Value, Word, FieldNumber, BigEndian;
    IndexNumber(n.l0);
    IndexNumber(n.l1);
    IndexNumber(n.l2);
    IndexNumber(gainIndex);
    SecondStage(n.l2);
    FieldWord(n.l0);
    FieldWord(n.l1);
    FieldWord(n.l2);
    FieldWord(gainIndex);
    PackedIsSidNumber(Word(n.l0), Word(n.l1), Word(n.l2), Word(gainIndex));
  }

  lemma IndexNumber(x: int)
    requires 0 <= x < 32
    ensures FieldNumber(Word(x)) == x
  {
    hide Value, Word, FieldNumber;
    FieldWord(x);
    ValueIsNumber(Word(x));
  }

  function Cosines(cos: int -> int, s: seq<int>): (r: seq<int>)
    ensures |r| == |s|
  {
    seq(|s|, i requires 0 <= i < |s| => cos(s[i]))
  }

  /** Memory and qLSF after a SID frame with the given indices, on either side. */
  function SidLsf(books: Codebooks, l0: int, l1: int, l2: int, memory: seq<seq<int>>): (r: (seq<seq<int>>, seq<int>))
    requires IsMemory(memory) && 0 <= l1 < 32 && 0 <= l2 < 16
    ensures IsMemory(r.0) && |r.1| == NB_LSP_COEFF
  {
    var code := CodeWord(SidSum(books, l1, l2));
    (Shifted(code, memory), LsfStability.Stable(Predicted(NoiseMAPredictor(l0), code, memory)))
  }

  /** Memory and qLSP of the last SID frame after a frame, and the bytes it sends. */
  function EncodedNoise(m: Models, s: Dtx, f: Frame, memory: seq<seq<int>>,
                        qLSP: seq<int>): (r: (seq<seq<int>>, seq<int>, seq<bv8>))
    requires IsMemory(memory) && |qLSP| == NB_LSP_COEFF && (f.Silent? ==> Searched(f.noise))
    ensures IsMemory(r.0) && |r.1| == NB_LSP_COEFF && (r.2 == [] || |r.2| == 2)
  {
    if KindOf(m.log2, s, f) == Sid then
      var lsf := SidLsf(m.books, f.noise.l0, f.noise.l1, f.noise.l2, memory);
      (lsf.0, Cosines(m.cos, lsf.1), SidBytes(f.noise, GainIndex(m.log2, s, f.noise)))
    else (memory, qLSP, [])
  }

  lemma CastTwice(x: int, y: int)
    ensures Cast16(Cast16(x) + y) == Cast16(x + y)
  {
  }

  class DTXChannel {
    var previousVADflag: bool
    var count_fr: int
    var previousResidualEnergy: int
    var previousResidualEnergyScale: int
    var previousDecodedLogEnergy: int
    var currentSIDGain: int
    var smoothedSIDGain: int
    const generator: Generator
    var qLSPCoefficients: seq<int>

    ghost predicate Valid()
      reads this, generator
    {
      generator.Valid() && |qLSPCoefficients| == NB_LSP_COEFF
    }

    ghost function State(): Dtx
      reads this, generator
    {
      Dtx(previousVADflag, count_fr, previousResidualEnergy, previousResidualEnergyScale, previousDecodedLogEnergy,
          currentSIDGain, smoothedSIDGain, generator.seed)
    }

    constructor ()
      ensures Valid() && State() == InitialDtx() && fresh(generator)
      ensures qLSPCoefficients == [0, 0, 0, 0, 0, 0, 0, 0, 0, 0]
    {
      previousVADflag, count_fr, previousResidualEnergy, previousResidualEnergyScale := true, 0, 0, 0;
      previousDecodedLogEnergy, currentSIDGain, smoothedSIDGain := 0, 0, 0;
      generator := new Generator();
      qLSPCoefficients := [0, 0, 0, 0, 0, 0, 0, 0, 0, 0];
    }

    method MeanResidualEnergy(n: Noise) returns (meanEnergy: int, meanEnergyScale: int)
      ensures (meanEnergy, meanEnergyScale) == MeanEnergy(State(), n)
    {
      if previousVADflag {
        meanEnergy, meanEnergyScale := n.energy, n.scale;
      } else if n.scale < previousResidualEnergyScale {
        meanEnergyScale := n.scale;
        meanEnergy := Shr(n.energy, 1) + Shr(previousResidualEnergy, previousResidualEnergyScale - n.scale + 1);
      } else {
        meanEnergyScale := previousResidualEnergyScale;
        meanEnergy := Shr(n.energy, n.scale - previousResidualEnergyScale + 1) + Shr(previousResidualEnergy, 1);
      }
    }

    /** Quantises the mean energy, counts the frame, and decides whether it is sent. */
    method Decide(log2: int -> int, n: Noise) returns (sid: bool, quantizedResidualEnergy: int, decodedLogEnergy: int)
      modifies `count_fr
      ensures sid <==> KindOf(log2, old(State()), Silent(n)) == Sid
      ensures quantizedResidualEnergy == GainIndex(log2, old(State()), n)
      ensures decodedLogEnergy == DecodedLogEnergy(FrameLogEnergy(log2, old(State()), n))
      ensures !sid ==> count_fr == if old(count_fr) + 1 < 3 then old(count_fr) + 1 else 3
    {
      hide Shr, QuantisedIndex, DecodedLogEnergy, LogEnergy, MeanEnergy;
      var meanEnergy, meanEnergyScale := MeanResidualEnergy(n);
      var acc := LogEnergy(log2, meanEnergy, meanEnergyScale);
      quantizedResidualEnergy, decodedLogEnergy := QuantisedIndex(acc), DecodedLogEnergy(acc);
      sid := true;
      if !previousVADflag {
        var flag_chang := n.filterChanged || Abs(previousDecodedLogEnergy - decodedLogEnergy) > 2;
        count_fr := count_fr + 1;
        if count_fr < 3 {
          sid := false;
        } else {
          sid := flag_chang;
          count_fr := 3;
        }
      }
    }

    /** eq B.19 */
    method SmoothGain()
      modifies `smoothedSIDGain
      ensures smoothedSIDGain == if previousVADflag then currentSIDGain
              else Cast16(Smoothed(old(smoothedSIDGain), currentSIDGain))
    {
      if previousVADflag {
        smoothedSIDGain := currentSIDGain;
      } else {
        hide Shr, Cast16;
        CastTwice(smoothedSIDGain - Shr(smoothedSIDGain, 3), Shr(currentSIDGain, 3));
        smoothedSIDGain := Cast16(smoothedSIDGain - Shr(smoothedSIDGain, 3));
        smoothedSIDGain := Cast16(smoothedSIDGain + Shr(currentSIDGain, 3));
      }
    }

    /** EncodeSIDFrame: an empty result means that nothing is sent for a noise frame. */
    method EncodeSIDFrame(m: Models, f: Frame, previousqLSF: array2<int>, previousqLSPCoefficients: array<int>)
      returns (bitStream: seq<bv8>, interpolatedqLSP: seq<int>)
      requires Valid() && IsArray(previousqLSF) && previousqLSPCoefficients.Length == NB_LSP_COEFF
               && (f.Silent? ==> Searched(f.noise))
      modifies this, generator, previousqLSF, previousqLSPCoefficients
      ensures Valid() && State() == NextDtx(m.log2, old(State()), f)
      ensures (Rows(previousqLSF), qLSPCoefficients, bitStream)
           == EncodedNoise(m, old(State()), f, old(Rows(previousqLSF)), old(qLSPCoefficients))
      ensures previousqLSPCoefficients[..] == if f.Voice? then old(previousqLSPCoefficients[..]) else qLSPCoefficients
      ensures f.Silent? ==> interpolatedqLSP == Interpolated(old(previousqLSPCoefficients[..]), qLSPCoefficients)
      ensures bitStream != [] ==>
                && f.Silent?
                && var l2 := f.noise.l2;
                   BigEndian(bitStream) == SidNumber(f.noise.l0, f.noise.l1, if l2 < 12 then l2 else l2 - 12,
                                                     GainIndex(m.log2, old(State()), f.noise))
    {
      hide BigEndian, SidNumber;
      hide Cast16, Smoothed, DecodedLogEnergy, FrameLogEnergy, GainIndex, Changed, SidLsf, SeedAfter, SidBytes, Cosines;
      hide Interpolated, Row, Rows;
      bitStream, interpolatedqLSP := [], [];
      if f.Voice? {
        generator.seed := CNG_DTX_RANDOM_SEED_INIT;
        previousVADflag := true;
        return;
      }
      var n := f.noise;
      var sid, quantizedResidualEnergy, decodedLogEnergy := Decide(m.log2, n);
      if sid {
        count_fr := 0;
        var qLSF := QuantiseNoise(m.books, n, previousqLSF);
        qLSPCoefficients := Cosines(m.cos, qLSF);
        previousDecodedLogEnergy := decodedLogEnergy;
        currentSIDGain := SID_GAIN_CODEBOOK[quantizedResidualEnergy];
        bitStream := SidBytes(n, quantizedResidualEnergy);
        SidBytesNumber(n, quantizedResidualEnergy);
      }
      previousResidualEnergy, previousResidualEnergyScale := n.energy, StoredScale(n.scale);
      SmoothGain();
      DrawFrame(generator);
      interpolatedqLSP := UpdateqLSP(previousqLSPCoefficients, qLSPCoefficients);
      previousVADflag := false;
    }
  }

  /** The reconstruction half of noiseLSPQuantization. */
  method QuantiseNoise(books: Codebooks, n: Noise, previousqLSF: array2<int>) returns (qLSF: seq<int>)
    requires Searched(n) && IsArray(previousqLSF)
    modifies previousqLSF
    ensures (Rows(previousqLSF), qLSF) == SidLsf(books, n.l0, n.l1, n.l2, old(Rows(previousqLSF)))
  {
    hide CodeWord, Predicted, NoiseMAPredictor, Shifted;
    var sum := SidSum(books, n.l1, n.l2);
    var quantizerOutput := new int[NB_LSP_COEFF](i => if 0 <= i < NB_LSP_COEFF then sum[i] else 0);
    assert quantizerOutput[..] == sum;
    var q := Reconstruct(quantizerOutput, previousqLSF, NoiseMAPredictor(n.l0));
    qLSF := q[..];
  }

  /** Both subframes of the encoder's comfort noise, as far as the generator is concerned. */
  method DrawFrame(g: Generator)
    requires g.Valid()
    modifies g
    ensures g.Valid() && g.seed == SeedAfter(old(g.seed), 2 * DRAWS_PER_SUBFRAME)
  {
    var first := DrawSubframe(g);
    var second := DrawSubframe(g);
    SeedAfterSum(old(g.seed), DRAWS_PER_SUBFRAME, DRAWS_PER_SUBFRAME);
  }

  /** Interpolation of the first subframe. */
  function Interpolated(previous: seq<int>, current: seq<int>): (r: seq<int>)
    requires |previous| == |current|
    ensures |r| == |previous|
  {
    seq(|previous|, i requires 0 <= i < |previous| => Cast16(Pshr(previous[i] + current[i], 1)))
  }

  /** Each is the word nearest to the mean of both. */
  lemma InterpolatedIsMean(previous: seq<int>, current: seq<int>, i: nat)
    requires |previous| == |current| && i < |previous| && Fits16(previous[i]) && Fits16(current[i])
    ensures NearestWord(Interpolated(previous, current)[i], previous[i] + current[i], 2)
  {
    hide NearestWord;
    PowerZero();
    SaturatedIsNearest(previous[i] + current[i], 1);
  }

  /** InterpolateqLSP followed by the copy into the previous buffer. */
  method UpdateqLSP(previousqLSP: array<int>, qLSP: seq<int>) returns (interpolatedqLSP: seq<int>)
    requires previousqLSP.Length == |qLSP|
    modifies previousqLSP
    ensures previousqLSP[..] == qLSP && interpolatedqLSP == Interpolated(old(previousqLSP[..]), qLSP)
  {
    hide Cast16, Pshr;
    interpolatedqLSP := Interpolated(previousqLSP[..], qLSP);
    var i := 0;
    while i < |qLSP|
      invariant 0 <= i <= |qLSP| && previousqLSP[..i] == qLSP[..i]
    {
      previousqLSP[i] := qLSP[i];
      i := i + 1;
    }
    assert previousqLSP[..] == previousqLSP[..i] && qLSP == qLSP[..i];
  }

  // ---- The decoder side

  datatype Cng = Cng(qLSP: seq<int>, received: int, smoothed: int)

  /** L0, L1, L2 and the gain index of a SID frame as table indices. */
  datatype Indices = Indices(l0: int, l1: int, l2: int, gain: int)

  predicate Readable(x: Indices) {
    0 <= x.l0 <= 1 && 0 <= x.l1 < 32 && 0 <= x.l2 < 16 && 0 <= x.gain < 32
  }

  function SidIndices(bytes: seq<bv8>): (x: Indices)
    requires |bytes| == 2
    ensures Readable(x)
  {
    var sid := SidUnpacked(bytes);
    SidInRange(sid, bytes);
    Indices(Value(sid.l0), Value(sid.l1), Value(sid.l2), Value(sid.gain))
  }

  lemma SidInRange(s: SidFrame, bytes: seq<bv8>)
    requires |bytes| == 2 && s == SidUnpacked(bytes)
    ensures Value(s.l0) < 2 && Value(s.l1) < 32 && Value(s.l2) < 16 && Value(s.gain) < 32
  {
    SidUnpackedFit(bytes);
    hide SidUnpacked, Value;
    FieldValue(s.l0);
    FieldValue(s.l1);
    FieldValue(s.l2);
    FieldValue(s.gain);
  }

  /** What the decoder reads from a SID frame: all indices, but L2 only modulo 12. */
  lemma SidReceived(n: Noise, gainIndex: int)
    requires Searched(n) && 0 <= gainIndex < 32
    ensures SidIndices(SidBytes(n, gainIndex)) == Indices(n.l0, n.l1, if n.l2 < 12 then n.l2 else n.l2 - 12, gainIndex)
  {
    hide SidUnpacked, SidPacked, Value, Word;
    FieldWord(n.l0);
    FieldWord(n.l1);
    FieldWord(n.l2);
    FieldWord(gainIndex);
    SidRoundTrip(Word(n.l0), Word(n.l1), Word(n.l2), Word(gainIndex));
    SecondStage(n.l2);
  }

  /** Four digits. */
  function Nibble(b3: bool, b2: bool, b1: bool, b0: bool): bv16 {
    Join(Join(Join(Join(0, b3), b2), b1), b0)
  }

  lemma {:induction false} NoDigits(n: nat)
    ensures Digits(0, n) == 0
  {
    if n > 0 {
      NoDigits(n - 1);
    }
  }

  lemma FourDigits(x: int)
    requires 0 <= x < 16
    ensures Word(x) == Nibble(x / 8 % 2 == 1, x / 4 % 2 == 1, x / 2 % 2 == 1, x % 2 == 1)
  {
    hide Join;
    NoDigits(9);
    assert x / 2 / 2 / 2 / 2 == 0;
    assert Digits(x, 13) == Join(Digits(x / 2, 12), x % 2 == 1);
    assert Digits(x / 2, 12) == Join(Digits(x / 2 / 2, 11), x / 2 % 2 == 1);
    assert Digits(x / 2 / 2, 11) == Join(Digits(x / 2 / 2 / 2, 10), x / 4 % 2 == 1);
    assert Digits(x / 2 / 2 / 2, 10) == Join(0, x / 8 % 2 == 1);
  }

  lemma Twelve(b3: bool, b2: bool, b1: bool, b0: bool)
    ensures Nibble(b3, b2, b1, b0) < 12 <==> !(b3 && b2)
    ensures b3 && b2 ==> Nibble(b3, b2, b1, b0) - 12 == Nibble(false, false, b1, b0)
  {
  }

  lemma TopBits(x: int)
    requires 0 <= x < 16
    ensures x / 8 % 2 == 1 && x / 4 % 2 == 1 <==> x >= 12
    ensures x < 4 ==> x / 8 % 2 != 1 && x / 4 % 2 != 1
    ensures x >= 12 ==> ((x - 12) / 2 % 2 == 1 <==> x / 2 % 2 == 1) && ((x - 12) % 2 == 1 <==> x % 2 == 1)
  {
  }

  lemma SecondStage(l2: int)
    requires 0 <= l2 < 16
    ensures Word(l2) < 12 <==> l2 < 12
    ensures l2 >= 12 ==> Value(Word(l2) - 12) == l2 - 12
  {
    hide Word, Value, Nibble;
    TopBits(l2);
    FourDigits(l2);
    Twelve(l2 / 8 % 2 == 1, l2 / 4 % 2 == 1, l2 / 2 % 2 == 1, l2 % 2 == 1);
    if l2 >= 12 {
      TopBits(l2 - 12);
      FourDigits(l2 - 12);
      FieldWord(l2 - 12);
      assert Word(l2) - 12 == Word(l2 - 12);
    }
  }

  /** Effect of one comfort noise frame: bytes of a SID frame, or none. */
  function NextCng(m: Models, c: Cng, previousActive: bool, bytes: seq<bv8>,
                   memory: seq<seq<int>>): (r: (Cng, seq<seq<int>>))
    requires IsMemory(memory) && (bytes == [] || |bytes| == 2)
    ensures IsMemory(r.1)
  {
    var x := if bytes == [] then Indices(0, 0, 0, 0) else SidIndices(bytes);
    var lsf := SidLsf(m.books, x.l0, x.l1, x.l2, memory);
    var received := if bytes == [] then c.received else SID_GAIN_CODEBOOK[x.gain];
    (Cng(if bytes == [] then c.qLSP else Cosines(m.cos, lsf.1), received,
         if previousActive then received else Cast16(Smoothed(c.smoothed, received))),
     if bytes == [] then memory else lsf.0)
  }

  class CNGChannel {
    var qLSP: seq<int>
    var receivedSIDGain: int
    var smoothedSIDGain: int

    ghost function State(): Cng
      reads this
    {
      Cng(qLSP, receivedSIDGain, smoothedSIDGain)
    }

    constructor ()
      ensures State() == Cng([31441, 27566, 21458, 13612, 4663, -4663, -13612, -21458, -27566, -31441], 0, 0)
    {
      qLSP := [31441, 27566, 21458, 13612, 4663, -4663, -13612, -21458, -27566, -31441];
      receivedSIDGain, smoothedSIDGain := 0, 0;
    }

    /** The parameters of a SID frame. */
    method ReceiveSid(m: Models, bitStream: seq<bv8>, previousLCodeWord: array2<int>)
      requires IsArray(previousLCodeWord) && |bitStream| == 2
      modifies this, previousLCodeWord
      ensures var x := SidIndices(bitStream);
              && var r := SidLsf(m.books, x.l0, x.l1, x.l2, old(Rows(previousLCodeWord)));
                 && Rows(previousLCodeWord) == r.0 && qLSP == Cosines(m.cos, r.1)
                 && receivedSIDGain == SID_GAIN_CODEBOOK[x.gain] && smoothedSIDGain == old(smoothedSIDGain)
    {
      hide SidIndices, Cosines, CodeWord, Predicted, NoiseMAPredictor, Shifted, Row, Rows;
      var x := SidIndices(bitStream);
      receivedSIDGain := SID_GAIN_CODEBOOK[x.gain];
      var sum := SidSum(m.books, x.l1, x.l2);
      var currentqLSF := new int[NB_LSP_COEFF](i => if 0 <= i < NB_LSP_COEFF then sum[i] else 0);
      assert currentqLSF[..] == sum;
      ComputeqLSF(currentqLSF, previousLCodeWord, NoiseMAPredictor(x.l0));
      qLSP := Cosines(m.cos, currentqLSF[..]);
    }

    /** DecodeSIDframe without the RFC 3389 payload; no bytes for a missing or untransmitted frame. */
    method DecodeSIDframe(m: Models, roots: N.Roots, previousFrameIsActiveFlag: bool, bitStream: seq<bv8>,
                          previousLCodeWord: array2<int>, previousqLSP: array<int>, generator: Generator,
                          excitationVector: array<int>)
      returns (interpolatedqLSP: seq<int>, first: Draw, second: Draw)
      requires IsArray(previousLCodeWord) && previousqLSP.Length == |qLSP| == NB_LSP_COEFF && generator.Valid()
      requires excitationVector.Length == L_PAST_EXCITATION + L_FRAME && excitationVector != previousqLSP
      requires bitStream == [] || |bitStream| == 2
      modifies this, previousLCodeWord, previousqLSP, generator, excitationVector
      ensures (State(), Rows(previousLCodeWord))
           == NextCng(m, old(State()), previousFrameIsActiveFlag, bitStream, old(Rows(previousLCodeWord)))
      ensures generator.Valid() && generator.seed == SeedAfter(old(generator.seed), 2 * DRAWS_PER_SUBFRAME)
      ensures |qLSP| == NB_LSP_COEFF && previousqLSP[..] == qLSP
      ensures interpolatedqLSP == Interpolated(old(previousqLSP[..]), qLSP)
      ensures first == Drawn(old(generator.seed)) && second == Drawn(SeedAfter(old(generator.seed), DRAWS_PER_SUBFRAME))
      ensures N.Playable(first) && N.Playable(second)
      ensures var past := old(excitationVector[..L_PAST_EXCITATION]);
              var s := N.NoiseSubframe(roots, smoothedSIDGain, first, past);
              excitationVector[..] == past + s
                + N.NoiseSubframe(roots, smoothedSIDGain, second, AdaptiveCodebook.Advanced(past, s))
    {
      hide Shr, Cast16, SeedAfter, SidIndices, SidLsf, Cosines, Interpolated, Row, Rows, Drawn, N.NoiseSubframe;
      hide N.Playable;
      if bitStream != [] {
        ReceiveSid(m, bitStream, previousLCodeWord);
      }
      interpolatedqLSP := UpdateqLSP(previousqLSP, qLSP);
      if previousFrameIsActiveFlag {
        smoothedSIDGain := receivedSIDGain;
      } else {
        CastTwice(smoothedSIDGain - Shr(smoothedSIDGain, 3), Shr(receivedSIDGain, 3));
        smoothedSIDGain := Cast16(smoothedSIDGain - Shr(smoothedSIDGain, 3));
        smoothedSIDGain := Cast16(smoothedSIDGain + Shr(receivedSIDGain, 3));
      }
      first, second := N.ComputeComfortNoiseExcitationVector(roots, smoothedSIDGain, generator, excitationVector);
    }
  }
}
