/** How the four pulses are sent (13 position bits, 4 sign bits) and rebuilt by decodeFixedCodeVector.c. */
module PulseCode {
  import opened CodecParameters
  import opened FixedPoint
  import opened RealSums
  import opened SumConversion
  import Sharpening

  const O2_IN_Q15 := 6554

  /** A pulse on each track, the last one on track 3 or 4. */
  datatype Pulse4 = Pulse4(i0: int, i1: int, i2: int, i3: int, jx: int)

  predicate OnTracks(p: Pulse4) {
    && 0 <= p.jx <= 1
    && 0 <= p.i0 < L_SUBFRAME && p.i0 % 5 == 0 && 0 <= p.i1 < L_SUBFRAME && p.i1 % 5 == 1
    && 0 <= p.i2 < L_SUBFRAME && p.i2 % 5 == 2 && 0 <= p.i3 < L_SUBFRAME && p.i3 % 5 == 3 + p.jx
  }

  /** MULT16_16_Q15 by 0.2 */
  function Fifth(i: int): int {
    Shr(i * O2_IN_Q15, 15)
  }

  lemma FifthIsQuotient(i: int)
    requires 0 <= i < L_SUBFRAME
    ensures Fifth(i) == i / 5
  {
    assert Pow2(5) == 32 && Pow2(10) == 1024 && Pow2(15) == 0x8000;
  }

  /** eq 62 */
  function EncodePositions(p: Pulse4): int {
    Fifth(p.i0) + Fifth(p.i1) * 8 + Fifth(p.i2) * 64 + (Fifth(p.i3) * 2 + p.jx) * 512
  }

  function DecodePositions(positions: int): Pulse4 {
    var rest1 := positions / 8;
    var rest2 := rest1 / 8;
    var rest3 := rest2 / 8;
    var jx := rest3 % 2;
    Pulse4(positions % 8 * 5, rest1 % 8 * 5 + 1, rest2 % 8 * 5 + 2, rest3 / 2 % 8 * 5 + 3 + jx, jx)
  }

  /** Reading one digit off a number. */
  lemma Digit(low: int, high: int, d: int)
    requires 0 <= low < d
    ensures (low + high * d) % d == low && (low + high * d) / d == high
  {
    QuotientUnique(low + high * d, d, high);
  }

  predicate Digits(a: int, b: int, c: int, d: int, jx: int) {
    0 <= a < 8 && 0 <= b < 8 && 0 <= c < 8 && 0 <= d < 8 && 0 <= jx < 2
  }

  function Pack(a: int, b: int, c: int, d: int, jx: int): int {
    a + b * 8 + c * 64 + (d * 2 + jx) * 512
  }

  lemma DecodePacked(a: int, b: int, c: int, d: int, jx: int)
    requires Digits(a, b, c, d, jx)
    ensures 0 <= Pack(a, b, c, d, jx) < 0x2000
    ensures DecodePositions(Pack(a, b, c, d, jx)) == Pulse4(a * 5, b * 5 + 1, c * 5 + 2, d * 5 + 3 + jx, jx)
  {
    var high3 := jx + d * 2;
    var high2 := c + high3 * 8;
    var high1 := b + high2 * 8;
    assert Pack(a, b, c, d, jx) == a + high1 * 8;
    Digit(a, high1, 8);
    Digit(b, high2, 8);
    Digit(c, high3, 8);
    Digit(jx, d, 2);
    assert d % 8 == d;
  }

  lemma PackDecoded(positions: int)
    requires 0 <= positions < 0x2000
    ensures exists a, b, c, d, jx :: Digits(a, b, c, d, jx) && positions == Pack(a, b, c, d, jx)
  {
    var rest1 := positions / 8;
    var rest2 := rest1 / 8;
    var rest3 := rest2 / 8;
    assert 0 <= rest1 < 0x400 && 0 <= rest2 < 0x80 && 0 <= rest3 < 0x10;
    assert Digits(positions % 8, rest1 % 8, rest2 % 8, rest3 / 2, rest3 % 2);
    assert positions == Pack(positions % 8, rest1 % 8, rest2 % 8, rest3 / 2, rest3 % 2);
  }

  lemma TrackQuotient(i: int, track: int)
    requires 0 <= i < L_SUBFRAME && 0 <= track < 5 && i % 5 == track
    ensures 0 <= Fifth(i) < 8 && i == Fifth(i) * 5 + track
  {
    FifthIsQuotient(i);
  }

  /** Every choice of the search survives the 13 bits. */
  lemma PositionsRoundTrip(p: Pulse4)
    requires OnTracks(p)
    ensures 0 <= EncodePositions(p) < 0x2000
    ensures DecodePositions(EncodePositions(p)) == p
  {
    hide Fifth, DecodePositions;
    TrackQuotient(p.i0, 0);
    TrackQuotient(p.i1, 1);
    TrackQuotient(p.i2, 2);
    TrackQuotient(p.i3, 3 + p.jx);
    DecodePacked(Fifth(p.i0), Fifth(p.i1), Fifth(p.i2), Fifth(p.i3), p.jx);
  }

  /** eq 62, on the positions themselves: tracks 0, 1 and 2 take three bits each from the lowest on, then comes the bit
      that tells tracks 3 and 4 apart, and the last position above it. */
  lemma CodeOfPositions(p: Pulse4)
    requires OnTracks(p)
    ensures 5 * EncodePositions(p) == p.i0 + 8 * (p.i1 - 1) + 64 * (p.i2 - 2) + 1024 * (p.i3 - 3 - p.jx) + 2560 * p.jx
  {
    hide Fifth;
    TrackQuotient(p.i0, 0);
    TrackQuotient(p.i1, 1);
    TrackQuotient(p.i2, 2);
    TrackQuotient(p.i3, 3 + p.jx);
  }

  /** eq 61: pulse k gives bit k, set when it is positive. */
  lemma CodeOfSigns(s0: int, s1: int, s2: int, s3: int)
    requires IsSign(s0) && IsSign(s1) && IsSign(s2) && IsSign(s3)
    ensures 2 * EncodeSigns(s0, s1, s2, s3) == 15 + s0 + 2 * s1 + 4 * s2 + 8 * s3
  {
  }

  /** Every 13-bit code, even a corrupted one, gives four pulses on their tracks, and codes differ when pulses do. */
  lemma CodeRoundTrip(positions: int)
    requires 0 <= positions < 0x2000
    ensures OnTracks(DecodePositions(positions)) && EncodePositions(DecodePositions(positions)) == positions
  {
    hide Fifth, DecodePositions;
    PackDecoded(positions);
    var a, b, c, d, jx :| Digits(a, b, c, d, jx) && positions == Pack(a, b, c, d, jx);
    DecodePacked(a, b, c, d, jx);
    FifthOnTrack(a, 0);
    FifthOnTrack(b, 1);
    FifthOnTrack(c, 2);
    FifthOnTrack(d, 3 + jx);
  }

  lemma FifthOnTrack(k: int, track: int)
    requires 0 <= k < 8 && 0 <= track < 5
    ensures Fifth(k * 5 + track) == k && (k * 5 + track) % 5 == track && 0 <= k * 5 + track < L_SUBFRAME
  {
    FifthIsQuotient(k * 5 + track);
  }

  predicate IsSign(s: int) {
    s == 1 || s == -1
  }

  /** eq 61: one bit a pulse. */
  function EncodeSigns(s0: int, s1: int, s2: int, s3: int): int
    requires IsSign(s0) && IsSign(s1) && IsSign(s2) && IsSign(s3)
  {
    (s0 + 1) / 2 + (s1 + 1) / 2 * 2 + (s2 + 1) / 2 * 4 + (s3 + 1) / 2 * 8
  }

  /** Bit k of the sign code as the decoder's loop meets it. */
  function SignBit(signs: int, k: nat): int {
    if Shr(signs, k) % 2 != 0 then 1 else -1
  }

  lemma FourBits(b0: int, b1: int, b2: int, b3: int)
    requires 0 <= b0 <= 1 && 0 <= b1 <= 1 && 0 <= b2 <= 1 && 0 <= b3 <= 1
    ensures var code := b0 + b1 * 2 + b2 * 4 + b3 * 8;
            0 <= code < 16 && code % 2 == b0 && code / 2 % 2 == b1 && code / 4 % 2 == b2 && code / 8 % 2 == b3
  {
  }

  lemma SignBitsAre(signs: int)
    ensures SignBit(signs, 0) == (if signs % 2 == 1 then 1 else -1)
    ensures SignBit(signs, 1) == (if signs / 2 % 2 == 1 then 1 else -1)
    ensures SignBit(signs, 2) == (if signs / 4 % 2 == 1 then 1 else -1)
    ensures SignBit(signs, 3) == (if signs / 8 % 2 == 1 then 1 else -1)
  {
    assert Pow2(0) == 1;
    Powers();
  }

  lemma BitOfSign(s: int)
    requires IsSign(s)
    ensures 0 <= (s + 1) / 2 <= 1 && (if (s + 1) / 2 == 1 then 1 else -1) == s
  {
  }

  lemma SignsRoundTrip(s0: int, s1: int, s2: int, s3: int)
    requires IsSign(s0) && IsSign(s1) && IsSign(s2) && IsSign(s3)
    ensures var code := EncodeSigns(s0, s1, s2, s3);
            0 <= code < 16
            && SignBit(code, 0) == s0 && SignBit(code, 1) == s1 && SignBit(code, 2) == s2 && SignBit(code, 3) == s3
  {
    hide SignBit;
    BitOfSign(s0);
    BitOfSign(s1);
    BitOfSign(s2);
    BitOfSign(s3);
    FourBits((s0 + 1) / 2, (s1 + 1) / 2, (s2 + 1) / 2, (s3 + 1) / 2);
    SignBitsAre(EncodeSigns(s0, s1, s2, s3));
  }

  /** The code vector before sharpening: plus or minus one in Q13 at each pulse. */
  function CodeVector(p: Pulse4, signs: int): (r: seq<int>)
    ensures |r| == L_SUBFRAME
  {
    seq(L_SUBFRAME, n => if n == p.i0 then 8192 * SignBit(signs, 0) else if n == p.i1 then 8192 * SignBit(signs, 1)
                         else if n == p.i2 then 8192 * SignBit(signs, 2) else if n == p.i3 then 8192 * SignBit(signs, 3)
                           else 0)
  }

  /** eq 48 in fixed point: the fed back product is rounded to nearest by the decoder, downwards by the encoder. */
  function SharpenedAt(v: seq<int>, t: nat, gain: int, bias: int, n: int): int
    requires t > 0
    decreases if n < 0 then 0 else n + 1
  {
    if n < 0 || n >= |v| then 0
    else if n < t then v[n]
    else v[n] + Shr(bias + SharpenedAt(v, t, gain, bias, n - t) * gain, 14)
  }

  function Sharpened(v: seq<int>, t: nat, gain: int, bias: int): (r: seq<int>)
    requires t > 0
    ensures |r| == |v|
  {
    seq(|v|, n => SharpenedAt(v, t, gain, bias, n))
  }

  const ROUNDED := 8192
  const TRUNCATED := 0

  method SharpenInPlace(v: array<int>, intPitchDelay: nat, gain: int, bias: int)
    requires intPitchDelay > 0
    modifies v
    ensures v[..] == Sharpened(old(v[..]), intPitchDelay, gain, bias)
  {
    hide Shr;
    ghost var x := v[..];
    var i := intPitchDelay;
    while i < v.Length
      invariant intPitchDelay <= i
      invariant forall n :: 0 <= n < v.Length && n < i ==> v[n] == SharpenedAt(x, intPitchDelay, gain, bias, n)
      invariant forall n :: i <= n < v.Length ==> v[n] == x[n]
    {
      v[i] := v[i] + Shr(bias + v[i - intPitchDelay] * gain, 14);
      i := i + 1;
    }
  }

  /** The decoder: four pulses from the received code, then sharpening with rounding. */
  method DecodeFixedCodeVector(signs: int, positions: int, intPitchDelay: nat, boundedPitchGain: int)
    returns (v: array<int>)
    requires 0 <= positions < 0x2000 && 0 <= signs < 16 && intPitchDelay > 0
    ensures fresh(v)
    ensures v[..] == Sharpened(CodeVector(DecodePositions(positions), signs), intPitchDelay, boundedPitchGain, ROUNDED)
  {
    hide SharpenedAt, EncodePositions, SignBit;
    var positionsArray := new int[4];
    var rest := positions;
    positionsArray[0] := rest % 8 * 5;
    rest := rest / 8;
    positionsArray[1] := rest % 8 * 5 + 1;
    rest := rest / 8;
    positionsArray[2] := rest % 8 * 5 + 2;
    rest := rest / 8;
    var jx := rest % 2;
    rest := rest / 2;
    positionsArray[3] := rest % 8 * 5 + 3 + jx;
    ghost var p := DecodePositions(positions);
    CodeRoundTrip(positions);
    assert positionsArray[0] == p.i0 && positionsArray[1] == p.i1 && positionsArray[2] == p.i2
           && positionsArray[3] == p.i3;
    v := PlacePulses(positionsArray, p, signs);
    SharpenInPlace(v, intPitchDelay, boundedPitchGain, ROUNDED);
  }

  method PlacePulses(positions: array<int>, ghost p: Pulse4, signs: int) returns (v: array<int>)
    requires positions.Length == 4 && OnTracks(p) && 0 <= signs < 16
    requires positions[0] == p.i0 && positions[1] == p.i1 && positions[2] == p.i2 && positions[3] == p.i3
    ensures fresh(v) && v[..] == CodeVector(p, signs)
  {
    v := new int[L_SUBFRAME];
    var i := 0;
    while i < L_SUBFRAME
      invariant 0 <= i <= L_SUBFRAME
      invariant forall n :: 0 <= n < i ==> v[n] == 0
    {
      v[i] := 0;
      i := i + 1;
    }
    var bits := signs;
    i := 0;
    while i < 4
      invariant 0 <= i <= 4 && bits == Shr(signs, i)
      invariant positions[0] == p.i0 && positions[1] == p.i1 && positions[2] == p.i2 && positions[3] == p.i3
      invariant forall n :: 0 <= n < L_SUBFRAME ==>
                  v[n] == if n == p.i0 && i > 0 then 8192 * SignBit(signs, 0)
                          else if n == p.i1 && i > 1 then 8192 * SignBit(signs, 1)
                          else if n == p.i2 && i > 2 then 8192 * SignBit(signs, 2)
                          else if n == p.i3 && i > 3 then 8192 * SignBit(signs, 3) else 0
    {
      v[positions[i]] := if bits % 2 != 0 then 8192 else -8192;
      ShiftTwice(signs, i, 1);
      assert Pow2(1) == 2;
      bits := bits / 2;
      i := i + 1;
    }
  }

  /** The encoder's own copy: the same pulses, written directly, then sharpening without rounding. */
  method EncodeFixedCodeVector(p: Pulse4, s0: int, s1: int, s2: int, s3: int, intPitchDelay: nat, gain: int)
    returns (v: array<int>, positions: int, signs: int)
    requires OnTracks(p) && IsSign(s0) && IsSign(s1) && IsSign(s2) && IsSign(s3) && intPitchDelay > 0
    ensures fresh(v) && 0 <= positions < 0x2000 && 0 <= signs < 16
    ensures DecodePositions(positions) == p
    ensures SignBit(signs, 0) == s0 && SignBit(signs, 1) == s1 && SignBit(signs, 2) == s2 && SignBit(signs, 3) == s3
    ensures v[..] == Sharpened(CodeVector(DecodePositions(positions), signs), intPitchDelay, gain, TRUNCATED)
  {
    hide Fifth, SignBit, EncodePositions, EncodeSigns, DecodePositions, Sharpened;
    v := new int[L_SUBFRAME];
    var i := 0;
    while i < L_SUBFRAME
      invariant 0 <= i <= L_SUBFRAME
      invariant forall n :: 0 <= n < i ==> v[n] == 0
    {
      v[i] := 0;
      i := i + 1;
    }
    v[p.i0] := s0 * 8192;
    v[p.i1] := s1 * 8192;
    v[p.i2] := s2 * 8192;
    v[p.i3] := s3 * 8192;
    positions, signs := EncodePositions(p), EncodeSigns(s0, s1, s2, s3);
    PositionsRoundTrip(p);
    SignsRoundTrip(s0, s1, s2, s3);
    assert v[..] == CodeVector(p, signs);
    SharpenInPlace(v, intPitchDelay, gain, TRUNCATED);
  }

  /** Both sides rebuild the same vector whenever the pitch delay leaves nothing to sharpen. */
  lemma VectorsEqualBeyondSubframe(v: seq<int>, t: nat, encoderGain: int, decoderGain: int)
    requires t >= |v| && t > 0
    ensures Sharpened(v, t, encoderGain, TRUNCATED) == Sharpened(v, t, decoderGain, ROUNDED) == v
  {
  }

  // ---- Against the exact recursion

  function Beta(gain: int): real {
    gain as real / 16384.0
  }

  /** The error of one product: half a unit where it is rounded, one where it is cut. */
  function Loss(bias: int): real {
    if bias == ROUNDED then 0.5 else 1.0
  }

  /** How the losses add up over the lags that fit before n. */
  function Drift(beta: real, loss: real, t: nat, n: int): real
    requires t > 0
    decreases if n < 0 then 0 else n + 1
  {
    if n < t then 0.0 else loss + beta * Drift(beta, loss, t, n - t)
  }

  /** Every sample of either side is that of the exact sharpening, up to the accumulated losses. */
  lemma {:induction false} SharpenedNear(v: seq<int>, t: nat, gain: int, bias: int, n: int)
    requires t > 0 && n < |v| && gain >= 0 && (bias == ROUNDED || bias == TRUNCATED)
    ensures var drift := Drift(Beta(gain), Loss(bias), t, n);
            -drift <= SharpenedAt(v, t, gain, bias, n) as real - Sharpening.SharpenedAt(AsReals(v), t, Beta(gain), n)
            <= drift
    decreases if n < 0 then 0 else n + 1
  {
    hide Shr, SharpenedAt, Sharpening.SharpenedAt, Drift, Beta, Loss;
    if n < t {
      BeforeLag(v, t, gain, bias, n);
    } else {
      SharpenedNear(v, t, gain, bias, n - t);
      Sharpening.Fed(AsReals(v), t, Beta(gain), n);
      DriftStep(Beta(gain), Loss(bias), t, n);
      SharpenedStep(v, t, gain, bias, n);
      StepNear(SharpenedAt(v, t, gain, bias, n - t), Sharpening.SharpenedAt(AsReals(v), t, Beta(gain), n - t), gain,
               bias, Drift(Beta(gain), Loss(bias), t, n - t));
    }
  }

  lemma BeforeLag(v: seq<int>, t: nat, gain: int, bias: int, n: int)
    requires t > 0 && n < |v| && n < t
    ensures Drift(Beta(gain), Loss(bias), t, n) == 0.0
    ensures SharpenedAt(v, t, gain, bias, n) as real == Sharpening.SharpenedAt(AsReals(v), t, Beta(gain), n)
  {
    if n >= 0 {
      Sharpening.Untouched(AsReals(v), t, Beta(gain), n);
    }
  }

  lemma DriftStep(beta: real, loss: real, t: nat, n: int)
    requires 0 < t <= n
    ensures Drift(beta, loss, t, n) == loss + beta * Drift(beta, loss, t, n - t)
  {
  }

  lemma SharpenedStep(v: seq<int>, t: nat, gain: int, bias: int, n: int)
    requires 0 < t <= n < |v|
    ensures SharpenedAt(v, t, gain, bias, n) == v[n] + Shr(bias + SharpenedAt(v, t, gain, bias, n - t) * gain, 14)
  {
  }

  lemma StepNear(x: int, y: real, gain: int, bias: int, drift: real)
    requires gain >= 0 && (bias == ROUNDED || bias == TRUNCATED) && -drift <= x as real - y <= drift
    ensures var bound := Loss(bias) + Beta(gain) * drift;
            -bound <= Shr(bias + x * gain, 14) as real - Beta(gain) * y <= bound
  {
    hide Pow2, Beta;
    Powers();
    ShiftBounds(bias + x * gain, 14);
    ProductLoss(x, gain, bias, Shr(bias + x * gain, 14));
    var b := Beta(gain);
    assert b >= 0.0 by { BetaNonNegative(gain); }
    NonNegativeProduct(b, drift - (x as real - y));
    NonNegativeProduct(b, drift + (x as real - y));
    Spread(b, drift, x as real, y);
  }

  lemma BetaNonNegative(gain: int)
    requires gain >= 0
    ensures Beta(gain) >= 0.0
  {
  }

  lemma Spread(b: real, d: real, x: real, y: real)
    ensures b * (d - (x - y)) == b * d - b * x + b * y && b * (d + (x - y)) == b * d + b * x - b * y
  {
  }

  lemma ProductLoss(x: int, gain: int, bias: int, product: int)
    requires (bias == ROUNDED || bias == TRUNCATED) && product * 0x4000 <= bias + x * gain < product * 0x4000 + 0x4000
    ensures -Loss(bias) <= product as real - Beta(gain) * x as real <= Loss(bias)
  {
    assert (x * gain) as real == x as real * gain as real;
    assert gain as real / 16384.0 * x as real == x as real * gain as real / 16384.0;
  }

  /** The decoder, whose gain is at most 0.8: within two and a half units at every lag. */
  lemma {:induction false} DecoderDrift(gain: int, t: nat, n: int)
    requires t > 0 && 0 <= gain <= 13107
    ensures 0.0 <= Drift(Beta(gain), Loss(ROUNDED), t, n) <= 2.5
    decreases if n < 0 then 0 else n + 1
  {
    if n >= t {
      DecoderDrift(gain, t, n - t);
      ScaledDrift(Beta(gain), Drift(Beta(gain), Loss(ROUNDED), t, n - t), 0.8, 2.5);
    }
  }

  /** The encoder, whose gain is at most 1.2 and whose lags of 19 and more fit a subframe twice: within two and a
      quarter. */
  lemma EncoderDrift(gain: int, t: nat, n: int)
    requires t >= 19 && n < L_SUBFRAME && 0 <= gain <= 19661
    ensures 0.0 <= Drift(Beta(gain), Loss(TRUNCATED), t, n) <= 2.25
  {
    var b := Beta(gain);
    if n >= t {
      DriftStep(b, 1.0, t, n);
      if n - t >= t {
        DriftStep(b, 1.0, t, n - t);
        assert Drift(b, 1.0, t, n - t - t) == 0.0;
        ScaledDrift(b, 0.0, 1.21, 0.0);
        ScaledDrift(b, 1.0, 1.21, 1.0);
      } else {
        ScaledDrift(b, 0.0, 1.21, 0.0);
      }
    }
  }

  lemma ScaledDrift(b: real, d: real, c: real, m: real)
    requires 0.0 <= b <= c && 0.0 <= d <= m
    ensures 0.0 <= b * d <= c * m
  {
    NonNegativeProduct(b, d);
    NonNegativeProduct(b, m - d);
    NonNegativeProduct(c - b, m);
    assert b * (m - d) == b * m - b * d && (c - b) * m == c * m - b * m;
  }
}
