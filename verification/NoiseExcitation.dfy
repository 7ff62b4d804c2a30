/** The comfort noise excitation of cng.c: adaptive and Gaussian parts, and four pulses that make up the target
    energy. */
module NoiseExcitation {
  import opened CodecParameters
  import opened FixedPoint
  import opened AdaptiveCodebook
  import opened ComfortNoise
  import Q = PulseArithmetic

  const GAUSSIAN_EXCITATION_COEFF_FACTOR := 25905
  const COEFF_K := 24576

  /** The approximations of 1/sqrt (Q0 to Q31) and sqrt (Q0 to Q7). */
  datatype Roots = Roots(inverseRoot: int -> int, root: int -> int)

  // ---- The Gaussian part

  /** Gg: what scales the drawn samples to a quarter of the target energy. */
  function Amplitude(r: Roots, targetGain: int, gaussian: seq<int>): int {
    SplitMultiply(targetGain, SplitMultiply(GAUSSIAN_EXCITATION_COEFF_FACTOR, r.inverseRoot(SquareSum(gaussian)), 15),
                  15)
  }

  function ScaledSample(x: int, amplitude: int): int {
    if x < 0 then Cast16(-Saturate16(Pshr(SplitMultiply(-x, amplitude, 15), 2)))
    else Cast16(Pshr(SplitMultiply(x, amplitude, 15), 2))
  }

  function ScaledGaussian(r: Roots, targetGain: int, gaussian: seq<int>): (s: seq<int>)
    ensures |s| == |gaussian|
  {
    seq(|gaussian|, i requires 0 <= i < |gaussian| => ScaledSample(gaussian[i], Amplitude(r, targetGain, gaussian)))
  }

  method EnergyOf(s: seq<int>) returns (energy: int)
    ensures energy == SquareSum(s)
  {
    energy := 0;
    var i := 0;
    while i < |s|
      invariant 0 <= i <= |s| && energy == SquareSum(s[..i])
    {
      assert s[..i + 1][..i] == s[..i];
      energy := energy + s[i] * s[i];
      i := i + 1;
    }
    assert s[..|s|] == s;
  }

  method ScaleGaussian(r: Roots, targetGain: int, gaussian: seq<int>) returns (scaled: seq<int>)
    ensures scaled == ScaledGaussian(r, targetGain, gaussian)
  {
    hide SplitMultiply, Pshr, Cast16, Saturate16;
    var eg := EnergyOf(gaussian);
    var gg := SplitMultiply(GAUSSIAN_EXCITATION_COEFF_FACTOR, r.inverseRoot(eg), 15);
    gg := SplitMultiply(targetGain, gg, 15);
    var a := new int[|gaussian|];
    var i := 0;
    while i < |gaussian|
      invariant 0 <= i <= |gaussian|
      invariant forall k :: 0 <= k < i ==> a[k] == ScaledSample(gaussian[k], gg)
    {
      if gaussian[i] < 0 {
        a[i] := Cast16(-Saturate16(Pshr(SplitMultiply(-gaussian[i], gg, 15), 2)));
      } else {
        a[i] := Cast16(Pshr(SplitMultiply(gaussian[i], gg, 15), 2));
      }
      i := i + 1;
    }
    scaled := a[..];
  }

  // ---- Adaptive part added

  function Mixed(adaptive: int, gain: int, gaussian: int): int {
    Saturate16(Saturate16(Pshr(adaptive * gain, 15)) + gaussian)
  }

  function Mixture(adaptive: seq<int>, gain: int, gaussian: seq<int>): (s: seq<int>)
    requires |adaptive| == |gaussian|
    ensures |s| == |adaptive|
  {
    seq(|adaptive|, i requires 0 <= i < |adaptive| => Mixed(adaptive[i], gain, gaussian[i]))
  }

  method Mix(excitationVector: array<int>, start: nat, gain: int, gaussian: seq<int>)
    requires |gaussian| == L_SUBFRAME && start + L_SUBFRAME <= excitationVector.Length
    modifies excitationVector
    ensures excitationVector[..start] == old(excitationVector[..start])
    ensures excitationVector[start + L_SUBFRAME..] == old(excitationVector[start + L_SUBFRAME..])
    ensures excitationVector[start..start + L_SUBFRAME]
            == Mixture(old(excitationVector[start..start + L_SUBFRAME]), gain, gaussian)
  {
    hide Saturate16, Pshr;
    ghost var v := excitationVector[start..start + L_SUBFRAME];
    var i := 0;
    while i < L_SUBFRAME
      invariant 0 <= i <= L_SUBFRAME
      invariant excitationVector[..start] == old(excitationVector[..start])
      invariant excitationVector[start + L_SUBFRAME..] == old(excitationVector[start + L_SUBFRAME..])
      invariant forall k :: 0 <= k < i ==> excitationVector[start + k] == Saturate16(Pshr(v[k] * gain, 15))
      invariant forall k :: i <= k < L_SUBFRAME ==> excitationVector[start + k] == v[k]
    {
      excitationVector[start + i] := Saturate16(Pshr(excitationVector[start + i] * gain, 15));
      i := i + 1;
    }
    i := 0;
    while i < L_SUBFRAME
      invariant 0 <= i <= L_SUBFRAME
      invariant excitationVector[..start] == old(excitationVector[..start])
      invariant excitationVector[start + L_SUBFRAME..] == old(excitationVector[start + L_SUBFRAME..])
      invariant forall k :: 0 <= k < i ==> excitationVector[start + k] == Mixed(v[k], gain, gaussian[k])
      invariant forall k :: i <= k < L_SUBFRAME ==> excitationVector[start + k] == Saturate16(Pshr(v[k] * gain, 15))
    {
      excitationVector[start + i] := Saturate16(excitationVector[start + i] + gaussian[i]);
      i := i + 1;
    }
  }

  // ---- The equation for the pulse height

  /** K: the energy of a subframe at the target gain, in Q3. */
  function TargetOf(targetGain: int): int {
    targetGain * Shr(L_SUBFRAME * targetGain, 3)
  }

  /** delta, a quarter of the discriminant; the energy is cut to 32 bits on the way. */
  function Discriminant(targetGain: int, energy: int, inter: int): int {
    inter * inter + Shr(TargetOf(targetGain) - Cast32(8 * energy), 1)
  }

  /** delta of the branch that gives up the adaptive part. */
  function FallbackDiscriminant(targetGain: int, inter: int): int {
    inter * inter + SplitMultiplyRounded(COEFF_K, TargetOf(targetGain), 15)
  }

  /** The signal that receives the pulses, the linear term, and delta. */
  datatype Equation = Equation(base: seq<int>, inter: int, delta: int)

  ghost predicate Placed(d: Draw) {
    && |d.position| == |d.sign| == 4 && |d.gaussian| == L_SUBFRAME && Distinct(d.position)
    && forall k :: 0 <= k < 4 ==> 0 <= d.position[k] < L_SUBFRAME
  }

  /** Parameters the frame can be built from. */
  ghost predicate Playable(d: Draw) {
    Placed(d) && InRange(DelayOf(d.intPitchDelay, d.fracPitchDelay))
  }

  lemma PlayableHasFour(d: Draw)
    requires Playable(d)
    ensures |d.position| == |d.sign| == 4
  {
  }

  function EquationOf(targetGain: int, d: Draw, mixed: seq<int>, gaussian: seq<int>): Equation
    requires Placed(d) && |mixed| == |gaussian| == L_SUBFRAME
  {
    var inter := Inter(mixed, d.position, d.sign, 4);
    var delta := Discriminant(targetGain, SquareSum(mixed), inter);
    if delta >= 0 then Equation(mixed, inter, delta)
    else
      var both := inter + Inter(gaussian, d.position, d.sign, 4);
      Equation(gaussian, both, FallbackDiscriminant(targetGain, both))
  }

  /** Halvings until delta is below 2 to the 31, and one more if their number is odd. */
  function HalvedToFit(delta: int): (r: (int, nat))
    decreases if delta < 0x80000000 then 0 else delta
  {
    if delta < 0x80000000 then (delta, 0) else var r := HalvedToFit(delta / 2); (r.0, r.1 + 1)
  }

  function Evened(r: (int, nat)): (int, nat) {
    if r.1 % 2 == 1 then (r.0 / 2, r.1 + 1) else r
  }

  method ScaleDelta(delta: int) returns (scaled: int, deltaScaleFactor: nat)
    ensures (scaled, deltaScaleFactor) == Evened(HalvedToFit(delta))
  {
    scaled, deltaScaleFactor := delta, 0;
    while scaled >= 0x80000000
      invariant HalvedToFit(delta) == var r := HalvedToFit(scaled); (r.0, r.1 + deltaScaleFactor)
      decreases if scaled < 0x80000000 then 0 else scaled
    {
      scaled := scaled / 2;
      deltaScaleFactor := deltaScaleFactor + 1;
    }
    if deltaScaleFactor % 2 == 1 {
      scaled := scaled / 2;
      deltaScaleFactor := deltaScaleFactor + 1;
    }
  }

  /** Gf: of the two roots the one of smaller magnitude, back in Q0. */
  function PulseGain(r: Roots, inter: int, delta: int): int {
    var s := Evened(HalvedToFit(delta));
    var root := r.root(s.0);
    var b := Vshr(inter, s.1 / 2 - 7);
    var x1, x2 := root - b, -(root + b);
    Vshr(if Abs(x2) < Abs(x1) then x2 else x1, 9 - s.1 / 2)
  }

  /** The square root of the source errs by less than err in Q7. */
  ghost predicate RootWithin(r: Roots, err: nat) {
    forall d :: 0 <= d < 0x80000000 ==> Q.SquareRootNear(r.root(d), d, err)
  }

  lemma {:induction false} HalvedBounds(delta: int)
    requires delta >= 0
    ensures var r := HalvedToFit(delta);
            && 0 <= r.0 < 0x80000000 && r.0 * Pow2(r.1) <= delta < (r.0 + 1) * Pow2(r.1)
            && (r.1 > 0 ==> r.0 >= 0x40000000)
    decreases delta
  {
    if delta >= 0x80000000 {
      HalvedBounds(delta / 2);
      var r := HalvedToFit(delta / 2);
      HalfStep(r.0, Pow2(r.1), delta);
    }
  }

  lemma HalfStep(q: int, p: int, x: int)
    requires q * p <= x / 2 < (q + 1) * p
    ensures q * (2 * p) <= x < (q + 1) * (2 * p)
  {
    assert q * (2 * p) == 2 * (q * p) && (q + 1) * (2 * p) == 2 * ((q + 1) * p);
  }

  lemma EvenedBounds(delta: int)
    requires delta >= 0
    ensures var s := Evened(HalvedToFit(delta));
            s.1 % 2 == 0 && 0 <= s.0 < 0x80000000 && Q.Quartered(delta, Pow2(s.1 / 2), s.0)
  {
    hide HalvedToFit, Pow2;
    HalvedBounds(delta);
    var r := HalvedToFit(delta);
    var s := Evened(r);
    if r.1 % 2 == 1 {
      OneMoreHalving(r.0, Pow2(r.1), delta);
      DoublePower(r.1);
    }
    Pow2Sum(s.1 / 2, s.1 / 2);
    assert Pow2(0) == 1 by { PowerZero(); }
  }

  lemma PowerZero()
    ensures Pow2(0) == 1
  {
  }

  lemma DoublePower(n: nat)
    ensures Pow2(n + 1) == 2 * Pow2(n)
  {
  }

  lemma OneMoreHalving(q: int, p: int, x: int)
    requires q * p <= x < (q + 1) * p && p >= 1
    ensures q / 2 * (2 * p) <= x < (q / 2 + 1) * (2 * p)
  {
    MultiplyMonotone(2 * (q / 2), q, p);
    MultiplyMonotone(q + 1, 2 * (q / 2) + 2, p);
    assert q / 2 * (2 * p) == 2 * (q / 2) * p && (q / 2 + 1) * (2 * p) == (2 * (q / 2) + 2) * p;
  }

  /** Whatever delta and its scaling, the height is that of the exact root of smaller magnitude, up to an error of one
      and a part in 512 of the root's own. */
  lemma PulseGainNear(r: Roots, inter: int, delta: int, err: nat, sigma: real)
    requires RootWithin(r, err) && delta >= 0 && Q.IsRoot(sigma, delta)
    ensures Q.HeightNear(PulseGain(r, inter, delta), sigma, inter, err)
  {
    hide HalvedToFit, Evened, Vshr, Pow2, Q.HeightNear, Q.IsRoot, Q.Quartered, Q.SquareRootNear;
    var s := Evened(HalvedToFit(delta));
    var root := r.root(s.0);
    var b := Vshr(inter, s.1 as int / 2 - 7);
    EvenedBounds(delta);
    assert root >= 0 by { RootNotNegative(root, s.0, err); }
    Q.SmallerRoot(root, b);
    Q.HeightClose(root, delta, s.1 / 2, s.0, inter, err, sigma);
  }

  lemma RootNotNegative(root: int, d: int, err: nat)
    requires Q.SquareRootNear(root, d, err)
    ensures root >= 0
  {
  }

  method SolvePulseGain(r: Roots, inter: int, delta: int) returns (gf: int)
    ensures gf == PulseGain(r, inter, delta)
    ensures forall err: nat, sigma: real :: RootWithin(r, err) && delta >= 0 && Q.IsRoot(sigma, delta) ==>
              Q.HeightNear(gf, sigma, inter, err)
  {
    hide HalvedToFit, Evened, Vshr, Q.HeightNear, RootWithin, Q.IsRoot;
    var scaled, deltaScaleFactor := ScaleDelta(delta);
    var root := r.root(scaled);
    var half: int := deltaScaleFactor / 2;
    var b := Vshr(inter, half - 7);
    gf := root - b;
    var x2 := -(root + b);
    if Abs(x2) < Abs(gf) {
      gf := x2;
    }
    gf := Vshr(gf, 9 - half);
    forall err: nat, sigma: real | RootWithin(r, err) && delta >= 0 && Q.IsRoot(sigma, delta)
      ensures Q.HeightNear(gf, sigma, inter, err)
    {
      PulseGainNear(r, inter, delta, err, sigma);
    }
  }

  // ---- One subframe

  /** The excitation of one subframe of comfort noise, from the past excitation and what was drawn. */
  function NoiseSubframe(r: Roots, targetGain: int, d: Draw, past: seq<int>): (s: seq<int>)
    requires |past| == L_PAST_EXCITATION && Playable(d)
    ensures |s| == L_SUBFRAME
  {
    var gaussian := ScaledGaussian(r, targetGain, d.gaussian);
    var mixed := Mixture(Vector(past, DelayOf(d.intPitchDelay, d.fracPitchDelay)), d.adaptiveGain, gaussian);
    var e := EquationOf(targetGain, d, mixed, gaussian);
    Stored(Pulsed(e.base, d.position, d.sign, PulseGain(r, e.inter, e.delta), 4))
  }

  lemma DrawnPlaced(seed: int)
    requires 0 <= seed < 0x10000
    ensures var d := Drawn(seed);
            Playable(d) && -1 <= d.fracPitchDelay <= 1
  {
    DrawnInRange(seed);
    hide GaussianSample, Gaussian;
    assert |Drawn(seed).gaussian| == L_SUBFRAME;
  }

  lemma MixtureWords(adaptive: seq<int>, gain: int, gaussian: seq<int>)
    requires |adaptive| == |gaussian|
    ensures Words(Mixture(adaptive, gain, gaussian))
  {
    hide Pshr, Saturate16;
  }

  lemma ScaledWords(r: Roots, targetGain: int, gaussian: seq<int>)
    ensures Words(ScaledGaussian(r, targetGain, gaussian))
  {
    hide Pshr, Saturate16, Cast16, Amplitude, SplitMultiply;
  }

  /** Inner product with the four unit pulses. */
  method InterEnergy(s: seq<int>, position: seq<int>, sign: seq<int>, start: int) returns (ei: int)
    requires |position| == |sign| == 4 && forall k :: 0 <= k < 4 ==> 0 <= position[k] < |s|
    ensures ei == start + Inter(s, position, sign, 4)
  {
    ei := start;
    var i := 0;
    while i < 4
      invariant 0 <= i <= 4 && ei == start + Inter(s, position, sign, i)
    {
      if sign[i] == 0 {
        ei := ei - s[position[i]];
      } else {
        ei := ei + s[position[i]];
      }
      i := i + 1;
    }
  }

  /** Replaces the mixture by its Gaussian part. */
  method KeepGaussian(excitationVector: array<int>, start: nat, gaussian: seq<int>)
    requires |gaussian| == L_SUBFRAME && start + L_SUBFRAME <= excitationVector.Length
    modifies excitationVector
    ensures excitationVector[..start] == old(excitationVector[..start])
    ensures excitationVector[start + L_SUBFRAME..] == old(excitationVector[start + L_SUBFRAME..])
    ensures excitationVector[start..start + L_SUBFRAME] == gaussian
  {
    var i := 0;
    while i < L_SUBFRAME
      invariant 0 <= i <= L_SUBFRAME
      invariant excitationVector[..start] == old(excitationVector[..start])
      invariant excitationVector[start + L_SUBFRAME..] == old(excitationVector[start + L_SUBFRAME..])
      invariant forall k :: 0 <= k < i ==> excitationVector[start + k] == gaussian[k]
    {
      excitationVector[start + i] := gaussian[i];
      i := i + 1;
    }
  }

  /** Solving the equation and inserting the pulses. */
  method InsertPulses(r: Roots, targetGain: int, d: Draw, gaussian: seq<int>, excitationVector: array<int>, start: nat)
    requires Placed(d) && |gaussian| == L_SUBFRAME && Words(gaussian) && start + L_SUBFRAME <= excitationVector.Length
    requires Words(excitationVector[start..start + L_SUBFRAME])
    modifies excitationVector
    ensures excitationVector[..start] == old(excitationVector[..start])
    ensures excitationVector[start + L_SUBFRAME..] == old(excitationVector[start + L_SUBFRAME..])
    ensures var e := EquationOf(targetGain, d, old(excitationVector[start..start + L_SUBFRAME]), gaussian);
            excitationVector[start..start + L_SUBFRAME]
            == Stored(Pulsed(e.base, d.position, d.sign, PulseGain(r, e.inter, e.delta), 4))
  {
    hide PulseGain, Pulsed, Inter, SquareSum, Stored, Words, TargetOf, SplitMultiplyRounded, Cast32, Shr;
    var mixed := excitationVector[start..start + L_SUBFRAME];
    var ea := EnergyOf(mixed);
    var ei := InterEnergy(mixed, d.position, d.sign, 0);
    var k := TargetOf(targetGain);
    var delta := ei * ei + Shr(k - Cast32(8 * ea), 1);
    if delta < 0 {
      KeepGaussian(excitationVector, start, gaussian);
      ei := InterEnergy(gaussian, d.position, d.sign, ei);
      delta := ei * ei + SplitMultiplyRounded(COEFF_K, k, 15);
    }
    var gf := SolvePulseGain(r, ei, delta);
    AddPulses(excitationVector, start, d.position, d.sign, gf);
  }

  /** One pass of the loop of computeComfortNoiseExcitationVector. */
  method ExciteSubframe(r: Roots, targetGain: int, g: Generator, excitationVector: array<int>, start: nat)
    returns (d: Draw)
    requires g.Valid() && Fresh40(excitationVector, start)
    modifies g, excitationVector
    ensures g.Valid() && d == Drawn(old(g.seed)) && g.seed == SeedAfter(old(g.seed), DRAWS_PER_SUBFRAME)
    ensures Playable(d)
    ensures excitationVector[..start] == old(excitationVector[..start])
    ensures excitationVector[start + L_SUBFRAME..] == old(excitationVector[start + L_SUBFRAME..])
    ensures excitationVector[start..start + L_SUBFRAME]
         == NoiseSubframe(r, targetGain, d, old(excitationVector[start - L_PAST_EXCITATION..start]))
  {
    hide Drawn, SeedAfter, EquationOf, PulseGain, Mixture, ScaledGaussian, Vector, Pulsed, Stored, InRange, Words;
    DrawnPlaced(g.seed);
    d := DrawSubframe(g);
    var gaussian := ScaleGaussian(r, targetGain, d.gaussian);
    ScaledWords(r, targetGain, d.gaussian);
    ComputeAdaptativeCodebookVector(excitationVector, start, d.fracPitchDelay, d.intPitchDelay);
    ghost var v := excitationVector[start..start + L_SUBFRAME];
    Mix(excitationVector, start, d.adaptiveGain, gaussian);
    MixtureWords(v, d.adaptiveGain, gaussian);
    InsertPulses(r, targetGain, d, gaussian, excitationVector, start);
  }

  /** Both subframes of a frame behind the past excitation. */
  method ComputeComfortNoiseExcitationVector(r: Roots, targetGain: int, g: Generator, excitationVector: array<int>)
    returns (first: Draw, second: Draw)
    requires g.Valid() && excitationVector.Length == L_PAST_EXCITATION + L_FRAME
    modifies g, excitationVector
    ensures g.Valid() && g.seed == SeedAfter(old(g.seed), 2 * DRAWS_PER_SUBFRAME)
    ensures first == Drawn(old(g.seed)) && second == Drawn(SeedAfter(old(g.seed), DRAWS_PER_SUBFRAME))
    ensures Playable(first) && Playable(second)
    ensures var past := old(excitationVector[..L_PAST_EXCITATION]);
            var s := NoiseSubframe(r, targetGain, first, past);
            excitationVector[..] == past + s + NoiseSubframe(r, targetGain, second, Advanced(past, s))
  {
    hide Drawn, SeedAfter, NoiseSubframe, Playable;
    SeedAfterSum(g.seed, DRAWS_PER_SUBFRAME, DRAWS_PER_SUBFRAME);
    ghost var past := excitationVector[..L_PAST_EXCITATION];
    first := ExciteSubframe(r, targetGain, g, excitationVector, L_PAST_EXCITATION);
    ghost var half := excitationVector[..L_PAST_EXCITATION + L_SUBFRAME];
    ghost var s := excitationVector[L_PAST_EXCITATION..L_PAST_EXCITATION + L_SUBFRAME];
    PastOfSecond(excitationVector[..], past, s);
    second := ExciteSubframe(r, targetGain, g, excitationVector, L_PAST_EXCITATION + L_SUBFRAME);
    ghost var t := excitationVector[L_PAST_EXCITATION + L_SUBFRAME..L_PAST_EXCITATION + L_FRAME];
    BothBehindPast(excitationVector[..], half, t);
  }

  lemma PastOfSecond(buffer: seq<int>, past: seq<int>, s: seq<int>)
    requires |buffer| == L_PAST_EXCITATION + L_FRAME && |past| == L_PAST_EXCITATION && |s| == L_SUBFRAME
    requires buffer[..L_PAST_EXCITATION] == past && buffer[L_PAST_EXCITATION..L_PAST_EXCITATION + L_SUBFRAME] == s
    ensures buffer[..L_PAST_EXCITATION + L_SUBFRAME] == past + s
    ensures buffer[L_SUBFRAME..L_SUBFRAME + L_PAST_EXCITATION] == Advanced(past, s)
  {
  }

  lemma BothBehindPast(buffer: seq<int>, half: seq<int>, t: seq<int>)
    requires |buffer| == L_PAST_EXCITATION + L_FRAME && |half| == L_PAST_EXCITATION + L_SUBFRAME
    requires buffer[..L_PAST_EXCITATION + L_SUBFRAME] == half
    requires buffer[L_PAST_EXCITATION + L_SUBFRAME..L_PAST_EXCITATION + L_FRAME] == t
    ensures buffer == half + t
  {
  }

  // ---- What the two branches reach

  /** The code's delta is a quarter of the discriminant exactly while eight times the energy fits the 32 bits it is
      cut to. */
  lemma DiscriminantExact(targetGain: int, energy: int, inter: int)
    requires energy >= 0
    ensures Discriminant(targetGain, energy, inter) == inter * inter + Shr(TargetOf(targetGain) - 8 * energy, 1)
            <==> energy < 0x10000000
  {
    hide TargetOf;
    assert Pow2(1) == 2;
    if energy >= 0x10000000 {
      assert 8 * energy - Cast32(8 * energy) >= 2;
    }
  }

  /** In exact arithmetic the other branch does not reach the target: inter is the Gaussian part's own product with
      the pulses, stale what was left of the mixture's, k the target energy. */
  lemma FallbackEnergy(energy: real, inter: real, stale: real, k: real, root: real)
    requires root >= 0.0 && root * root == (stale + inter) * (stale + inter) + 6.0 * k
    ensures var x1, x2 := (root - (stale + inter)) / 4.0, (-root - (stale + inter)) / 4.0;
            && 4.0 * (x1 * x1) + 2.0 * x1 * inter + energy == energy + 1.5 * k - 2.0 * (x1 * stale)
            && 4.0 * (x2 * x2) + 2.0 * x2 * inter + energy == energy + 1.5 * k - 2.0 * (x2 * stale)
  {
    var b := stale + inter;
    FallbackRoot(root, b, inter, stale, k, (root - b) / 4.0);
    FallbackRoot(-root, b, inter, stale, k, (-root - b) / 4.0);
  }

  lemma FallbackRoot(root: real, b: real, inter: real, stale: real, k: real, x: real)
    requires root * root == b * b + 6.0 * k && b == stale + inter && x == (root - b) / 4.0
    ensures 4.0 * (x * x) + 2.0 * x * inter == 1.5 * k - 2.0 * (x * stale)
  {
    RootOf(root, b, x);
    assert x * b == x * stale + x * inter && 2.0 * x * inter == 2.0 * (x * inter);
  }

  // ---- The energy the pulses reach

  /** How far the energy may be from its target. */
  function EnergyMargin(sigma: real, err: nat): real {
    4.0 * (Q.Margin(sigma, err) * Q.Margin(sigma, err)) + 2.0 * (Q.Margin(sigma, err) * sigma) + 0.125
  }

  /** The target: forty samples at the target gain, which is in Q3. */
  function TargetEnergyOf(targetGain: int): real {
    40.0 * (targetGain as real / 8.0) * (targetGain as real / 8.0)
  }

  lemma TargetIsEight(targetGain: int)
    ensures TargetOf(targetGain) as real == 8.0 * TargetEnergyOf(targetGain)
  {
    assert Pow2(3) == 8;
    assert L_SUBFRAME * targetGain == 8 * (5 * targetGain);
    assert TargetOf(targetGain) == targetGain * (5 * targetGain);
    var x := targetGain as real;
    assert (targetGain * (5 * targetGain)) as real == x * (5.0 * x);
    assert 40.0 * (x / 8.0) * (x / 8.0) == 0.625 * (x * x);
  }

  ghost predicate Within(x: real, y: real, bound: real) {
    -bound <= x - y <= bound
  }

  lemma PulsedNear(s: seq<int>, d: Draw, inter: int, gf: int, delta: int, sigma: real, err: nat)
    requires Placed(d) && |s| == L_SUBFRAME && Q.HeightNear(gf, sigma, inter, err) && Q.IsRoot(sigma, delta)
    ensures var stale := inter - Inter(s, d.position, d.sign, 4);
            Within(SquareSum(Pulsed(s, d.position, d.sign, gf, 4)) as real,
                   (SquareSum(s) - 2 * gf * stale) as real + (delta - inter * inter) as real / 4.0,
                   EnergyMargin(sigma, err) - 0.125)
  {
    hide Pulsed, Inter, SquareSum, Q.HeightNear, Q.IsRoot, Q.Margin;
    PulsedEnergy(s, d.position, d.sign, gf, 4);
    Q.EnergyNear(gf, sigma, inter, delta, err);
    var own := Inter(s, d.position, d.sign, 4);
    assert 2 * gf * own == 2 * gf * inter - 2 * gf * (inter - own) by { TermSplits(gf, inter, own); }
  }

  lemma TermSplits(gf: int, inter: int, own: int)
    ensures 2 * gf * own == 2 * gf * inter - 2 * gf * (inter - own)
  {
  }

  /** A subframe whose equation has a root: pulses of some height, and with them the target energy, up to an error that
      grows with the root. */
  lemma SubframeReachesTarget(r: Roots, targetGain: int, d: Draw, past: seq<int>, err: nat, sigma: real)
    requires |past| == L_PAST_EXCITATION && Playable(d) && RootWithin(r, err)
    requires var gaussian := ScaledGaussian(r, targetGain, d.gaussian);
             var mixed := Mixture(Vector(past, DelayOf(d.intPitchDelay, d.fracPitchDelay)), d.adaptiveGain, gaussian);
             var inter := Inter(mixed, d.position, d.sign, 4);
             var delta := inter * inter + Shr(TargetOf(targetGain) - 8 * SquareSum(mixed), 1);
             SquareSum(mixed) < 0x10000000 && delta >= 0 && Q.IsRoot(sigma, delta)
    ensures var gaussian := ScaledGaussian(r, targetGain, d.gaussian);
            var mixed := Mixture(Vector(past, DelayOf(d.intPitchDelay, d.fracPitchDelay)), d.adaptiveGain, gaussian);
            exists gf :: && NoiseSubframe(r, targetGain, d, past) == Stored(Pulsed(mixed, d.position, d.sign, gf, 4))
                         && Within(SquareSum(Pulsed(mixed, d.position, d.sign, gf, 4)) as real,
                                   TargetEnergyOf(targetGain), EnergyMargin(sigma, err))
  {
    hide Pulsed, Inter, SquareSum, Q.HeightNear, Q.IsRoot, Q.Margin, RootWithin, Vector, Mixture, ScaledGaussian;
    hide PulseGain, TargetOf, Shr, Stored, TargetEnergyOf, InRange;
    var gaussian := ScaledGaussian(r, targetGain, d.gaussian);
    var mixed := Mixture(Vector(past, DelayOf(d.intPitchDelay, d.fracPitchDelay)), d.adaptiveGain, gaussian);
    var inter, energy := Inter(mixed, d.position, d.sign, 4), SquareSum(mixed);
    SquareSumNonNegative(mixed);
    DiscriminantExact(targetGain, energy, inter);
    var delta := Discriminant(targetGain, energy, inter);
    var gf := PulseGain(r, inter, delta);
    PulseGainNear(r, inter, delta, err, sigma);
    PulsedNear(mixed, d, inter, gf, delta, sigma, err);
    TargetFromDelta(targetGain, energy, inter, delta, gf);
  }

  lemma {:induction false} SquareSumNonNegative(s: seq<int>)
    ensures SquareSum(s) >= 0
  {
    if |s| > 0 {
      SquareSumNonNegative(s[..|s| - 1]);
    }
  }

  lemma TargetFromDelta(targetGain: int, energy: int, inter: int, delta: int, gf: int)
    requires delta == inter * inter + Shr(TargetOf(targetGain) - 8 * energy, 1)
    ensures Within((energy - 2 * gf * (inter - inter)) as real + (delta - inter * inter) as real / 4.0,
                   TargetEnergyOf(targetGain), 0.125)
  {
    hide TargetOf, TargetEnergyOf;
    TargetIsEight(targetGain);
    assert Pow2(1) == 2;
    assert 2 * gf * (inter - inter) == 0;
  }

  /** A subframe whose equation has none: the mixture is given up, and the pulses on its Gaussian part reach the
      energy of that part and one and a half times the target, less what the stale product contributes. */
  lemma SubframeFallsBack(r: Roots, targetGain: int, d: Draw, past: seq<int>, err: nat, sigma: real)
    requires |past| == L_PAST_EXCITATION && Playable(d) && RootWithin(r, err)
    requires var gaussian := ScaledGaussian(r, targetGain, d.gaussian);
             var mixed := Mixture(Vector(past, DelayOf(d.intPitchDelay, d.fracPitchDelay)), d.adaptiveGain, gaussian);
             var stale := Inter(mixed, d.position, d.sign, 4);
             var both := stale + Inter(gaussian, d.position, d.sign, 4);
             && Discriminant(targetGain, SquareSum(mixed), stale) < 0
             && FallbackDiscriminant(targetGain, both) >= 0
             && Q.IsRoot(sigma, FallbackDiscriminant(targetGain, both))
    ensures var gaussian := ScaledGaussian(r, targetGain, d.gaussian);
            var mixed := Mixture(Vector(past, DelayOf(d.intPitchDelay, d.fracPitchDelay)), d.adaptiveGain, gaussian);
            var stale := Inter(mixed, d.position, d.sign, 4);
            exists gf :: && NoiseSubframe(r, targetGain, d, past) == Stored(Pulsed(gaussian, d.position, d.sign, gf, 4))
                         && Within(SquareSum(Pulsed(gaussian, d.position, d.sign, gf, 4)) as real,
                                   (SquareSum(gaussian) - 2 * gf * stale) as real + 1.5 * TargetEnergyOf(targetGain),
                                   EnergyMargin(sigma, err))
  {
    hide Pulsed, Inter, SquareSum, Q.HeightNear, Q.IsRoot, Q.Margin, RootWithin, Vector, Mixture, ScaledGaussian;
    hide PulseGain, TargetOf, Shr, Stored, TargetEnergyOf, InRange, SplitMultiplyRounded, Discriminant;
    var gaussian := ScaledGaussian(r, targetGain, d.gaussian);
    var mixed := Mixture(Vector(past, DelayOf(d.intPitchDelay, d.fracPitchDelay)), d.adaptiveGain, gaussian);
    var stale := Inter(mixed, d.position, d.sign, 4);
    var both := stale + Inter(gaussian, d.position, d.sign, 4);
    var delta := FallbackDiscriminant(targetGain, both);
    var gf := PulseGain(r, both, delta);
    PulseGainNear(r, both, delta, err, sigma);
    PulsedNear(gaussian, d, both, gf, delta, sigma, err);
    FallbackTarget(targetGain, both, delta);
  }

  lemma FallbackTarget(targetGain: int, both: int, delta: int)
    requires delta == FallbackDiscriminant(targetGain, both)
    ensures Within((delta - both * both) as real / 4.0, 1.5 * TargetEnergyOf(targetGain), 0.125)
  {
    hide TargetOf, TargetEnergyOf, SplitMultiplyRounded, Pow2;
    TargetIsEight(targetGain);
    SplitMultiplyRoundedIsNearest(COEFF_K, TargetOf(targetGain), 15);
    Powers();
    ShiftBounds(COEFF_K * TargetOf(targetGain) + 0x4000, 15);
  }

  // ---- The Gaussian part as products

  /** The amplitude is the target gain times 25905 times the inverse root, over 2 to the 30. */
  lemma AmplitudeIsProduct(r: Roots, targetGain: int, gaussian: seq<int>)
    requires targetGain >= 0
    ensures var exact := targetGain * (25905 * r.inverseRoot(SquareSum(gaussian)));
            exact - 0x8000 * targetGain - 0x40000000 <= 0x40000000 * Amplitude(r, targetGain, gaussian) <= exact
  {
    hide SplitMultiply, SquareSum, Pow2;
    var product := 25905 * r.inverseRoot(SquareSum(gaussian));
    var factor := SplitMultiply(GAUSSIAN_EXCITATION_COEFF_FACTOR, r.inverseRoot(SquareSum(gaussian)), 15);
    SplitMultiplyIsFloor(GAUSSIAN_EXCITATION_COEFF_FACTOR, r.inverseRoot(SquareSum(gaussian)), 15);
    SplitMultiplyIsFloor(targetGain, factor, 15);
    ShiftBounds(product, 15);
    ShiftBounds(targetGain * factor, 15);
    Powers();
    MultiplyMonotone(0x8000 * factor, product, targetGain);
    MultiplyMonotone(product, 0x8000 * factor + 0x8000, targetGain);
    Commuted(targetGain, factor, product);
  }

  lemma Commuted(t: int, factor: int, product: int)
    ensures 0x8000 * factor * t == 0x8000 * (t * factor) && product * t == t * product
    ensures (0x8000 * factor + 0x8000) * t == 0x8000 * (t * factor) + 0x8000 * t
  {
  }

  /** A scaled sample is the product with the amplitude over 2 to the 17, the same for both signs. */
  lemma ScaledIsProduct(x: int, amplitude: int)
    requires amplitude >= 0 && Abs(x) * amplitude < 0x7fff * 0x20000
    ensures -0x18000 < 0x20000 * ScaledSample(x, amplitude) - x * amplitude < 0x18000
    ensures ScaledSample(-x, amplitude) == -ScaledSample(x, amplitude)
  {
    hide SplitMultiply, Pshr;
    MagnitudeScaled(Abs(x), amplitude);
    if x < 0 {
      assert -x * amplitude == -(x * amplitude);
    }
  }

  lemma MagnitudeScaled(x: int, amplitude: int)
    requires x >= 0 && amplitude >= 0 && x * amplitude < 0x7fff * 0x20000
    ensures var v := Pshr(SplitMultiply(x, amplitude, 15), 2);
            0 <= v <= 0x7fff && -0x18000 < 0x20000 * v - x * amplitude < 0x18000 && (x == 0 ==> v == 0)
  {
    hide SplitMultiply, Pow2;
    SplitMultiplyIsFloor(x, amplitude, 15);
    MultiplyMonotone(0, x, amplitude);
    Powers();
    ShiftBounds(x * amplitude, 15);
  }

  /** A mixed sample: the word nearest to the adaptive one times its gain in Q15, plus the Gaussian one, saturated. */
  lemma MixedIsSum(adaptive: int, gain: int, gaussian: int, w: int)
    requires NearestWord(w, adaptive * gain, 0x8000)
    ensures Mixed(adaptive, gain, gaussian)
         == if w + gaussian > 0x7fff then 0x7fff else if w + gaussian < -0x8000 then -0x8000 else w + gaussian
  {
    hide Pshr, NearestWord;
    Powers();
    SaturatedIsNearest(adaptive * gain, 15);
    NearestIsUnique(w, Saturate16(Pshr(adaptive * gain, 15)), adaptive * gain, 0x8000);
  }
}
