/** Pseudo-random draws, pulse insertion and gain smoothing of the comfort noise (cng.c, dtx.c, utils.c). */
module ComfortNoise {
  import opened CodecParameters
  import opened FixedPoint
  import opened IntSums
  import AdaptiveCodebook

  const CNG_DTX_RANDOM_SEED_INIT := 11111

  // ---- The generator

  /** eq 96, on a 16-bit unsigned seed. */
  function NextSeed(seed: int): (r: int)
    ensures 0 <= r < 0x10000
  {
    (13849 + seed * 31821) % 0x10000
  }

  /** Different seeds never meet: 7301 inverts the multiplier modulo 2 to the 16. */
  lemma NextSeedInjective(s: int, t: int)
    requires 0 <= s < 0x10000 && 0 <= t < 0x10000
    ensures NextSeed(s) == NextSeed(t) <==> s == t
  {
    if NextSeed(s) == NextSeed(t) {
      var k := (13849 + s * 31821) / 0x10000 - (13849 + t * 31821) / 0x10000;
      assert (s - t) * 31821 == 0x10000 * k;
      assert s - t == 0x10000 * (7301 * k - 3545 * (s - t));
    }
  }

  function SeedAfter(seed: int, draws: nat): int {
    if draws == 0 then seed else NextSeed(SeedAfter(seed, draws - 1))
  }

  /** However many draws later, two generators agree exactly when they started from the same seed. */
  lemma {:induction false} SeedsMeetOnlyIfEqual(s: int, t: int, draws: nat)
    requires 0 <= s < 0x10000 && 0 <= t < 0x10000
    ensures SeedAfter(s, draws) == SeedAfter(t, draws) <==> s == t
  {
    if draws > 0 {
      SeedsMeetOnlyIfEqual(s, t, draws - 1);
      NextSeedInjective(SeedAfter(s, draws - 1), SeedAfter(t, draws - 1));
    }
  }

  lemma {:induction false} SeedAfterSum(seed: int, m: nat, n: nat)
    ensures SeedAfter(SeedAfter(seed, m), n) == SeedAfter(seed, m + n)
  {
    if n > 0 {
      SeedAfterSum(seed, m, n - 1);
    }
  }

  lemma {:induction false} SeedInRange(seed: int, n: nat)
    requires 0 <= seed < 0x10000
    ensures 0 <= SeedAfter(seed, n) < 0x10000
  {
    if n > 0 {
      SeedInRange(seed, n - 1);
    }
  }

  class Generator {
    var seed: int

    ghost predicate Valid()
      reads this
    {
      0 <= seed < 0x10000
    }

    constructor ()
      ensures Valid() && seed == CNG_DTX_RANDOM_SEED_INIT
    {
      seed := CNG_DTX_RANDOM_SEED_INIT;
    }

    method PseudoRandom() returns (r: int)
      requires Valid()
      modifies this
      ensures Valid() && r == seed == NextSeed(old(seed))
    {
      seed := (13849 + seed * 31821) % 0x10000;
      r := seed;
    }
  }

  // ---- One subframe of random parameters

  datatype Draw = Draw(intPitchDelay: int, fracPitchDelay: int, position: seq<int>, sign: seq<int>, adaptiveGain: int,
                       gaussian: seq<int>)

  const DRAWS_PER_SUBFRAME := 483

  /** Sum of the first j of the twelve signed numbers behind Gaussian sample i. */
  function GaussianSum(seed: int, i: nat, j: nat): int {
    if j == 0 then 0 else GaussianSum(seed, i, j - 1) + Cast16(SeedAfter(seed, 3 + 12 * i + j))
  }

  function GaussianSample(seed: int, i: nat): int {
    Shr(GaussianSum(seed, i, 12), 7)
  }

  /** A sample is the sum of twelve numbers of the generator, read as signed words, over 128. */
  lemma GaussianIsSum(seed: int, i: nat)
    ensures var sum := Sum(12, j => Cast16(SeedAfter(seed, if j >= 0 then 4 + 12 * i + j else 0)));
            0 <= sum - 128 * GaussianSample(seed, i) < 128
  {
    hide Cast16, SeedAfter;
    GaussianPartial(seed, i, 12);
    ShiftBounds(GaussianSum(seed, i, 12), 7);
    Powers();
  }

  lemma {:induction false} GaussianPartial(seed: int, i: nat, n: nat)
    ensures Sum(n, j => Cast16(SeedAfter(seed, if j >= 0 then 4 + 12 * i + j else 0))) == GaussianSum(seed, i, n)
  {
    hide Cast16, SeedAfter;
    if n > 0 {
      GaussianPartial(seed, i, n - 1);
      assert 4 + 12 * i + (n - 1) == 3 + 12 * i + n;
    }
  }

  function Gaussian(seed: int, n: nat): (r: seq<int>)
    ensures |r| == n
  {
    seq(n, i requires 0 <= i => GaussianSample(seed, i))
  }

  function Fraction(r: int): int {
    if r % 4 - 1 == 2 then 0 else r % 4 - 1
  }

  /** Everything one subframe draws, as a function of the seed. */
  function Drawn(seed: int): Draw {
    var r1 := SeedAfter(seed, 1);
    var r2 := SeedAfter(seed, 2);
    Draw(r1 / 4 % 64 + 40, Fraction(r1),
         [r1 / 256 % 8 * 5, r1 / 4096 % 8 * 5 + 1, r2 % 8 * 5 + 2, r2 / 16 % 2 + 3 + r2 / 32 % 8 * 5],
         [r1 / 2048 % 2, r1 / 32768 % 2, r2 / 8 % 2, r2 / 256 % 2],
         SeedAfter(seed, 3) % 0x2000 * 2, Gaussian(seed, L_SUBFRAME))
  }

  /** The bits of the first two numbers, from the lowest on: two for the fraction, six for the lag, three and one for
      the first pulse and its sign, three and one for the second; three and one for the third, and for the last one
      the bit of its track before three and one. */
  lemma DrawnBits(seed: int)
    requires 0 <= seed < 0x10000
    ensures var d := Drawn(seed);
            var r1, r2 := SeedAfter(seed, 1), SeedAfter(seed, 2);
            && d.fracPitchDelay == (if r1 % 4 == 3 then 0 else r1 % 4 - 1)
            && r1 / 4 == (d.intPitchDelay - 40) + 64 * (d.position[0] / 5) + 512 * d.sign[0]
                         + 1024 * (d.position[1] / 5) + 8192 * d.sign[1]
            && r2 % 512 == d.position[2] / 5 + 8 * d.sign[2] + 16 * (d.position[3] % 5 - 3) + 32 * (d.position[3] / 5)
                           + 256 * d.sign[3]
  {
    hide SeedAfter, GaussianSample;
    SeedInRange(seed, 1);
    SeedInRange(seed, 2);
    var r1, r2 := SeedAfter(seed, 1), SeedAfter(seed, 2);
    FirstBits(r1);
    SecondBits(r2);
    TrackOf(r1 / 256 % 8, 0);
    TrackOf(r1 / 4096 % 8, 1);
    TrackOf(r2 % 8, 2);
    TrackOf(r2 / 32 % 8, r2 / 16 % 2 + 3);
  }

  /** Reading one digit off a number. */
  lemma NextDigit(r: int, d: int, e: int)
    requires d > 0 && e > 0
    ensures r / d == r / d % e + e * (r / (d * e))
  {
    QuotientTwice(r, d, e);
  }

  lemma FirstBits(r: int)
    requires 0 <= r < 0x10000
    ensures r / 4 == r / 4 % 64 + 64 * (r / 256 % 8) + 512 * (r / 2048 % 2) + 1024 * (r / 4096 % 8)
                     + 8192 * (r / 32768 % 2)
  {
    NextDigit(r, 4, 64);
    NextDigit(r, 256, 8);
    NextDigit(r, 2048, 2);
    NextDigit(r, 4096, 8);
  }

  lemma SecondBits(r: int)
    requires 0 <= r < 0x10000
    ensures r % 512 == r % 8 + 8 * (r / 8 % 2) + 16 * (r / 16 % 2) + 32 * (r / 32 % 8) + 256 * (r / 256 % 2)
  {
    NextDigit(r, 1, 8);
    NextDigit(r, 8, 2);
    NextDigit(r, 16, 2);
    NextDigit(r, 32, 8);
    NextDigit(r, 256, 2);
  }

  /** First number: lag, fraction, and the first two pulses. */
  method DrawLag(g: Generator) returns (intPitchDelay: int, fracPitchDelay: int, p0: int, s0: int, p1: int, s1: int)
    requires g.Valid()
    modifies g
    ensures g.Valid() && g.seed == NextSeed(old(g.seed))
    ensures intPitchDelay == g.seed / 4 % 64 + 40 && fracPitchDelay == Fraction(g.seed)
    ensures p0 == g.seed / 256 % 8 * 5 && s0 == g.seed / 2048 % 2 && p1 == g.seed / 4096 % 8 * 5 + 1
            && s1 == g.seed / 32768 % 2
  {
    hide NextSeed;
    var r := g.PseudoRandom();
    fracPitchDelay := r % 4 - 1;
    if fracPitchDelay == 2 { fracPitchDelay := 0; }
    r := r / 4;
    intPitchDelay := r % 64 + 40;
    r := r / 64;
    assert r == g.seed / 256;
    p0 := r % 8 * 5;
    r := r / 8;
    assert r == g.seed / 2048;
    s0 := r % 2;
    r := r / 2;
    assert r == g.seed / 4096;
    p1 := r % 8 * 5 + 1;
    r := r / 8;
    assert r == g.seed / 32768;
    s1 := r % 2;
  }

  /** Second number: the other two pulses. */
  method DrawPulses(g: Generator) returns (p2: int, s2: int, p3: int, s3: int)
    requires g.Valid()
    modifies g
    ensures g.Valid() && g.seed == NextSeed(old(g.seed))
    ensures p2 == g.seed % 8 * 5 + 2 && s2 == g.seed / 8 % 2 && p3 == g.seed / 16 % 2 + 3 + g.seed / 32 % 8 * 5
            && s3 == g.seed / 256 % 2
  {
    hide NextSeed;
    var r := g.PseudoRandom();
    p2 := r % 8 * 5 + 2;
    r := r / 8;
    s2 := r % 2;
    r := r / 2;
    assert r == g.seed / 16;
    p3 := r % 2 + 3;
    r := r / 2;
    assert r == g.seed / 32;
    p3 := p3 + r % 8 * 5;
    r := r / 8;
    assert r == g.seed / 256;
    s3 := r % 2;
  }

  /** Draws a subframe from the generator: always the same number of draws. */
  method DrawSubframe(g: Generator) returns (d: Draw)
    requires g.Valid()
    modifies g
    ensures g.Valid() && d == Drawn(old(g.seed)) && g.seed == SeedAfter(old(g.seed), DRAWS_PER_SUBFRAME)
  {
    hide NextSeed, GaussianSum, Fraction;
    ghost var seed := g.seed;
    assert SeedAfter(seed, 1) == NextSeed(SeedAfter(seed, 0)) && SeedAfter(seed, 2) == NextSeed(SeedAfter(seed, 1));
    assert SeedAfter(seed, 3) == NextSeed(SeedAfter(seed, 2));
    var intPitchDelay, fracPitchDelay, p0, s0, p1, s1 := DrawLag(g);
    var p2, s2, p3, s3 := DrawPulses(g);
    var r := g.PseudoRandom();
    var gaussian := DrawGaussian(g, seed);
    d := Draw(intPitchDelay, fracPitchDelay, [p0, p1, p2, p3], [s0, s1, s2, s3], r % 0x2000 * 2, gaussian);
  }

  method DrawGaussian(g: Generator, ghost seed: int) returns (gaussian: seq<int>)
    requires g.Valid() && g.seed == SeedAfter(seed, 3)
    modifies g
    ensures g.Valid() && gaussian == Gaussian(seed, L_SUBFRAME) && g.seed == SeedAfter(seed, DRAWS_PER_SUBFRAME)
  {
    hide NextSeed, Shr, Cast16;
    gaussian := [];
    var i := 0;
    while i < L_SUBFRAME
      invariant 0 <= i <= L_SUBFRAME && g.Valid() && g.seed == SeedAfter(seed, 3 + 12 * i)
      invariant gaussian == Gaussian(seed, i)
    {
      var sum := 0;
      var j := 0;
      while j < 12
        invariant 0 <= j <= 12 && g.Valid() && g.seed == SeedAfter(seed, 3 + 12 * i + j)
        invariant sum == GaussianSum(seed, i, j)
      {
        var r := g.PseudoRandom();
        sum := sum + Cast16(r);
        j := j + 1;
      }
      gaussian := gaussian + [Shr(sum, 7)];
      i := i + 1;
    }
  }

  lemma {:induction false} GaussianSumBound(seed: int, i: nat, j: nat)
    ensures -0x8000 * j <= GaussianSum(seed, i, j) <= 0x7fff * j
  {
    if j > 0 {
      GaussianSumBound(seed, i, j - 1);
    }
  }

  /** Whatever the seed: a lag the interpolator accepts, one pulse a track, a gain below one half, samples within
      3072. */
  lemma DrawnInRange(seed: int)
    requires 0 <= seed < 0x10000
    ensures var d := Drawn(seed);
            && 40 <= d.intPitchDelay <= 103 && -1 <= d.fracPitchDelay <= 1
            && AdaptiveCodebook.InRange(AdaptiveCodebook.DelayOf(d.intPitchDelay, d.fracPitchDelay))
            && (forall k :: 0 <= k < 4 ==> 0 <= d.position[k] < L_SUBFRAME && (d.sign[k] == 0 || d.sign[k] == 1))
            && d.position[0] % 5 == 0 && d.position[1] % 5 == 1 && d.position[2] % 5 == 2 && d.position[3] % 5 >= 3
            && 0 <= d.adaptiveGain < 0x4000
            && (forall i :: 0 <= i < L_SUBFRAME ==> -3072 <= d.gaussian[i] <= 3071)
  {
    forall i | 0 <= i < L_SUBFRAME
      ensures -3072 <= Drawn(seed).gaussian[i] <= 3071
    {
      GaussianSumBound(seed, i, 12);
      Powers();
    }
    hide GaussianSample;
    TrackOf(SeedAfter(seed, 1) / 256 % 8, 0);
    TrackOf(SeedAfter(seed, 1) / 4096 % 8, 1);
    TrackOf(SeedAfter(seed, 2) % 8, 2);
    TrackOf(SeedAfter(seed, 2) / 32 % 8, SeedAfter(seed, 2) / 16 % 2 + 3);
  }

  lemma TrackOf(k: int, track: int)
    requires 0 <= k < 8 && 0 <= track < 5
    ensures 0 <= k * 5 + track < L_SUBFRAME && (k * 5 + track) % 5 == track && (k * 5 + track) / 5 == k
  {
  }

  // ---- Energy of the excitation

  lemma {:induction false} EnergyOfUpdate(s: seq<int>, i: nat, d: int)
    requires i < |s|
    ensures SquareSum(s[i := s[i] + d]) == SquareSum(s) + 2 * d * s[i] + d * d
  {
    var t := s[i := s[i] + d];
    if i == |s| - 1 {
      assert t[..i] == s[..i];
      assert (s[i] + d) * (s[i] + d) == s[i] * s[i] + 2 * d * s[i] + d * d;
    } else {
      assert t[..|s| - 1] == s[..|s| - 1][i := s[i] + d];
      EnergyOfUpdate(s[..|s| - 1], i, d);
    }
  }

  /** Four pulses of height gf on distinct positions; sign 0 is negative. */
  function Signed(sign: int, x: int): int {
    if sign == 0 then -x else x
  }

  function Pulsed(s: seq<int>, position: seq<int>, sign: seq<int>, gf: int, n: nat): (r: seq<int>)
    requires n <= |position| == |sign| && forall k :: 0 <= k < n ==> 0 <= position[k] < |s|
    ensures |r| == |s|
  {
    if n == 0 then s
    else
      var r := Pulsed(s, position, sign, gf, n - 1);
      r[position[n - 1] := r[position[n - 1]] + Signed(sign[n - 1], gf)]
  }

  /** Inner product of s with the first n unit pulses: the intermediate term of eq B.21. */
  function Inter(s: seq<int>, position: seq<int>, sign: seq<int>, n: nat): int
    requires n <= |position| == |sign| && forall k :: 0 <= k < n ==> 0 <= position[k] < |s|
  {
    if n == 0 then 0 else Inter(s, position, sign, n - 1) + Signed(sign[n - 1], s[position[n - 1]])
  }

  ghost predicate Distinct(position: seq<int>) {
    forall j, k :: 0 <= j < k < |position| ==> position[j] != position[k]
  }

  lemma {:induction false} PulsedElsewhere(s: seq<int>, position: seq<int>, sign: seq<int>, gf: int, n: nat, i: nat)
    requires n <= |position| == |sign| && (forall k :: 0 <= k < n ==> 0 <= position[k] < |s|) && i < |s|
    requires forall k :: 0 <= k < n ==> position[k] != i
    ensures Pulsed(s, position, sign, gf, n)[i] == s[i]
  {
    if n > 0 {
      PulsedElsewhere(s, position, sign, gf, n - 1, i);
    }
  }

  /** Energy after inserting n pulses: the left side of the equation the code solves. */
  lemma {:induction false} PulsedEnergy(s: seq<int>, position: seq<int>, sign: seq<int>, gf: int, n: nat)
    requires n <= |position| == |sign| && (forall k :: 0 <= k < n ==> 0 <= position[k] < |s|) && Distinct(position)
    ensures SquareSum(Pulsed(s, position, sign, gf, n)) == n * (gf * gf) + 2 * gf * Inter(s, position, sign, n)
            + SquareSum(s)
  {
    hide Signed, SquareSum;
    if n > 0 {
      PulsedEnergy(s, position, sign, gf, n - 1);
      var r := Pulsed(s, position, sign, gf, n - 1);
      PulsedElsewhere(s, position, sign, gf, n - 1, position[n - 1]);
      EnergyOfUpdate(r, position[n - 1], Signed(sign[n - 1], gf));
      PulseStep(n, gf, Inter(s, position, sign, n - 1), sign[n - 1], s[position[n - 1]]);
    }
  }

  lemma PulseStep(n: int, gf: int, inter: int, sign: int, x: int)
    ensures (n - 1) * (gf * gf) + 2 * gf * inter + 2 * Signed(sign, gf) * x + Signed(sign, gf) * Signed(sign, gf)
         == n * (gf * gf) + 2 * gf * (inter + Signed(sign, x))
  {
  }

  /** Samples as a 16-bit buffer keeps them. */
  function Stored(s: seq<int>): (r: seq<int>)
    ensures |r| == |s|
  {
    seq(|s|, i requires 0 <= i < |s| => Cast16(s[i]))
  }

  ghost predicate Words(s: seq<int>) {
    forall i :: 0 <= i < |s| ==> Fits16(s[i])
  }

  method AddPulses(excitationVector: array<int>, subframeIndex: nat, position: seq<int>, sign: seq<int>, gf: int)
    requires |position| == |sign| == 4 && subframeIndex + L_SUBFRAME <= excitationVector.Length
    requires (forall k :: 0 <= k < 4 ==> 0 <= position[k] < L_SUBFRAME) && Distinct(position)
    requires Words(excitationVector[subframeIndex..subframeIndex + L_SUBFRAME])
    modifies excitationVector
    ensures excitationVector[subframeIndex..subframeIndex + L_SUBFRAME]
         == Stored(Pulsed(old(excitationVector[subframeIndex..subframeIndex + L_SUBFRAME]), position, sign, gf, 4))
    ensures excitationVector[..subframeIndex] == old(excitationVector[..subframeIndex])
    ensures excitationVector[subframeIndex + L_SUBFRAME..] == old(excitationVector[subframeIndex + L_SUBFRAME..])
  {
    ghost var s := excitationVector[subframeIndex..subframeIndex + L_SUBFRAME];
    StoredWords(s);
    hide Cast16, Signed, Pulsed, Stored, Words, Distinct;
    NothingPulsed(s, position, sign, gf);
    var i := 0;
    while i < 4
      invariant 0 <= i <= 4
      invariant excitationVector[subframeIndex..subframeIndex + L_SUBFRAME] == Stored(Pulsed(s, position, sign, gf, i))
      invariant excitationVector[..subframeIndex] == old(excitationVector[..subframeIndex])
      invariant excitationVector[subframeIndex + L_SUBFRAME..] == old(excitationVector[subframeIndex + L_SUBFRAME..])
    {
      var at := position[i] + subframeIndex;
      NotYetPulsed(s, position, sign, gf, i);
      assert excitationVector[at] == Stored(Pulsed(s, position, sign, gf, i))[position[i]];
      OnePulseMore(s, position, sign, gf, i);
      if sign[i] == 0 {
        excitationVector[at] := Cast16(excitationVector[at] - gf);
      } else {
        excitationVector[at] := Cast16(excitationVector[at] + gf);
      }
      i := i + 1;
    }
  }

  lemma StoredWords(s: seq<int>)
    requires Words(s)
    ensures Stored(s) == s
  {
  }

  lemma NothingPulsed(s: seq<int>, position: seq<int>, sign: seq<int>, gf: int)
    requires |position| == |sign|
    ensures Pulsed(s, position, sign, gf, 0) == s
  {
  }

  lemma NotYetPulsed(s: seq<int>, position: seq<int>, sign: seq<int>, gf: int, n: nat)
    requires n < |position| == |sign| && (forall k :: 0 <= k <= n ==> 0 <= position[k] < |s|) && Distinct(position)
    requires Words(s)
    ensures Pulsed(s, position, sign, gf, n)[position[n]] == s[position[n]]
    ensures Stored(Pulsed(s, position, sign, gf, n))[position[n]] == s[position[n]]
  {
    hide Signed, Pulsed;
    PulsedElsewhere(s, position, sign, gf, n, position[n]);
  }

  lemma OnePulseMore(s: seq<int>, position: seq<int>, sign: seq<int>, gf: int, n: nat)
    requires n < |position| == |sign| && (forall k :: 0 <= k <= n ==> 0 <= position[k] < |s|)
    requires Pulsed(s, position, sign, gf, n)[position[n]] == s[position[n]]
    ensures Stored(Pulsed(s, position, sign, gf, n + 1))
         == Stored(Pulsed(s, position, sign, gf, n))[position[n] := Cast16(if sign[n] == 0 then s[position[n]] - gf
                                                                           else s[position[n]] + gf)]
  {
    hide Cast16;
  }

  /** In exact arithmetic either root of the quadratic gives the subframe the target energy, and the code's rule
      picks the smaller pulse. */
  lemma RootsReachTarget(ea: real, ei: real, k: real, root: real)
    requires root >= 0.0 && root * root == ei * ei + 4.0 * (k - ea)
    ensures var x1 := (root - ei) / 4.0;
            var x2 := (-root - ei) / 4.0;
            && 4.0 * (x1 * x1) + 2.0 * x1 * ei + ea == k && 4.0 * (x2 * x2) + 2.0 * x2 * ei + ea == k
            && (x2 * x2 < x1 * x1 <==> ei < 0.0 < root)
  {
    var x1 := (root - ei) / 4.0;
    var x2 := (-root - ei) / 4.0;
    RootOf(root, ei, x1);
    RootOf(-root, ei, x2);
    assert 2.0 * x1 * ei == 2.0 * (x1 * ei) && 2.0 * x2 * ei == 2.0 * (x2 * ei);
    SquaresApart(x1, x2, root / 2.0, -ei / 2.0);
    Halves(root, ei);
  }

  /** A root of the quadratic, whose linear term is b and a quarter of whose discriminant is the square of root. */
  lemma RootOf(root: real, b: real, x: real)
    requires x == (root - b) / 4.0
    ensures 4.0 * (x * x) + 2.0 * (x * b) == (root * root - b * b) / 4.0
  {
    assert root == 4.0 * x + b;
    Binomial(4.0 * x, b, root);
    assert 4.0 * x * (4.0 * x) == 16.0 * (x * x) && 4.0 * x * b == 4.0 * (x * b);
  }

  lemma Binomial(u: real, v: real, w: real)
    requires w == u + v
    ensures w * w == u * u + 2.0 * (u * v) + v * v
  {
  }

  lemma SquaresApart(x: real, y: real, d: real, e: real)
    requires x - y == d && x + y == e
    ensures x * x - y * y == d * e
  {
    assert (x - y) * (x + y) == x * x - y * y;
  }

  lemma Halves(root: real, ei: real)
    requires root >= 0.0
    ensures root / 2.0 * (-ei / 2.0) > 0.0 <==> ei < 0.0 < root
  {
    var u, v := root / 2.0, -ei / 2.0;
    if u == 0.0 || v == 0.0 {
      assert u * v == 0.0;
    } else if v > 0.0 {
      assert u * v > 0.0;
    } else {
      assert u * -v > 0.0 && u * -v == -(u * v);
    }
  }

  /** The target energy in Q3 is exactly that of forty samples at the gain, which is in Q3 too. */
  lemma TargetEnergy(targetGain: int)
    ensures 8 * (targetGain * Shr(L_SUBFRAME * targetGain, 3)) == L_SUBFRAME * (targetGain * targetGain)
  {
    assert Pow2(3) == 8;
    assert Shr(L_SUBFRAME * targetGain, 3) == 5 * targetGain;
    assert targetGain * (5 * targetGain) == 5 * (targetGain * targetGain);
  }

  // ---- Gain smoothing, eq B.19

  function Smoothed(smoothed: int, received: int): int {
    smoothed - Shr(smoothed, 3) + Shr(received, 3)
  }

  function SmoothedRun(smoothed: int, received: int, n: nat): int {
    if n == 0 then smoothed else Smoothed(SmoothedRun(smoothed, received, n - 1), received)
  }

  function Distance(x: int, y: int): nat {
    if x < y then y - x else x - y
  }

  /** One step moves towards the received gain, never past it, and stands still exactly when the eighths agree. */
  lemma SmoothingStep(s: int, g: int)
    ensures var t := Smoothed(s, g);
            && (Shr(s, 3) < Shr(g, 3) ==> s < t && Shr(t, 3) <= Shr(g, 3))
            && (Shr(s, 3) > Shr(g, 3) ==> t < s && Shr(t, 3) >= Shr(g, 3))
            && (t == s <==> Shr(s, 3) == Shr(g, 3))
            && (s >= 0 && g >= 0 ==> 0 <= t <= if s < g then g else s)
  {
    assert Pow2(3) == 8;
  }

  /** eq B.19: a step covers an eighth of the way, up to a unit. */
  lemma SmoothingIsEighth(s: int, g: int)
    ensures -7 <= 8 * (Smoothed(s, g) - s) - (g - s) <= 7
  {
    assert Pow2(3) == 8;
  }

  lemma SmoothingApproaches(s: int, g: int)
    requires Shr(s, 3) != Shr(g, 3)
    ensures Distance(Smoothed(s, g), 8 * Shr(g, 3)) < Distance(s, 8 * Shr(g, 3))
  {
    assert Pow2(3) == 8;
  }

  lemma {:induction false} SmoothingMonotone(s: int, g: int, n: nat)
    ensures var r := SmoothedRun(s, g, n);
            && (Shr(s, 3) <= Shr(g, 3) ==> s <= r <= SmoothedRun(s, g, n + 1) && Shr(r, 3) <= Shr(g, 3))
            && (Shr(s, 3) >= Shr(g, 3) ==> s >= r >= SmoothedRun(s, g, n + 1) && Shr(r, 3) >= Shr(g, 3))
            && (Shr(r, 3) == Shr(g, 3) || Distance(r, 8 * Shr(g, 3)) + n <= Distance(s, 8 * Shr(g, 3)))
  {
    if n > 0 {
      SmoothingMonotone(s, g, n - 1);
      var q := SmoothedRun(s, g, n - 1);
      hide Shr, Smoothed, Distance;
      SmoothingStep(q, g);
      if Shr(q, 3) != Shr(g, 3) {
        SmoothingApproaches(q, g);
      }
    }
    SmoothingStep(SmoothedRun(s, g, n), g);
    hide Shr, Smoothed;
  }

  /** Under a constant gain the smoothed gain reaches it, to an eighth, in finitely many frames and stays. */
  lemma SmoothingSettles(s: int, g: int, n: nat)
    requires n > Distance(s, 8 * Shr(g, 3))
    ensures Shr(SmoothedRun(s, g, n), 3) == Shr(g, 3) && SmoothedRun(s, g, n + 1) == SmoothedRun(s, g, n)
  {
    SmoothingMonotone(s, g, n);
    SmoothingStep(SmoothedRun(s, g, n), g);
    hide Shr, Smoothed;
  }
}
