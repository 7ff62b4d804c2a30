/** Normalisation, preselection and exhaustive search of gainQuantization.c, with the tables of codebooks.c. */
module GainSearch {
  import opened FixedPoint
  import opened SumConversion
  import I = IntSums
  import R = RealSums
  import GainOptimum

  /** Adaptive gain in Q14 and correction factor of the fixed gain in Q12. */
  const GA: seq<(int, int)> := [(0, 758), (1551, 1213), (1831, 2511), (57, 2702), (1921, 4646), (3242, 4975),
                                (356, 7378), (2678, 13581)]
  const GB: seq<(int, int)> := [(826, 1003), (1994, 0), (5142, 296), (6160, 1197), (8091, 2431), (9120, 263),
                                (10573, 1483), (11569, 598), (13260, 1628), (14194, 815), (15132, 2457), (15161, 7138),
                                (15434, 119), (16112, 1696), (17299, 931), (18973, 2968)]
  const INDEX_MAPPING_GA := [5, 1, 4, 7, 3, 0, 6, 2]
  const INDEX_MAPPING_GB := [4, 6, 0, 2, 12, 14, 8, 10, 15, 11, 9, 13, 7, 3, 1, 5]
  const REVERSE_INDEX_MAPPING_GA := [5, 1, 7, 4, 2, 0, 6, 3]
  const REVERSE_INDEX_MAPPING_GB := [2, 14, 3, 13, 0, 15, 1, 12, 6, 10, 7, 9, 4, 11, 5, 8]

  /** The transmitted code of a gain index is undone by the decoder's table, and the other way round. */
  lemma MappingsInverse(i: int)
    ensures 0 <= i < 8 ==> 0 <= INDEX_MAPPING_GA[i] < 8 && REVERSE_INDEX_MAPPING_GA[INDEX_MAPPING_GA[i]] == i
    ensures 0 <= i < 8 ==> 0 <= REVERSE_INDEX_MAPPING_GA[i] < 8 && INDEX_MAPPING_GA[REVERSE_INDEX_MAPPING_GA[i]] == i
    ensures 0 <= i < 16 ==> 0 <= INDEX_MAPPING_GB[i] < 16 && REVERSE_INDEX_MAPPING_GB[INDEX_MAPPING_GB[i]] == i
    ensures 0 <= i < 16 ==> 0 <= REVERSE_INDEX_MAPPING_GB[i] < 16 && INDEX_MAPPING_GB[REVERSE_INDEX_MAPPING_GB[i]] == i
  {
  }

  /** Quantised adaptive gain, correction factor and fixed gain in Q2 of a pair of indices. */
  function AdaptiveGain(a: int, b: int): int
    requires 0 <= a < 8 && 0 <= b < 16
  {
    GA[a].0 + GB[b].0
  }

  function Correction(a: int, b: int): int
    requires 0 <= a < 8 && 0 <= b < 16
  {
    GA[a].1 + GB[b].1
  }

  function FixedGain(a: int, b: int, predicted: int): int
    requires 0 <= a < 8 && 0 <= b < 16
  {
    Shr(Correction(a, b) * predicted, 14)
  }

  /** The five correlations of eq 63 in the integer format of the search. */
  datatype Terms = Terms(xy: int, yy: int, xz: int, yz: int, zz: int)

  /** eq 63 without its first term, in Q28; gp in Q14, gc in Q2. */
  function Distance(t: Terms, gp: int, gc: int): int {
    gp * gp * t.yy + gc * gc * t.zz + gp * 16384 * (-2 * t.xy) + gc * 16384 * (-2 * t.xz) + gp * gc * (2 * t.yz)
  }

  function PairDistance(t: Terms, predicted: int, a: int, b: int): int
    requires 0 <= a < 8 && 0 <= b < 16
  {
    Distance(t, AdaptiveGain(a, b), FixedGain(a, b, predicted))
  }

  /** The first index, at most limit, whose threshold reaches the best gain. */
  ghost predicate FirstReaching(best: int, threshold: int -> int, limit: int, index: int) {
    0 <= index <= limit && (forall k :: 0 <= k < index ==> best > threshold(k))
      && (index < limit ==> best <= threshold(index))
  }

  function GaThreshold(predicted: int, k: int): int {
    if 0 <= k < 8 then Shr(GA[k].1 * predicted, 14) else 0
  }

  function GbThreshold(k: int): int {
    if 0 <= k < 16 then Shr(GB[k].0, 5) else 0
  }

  function BackOff(index: int, steps: int): int {
    if index < steps then 0 else index - steps
  }

  /** The preselection windows: four indices of the first codebook, eight of the second, always inside. */
  method Preselect(bestFixedGain: int, bestAdaptiveGain: int, predicted: int)
    returns (baseGa: int, baseGb: int, ghost firstGa: int, ghost firstGb: int)
    ensures FirstReaching(bestFixedGain, k => GaThreshold(predicted, k), 6, firstGa) && baseGa == BackOff(firstGa, 2)
    ensures FirstReaching(bestAdaptiveGain, k => GbThreshold(k), 12, firstGb) && baseGb == BackOff(firstGb, 4)
    ensures 0 <= baseGa && baseGa + 4 <= 8 && 0 <= baseGb && baseGb + 8 <= 16
  {
    hide Shr;
    baseGa := 0;
    while baseGa < 6 && bestFixedGain > Shr(GA[baseGa].1 * predicted, 14)
      invariant 0 <= baseGa <= 6
      invariant forall k :: 0 <= k < baseGa ==> bestFixedGain > GaThreshold(predicted, k)
    {
      assert GaThreshold(predicted, baseGa) == Shr(GA[baseGa].1 * predicted, 14);
      baseGa := baseGa + 1;
    }
    firstGa := baseGa;
    assert baseGa < 6 ==> GaThreshold(predicted, baseGa) == Shr(GA[baseGa].1 * predicted, 14);
    if baseGa > 0 { baseGa := baseGa - 1; }
    if baseGa > 0 { baseGa := baseGa - 1; }
    baseGb := 0;
    while baseGb < 12 && bestAdaptiveGain > Shr(GB[baseGb].0, 5)
      invariant 0 <= baseGb <= 12
      invariant forall k :: 0 <= k < baseGb ==> bestAdaptiveGain > GbThreshold(k)
    {
      baseGb := baseGb + 1;
    }
    firstGb := baseGb;
    if baseGb > 0 { baseGb := baseGb - 1; }
    if baseGb > 0 { baseGb := baseGb - 1; }
    if baseGb > 0 { baseGb := baseGb - 1; }
    if baseGb > 0 { baseGb := baseGb - 1; }
  }

  /** The ranges the normalisation leaves: doubled terms still fit 32 bits. */
  predicate Normalised(t: Terms) {
    && -0x40000000 <= t.xy <= 0x40000000 && -0x40000000 <= t.xz <= 0x40000000 && -0x40000000 <= t.yz <= 0x40000000
    && 0 <= t.yy <= MAXINT32 && 0 <= t.zz <= MAXINT32
  }

  lemma ProductBetween(x: int, y: int, mx: int, my: int)
    requires 0 <= x <= mx && -my <= y <= my
    ensures -(mx * my) <= x * y <= mx * my
  {
    MultiplyMonotone(y, my, x);
    MultiplyMonotone(-my, y, x);
    MultiplyMonotone(x, mx, my);
    assert -my * x == -(x * my);
  }

  /** Gains of the codebooks are small enough for the 64-bit accumulator. */
  lemma GainRanges(predicted: int, a: int, b: int)
    requires 0 <= a < 8 && 0 <= b < 16 && 0 <= predicted <= MAXINT16
    ensures 0 <= AdaptiveGain(a, b) <= 22215
    ensures 0 <= FixedGain(a, b, predicted) <= 41436
  {
    assert 0 <= Correction(a, b) <= 20719;
    ProductBetween(Correction(a, b), predicted, 20719, 32767);
    assert Correction(a, b) * predicted >= 0 by { MultiplyMonotone(0, predicted, Correction(a, b)); }
    assert Pow2(14) == 16384 by { assert Pow2(4) == 16 && Pow2(9) == 512; }
  }

  /** No distance of the window overflows 64 bits, nor reaches the starting value of the running minimum. */
  lemma DistanceFits(t: Terms, predicted: int, a: int, b: int)
    requires Normalised(t) && 0 <= a < 8 && 0 <= b < 16 && 0 <= predicted <= MAXINT16
    ensures -0x7fffffffffffffff < PairDistance(t, predicted, a, b) < 0x7fffffffffffffff
  {
    hide FixedGain, AdaptiveGain;
    GainRanges(predicted, a, b);
    var gp, gc := AdaptiveGain(a, b), FixedGain(a, b, predicted);
    ProductBetween(gp, gp, 22215, 22215);
    ProductBetween(gc, gc, 41436, 41436);
    ProductBetween(gp, gc, 22215, 41436);
    assert gp * gp >= 0 && gc * gc >= 0 && gp * gc >= 0
           by { MultiplyMonotone(0, gp, gc); MultiplyMonotone(0, gp, gp); MultiplyMonotone(0, gc, gc); }
    ProductBetween(gp * gp, t.yy, 22215 * 22215, 0x7fffffff);
    ProductBetween(gc * gc, t.zz, 41436 * 41436, 0x7fffffff);
    ProductBetween(gp * 16384, -2 * t.xy, 22215 * 16384, 0x80000000);
    ProductBetween(gc * 16384, -2 * t.xz, 41436 * 16384, 0x80000000);
    ProductBetween(gp * gc, 2 * t.yz, 22215 * 41436, 0x80000000);
  }

  /** All 32 pairs of the window are tried; the first of the best is kept. */
  method SearchGains(t: Terms, predicted: int, baseGa: int, baseGb: int)
    returns (indexGa: int, indexGb: int, gp: int, gc: int)
    requires Normalised(t) && 0 <= predicted <= MAXINT16
    requires 0 <= baseGa && baseGa + 4 <= 8 && 0 <= baseGb && baseGb + 8 <= 16
    ensures baseGa <= indexGa < baseGa + 4 && baseGb <= indexGb < baseGb + 8
    ensures forall a, b :: InWindow(baseGa, baseGb, a, b) ==>
                             PairDistance(t, predicted, indexGa, indexGb) <= PairDistance(t, predicted, a, b)
    ensures EarlierFarther(t, predicted, baseGa, baseGb, indexGa, indexGb)
    ensures gp == AdaptiveGain(indexGa, indexGb) && gc == Shr(FixedGain(indexGa, indexGb, predicted), 1)
  {
    hide PairDistance, FixedGain, AdaptiveGain, Shr, Tried, Best, EarlierFarther;
    var distanceMin := 0x7fffffffffffffff;
    indexGa, indexGb, gp, gc := 0, 0, 0, 0;
    NoneTried(t, predicted, baseGa, baseGb, distanceMin);
    var i := 0;
    while i < 4
      invariant 0 <= i <= 4
      invariant i > 0 ==> Best(t, predicted, baseGa, baseGb, indexGa, indexGb, gp, gc, distanceMin)
      invariant i == 0 ==> distanceMin == 0x7fffffffffffffff
      invariant Tried(t, predicted, baseGa, baseGb, i, 0, distanceMin)
    {
      var j := 0;
      while j < 8
        invariant 0 <= j <= 8
        invariant i + j > 0 ==> Best(t, predicted, baseGa, baseGb, indexGa, indexGb, gp, gc, distanceMin)
        invariant i + j == 0 ==> distanceMin == 0x7fffffffffffffff
        invariant Tried(t, predicted, baseGa, baseGb, i, j, distanceMin)
      {
        var currentGp := GA[i + baseGa].0 + GB[j + baseGb].0;
        var gamma := GA[i + baseGa].1 + GB[j + baseGb].1;
        var currentGc := Shr(gamma * predicted, 14);
        var acc := currentGp * currentGp * t.yy;
        acc := acc + currentGc * currentGc * t.zz;
        acc := acc + currentGp * 16384 * (-2 * t.xy);
        acc := acc + currentGc * 16384 * (-2 * t.xz);
        acc := acc + currentGp * currentGc * (2 * t.yz);
        Accumulated(t, predicted, i + baseGa, j + baseGb, currentGp, currentGc, acc);
        DistanceFits(t, predicted, i + baseGa, j + baseGb);
        NextTried(t, predicted, baseGa, baseGb, i, j, distanceMin, acc, currentGp, currentGc);
        if acc < distanceMin {
          distanceMin := acc;
          indexGa, indexGb := i + baseGa, j + baseGb;
          gp, gc := currentGp, Shr(currentGc, 1);
        }
        j := j + 1;
      }
      RowTried(t, predicted, baseGa, baseGb, i, distanceMin);
      i := i + 1;
    }
    BestOfAll(t, predicted, baseGa, baseGb, indexGa, indexGb, gp, gc, distanceMin);
  }

  lemma NoneTried(t: Terms, predicted: int, baseGa: int, baseGb: int, distance: int)
    requires 0 <= baseGa && baseGa + 4 <= 8 && 0 <= baseGb && baseGb + 8 <= 16
    ensures Tried(t, predicted, baseGa, baseGb, 0, 0, distance)
  {
    hide PairDistance;
  }

  lemma RowTried(t: Terms, predicted: int, baseGa: int, baseGb: int, i: int, distance: int)
    requires 0 <= baseGa && baseGa + 4 <= 8 && 0 <= baseGb && baseGb + 8 <= 16
    requires Tried(t, predicted, baseGa, baseGb, i, 8, distance)
    ensures Tried(t, predicted, baseGa, baseGb, i + 1, 0, distance)
  {
    hide PairDistance;
  }

  /** One comparison: a pair strictly closer than all before it is the first of the best. */
  lemma NextTried(t: Terms, predicted: int, baseGa: int, baseGb: int, i: int, j: int, distance: int, acc: int, gp: int,
                  gc: int)
    requires 0 <= baseGa && baseGa + 4 <= 8 && 0 <= baseGb && baseGb + 8 <= 16 && 0 <= i < 4 && 0 <= j < 8
    requires Tried(t, predicted, baseGa, baseGb, i, j, distance)
    requires acc == PairDistance(t, predicted, i + baseGa, j + baseGb)
    requires gp == AdaptiveGain(i + baseGa, j + baseGb) && gc == FixedGain(i + baseGa, j + baseGb, predicted)
    ensures Tried(t, predicted, baseGa, baseGb, i, j + 1, if acc < distance then acc else distance)
    ensures acc < distance ==> Best(t, predicted, baseGa, baseGb, i + baseGa, j + baseGb, gp, Shr(gc, 1), acc)
  {
    hide PairDistance, FixedGain, AdaptiveGain, Shr;
  }

  lemma BestOfAll(t: Terms, predicted: int, baseGa: int, baseGb: int, a: int, b: int, gp: int, gc: int, distance: int)
    requires 0 <= baseGa && baseGa + 4 <= 8 && 0 <= baseGb && baseGb + 8 <= 16
    requires Best(t, predicted, baseGa, baseGb, a, b, gp, gc, distance)
             && Tried(t, predicted, baseGa, baseGb, 4, 0, distance)
    ensures InWindow(baseGa, baseGb, a, b) && EarlierFarther(t, predicted, baseGa, baseGb, a, b)
    ensures gp == AdaptiveGain(a, b) && gc == Shr(FixedGain(a, b, predicted), 1)
    ensures forall x, y :: InWindow(baseGa, baseGb, x, y) ==>
            PairDistance(t, predicted, a, b) <= PairDistance(t, predicted, x, y)
  {
    hide PairDistance, FixedGain, AdaptiveGain, Shr, EarlierFarther;
  }

  lemma Accumulated(t: Terms, predicted: int, a: int, b: int, gp: int, gc: int, acc: int)
    requires 0 <= a < 8 && 0 <= b < 16
    requires gp == GA[a].0 + GB[b].0 && gc == Shr((GA[a].1 + GB[b].1) * predicted, 14)
    requires acc == gp * gp * t.yy + gc * gc * t.zz + gp * 16384 * (-2 * t.xy) + gc * 16384 * (-2 * t.xz)
             + gp * gc * (2 * t.yz)
    ensures gp == AdaptiveGain(a, b) && gc == FixedGain(a, b, predicted) && acc == PairDistance(t, predicted, a, b)
  {
    hide Shr;
  }

  /** No pair before (i, j) in the window is closer than distance. */
  ghost predicate Tried(t: Terms, predicted: int, baseGa: int, baseGb: int, i: int, j: int, distance: int)
    requires 0 <= baseGa && baseGa + 4 <= 8 && 0 <= baseGb && baseGb + 8 <= 16
  {
    forall a, b :: InWindow(baseGa, baseGb, a, b) && (a < baseGa + i || (a == baseGa + i && b < baseGb + j)) ==>
                     distance <= PairDistance(t, predicted, a, b)
  }

  /** Every earlier pair of the window is strictly farther. */
  ghost predicate EarlierFarther(t: Terms, predicted: int, baseGa: int, baseGb: int, a: int, b: int)
    requires 0 <= baseGa && baseGa + 4 <= 8 && 0 <= baseGb && baseGb + 8 <= 16 && InWindow(baseGa, baseGb, a, b)
  {
    forall x, y :: InWindow(baseGa, baseGb, x, y) && (x < a || (x == a && y < b)) ==>
                     PairDistance(t, predicted, a, b) < PairDistance(t, predicted, x, y)
  }

  predicate InWindow(baseGa: int, baseGb: int, a: int, b: int) {
    baseGa <= a < baseGa + 4 && baseGb <= b < baseGb + 8
  }

  ghost predicate Best(t: Terms, predicted: int, baseGa: int, baseGb: int, a: int, b: int, gp: int, gc: int,
                       distance: int)
    requires 0 <= baseGa && baseGa + 4 <= 8 && 0 <= baseGb && baseGb + 8 <= 16
  {
    && InWindow(baseGa, baseGb, a, b)
    && distance == PairDistance(t, predicted, a, b)
    && EarlierFarther(t, predicted, baseGa, baseGb, a, b)
    && gp == AdaptiveGain(a, b) && gc == Shr(FixedGain(a, b, predicted), 1)
  }

  /** The integer distance is eq 63 in Q28 less its constant term, so the search minimises the error itself. */
  lemma DistanceIsScaledError(t: Terms, gp: int, gc: int, xx: real)
    ensures var q := GainOptimum.Terms(xx, t.xy as real, t.yy as real, t.xz as real / 4096.0,
                                       t.yz as real / 4096.0, t.zz as real / 16777216.0);
            Distance(t, gp, gc) as real
            == 268435456.0 * (GainOptimum.Quadratic(q, gp as real / 16384.0, gc as real / 4.0) - xx)
  {
    var p, g := gp as real / 16384.0, gc as real / 4.0;
    assert gp as real == 16384.0 * p && gc as real == 4.0 * g;
    var yz, xz, zz := t.yz as real / 4096.0, t.xz as real / 4096.0, t.zz as real / 16777216.0;
    assert (gp * gp * t.yy) as real == 268435456.0 * (p * p * t.yy as real) by { Real3(gp, gp, t.yy); }
    assert (gc * gc * t.zz) as real == 268435456.0 * (g * g * zz) by { Real3(gc, gc, t.zz); }
    assert (gp * 16384 * (-2 * t.xy)) as real == -2.0 * (268435456.0 * (p * t.xy as real)) by { Real2(gp, t.xy); }
    assert (gc * 16384 * (-2 * t.xz)) as real == -2.0 * (268435456.0 * (g * xz)) by { Real2(gc, t.xz); }
    assert (gp * gc * (2 * t.yz)) as real == 2.0 * (268435456.0 * (p * g * yz)) by { Real3(gp, gc, t.yz); }
  }

  lemma Real3(x: int, y: int, z: int)
    ensures (x * y * z) as real == x as real * y as real * z as real
    ensures x * y * (2 * z) == 2 * (x * y * z)
  {
    Real2(x, y);
    Real2(x * y, z);
  }

  lemma Real2(x: int, y: int)
    ensures (x * y) as real == x as real * y as real
    ensures x * 16384 * (-2 * y) == -32768 * (x * y)
  {
  }

  function ShiftedTerms(xy64: int, yy64: int, xz64: int, yz64: int, zz64: int, shift: nat): Terms {
    Terms(Shr(xy64, shift), Shr(yy64, shift), Shr(xz64, shift), Shr(yz64, shift), Shr(zz64, shift))
  }

  /** A shift that suffices for the ranges of the search, while one less would not. */
  predicate LeastShift(xy64: int, yy64: int, xz64: int, yz64: int, zz64: int, shift: nat) {
    && Normalised(ShiftedTerms(xy64, yy64, xz64, yz64, zz64, shift))
    && (shift > 0 ==> || TooWide(xy64, 30, shift - 1) || TooWide(xz64, 30, shift - 1) || TooWide(yz64, 30, shift - 1)
                      || TooWide(yy64, 31, shift - 1) || TooWide(zz64, 31, shift - 1))
  }

  /** Sums that leave their upper bits free. */
  predicate SumsInRange(xy64: int, yy64: int, xz64: int, yz64: int, zz64: int) {
    && 0 <= yy64 < 0x1000000000000000 && 0 <= zz64 < 0x1000000000000000
    && Abs(xy64) < 0x1000000000000000 && Abs(xz64) < 0x1000000000000000 && Abs(yz64) < 0x1000000000000000
  }

  /** The shift that brings the five 64-bit sums within the ranges of the search. */
  method NormaliseTerms(xy64: int, yy64: int, xz64: int, yz64: int, zz64: int) returns (t: Terms, shift: nat)
    requires SumsInRange(xy64, yy64, xz64, yz64, zz64)
    ensures t == ShiftedTerms(xy64, yy64, xz64, yz64, zz64, shift) && Normalised(t)
    ensures LeastShift(xy64, yy64, xz64, yz64, zz64, shift)
  {
    hide Shr, LeadingZeros, HasZeros, Normalised, LeastShift;
    var n1 := ZerosOf(xy64, 30);
    var n2 := ZerosOf(xz64, 30);
    var n3 := ZerosOf(yz64, 30);
    var n4 := ZerosOf(yy64, 31);
    var n5 := ZerosOf(zz64, 31);
    var minNormalization := 31;
    if n1 < minNormalization { minNormalization := n1; }
    if n2 < minNormalization { minNormalization := n2; }
    if n3 < minNormalization { minNormalization := n3; }
    if n4 < minNormalization { minNormalization := n4; }
    if n5 < minNormalization { minNormalization := n5; }
    shift := 31 - minNormalization;
    t := Terms(Shr(xy64, shift), Shr(yy64, shift), Shr(xz64, shift), Shr(yz64, shift), Shr(zz64, shift));
    ShiftSuffices(xy64, yy64, xz64, yz64, zz64, n1, n2, n3, n4, n5, shift);
    ShiftIsLeast(xy64, yy64, xz64, yz64, zz64, n1, n2, n3, n4, n5, shift);
  }

  /** Number of zeros heading the upper bits of a sum. */
  predicate HasZeros(v: int, n: nat, zeros: nat)
    requires (n == 30 || n == 31) && Abs(v) < 0x1000000000000000
  {
    var top := ScaledMagnitude(v, n);
    && (top == 0 ==> zeros == 31)
    && (top > 0 ==> 0x40000000 <= top * Pow2(zeros) <= MAXINT32)
  }

  method ZerosOf(v: int, n: nat) returns (zeros: nat)
    requires (n == 30 || n == 31) && Abs(v) < 0x1000000000000000
    ensures HasZeros(v, n, zeros)
  {
    hide LeadingZeros, Pow2;
    zeros := CountLeadingZeros(ScaledMagnitude(v, n));
  }

  lemma ShiftSuffices(xy64: int, yy64: int, xz64: int, yz64: int, zz64: int,
                      n1: nat, n2: nat, n3: nat, n4: nat, n5: nat, shift: nat)
    requires SumsInRange(xy64, yy64, xz64, yz64, zz64) && shift <= 31
    requires HasZeros(xy64, 30, n1) && HasZeros(xz64, 30, n2) && HasZeros(yz64, 30, n3)
    requires HasZeros(yy64, 31, n4) && HasZeros(zz64, 31, n5)
    requires 31 - shift <= n1 && 31 - shift <= n2 && 31 - shift <= n3 && 31 - shift <= n4 && 31 - shift <= n5
    ensures Normalised(ShiftedTerms(xy64, yy64, xz64, yz64, zz64, shift))
  {
    hide Shr, Pow2, ScaledMagnitude;
    HighPowers();
    ShiftedFits(xy64, 30, n1, shift);
    ShiftedFits(xz64, 30, n2, shift);
    ShiftedFits(yz64, 30, n3, shift);
    ShiftedFits(yy64, 31, n4, shift);
    ShiftedFits(zz64, 31, n5, shift);
    ShiftNonNegative(yy64, shift);
    ShiftNonNegative(zz64, shift);
  }

  lemma ShiftIsLeast(xy64: int, yy64: int, xz64: int, yz64: int, zz64: int,
                     n1: nat, n2: nat, n3: nat, n4: nat, n5: nat, shift: nat)
    requires SumsInRange(xy64, yy64, xz64, yz64, zz64) && shift <= 31
    requires HasZeros(xy64, 30, n1) && HasZeros(xz64, 30, n2) && HasZeros(yz64, 30, n3)
    requires HasZeros(yy64, 31, n4) && HasZeros(zz64, 31, n5)
    requires Normalised(ShiftedTerms(xy64, yy64, xz64, yz64, zz64, shift))
    requires shift > 0 ==>
               31 - shift == n1 || 31 - shift == n2 || 31 - shift == n3 || 31 - shift == n4 || 31 - shift == n5
    ensures LeastShift(xy64, yy64, xz64, yz64, zz64, shift)
  {
    hide Normalised, HasZeros, TooWide;
    if shift > 0 {
      if 31 - shift == n1 { StillTooWide(xy64, 30, n1); }
      if 31 - shift == n2 { StillTooWide(xz64, 30, n2); }
      if 31 - shift == n3 { StillTooWide(yz64, 30, n3); }
      if 31 - shift == n4 { StillTooWide(yy64, 31, n4); }
      if 31 - shift == n5 { StillTooWide(zz64, 31, n5); }
    }
  }

  /** A sum whose shifted magnitude still needs more than n bits. */
  predicate TooWide(v: int, n: nat, shift: nat) {
    Abs(v) >= Pow2(n) * Pow2(shift)
  }

  lemma StillTooWide(v: int, n: nat, zeros: nat)
    requires (n == 30 || n == 31) && Abs(v) < 0x1000000000000000 && zeros < 31 && HasZeros(v, n, zeros)
    ensures TooWide(v, n, 30 - zeros)
  {
    hide Pow2, ScaledMagnitude, TooWide;
    TopAtLeast(ScaledMagnitude(v, n), zeros);
    TopReaches(v, n, Pow2(30 - zeros));
    TooWideIs(v, n, 30 - zeros);
  }

  lemma TooWideIs(v: int, n: nat, shift: nat)
    requires Abs(v) >= Pow2(n) * Pow2(shift)
    ensures TooWide(v, n, shift)
  {
    hide Pow2;
  }

  lemma TopAtLeast(top: int, zeros: nat)
    requires zeros < 31 && top > 0 && 0x40000000 <= top * Pow2(zeros)
    ensures top >= Pow2(30 - zeros)
  {
    hide Pow2;
    var q := Pow2(30 - zeros);
    HighPowers();
    Pow2Sum(30 - zeros, zeros);
    if top < q {
      MultiplyMonotone(top + 1, q, Pow2(zeros));
      assert false;
    }
  }

  lemma TopReaches(v: int, n: nat, q: int)
    requires (n == 30 || n == 31) && Abs(v) < 0x1000000000000000 && ScaledMagnitude(v, n) >= q
    ensures Abs(v) >= Pow2(n) * q
  {
    hide Pow2;
    ShiftBounds(Abs(v), n);
    MultiplyMonotone(q, ScaledMagnitude(v, n), Pow2(n));
  }

  lemma ShiftNonNegative(v: int, n: nat)
    requires v >= 0
    ensures Shr(v, n) >= 0
  {
    hide Pow2;
    QuotientAbove(v, Pow2(n), 0);
  }

  /** Abs of a 64-bit sum above its lower bits. */
  function ScaledMagnitude(v: int, n: nat): (m: int)
    requires (n == 30 || n == 31) && Abs(v) < 0x1000000000000000
    ensures 0 <= m <= MAXINT32
  {
    HighPowers();
    ShiftBounds(Abs(v), n);
    SmallQuotient(Abs(v), n);
    Shr(Abs(v), n)
  }

  lemma SmallQuotient(v: int, n: nat)
    requires 0 <= v < 0x1000000000000000 && Pow2(n) >= 0x40000000
    ensures 0 <= Shr(v, n) <= MAXINT32
  {
    hide Pow2;
    MultiplyMonotone(0x40000000, Pow2(n), 0x40000000);
    assert v < 0x40000000 * Pow2(n);
    QuotientBelow(v, Pow2(n), 0x40000000);
    QuotientAbove(v, Pow2(n), 0);
  }

  /** With as many zeros in front as the shift leaves, the shifted value keeps n bits. */
  lemma ShiftedFits(v: int, n: nat, zeros: nat, shift: nat)
    requires (n == 30 || n == 31) && Abs(v) < 0x1000000000000000
    requires shift <= 31 && 31 - shift <= zeros
    requires HasZeros(v, n, zeros)
    ensures 0 - Pow2(n) <= Shr(v, shift) < Pow2(n)
  {
    hide Pow2;
    var m := Abs(v);
    var top := ScaledMagnitude(v, n);
    TopBelow(top, zeros, shift);
    TopIs(v, n);
    TopBounds(m, top, Pow2(n), Pow2(shift));
    hide ScaledMagnitude;
    SymmetricQuotient(v, Pow2(shift), Pow2(n));
  }

  lemma TopIs(v: int, n: nat)
    requires (n == 30 || n == 31) && Abs(v) < 0x1000000000000000
    ensures Abs(v) < ScaledMagnitude(v, n) * Pow2(n) + Pow2(n)
  {
    hide Pow2;
    HighPowers();
    ShiftBounds(Abs(v), n);
  }

  lemma TopBounds(m: int, top: int, p: int, q: int)
    requires p > 0 && m < top * p + p && top + 1 <= q
    ensures m < q * p
  {
    MultiplyMonotone(top + 1, q, p);
  }

  lemma SymmetricQuotient(v: int, d: int, bound: int)
    requires d > 0 && Abs(v) < d * bound
    ensures 0 - bound <= v / d < bound
  {
    assert d * bound == bound * d && (0 - bound) * d == 0 - bound * d;
    QuotientBelow(v, d, bound);
    QuotientAbove(v, d, 0 - bound);
  }

  lemma TopBelow(top: int, zeros: nat, shift: nat)
    requires top >= 0 && shift <= 31 && 31 - shift <= zeros
    requires top > 0 ==> top * Pow2(zeros) <= MAXINT32
    ensures top < Pow2(shift)
  {
    if top >= Pow2(shift) {
      HighPowers();
      Pow2Sum(shift, 31 - shift);
      Pow2Monotone(31 - shift, zeros);
      MultiplyMonotone(Pow2(31 - shift), Pow2(zeros), Pow2(shift));
      MultiplyMonotone(Pow2(shift), top, Pow2(zeros));
      assert Pow2(31 - shift) * Pow2(shift) == Pow2(31);
      assert false;
    }
  }

  /** yy * zz - yz^2 after normalisation, which the code takes to be never negative. */
  function Denominator(t: Terms): int {
    t.yy * t.zz - t.yz * t.yz
  }

  /** It is so while nothing is shifted out: the three sums obey the Cauchy-Schwarz inequality. */
  lemma DenominatorUnshifted(y: seq<int>, z: seq<int>, n: nat, xy: int, xz: int)
    ensures var t := Terms(xy, Shr(Inner(y, y, n), 0), xz, Shr(Inner(y, z, n), 0), Shr(Inner(z, z, n), 0));
            Denominator(t) >= 0
  {
    IntegerCauchySchwarz(y, z, n);
  }

  /** The correlation sums as the code accumulates them. */
  function Inner(y: seq<int>, z: seq<int>, n: nat): int {
    I.Sum(n, i => I.At(y, i) * I.At(z, i))
  }

  lemma InnerAsReal(y: seq<int>, z: seq<int>, n: nat)
    ensures GainOptimum.Inner(AsReals(y), AsReals(z), n) == Inner(y, z, n) as real
  {
    var f := (i: int) => I.At(y, i) * I.At(z, i);
    var g := (i: int) => GainOptimum.Product(AsReals(y), AsReals(z), i);
    forall i
      ensures g(i) == f(i) as real
    {
      ProductAsReal(y, z, i);
    }
    SumAsReal(n, f, g);
  }

  lemma ProductAsReal(y: seq<int>, z: seq<int>, i: int)
    ensures GainOptimum.Product(AsReals(y), AsReals(z), i) == (I.At(y, i) * I.At(z, i)) as real
  {
    assert R.At(AsReals(y), i) == I.At(y, i) as real && R.At(AsReals(z), i) == I.At(z, i) as real;
    Real2(I.At(y, i), I.At(z, i));
  }

  lemma IntegerCauchySchwarz(y: seq<int>, z: seq<int>, n: nat)
    ensures Inner(y, z, n) * Inner(y, z, n) <= Inner(y, y, n) * Inner(z, z, n)
  {
    hide Inner, GainOptimum.Inner;
    GainOptimum.CauchySchwarz(AsReals(y), AsReals(z), n);
    InnerAsReal(y, z, n);
    InnerAsReal(y, y, n);
    InnerAsReal(z, z, n);
    Real2(Inner(y, z, n), Inner(y, z, n));
    Real2(Inner(y, y, n), Inner(z, z, n));
  }

  lemma {:induction false} InnerEnds(y: seq<int>, z: seq<int>, m: nat, n: nat)
    requires |y| <= m <= n
    ensures Inner(y, z, n) == Inner(y, z, m)
  {
    if n > m {
      InnerEnds(y, z, m, n - 1);
    }
  }

  lemma InnerOfThree(y: seq<int>, z: seq<int>, n: nat)
    requires |y| == |z| == 3 <= n
    ensures Inner(y, z, n) == y[0] * z[0] + y[1] * z[1] + y[2] * z[2]
  {
    InnerEnds(y, z, 3, n);
    var f := (i: int) => I.At(y, i) * I.At(z, i);
    assert I.Sum(3, f) == I.Sum(0, f) + f(0) + f(1) + f(2);
  }

  /** Three samples at full scale against their opposites: of their sums only the shift by two is the least. */
  lemma LeastShiftOfThree(v: int, shift: nat)
    requires v == 3 * 32767 * 32767
    ensures LeastShift(0, v, 0, -v, v, shift) <==> shift == 2
  {
    assert Pow2(1) == 2 && Pow2(2) == 4 && Pow2(0) == 1;
    HighPowers();
    if shift >= 3 {
      Pow2Monotone(2, shift - 1);
      assert Pow2(30) * Pow2(shift - 1) > v by { MultiplyMonotone(4, Pow2(shift - 1), Pow2(30)); }
      assert Pow2(31) * Pow2(shift - 1) > v by { MultiplyMonotone(4, Pow2(shift - 1), Pow2(31)); }
    }
  }

  /** It is not so in general: a subframe with three samples at full scale and its opposite, under the shift the sums
      get. */
  lemma DenominatorCanBeNegative(n: nat, shift: nat)
    requires n >= 3
    ensures var y, z := [32767, 32767, 32767], [-32767, -32767, -32767];
            var yy64, yz64, zz64 := Inner(y, y, n), Inner(y, z, n), Inner(z, z, n);
            && (LeastShift(0, yy64, 0, yz64, zz64, shift) <==> shift == 2)
            && Denominator(ShiftedTerms(0, yy64, 0, yz64, zz64, 2)) < 0
  {
    hide Inner, LeastShift;
    var y, z := [32767, 32767, 32767], [-32767, -32767, -32767];
    InnerOfThree(y, y, n);
    InnerOfThree(y, z, n);
    InnerOfThree(z, z, n);
    LeastShiftOfThree(3 * 32767 * 32767, shift);
    assert Pow2(2) == 4 by { assert Pow2(1) == 2; }
  }

  /** How far below zero rounding can take it, whatever the shift. */
  lemma DenominatorBound(yy64: int, yz64: int, zz64: int, xy: int, xz: int, shift: nat)
    requires 0 <= yy64 && 0 <= zz64 && yz64 * yz64 <= yy64 * zz64
    ensures var t := Terms(xy, Shr(yy64, shift), xz, Shr(yz64, shift), Shr(zz64, shift));
            Denominator(t) >= -(t.yy + t.zz + 2 * Abs(t.yz) + 1)
  {
    hide Pow2;
    ShiftBounds(yy64, shift);
    ShiftBounds(yz64, shift);
    ShiftBounds(zz64, shift);
    ShiftNonNegative(yy64, shift);
    ShiftNonNegative(zz64, shift);
    var slack := Shr(yy64, shift) + Shr(zz64, shift) + 2 * Abs(Shr(yz64, shift)) + 1;
    RoundedDeterminant(yy64, yz64, zz64, Shr(yy64, shift), Shr(yz64, shift), Shr(zz64, shift), Pow2(shift));
    AtLeastMultiple(Shr(yy64, shift) * Shr(zz64, shift) - Shr(yz64, shift) * Shr(yz64, shift) + slack, 0, Pow2(shift));
  }

  /** A margin that no shift can use up: the exact determinant of the 64-bit sums at least as large as the rounding
      may take. */
  lemma DenominatorNonNegative(yy64: int, yz64: int, zz64: int, xy: int, xz: int, shift: nat)
    requires 0 <= yy64 && 0 <= zz64
    requires var t := Terms(xy, Shr(yy64, shift), xz, Shr(yz64, shift), Shr(zz64, shift));
             yy64 * zz64 - yz64 * yz64 >= (t.yy + t.zz + 2 * Abs(t.yz) + 1) * (Pow2(shift) * Pow2(shift))
    ensures Denominator(Terms(xy, Shr(yy64, shift), xz, Shr(yz64, shift), Shr(zz64, shift))) >= 0
  {
    hide Pow2;
    ShiftBounds(yy64, shift);
    ShiftBounds(yz64, shift);
    ShiftBounds(zz64, shift);
    ShiftNonNegative(yy64, shift);
    ShiftNonNegative(zz64, shift);
    var slack := Shr(yy64, shift) + Shr(zz64, shift) + 2 * Abs(Shr(yz64, shift)) + 1;
    RoundedDeterminant(yy64, yz64, zz64, Shr(yy64, shift), Shr(yz64, shift), Shr(zz64, shift), Pow2(shift));
    AtLeastMultiple(Shr(yy64, shift) * Shr(zz64, shift) - Shr(yz64, shift) * Shr(yz64, shift) + slack, slack,
                    Pow2(shift));
  }

  lemma AtLeastMultiple(x: int, y: int, d: int)
    requires d >= 1 && x * (d * d) >= y * (d * d)
    ensures x >= y
  {
    MultiplyMonotone(1, d, d);
    CancelSquare(y, x, d * d);
  }

  /** The determinant of three rounded-down quotients against that of their dividends. */
  lemma RoundedDeterminant(a: int, b: int, c: int, yy: int, yz: int, zz: int, d: int)
    requires d >= 1 && 0 <= yy && 0 <= zz && 0 <= a && 0 <= c
    requires a < yy * d + d && c < zz * d + d && yz * d <= b < yz * d + d
    ensures (yy * zz - yz * yz + (yy + zz + 2 * Abs(yz) + 1)) * (d * d) >= a * c - b * b
  {
    var m := if yz >= 0 then yz else -(yz + 1);
    SquareBelow(m, b, yz, d);
    ProductAbove(a, c, yy, zz, d);
    var x := yy * zz - yz * yz + (yy + zz + 2 * Abs(yz) + 1);
    assert (yy + 1) * (zz + 1) == yy * zz + yy + zz + 1;
    assert yz * yz <= m * m + 2 * Abs(yz) by {
      assert (yz + 1) * (yz + 1) == yz * yz + 2 * yz + 1;
    }
    MultiplyMonotone((yy + 1) * (zz + 1) - m * m, x, d * d);
    assert ((yy + 1) * (zz + 1) - m * m) * (d * d) == (yy + 1) * (zz + 1) * (d * d) - m * m * (d * d);
  }

  lemma SquareBelow(m: int, b: int, yz: int, d: int)
    requires d >= 1 && yz * d <= b < yz * d + d && m == if yz >= 0 then yz else -(yz + 1)
    ensures m >= 0 && m * m * (d * d) <= b * b && d * d >= 1
  {
    var n := Abs(b);
    assert m * d <= n by {
      assert -(yz + 1) * d == -(yz * d + d);
      if yz >= 0 {
        MultiplyMonotone(0, yz, d);
      }
    }
    MultiplyMonotone(0, m, d);
    MultiplyMonotone(m * d, n, m * d);
    MultiplyMonotone(m * d, n, n);
    assert n * n == b * b;
    Regroup4(m, d);
    MultiplyMonotone(1, d, d);
  }

  lemma Regroup4(m: int, d: int)
    ensures m * d * (m * d) == m * m * (d * d)
  {
  }

  lemma ProductAbove(a: int, c: int, yy: int, zz: int, d: int)
    requires d >= 1 && 0 <= a < yy * d + d && 0 <= c < zz * d + d
    ensures a * c <= (yy + 1) * (zz + 1) * (d * d)
  {
    var x, y := yy * d + d, zz * d + d;
    MultiplyMonotone(a, x, c);
    MultiplyMonotone(c, y, x);
    assert x == (yy + 1) * d && y == (zz + 1) * d;
    Regroup2(yy + 1, zz + 1, d);
  }

  lemma Regroup2(m: int, n: int, d: int)
    ensures m * d * (n * d) == m * n * (d * d)
  {
  }

  lemma CancelSquare(x: int, y: int, d: int)
    requires d >= 1 && x * d <= y * d
    ensures x <= y
  {
  }
}
