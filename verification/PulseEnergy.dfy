/** The energy of a set of pulses read from the correlation matrix, against the energy of their filtered sum. */
module PulseEnergy {
  import opened CodecParameters
  import opened IntSums
  import opened FixedPoint
  import opened CorrelationMatrix

  /** Sample n of the signed pulses filtered by h. */
  function Response(h: seq<int>, sign: seq<int>, pulses: seq<int>, n: int): int {
    if |pulses| == 0 then 0
    else var m := pulses[|pulses| - 1];
         Response(h, sign, pulses[..|pulses| - 1], n) + At(sign, m) * At(h, n - m)
  }

  function Norm(h: seq<int>, sign: seq<int>, pulses: seq<int>): int {
    Sum(L_SUBFRAME, n => Squared(h, sign, pulses, n))
  }

  function Squared(h: seq<int>, sign: seq<int>, pulses: seq<int>, n: int): int {
    Response(h, sign, pulses, n) * Response(h, sign, pulses, n)
  }

  /** Elements of one pulse against all the earlier ones. */
  function Cross(h: seq<int>, sign: seq<int>, phiScaling: nat, pulses: seq<int>, m: int): int {
    if |pulses| == 0 then 0
    else Cross(h, sign, phiScaling, pulses[..|pulses| - 1], m)
         + Element(h, sign, phiScaling, pulses[|pulses| - 1], m)
  }

  /** eq 55 halved: diagonal elements plus one element for every pair of pulses. */
  function Energy(h: seq<int>, sign: seq<int>, phiScaling: nat, pulses: seq<int>): int {
    if |pulses| == 0 then 0
    else var m := pulses[|pulses| - 1];
         var rest := pulses[..|pulses| - 1];
         Energy(h, sign, phiScaling, rest) + Element(h, sign, phiScaling, m, m) + Cross(h, sign, phiScaling, rest, m)
  }

  ghost predicate Pulses(pulses: seq<int>) {
    && (forall i :: 0 <= i < |pulses| ==> 0 <= pulses[i] < L_SUBFRAME)
    && (forall i, j :: 0 <= i < j < |pulses| ==> pulses[i] != pulses[j])
  }

  /** Correlation of the response with one more filtered pulse, without scaling. */
  function ExactCross(h: seq<int>, sign: seq<int>, pulses: seq<int>, m: int): int {
    Sum(L_SUBFRAME, n => CrossTerm(h, sign, pulses, m, n))
  }

  function CrossTerm(h: seq<int>, sign: seq<int>, pulses: seq<int>, m: int, n: int): int {
    Response(h, sign, pulses, n) * At(h, n - m)
  }

  lemma ExactCrossGrows(h: seq<int>, sign: seq<int>, pulses: seq<int>, m: int)
    requires |pulses| > 0
    ensures ExactCross(h, sign, pulses, m)
         == ExactCross(h, sign, pulses[..|pulses| - 1], m)
          + At(sign, pulses[|pulses| - 1]) * Phi(h, pulses[|pulses| - 1], m)
  {
    hide Pair, CrossTerm;
    var k := pulses[|pulses| - 1];
    var rest := pulses[..|pulses| - 1];
    var f := (n: int) => CrossTerm(h, sign, rest, m, n);
    var g := (n: int) => Pair(h, n - k, n - m);
    var all := (n: int) => CrossTerm(h, sign, pulses, m, n);
    forall n | 0 <= n < L_SUBFRAME
      ensures all(n) == f(n) + At(sign, k) * g(n)
    {
      CrossTermGrows(h, sign, pulses, m, n);
    }
    SumLinear(L_SUBFRAME, f, g, all, At(sign, k));
  }

  lemma CrossTermGrows(h: seq<int>, sign: seq<int>, pulses: seq<int>, m: int, n: int)
    requires |pulses| > 0
    ensures CrossTerm(h, sign, pulses, m, n)
         == CrossTerm(h, sign, pulses[..|pulses| - 1], m, n)
          + At(sign, pulses[|pulses| - 1]) * Pair(h, n - pulses[|pulses| - 1], n - m)
  {
    hide At, Response;
    ResponseGrows(h, sign, pulses, n);
    var k := pulses[|pulses| - 1];
    Spread(Response(h, sign, pulses[..|pulses| - 1], n), At(sign, k), At(h, n - k), At(h, n - m));
  }

  lemma SquaredGrows(h: seq<int>, sign: seq<int>, pulses: seq<int>, n: int)
    requires |pulses| > 0
    requires At(sign, pulses[|pulses| - 1]) == 1 || At(sign, pulses[|pulses| - 1]) == -1
    ensures var m, rest := pulses[|pulses| - 1], pulses[..|pulses| - 1];
            Squared(h, sign, pulses, n)
            == Squared(h, sign, rest, n) + 2 * At(sign, m) * CrossTerm(h, sign, rest, m, n) + Pair(h, n - m, n - m)
  {
    hide At, Response;
    ResponseGrows(h, sign, pulses, n);
    var m := pulses[|pulses| - 1];
    SquareOfSum(Response(h, sign, pulses[..|pulses| - 1], n), At(sign, m), At(h, n - m));
  }

  lemma ResponseGrows(h: seq<int>, sign: seq<int>, pulses: seq<int>, n: int)
    requires |pulses| > 0
    ensures var m := pulses[|pulses| - 1];
            Response(h, sign, pulses, n) == Response(h, sign, pulses[..|pulses| - 1], n) + At(sign, m) * At(h, n - m)
  {
  }

  lemma Spread(x: int, s: int, y: int, z: int)
    ensures (x + s * y) * z == x * z + s * (y * z)
  {
  }

  lemma SquareOfSum(x: int, s: int, y: int)
    requires s == 1 || s == -1
    ensures (x + s * y) * (x + s * y) == x * x + 2 * s * (x * y) + y * y
  {
    assert s * s == 1;
    assert (x + s * y) * (x + s * y) == x * x + 2 * s * (x * y) + s * s * (y * y);
  }

  /** Adding a pulse to the filtered sum. */
  lemma NormGrows(h: seq<int>, sign: seq<int>, pulses: seq<int>)
    requires |pulses| > 0 && Signs(sign) && Pulses(pulses)
    ensures var m := pulses[|pulses| - 1];
            var rest := pulses[..|pulses| - 1];
            Norm(h, sign, pulses) == Norm(h, sign, rest) + 2 * sign[m] * ExactCross(h, sign, rest, m) + Phi(h, m, m)
  {
    hide At, Squared, CrossTerm, Pair;
    var m := pulses[|pulses| - 1];
    var rest := pulses[..|pulses| - 1];
    AtInside(sign, m);
    var before := (n: int) => Squared(h, sign, rest, n);
    var cross := (n: int) => CrossTerm(h, sign, rest, m, n);
    var pair := (n: int) => Pair(h, n - m, n - m);
    var all := (n: int) => Squared(h, sign, pulses, n);
    var t := 2 * sign[m];
    forall n | 0 <= n < L_SUBFRAME
      ensures all(n) == before(n) + t * cross(n) + pair(n)
    {
      SquaredGrows(h, sign, pulses, n);
    }
    SumThree(L_SUBFRAME, before, cross, pair, all, t);
  }

  lemma {:induction false} SumThree(n: nat, f: int -> int, g: int -> int, h: int -> int, all: int -> int, c: int)
    requires forall i {:trigger all(i)} :: 0 <= i < n ==> all(i) == f(i) + c * g(i) + h(i)
    ensures Sum(n, all) == Sum(n, f) + c * Sum(n, g) + Sum(n, h)
  {
    if n > 0 {
      SumThree(n - 1, f, g, h, all, c);
      assert all(n - 1) == f(n - 1) + c * g(n - 1) + h(n - 1);
    }
  }

  lemma AtInside(s: seq<int>, i: int)
    requires 0 <= i < |s|
    ensures At(s, i) == s[i]
  {
  }

  /** What rounding an off-diagonal element loses, for either sign. */
  lemma ElementLoss(phi: int, s: int, n: nat)
    requires s == 1 || s == -1
    ensures -(Pow2(n) - 1) <= s * phi - Pow2(n) * (Shr(phi, n) * s) <= Pow2(n) - 1
  {
    ShiftBounds(phi, n);
    var d := phi - Shr(phi, n) * Pow2(n);
    assert s * phi - Pow2(n) * (Shr(phi, n) * s) == s * d by { Factor(s, phi, Pow2(n), Shr(phi, n)); }
  }

  lemma Factor(s: int, x: int, p: int, q: int)
    ensures s * x - p * (q * s) == s * (x - q * p)
  {
  }

  /** p pulses, q the scaling: how far the squared norm may be from twice the scaled energy. */
  predicate Close(p: int, q: int, norm: int, energy: int) {
    var gap := norm - 2 * q * energy;
    -(p * (p - 1)) * (q - 1) <= gap <= p * (2 * q - 1) + p * (p - 1) * (q - 1)
  }

  predicate Near(p: int, q: int, x: int, c: int) {
    -(p * (q - 1)) <= x - q * c <= p * (q - 1)
  }

  predicate Loss(q: int, phi: int, d: int) {
    0 <= phi - 2 * q * d <= 2 * q - 1
  }

  /** The scaled cross terms follow the exact ones within one unit a pulse. */
  lemma {:induction false} CrossClose(h: seq<int>, sign: seq<int>, phiScaling: nat, pulses: seq<int>, m: int)
    requires Signs(sign) && Pulses(pulses + [m]) && 0 <= m < L_SUBFRAME
    ensures Near(|pulses|, Pow2(phiScaling), sign[m] * ExactCross(h, sign, pulses, m),
                 Cross(h, sign, phiScaling, pulses, m))
  {
    hide Phi, Shr, ExactCross, Element, Pow2;
    if |pulses| == 0 {
      NoPulses(h, sign, pulses, m);
    } else {
      hide Near;
      var k := pulses[|pulses| - 1];
      var rest := pulses[..|pulses| - 1];
      SubPulses(pulses, m);
      CrossClose(h, sign, phiScaling, rest, m);
      ExactCrossGrows(h, sign, pulses, m);
      assert At(sign, k) == sign[k] && At(sign, m) == sign[m];
      PairElement(h, sign, phiScaling, k, m);
      CrossStep(|pulses|, Pow2(phiScaling), sign[m], ExactCross(h, sign, rest, m), sign[k], Phi(h, k, m),
                Cross(h, sign, phiScaling, rest, m), Element(h, sign, phiScaling, k, m));
    }
  }

  /** An element off the diagonal: the exact one up to the bits shifted out. */
  lemma PairElement(h: seq<int>, sign: seq<int>, phiScaling: nat, k: int, m: int)
    requires Signs(sign) && 0 <= k < L_SUBFRAME && 0 <= m < L_SUBFRAME && k != m
    ensures var q := Pow2(phiScaling);
            -(q - 1) <= sign[k] * sign[m] * Phi(h, k, m) - q * Element(h, sign, phiScaling, k, m) <= q - 1
  {
    hide Phi, Shr, Pow2;
    assert At(sign, k) == sign[k] && At(sign, m) == sign[m];
    assert sign[k] * sign[m] == 1 || sign[k] * sign[m] == -1;
    ElementLoss(Phi(h, k, m), sign[k] * sign[m], phiScaling);
  }

  lemma CrossStep(p: int, q: int, sm: int, x: int, sk: int, phi: int, c: int, e: int)
    requires Near(p - 1, q, sm * x, c) && -(q - 1) <= sk * sm * phi - q * e <= q - 1
    ensures Near(p, q, sm * (x + sk * phi), c + e)
  {
    assert sm * (x + sk * phi) - q * (c + e) == (sm * x - q * c) + (sk * sm * phi - q * e);
    assert p * (q - 1) == (p - 1) * (q - 1) + (q - 1);
  }

  lemma NoPulses(h: seq<int>, sign: seq<int>, pulses: seq<int>, m: int)
    requires |pulses| == 0
    ensures ExactCross(h, sign, pulses, m) == 0
  {
    SumZero(L_SUBFRAME, n => CrossTerm(h, sign, pulses, m, n));
  }

  lemma SubPulses(pulses: seq<int>, m: int)
    requires |pulses| > 0 && Pulses(pulses + [m])
    ensures Pulses(pulses[..|pulses| - 1] + [m]) && Pulses(pulses)
    ensures 0 <= pulses[|pulses| - 1] < L_SUBFRAME && 0 <= m < L_SUBFRAME && pulses[|pulses| - 1] != m
  {
    var all := pulses + [m];
    assert all[|pulses|] == m && all[|pulses| - 1] == pulses[|pulses| - 1];
    var rest := pulses[..|pulses| - 1] + [m];
    assert forall i :: 0 <= i < |rest| ==> rest[i] == all[if i < |rest| - 1 then i else |pulses|];
    assert forall i :: 0 <= i < |pulses| ==> pulses[i] == all[i];
  }

  /** The diagonal element: half the exact one, rounded down twice. */
  lemma DiagonalLoss(phi: int, n: nat)
    ensures Loss(Pow2(n), phi, Shr(Shr(phi, 1), n))
  {
    ShiftTwice(phi, 1, n);
    ShiftBounds(phi, 1 + n);
    assert Pow2(1 + n) == 2 * Pow2(n);
    assert Shr(phi, 1 + n) * (2 * Pow2(n)) == 2 * Pow2(n) * Shr(phi, 1 + n);
  }

  lemma DiagonalElement(h: seq<int>, sign: seq<int>, phiScaling: nat, m: int)
    ensures Loss(Pow2(phiScaling), Phi(h, m, m), Element(h, sign, phiScaling, m, m))
  {
    hide Phi, Loss;
    DiagonalLoss(Phi(h, m, m), phiScaling);
  }

  /** Twice the energy of any number of pulses is the energy of their filtered sum, up to the bits dropped. */
  lemma {:induction false} EnergyClose(h: seq<int>, sign: seq<int>, phiScaling: nat, pulses: seq<int>)
    requires Signs(sign) && Pulses(pulses)
    ensures Close(|pulses|, Pow2(phiScaling), Norm(h, sign, pulses), Energy(h, sign, phiScaling, pulses))
  {
    hide Phi, ExactCross, Norm, Element, Cross, Pow2;
    if |pulses| == 0 {
      EmptyNorm(h, sign, pulses);
    } else {
      hide Close, Near, Loss;
      var m := pulses[|pulses| - 1];
      var rest := pulses[..|pulses| - 1];
      assert pulses == rest + [m];
      EnergyClose(h, sign, phiScaling, rest);
      NormGrows(h, sign, pulses);
      CrossClose(h, sign, phiScaling, rest, m);
      DiagonalElement(h, sign, phiScaling, m);
      EnergyStep(|pulses|, Pow2(phiScaling), Norm(h, sign, rest), Energy(h, sign, phiScaling, rest),
                 sign[m] * ExactCross(h, sign, rest, m), Cross(h, sign, phiScaling, rest, m),
                 Phi(h, m, m), Element(h, sign, phiScaling, m, m));
      assert 2 * sign[m] * ExactCross(h, sign, rest, m) == 2 * (sign[m] * ExactCross(h, sign, rest, m));
    }
  }

  lemma EmptyNorm(h: seq<int>, sign: seq<int>, pulses: seq<int>)
    requires |pulses| == 0
    ensures Norm(h, sign, pulses) == 0
  {
    SumZero(L_SUBFRAME, n => Squared(h, sign, pulses, n));
  }

  lemma EnergyStep(p: int, q: int, norm: int, energy: int, x: int, c: int, phi: int, d: int)
    requires p >= 1 && q >= 1 && Close(p - 1, q, norm, energy) && Near(p - 1, q, x, c) && Loss(q, phi, d)
    ensures Close(p, q, norm + 2 * x + phi, energy + d + c)
  {
    GapSplits(q, norm, energy, x, c, phi, d);
    PairCount(p, q - 1);
    assert (p - 1) * (2 * q - 1) + (2 * q - 1) == p * (2 * q - 1);
  }

  lemma GapSplits(q: int, norm: int, energy: int, x: int, c: int, phi: int, d: int)
    ensures norm + 2 * x + phi - 2 * q * (energy + d + c)
         == (norm - 2 * q * energy) + 2 * (x - q * c) + (phi - 2 * q * d)
  {
    assert 2 * q * (energy + d + c) == 2 * q * energy + 2 * q * d + 2 * q * c;
  }

  lemma PairCount(p: int, g: int)
    ensures (p - 1) * (p - 2) * g + 2 * ((p - 1) * g) == p * (p - 1) * g
    ensures -((p - 1) * (p - 2)) * g == -((p - 1) * (p - 2) * g) && -(p * (p - 1)) * g == -(p * (p - 1) * g)
  {
    var e, f := (p - 1) * (p - 2), p - 1;
    assert e + 2 * f == p * (p - 1);
    assert e * g + 2 * (f * g) == (e + 2 * f) * g;
  }

  /** Without scaling, four pulses: twice the energy misses at most the four halves rounded away. */
  lemma FourPulsesUnscaled(h: seq<int>, sign: seq<int>, pulses: seq<int>)
    requires Signs(sign) && Pulses(pulses) && |pulses| == 4
    ensures 2 * Energy(h, sign, 0, pulses) <= Norm(h, sign, pulses) <= 2 * Energy(h, sign, 0, pulses) + 4
  {
    EnergyClose(h, sign, 0, pulses);
  }

  /** At the earliest pulse only that pulse has started to respond. */
  lemma {:induction false} ResponseAtFirst(h: seq<int>, sign: seq<int>, pulses: seq<int>, m: int)
    requires Pulses(pulses) && forall i :: 0 <= i < |pulses| ==> m <= pulses[i]
    ensures Response(h, sign, pulses, m) == if m in pulses then At(sign, m) * At(h, 0) else 0
  {
    if |pulses| > 0 {
      var k := pulses[|pulses| - 1];
      var rest := pulses[..|pulses| - 1];
      assert pulses == rest + [k];
      ResponseAtFirst(h, sign, rest, m);
      ResponseGrows(h, sign, pulses, m);
      if k == m {
        assert m - k == 0 && m !in rest;
      } else {
        BeforePulse(h, At(sign, k), m - k);
      }
    }
  }

  lemma BeforePulse(h: seq<int>, s: int, n: int)
    requires n < 0
    ensures s * At(h, n) == 0
  {
  }

  lemma Earliest(pulses: seq<int>) returns (m: int)
    requires |pulses| > 0
    ensures m in pulses && forall i :: 0 <= i < |pulses| ==> m <= pulses[i]
  {
    m := pulses[0];
    for i := 1 to |pulses|
      invariant m in pulses && forall k :: 0 <= k < i ==> m <= pulses[k]
    {
      if pulses[i] < m {
        m := pulses[i];
      }
    }
  }

  lemma {:induction false} SumContains(n: nat, f: int -> int, i: nat)
    requires i < n && forall k {:trigger f(k)} :: 0 <= k < n ==> f(k) >= 0
    ensures Sum(n, f) >= f(i)
  {
    if i < n - 1 {
      SumContains(n - 1, f, i);
    } else {
      SumNonNegative(n - 1, f);
    }
    assert f(n - 1) >= 0;
  }

  /** The filtered pulses have at least the energy of one first sample of the response. */
  lemma NormAtLeast(h: seq<int>, sign: seq<int>, pulses: seq<int>)
    requires Signs(sign) && Pulses(pulses) && |pulses| > 0 && |h| > 0
    ensures Norm(h, sign, pulses) >= h[0] * h[0]
  {
    var m := Earliest(pulses);
    ResponseAtFirst(h, sign, pulses, m);
    hide Response;
    assert Squared(h, sign, pulses, m) == h[0] * h[0] by {
      AtInside(sign, m);
      SquareOfSigned(sign[m], h[0]);
    }
    forall n
      ensures Squared(h, sign, pulses, n) >= 0
    {
      SquareNonNegative(Response(h, sign, pulses, n));
    }
    SumContains(L_SUBFRAME, n => Squared(h, sign, pulses, n), m);
  }

  lemma SquareOfSigned(s: int, x: int)
    requires s == 1 || s == -1
    ensures (s * x) * (s * x) == x * x
  {
  }

  lemma SquareNonNegative(x: int)
    ensures x * x >= 0
  {
  }

  /** With h(0) = 1 in Q12 every energy the search compares is positive, whatever the signs and the scaling. */
  lemma EnergyPositive(h: seq<int>, sign: seq<int>, phiScaling: nat, pulses: seq<int>)
    requires Signs(sign) && Pulses(pulses) && 1 <= |pulses| <= 4
    requires |h| > 0 && h[0] == 4096 && phiScaling <= 3
    ensures Energy(h, sign, phiScaling, pulses) > 0
  {
    hide Energy, Norm;
    NormAtLeast(h, sign, pulses);
    EnergyClose(h, sign, phiScaling, pulses);
    assert 1 <= Pow2(phiScaling) <= 8 by {
      assert Pow2(1) == 2 && Pow2(2) == 4 && Pow2(3) == 8;
    }
    SmallSlack(|pulses|, Pow2(phiScaling));
    assert 2 * Pow2(phiScaling) * Energy(h, sign, phiScaling, pulses) > 0;
    PositiveFactor(2 * Pow2(phiScaling), Energy(h, sign, phiScaling, pulses));
  }

  lemma SmallSlack(p: int, q: int)
    requires 1 <= p <= 4 && 1 <= q <= 8
    ensures p * (2 * q - 1) + p * (p - 1) * (q - 1) <= 144
  {
    MultiplyMonotone(p, 4, 2 * q - 1);
    assert p * (p - 1) <= 12;
    MultiplyMonotone(p * (p - 1), 12, q - 1);
  }

  lemma PositiveFactor(a: int, b: int)
    requires a > 0 && a * b > 0
    ensures b > 0
  {
  }

  /** No correlation exceeds the energy of the impulse response. */
  lemma PhiBounded(h: seq<int>, a: int, b: int)
    requires 0 <= a < L_SUBFRAME && 0 <= b < L_SUBFRAME
    ensures Abs(Phi(h, a, b)) <= Phi(h, 0, 0)
  {
    hide Pair;
    CorrelationBounded(h, a, b, L_SUBFRAME, n => Pair(h, n - a, n - b));
    SumCong(L_SUBFRAME, n => Pair(h, n - 0, n - 0), n => Pair(h, n, n));
  }

  /** Largest magnitude of a readable element outside and on the main diagonal, after scaling. */
  const CROSS_LIMIT := 261724572
  const DIAGONAL_LIMIT := 130862286

  /** The scaling leaves room for the ten elements of a candidate: no sum of them overflows 32 bits. */
  lemma ElementsFit(h: seq<int>, sign: seq<int>, phiScaling: nat, a: int, b: int)
    requires Signs(sign) && Readable(a, b) && Phi(h, 0, 0) + 0x3333333 <= MAXINT32
    requires ScalingFor(Shr(Phi(h, 0, 0), 1), phiScaling)
    ensures Abs(Element(h, sign, phiScaling, a, b)) <= if a == b then DIAGONAL_LIMIT else CROSS_LIMIT
    ensures 4 * DIAGONAL_LIMIT + 6 * CROSS_LIMIT <= MAXINT32
  {
    hide Phi;
    PhiBounded(h, a, b);
    var e := Phi(h, 0, 0);
    ShiftBounds(e, 1);
    assert Pow2(1) == 2 && Pow2(2) == 4 && Pow2(3) == 8 && Pow2(0) == 1;
    ScaledEnergy(e, phiScaling);
    if a == b {
      ShiftTwice(Phi(h, a, a), 1, phiScaling);
      ShiftTwice(Phi(h, a, a), phiScaling, 1);
      QuotientFits(Phi(h, a, a), e, Pow2(phiScaling));
    } else {
      QuotientFits(Phi(h, a, b), e, Pow2(phiScaling));
      AtInside(sign, a);
      AtInside(sign, b);
      SignedMagnitude(Shr(Phi(h, a, b), phiScaling), sign[a] * sign[b]);
    }
  }

  lemma ScaledEnergy(energy: int, phiScaling: nat)
    requires 0 <= energy && energy + 0x3333333 <= MAXINT32
    requires ScalingFor(Shr(energy, 1), phiScaling)
    ensures energy / Pow2(phiScaling) < CROSS_LIMIT
  {
    assert Pow2(1) == 2 && Pow2(2) == 4 && Pow2(3) == 8 && Pow2(0) == 1;
    ShiftBounds(energy, 1);
  }

  lemma SignedMagnitude(v: int, s: int)
    requires s == 1 || s == -1
    ensures Abs(v * s) == Abs(v)
  {
  }
}
