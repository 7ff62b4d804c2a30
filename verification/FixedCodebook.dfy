/** The whole fixed codebook search of one subframe, and the code its pulses are sent as. */
module FixedCodebook {
  import opened CodecParameters
  import opened IntSums
  import opened FixedPoint
  import opened CorrelationMatrix
  import opened PulseEnergy
  import opened CodebookSearch
  import R = RealSums
  import opened SumConversion
  import Sharpening

  /** The search adds the same elements as the energy of the four pulses. */
  lemma EnergyOfFour(h: seq<int>, sign: seq<int>, phiScaling: nat, a: int, b: int, c: int, d: int)
    ensures Energy4((i, j) => Element(h, sign, phiScaling, i, j), a, b, c, d)
            == Energy(h, sign, phiScaling, [a, b, c, d])
    ensures Energy2((i, j) => Element(h, sign, phiScaling, i, j), a, b) == Energy(h, sign, phiScaling, [a, b])
  {
    hide Element;
    ElementSymmetric(h, sign, phiScaling, a, c);
    ElementSymmetric(h, sign, phiScaling, b, c);
    ElementSymmetric(h, sign, phiScaling, a, d);
    ElementSymmetric(h, sign, phiScaling, b, d);
    ElementSymmetric(h, sign, phiScaling, c, d);
    assert [a, b, c, d][..3] == [a, b, c] && [a, b, c][..2] == [a, b] && [a, b][..1] == [a] && [a][..0] == [];
    EnergyGrowsBy(h, sign, phiScaling, [], a);
    EnergyGrowsBy(h, sign, phiScaling, [a], b);
    EnergyGrowsBy(h, sign, phiScaling, [a, b], c);
    EnergyGrowsBy(h, sign, phiScaling, [a, b, c], d);
    assert [] + [a] == [a] && [a] + [b] == [a, b] && [a, b] + [c] == [a, b, c] && [a, b, c] + [d] == [a, b, c, d];
    CrossGrowsBy(h, sign, phiScaling, [], a, b);
    CrossGrowsBy(h, sign, phiScaling, [], a, c);
    CrossGrowsBy(h, sign, phiScaling, [a], b, c);
    CrossGrowsBy(h, sign, phiScaling, [], a, d);
    CrossGrowsBy(h, sign, phiScaling, [a], b, d);
    CrossGrowsBy(h, sign, phiScaling, [a, b], c, d);
    hide Energy, Cross;
  }

  lemma EnergyGrowsBy(h: seq<int>, sign: seq<int>, phiScaling: nat, pulses: seq<int>, m: int)
    ensures Energy(h, sign, phiScaling, pulses + [m])
         == Energy(h, sign, phiScaling, pulses) + Element(h, sign, phiScaling, m, m)
           + Cross(h, sign, phiScaling, pulses, m)
    ensures Energy(h, sign, phiScaling, []) == 0
  {
  }

  lemma CrossGrowsBy(h: seq<int>, sign: seq<int>, phiScaling: nat, pulses: seq<int>, k: int, m: int)
    ensures Cross(h, sign, phiScaling, pulses + [k], m)
         == Cross(h, sign, phiScaling, pulses, m) + Element(h, sign, phiScaling, k, m)
    ensures Cross(h, sign, phiScaling, [], m) == 0
  {
  }

  lemma SearchEnergiesPositive(h: seq<int>, sign: seq<int>, phiScaling: nat)
    requires Signs(sign) && |h| > 0 && h[0] == 4096 && phiScaling <= 3
    ensures PositiveEnergies((i, j) => Element(h, sign, phiScaling, i, j))
  {
    hide Element, Energy, Energy2, Energy4;
    var e := (i, j) => Element(h, sign, phiScaling, i, j);
    forall a, b | Apart2(a, b)
      ensures Energy2(e, a, b) > 0
    {
      EnergyOfFour(h, sign, phiScaling, a, b, a, b);
      EnergyPositive(h, sign, phiScaling, [a, b]);
    }
    forall a, b, c, d | Apart4(a, b, c, d)
      ensures Energy4(e, a, b, c, d) > 0
    {
      EnergyOfFour(h, sign, phiScaling, a, b, c, d);
      EnergyPositive(h, sign, phiScaling, [a, b, c, d]);
    }
  }

  /** From the sharpened impulse response and the normalised correlation to four signed pulses. */
  method SearchPulses(h: seq<int>, c: array<int>)
    returns (i0: int, i1: int, i2: int, i3: int, jx: int, sign: seq<int>, phiScaling: nat)
    requires |h| == L_SUBFRAME && h[0] == 4096 && c.Length == L_SUBFRAME
    requires Phi(h, 0, 0) + 0x3333333 <= MAXINT32
    modifies c
    ensures Signs(sign) && phiScaling <= 3 && ScalingFor(Shr(Phi(h, 0, 0), 1), phiScaling)
    ensures forall i :: 0 <= i < L_SUBFRAME ==> sign[i] == Sign(old(c[i])) && c[i] == Abs(old(c[i]))
    ensures var e := (i: int, j: int) => Element(h, sign, phiScaling, i, j);
            && OnAllTracks(i0, i1, i2, i3, jx)
            && BestOfPasses(c[..], e, Score4(c[..], e, i2, i3, i0, i1)) && Score4(c[..], e, i2, i3, i0, i1).e > 0
  {
    hide Element, Phi, BestOfPasses, Score4, Energy4;
    var phi := new int[L_SUBFRAME, L_SUBFRAME];
    sign, phiScaling := ComputeImpulseResponseCorrelationMatrix(h, c, phi);
    SearchEnergiesPositive(h, sign, phiScaling);
    ghost var e := (i: int, j: int) => Element(h, sign, phiScaling, i, j);
    ElementsSymmetric(h, sign, phiScaling);
    i0, i1, i2, i3, jx := Search(c[..], phi, e);
    Score4Valid(c[..], e, i2, i3, i0, i1);
  }

  lemma ElementsSymmetric(h: seq<int>, sign: seq<int>, phiScaling: nat)
    ensures Symmetric((i: int, j: int) => Element(h, sign, phiScaling, i, j))
  {
    forall a, b
      ensures Element(h, sign, phiScaling, a, b) == Element(h, sign, phiScaling, b, a)
    {
      ElementSymmetric(h, sign, phiScaling, a, b);
    }
  }

  /** Signed pulses of the given height. */
  function PulseVector(sign: seq<int>, pulses: seq<int>, height: int): seq<int> {
    seq(L_SUBFRAME, n => if n in pulses then At(sign, n) * height else 0)
  }

  /** eq 64: the filtered pulses, built by four shifted additions of the impulse response. */
  method ConvolvePulses(h: seq<int>, sign: seq<int>, pulses: seq<int>) returns (z: array<int>)
    requires |h| == L_SUBFRAME && Signs(sign) && Pulses(pulses) && |pulses| == 4
    ensures fresh(z) && z.Length == L_SUBFRAME
    ensures forall n :: 0 <= n < L_SUBFRAME ==> z[n] == Response(h, sign, pulses, n)
  {
    hide Response;
    z := new int[L_SUBFRAME];
    var i := 0;
    while i < pulses[0]
      invariant 0 <= i <= pulses[0]
      invariant forall n :: 0 <= n < i ==> z[n] == 0
    {
      z[i] := 0;
      i := i + 1;
    }
    var j := 0;
    while i < L_SUBFRAME
      invariant pulses[0] <= i <= L_SUBFRAME && j == i - pulses[0]
      invariant forall n :: 0 <= n < i ==> z[n] == sign[pulses[0]] * At(h, n - pulses[0])
    {
      z[i] := if sign[pulses[0]] > 0 then h[j] else -h[j];
      i, j := i + 1, j + 1;
    }
    forall n
      ensures Response(h, sign, pulses[..1], n) == At(sign, pulses[0]) * At(h, n - pulses[0])
    {
      OnePulse(h, sign, pulses, n);
    }
    AddPulse(h, sign, pulses, 1, z);
    AddPulse(h, sign, pulses, 2, z);
    AddPulse(h, sign, pulses, 3, z);
    assert pulses[..4] == pulses;
  }

  lemma OnePulse(h: seq<int>, sign: seq<int>, pulses: seq<int>, n: int)
    requires |pulses| > 0
    ensures Response(h, sign, pulses[..1], n) == At(sign, pulses[0]) * At(h, n - pulses[0])
  {
  }

  method AddPulse(h: seq<int>, sign: seq<int>, pulses: seq<int>, k: int, z: array<int>)
    requires |h| == L_SUBFRAME && Signs(sign) && Pulses(pulses) && 0 < k < |pulses| && z.Length == L_SUBFRAME
    requires forall n :: 0 <= n < L_SUBFRAME ==> z[n] == Response(h, sign, pulses[..k], n)
    modifies z
    ensures forall n :: 0 <= n < L_SUBFRAME ==> z[n] == Response(h, sign, pulses[..k + 1], n)
  {
    hide Response;
    var m := pulses[k];
    forall n
      ensures Response(h, sign, pulses[..k + 1], n) == Response(h, sign, pulses[..k], n) + At(sign, m) * At(h, n - m)
    {
      ResponseGrows(h, sign, pulses[..k + 1], n);
      assert pulses[..k + 1][..k] == pulses[..k];
    }
    var i, j := m, 0;
    while i < L_SUBFRAME
      invariant m <= i <= L_SUBFRAME && j == i - m
      invariant forall n :: 0 <= n < i ==> z[n] == Response(h, sign, pulses[..k + 1], n)
      invariant forall n :: i <= n < L_SUBFRAME ==> z[n] == Response(h, sign, pulses[..k], n)
    {
      if sign[m] > 0 {
        z[i] := z[i] + h[j];
      } else {
        z[i] := z[i] - h[j];
      }
      i, j := i + 1, j + 1;
    }
  }

  /** The shifted additions over a response of any real values. */
  function RealResponse(h: seq<real>, sign: seq<int>, pulses: seq<int>, n: int): real {
    if |pulses| == 0 then 0.0
    else var m := pulses[|pulses| - 1];
         RealResponse(h, sign, pulses[..|pulses| - 1], n) + Echo(h, At(sign, m), n - m)
  }

  /** Sample n of one signed pulse filtered by h. */
  function Echo(h: seq<real>, s: int, n: int): real {
    s as real * R.At(h, n)
  }

  /** On an integer response they are what the code computes. */
  lemma {:induction false} ResponseAsReal(h: seq<int>, sign: seq<int>, pulses: seq<int>, n: int)
    ensures RealResponse(AsReals(h), sign, pulses, n) == Response(h, sign, pulses, n) as real
  {
    hide AsReals;
    if |pulses| > 0 {
      ResponseAsReal(h, sign, pulses[..|pulses| - 1], n);
      var m := pulses[|pulses| - 1];
      EchoAsReal(h, At(sign, m), n - m);
    }
  }

  lemma EchoAsReal(h: seq<int>, s: int, n: int)
    ensures Echo(AsReals(h), s, n) == (s * At(h, n)) as real
  {
    assert R.At(AsReals(h), n) == At(h, n) as real;
  }

  /** The shifted additions convolve the unit pulses with the impulse response. */
  lemma {:induction false} ShiftedAddIsConvolution(h: seq<real>, sign: seq<int>, pulses: seq<int>, n: nat)
    requires Pulses(pulses) && n < L_SUBFRAME
    ensures Sharpening.Convolution(AsReals(PulseVector(sign, pulses, 1)), h, n) == RealResponse(h, sign, pulses, n)
  {
    hide Sharpening.Product, RealResponse, Echo;
    if |pulses| == 0 {
      SilentConvolution(h, sign, pulses, n);
      NoResponse(h, sign, pulses, n);
    } else {
      var m := pulses[|pulses| - 1];
      var rest := pulses[..|pulses| - 1];
      assert pulses == rest + [m];
      ShiftedAddIsConvolution(h, sign, rest, n);
      ConvolutionGrows(h, sign, rest, m, n);
      RealResponseGrows(h, sign, pulses, n);
    }
  }

  lemma NoResponse(h: seq<real>, sign: seq<int>, pulses: seq<int>, n: int)
    requires |pulses| == 0
    ensures RealResponse(h, sign, pulses, n) == 0.0
  {
  }

  lemma RealResponseGrows(h: seq<real>, sign: seq<int>, pulses: seq<int>, n: int)
    requires |pulses| > 0
    ensures var m := pulses[|pulses| - 1];
            RealResponse(h, sign, pulses, n) == RealResponse(h, sign, pulses[..|pulses| - 1], n)
              + Echo(h, At(sign, m), n - m)
  {
  }

  lemma SilentConvolution(h: seq<real>, sign: seq<int>, pulses: seq<int>, n: nat)
    requires |pulses| == 0
    ensures Sharpening.Convolution(AsReals(PulseVector(sign, pulses, 1)), h, n) == 0.0
  {
    hide Sharpening.Product;
    var x := AsReals(PulseVector(sign, pulses, 1));
    var all := (i: int) => Sharpening.Product(x, h, i, n - i);
    forall i | 0 <= i < n + 1
      ensures all(i) == 0.0
    {
      SilentSample(h, sign, pulses, i, n - i);
    }
    R.SumZero(n + 1, all);
  }

  lemma ConvolutionGrows(h: seq<real>, sign: seq<int>, rest: seq<int>, m: nat, n: nat)
    requires Pulses(rest + [m]) && n < L_SUBFRAME
    ensures Sharpening.Convolution(AsReals(PulseVector(sign, rest + [m], 1)), h, n)
         == Sharpening.Convolution(AsReals(PulseVector(sign, rest, 1)), h, n) + Echo(h, At(sign, m), n - m)
  {
    hide Sharpening.Product, PulseVector, AsReals, At, Pulses, R.Sum, Echo;
    var x, x' := AsReals(PulseVector(sign, rest + [m], 1)), AsReals(PulseVector(sign, rest, 1));
    var f := (i: int) => Sharpening.Product(x', h, i, n - i);
    var g := (i: int) => if i == m then Echo(h, At(sign, m), n - i) else 0.0;
    var all := (i: int) => Sharpening.Product(x, h, i, n - i);
    forall i | 0 <= i < n + 1
      ensures all(i) == f(i) + 1.0 * g(i)
    {
      OneMorePulse(h, sign, rest, m, i, n - i);
    }
    R.SumLinear(n + 1, f, g, all, 1.0);
    SinglePeak(n + 1, m, Echo(h, At(sign, m), n - m), g);
    if m > n {
      LateSample(h, At(sign, m), n - m);
    }
  }

  lemma LateSample(h: seq<real>, s: int, n: int)
    requires n < 0
    ensures Echo(h, s, n) == 0.0
  {
  }

  lemma SilentSample(h: seq<real>, sign: seq<int>, pulses: seq<int>, i: int, j: int)
    requires i !in pulses
    ensures Sharpening.Product(AsReals(PulseVector(sign, pulses, 1)), h, i, j) == 0.0
  {
  }

  lemma NotAmong(rest: seq<int>, m: int)
    requires Pulses(rest + [m])
    ensures m !in rest
  {
    var all := rest + [m];
    forall k | 0 <= k < |rest|
      ensures rest[k] != m
    {
      assert all[k] == rest[k] && all[|rest|] == m;
    }
  }

  lemma OneMorePulse(h: seq<real>, sign: seq<int>, rest: seq<int>, m: int, i: int, j: int)
    requires Pulses(rest + [m]) && 0 <= i < L_SUBFRAME
    ensures Sharpening.Product(AsReals(PulseVector(sign, rest + [m], 1)), h, i, j)
         == Sharpening.Product(AsReals(PulseVector(sign, rest, 1)), h, i, j)
          + 1.0 * (if i == m then Echo(h, At(sign, m), j) else 0.0)
  {
    var v, w := PulseVector(sign, rest + [m], 1), PulseVector(sign, rest, 1);
    assert (rest + [m])[|rest|] == m;
    assert R.At(AsReals(v), i) == v[i] as real && R.At(AsReals(w), i) == w[i] as real;
    if i == m {
      NotAmong(rest, m);
      assert v[i] == At(sign, m) && w[i] == 0;
    } else {
      assert v[i] == w[i];
    }
  }

  lemma {:induction false} SinglePeak(n: nat, m: nat, v: real, g: int -> real)
    requires forall i {:trigger g(i)} :: 0 <= i < n ==> g(i) == if i == m then v else 0.0
    ensures R.Sum(n, g) == if m < n then v else 0.0
  {
    if n > 0 {
      SinglePeak(n - 1, m, v, g);
      assert g(n - 1) == if n - 1 == m then v else 0.0;
    }
  }

  /** eq 64: filtering the sharpened code vector is what the shifted additions of the sharpened response compute. */
  lemma SharpenedCodeFiltered(pulses: seq<int>, sign: seq<int>, h: seq<real>, t: nat, beta: real, n: nat)
    requires Pulses(pulses) && t > 0 && |h| == L_SUBFRAME && n < L_SUBFRAME
    ensures Sharpening.Convolution(Sharpening.Sharpened(AsReals(PulseVector(sign, pulses, 1)), t, beta), h, n)
         == RealResponse(Sharpening.Sharpened(h, t, beta), sign, pulses, n)
  {
    hide Sharpening.Convolution, Sharpening.Sharpened, RealResponse;
    Sharpening.SharpeningMoves(AsReals(PulseVector(sign, pulses, 1)), h, t, beta, n);
    ShiftedAddIsConvolution(Sharpening.Sharpened(h, t, beta), sign, pulses, n);
  }
}
