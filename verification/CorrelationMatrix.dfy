/** The signed correlation matrix of the impulse response built by fixedCodebookSearch.c. */
module CorrelationMatrix {
  import opened CodecParameters
  import opened IntSums
  import opened FixedPoint

  /** Phi(i,j) = sum over n < 40 of h(n-i) * h(n-j) */
  function Phi(h: seq<int>, i: int, j: int): int {
    Sum(L_SUBFRAME, n => Pair(h, n - i, n - j))
  }

  /** The first m products along a diagonal at distance d. */
  function Diagonal(h: seq<int>, d: int, m: nat): int {
    Sum(m, u => Pair(h, u, u + d))
  }

  /** The recurrence along a diagonal computes the matrix element. */
  lemma DiagonalIsPhi(h: seq<int>, i: int, j: int)
    requires 0 <= j <= i < L_SUBFRAME
    ensures Phi(h, i, j) == Diagonal(h, i - j, L_SUBFRAME - i)
  {
    hide Pair;
    var f := (n: int) => Pair(h, n - i, n - j);
    var g := (u: int) => Pair(h, u, u + (i - j));
    forall n | 0 <= n < i || i + (L_SUBFRAME - i) <= n < i + (L_SUBFRAME - i) + 0
      ensures f(n) == 0
    {
      PairIs(h, n - i, n - j);
    }
    forall u | 0 <= u < L_SUBFRAME - i
      ensures g(u) == f(i + u)
    {
      assert i + u - i == u && i + u - j == u + (i - j);
    }
    SumWindow(i, L_SUBFRAME - i, 0, f, g);
  }

  lemma PhiSymmetric(h: seq<int>, i: int, j: int)
    ensures Phi(h, i, j) == Phi(h, j, i)
  {
    hide Pair;
    var f := (n: int) => Pair(h, n - i, n - j);
    var g := (n: int) => Pair(h, n - j, n - i);
    forall n
      ensures f(n) == g(n)
    {
      PairIs(h, n - i, n - j);
    }
    SumCong(L_SUBFRAME, f, g);
  }

  predicate Square40(m: array2<int>) {
    m.Length0 == L_SUBFRAME && m.Length1 == L_SUBFRAME
  }

  /** One diagonal, from row 39 and column j0 up to column 0; nothing else changes. */
  method ComputePhiDiagonal(j0: nat, h: seq<int>, phi: array2<int>, phiScaling: nat)
    requires Square40(phi) && |h| == L_SUBFRAME && j0 < L_SUBFRAME
    modifies phi
    ensures forall a, b :: 0 <= b <= a < L_SUBFRAME && a - b == 39 - j0 ==> phi[a, b] == Shr(Phi(h, a, b), phiScaling)
    ensures forall a, b :: 0 <= a < L_SUBFRAME && 0 <= b < L_SUBFRAME && a - b != 39 - j0 ==>
            phi[a, b] == old(phi[a, b])
  {
    hide Phi, Diagonal, Shr;
    var acc := 0;
    var i, j, iComp, jComp := 39, j0 as int, 0, 39 - j0 as int;
    DiagonalStart(h, jComp);
    while j >= 0
      invariant -1 <= j <= j0 && i == j + 39 - j0 && iComp == j0 - j && jComp == 39 - j
      invariant acc == Diagonal(h, 39 - j0, iComp)
      invariant forall a, b :: i < a < L_SUBFRAME && 0 <= b <= a && a - b == 39 - j0 ==>
                phi[a, b] == Shr(Phi(h, a, b), phiScaling)
      invariant forall a, b :: 0 <= a < L_SUBFRAME && 0 <= b < L_SUBFRAME && a - b != 39 - j0 ==>
                phi[a, b] == old(phi[a, b])
    {
      DiagonalNext(h, 39 - j0, iComp);
      acc := acc + h[iComp] * h[jComp];
      DiagonalIsPhi(h, i, j);
      if phiScaling == 0 {
        ShiftByZero(acc);
        phi[i, j] := acc;
      } else {
        phi[i, j] := Shr(acc, phiScaling);
      }
      j, i, jComp, iComp := j - 1, i - 1, jComp + 1, iComp + 1;
    }
  }

  lemma ShiftByZero(a: int)
    ensures Shr(a, 0) == a
  {
  }

  lemma DiagonalStart(h: seq<int>, d: int)
    ensures Diagonal(h, d, 0) == 0
  {
  }

  lemma DiagonalNext(h: seq<int>, d: int, m: nat)
    requires m < |h| && 0 <= m + d < |h|
    ensures Diagonal(h, d, m + 1) == Diagonal(h, d, m) + h[m] * h[m + d]
  {
    PairIs(h, m, m + d);
  }

  /** The main diagonal, halved. */
  method ComputeMainDiagonal(h: seq<int>, phi: array2<int>)
    requires Square40(phi) && |h| == L_SUBFRAME
    modifies phi
    ensures forall a :: 0 <= a < L_SUBFRAME ==> phi[a, a] == Shr(Phi(h, a, a), 1)
  {
    hide Phi, Diagonal, Shr;
    var acc := 0;
    var i, iComp := 0, 39;
    DiagonalStart(h, 0);
    while i < L_SUBFRAME
      invariant 0 <= i <= L_SUBFRAME && iComp == 39 - i
      invariant acc == Diagonal(h, 0, i)
      invariant forall a :: iComp < a < L_SUBFRAME ==> phi[a, a] == Shr(Phi(h, a, a), 1)
    {
      DiagonalNext(h, 0, i);
      acc := acc + h[i] * h[i];
      DiagonalIsPhi(h, iComp, iComp);
      phi[iComp, iComp] := Shr(acc, 1);
      i, iComp := i + 1, iComp - 1;
    }
  }

  method ScaleMainDiagonal(phi: array2<int>, phiScaling: nat)
    requires Square40(phi)
    modifies phi
    ensures forall a :: 0 <= a < L_SUBFRAME ==> phi[a, a] == Shr(old(phi[a, a]), phiScaling)
  {
    hide Shr;
    var i := 0;
    while i < L_SUBFRAME
      invariant 0 <= i <= L_SUBFRAME
      invariant forall a :: 0 <= a < i ==> phi[a, a] == Shr(old(phi[a, a]), phiScaling)
      invariant forall a :: i <= a < L_SUBFRAME ==> phi[a, a] == old(phi[a, a])
    {
      phi[i, i] := Shr(phi[i, i], phiScaling);
      i := i + 1;
    }
  }

  /** All diagonals whose distance from the main one is no multiple of 5. */
  method ComputeDiagonals(h: seq<int>, phi: array2<int>, phiScaling: nat)
    requires Square40(phi) && |h| == L_SUBFRAME
    modifies phi
    ensures forall a, b :: 0 <= b < a < L_SUBFRAME && (a - b) % 5 != 0 ==> phi[a, b] == Shr(Phi(h, a, b), phiScaling)
    ensures forall a :: 0 <= a < L_SUBFRAME ==> phi[a, a] == old(phi[a, a])
  {
    hide Phi, Shr;
    var i := 0;
    while i < 8
      invariant 0 <= i <= 8
      invariant forall a, b :: 0 <= b < a < L_SUBFRAME && (a - b) % 5 != 0 && a - b > 39 - 5 * i ==>
                phi[a, b] == Shr(Phi(h, a, b), phiScaling)
      invariant forall a :: 0 <= a < L_SUBFRAME ==> phi[a, a] == old(phi[a, a])
    {
      var j := 0;
      while j < 4
        invariant 0 <= j <= 4
        invariant forall a, b :: 0 <= b < a < L_SUBFRAME && (a - b) % 5 != 0 && a - b > 39 - (5 * i + j) ==>
                  phi[a, b] == Shr(Phi(h, a, b), phiScaling)
        invariant forall a :: 0 <= a < L_SUBFRAME ==> phi[a, a] == old(phi[a, a])
      {
        ComputePhiDiagonal(5 * i + j, h, phi, phiScaling);
        j := j + 1;
      }
      i := i + 1;
    }
  }

  function Sign(x: int): int {
    if x >= 0 then 1 else -1
  }

  /** The correlation signal is replaced by its magnitude, the signs are kept apart. */
  method SplitSigns(c: array<int>) returns (sign: array<int>, signInv: array<int>)
    modifies c
    ensures fresh(sign) && fresh(signInv) && sign.Length == signInv.Length == c.Length
    ensures forall i :: 0 <= i < c.Length ==> sign[i] == Sign(old(c[i])) && signInv[i] == -sign[i]
    ensures forall i :: 0 <= i < c.Length ==> c[i] == Abs(old(c[i])) && old(c[i]) == sign[i] * c[i]
  {
    sign, signInv := new int[c.Length], new int[c.Length];
    var i := 0;
    while i < c.Length
      invariant 0 <= i <= c.Length
      invariant forall k :: i <= k < c.Length ==> c[k] == old(c[k])
      invariant forall k :: 0 <= k < i ==> sign[k] == Sign(old(c[k])) && signInv[k] == -sign[k]
      invariant forall k :: 0 <= k < i ==> c[k] == Abs(old(c[k])) && old(c[k]) == sign[k] * c[k]
    {
      if c[i] >= 0 {
        sign[i], signInv[i] := 1, -1;
      } else {
        sign[i], signInv[i] := -1, 1;
        c[i] := -c[i];
      }
      i := i + 1;
    }
  }

  ghost predicate Signs(s: seq<int>) {
    |s| == L_SUBFRAME && forall i :: 0 <= i < |s| ==> s[i] == 1 || s[i] == -1
  }

  /** eq 56 on the lower triangle: element (i, j) takes the signs of rows i and j. */
  method ApplySigns(phi: array2<int>, sign: array<int>, signInv: array<int>)
    requires Square40(phi) && sign.Length == signInv.Length == L_SUBFRAME && Signs(sign[..])
    requires forall i :: 0 <= i < L_SUBFRAME ==> signInv[i] == -sign[i]
    modifies phi
    ensures forall a, b :: 0 <= b <= a < L_SUBFRAME ==> phi[a, b] == old(phi[a, b]) * (sign[a] * sign[b])
  {
    var i := 0;
    while i < L_SUBFRAME
      invariant 0 <= i <= L_SUBFRAME
      invariant forall a, b :: 0 <= b <= a < i ==> phi[a, b] == old(phi[a, b]) * (sign[a] * sign[b])
      invariant forall a, b :: i <= a < L_SUBFRAME && 0 <= b <= a ==> phi[a, b] == old(phi[a, b])
    {
      var signOfJ := if sign[i] > 0 then sign else signInv;
      assert forall j :: 0 <= j < L_SUBFRAME ==> signOfJ[j] == sign[i] * sign[j] by {
        assert sign[..][i] == sign[i];
      }
      var j := 0;
      while j <= i
        invariant 0 <= j <= i + 1
        invariant forall a, b :: 0 <= b <= a < i ==> phi[a, b] == old(phi[a, b]) * (sign[a] * sign[b])
        invariant forall a, b :: i < a < L_SUBFRAME && 0 <= b <= a ==> phi[a, b] == old(phi[a, b])
        invariant forall b :: 0 <= b < j ==> phi[i, b] == old(phi[i, b]) * signOfJ[b]
        invariant forall b :: j <= b <= i ==> phi[i, b] == old(phi[i, b])
      {
        phi[i, j] := phi[i, j] * signOfJ[j];
        j := j + 1;
      }
      i := i + 1;
    }
  }

  /** The computed elements are copied to their mirror positions. */
  method Mirror(phi: array2<int>)
    requires Square40(phi)
    modifies phi
    ensures forall a, b :: 0 <= b <= a < L_SUBFRAME ==> phi[a, b] == old(phi[a, b])
    ensures forall a, b :: 0 <= b < a < L_SUBFRAME && (a - b) % 5 != 0 ==> phi[b, a] == phi[a, b]
  {
    var i := 0;
    while i < 8
      invariant 0 <= i <= 8
      invariant forall a, b :: 0 <= b <= a < L_SUBFRAME ==> phi[a, b] == old(phi[a, b])
      invariant forall a, b :: 0 <= b < a < L_SUBFRAME && (a - b) % 5 != 0 && a - b > 39 - 5 * i ==>
                phi[b, a] == phi[a, b]
    {
      var j := 0;
      while j < 4
        invariant 0 <= j <= 4
        invariant forall a, b :: 0 <= b <= a < L_SUBFRAME ==> phi[a, b] == old(phi[a, b])
        invariant forall a, b :: 0 <= b < a < L_SUBFRAME && (a - b) % 5 != 0 && a - b > 39 - (5 * i + j) ==>
                  phi[b, a] == phi[a, b]
      {
        MirrorDiagonal(phi, 5 * i + j);
        j := j + 1;
      }
      i := i + 1;
    }
  }

  method MirrorDiagonal(phi: array2<int>, startIndex: nat)
    requires Square40(phi) && startIndex < 39
    modifies phi
    ensures forall a, b :: 0 <= b < a < L_SUBFRAME && a - b == 39 - startIndex ==> phi[b, a] == old(phi[a, b])
    ensures forall a, b :: 0 <= a < L_SUBFRAME && 0 <= b < L_SUBFRAME && b - a != 39 - startIndex ==>
            phi[a, b] == old(phi[a, b])
  {
    var k := 0;
    while k <= startIndex
      invariant 0 <= k <= startIndex + 1
      invariant forall a, b :: 0 <= b < a < L_SUBFRAME && a - b == 39 - startIndex && a > 39 - k ==>
                phi[b, a] == old(phi[a, b])
      invariant forall a, b :: 0 <= a < L_SUBFRAME && 0 <= b < L_SUBFRAME && b - a != 39 - startIndex ==>
                phi[a, b] == old(phi[a, b])
    {
      phi[startIndex - k, 39 - k] := phi[39 - k, startIndex - k];
      k := k + 1;
    }
  }

  /** The number of bits dropped so that ten summed elements fit 32 bits. */
  ghost predicate ScalingFor(halfEnergy: int, phiScaling: nat) {
    if halfEnergy > 0x6666666 then
      0 < phiScaling <= 3
      && 0x8000000 * Pow2(phiScaling) <= 2 * halfEnergy + 0x3333333 < 0x10000000 * Pow2(phiScaling)
    else phiScaling == 0
  }

  /** Element (a, b) as the search reads it. */
  function Element(h: seq<int>, sign: seq<int>, phiScaling: nat, a: int, b: int): int {
    if a == b then Shr(Shr(Phi(h, a, a), 1), phiScaling)
    else Shr(Phi(h, a, b), phiScaling) * (At(sign, a) * At(sign, b))
  }

  /** Indices on different tracks, or equal: the elements the search may read. */
  predicate Readable(a: int, b: int) {
    0 <= a < L_SUBFRAME && 0 <= b < L_SUBFRAME && (a == b || (a - b) % 5 != 0)
  }

  lemma SquareOfSign(v: int, s: int)
    requires s == 1 || s == -1
    ensures v * (s * s) == v
  {
  }

  lemma LowerElement(h: seq<int>, sign: seq<int>, phiScaling: nat, a: int, b: int)
    requires Signs(sign) && Readable(a, b) && b <= a
    ensures (if a == b then Shr(Shr(Phi(h, a, a), 1), phiScaling) else Shr(Phi(h, a, b), phiScaling))
              * (sign[a] * sign[b])
         == Element(h, sign, phiScaling, a, b)
  {
    hide Phi, Shr;
    if a == b {
      SquareOfSign(Shr(Shr(Phi(h, a, a), 1), phiScaling), sign[a]);
    }
  }

  lemma ElementSymmetric(h: seq<int>, sign: seq<int>, phiScaling: nat, a: int, b: int)
    ensures Element(h, sign, phiScaling, a, b) == Element(h, sign, phiScaling, b, a)
  {
    hide Phi, Shr, At;
    PhiSymmetric(h, a, b);
    assert At(sign, a) * At(sign, b) == At(sign, b) * At(sign, a);
  }

  /** The whole construction: every readable element holds its definition, c its magnitudes. */
  method ComputeImpulseResponseCorrelationMatrix(h: seq<int>, c: array<int>, phi: array2<int>)
    returns (sign: seq<int>, phiScaling: nat)
    requires |h| == L_SUBFRAME && c.Length == L_SUBFRAME && Square40(phi)
    requires Phi(h, 0, 0) + 0x3333333 <= MAXINT32
    modifies c, phi
    ensures Signs(sign)
    ensures forall i :: 0 <= i < L_SUBFRAME ==> sign[i] == Sign(old(c[i])) && c[i] == Abs(old(c[i]))
    ensures ScalingFor(Shr(Phi(h, 0, 0), 1), phiScaling)
    ensures forall a, b :: Readable(a, b) ==> phi[a, b] == Element(h, sign, phiScaling, a, b)
  {
    hide Phi, Shr, Element;
    ComputeMainDiagonal(h, phi);
    phiScaling := 0;
    if phi[0, 0] > 0x6666666 {
      phiScaling := ChooseScaling(phi[0, 0], Phi(h, 0, 0));
      ScaleMainDiagonal(phi, phiScaling);
    } else {
      forall a
        ensures Shr(Shr(Phi(h, a, a), 1), 0) == Shr(Phi(h, a, a), 1)
      {
        ShiftByZero(Shr(Phi(h, a, a), 1));
      }
    }
    ComputeDiagonals(h, phi, phiScaling);
    var signs, signsInv := SplitSigns(c);
    sign := signs[..];
    ApplySigns(phi, signs, signsInv);
    Mirror(phi);
    forall a, b | Readable(a, b)
      ensures phi[a, b] == Element(h, sign, phiScaling, a, b)
    {
      if b <= a {
        LowerElement(h, sign, phiScaling, a, b);
      } else {
        LowerElement(h, sign, phiScaling, b, a);
        ElementSymmetric(h, sign, phiScaling, a, b);
      }
    }
  }

  /** 3 minus the number of leading zeros of twice the largest element plus a guard. */
  method ChooseScaling(halfEnergy: int, energy: int) returns (phiScaling: nat)
    requires halfEnergy > 0x6666666 && halfEnergy == Shr(energy, 1) && energy + 0x3333333 <= MAXINT32
    ensures ScalingFor(halfEnergy, phiScaling)
  {
    ShiftBounds(energy, 1);
    assert Pow2(1) == 2 && Pow2(2) == 4 && Pow2(3) == 8;
    var x := 2 * halfEnergy + 0x3333333;
    var leadingZeros := 0;
    var y := x;
    while y < 0x40000000
      invariant 0 <= leadingZeros <= 2
      invariant y == x * (if leadingZeros == 0 then 1 else if leadingZeros == 1 then 2 else 4)
      invariant leadingZeros > 0 ==> y / 2 < 0x40000000
      decreases 0x40000000 - y
    {
      leadingZeros := leadingZeros + 1;
      y := y * 2;
    }
    phiScaling := 3 - leadingZeros;
  }
}
