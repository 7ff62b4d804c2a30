/** The interpolation of the code in its integer format, which is coarser than the exact one. */
module LspInterpolation {
  import opened FixedPoint

  /** Bit 28 of a two's complement word. */
  function Bit28(v: int): int {
    v / 0x10000000 % 2
  }

  /** Bit 28 of the exclusive or of two words. */
  predicate XorBit28(p: int, c: int) {
    (Bit28(p) + Bit28(c)) % 2 == 1
  }

  predicate Narrow(v: int) {
    -0x10000000 <= v < 0x10000000
  }

  /** The range of Q2.15, in which a left shift by 14 stays in 32 bits. */
  predicate ShiftFits(v: int) {
    -0x20000 <= v < 0x20000
  }

  lemma ShiftFitsIff(v: int)
    ensures ShiftFits(v) <==> Fits32(v * 0x4000)
    ensures ShiftFits(v) ==> Narrow(v)
  {
  }

  /** On values of at most 28 bits and a sign it is set exactly when their signs differ. */
  lemma XorBit28IsSignChange(p: int, c: int)
    requires Narrow(p) && Narrow(c)
    ensures XorBit28(p, c) <==> (p < 0) != (c < 0)
  {
  }

  /** The divisor of the interpolation. */
  function Divisor(previousCx: int, cx: int): int {
    Shr(cx - previousCx, 1)
  }

  /** After a sign change the divisor is zero for exactly one pair of values. */
  lemma DivisorZero(previousCx: int, cx: int)
    requires (previousCx < 0) != (cx < 0)
    ensures Divisor(previousCx, cx) == 0 <==> previousCx == -1 && cx == 0
  {
    assert Pow2(1) == 2;
  }

  function Interpolated(xLow: int, xHigh: int, previousCx: int, cx: int): int
    requires Divisor(previousCx, cx) != 0
  {
    xLow - SplitMultiply(xHigh - xLow, Truncate(Cast32(previousCx * 0x4000), Divisor(previousCx, cx)), 15)
  }

  /** The upper end is exactly a root and the rounded-down half of an odd value makes the step too long. */
  predicate StepTooLong(w: int, previousCx: int, cx: int) {
    cx == 0 && previousCx < -1 && previousCx % 2 == 1 && w * (0x4000 / (-previousCx / 2)) >= 0x8000
  }

  /** The integer interpolation of a value in Q2.15 stays in its cell except in that one case. */
  lemma InterpolationInsideCell(xLow: int, xHigh: int, previousCx: int, cx: int)
    requires xHigh <= xLow && (previousCx < 0) != (cx < 0)
    requires !(previousCx == -1 && cx == 0) && ShiftFits(previousCx)
    ensures Divisor(previousCx, cx) != 0
    ensures Interpolated(xLow, xHigh, previousCx, cx) <= xLow
    ensures xHigh <= Interpolated(xLow, xHigh, previousCx, cx) <==> !StepTooLong(xLow - xHigh, previousCx, cx)
  {
    DivisorZero(previousCx, cx);
    ShiftFitsIff(previousCx);
    var w := xLow - xHigh;
    var q := Step(previousCx, cx);
    StepIsQuotient(previousCx, cx);
    SplitMultiplyIsFloor(xHigh - xLow, -q, 15);
    assert (xHigh - xLow) * -q == w * q by { NegatedTwice(w, q); }
    Powers();
    NonNegativeProduct(w, q);
    StepInside(w, q);
    StepBound(previousCx, cx);
    if cx == 0 && previousCx % 2 == 1 {
      LongStep(w, -previousCx / 2);
    } else {
      MultiplyMonotone(q, 0x8000, w);
    }
  }

  lemma NegatedTwice(w: int, q: int)
    ensures -w * -q == w * q
  {
  }

  lemma NonNegativeProduct(w: int, q: int)
    requires w >= 0 && q >= 0
    ensures w * q >= 0
  {
  }

  /** Abs of the quotient, in Q15. */
  function Step(previousCx: int, cx: int): int
    requires Divisor(previousCx, cx) != 0
  {
    Abs(previousCx) * 0x4000 / Abs(Divisor(previousCx, cx))
  }

  lemma StepIsQuotient(previousCx: int, cx: int)
    requires (previousCx < 0) != (cx < 0) && Divisor(previousCx, cx) != 0
    ensures Truncate(previousCx * 0x4000, Divisor(previousCx, cx)) == -Step(previousCx, cx)
    ensures Step(previousCx, cx) >= 0
  {
    assert Pow2(1) == 2;
  }

  /** The quotient passes one only when the second value is zero and the first one odd. */
  lemma StepBound(previousCx: int, cx: int)
    requires (previousCx < 0) != (cx < 0) && Divisor(previousCx, cx) != 0
    ensures !(cx == 0 && previousCx % 2 == 1) ==> Step(previousCx, cx) <= 0x8000
    ensures cx == 0 && previousCx % 2 == 1 ==> Step(previousCx, cx) == 0x8000 + 0x4000 / (-previousCx / 2)
  {
    assert Pow2(1) == 2;
    var m, d := Abs(previousCx), Abs(Divisor(previousCx, cx));
    if cx == 0 && previousCx % 2 == 1 {
      assert m == 2 * d + 1 && d == -previousCx / 2;
      assert m * 0x4000 == 0x8000 * d + 0x4000;
      QuotientUnique(0x8000 * d + 0x4000, d, 0x8000 + 0x4000 / d);
    } else {
      assert m <= 2 * d;
      AtMost(m * 0x4000, d, 0x8000);
    }
  }

  lemma AtMost(a: int, d: int, q: int)
    requires d > 0 && a <= q * d
    ensures a / d <= q
  {
    if a / d > q {
      MultiplyMonotone(q + 1, a / d, d);
      assert false;
    }
  }

  lemma StepInside(w: int, q: int)
    requires w >= 0 && w * q >= 0
    ensures w * q / 0x8000 >= 0
    ensures w * q / 0x8000 <= w <==> w * q < (w + 1) * 0x8000
  {
  }

  lemma LongStep(w: int, d: int)
    requires d > 0
    ensures w * (0x8000 + 0x4000 / d) < (w + 1) * 0x8000 <==> w * (0x4000 / d) < 0x8000
  {
    assert w * (0x8000 + 0x4000 / d) == w * 0x8000 + w * (0x4000 / d);
  }

  /** One halving of an interval: the half next to its lower or to its upper end. */
  function Half(ends: (int, int), lower: bool): (int, int) {
    var mean := Shr(ends.0 + ends.1, 1);
    if lower then (mean, ends.1) else (ends.0, mean)
  }

  /** The exception is real: the last quarter of the second cell of the grid, and a point placed below it. */
  lemma InterpolationLeavesCell()
    ensures Half(Half((32703, 32509), true), true) == (32557, 32509)
    ensures XorBit28(-3, 0) && StepTooLong(32557 - 32509, -3, 0)
    ensures Divisor(-3, 0) == 1 && Interpolated(32557, 32509, -3, 0) == 32485 < 32509
  {
    assert Pow2(1) == 2;
    Powers();
    SplitMultiplyIsFloor(-48, -49152, 15);
  }

  /** Values just beyond Q2.15 lose their top bit in the shift, and the point lands above its cell. */
  lemma ShiftLeavesCell()
    ensures Half(Half((12062, 10125), false), false) == (12062, 11577)
    ensures XorBit28(131073, -1) && Narrow(131073) && !ShiftFits(131073) && !StepTooLong(12062 - 11577, 131073, -1)
    ensures Interpolated(12062, 11577, 131073, -1) == 12547 > 12062
  {
    assert Pow2(1) == 2;
    Powers();
    assert Divisor(131073, -1) == -65537;
    assert Cast32(131073 * 0x4000) == -0x7fffc000;
    assert Truncate(-0x7fffc000, -65537) == 32767;
    SplitMultiplyIsFloor(-485, 32767, 15);
  }
}
