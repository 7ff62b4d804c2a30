/** The arithmetic macros of fixedPointMacros.h, on unbounded integers. */
module FixedPoint {

  const MAXINT16 := 0x7fff
  const MAXINT32 := 0x7fffffff

  function Pow2(n: nat): (p: nat)
    ensures p >= 1
  {
    if n == 0 then 1 else 2 * Pow2(n - 1)
  }

  lemma Powers()
    ensures Pow2(1) == 2 && Pow2(2) == 4 && Pow2(3) == 8 && Pow2(4) == 16 && Pow2(5) == 32 && Pow2(7) == 128
            && Pow2(8) == 256
    ensures Pow2(12) == 0x1000 && Pow2(13) == 0x2000 && Pow2(14) == 0x4000 && Pow2(15) == 0x8000
  {
    assert Pow2(5) == 32 && Pow2(10) == 1024;
  }

  lemma HighPowers()
    ensures Pow2(27) == 0x8000000 && Pow2(28) == 0x10000000 && Pow2(30) == 0x40000000 && Pow2(31) == 0x80000000
  {
    assert Pow2(10) == 1024 && Pow2(20) == 1024 * 1024;
  }

  /** SHR: an arithmetic right shift rounds towards minus infinity. */
  function Shr(a: int, n: nat): int {
    a / Pow2(n)
  }

  /** VSHR32: a right shift by a positive count, else a left shift. */
  function Vshr(a: int, n: int): int {
    if n > 0 then Shr(a, n) else a * Pow2(-n)
  }

  /** PSHR: right shift with rounding to nearest, halves upwards. */
  function Pshr(a: int, n: nat): int {
    Shr(a + Pow2(n) / 2, n)
  }

  /** SATURATE(x, MAXINT16) */
  function Saturate16(x: int): (y: int)
    ensures Fits16(y)
    ensures Fits16(x) ==> y == x
  {
    if x > MAXINT16 then MAXINT16 else if x < -(MAXINT16 + 1) then -(MAXINT16 + 1) else x
  }

  predicate Fits16(x: int) {
    -0x8000 <= x <= 0x7fff
  }

  /** v is the 16-bit word nearest to sum / unit, halves upwards: within half a unit of it, unless it is the end of the
      range beyond which the quotient lies. */
  predicate NearestWord(v: int, sum: int, unit: int) {
    && Fits16(v)
    && (v < MAXINT16 ==> 2 * (sum - unit * v) < unit)
    && (v > -MAXINT16 - 1 ==> -unit <= 2 * (sum - unit * v))
  }

  /** There is no other such word. */
  lemma NearestIsUnique(v: int, w: int, sum: int, unit: int)
    requires unit > 0 && NearestWord(v, sum, unit) && NearestWord(w, sum, unit)
    ensures v == w
  {
    if v < w {
      MultiplyMonotone(v + 1, w, unit);
      assert false;
    }
    if w < v {
      MultiplyMonotone(w + 1, v, unit);
      assert false;
    }
  }

  /** A rounding shift, saturated, is that word. */
  lemma SaturatedIsNearest(sum: int, n: nat)
    requires n > 0
    ensures NearestWord(Saturate16(Pshr(sum, n)), sum, Pow2(n))
  {
    assert Pow2(n) == 2 * Pow2(n - 1);
    hide Pow2, Saturate16;
    ShiftBounds(sum + Pow2(n) / 2, n);
    QuotientIsNearest(Pshr(sum, n), sum, Pow2(n - 1));
  }

  lemma QuotientIsNearest(v: int, sum: int, half: int)
    requires half > 0 && v * (2 * half) <= sum + half < v * (2 * half) + 2 * half
    ensures NearestWord(Saturate16(v), sum, 2 * half)
  {
    var unit := 2 * half;
    if v > MAXINT16 {
      MultiplyMonotone(MAXINT16 + 1, v, unit);
    } else if v < -MAXINT16 - 1 {
      MultiplyMonotone(v, -MAXINT16 - 2, unit);
    }
  }

  /** Conversion to a 16-bit word keeps the low 16 bits. */
  function Cast16(x: int): (y: int)
    ensures Fits16(y)
    ensures Fits16(x) ==> y == x
  {
    (x + 0x8000) % 0x10000 - 0x8000
  }

  /** Conversion to a 32-bit word. */
  function Cast32(x: int): (y: int)
    ensures Fits32(y)
    ensures Fits32(x) ==> y == x
  {
    (x + 0x80000000) % 0x100000000 - 0x80000000
  }

  predicate Fits32(x: int) {
    -0x80000000 <= x <= 0x7fffffff
  }

  /** MULT16_32_Qn: the 32-bit factor is split so that both partial products stay small. */
  function SplitMultiply(a: int, b: int, n: nat): int {
    a * Shr(b, n) + Shr(a * (b % Pow2(n)), n)
  }

  /** MULT16_32_Pn */
  function SplitMultiplyRounded(a: int, b: int, n: nat): int {
    a * Shr(b, n) + Pshr(a * (b % Pow2(n)), n)
  }

  /** Division of the C language, towards zero. */
  function Truncate(a: int, b: int): int
    requires b != 0
  {
    if (a >= 0) == (b > 0) then Abs(a) / Abs(b) else -(Abs(a) / Abs(b))
  }

  function Abs(a: int): (m: nat)
    ensures a != 0 ==> m > 0
  {
    if a < 0 then -a else a
  }

  /** Energy of a stretch of samples. */
  function SquareSum(s: seq<int>): int {
    if |s| == 0 then 0 else SquareSum(s[..|s| - 1]) + s[|s| - 1] * s[|s| - 1]
  }

  lemma ShiftBounds(a: int, n: nat)
    ensures Shr(a, n) * Pow2(n) <= a < Shr(a, n) * Pow2(n) + Pow2(n)
  {
  }

  /** A quotient is pinned down by its bounds. */
  lemma QuotientUnique(a: int, d: int, q: int)
    requires d > 0 && q * d <= a < q * d + d
    ensures a / d == q
  {
    var e := a / d;
    assert e * d <= a < e * d + d;
    if e < q {
      assert (e + 1) * d <= q * d by { MultiplyMonotone(e + 1, q, d); }
      assert false;
    }
    if q < e {
      assert (q + 1) * d <= e * d by { MultiplyMonotone(q + 1, e, d); }
      assert false;
    }
  }

  lemma MultiplyMonotone(x: int, y: int, d: int)
    requires x <= y && d >= 0
    ensures x * d <= y * d
  {
  }

  lemma QuotientBelow(a: int, d: int, q: int)
    requires d > 0 && a < q * d
    ensures a / d < q
  {
    if a / d >= q {
      MultiplyMonotone(q, a / d, d);
      assert false;
    }
  }

  lemma QuotientAbove(a: int, d: int, q: int)
    requires d > 0 && q * d <= a
    ensures q <= a / d
  {
    if a / d < q {
      MultiplyMonotone(a / d + 1, q, d);
      assert false;
    }
  }

  /** A quotient of smaller magnitude fits where the larger one does. */
  lemma QuotientFits(x: int, bound: int, d: int)
    requires Abs(x) <= bound && d > 0
    ensures -(bound / d) - 1 <= x / d <= bound / d
  {
    var q := bound / d;
    assert bound < (q + 1) * d;
    assert -(q + 1) * d == -((q + 1) * d);
    QuotientBelow(x, d, q + 1);
    QuotientAbove(x, d, -(q + 1));
  }

  lemma ShiftWhole(a: int, m: int, n: nat)
    ensures Shr(m * Pow2(n) + a, n) == m + Shr(a, n)
  {
    var d := Pow2(n);
    ShiftBounds(a, n);
    assert (m + Shr(a, n)) * d == m * d + Shr(a, n) * d;
    QuotientUnique(m * d + a, d, m + Shr(a, n));
  }

  /** The split product is the exact product shifted once, for every pair of factors. */
  lemma SplitMultiplyIsFloor(a: int, b: int, n: nat)
    ensures SplitMultiply(a, b, n) == Shr(a * b, n)
  {
    SplitProduct(a, b, n);
    ShiftWhole(a * (b % Pow2(n)), a * Shr(b, n), n);
  }

  lemma SplitMultiplyRoundedIsNearest(a: int, b: int, n: nat)
    ensures SplitMultiplyRounded(a, b, n) == Pshr(a * b, n)
  {
    SplitProduct(a, b, n);
    ShiftWhole(a * (b % Pow2(n)) + Pow2(n) / 2, a * Shr(b, n), n);
  }

  lemma SplitProduct(a: int, b: int, n: nat)
    ensures a * b == a * Shr(b, n) * Pow2(n) + a * (b % Pow2(n))
  {
    var d := Pow2(n);
    assert b == Shr(b, n) * d + b % d;
    assert a * (Shr(b, n) * d) == a * Shr(b, n) * d;
    assert a * (Shr(b, n) * d + b % d) == a * (Shr(b, n) * d) + a * (b % d);
  }

  lemma QuotientTwice(a: int, b: int, c: int)
    requires b > 0 && c > 0
    ensures b * c > 0 && a / b / c == a / (b * c)
  {
    var p := a / b;
    var q := p / c;
    PositiveProduct(b, c);
    assert q * c * b <= p * b by { MultiplyMonotone(q * c, p, b); }
    assert (p + 1) * b <= (q * c + c) * b by { MultiplyMonotone(p + 1, q * c + c, b); }
    Regroup(q, b, c);
    QuotientUnique(a, b * c, q);
  }

  lemma PositiveProduct(b: int, c: int)
    requires b > 0 && c > 0
    ensures b * c > 0
  {
  }

  lemma Regroup(q: int, b: int, c: int)
    ensures q * c * b == q * (b * c) && (q * c + c) * b == q * (b * c) + b * c
  {
  }

  /** Shifts compose. */
  lemma ShiftTwice(a: int, m: nat, n: nat)
    ensures Shr(Shr(a, m), n) == Shr(a, m + n)
  {
    Pow2Sum(m, n);
    QuotientTwice(a, Pow2(m), Pow2(n));
  }

  lemma {:induction false} Pow2Sum(m: nat, n: nat)
    ensures Pow2(m + n) == Pow2(m) * Pow2(n)
  {
    if n > 0 {
      Pow2Sum(m, n - 1);
      assert Pow2(m + n) == 2 * Pow2(m + n - 1);
    }
  }

  /** Number of zeros heading a non-negative 32-bit value, sign bit excluded. */
  function LeadingZeros(x: int): nat
    decreases if 0 < x < 0x40000000 then 0x40000000 - x else 0
  {
    if x <= 0 then 31 else if x >= 0x40000000 then 0 else 1 + LeadingZeros(x * 2)
  }

  method CountLeadingZeros(x: int) returns (leadingZeros: nat)
    requires 0 <= x <= MAXINT32
    ensures leadingZeros == LeadingZeros(x) && (x == 0 ==> leadingZeros == 31)
    ensures x > 0 ==> 0x40000000 <= x * Pow2(leadingZeros) <= MAXINT32
  {
    leadingZeros := 0;
    if x == 0 {
      return 31;
    }
    var y := x;
    while y < 0x40000000
      invariant y == x * Pow2(leadingZeros) && 0 < y <= MAXINT32 && leadingZeros + LeadingZeros(y) == LeadingZeros(x)
      decreases 0x40000000 - y
    {
      leadingZeros := leadingZeros + 1;
      DoubleShift(x, leadingZeros);
      y := y * 2;
    }
  }

  lemma {:induction false} LeadingZerosFill(x: int)
    requires 0 < x <= MAXINT32
    ensures x * Pow2(LeadingZeros(x)) <= MAXINT32
    decreases 0x40000000 - x
  {
    if x < 0x40000000 {
      LeadingZerosFill(x * 2);
      DoubleShift(x, LeadingZeros(x));
      ScaleTwice(x, Pow2(LeadingZeros(x) - 1));
    }
  }

  lemma ScaleTwice(x: int, p: int)
    ensures x * 2 * p == x * p * 2
  {
  }

  lemma DoubleShift(x: int, n: nat)
    requires n > 0
    ensures x * Pow2(n) == x * Pow2(n - 1) * 2
  {
  }

  lemma {:induction false} Pow2Monotone(m: nat, n: nat)
    requires m <= n
    ensures Pow2(m) <= Pow2(n)
  {
    if m < n {
      Pow2Monotone(m, n - 1);
    }
  }
}
