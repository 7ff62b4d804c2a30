/** The scaled square root with which cng.c solves the equation for the pulse height, against the exact root. */
module PulseArithmetic {
  import opened RealSums
  import opened FixedPoint

  /** sigma is the square root of d. */
  ghost predicate IsRoot(sigma: real, d: int) {
    sigma >= 0.0 && sigma * sigma == d as real
  }

  lemma SquareOrder(a: real, b: real)
    requires b >= 0.0 && a * a <= b * b
    ensures a <= b
  {
    if a > b {
      Factors(a, b);
      Positive(a - b, a + b);
      assert false;
    }
  }

  lemma Factors(a: real, b: real)
    ensures (a - b) * (a + b) == a * a - b * b
  {
  }

  lemma Positive(a: real, b: real)
    requires a > 0.0 && b > 0.0
    ensures a * b > 0.0
  {
  }

  lemma SquareOfProduct(x: int, p: int)
    ensures x * p * (x * p) == x * x * (p * p)
  {
  }

  /** 128 times the root, against an integer between whose square and that of 128 sigma an order is known. */
  lemma RootAbove(x: int, sigma: real, d: int)
    requires IsRoot(sigma, d) && x >= 0 && 16384 * d <= x * x
    ensures 128.0 * sigma <= x as real
  {
    Scale128(sigma);
    assert (x * x) as real == x as real * x as real;
    SquareOrder(128.0 * sigma, x as real);
  }

  lemma RootBelow(x: int, sigma: real, d: int)
    requires IsRoot(sigma, d) && (x > 0 ==> x * x <= 16384 * d)
    ensures x as real <= 128.0 * sigma
  {
    if x > 0 {
      Scale128(sigma);
      assert (x * x) as real == x as real * x as real;
      SquareOrder(x as real, 128.0 * sigma);
    }
  }

  lemma Scale128(sigma: real)
    ensures 128.0 * sigma * (128.0 * sigma) == 16384.0 * (sigma * sigma)
  {
  }

  /** root is 128 times the square root of d, up to err. */
  predicate SquareRootNear(root: int, d: int, err: nat) {
    && root >= 0 && 16384 * d <= (root + err) * (root + err)
    && (root > err ==> (root - err) * (root - err) <= 16384 * d)
  }

  /** d over p^2, rounded down; a large quotient unless p is one. */
  predicate Quartered(d: int, p: int, quotient: int) {
    && p >= 1 && quotient >= 0 && quotient * (p * p) <= d < (quotient + 1) * (p * p)
    && (p > 1 ==> quotient >= 0x20000000)
  }

  /** One unit more covers what the quotient lost. */
  lemma NextSquare(root: int, quotient: int, err: nat)
    requires SquareRootNear(root, quotient, err) && quotient >= 0x20000000
    ensures 16384 * (quotient + 1) <= (root + err + 1) * (root + err + 1)
  {
    var r := root + err;
    assert (r + 1) * (r + 1) == r * r + 2 * r + 1;
    if r < 0x100000 {
      MultiplyMonotone(r, 0x100000, r);
      MultiplyMonotone(r, 0x100000, 0x100000);
      assert false;
    }
  }

  /** The root of the quotient, scaled back by p, against 128 times the root of d. */
  lemma ScaledRoot(root: int, d: int, p: int, quotient: int, err: nat, sigma: real)
    requires SquareRootNear(root, quotient, err) && Quartered(d, p, quotient) && IsRoot(sigma, d)
    ensures ((root - err) * p) as real <= 128.0 * sigma <= ((root + err + 1) * p) as real
  {
    hide IsRoot;
    var low, high := root - err, root + err + 1;
    if low > 0 {
      SquareOfProduct(low, p);
      MultiplyMonotone(low * low, 16384 * quotient, p * p);
      Associate(16384, quotient, p * p);
    } else {
      MultiplyMonotone(low, 0, p);
    }
    RootBelow(low * p, sigma, d);
    SquareOfProduct(high, p);
    if p > 1 {
      NextSquare(root, quotient, err);
      MultiplyMonotone(16384 * (quotient + 1), high * high, p * p);
      Associate(16384, quotient + 1, p * p);
    } else {
      MultiplyMonotone(root + err, high, root + err);
      MultiplyMonotone(root + err, high, high);
    }
    RootAbove(high * p, sigma, d);
  }

  lemma Associate(x: int, y: int, z: int)
    ensures x * y * z == x * (y * z)
  {
  }

  /** A scale above one is small against the root. */
  lemma ScaleBelowRoot(d: int, p: int, quotient: int, sigma: real)
    requires Quartered(d, p, quotient) && IsRoot(sigma, d)
    ensures p as real <= 1.0 + sigma / 16384.0
  {
    if p > 1 {
      MultiplyMonotone(0x10000000, quotient, p * p);
      SquareOfProduct(p, 16384);
      assert (p * 16384) as real * (p * 16384) as real == (p * 16384 * (p * 16384)) as real;
      SquareOrder((p * 16384) as real, sigma);
    }
  }

  // ---- The shifts

  /** The linear term in the format of the root: 2 to the (7 - h). */
  lemma ScaledTerm(inter: int, h: nat)
    ensures var b := Vshr(inter, h - 7);
            128 * inter - Pow2(h) < b * Pow2(h) <= 128 * inter && (b >= 0 <==> inter >= 0)
  {
    hide Pow2;
    HighPowersOf7();
    if h > 7 {
      Pow2Sum(7, h - 7);
      ShiftBounds(inter, h - 7);
      ShiftScaled(Shr(inter, h - 7), inter, Pow2(h - 7), 128);
    } else {
      Pow2Sum(h, 7 - h);
      Associate(inter, Pow2(7 - h), Pow2(h));
      NonNegativeTimes(inter, Pow2(7 - h));
    }
  }

  lemma HighPowersOf7()
    ensures Pow2(7) == 128 && Pow2(9) == 512
  {
  }

  lemma ShiftScaled(b: int, x: int, s: int, k: int)
    requires b * s <= x < b * s + s && s >= 1 && k >= 1
    ensures k * x - k * s < b * (k * s) <= k * x && (b >= 0 <==> x >= 0)
  {
    Associate(k, b, s);
    assert b * (k * s) == k * b * s;
    if b < 0 {
      MultiplyMonotone(b + 1, 0, s);
    } else {
      MultiplyMonotone(0, b, s);
    }
  }

  lemma NonNegativeTimes(x: int, s: int)
    requires s >= 1
    ensures x * s >= 0 <==> x >= 0
  {
  }

  /** The height in Q0: x over four times the format. */
  lemma ScaledHeight(x: int, h: nat)
    ensures x * Pow2(h) - 512 < 512 * Vshr(x, 9 - h) <= x * Pow2(h)
  {
    hide Pow2;
    HighPowersOf7();
    if h < 9 {
      Pow2Sum(h, 9 - h);
      ShiftBounds(x, 9 - h);
      HeightFromShift(Vshr(x, 9 - h), x, Pow2(9 - h), Pow2(h));
    } else {
      Pow2Sum(9, h - 9);
      HeightFromProduct(x, Pow2(h - 9), Pow2(h));
    }
  }

  lemma HeightFromShift(g: int, x: int, s: int, p: int)
    requires g * s <= x < g * s + s && s >= 1 && p >= 1 && p * s == 512
    ensures x * p - 512 < 512 * g <= x * p
  {
    ShiftScaled(g, x, s, p);
  }

  lemma HeightFromProduct(x: int, s: int, p: int)
    requires p == 512 * s
    ensures x * p == 512 * (x * s)
  {
  }

  /** Of the two roots the smaller one has the sign of the square root opposite to that of the linear term. */
  lemma SmallerRoot(root: int, b: int)
    requires root >= 0
    ensures var x1, x2 := root - b, -(root + b);
            (if Abs(x2) < Abs(x1) then x2 else x1) == (if b >= 0 then root - b else -root - b)
  {
  }

  // ---- The height and the energy it reaches

  /** How far the height may be from the exact one. */
  function Margin(sigma: real, err: nat): real {
    1.0 + (err as real + 2.0) / 512.0 * (1.0 + sigma / 16384.0)
  }

  /** The root of smaller magnitude, in exact arithmetic. */
  function ExactHeight(sigma: real, inter: int): real {
    (if inter >= 0 then sigma - inter as real else -sigma - inter as real) / 4.0
  }

  ghost predicate HeightNear(g: int, sigma: real, inter: int, err: nat) {
    -Margin(sigma, err) <= g as real - ExactHeight(sigma, inter) <= Margin(sigma, err)
  }

  lemma HeightClose(root: int, d: int, h: nat, quotient: int, inter: int, err: nat, sigma: real)
    requires SquareRootNear(root, quotient, err) && Quartered(d, Pow2(h), quotient) && IsRoot(sigma, d)
    ensures var b := Vshr(inter, h - 7);
            HeightNear(Vshr(if b >= 0 then root - b else -root - b, 9 - h), sigma, inter, err)
  {
    hide Vshr, Pow2, SquareRootNear, Quartered, IsRoot;
    var p, b := Pow2(h), Vshr(inter, h - 7);
    var x := if b >= 0 then root - b else -root - b;
    var g := Vshr(x, 9 - h);
    ScaledRoot(root, d, p, quotient, err, sigma);
    ScaleBelowRoot(d, p, quotient, sigma);
    ScaledTerm(inter, h);
    ScaledHeight(x, h);
    RootProducts(root, err, b, p);
    assert IsRoot(sigma, d) ==> sigma >= 0.0 by { RootNonNegative(sigma, d); }
    MarginCovers(p as real, sigma, err);
    Gathered(root * p, b * p, x * p, p, err, err * p, inter, g, sigma);
  }

  lemma RootNonNegative(sigma: real, d: int)
    ensures IsRoot(sigma, d) ==> sigma >= 0.0
  {
  }

  lemma RootProducts(root: int, err: int, b: int, p: int)
    ensures (root - err) * p == root * p - err * p && (root + err + 1) * p == root * p + err * p + p
    ensures (root - b) * p == root * p - b * p && (-root - b) * p == -(root * p) - b * p
  {
  }

  /** 512 times the margin exceeds the errors of root, term and shift, each times the scale. */
  lemma MarginCovers(p: real, sigma: real, err: nat)
    requires 1.0 <= p <= 1.0 + sigma / 16384.0
    ensures err as real * p + 2.0 * p + 512.0 <= 512.0 * Margin(sigma, err)
  {
    var k := err as real + 2.0;
    NonNegativeProduct(k, 1.0 + sigma / 16384.0 - p);
    MarginProduct(k, p, 1.0 + sigma / 16384.0);
  }

  lemma MarginProduct(k: real, p: real, q: real)
    ensures k * (q - p) == k * q - k * p && 512.0 * (k / 512.0 * q) == k * q
  {
  }

  lemma Gathered(rp: int, bp: int, xp: int, p: int, err: nat, ep: int, inter: int, g: int, sigma: real)
    requires (rp - ep) as real <= 128.0 * sigma <= (rp + ep + p) as real && p >= 1 && ep == err * p
    requires 128 * inter - p < bp <= 128 * inter
    requires xp == if inter >= 0 then rp - bp else -rp - bp
    requires xp - 512 < 512 * g <= xp
    requires err as real * p as real + 2.0 * p as real + 512.0 <= 512.0 * Margin(sigma, err)
    ensures HeightNear(g, sigma, inter, err)
  {
    hide Margin;
    assert ep as real == err as real * p as real;
    var m := Margin(sigma, err);
  }

  /** The quadratic at a height near its exact root. */
  lemma EnergyNear(g: int, sigma: real, inter: int, delta: int, err: nat)
    requires HeightNear(g, sigma, inter, err) && IsRoot(sigma, delta)
    ensures var m := Margin(sigma, err);
            var bound := 4.0 * (m * m) + 2.0 * (m * sigma);
            -bound <= (4 * (g * g) + 2 * g * inter) as real - (delta - inter * inter) as real / 4.0 <= bound
  {
    hide Margin, ExactHeight;
    var m, u, v := Margin(sigma, err), g as real, inter as real;
    var signed := if inter >= 0 then sigma else -sigma;
    ExactHeightIs(sigma, inter);
    IntegerQuadratic(g, inter);
    SignedSquare(sigma, signed);
    QuadraticNear(u, v, signed, sigma, m);
  }

  lemma QuadraticNear(u: real, v: real, signed: real, sigma: real, m: real)
    requires -m <= u - (signed - v) / 4.0 <= m && -sigma <= signed <= sigma
    ensures var bound := 4.0 * (m * m) + 2.0 * (m * sigma);
            -bound <= 4.0 * (u * u) + 2.0 * (u * v) - (signed * signed - v * v) / 4.0 <= bound
  {
    var e := u - (signed - v) / 4.0;
    QuadraticAt(u, v, signed, e);
    ProductInside(e, e, m, m);
    ProductInside(e, signed, m, sigma);
    Twofold(4.0 * (u * u) + 2.0 * (u * v) - (signed * signed - v * v) / 4.0, e * e, e * signed, m * m, m * sigma);
  }

  lemma Twofold(q: real, x: real, y: real, m: real, n: real)
    requires q == 4.0 * x + 2.0 * y && -m <= x <= m && -n <= y <= n
    ensures -(4.0 * m + 2.0 * n) <= q <= 4.0 * m + 2.0 * n
  {
  }

  lemma ExactHeightIs(sigma: real, inter: int)
    ensures ExactHeight(sigma, inter) == ((if inter >= 0 then sigma else -sigma) - inter as real) / 4.0
  {
  }

  lemma IntegerQuadratic(g: int, inter: int)
    ensures (4 * (g * g) + 2 * g * inter) as real
         == 4.0 * (g as real * g as real) + 2.0 * (g as real * inter as real)
    ensures (inter * inter) as real == inter as real * inter as real
  {
    assert 2 * g * inter == 2 * (g * inter);
  }

  lemma SignedSquare(sigma: real, signed: real)
    requires signed == sigma || signed == -sigma
    ensures signed * signed == sigma * sigma
  {
  }

  lemma QuadraticAt(g: real, b: real, s: real, e: real)
    requires e == g - (s - b) / 4.0
    ensures 4.0 * (g * g) + 2.0 * (g * b) - (s * s - b * b) / 4.0 == 4.0 * (e * e) + 2.0 * (e * s)
  {
    var x := (s - b) / 4.0;
    assert g == x + e;
    assert g * g == x * x + 2.0 * (x * e) + e * e;
    assert g * b == x * b + e * b;
    assert s == 4.0 * x + b;
    assert s * s == 16.0 * (x * x) + 8.0 * (x * b) + b * b;
    assert e * s == 4.0 * (x * e) + e * b;
  }

  lemma ProductInside(x: real, y: real, m: real, n: real)
    requires -m <= x <= m && -n <= y <= n
    ensures -(m * n) <= x * y <= m * n
  {
    NonNegativeProduct(m - x, n + y);
    NonNegativeProduct(m + x, n - y);
    NonNegativeProduct(m - x, n - y);
    NonNegativeProduct(m + x, n + y);
    FourProducts(x, y, m, n);
  }

  lemma FourProducts(x: real, y: real, m: real, n: real)
    ensures (m - x) * (n + y) == m * n + m * y - x * n - x * y && (m + x) * (n - y) == m * n - m * y + x * n - x * y
    ensures (m - x) * (n - y) == m * n - m * y - x * n + x * y && (m + x) * (n + y) == m * n + m * y + x * n + x * y
  {
  }
}
