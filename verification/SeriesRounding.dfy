/** How far the Q15 recurrence of LP2LSPConversion.c, whose products are rounded down, is from the Chebyshev series of
    order five that it evaluates. */
module SeriesRounding {
  import opened RealSums
  import opened Chebyshev

  /** A product, kept apart from the linear part of the proofs below. */
  function By(a: real, b: real): real {
    a * b
  }

  /** T5 + g1 T4 + g2 T3 + g3 T2 + g4 T1 + g5 / 2 */
  function OrderFive(y: real, g1: real, g2: real, g3: real, g4: real, g5: real): real {
    T(5, y) + By(g1, T(4, y)) + By(g2, T(3, y)) + By(g3, T(2, y)) + By(g4, T(1, y)) + g5 / 2.0
  }

  lemma SeriesOfFive(f: seq<real>, y: real)
    requires |f| == 6
    ensures Series(f, y) == OrderFive(y, f[1], f[2], f[3], f[4], f[5])
  {
    hide T, SeriesTerm;
    var term := (i: int) => SeriesTerm(f, y, i);
    SeriesTermIs(f, y, 0);
    SeriesTermIs(f, y, 1);
    SeriesTermIs(f, y, 2);
    SeriesTermIs(f, y, 3);
    SeriesTermIs(f, y, 4);
    assert Sum(5, term) == Sum(0, term) + term(0) + term(1) + term(2) + term(3) + term(4);
  }

  lemma TwiceBy(n: nat, y: real)
    requires n >= 2
    ensures T(n, y) == 2.0 * By(y, T(n - 1, y)) - T(n - 2, y)
  {
    hide T;
    NextT(n, y);
  }

  /** The backward recurrence, for any coefficients. */
  lemma BackwardIsOrderFive(y: real, g1: real, g2: real, g3: real, g4: real, g5: real, b1: real, b2: real, b3: real,
                            b4: real)
    requires b1 == 2.0 * y + g1 && b2 == 2.0 * By(y, b1) - 1.0 + g2
    requires b3 == 2.0 * By(y, b2) - b1 + g3 && b4 == 2.0 * By(y, b3) - b2 + g4
    ensures By(y, b4) + g5 / 2.0 - b3 == OrderFive(y, g1, g2, g3, g4, g5)
  {
    hide T, By;
    TwiceBy(5, y);
    TwiceBy(4, y);
    TwiceBy(3, y);
    TwiceBy(2, y);
    LowT(y);
    FirstFold(y, g1, T(4, y));
    FoldStep(y, T(4, y), T(3, y), T(2, y), b1, 1.0, g2, b2);
    FoldStep(y, T(3, y), T(2, y), T(1, y), b2, b1, g3, b3);
    FoldStep(y, T(2, y), T(1, y), T(0, y), b3, b2, g4, b4);
    ByOne(y, b4);
    ByOne(T(3, y), b3);
  }

  lemma ByOne(a: real, b: real)
    ensures By(1.0, a) == a && By(b, 1.0) == b && By(a, b) == By(b, a)
  {
  }

  lemma FirstFold(y: real, g: real, t: real)
    ensures By(2.0 * y + g, t) == 2.0 * By(y, t) + By(g, t)
  {
    Spread(2.0 * y, g, t);
    Doubled(y, t);
  }

  lemma FoldStep(y: real, t: real, t1: real, t2: real, b: real, previous: real, g: real, next: real)
    requires t == 2.0 * By(y, t1) - t2 && next == 2.0 * By(y, b) - previous + g
    ensures By(b, t) - By(previous, t1) + By(g, t1) == By(next, t1) - By(b, t2)
  {
    Doubled(y, t1);
    Doubled(y, b);
    RecurrenceStep(b, previous, t, t1, t2, y, g, b * t - previous * t1);
  }

  lemma Spread(a: real, b: real, c: real)
    ensures (a + b) * c == a * c + b * c
  {
  }

  lemma Doubled(y: real, u: real)
    ensures 2.0 * y * u == 2.0 * (y * u)
  {
  }

  /** On [-1, 1] the first three Chebyshev polynomials stay there too. */
  lemma ChebyshevBounded(y: real)
    requires -1.0 <= y <= 1.0
    ensures -1.0 <= T(1, y) <= 1.0 && -1.0 <= T(2, y) <= 1.0 && -1.0 <= T(3, y) <= 1.0
  {
    hide T;
    NextT(3, y);
    NextT(2, y);
    LowT(y);
    assert T(2, y) == 2.0 * (y * y) - 1.0;
    var t := 2.0 * (y * y) - 1.0;
    NonNegativeProduct(1.0 - y, 1.0 + y);
    Distributes(1.0 - y, 1.0, y);
    SquareNonNegative(y);
    CubicBounded(y);
    assert T(3, y) == 2.0 * y * t - y;
  }

  lemma SquareNonNegative(y: real)
    ensures y * y >= 0.0
  {
  }

  /** 1 - T3 = (1 - y) (1 + 2y)^2 and 1 + T3 = (1 + y) (1 - 2y)^2 */
  lemma CubicBounded(y: real)
    requires -1.0 <= y <= 1.0
    ensures -1.0 <= 2.0 * y * (2.0 * (y * y) - 1.0) - y <= 1.0
  {
    var u, v := 1.0 + 2.0 * y, 1.0 - 2.0 * y;
    SquareNonNegative(u);
    SquareNonNegative(v);
    assert u * u == 1.0 + 4.0 * y + 4.0 * (y * y) && v * v == 1.0 - 4.0 * y + 4.0 * (y * y);
    NonNegativeProduct(1.0 - y, u * u);
    NonNegativeProduct(1.0 + y, v * v);
    Cubics(y, y * y);
  }

  lemma Cubics(y: real, q: real)
    requires q == y * y
    ensures (1.0 - y) * (1.0 + 4.0 * y + 4.0 * q) == 1.0 - (2.0 * y * (2.0 * q - 1.0) - y)
    ensures (1.0 + y) * (1.0 - 4.0 * y + 4.0 * q) == 1.0 + (2.0 * y * (2.0 * q - 1.0) - y)
  {
  }

  // ---- The integer recurrence

  /** Integers as real numbers in Q15. */
  function Q15(f: seq<int>): (r: seq<real>)
    ensures |r| == |f|
  {
    seq(|f|, i requires 0 <= i < |f| => f[i] as real / 32768.0)
  }

  /** c is 2 to the 15 times the series of f at x / 2 to the 15, up to eight units. */
  ghost predicate NearSeries(f: seq<int>, x: int, c: int)
    requires |f| == 6
  {
    -7.5 < c as real - 32768.0 * Series(Q15(f), x as real / 32768.0) < 6.0
  }

  /** Beyond those units its sign is that of the series. */
  lemma SignOfSeries(f: seq<int>, x: int, c: int)
    requires |f| == 6 && NearSeries(f, x, c)
    ensures c >= 6 ==> Series(Q15(f), x as real / 32768.0) > 0.0
    ensures c <= -8 ==> Series(Q15(f), x as real / 32768.0) < 0.0
  {
  }

  /** The series changes its sign between two points, or comes within the same units of zero at one of them. */
  ghost predicate SignChange(f: seq<int>, x: int, y: int)
    requires |f| == 6
  {
    var u, v := 32768.0 * Series(Q15(f), x as real / 32768.0), 32768.0 * Series(Q15(f), y as real / 32768.0);
    (u < 6.5 && v > -6.0) || (v < 6.5 && u > -6.0)
  }

  lemma OppositeSigns(f: seq<int>, x: int, cx: int, y: int, cy: int)
    requires |f| == 6 && NearSeries(f, x, cx) && NearSeries(f, y, cy) && (cx < 0) != (cy < 0)
    ensures SignChange(f, x, y)
  {
    hide Series;
  }

  /** q is the product of x and b in Q15, rounded down. */
  predicate FloorProduct(x: int, b: int, q: int) {
    0 <= x * b - 32768 * q < 32768
  }

  /** The fraction that the rounding drops. */
  function Dropped(x: int, b: int, q: int): real {
    (x * b - 32768 * q) as real / 32768.0
  }

  /** One step, over 2 to the 15: exact but for the dropped fraction. */
  lemma DroppedProduct(x: int, b: int, q: int)
    requires FloorProduct(x, b, q)
    ensures 0.0 <= Dropped(x, b, q) < 1.0
    ensures q as real == 32768.0 * By(x as real / 32768.0, b as real / 32768.0) - Dropped(x, b, q)
  {
    assert (x * b) as real == x as real * b as real;
    Quotients(x as real, b as real);
  }

  lemma Quotients(x: real, b: real)
    ensures 32768.0 * (x / 32768.0 * (b / 32768.0)) == x * b / 32768.0
  {
  }

  /** Five floors on the way, of which three count twice. */
  lemma RecurrenceNearSeries(f: seq<int>, x: int, b1: int, q1: int, b2: int, q2: int, b3: int, q3: int, b4: int,
                             q4: int, h: int)
    requires |f| == 6 && -32768 <= x <= 32768
    requires b1 == 2 * x + f[1] && FloorProduct(x, b1, q1)
    requires b2 == 2 * q1 + f[2] - 32768 && FloorProduct(x, b2, q2)
    requires b3 == 2 * q2 + f[3] - b1 && FloorProduct(x, b3, q3)
    requires b4 == 2 * q3 + f[4] - b2 && FloorProduct(x, b4, q4)
    requires 0 <= f[5] - 2 * h <= 1
    ensures NearSeries(f, x, q4 + h - b3)
  {
    hide T, By, FloorProduct, Dropped, Series, OrderFive;
    var y, r := x as real / 32768.0, Q15(f);
    var d1, d2, d3, d4 := Dropped(x, b1, q1), Dropped(x, b2, q2), Dropped(x, b3, q3), Dropped(x, b4, q4);
    DroppedProduct(x, b1, q1);
    DroppedProduct(x, b2, q2);
    DroppedProduct(x, b3, q3);
    DroppedProduct(x, b4, q4);
    var u1, u2, u3, u4 := b1 as real / 32768.0, b2 as real / 32768.0, b3 as real / 32768.0, b4 as real / 32768.0;
    var g2, g3, g4 := r[2] - 2.0 * d1 / 32768.0, r[3] - 2.0 * d2 / 32768.0, r[4] - 2.0 * d3 / 32768.0;
    var g5 := r[5];
    BackwardIsOrderFive(y, r[1], g2, g3, g4, g5, u1, u2, u3, u4);
    SeriesOfFive(r, y);
    ChebyshevBounded(y);
    OrderFiveMoves(y, r[1], r[2], r[3], r[4], r[5], d1, d2, d3, g2, g3, g4);
  }

  /** What dropping so much from three coefficients changes. */
  lemma OrderFiveMoves(y: real, g1: real, g2: real, g3: real, g4: real, g5: real, d1: real, d2: real, d3: real,
                       h2: real, h3: real, h4: real)
    requires -1.0 <= T(1, y) <= 1.0 && -1.0 <= T(2, y) <= 1.0 && -1.0 <= T(3, y) <= 1.0
    requires 0.0 <= d1 < 1.0 && 0.0 <= d2 < 1.0 && 0.0 <= d3 < 1.0
    requires 32768.0 * (g2 - h2) == 2.0 * d1 && 32768.0 * (g3 - h3) == 2.0 * d2 && 32768.0 * (g4 - h4) == 2.0 * d3
    ensures -6.0 < 32768.0 * (OrderFive(y, g1, h2, h3, h4, g5) - OrderFive(y, g1, g2, g3, g4, g5)) < 6.0
  {
    hide T, By;
    DropBounded(g2, h2, d1, T(3, y));
    DropBounded(g3, h3, d2, T(2, y));
    DropBounded(g4, h4, d3, T(1, y));
  }

  lemma DropBounded(g: real, h: real, d: real, t: real)
    requires 32768.0 * (g - h) == 2.0 * d && 0.0 <= d < 1.0 && -1.0 <= t <= 1.0
    ensures -2.0 < 32768.0 * (By(h, t) - By(g, t)) < 2.0
  {
    hide By;
    ByDifference(g, h, t);
    ScaledInside(g - h, t);
  }

  lemma ByDifference(g: real, h: real, t: real)
    ensures By(g - h, t) == By(g, t) - By(h, t)
  {
  }

  /** A product with a factor from [-1, 1]. */
  lemma ScaledInside(d: real, t: real)
    requires 0.0 <= d && -1.0 <= t <= 1.0
    ensures -d <= By(d, t) <= d
  {
    NonNegativeProduct(d, 1.0 - t);
    NonNegativeProduct(d, 1.0 + t);
    Distributes(d, 1.0, -t);
    Distributes(d, 1.0, t);
    assert d * -t == -(d * t);
  }

  lemma Distributes(a: real, b: real, c: real)
    ensures a * (b + c) == a * b + a * c
  {
  }
}
