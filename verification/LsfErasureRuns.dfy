/** Any number of erasures after a good frame: the codewords computed back stay near the frozen LSFs, so that no
    store cuts them. */
module LsfErasureRuns {
  import opened FixedPoint
  import opened LsfStability
  import opened LsfPrediction
  import opened LsfErasure

  // ---- The recurrence behind the erased branch

  /** One column of a predictor: its sum, its four coefficients, and in twentieths the two factors with which its
      recurrence is differenced twice. */
  datatype Column = Column(s: int, r1: int, r2: int, r3: int, r4: int, u: int, v: int)

  function ColumnOf(l0: int, i: nat): Column
    requires i < NB_LSP_COEFF
  {
    var rows := MAPredictor(l0);
    Column(MAPredictorSum(l0)[i], rows[0][i], rows[1][i], rows[2][i], rows[3][i], if l0 == 0 then 21 else 10,
           if l0 == 0 then 5 else 0)
  }

  /** Sum of the magnitudes of the weights after differencing once. */
  function OnceWeight(c: Column): int {
    Abs(c.r1 - c.s) + Abs(c.r2 - c.r1) + Abs(c.r3 - c.r2) + Abs(c.r4 - c.r3) + Abs(c.r4)
  }

  /** The same after differencing with both factors, times twenty. */
  function TwiceWeight(c: Column): int {
    Abs(20 * c.r1 - c.u * c.s) + Abs(20 * c.r2 - c.u * c.r1 + c.v * c.s) + Abs(20 * c.r3 - c.u * c.r2 + c.v * c.r1)
    + Abs(20 * c.r4 - c.u * c.r3 + c.v * c.r2) + Abs(c.v * c.r3 - c.u * c.r4) + Abs(c.v * c.r4)
  }

  /** What the tables give: differenced once the recurrence grows by a quarter at most, differenced twice it
      contracts to three fifths. */
  predicate Contracting(c: Column) {
    && 7700 < c.s < 20000 && c.r1 > 0 && c.r2 > 0 && c.r3 > 0 && c.r4 > 0
    && 0x8000 - 3 <= c.s + c.r1 + c.r2 + c.r3 + c.r4 <= 0x8000
    && 4 * OnceWeight(c) <= 5 * c.s && TwiceWeight(c) <= 12 * c.s
    && ((c.u == 21 && c.v == 5) || (c.u == 10 && c.v == 0))
  }

  /** The columns of the two predictors. */
  function FirstColumn(i: nat): Column {
    match i
    case 0 => Column(7798, 8421, 7018, 5472, 4056, 21, 5)
    case 1 => Column(8447, 9109, 7189, 4990, 3031, 21, 5)
    case 2 => Column(8205, 9175, 7638, 5134, 2614, 21, 5)
    case 3 => Column(8293, 8965, 7307, 5177, 3024, 21, 5)
    case 4 => Column(8126, 9034, 7444, 5246, 2916, 21, 5)
    case 5 => Column(8477, 9057, 7379, 5141, 2713, 21, 5)
    case 6 => Column(8447, 8765, 7038, 5206, 3309, 21, 5)
    case 7 => Column(8703, 8775, 6956, 5095, 3237, 21, 5)
    case 8 => Column(9043, 9106, 6930, 4830, 2857, 21, 5)
    case _ => Column(8604, 8673, 6868, 5147, 3473, 21, 5)
  }

  function SecondColumn(i: nat): Column {
    match i
    case 0 => Column(14585, 7733, 4210, 3214, 3024, 10, 0)
    case 1 => Column(18333, 7880, 3031, 1930, 1592, 10, 0)
    case 2 => Column(19772, 8188, 2552, 1313, 940, 10, 0)
    case 3 => Column(17344, 8175, 3473, 2143, 1631, 10, 0)
    case 4 => Column(16426, 8247, 3876, 2493, 1723, 10, 0)
    case 5 => Column(16459, 8490, 3853, 2385, 1579, 10, 0)
    case 6 => Column(15155, 8637, 4184, 2755, 2034, 10, 0)
    case 7 => Column(15220, 8601, 4154, 2706, 2084, 10, 0)
    case 8 => Column(16043, 8359, 3909, 2542, 1913, 10, 0)
    case _ => Column(15708, 7569, 3968, 2919, 2601, 10, 0)
  }

  lemma ColumnsAre(l0: int, i: nat)
    requires 0 <= l0 <= 1 && i < NB_LSP_COEFF
    ensures ColumnOf(l0, i) == if l0 == 0 then FirstColumn(i) else SecondColumn(i)
  {
  }

  lemma FirstContracts(i: nat)
    ensures Contracting(FirstColumn(i))
  {
  }

  lemma SecondContracts(i: nat)
    ensures Contracting(SecondColumn(i))
  {
  }

  lemma TablesContract(l0: int, i: nat)
    requires 0 <= l0 <= 1 && i < NB_LSP_COEFF
    ensures Contracting(ColumnOf(l0, i))
  {
    hide ColumnOf, FirstColumn, SecondColumn, Contracting;
    ColumnsAre(l0, i);
    FirstContracts(i);
    SecondContracts(i);
  }

  /** What five successive codewords, as distances from the frozen value, leave of the prediction of zero. */
  function Defect(c: Column, e0: int, e1: int, e2: int, e3: int, e4: int): int {
    c.s * e0 + c.r1 * e1 + c.r2 * e2 + c.r3 * e3 + c.r4 * e4
  }

  /** Largest defect that the arithmetic of the erased branch leaves. */
  const DEFECT := 310000

  predicate Small(x: int, bound: int) {
    -bound <= x <= bound
  }

  lemma SmallProduct(w: int, e: int, bound: int)
    requires Small(e, bound)
    ensures -(Abs(w) * bound) <= w * e <= Abs(w) * bound
  {
    if w >= 0 {
      MultiplyMonotone(e, bound, w);
      MultiplyMonotone(-bound, e, w);
    } else {
      MultiplyMonotone(e, bound, -w);
      MultiplyMonotone(-bound, e, -w);
    }
  }

  lemma DifferencedOnce(c: Column, e0: int, e1: int, e2: int, e3: int, e4: int, e5: int)
    ensures Defect(c, e0, e1, e2, e3, e4) - Defect(c, e1, e2, e3, e4, e5)
         == c.s * e0 + (c.r1 - c.s) * e1 + (c.r2 - c.r1) * e2 + (c.r3 - c.r2) * e3 + (c.r4 - c.r3) * e4 - c.r4 * e5
  {
  }

  /** The first erasure after a good frame: at most a quarter farther out than the last five codewords, when the two
      defects differ by so many units. */
  lemma FirstBounded(c: Column, e0: int, e1: int, e2: int, e3: int, e4: int, e5: int, bound: int, units: nat)
    requires Contracting(c) && bound >= 0
    requires Small(e1, bound) && Small(e2, bound) && Small(e3, bound) && Small(e4, bound) && Small(e5, bound)
    requires Small(Defect(c, e0, e1, e2, e3, e4) - Defect(c, e1, e2, e3, e4, e5), units * DEFECT)
    ensures 4 * Abs(e0) <= 5 * bound + 200 * units
  {
    hide Defect, Contracting;
    DifferencedOnce(c, e0, e1, e2, e3, e4, e5);
    SmallProduct(c.r1 - c.s, e1, bound);
    SmallProduct(c.r2 - c.r1, e2, bound);
    SmallProduct(c.r3 - c.r2, e3, bound);
    SmallProduct(c.r4 - c.r3, e4, bound);
    SmallProduct(c.r4, e5, bound);
    WeightOnce(c, bound);
    QuarterFarther(c.s, e0, bound, units);
  }

  lemma WeightOnce(c: Column, bound: int)
    requires Contracting(c) && bound >= 0
    ensures 7700 < c.s
    ensures 4 * (Abs(c.r1 - c.s) * bound + Abs(c.r2 - c.r1) * bound + Abs(c.r3 - c.r2) * bound
                 + Abs(c.r4 - c.r3) * bound
                 + Abs(c.r4) * bound) <= 5 * (c.s * bound)
  {
    hide Abs, TwiceWeight;
    Spread5(Abs(c.r1 - c.s), Abs(c.r2 - c.r1), Abs(c.r3 - c.r2), Abs(c.r4 - c.r3), Abs(c.r4), bound);
    WeightedBound(OnceWeight(c), 5, c.s, bound);
  }

  lemma WeightedBound(w: int, k: int, s: int, bound: int)
    requires 4 * w <= k * s && bound >= 0
    ensures 4 * (w * bound) <= k * (s * bound)
  {
    MultiplyMonotone(4 * w, k * s, bound);
    assert 4 * w * bound == 4 * (w * bound) && k * s * bound == k * (s * bound);
  }

  lemma Spread5(a: int, b: int, c: int, d: int, e: int, m: int)
    ensures (a + b + c + d + e) * m == a * m + b * m + c * m + d * m + e * m
  {
  }

  lemma QuarterFarther(s: int, e: int, bound: int, units: nat)
    requires s > 7700 && bound >= 0 && 4 * Abs(s * e) <= 5 * (s * bound) + 4 * (units * DEFECT)
    ensures 4 * Abs(e) <= 5 * bound + 200 * units
  {
    SignedProduct(s, e);
    MultiplyMonotone(7701, s, 200 * units);
    CancelSum(s, 4 * Abs(e), 5 * bound, 4 * (units * DEFECT), 200 * units);
  }

  lemma CancelSum(s: int, x: int, y: int, margin: int, z: int)
    requires s > 0 && x * s <= y * s + margin && margin <= z * s
    ensures x <= y + z
  {
    assert (y + z + 1) * s == y * s + z * s + s;
    if x > y + z {
      MultiplyMonotone(y + z + 1, x, s);
      assert false;
    }
  }

  lemma SignedProduct(s: int, e: int)
    requires s > 0
    ensures Abs(s * e) == s * Abs(e)
  {
  }

  /** What differencing twice makes of the codewords before the newest one. */
  function TwiceSum(c: Column, e1: int, e2: int, e3: int, e4: int, e5: int, e6: int): int {
    (20 * c.r1 - c.u * c.s) * e1 + (20 * c.r2 - c.u * c.r1 + c.v * c.s) * e2
    + (20 * c.r3 - c.u * c.r2 + c.v * c.r1) * e3 + (20 * c.r4 - c.u * c.r3 + c.v * c.r2) * e4
    + (c.v * c.r3 - c.u * c.r4) * e5 + c.v * c.r4 * e6
  }

  lemma DifferencedTwice(c: Column, e0: int, e1: int, e2: int, e3: int, e4: int, e5: int, e6: int)
    requires (c.u == 21 && c.v == 5) || (c.u == 10 && c.v == 0)
    ensures 20 * Defect(c, e0, e1, e2, e3, e4) - c.u * Defect(c, e1, e2, e3, e4, e5)
            + c.v * Defect(c, e2, e3, e4, e5, e6)
         == 20 * (c.s * e0) + TwiceSum(c, e1, e2, e3, e4, e5, e6)
  {
  }

  /** A later erasure: within three fifths of the bound of the last six codewords, and the rounding. */
  lemma LaterBounded(c: Column, e0: int, e1: int, e2: int, e3: int, e4: int, e5: int, e6: int, bound: int)
    requires Contracting(c) && bound >= 0
    requires Small(e1, bound) && Small(e2, bound) && Small(e3, bound) && Small(e4, bound) && Small(e5, bound)
             && Small(e6, bound)
    requires Small(Defect(c, e0, e1, e2, e3, e4), DEFECT) && Small(Defect(c, e1, e2, e3, e4, e5), DEFECT)
    requires Small(Defect(c, e2, e3, e4, e5, e6), DEFECT)
    ensures 5 * Abs(e0) <= 3 * bound + 500
  {
    hide Defect, Contracting, TwiceSum, TwiceWeight;
    FactorsOf(c);
    DifferencedTwice(c, e0, e1, e2, e3, e4, e5, e6);
    TwiceSumBounded(c, e1, e2, e3, e4, e5, e6, bound);
    ThreeDefects(c.u, c.v, Defect(c, e0, e1, e2, e3, e4), Defect(c, e1, e2, e3, e4, e5), Defect(c, e2, e3, e4, e5, e6));
    Contracted(c.s, e0, bound);
  }

  lemma FactorsOf(c: Column)
    requires Contracting(c)
    ensures 7700 < c.s && TwiceWeight(c) <= 12 * c.s && ((c.u == 21 && c.v == 5) || (c.u == 10 && c.v == 0))
  {
    hide OnceWeight, TwiceWeight;
  }

  lemma ThreeDefects(u: int, v: int, d0: int, d1: int, d2: int)
    requires (u == 21 && v == 5) || (u == 10 && v == 0)
    requires Small(d0, DEFECT) && Small(d1, DEFECT) && Small(d2, DEFECT)
    ensures Small(20 * d0 - u * d1 + v * d2, 46 * DEFECT)
  {
  }

  lemma TwiceSumBounded(c: Column, e1: int, e2: int, e3: int, e4: int, e5: int, e6: int, bound: int)
    requires bound >= 0 && TwiceWeight(c) <= 12 * c.s
    requires Small(e1, bound) && Small(e2, bound) && Small(e3, bound) && Small(e4, bound) && Small(e5, bound)
             && Small(e6, bound)
    ensures Small(TwiceSum(c, e1, e2, e3, e4, e5, e6), 12 * (c.s * bound))
  {
    SixProducts(20 * c.r1 - c.u * c.s, 20 * c.r2 - c.u * c.r1 + c.v * c.s, 20 * c.r3 - c.u * c.r2 + c.v * c.r1,
                20 * c.r4 - c.u * c.r3 + c.v * c.r2, c.v * c.r3 - c.u * c.r4, c.v * c.r4, e1, e2, e3, e4, e5, e6,
                c.s, bound);
  }

  lemma SixProducts(w1: int, w2: int, w3: int, w4: int, w5: int, w6: int, e1: int, e2: int, e3: int, e4: int, e5: int,
                    e6: int, s: int, bound: int)
    requires bound >= 0 && Abs(w1) + Abs(w2) + Abs(w3) + Abs(w4) + Abs(w5) + Abs(w6) <= 12 * s
    requires Small(e1, bound) && Small(e2, bound) && Small(e3, bound) && Small(e4, bound) && Small(e5, bound)
             && Small(e6, bound)
    ensures Small(w1 * e1 + w2 * e2 + w3 * e3 + w4 * e4 + w5 * e5 + w6 * e6, 12 * (s * bound))
  {
    hide Abs;
    SmallProduct(w1, e1, bound);
    SmallProduct(w2, e2, bound);
    SmallProduct(w3, e3, bound);
    SmallProduct(w4, e4, bound);
    SmallProduct(w5, e5, bound);
    SmallProduct(w6, e6, bound);
    SixWeights(Abs(w1), Abs(w2), Abs(w3), Abs(w4), Abs(w5), Abs(w6), s, bound);
  }

  lemma SixWeights(a: int, b: int, c: int, d: int, e: int, f: int, s: int, bound: int)
    requires bound >= 0 && a + b + c + d + e + f <= 12 * s
    ensures a * bound + b * bound + c * bound + d * bound + e * bound + f * bound <= 12 * (s * bound)
  {
    Spread6(a, b, c, d, e, f, bound);
    MultiplyMonotone(a + b + c + d + e + f, 12 * s, bound);
    Twelve(s, bound);
  }

  lemma Twelve(s: int, bound: int)
    ensures 12 * s * bound == 12 * (s * bound)
  {
  }

  lemma Spread6(a: int, b: int, c: int, d: int, e: int, f: int, m: int)
    ensures (a + b + c + d + e + f) * m == a * m + b * m + c * m + d * m + e * m + f * m
  {
  }

  lemma Contracted(s: int, e: int, bound: int)
    requires s > 7700 && bound >= 0 && Small(20 * (s * e), 12 * (s * bound) + 46 * DEFECT)
    ensures 5 * Abs(e) <= 3 * bound + 500
  {
    SignedProduct(s, e);
    CancelSum(s, 20 * Abs(e), 12 * bound, 46 * DEFECT, 2000);
  }

  // ---- One erasure in the arithmetic of the code

  /** A frozen value with this much room on both sides. */
  predicate Room(q: int, bound: int) {
    600 <= bound <= 10000 && -0x8000 + bound <= q <= 0x7fff - bound
  }

  lemma HistoryIs(l0: int, memory: seq<seq<int>>, i: nat)
    requires 0 <= l0 <= 1 && IsMemory(memory) && i < NB_LSP_COEFF
    ensures var c := ColumnOf(l0, i);
            History(MAPredictor(l0), memory, i, MA_MAX_K)
            == c.r1 * memory[0][i] + c.r2 * memory[1][i] + c.r3 * memory[2][i] + c.r4 * memory[3][i]
  {
    var rows := MAPredictor(l0);
    hide MAPredictor;
    assert History(rows, memory, i, 0) == 0;
    assert History(rows, memory, i, 1) == History(rows, memory, i, 0) + rows[0][i] * memory[0][i];
    assert History(rows, memory, i, 2) == History(rows, memory, i, 1) + rows[1][i] * memory[1][i];
    assert History(rows, memory, i, 3) == History(rows, memory, i, 2) + rows[2][i] * memory[2][i];
  }

  lemma ColumnSum(l0: int, i: nat)
    requires i < NB_LSP_COEFF
    ensures ColumnOf(l0, i).s == MAPredictorSum(l0)[i]
  {
  }

  /** The defect in terms of the codewords themselves; p is what they predict, in Q15. */
  lemma DefectIs(c: Column, q: int, m0: int, m1: int, m2: int, m3: int, m4: int)
    requires Contracting(c) && Small(q, 0x8000)
    ensures var p := c.s * m0 + (c.r1 * m1 + c.r2 * m2 + c.r3 * m3 + c.r4 * m4);
            -98304 <= Defect(c, m0 - q, m1 - q, m2 - q, m3 - q, m4 - q) - (p - 0x8000 * q) <= 98304
  {
    hide OnceWeight, TwiceWeight;
    var rest := 0x8000 - (c.s + c.r1 + c.r2 + c.r3 + c.r4);
    DefectSpreads(c, q, m0, m1, m2, m3, m4);
    SmallProduct(rest, q, 0x8000);
  }

  lemma DefectSpreads(c: Column, q: int, m0: int, m1: int, m2: int, m3: int, m4: int)
    ensures Defect(c, m0 - q, m1 - q, m2 - q, m3 - q, m4 - q)
         == c.s * m0 + (c.r1 * m1 + c.r2 * m2 + c.r3 * m3 + c.r4 * m4) - 0x8000 * q
          + (0x8000 - (c.s + c.r1 + c.r2 + c.r3 + c.r4)) * q
  {
    Less(c.s, m0, q);
    Less(c.r1, m1, q);
    Less(c.r2, m2, q);
    Less(c.r3, m3, q);
    Less(c.r4, m4, q);
    Less(q, 0x8000, c.s + c.r1 + c.r2 + c.r3 + c.r4);
    Spread5(c.s, c.r1, c.r2, c.r3, c.r4, q);
  }

  lemma Less(w: int, m: int, q: int)
    ensures w * (m - q) == w * m - w * q && (m - q) * w == m * w - w * q
  {
  }

  /** Enough headroom for the accumulator of the code, while memory stays this near the frozen value. */
  predicate Accumulates(c: Column, q: int, bound: int) {
    bound >= 0 && Small(q, 0x8000) && c.s * Abs(q) + (0x8000 - c.s) * bound + 3 * 0x8000 <= 65535 * c.s
  }

  lemma RoomAccumulates(c: Column, q: int, bound: int)
    requires Contracting(c) && Room(q, bound)
    ensures Accumulates(c, q, bound)
  {
    hide Contracting;
    RangesOf(c);
    MultiplyMonotone(Abs(q), 0x8000 - bound, c.s);
    MultiplyMonotone(7701, c.s, bound);
    RoomProducts(c.s, Abs(q), bound);
  }

  lemma RoomProducts(s: int, q: int, bound: int)
    requires 7701 <= s && q * s <= (0x8000 - bound) * s && 7701 * bound <= s * bound && bound <= 10000
    ensures s * q + (0x8000 - s) * bound + 3 * 0x8000 <= 65535 * s
  {
    assert (0x8000 - bound) * s == 0x8000 * s - s * bound;
    assert (0x8000 - s) * bound == 0x8000 * bound - s * bound;
  }

  /** The accumulator stays below 65535 times the sum. */
  lemma AccumulatorBounded(c: Column, q: int, m0: int, m1: int, m2: int, m3: int, bound: int)
    requires Contracting(c) && Accumulates(c, q, bound)
    requires Small(m0 - q, bound) && Small(m1 - q, bound) && Small(m2 - q, bound) && Small(m3 - q, bound)
    ensures Small(0x8000 * q - (c.r1 * m0 + c.r2 * m1 + c.r3 * m2 + c.r4 * m3), 65535 * c.s)
  {
    hide Contracting;
    RangesOf(c);
    SmallProduct(c.s, q, Abs(q));
    SmallProduct(0x8000 - (c.s + c.r1 + c.r2 + c.r3 + c.r4), q, 0x8000);
    HistoryNear(c, q, m0, m1, m2, m3, bound);
    DefectSpreads(c, q, q, m0, m1, m2, m3);
    MultiplyMonotone(c.r1 + c.r2 + c.r3 + c.r4, 0x8000 - c.s, bound);
  }

  lemma HistoryNear(c: Column, q: int, m0: int, m1: int, m2: int, m3: int, bound: int)
    requires c.r1 > 0 && c.r2 > 0 && c.r3 > 0 && c.r4 > 0 && bound >= 0
    requires Small(m0 - q, bound) && Small(m1 - q, bound) && Small(m2 - q, bound) && Small(m3 - q, bound)
    ensures Small(Defect(c, q - q, m0 - q, m1 - q, m2 - q, m3 - q), (c.r1 + c.r2 + c.r3 + c.r4) * bound)
  {
    SmallProduct(c.r1, m0 - q, bound);
    SmallProduct(c.r2, m1 - q, bound);
    SmallProduct(c.r3, m2 - q, bound);
    SmallProduct(c.r4, m3 - q, bound);
    Spread5(0, c.r1, c.r2, c.r3, c.r4, bound);
  }

  lemma RangesOf(c: Column)
    requires Contracting(c)
    ensures 7700 < c.s < 20000 && c.r1 > 0 && c.r2 > 0 && c.r3 > 0 && c.r4 > 0
    ensures 0x8000 - 3 <= c.s + c.r1 + c.r2 + c.r3 + c.r4 <= 0x8000
  {
    hide OnceWeight, TwiceWeight;
  }

  lemma ScaledBounded(s: int, inverse: int, a: int, t: int)
    requires 0 < s && 0 < inverse && s * inverse <= 0x8000000 && Small(a, 65535 * s)
    requires 4096 * t <= inverse * a < 4096 * t + 4096
    ensures Fits32(t) && Abs(t) + 1 <= 0x80000000
  {
    var top := 65535 * 0x8000000;
    assert inverse * (65535 * s) == 65535 * (s * inverse);
    MultiplyMonotone(a, 65535 * s, inverse);
    MultiplyMonotone(-(65535 * s), a, inverse);
    assert inverse * -(65535 * s) == -(inverse * (65535 * s));
    assert -top <= inverse * a <= top;
  }

  /** One erasure from a memory near the frozen value: 32 bits suffice, and the defect of the codeword is small. */
  lemma OneErasure(l0: int, q: int, memory: seq<seq<int>>, i: nat, bound: int)
    requires 0 <= l0 <= 1 && IsMemory(memory) && i < NB_LSP_COEFF && Accumulates(ColumnOf(l0, i), q, bound)
    requires forall j :: 0 <= j < MA_MAX_K ==> Small(memory[j][i] - q, bound)
    ensures Fits32(Scaled(l0, q, memory, i))
    ensures Small(Defect(ColumnOf(l0, i), BackComputed(l0, q, memory, i) - q, memory[0][i] - q, memory[1][i] - q,
                         memory[2][i] - q, memory[3][i] - q), DEFECT)
  {
    hide MAPredictor, MAPredictorSum, InvMAPredictorSum, History, SplitMultiply, Pshr, Defect, Contracting, Accumulates;
    TablesContract(l0, i);
    TablesAreReciprocal(l0, i);
    HistoryIs(l0, memory, i);
    ErasureDefect(ColumnOf(l0, i), InvMAPredictorSum(l0)[i], q, memory[0][i], memory[1][i], memory[2][i], memory[3][i],
                  Scaled(l0, q, memory, i), BackComputed(l0, q, memory, i), bound);
  }

  lemma ErasureDefect(c: Column, inverse: int, q: int, m0: int, m1: int, m2: int, m3: int, t: int, l: int, bound: int)
    requires Contracting(c) && Accumulates(c, q, bound)
    requires 0 < c.s <= 20000 && 0 < inverse && 0 <= 0x8000000 - c.s * inverse <= 3 * inverse
    requires Small(m0 - q, bound) && Small(m1 - q, bound) && Small(m2 - q, bound) && Small(m3 - q, bound)
    requires t == SplitMultiply(inverse, 0x8000 * q - (c.r1 * m0 + c.r2 * m1 + c.r3 * m2 + c.r4 * m3), 12)
             && l == Pshr(t, 15)
    ensures Fits32(t) && Small(Defect(c, l - q, m0 - q, m1 - q, m2 - q, m3 - q), DEFECT)
  {
    hide SplitMultiply, Pshr, Defect, Contracting;
    var a := 0x8000 * q - (c.r1 * m0 + c.r2 * m1 + c.r3 * m2 + c.r4 * m3);
    AccumulatorBounded(c, q, m0, m1, m2, m3, bound);
    DefectIs(c, q, l, m0, m1, m2, m3);
    RoundedDefect(c.s, inverse, a, t, l);
  }

  lemma RoundedDefect(s: int, inverse: int, a: int, t: int, l: int)
    requires 0 < s <= 20000 && 0 < inverse && 0 <= 0x8000000 - s * inverse <= 3 * inverse && Small(a, 65535 * s)
    requires t == SplitMultiply(inverse, a, 12) && l == Pshr(t, 15)
    ensures Fits32(t) && -210000 <= s * l - a <= 210000
  {
    SplitMultiplyIsFloor(inverse, a, 12);
    Powers();
    hide Pow2, SplitMultiply, Abs;
    ShiftBounds(inverse * a, 12);
    ShiftBounds(t + 0x4000, 15);
    ScaledBounded(s, inverse, a, t);
    ReciprocalError(s, inverse, a, t, l);
  }

  // ---- Runs of erasures

  /** A good frame: the state before it, its predictor and its codebook sum. */
  datatype GoodFrame = GoodFrame(before: LsfState, l0: int, l: seq<int>)

  ghost predicate IsGood(g: GoodFrame) {
    IsState(g.before) && 0 <= g.l0 <= 1 && |g.l| == NB_LSP_COEFF
  }

  function After(g: GoodFrame): (s: LsfState)
    requires IsGood(g)
    ensures IsState(s)
  {
    Received(g.before, g.l0, g.l)
  }

  /** Coefficient i of the codewords: of erasure n for n > 0, of the good frame for 0, of the four frames before it. */
  function Entry(g: GoodFrame, i: nat, n: int): int
    requires IsGood(g) && i < NB_LSP_COEFF && n >= -4
  {
    if n > 0 then ErasedRun(After(g), n).memory[0][i] else if n == 0 then CodeWord(g.l)[i]
    else g.before.memory[-n - 1][i]
  }

  /** Its distance from the frozen value. */
  function Off(g: GoodFrame, i: nat, n: int): int
    requires IsGood(g) && i < NB_LSP_COEFF && n >= -4
  {
    Entry(g, i, n) - After(g).lastqLSF[i]
  }

  lemma {:induction false} MemoryIs(g: GoodFrame, i: nat, n: nat, j: nat)
    requires IsGood(g) && i < NB_LSP_COEFF && j < MA_MAX_K
    ensures ErasedRun(After(g), n).memory[j][i] == Entry(g, i, n - j)
  {
    hide BackCode, CodeWord, Stable, Predicted;
    if n > 0 && j > 0 {
      MemoryIs(g, i, n - 1, j - 1);
    }
  }

  /** Neither the stability pass nor a 16-bit store changed coefficient i of the prediction. */
  ghost predicate Undisturbed(g: GoodFrame, i: nat)
    requires IsGood(g) && i < NB_LSP_COEFF
  {
    After(g).lastqLSF[i]
    == Pshr(MAPredictorSum(g.l0)[i] * CodeWord(g.l)[i] + History(MAPredictor(g.l0), g.before.memory, i, MA_MAX_K), 15)
  }

  /** The last five codewords lie this close to the value they predicted. */
  ghost predicate Near(g: GoodFrame, i: nat, distance: int)
    requires IsGood(g) && i < NB_LSP_COEFF
  {
    forall n :: -4 <= n <= 0 ==> Small(Off(g, i, n), distance)
  }

  /** How far the codewords of the erased frames may get. */
  function Reach(distance: nat): int {
    distance + distance / 4 + 600
  }

  /** Everything the recurrence needs up to erasure n. */
  ghost predicate Settled(g: GoodFrame, i: nat, n: nat, bound: int)
    requires IsGood(g) && i < NB_LSP_COEFF && n >= 1
  {
    && (forall k :: n - 5 <= k <= n ==> Small(Off(g, i, k), bound))
    && SmallDefect(g, i, n) && SmallDefect(g, i, n - 1)
  }

  ghost predicate SmallDefect(g: GoodFrame, i: nat, n: nat)
    requires IsGood(g) && i < NB_LSP_COEFF
  {
    Small(Defect(ColumnOf(g.l0, i), Off(g, i, n), Off(g, i, n - 1), Off(g, i, n - 2), Off(g, i, n - 3),
                 Off(g, i, n - 4)), DEFECT)
  }

  /** The good frame itself leaves no more than its rounding. */
  lemma GoodDefect(g: GoodFrame, i: nat)
    requires IsGood(g) && i < NB_LSP_COEFF && Undisturbed(g, i) && Small(After(g).lastqLSF[i], 0x8000)
    ensures SmallDefect(g, i, 0)
  {
    hide MAPredictor, MAPredictorSum, History, Defect, Contracting, CodeWord, After;
    TablesContract(g.l0, i);
    HistoryIs(g.l0, g.before.memory, i);
    var c, m, q := ColumnOf(g.l0, i), g.before.memory, After(g).lastqLSF[i];
    DefectIs(c, q, CodeWord(g.l)[i], m[0][i], m[1][i], m[2][i], m[3][i]);
    var p := c.s * CodeWord(g.l)[i] + (c.r1 * m[0][i] + c.r2 * m[1][i] + c.r3 * m[2][i] + c.r4 * m[3][i]);
    Powers();
    hide Pow2;
    ShiftBounds(p + 0x4000, 15);
  }

  /** The codeword the next erasure enters. */
  lemma NextEntry(g: GoodFrame, i: nat, n: nat)
    requires IsGood(g) && i < NB_LSP_COEFF
    ensures Entry(g, i, n + 1) == Cast16(BackComputed(g.l0, After(g).lastqLSF[i], ErasedRun(After(g), n).memory, i))
  {
    hide BackComputed, Cast16, CodeWord, Stable, Predicted;
    FrozenLast(After(g), n);
  }

  /** Its distance before the store: by the first bound after the good frame, by the second later. */
  lemma NextClose(g: GoodFrame, i: nat, n: nat, distance: nat, e: int)
    requires IsGood(g) && i < NB_LSP_COEFF && Near(g, i, distance)
    requires n == 0 ==> SmallDefect(g, i, 0)
    requires n > 0 ==> Settled(g, i, n, Reach(distance))
    requires Small(Defect(ColumnOf(g.l0, i), e, Off(g, i, n), Off(g, i, n - 1), Off(g, i, n - 2), Off(g, i, n - 3)),
                   DEFECT)
    ensures Small(e, Reach(distance))
  {
    hide Defect, Contracting, Off, ColumnOf;
    TablesContract(g.l0, i);
    var c := ColumnOf(g.l0, i);
    if n == 0 {
      FirstBounded(c, e, Off(g, i, 0), Off(g, i, -1), Off(g, i, -2), Off(g, i, -3), Off(g, i, -4), distance, 2);
    } else {
      LaterBounded(c, e, Off(g, i, n), Off(g, i, n - 1), Off(g, i, n - 2), Off(g, i, n - 3), Off(g, i, n - 4),
                   Off(g, i, n - 5), Reach(distance));
    }
  }

  /** The codewords in memory after n erasures lie within the bound. */
  ghost predicate MemoryNear(g: GoodFrame, i: nat, n: nat, bound: int)
    requires IsGood(g) && i < NB_LSP_COEFF
  {
    forall k :: n - 3 <= k <= n ==> Small(Off(g, i, k), bound)
  }

  lemma RecentNear(g: GoodFrame, i: nat, n: nat, distance: nat)
    requires IsGood(g) && i < NB_LSP_COEFF && Near(g, i, distance) && (n > 0 ==> Settled(g, i, n, Reach(distance)))
    ensures MemoryNear(g, i, n, Reach(distance))
  {
    hide Off, SmallDefect;
  }

  /** The next erasure in the arithmetic of the code, in terms of distances. */
  lemma NextDefect(g: GoodFrame, i: nat, n: nat, bound: int)
    requires IsGood(g) && i < NB_LSP_COEFF && MemoryNear(g, i, n, bound)
    requires Accumulates(ColumnOf(g.l0, i), After(g).lastqLSF[i], bound)
    ensures var q := After(g).lastqLSF[i];
            var memory := ErasedRun(After(g), n).memory;
            && Fits32(Scaled(g.l0, q, memory, i))
            && Small(Defect(ColumnOf(g.l0, i), BackComputed(g.l0, q, memory, i) - q, Off(g, i, n), Off(g, i, n - 1),
                            Off(g, i, n - 2), Off(g, i, n - 3)), DEFECT)
  {
    hide Defect, ColumnOf, Entry, After, ErasedRun, BackComputed, Scaled, Accumulates, Small;
    var q := After(g).lastqLSF[i];
    var memory := ErasedRun(After(g), n).memory;
    MemoryIs(g, i, n, 0);
    MemoryIs(g, i, n, 1);
    MemoryIs(g, i, n, 2);
    MemoryIs(g, i, n, 3);
    assert memory[0][i] - q == Off(g, i, n) && memory[1][i] - q == Off(g, i, n - 1);
    assert memory[2][i] - q == Off(g, i, n - 2) && memory[3][i] - q == Off(g, i, n - 3);
    OneErasure(g.l0, q, memory, i, bound);
  }

  /** The 32-bit accumulator and the 16-bit store of erasure n + 1. */
  ghost predicate NothingCut(g: GoodFrame, i: nat, n: nat)
    requires IsGood(g) && i < NB_LSP_COEFF
  {
    var q, memory := After(g).lastqLSF[i], ErasedRun(After(g), n).memory;
    Fits32(Scaled(g.l0, q, memory, i)) && Fits16(BackComputed(g.l0, q, memory, i))
  }

  lemma NextErasure(g: GoodFrame, i: nat, n: nat, distance: nat)
    requires IsGood(g) && i < NB_LSP_COEFF && Room(After(g).lastqLSF[i], Reach(distance)) && Near(g, i, distance)
    requires n == 0 ==> SmallDefect(g, i, 0)
    requires n > 0 ==> Settled(g, i, n, Reach(distance))
    ensures NothingCut(g, i, n) && Small(Off(g, i, n + 1), Reach(distance)) && SmallDefect(g, i, n + 1)
  {
    hide Defect, ColumnOf, Entry, After, ErasedRun, BackComputed, Scaled, Near, Settled, MemoryNear;
    hide Reach, Contracting, Accumulates;
    var q := After(g).lastqLSF[i];
    var l := BackComputed(g.l0, q, ErasedRun(After(g), n).memory, i);
    RecentNear(g, i, n, distance);
    TablesContract(g.l0, i);
    RoomAccumulates(ColumnOf(g.l0, i), q, Reach(distance));
    NextDefect(g, i, n, Reach(distance));
    NextClose(g, i, n, distance, l - q);
    NextEntry(g, i, n);
    assert Off(g, i, n + 1) == l - q;
    assert n + 1 - 1 == n && n + 1 - 2 == n - 1 && n + 1 - 3 == n - 2 && n + 1 - 4 == n - 3;
  }

  lemma {:induction false} AlwaysSettled(g: GoodFrame, i: nat, n: nat, distance: nat)
    requires IsGood(g) && i < NB_LSP_COEFF && Undisturbed(g, i) && Near(g, i, distance) && n >= 1
    requires Room(After(g).lastqLSF[i], Reach(distance))
    ensures Settled(g, i, n, Reach(distance))
  {
    hide Off, SmallDefect, After;
    GoodDefect(g, i);
    if n > 1 {
      AlwaysSettled(g, i, n - 1, distance);
    }
    NextErasure(g, i, n - 1, distance);
  }

  /** After a good frame whose coefficient the stability pass left alone, however many frames are then lost: neither
      the 32-bit accumulator nor the 16-bit store cuts anything, every codeword computed back stays within a fixed
      reach of the frozen value, and predicts it again up to three units. */
  lemma ErasuresAfterGoodFrame(g: GoodFrame, i: nat, n: nat, distance: nat)
    requires IsGood(g) && i < NB_LSP_COEFF && Undisturbed(g, i) && Near(g, i, distance)
    requires Room(After(g).lastqLSF[i], Reach(distance))
    ensures var q := After(g).lastqLSF[i];
            var before, after := ErasedRun(After(g), n), ErasedRun(After(g), n + 1);
            && NothingCut(g, i, n) && Small(after.memory[0][i] - q, Reach(distance))
            && -3 <= PredictedAt(Regular(g.l0), after.memory[0], before.memory, i) - q <= 3
  {
    hide Off, SmallDefect, BackComputed, Scaled, PredictedAt, Near, Undisturbed, BackCode, CodeWord, Stable, Predicted;
    if n > 0 {
      AlwaysSettled(g, i, n, distance);
    } else {
      GoodDefect(g, i);
    }
    NextErasure(g, i, n, distance);
    OffIs(g, i, n + 1);
    ErasedRunKeepsFilter(After(g), n, i);
  }

  lemma OffIs(g: GoodFrame, i: nat, n: nat)
    requires IsGood(g) && i < NB_LSP_COEFF && n > 0
    ensures Off(g, i, n) == ErasedRun(After(g), n).memory[0][i] - After(g).lastqLSF[i]
  {
  }

  /** A prediction that already keeps the distance and the limits is left alone. */
  lemma SpacedUndisturbed(g: GoodFrame, i: nat)
    requires IsGood(g) && i < NB_LSP_COEFF
    requires var p := Predicted(Regular(g.l0), CodeWord(g.l), g.before.memory);
             && Gaps(p, NB_LSP_COEFF) && p[1] >= QLSF_MIN && p[NB_LSP_COEFF - 1] <= QLSF_MAX
    requires Fits16(Pshr(MAPredictorSum(g.l0)[i] * CodeWord(g.l)[i]
                         + History(MAPredictor(g.l0), g.before.memory, i, MA_MAX_K), 15))
    ensures Undisturbed(g, i)
  {
    hide MAPredictor, MAPredictorSum, History, CodeWord, Stable, Pshr;
    StableFixes(Predicted(Regular(g.l0), CodeWord(g.l), g.before.memory));
  }

  /** A first frame that repeats the codeword the decoder starts from. */
  function FirstFrame(l0: int): (g: GoodFrame)
    requires 0 <= l0 <= 1
    ensures IsGood(g)
  {
    var c := InitialCodeWord();
    GoodFrame(LsfState([c, c, c, c], c, 0), l0, c)
  }

  lemma InitialKept()
    ensures CodeWord(InitialCodeWord()) == InitialCodeWord()
  {
    hide Rearranged, InitialCodeWord;
    var c := InitialCodeWord();
    InitialSpaced();
    forall i | 0 <= i < NB_LSP_COEFF
      ensures -2000 <= c[i] <= 30000
    {
      InitialRange(i);
    }
    forall i | 1 <= i < NB_LSP_COEFF
      ensures c[i] - c[i - 1] >= 10
    {
      assert c[i - 1 + 1] - c[i - 1] >= 2339;
    }
    RearrangementFixesApart(c, GAP1);
    RearrangementFixesApart(c, GAP2);
  }

  /** It predicts the codeword up to two units. */
  lemma FirstPrediction(l0: int, i: nat)
    requires 0 <= l0 <= 1 && i < NB_LSP_COEFF
    ensures var c := InitialCodeWord();
            var p := Pshr(MAPredictorSum(l0)[i] * c[i] + History(MAPredictor(l0), [c, c, c, c], i, MA_MAX_K), 15);
            c[i] - 2 <= p <= c[i] && Fits16(p)
  {
    var c := InitialCodeWord();
    hide MAPredictor, MAPredictorSum, History, InitialCodeWord, ColumnOf, Contracting, Pshr;
    TablesContract(l0, i);
    HistoryIs(l0, [c, c, c, c], i);
    ColumnSum(l0, i);
    InitialRange(i);
    var k := ColumnOf(l0, i);
    RangesOf(k);
    NearlyWhole(k, c[i]);
  }

  lemma InitialRange(i: nat)
    requires i < NB_LSP_COEFF
    ensures 2339 <= InitialCodeWord()[i] <= 23396
  {
  }

  lemma NearlyWhole(k: Column, c: int)
    requires 0x8000 - 3 <= k.s + k.r1 + k.r2 + k.r3 + k.r4 <= 0x8000 && 0 <= c <= 23396
    ensures c - 2 <= Pshr(k.s * c + (k.r1 * c + k.r2 * c + k.r3 * c + k.r4 * c), 15) <= c
  {
    Spread5(k.s, k.r1, k.r2, k.r3, k.r4, c);
    var sum := k.s + k.r1 + k.r2 + k.r3 + k.r4;
    MultiplyMonotone(sum, 0x8000, c);
    MultiplyMonotone(0x8000 - 3, sum, c);
    Powers();
  }

  /** Its quantised LSFs are the prediction itself, within two units of the codeword. */
  lemma FirstUndisturbed(l0: int, i: nat)
    requires 0 <= l0 <= 1 && i < NB_LSP_COEFF
    ensures Undisturbed(FirstFrame(l0), i)
    ensures InitialCodeWord()[i] - 2 <= After(FirstFrame(l0)).lastqLSF[i] <= InitialCodeWord()[i]
  {
    hide MAPredictor, MAPredictorSum, History, Pshr, InitialCodeWord, Stable, CodeWord, Predicted, Undisturbed;
    var g, c := FirstFrame(l0), InitialCodeWord();
    var p := Predicted(Regular(l0), c, [c, c, c, c]);
    InitialKept();
    InitialSpaced();
    forall k | 0 <= k < NB_LSP_COEFF
      ensures c[k] - 2 <= p[k] <= c[k]
    {
      FirstPredicted(l0, k);
    }
    FirstPrediction(l0, i);
    FirstGaps(c, p);
    SpacedUndisturbed(g, i);
    StableFixes(p);
  }

  lemma FirstPredicted(l0: int, k: nat)
    requires 0 <= l0 <= 1 && k < NB_LSP_COEFF
    ensures var c := InitialCodeWord();
            c[k] - 2 <= Predicted(Regular(l0), c, [c, c, c, c])[k] <= c[k]
  {
    hide MAPredictor, MAPredictorSum, History, Pshr, InitialCodeWord;
    FirstPrediction(l0, k);
  }

  lemma FirstGaps(c: seq<int>, p: seq<int>)
    requires |c| == |p| == NB_LSP_COEFF && c[1] == 4679 && c[NB_LSP_COEFF - 1] == 23396
    requires forall k :: 0 <= k < NB_LSP_COEFF - 1 ==> c[k + 1] - c[k] >= 2339
    requires forall k :: 0 <= k < NB_LSP_COEFF ==> c[k] - 2 <= p[k] <= c[k]
    ensures Gaps(p, NB_LSP_COEFF) && p[1] >= QLSF_MIN && p[NB_LSP_COEFF - 1] <= QLSF_MAX
  {
  }

  lemma InitialSpaced()
    ensures var c := InitialCodeWord();
            && (forall k :: 0 <= k < NB_LSP_COEFF - 1 ==> c[k + 1] - c[k] >= 2339)
            && c[1] == 4679 && c[NB_LSP_COEFF - 1] == 23396
  {
  }

  lemma FirstNear(l0: int, i: nat)
    requires 0 <= l0 <= 1 && i < NB_LSP_COEFF && CodeWord(InitialCodeWord()) == InitialCodeWord()
    requires InitialCodeWord()[i] - 2 <= After(FirstFrame(l0)).lastqLSF[i] <= InitialCodeWord()[i]
    ensures Near(FirstFrame(l0), i, 3)
  {
    hide CodeWord, InitialCodeWord, After;
    var g, c := FirstFrame(l0), InitialCodeWord();
    forall n | -4 <= n <= 0
      ensures Small(Off(g, i, n), 3)
    {
      assert Entry(g, i, n) == c[i];
    }
  }

  /** So the conditions are met from the very start, and any number of losses after the first frame is covered. */
  lemma ErasuresAfterFirstFrame(l0: int, i: nat, n: nat)
    requires 0 <= l0 <= 1 && i < NB_LSP_COEFF
    ensures NothingCut(FirstFrame(l0), i, n)
  {
    var g, c := FirstFrame(l0), InitialCodeWord();
    hide CodeWord, InitialCodeWord, NothingCut, Undisturbed, After, Near, ErasedRun, PredictedAt, FirstFrame;
    InitialKept();
    InitialRange(i);
    FirstUndisturbed(l0, i);
    FirstNear(l0, i);
    ErasuresAfterGoodFrame(g, i, n, 3);
  }

  /** Some condition on the memory is needed: over an all-zero one, which no frame leaves behind, an LSF of 8000 would
      take a codeword beyond 16 bits. */
  lemma StoreCanFail(l0: int, q: seq<int>)
    requires l0 == 0 && |q| == NB_LSP_COEFF && q[0] == 8000
    ensures var z := [0, 0, 0, 0, 0, 0, 0, 0, 0, 0];
            Fits32(Scaled(l0, q[0], [z, z, z, z], 0)) && !Fits16(BackComputed(l0, q[0], [z, z, z, z], 0))
  {
    var z := [0, 0, 0, 0, 0, 0, 0, 0, 0, 0];
    HistoryIs(0, [z, z, z, z], 0);
    SplitMultiplyIsFloor(17210, 0x8000 * 8000, 12);
    Powers();
  }
}
