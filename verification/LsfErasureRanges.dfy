/** Good frames whose codewords are sums of codebook rows: whatever was sent, any number of erasures after them is
    concealed. */
module LsfErasureRanges {
  import opened FixedPoint
  import opened LsfStability
  import opened LsfPrediction
  import opened LsfErasure
  import opened LsfErasureRuns

  // ---- The ranges of the codebooks, column by column

  const L1_LOW := [679, 1411, 2395, 3322, 5640, 7297, 10597, 12161, 16047, 17514]
  const L1_HIGH := [4499, 6604, 9596, 11742, 14413, 16080, 18330, 19856, 21830, 23533]
  const L2L3_LOW := [-1596, -1237, -1280, -1260, -1468, -1182, -1752, -1247, -1633, -1296]
  const L2L3_HIGH := [2197, 2337, 1568, 1660, 1733, 1549, 1341, 1640, 1517, 2223]

  ghost predicate StagesInRange(books: Codebooks) {
    && (forall row, i :: 0 <= row < 128 && 0 <= i < NB_LSP_COEFF ==> L1_LOW[i] <= books.l1(row, i) <= L1_HIGH[i])
    && forall row, i :: 0 <= row < 32 && 0 <= i < NB_LSP_COEFF ==> L2L3_LOW[i] <= books.l2l3(row, i) <= L2L3_HIGH[i]
  }

  function Low(i: nat): int
    requires i < NB_LSP_COEFF
  {
    L1_LOW[i] + L2L3_LOW[i]
  }

  function High(i: nat): int
    requires i < NB_LSP_COEFF
  {
    L1_HIGH[i] + L2L3_HIGH[i]
  }

  function Width(i: nat): int
    requires i < NB_LSP_COEFF
  {
    High(i) - Low(i)
  }

  ghost predicate Ranged(q: seq<int>) {
    |q| == NB_LSP_COEFF && forall i :: 0 <= i < NB_LSP_COEFF ==> Low(i) <= q[i] <= High(i)
  }

  lemma SumRanged(books: Codebooks, l1: int, l2: int, l3: int)
    requires StagesInRange(books) && 0 <= l1 < 128 && 0 <= l2 < 32 && 0 <= l3 < 32
    ensures Ranged(CodebookSum(books, l1, l2, l3))
  {
  }

  /** Neighbouring ranges are more than the gap apart at both ends, so a moved pair stays inside them. */
  lemma RangesApart(i: nat)
    requires 1 <= i < NB_LSP_COEFF
    ensures -917 <= Low(i - 1) && Low(i - 1) + 10 <= Low(i) && High(i - 1) + 10 <= High(i) <= 25756
  {
  }

  lemma {:induction false} RearrangedRanged(q: seq<int>, gap: int, n: nat)
    requires Ranged(q) && 0 <= gap <= 10 && 1 <= n <= NB_LSP_COEFF
    ensures Ranged(Rearranged(q, gap, n))
  {
    hide Low, High, Adjusted;
    if n > 1 {
      RearrangedRanged(q, gap, n - 1);
      RangesApart(n - 1);
      var s := Rearranged(q, gap, n - 1);
      var missing := s[n - 2] - s[n - 1] + gap;
      AdjustedPlain(s, n - 1, gap, if missing > 1 then missing / 2 else 0);
    }
  }

  lemma CodeWordRanged(l: seq<int>)
    requires Ranged(l)
    ensures Ranged(CodeWord(l))
  {
    hide Rearranged, Low, High;
    RearrangedRanged(l, GAP1, NB_LSP_COEFF);
    RearrangedRanged(Rearranged(l, GAP1, NB_LSP_COEFF), GAP2, NB_LSP_COEFF);
  }

  // ---- One good frame and the erasures after it

  ghost predicate RangedMemory(memory: seq<seq<int>>) {
    IsMemory(memory) && forall j :: 0 <= j < MA_MAX_K ==> Ranged(memory[j])
  }

  /** A good frame that adds a codeword in range to a memory in range. */
  ghost predicate RangedFrame(g: GoodFrame) {
    IsGood(g) && RangedMemory(g.before.memory) && Ranged(CodeWord(g.l))
  }

  /** How far the codewords computed back may lie from the frozen value. */
  function Distance(i: nat): int
    requires i < NB_LSP_COEFF
  {
    Width(i) + Width(i) / 8 + 110
  }

  lemma WeightedRange(c: Column, low: int, high: int, m0: int, m1: int, m2: int, m3: int, m4: int)
    requires c.s >= 0 && c.r1 >= 0 && c.r2 >= 0 && c.r3 >= 0 && c.r4 >= 0
    requires low <= m0 <= high && low <= m1 <= high && low <= m2 <= high && low <= m3 <= high && low <= m4 <= high
    ensures var w := c.s + c.r1 + c.r2 + c.r3 + c.r4;
            w * low <= c.s * m0 + (c.r1 * m1 + c.r2 * m2 + c.r3 * m3 + c.r4 * m4) <= w * high
  {
    Spread5(c.s, c.r1, c.r2, c.r3, c.r4, low);
    Spread5(c.s, c.r1, c.r2, c.r3, c.r4, high);
    Weighted(c.s, low, m0, high);
    Weighted(c.r1, low, m1, high);
    Weighted(c.r2, low, m2, high);
    Weighted(c.r3, low, m3, high);
    Weighted(c.r4, low, m4, high);
  }

  lemma Weighted(w: int, low: int, m: int, high: int)
    requires w >= 0 && low <= m <= high
    ensures w * low <= w * m <= w * high
  {
  }

  /** A weighted mean whose weights sum to one, but for three units, stays in the range, but for three units. */
  lemma MeanInRange(w: int, low: int, high: int, sum: int)
    requires 0x8000 - 3 <= w <= 0x8000 && w * low <= sum <= w * high && -0x8000 <= low <= high <= 0x7fff
    ensures low - 3 <= Pshr(sum, 15) <= high + 3
  {
    SmallProduct(0x8000 - w, low, 0x8000);
    SmallProduct(0x8000 - w, high, 0x8000);
    assert (0x8000 - w) * low == 0x8000 * low - w * low && (0x8000 - w) * high == 0x8000 * high - w * high;
    Powers();
  }

  lemma RangeOf(i: nat)
    requires i < NB_LSP_COEFF
    ensures -917 <= Low(i) < High(i) <= 25756 && Width(i) <= 11974
  {
  }

  /** The frozen value of an undisturbed coefficient lies where its codewords do. */
  lemma FrozenInRange(g: GoodFrame, i: nat)
    requires RangedFrame(g) && i < NB_LSP_COEFF && Undisturbed(g, i)
    ensures Low(i) - 3 <= After(g).lastqLSF[i] <= High(i) + 3
  {
    hide MAPredictor, MAPredictorSum, History, Contracting, CodeWord, After, Low, High, Pshr, ColumnOf;
    TablesContract(g.l0, i);
    HistoryIs(g.l0, g.before.memory, i);
    ColumnSum(g.l0, i);
    RangeOf(i);
    var c, m := ColumnOf(g.l0, i), g.before.memory;
    RangesOf(c);
    WeightedRange(c, Low(i), High(i), CodeWord(g.l)[i], m[0][i], m[1][i], m[2][i], m[3][i]);
    MeanInRange(c.s + c.r1 + c.r2 + c.r3 + c.r4, Low(i), High(i),
                c.s * CodeWord(g.l)[i] + (c.r1 * m[0][i] + c.r2 * m[1][i] + c.r3 * m[2][i] + c.r4 * m[3][i]));
  }

  /** The last five codewords lie inside the range. */
  lemma EntriesInRange(g: GoodFrame, i: nat, n: int)
    requires RangedFrame(g) && i < NB_LSP_COEFF && -4 <= n <= 0
    ensures Low(i) <= Entry(g, i, n) <= High(i)
  {
    hide CodeWord, Low, High;
  }

  /** The frozen values of every column leave the accumulator its 32 bits. */
  lemma RangeAccumulates(l0: int, i: nat, q: int)
    requires 0 <= l0 <= 1 && i < NB_LSP_COEFF && Low(i) - 3 <= q <= High(i) + 3
    ensures Accumulates(ColumnOf(l0, i), q, Distance(i))
  {
    hide ColumnOf, FirstColumn, SecondColumn, Low, High;
    ColumnsAre(l0, i);
    RangeOf(i);
    WidthAtLeast(i);
    if l0 == 0 {
      FirstHeadroom(i);
    } else {
      SecondHeadroom(i);
    }
    var c := ColumnOf(l0, i);
    MultiplyMonotone(Abs(q), Farthest(i), c.s);
  }

  /** Largest magnitude of a frozen value. */
  function Farthest(i: nat): int
    requires i < NB_LSP_COEFF
  {
    3 + if Abs(Low(i)) > Abs(High(i)) then Abs(Low(i)) else Abs(High(i))
  }

  predicate Headroom(c: Column, i: nat)
    requires i < NB_LSP_COEFF
  {
    c.s * Farthest(i) + (0x8000 - c.s) * Distance(i) + 3 * 0x8000 <= 65535 * c.s && c.s > 0
  }

  lemma FirstHeadroom(i: nat)
    requires i < NB_LSP_COEFF
    ensures Headroom(FirstColumn(i), i)
  {
  }

  lemma SecondHeadroom(i: nat)
    requires i < NB_LSP_COEFF
    ensures Headroom(SecondColumn(i), i)
  {
  }

  /** Twice the distance from the middle of the range. */
  function Centred(i: nat, entry: int): int
    requires i < NB_LSP_COEFF
  {
    2 * entry - Low(i) - High(i)
  }

  /** The defect of shifted and doubled codewords. */
  lemma DefectShifted(c: Column, t: int, e0: int, e1: int, e2: int, e3: int, e4: int)
    ensures Defect(c, 2 * e0 + t, 2 * e1 + t, 2 * e2 + t, 2 * e3 + t, 2 * e4 + t)
         == 2 * Defect(c, e0, e1, e2, e3, e4) + (c.s + c.r1 + c.r2 + c.r3 + c.r4) * t
  {
    Doubled(c.s, e0, t);
    Doubled(c.r1, e1, t);
    Doubled(c.r2, e2, t);
    Doubled(c.r3, e3, t);
    Doubled(c.r4, e4, t);
    Spread5(c.s, c.r1, c.r2, c.r3, c.r4, t);
  }

  lemma Doubled(w: int, e: int, t: int)
    ensures w * (2 * e + t) == 2 * (w * e) + w * t
  {
  }

  /** The first codeword computed back overshoots the range by an eighth of its width at most. */
  lemma FirstOvershoot(c: Column, t: int, e0: int, e1: int, e2: int, e3: int, e4: int, e5: int, width: int)
    requires Contracting(c) && width >= 0
    requires Small(2 * e1 + t, width) && Small(2 * e2 + t, width) && Small(2 * e3 + t, width)
             && Small(2 * e4 + t, width) && Small(2 * e5 + t, width)
    requires Small(Defect(c, e0, e1, e2, e3, e4), DEFECT) && Small(Defect(c, e1, e2, e3, e4, e5), DEFECT)
    ensures 4 * Abs(2 * e0 + t) <= 5 * width + 800
  {
    hide Defect, Contracting;
    DefectShifted(c, t, e0, e1, e2, e3, e4);
    DefectShifted(c, t, e1, e2, e3, e4, e5);
    FirstBounded(c, 2 * e0 + t, 2 * e1 + t, 2 * e2 + t, 2 * e3 + t, 2 * e4 + t, 2 * e5 + t, width, 4);
  }

  /** A codeword with a small distance survives its store. */
  predicate Storable(i: nat, q: int, e: int)
    requires i < NB_LSP_COEFF
  {
    Small(e, Distance(i)) && Fits16(q + e)
  }

  lemma OvershootStorable(i: nat, q: int, e: int)
    requires i < NB_LSP_COEFF && Low(i) - 3 <= q <= High(i) + 3 && 4 * Abs(Centred(i, q + e)) <= 5 * Width(i) + 800
    ensures Storable(i, q, e)
  {
    hide Low, High;
    RangeOf(i);
    HighRoom(i);
  }

  /** Above the range there is room for an eighth of its width, and for three fifths of the distance. */
  lemma HighRoom(i: nat)
    requires i < NB_LSP_COEFF
    ensures High(i) + Width(i) / 8 + 101 <= 0x7fff && High(i) + 3 + (3 * Distance(i) + 500) / 5 <= 0x7fff
  {
  }

  lemma ContractedStorable(i: nat, q: int, e: int)
    requires i < NB_LSP_COEFF && Low(i) - 3 <= q <= High(i) + 3 && 5 * Abs(e) <= 3 * Distance(i) + 500
    ensures Storable(i, q, e)
  {
    hide Low, High;
    RangeOf(i);
    HighRoom(i);
    WidthAtLeast(i);
  }

  lemma WidthAtLeast(i: nat)
    requires i < NB_LSP_COEFF
    ensures Width(i) >= 7000
  {
  }

  lemma RecentInRange(g: GoodFrame, i: nat, n: nat)
    requires RangedFrame(g) && i < NB_LSP_COEFF && Undisturbed(g, i) && (n > 0 ==> Settled(g, i, n, Distance(i)))
    ensures MemoryNear(g, i, n, Distance(i))
  {
    hide After, Entry, SmallDefect, Low, High;
    FrozenInRange(g, i);
    WidthAtLeast(i);
    forall k | n - 3 <= k <= n
      ensures Small(Off(g, i, k), Distance(i))
    {
      if k <= 0 {
        EntriesInRange(g, i, k);
      }
    }
  }

  /** The distance of the next codeword before its store. */
  lemma NextStorable(g: GoodFrame, i: nat, n: nat, e: int)
    requires RangedFrame(g) && i < NB_LSP_COEFF && Undisturbed(g, i) && (n > 0 ==> Settled(g, i, n, Distance(i)))
    requires Small(Defect(ColumnOf(g.l0, i), e, Off(g, i, n), Off(g, i, n - 1), Off(g, i, n - 2), Off(g, i, n - 3)),
                   DEFECT)
    ensures Storable(i, After(g).lastqLSF[i], e)
  {
    hide Defect, Contracting, ColumnOf, Entry, After, Low, High, Storable;
    TablesContract(g.l0, i);
    FrozenInRange(g, i);
    WidthAtLeast(i);
    var c, q := ColumnOf(g.l0, i), After(g).lastqLSF[i];
    if n == 0 {
      GoodDefectRanged(g, i);
      var t := Centred(i, q);
      forall k | -4 <= k <= 0
        ensures Small(2 * Off(g, i, k) + t, Width(i))
      {
        EntriesInRange(g, i, k);
      }
      FirstOvershoot(c, t, e, Off(g, i, 0), Off(g, i, -1), Off(g, i, -2), Off(g, i, -3), Off(g, i, -4), Width(i));
      OvershootStorable(i, q, e);
    } else {
      LaterBounded(c, e, Off(g, i, n), Off(g, i, n - 1), Off(g, i, n - 2), Off(g, i, n - 3), Off(g, i, n - 4),
                   Off(g, i, n - 5), Distance(i));
      ContractedStorable(i, q, e);
    }
  }

  lemma GoodDefectRanged(g: GoodFrame, i: nat)
    requires RangedFrame(g) && i < NB_LSP_COEFF && Undisturbed(g, i)
    ensures SmallDefect(g, i, 0)
  {
    hide SmallDefect, After, Low, High;
    FrozenInRange(g, i);
    RangeOf(i);
    GoodDefect(g, i);
  }

  lemma NextRanged(g: GoodFrame, i: nat, n: nat)
    requires RangedFrame(g) && i < NB_LSP_COEFF && Undisturbed(g, i) && (n > 0 ==> Settled(g, i, n, Distance(i)))
    ensures NothingCut(g, i, n) && Small(Off(g, i, n + 1), Distance(i)) && SmallDefect(g, i, n + 1)
  {
    hide Defect, ColumnOf, Entry, After, ErasedRun, BackComputed, Scaled, Settled, MemoryNear, Accumulates, Undisturbed;
    hide Low, High, RangedMemory, Ranged;
    var q := After(g).lastqLSF[i];
    var l := BackComputed(g.l0, q, ErasedRun(After(g), n).memory, i);
    FrozenInRange(g, i);
    RangeAccumulates(g.l0, i, q);
    RecentInRange(g, i, n);
    NextDefect(g, i, n, Distance(i));
    NextStorable(g, i, n, l - q);
    NextEntry(g, i, n);
    assert Off(g, i, n + 1) == l - q;
    assert n + 1 - 1 == n && n + 1 - 2 == n - 1 && n + 1 - 3 == n - 2 && n + 1 - 4 == n - 3;
  }

  lemma {:induction false} RangedSettled(g: GoodFrame, i: nat, n: nat)
    requires RangedFrame(g) && i < NB_LSP_COEFF && Undisturbed(g, i) && n >= 1
    ensures Settled(g, i, n, Distance(i))
  {
    hide Off, SmallDefect, After, Undisturbed, RangedMemory, Ranged;
    if n > 1 {
      RangedSettled(g, i, n - 1);
    } else {
      GoodDefectRanged(g, i);
      FirstFiveNear(g, i);
    }
    NextRanged(g, i, n - 1);
  }

  lemma FirstFiveNear(g: GoodFrame, i: nat)
    requires RangedFrame(g) && i < NB_LSP_COEFF && Undisturbed(g, i)
    ensures forall k :: -4 <= k <= 0 ==> Small(Off(g, i, k), Distance(i))
  {
    hide After, Entry, Low, High, Undisturbed;
    FrozenInRange(g, i);
    WidthAtLeast(i);
    forall k | -4 <= k <= 0
      ensures Small(Off(g, i, k), Distance(i))
    {
      EntriesInRange(g, i, k);
    }
  }

  /** However far the last five codewords lie apart inside the range of the codebooks: no accumulator and no store cuts
      anything, and every codeword computed back predicts the frozen value again up to three units. */
  lemma ErasuresAfterRangedFrame(g: GoodFrame, i: nat, n: nat)
    requires RangedFrame(g) && i < NB_LSP_COEFF && Undisturbed(g, i)
    ensures var q := After(g).lastqLSF[i];
            var before, after := ErasedRun(After(g), n), ErasedRun(After(g), n + 1);
            && NothingCut(g, i, n) && Small(after.memory[0][i] - q, Distance(i))
            && -3 <= PredictedAt(Regular(g.l0), after.memory[0], before.memory, i) - q <= 3
  {
    hide Off, SmallDefect, BackComputed, Scaled, PredictedAt, Undisturbed, BackCode, CodeWord, Stable, Predicted;
    hide RangedMemory, Ranged, Low, High;
    if n > 0 {
      RangedSettled(g, i, n);
    }
    NextRanged(g, i, n);
    OffIs(g, i, n + 1);
    FrozenInRange(g, i);
    RangeOf(i);
    ErasedRunKeepsFilter(After(g), n, i);
  }

  // ---- Runs of good frames

  /** Predictor switch and the three rows of a received frame. */
  datatype LsfIndices = LsfIndices(l0: int, l1: int, l2: int, l3: int)

  predicate InTables(x: LsfIndices) {
    0 <= x.l0 <= 1 && 0 <= x.l1 < 128 && 0 <= x.l2 < 32 && 0 <= x.l3 < 32
  }

  function SumOf(books: Codebooks, x: LsfIndices): (r: seq<int>)
    ensures |r| == NB_LSP_COEFF
  {
    CodebookSum(books, x.l1, x.l2, x.l3)
  }

  /** The decoder after a run of good frames. */
  function Heard(books: Codebooks, s: LsfState, frames: seq<LsfIndices>): (r: LsfState)
    requires IsState(s)
    ensures IsState(r)
  {
    if |frames| == 0 then s
    else
      var x := frames[|frames| - 1];
      Received(Heard(books, s, frames[..|frames| - 1]), x.l0, SumOf(books, x))
  }

  ghost predicate AllInTables(frames: seq<LsfIndices>) {
    forall k :: 0 <= k < |frames| ==> InTables(frames[k])
  }

  /** The last frame of a run. */
  function LastFrame(books: Codebooks, s: LsfState, frames: seq<LsfIndices>): (g: GoodFrame)
    requires IsState(s) && |frames| > 0 && AllInTables(frames)
    ensures IsGood(g)
  {
    var x := frames[|frames| - 1];
    GoodFrame(Heard(books, s, frames[..|frames| - 1]), x.l0, SumOf(books, x))
  }

  /** Every good frame enters a codeword in range, so four of them fill the memory whatever it was. */
  lemma {:induction false} HeardRanged(books: Codebooks, s: LsfState, frames: seq<LsfIndices>)
    requires IsState(s) && StagesInRange(books) && AllInTables(frames)
    ensures forall j :: 0 <= j < MA_MAX_K && (j < |frames| || RangedMemory(s.memory)) ==>
              Ranged(Heard(books, s, frames).memory[j])
  {
    hide Ranged, CodeWord, Stable, Predicted, StagesInRange, SumOf;
    if |frames| > 0 {
      var x := frames[|frames| - 1];
      HeardRanged(books, s, frames[..|frames| - 1]);
      SumOfRanged(books, x);
    }
  }

  lemma SumOfRanged(books: Codebooks, x: LsfIndices)
    requires StagesInRange(books) && InTables(x)
    ensures Ranged(SumOf(books, x)) && Ranged(CodeWord(SumOf(books, x)))
  {
    hide CodeWord, Ranged, StagesInRange, CodebookSum;
    SumRanged(books, x.l1, x.l2, x.l3);
    CodeWordRanged(SumOf(books, x));
  }

  /** The memory a decoder starts from is in range. */
  lemma InitialMemoryRanged()
    ensures var c := InitialCodeWord();
            RangedMemory([c, c, c, c])
  {
  }

  /** After every run of good frames, from the initial memory or at least five of them from any memory, and for every
      coefficient that the stability pass of the last one left alone: however many frames are then lost, each of them
      computes back a codeword that nothing cuts and that predicts the last LSF again up to three units. */
  lemma EveryRunConceals(books: Codebooks, s: LsfState, frames: seq<LsfIndices>, i: nat, n: nat)
    requires IsState(s) && StagesInRange(books) && AllInTables(frames) && |frames| > 0 && i < NB_LSP_COEFF
    requires RangedMemory(s.memory) || |frames| >= 5
    requires Undisturbed(LastFrame(books, s, frames), i)
    ensures var heard := Heard(books, s, frames);
            var before, after := ErasedRun(heard, n), ErasedRun(heard, n + 1);
            && Fits32(Scaled(heard.lastValidL0, heard.lastqLSF[i], before.memory, i))
            && Fits16(BackComputed(heard.lastValidL0, heard.lastqLSF[i], before.memory, i))
            && -3 <= PredictedAt(Regular(heard.lastValidL0), after.memory[0], before.memory, i) - heard.lastqLSF[i] <= 3
  {
    hide Ranged, CodeWord, Stable, Predicted, StagesInRange, SumOf, Heard, ErasedRun, Scaled, BackComputed, PredictedAt;
    hide Undisturbed;
    var g := LastFrame(books, s, frames);
    HeardRanged(books, s, frames[..|frames| - 1]);
    SumOfRanged(books, frames[|frames| - 1]);
    assert After(g) == Heard(books, s, frames) by { HeardIsAfter(books, s, frames); }
    ErasuresAfterRangedFrame(g, i, n);
  }

  lemma HeardIsAfter(books: Codebooks, s: LsfState, frames: seq<LsfIndices>)
    requires IsState(s) && |frames| > 0 && AllInTables(frames)
    ensures var g := LastFrame(books, s, frames);
            After(g) == Heard(books, s, frames)
  {
    hide CodeWord, Stable, Predicted, SumOf;
  }
}
