/** The root search of LP2LSPConversion.c in its own integer format: halvings, interpolation and their order. */
module LspIntegerSearch {
  import opened FixedPoint
  import opened LspInterpolation
  import opened SeriesRounding

  // ---- ChebyshevPolynomial, order five, Q15

  /** bk1 and bk2 after k steps of the backward recurrence. */
  function Backward(f: seq<int>, x: int, k: nat): (int, int)
    requires |f| == 6 && k <= 3
  {
    if k == 0 then (2 * x + f[1], 0x8000)
    else
      var b := Backward(f, x, k - 1);
      (2 * SplitMultiply(x, b.0, 15) + f[1 + k] - b.1, b.0)
  }

  function Polynomial(f: seq<int>, x: int): int
    requires |f| == 6
  {
    var b := Backward(f, x, 3);
    SplitMultiply(x, b.0, 15) + Shr(f[5], 1) - b.1
  }

  lemma ProductRoundsDown(x: int, b: int)
    ensures FloorProduct(x, b, SplitMultiply(x, b, 15))
  {
    hide SplitMultiply, Pow2;
    SplitMultiplyIsFloor(x, b, 15);
    ShiftBounds(x * b, 15);
    Powers();
  }

  /** Its value is that of the Chebyshev series whose coefficients follow each other in f, up to eight units of Q15. */
  lemma PolynomialNearSeries(f: seq<int>, x: int)
    requires |f| == 6 && -0x8000 <= x <= 0x8000
    ensures NearSeries(f, x, Polynomial(f, x))
  {
    hide SplitMultiply, FloorProduct, NearSeries;
    var b1, b2, b3, b4 := Backward(f, x, 0).0, Backward(f, x, 1).0, Backward(f, x, 2).0, Backward(f, x, 3).0;
    ProductRoundsDown(x, b1);
    ProductRoundsDown(x, b2);
    ProductRoundsDown(x, b3);
    ProductRoundsDown(x, b4);
    assert Pow2(1) == 2;
    RecurrenceNearSeries(f, x, b1, SplitMultiply(x, b1, 15), b2, SplitMultiply(x, b2, 15), b3,
                         SplitMultiply(x, b3, 15), b4, SplitMultiply(x, b4, 15), Shr(f[5], 1));
  }

  method ChebyshevPolynomial(x: int, f: seq<int>) returns (c: int)
    requires |f| == 6
    ensures c == Polynomial(f, x)
    ensures -0x8000 <= x <= 0x8000 ==> NearSeries(f, x, c)
  {
    hide SplitMultiply, Shr, NearSeries;
    var bk1, bk2 := 2 * x + f[1], 0x8000;
    var k := 3;
    while k > 0
      invariant 0 <= k <= 3 && (bk1, bk2) == Backward(f, x, 3 - k)
    {
      var bk := 2 * SplitMultiply(x, bk1, 15) + f[5 - k] - bk2;
      bk2 := bk1;
      bk1 := bk;
      k := k - 1;
    }
    c := SplitMultiply(x, bk1, 15) + Shr(f[5], 1) - bk2;
    if -0x8000 <= x <= 0x8000 {
      PolynomialNearSeries(f, x);
    }
  }

  // ---- One cell

  /** An interval with the values tracked for its two ends, and the grid cell it came from. */
  datatype Bracket = Bracket(cell: nat, low: int, high: int, previousCx: int, cx: int)

  /** One halving: the half whose tracked values still differ in sign. */
  function Halved(f: seq<int>, b: Bracket): Bracket
    requires |f| == 6
  {
    var mean := Cast16(Shr(b.low + b.high, 1));
    var middleCx := Polynomial(f, mean);
    if XorBit28(b.previousCx, middleCx) then b.(high := mean, cx := middleCx)
    else b.(low := mean, previousCx := middleCx)
  }

  method HalveTwice(f: seq<int>, start: Bracket) returns (b: Bracket)
    requires |f| == 6
    ensures b == Halved(f, Halved(f, start))
  {
    hide Polynomial, XorBit28, Shr, Cast16;
    b := start;
    var j := 0;
    while j < 2
      invariant 0 <= j <= 2
      invariant b == if j == 0 then start else if j == 1 then Halved(f, start) else Halved(f, Halved(f, start))
    {
      var xMean := Cast16(Shr(b.low + b.high, 1));
      var middleCx := ChebyshevPolynomial(xMean, f);
      if XorBit28(b.previousCx, middleCx) {
        b := b.(high := xMean, cx := middleCx);
      } else {
        b := b.(low := xMean, previousCx := middleCx);
      }
      j := j + 1;
    }
  }

  /** Where the interpolation puts the root. */
  function Position(b: Bracket): int
    requires Divisor(b.previousCx, b.cx) != 0
  {
    Cast16(Interpolated(b.low, b.high, b.previousCx, b.cx))
  }

  // ---- The whole search

  /** Roots located so far, with the value and the polynomial the search goes on with; stuck at a division by zero. */
  datatype Progress = Progress(previousCx: int, brackets: seq<Bracket>, stuck: bool)

  function InUse(f1: seq<int>, f2: seq<int>, k: nat): seq<int> {
    if k % 2 == 0 then f1 else f2
  }

  /** The step at grid point i. */
  function Step(grid: seq<int>, f1: seq<int>, f2: seq<int>, p: Progress, i: nat): Progress
    requires |f1| == |f2| == 6 && 1 <= i < |grid|
  {
    var f := InUse(f1, f2, |p.brackets|);
    var cx := Polynomial(f, grid[i]);
    if !XorBit28(p.previousCx, cx) then p
    else
      var b := Halved(f, Halved(f, Bracket(i, grid[i - 1], grid[i], p.previousCx, cx)));
      if Divisor(b.previousCx, b.cx) == 0 then p.(stuck := true)
      else Progress(Polynomial(InUse(f1, f2, |p.brackets| + 1), Position(b)), p.brackets + [b], false)
  }

  /** The search from grid point i on. */
  function Scanned(grid: seq<int>, f1: seq<int>, f2: seq<int>, count: nat, p: Progress, i: nat): Progress
    requires |f1| == |f2| == 6 && i >= 1
    decreases if i < |grid| then |grid| - i else 0
  {
    if i >= |grid| || |p.brackets| >= count || p.stuck then p
    else Scanned(grid, f1, f2, count, Step(grid, f1, f2, p, i), i + 1)
  }

  function Search(grid: seq<int>, f1: seq<int>, f2: seq<int>, count: nat): Progress
    requires |f1| == |f2| == 6 && |grid| > 0
  {
    Scanned(grid, f1, f2, count, Progress(Polynomial(f1, grid[0]), [], false), 1)
  }

  /** A bracket whose division is defined. */
  predicate Placed(b: Bracket) {
    Divisor(b.previousCx, b.cx) != 0
  }

  ghost predicate AllPlaced(p: Progress) {
    forall k :: 0 <= k < |p.brackets| ==> Placed(p.brackets[k])
  }

  function Positions(brackets: seq<Bracket>): (r: seq<int>)
    requires forall k :: 0 <= k < |brackets| ==> Placed(brackets[k])
    ensures |r| == |brackets|
  {
    seq(|brackets|, k requires 0 <= k < |brackets| && Placed(brackets[k]) => Position(brackets[k]))
  }

  /** LP2LSPConversion from the two polynomials on: the loop computes the search, or stops where the code divides by
      zero. */
  method FindRoots(grid: seq<int>, f1: seq<int>, f2: seq<int>, count: nat)
    returns (found: bool, lsp: seq<int>, ghost p: Progress)
    requires |f1| == |f2| == 6 && |grid| > 0 && count > 0
    ensures p == Search(grid, f1, f2, count) && AllPlaced(p) && lsp == Positions(p.brackets)
    ensures found <==> |lsp| == count
  {
    hide Polynomial, XorBit28, Halved, Divisor, Position;
    lsp := [];
    var stuck := false;
    var polynomialCoefficients := f1;
    var previousCx := ChebyshevPolynomial(grid[0], f1);
    p := Progress(previousCx, [], false);
    var i := 1;
    while i < |grid| && |lsp| < count && !stuck
      invariant 1 <= i <= |grid| && |lsp| <= count
      invariant Scanned(grid, f1, f2, count, p, i) == Search(grid, f1, f2, count)
      invariant p.previousCx == previousCx && p.stuck == stuck && AllPlaced(p) && lsp == Positions(p.brackets)
      invariant polynomialCoefficients == InUse(f1, f2, |lsp|)
    {
      var cx := ChebyshevPolynomial(grid[i], polynomialCoefficients);
      ghost var before := p;
      p := Step(grid, f1, f2, p, i);
      if XorBit28(previousCx, cx) {
        var b := HalveTwice(polynomialCoefficients, Bracket(i, grid[i - 1], grid[i], previousCx, cx));
        if Divisor(b.previousCx, b.cx) == 0 {
          stuck := true;
        } else {
          polynomialCoefficients := InUse(f1, f2, |lsp| + 1);
          var xMean := Position(b);
          previousCx := ChebyshevPolynomial(xMean, polynomialCoefficients);
          lsp := lsp + [xMean];
        }
      }
      i := i + 1;
    }
    found := |lsp| == count;
  }

  // ---- Where the roots lie

  ghost predicate Decreasing(grid: seq<int>) {
    && (forall i :: 0 <= i < |grid| ==> Fits16(grid[i]))
    && forall i, j :: 0 <= i < j < |grid| ==> grid[i] > grid[j]
  }

  /** Inside its grid cell, with tracked values of different signs. */
  predicate Sound(grid: seq<int>, b: Bracket) {
    && 1 <= b.cell < |grid| && grid[b.cell] <= b.high <= b.low <= grid[b.cell - 1]
    && XorBit28(b.previousCx, b.cx)
  }

  lemma HalvedSound(grid: seq<int>, f: seq<int>, b: Bracket)
    requires |f| == 6 && Decreasing(grid) && Sound(grid, b)
    ensures Sound(grid, Halved(f, b)) && Halved(f, b).cell == b.cell
  {
    hide Polynomial;
    assert Pow2(1) == 2;
  }

  /** Cells in order, each bracket sound and its root defined. */
  ghost predicate Ordered(grid: seq<int>, brackets: seq<Bracket>, limit: nat) {
    && (forall k :: 0 <= k < |brackets| ==> Sound(grid, brackets[k]) && Placed(brackets[k]) && brackets[k].cell < limit)
    && forall j, k :: 0 <= j < k < |brackets| ==> brackets[j].cell < brackets[k].cell
  }

  lemma StepOrdered(grid: seq<int>, f1: seq<int>, f2: seq<int>, p: Progress, i: nat)
    requires |f1| == |f2| == 6 && 1 <= i < |grid| && Decreasing(grid) && Ordered(grid, p.brackets, i)
    ensures Ordered(grid, Step(grid, f1, f2, p, i).brackets, i + 1)
  {
    hide Polynomial, XorBit28, Halved, Divisor;
    var f := InUse(f1, f2, |p.brackets|);
    var cx := Polynomial(f, grid[i]);
    if XorBit28(p.previousCx, cx) {
      var b := Bracket(i, grid[i - 1], grid[i], p.previousCx, cx);
      HalvedSound(grid, f, b);
      HalvedSound(grid, f, Halved(f, b));
    }
  }

  lemma OrderedBelow(grid: seq<int>, brackets: seq<Bracket>, i: nat)
    requires Ordered(grid, brackets, i) && i <= |grid|
    ensures Ordered(grid, brackets, |grid|)
  {
  }

  lemma {:induction false} ScannedOrdered(grid: seq<int>, f1: seq<int>, f2: seq<int>, count: nat, p: Progress, i: nat)
    requires |f1| == |f2| == 6 && 1 <= i <= |grid| && Decreasing(grid) && Ordered(grid, p.brackets, i)
    ensures Ordered(grid, Scanned(grid, f1, f2, count, p, i).brackets, |grid|)
    decreases if i < |grid| then |grid| - i else 0
  {
    hide Ordered, Step;
    if !(i >= |grid| || |p.brackets| >= count || p.stuck) {
      StepOrdered(grid, f1, f2, p, i);
      ScannedOrdered(grid, f1, f2, count, Step(grid, f1, f2, p, i), i + 1);
    } else {
      OrderedBelow(grid, p.brackets, i);
    }
  }

  /** The tracked values have the width that the shift and the sign test need, and the step is not the one exception. */
  predicate Regular(b: Bracket) {
    ShiftFits(b.previousCx) && Narrow(b.cx) && !StepTooLong(b.low - b.high, b.previousCx, b.cx)
  }

  /** A root of values of that width lies in its bracket exactly when its step is not too long. */
  lemma PositionInBracket(grid: seq<int>, b: Bracket)
    requires Decreasing(grid) && Sound(grid, b) && Placed(b) && ShiftFits(b.previousCx) && Narrow(b.cx)
    ensures b.high <= Interpolated(b.low, b.high, b.previousCx, b.cx) <= b.low <==> Regular(b)
    ensures Regular(b) ==> b.high <= Position(b) <= b.low
  {
    hide Interpolated, StepTooLong;
    ShiftFitsIff(b.previousCx);
    XorBit28IsSignChange(b.previousCx, b.cx);
    DivisorZero(b.previousCx, b.cx);
    InterpolationInsideCell(b.low, b.high, b.previousCx, b.cx);
  }

  /** Unless a value is too wide or a step too long somewhere, every root lies in its own cell and the integer search
      keeps them in order. */
  lemma IntegerRootsOrdered(grid: seq<int>, f1: seq<int>, f2: seq<int>, count: nat)
    requires |f1| == |f2| == 6 && |grid| > 0 && Decreasing(grid)
    requires forall k :: 0 <= k < |Search(grid, f1, f2, count).brackets| ==>
             Regular(Search(grid, f1, f2, count).brackets[k])
    ensures var b := Search(grid, f1, f2, count).brackets;
            && (forall k :: 0 <= k < |b| ==> Placed(b[k]) && 1 <= b[k].cell < |grid|
                                             && grid[b[k].cell] <= Position(b[k]) <= grid[b[k].cell - 1])
            && (forall j, k :: 0 <= j < k < |b| ==> b[j].cell < b[k].cell && Position(b[j]) >= Position(b[k]))
  {
    hide Polynomial, Scanned, Regular, Position;
    var start := Progress(Polynomial(f1, grid[0]), [], false);
    ScannedOrdered(grid, f1, f2, count, start, 1);
    var b := Search(grid, f1, f2, count).brackets;
    assert b == Scanned(grid, f1, f2, count, start, 1).brackets;
    forall k | 0 <= k < |b|
      ensures Placed(b[k]) && 1 <= b[k].cell < |grid| && grid[b[k].cell] <= Position(b[k]) <= grid[b[k].cell - 1]
    {
      RegularInCell(grid, b[k]);
    }
    hide Sound, Placed;
    forall j, k | 0 <= j < k < |b|
      ensures b[j].cell < b[k].cell && Position(b[j]) >= Position(b[k])
    {
      GridOrder(grid, b[j].cell, b[k].cell - 1);
    }
  }

  lemma RegularInCell(grid: seq<int>, b: Bracket)
    requires Decreasing(grid) && Sound(grid, b) && Placed(b) && Regular(b)
    ensures grid[b.cell] <= Position(b) <= grid[b.cell - 1]
  {
    hide Position, StepTooLong, Divisor;
    PositionInBracket(grid, b);
  }

  lemma GridOrder(grid: seq<int>, i: nat, j: nat)
    requires Decreasing(grid) && i <= j < |grid|
    ensures grid[i] >= grid[j]
  {
  }

  // ---- What a bracket says about the series

  /** Where the value tracked for the lower end was first computed: at the start, or at the last root. */
  function StartOf(grid: seq<int>, brackets: seq<Bracket>): int
    requires |grid| > 0 && forall k :: 0 <= k < |brackets| ==> Placed(brackets[k])
  {
    if |brackets| == 0 then grid[0]
    else
      assert Placed(brackets[|brackets| - 1]);
      Position(brackets[|brackets| - 1])
  }

  /** The tracked values are those of f at such a point and at the upper end, and differ in sign. */
  ghost predicate TracksFrom(f: seq<int>, b: Bracket, from: int) {
    && |f| == 6 && Fits16(from) && Fits16(b.high) && XorBit28(b.previousCx, b.cx)
    && b.previousCx == Polynomial(f, from) && b.cx == Polynomial(f, b.high)
  }

  /** A halving keeps them, or moves the point to the new lower end. */
  lemma HalvedTracks(f: seq<int>, b: Bracket, from: int)
    requires TracksFrom(f, b, from)
    ensures var h := Halved(f, b);
            (TracksFrom(f, h, from) && h.low == b.low) || TracksFrom(f, h, h.low)
  {
    hide Polynomial, Shr;
  }

  lemma HalvedTwiceTracks(f: seq<int>, b: Bracket, from: int)
    requires |f| == 6 && TracksFrom(f, b, from)
    ensures var h := Halved(f, Halved(f, b));
            TracksFrom(f, h, from) || TracksFrom(f, h, h.low)
  {
    hide Halved, TracksFrom;
    HalvedTracks(f, b, from);
    var once := Halved(f, b);
    if TracksFrom(f, once, once.low) {
      HalvedTracks(f, once, once.low);
    } else {
      HalvedTracks(f, once, from);
    }
  }

  /** Bracket k belongs to f1 for even k and to f2 for odd k. */
  ghost predicate BracketTracks(grid: seq<int>, f1: seq<int>, f2: seq<int>, brackets: seq<Bracket>, k: nat)
    requires |grid| > 0 && (forall j :: 0 <= j < |brackets| ==> Placed(brackets[j])) && k < |brackets|
  {
    var f := if k % 2 == 0 then f1 else f2;
    TracksFrom(f, brackets[k], brackets[k].low) || TracksFrom(f, brackets[k], StartOf(grid, brackets[..k]))
  }

  /** Every bracket found so far, and the value the search goes on with. */
  ghost predicate AllTrack(grid: seq<int>, f1: seq<int>, f2: seq<int>, p: Progress)
    requires |f1| == |f2| == 6 && |grid| > 0
  {
    && AllPlaced(p) && Fits16(StartOf(grid, p.brackets))
    && (forall k :: 0 <= k < |p.brackets| ==> BracketTracks(grid, f1, f2, p.brackets, k))
    && p.previousCx == Polynomial(InUse(f1, f2, |p.brackets|), StartOf(grid, p.brackets))
  }

  lemma StepTracks(grid: seq<int>, f1: seq<int>, f2: seq<int>, p: Progress, i: nat)
    requires |f1| == |f2| == 6 && 1 <= i < |grid| && Fits16(grid[i]) && AllTrack(grid, f1, f2, p)
    ensures AllTrack(grid, f1, f2, Step(grid, f1, f2, p, i))
  {
    hide Polynomial, XorBit28, Halved, Divisor, Interpolated;
    var f, from := InUse(f1, f2, |p.brackets|), StartOf(grid, p.brackets);
    var cx := Polynomial(f, grid[i]);
    var q := Step(grid, f1, f2, p, i);
    if XorBit28(p.previousCx, cx) && |q.brackets| > |p.brackets| {
      HalvedTwiceTracks(f, Bracket(i, grid[i - 1], grid[i], p.previousCx, cx), from);
      assert q.brackets[..|p.brackets|] == p.brackets;
      hide TracksFrom;
      forall k | 0 <= k < |q.brackets|
        ensures BracketTracks(grid, f1, f2, q.brackets, k)
      {
        if k < |p.brackets| {
          assert BracketTracks(grid, f1, f2, p.brackets, k);
          assert q.brackets[..k] == p.brackets[..k];
        }
      }
    }
  }

  lemma {:induction false} ScannedTracks(grid: seq<int>, f1: seq<int>, f2: seq<int>, count: nat, p: Progress, i: nat)
    requires |f1| == |f2| == 6 && 1 <= i <= |grid| && (forall j :: 0 <= j < |grid| ==> Fits16(grid[j]))
    requires AllTrack(grid, f1, f2, p)
    ensures AllTrack(grid, f1, f2, Scanned(grid, f1, f2, count, p, i))
    decreases if i < |grid| then |grid| - i else 0
  {
    hide AllTrack, Step;
    if !(i >= |grid| || |p.brackets| >= count || p.stuck) {
      StepTracks(grid, f1, f2, p, i);
      ScannedTracks(grid, f1, f2, count, Step(grid, f1, f2, p, i), i + 1);
    }
  }

  /** Every root of the search stands for a sign change of its own series, f1 for the first, third and so on, f2 for the
      others: between the upper end of its bracket and the lower one, or the point where the search for it began. */
  lemma RootsAtSignChanges(grid: seq<int>, f1: seq<int>, f2: seq<int>, count: nat, k: nat)
    requires |f1| == |f2| == 6 && |grid| > 0 && forall j :: 0 <= j < |grid| ==> Fits16(grid[j])
    requires var b := Search(grid, f1, f2, count).brackets;
             k < |b| && Narrow(b[k].previousCx) && Narrow(b[k].cx)
    ensures var b := Search(grid, f1, f2, count).brackets;
            && AllPlaced(Search(grid, f1, f2, count))
            && var f := if k % 2 == 0 then f1 else f2;
               SignChange(f, b[k].low, b[k].high) || SignChange(f, StartOf(grid, b[..k]), b[k].high)
  {
    hide Polynomial, Scanned, TracksFrom, SignChange, Position;
    var start := Progress(Polynomial(f1, grid[0]), [], false);
    ScannedTracks(grid, f1, f2, count, start, 1);
    var b := Search(grid, f1, f2, count).brackets;
    assert BracketTracks(grid, f1, f2, b, k);
    var f := if k % 2 == 0 then f1 else f2;
    if TracksFrom(f, b[k], b[k].low) {
      TrackedSignChange(f, b[k], b[k].low);
    } else {
      TrackedSignChange(f, b[k], StartOf(grid, b[..k]));
    }
  }

  lemma TrackedSignChange(f: seq<int>, b: Bracket, from: int)
    requires TracksFrom(f, b, from) && Narrow(b.previousCx) && Narrow(b.cx)
    ensures SignChange(f, from, b.high)
  {
    hide Polynomial, XorBit28, NearSeries, SignChange;
    XorBit28IsSignChange(b.previousCx, b.cx);
    PolynomialNearSeries(f, from);
    PolynomialNearSeries(f, b.high);
    OppositeSigns(f, from, b.previousCx, b.high, b.cx);
  }
}
