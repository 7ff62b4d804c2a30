/** The root search of LP2LSPConversion.c in exact arithmetic, on any decreasing grid. */
module LspRootSearch {
  import opened Chebyshev

  predicate Negative(v: real) {
    v < 0.0
  }

  ghost predicate Decreasing(grid: seq<real>) {
    forall i, j :: 0 <= i < j < |grid| ==> grid[i] > grid[j]
  }

  /** The polynomial in use after k roots: f1 and f2 alternate. */
  function Polynomial(f1: seq<real>, f2: seq<real>, k: int): seq<real> {
    if k % 2 == 0 then f1 else f2
  }

  /** Two halvings of an interval at whose ends the tracked values have opposite signs. */
  method BisectTwice(f: seq<real>, previousCx: real, cx: real, xLow: real, xHigh: real)
    returns (before: real, after: real, low: real, high: real)
    requires |f| >= 3 && xHigh < xLow && Negative(previousCx) != Negative(cx)
    ensures Negative(before) != Negative(after)
    ensures xHigh <= high < low <= xLow && low - high == (xLow - xHigh) / 4.0
    ensures Negative(before) == Negative(previousCx)
    ensures (low == xLow && before == previousCx) || before == Series(f, low)
    ensures (high == xHigh && after == cx) || after == Series(f, high)
  {
    before, after, low, high := previousCx, cx, xLow, xHigh;
    var j := 0;
    while j < 2
      invariant 0 <= j <= 2
      invariant Negative(before) != Negative(after) && Negative(before) == Negative(previousCx)
      invariant xHigh <= high < low <= xLow
      invariant low - high == (xLow - xHigh) / (if j == 0 then 1.0 else if j == 1 then 2.0 else 4.0)
      invariant (low == xLow && before == previousCx) || before == Series(f, low)
      invariant (high == xHigh && after == cx) || after == Series(f, high)
    {
      var xMean := (low + high) / 2.0;
      var middleCx := ChebyshevPolynomial(xMean, f);
      if Negative(before) != Negative(middleCx) {
        high, after := xMean, middleCx;
      } else {
        low, before := xMean, middleCx;
      }
      j := j + 1;
    }
  }

  /** Linear interpolation between two points whose values have opposite signs: no division by zero, no overshoot. */
  function Interpolate(low: real, high: real, before: real, after: real): (x: real)
    requires high < low && Negative(before) != Negative(after)
    ensures high <= x <= low
    ensures before == 0.0 ==> x == low
    ensures after == 0.0 ==> x == high
  {
    RatioInside(before, after);
    var ratio := before / (after - before);
    ScaleInside(low - high, ratio);
    low - (high - low) * ratio
  }

  lemma RatioInside(before: real, after: real)
    requires Negative(before) != Negative(after)
    ensures after - before != 0.0
    ensures -1.0 <= before / (after - before) <= 0.0
    ensures before == 0.0 ==> before / (after - before) == 0.0
    ensures after == 0.0 ==> before / (after - before) == -1.0
  {
    var d := after - before;
    var q := before / d;
    assert q * d == before;
    if d > 0.0 {
      QuotientInside(q, d, before);
    } else {
      assert -d > 0.0 && q * -d == -before by { NegatedProduct(q, d); }
      QuotientInside(q, -d, -before);
    }
  }

  lemma NegatedProduct(q: real, d: real)
    ensures q * -d == -(q * d)
  {
  }

  lemma QuotientInside(q: real, d: real, b: real)
    requires d > 0.0 && q * d == b && -d <= b <= 0.0
    ensures -1.0 <= q <= 0.0
    ensures b == -d ==> q == -1.0
    ensures b == 0.0 ==> q == 0.0
  {
    assert (q + 1.0) * d == b + d;
  }

  lemma ScaleInside(w: real, ratio: real)
    requires w > 0.0 && -1.0 <= ratio <= 0.0
    ensures -w <= w * ratio <= 0.0
    ensures -w * ratio == -(w * ratio)
  {
  }

  /** c is the first grid index after from where f has another sign than at start. */
  ghost predicate FirstChange(f: seq<real>, start: real, grid: seq<real>, from: int, c: int)
    requires |f| > 0
  {
    && 0 <= from < c < |grid|
    && Negative(Series(f, grid[c])) != Negative(Series(f, start))
    && NoChange(f, start, grid, from, c)
  }

  ghost predicate NoChange(f: seq<real>, start: real, grid: seq<real>, from: int, to: int)
    requires |f| > 0
  {
    forall i :: 0 <= i < |grid| && from < i < to ==> Negative(Series(f, grid[i])) == Negative(Series(f, start))
  }

  /** Where the search for root k starts: at the first grid point, later at the previous root. */
  function Start(grid: seq<real>, lsp: seq<real>, k: int): real
    requires |grid| > 0 && 0 <= k <= |lsp|
  {
    if k == 0 then grid[0] else lsp[k - 1]
  }

  function Cell(cells: seq<int>, k: int): int
    requires -1 <= k < |cells|
  {
    if k < 0 then 0 else cells[k]
  }

  /** Root k lies in the first cell at whose end its polynomial has changed sign. */
  ghost predicate LocatedAt(f1: seq<real>, f2: seq<real>, grid: seq<real>, lsp: seq<real>, cells: seq<int>, k: int)
    requires |f1| > 0 && |f2| > 0 && |grid| > 0 && 0 <= k < |lsp| == |cells|
  {
    && FirstChange(Polynomial(f1, f2, k), Start(grid, lsp, k), grid, Cell(cells, k - 1), cells[k])
    && grid[cells[k]] <= lsp[k] <= grid[cells[k] - 1]
  }

  ghost predicate Located(f1: seq<real>, f2: seq<real>, grid: seq<real>, lsp: seq<real>, cells: seq<int>)
    requires |f1| > 0 && |f2| > 0 && |grid| > 0
  {
    && |lsp| == |cells|
    && forall k :: 0 <= k < |lsp| ==> LocatedAt(f1, f2, grid, lsp, cells, k)
  }

  /** Located roots lie in different cells, so they come out in decreasing order. */
  lemma RootsOrdered(f1: seq<real>, f2: seq<real>, grid: seq<real>, lsp: seq<real>, cells: seq<int>, k: int)
    requires |f1| > 0 && |f2| > 0 && |grid| > 0 && Decreasing(grid)
    requires Located(f1, f2, grid, lsp, cells) && 0 < k < |lsp|
    ensures 0 < cells[k - 1] < cells[k] < |grid| && lsp[k - 1] >= lsp[k]
  {
    hide NoChange;
    assert LocatedAt(f1, f2, grid, lsp, cells, k - 1) && LocatedAt(f1, f2, grid, lsp, cells, k);
  }

  lemma Extend(f1: seq<real>, f2: seq<real>, grid: seq<real>, lsp: seq<real>, cells: seq<int>, root: real, i: int)
    requires |f1| > 0 && |f2| > 0 && |grid| > 0 && 0 < i < |grid|
    requires Located(f1, f2, grid, lsp, cells)
    requires FirstChange(Polynomial(f1, f2, |lsp|), Start(grid, lsp, |lsp|), grid, Cell(cells, |lsp| - 1), i)
    requires grid[i] <= root <= grid[i - 1]
    ensures Located(f1, f2, grid, lsp + [root], cells + [i])
  {
    var n := |lsp|;
    forall k | 0 <= k < n + 1
      ensures LocatedAt(f1, f2, grid, lsp + [root], cells + [i], k)
    {
      assert Start(grid, lsp + [root], k) == Start(grid, lsp, k);
      assert Cell(cells + [i], k - 1) == Cell(cells, k - 1);
      if k < n {
        KeepsLocated(f1, f2, grid, lsp, cells, root, i, k);
      }
    }
  }

  lemma KeepsLocated(f1: seq<real>, f2: seq<real>, grid: seq<real>, lsp: seq<real>, cells: seq<int>, root: real, i: int,
                     k: int)
    requires |f1| > 0 && |f2| > 0 && |grid| > 0 && 0 <= k < |lsp| == |cells|
    requires LocatedAt(f1, f2, grid, lsp, cells, k)
    ensures LocatedAt(f1, f2, grid, lsp + [root], cells + [i], k)
  {
    hide NoChange;
    assert Start(grid, lsp + [root], k) == Start(grid, lsp, k);
    assert Cell(cells + [i], k - 1) == Cell(cells, k - 1);
  }

  /** The search: on success count roots in decreasing order, on failure the place where no sign change is left. */
  method FindRoots(f1: seq<real>, f2: seq<real>, grid: seq<real>, count: nat)
    returns (found: bool, lsp: seq<real>, cells: seq<int>)
    requires |f1| >= 3 && |f2| >= 3 && |grid| > 0 && Decreasing(grid) && count > 0
    ensures Located(f1, f2, grid, lsp, cells)
    ensures found <==> |lsp| == count
    ensures forall k :: 0 < k < |lsp| ==> lsp[k - 1] >= lsp[k]
    ensures !found ==> |lsp| < count
                       && NoChange(Polynomial(f1, f2, |lsp|), Start(grid, lsp, |lsp|), grid, Cell(cells, |lsp| - 1),
                                   |grid|)
  {
    hide LocatedAt, Series, Interpolate;
    lsp, cells := [], [];
    var polynomial := f1;
    var previousCx := ChebyshevPolynomial(grid[0], polynomial);
    var i := 1;
    while i < |grid| && |lsp| < count
      invariant 1 <= i <= |grid| && |lsp| <= count
      invariant polynomial == Polynomial(f1, f2, |lsp|)
      invariant Located(f1, f2, grid, lsp, cells)
      invariant 0 <= Cell(cells, |lsp| - 1) < i
      invariant previousCx == Series(polynomial, Start(grid, lsp, |lsp|))
      invariant NoChange(polynomial, Start(grid, lsp, |lsp|), grid, Cell(cells, |lsp| - 1), i)
    {
      var cx := ChebyshevPolynomial(grid[i], polynomial);
      if Negative(previousCx) != Negative(cx) {
        var before, after, low, high := BisectTwice(polynomial, previousCx, cx, grid[i - 1], grid[i]);
        var root := Interpolate(low, high, before, after);
        Extend(f1, f2, grid, lsp, cells, root, i);
        polynomial := Polynomial(f1, f2, |lsp| + 1);
        previousCx := ChebyshevPolynomial(root, polynomial);
        lsp, cells := lsp + [root], cells + [i];
      }
      i := i + 1;
    }
    found := |lsp| == count;
    forall k | 0 < k < |lsp|
      ensures lsp[k - 1] >= lsp[k]
    {
      RootsOrdered(f1, f2, grid, lsp, cells, k);
    }
  }
}
