/** Rearrangement and switched MA prediction of the LSF codewords, on both sides of the channel. */
module LsfPrediction {
  import opened FixedPoint
  import opened LsfStability

  const MA_MAX_K := 4
  const NB_LSP_COEFF := 10
  const GAP1 := 10
  const GAP2 := 5

  // ---- Rearrangement

  /** Half of the missing distance, with the 16-bit additions and the truncating division of the code. */
  function Delta(left: int, right: int, gap: int): int {
    Truncate(Cast16(Cast16(left - right) + gap), 2)
  }

  function Adjusted(q: seq<int>, i: nat, gap: int): (r: seq<int>)
    requires 1 <= i < |q|
    ensures |r| == |q|
  {
    var delta := Delta(q[i - 1], q[i], gap);
    if delta > 0 then q[i - 1 := Cast16(q[i - 1] - delta)][i := Cast16(q[i] + delta)] else q
  }

  /** The first n - 1 steps of the rearrangement. */
  function Rearranged(q: seq<int>, gap: int, n: nat): (r: seq<int>)
    requires 1 <= n <= |q|
    ensures |r| == |q|
  {
    if n == 1 then q else Adjusted(Rearranged(q, gap, n - 1), n - 1, gap)
  }

  method RearrangeCoefficients(q: array<int>, gap: int)
    requires q.Length >= 1
    modifies q
    ensures q[..] == Rearranged(old(q[..]), gap, q.Length)
  {
    hide Delta, Cast16;
    var i := 1;
    while i < q.Length
      invariant 1 <= i <= q.Length && q[..] == Rearranged(old(q[..]), gap, i)
    {
      assert Rearranged(old(q[..]), gap, i + 1) == Adjusted(q[..], i, gap);
      var delta := Delta(q[i - 1], q[i], gap);
      if delta > 0 {
        q[i - 1] := Cast16(q[i - 1] - delta);
        q[i] := Cast16(q[i] + delta);
      }
      i := i + 1;
    }
  }

  /** What step i moves from element i - 1 to element i. */
  function Moved(q: seq<int>, gap: int, i: nat): (d: int)
    requires i < |q|
    ensures d >= 0
    decreases i, 1
  {
    if i == 0 then 0
    else
      var missing := Missing(q, gap, i);
      if missing > 1 then missing / 2 else 0
  }

  /** What pair i lacks of the gap when step i comes to it. */
  function Missing(q: seq<int>, gap: int, i: nat): int
    requires 1 <= i < |q|
    decreases i, 0
  {
    q[i - 1] + Moved(q, gap, i - 1) - q[i] + gap
  }

  /** Range of codebook sums: the additions of the code never leave 16 bits. */
  ghost predicate InCodebookRange(q: seq<int>) {
    forall i :: 0 <= i < |q| ==> -2000 <= q[i] <= 30000
  }

  lemma {:induction false} MovedBounds(q: seq<int>, gap: int, i: nat)
    requires i < |q| && InCodebookRange(q) && 0 <= gap <= 10
    ensures q[i] + Moved(q, gap, i) <= 30010 && Moved(q, gap, i) <= 16010
  {
    if i > 0 {
      MovedBounds(q, gap, i - 1);
    }
  }

  /** State of the in-place loop after n - 1 steps. */
  lemma {:induction false} RearrangedSoFar(q: seq<int>, gap: int, n: nat)
    requires 1 <= n <= |q| && InCodebookRange(q) && 0 <= gap <= 10
    ensures var r := Rearranged(q, gap, n);
            && r[n - 1] == q[n - 1] + Moved(q, gap, n - 1) && r[n..] == q[n..]
            && forall k :: 0 <= k < n - 1 ==> r[k] == q[k] + Moved(q, gap, k) - Moved(q, gap, k + 1)
  {
    hide Delta, Cast16, Adjusted;
    if n > 1 {
      RearrangedSoFar(q, gap, n - 1);
      var s := Rearranged(q, gap, n - 1);
      assert s[n - 1] == s[n - 1..][0] == q[n - 1];
      MovedBounds(q, gap, n - 2);
      MovedBounds(q, gap, n - 1);
      AdjustedPlain(s, n - 1, gap, Moved(q, gap, n - 1));
      hide Moved;
      var r := Rearranged(q, gap, n);
      assert r[n..] == s[n - 1..][1..];
      assert q[n..] == q[n - 1..][1..];
    }
  }

  /** One step where no addition leaves 16 bits. */
  lemma AdjustedPlain(q: seq<int>, i: nat, gap: int, moved: int)
    requires 1 <= i < |q| && -2000 <= q[i] <= 30000 && -2000 <= q[i - 1] <= 30010 && 0 <= gap <= 10
    requires var missing := q[i - 1] - q[i] + gap;
             moved == if missing > 1 then missing / 2 else 0
    ensures Adjusted(q, i, gap) == q[i - 1 := q[i - 1] - moved][i := q[i] + moved]
  {
  }

  /** What the next step takes from element k. */
  function Taken(q: seq<int>, gap: int, k: nat): (d: int)
    ensures d >= 0
  {
    if k + 1 < |q| then Moved(q, gap, k + 1) else 0
  }

  /** Closed form of the in-place pass: each element gains what its own step brings and loses what the next one
      takes. */
  lemma RearrangedClosedForm(q: seq<int>, gap: int, k: nat)
    requires k < |q| && InCodebookRange(q) && 0 <= gap <= 10
    ensures Rearranged(q, gap, |q|)[k] == q[k] + Moved(q, gap, k) - Taken(q, gap, k)
  {
    hide Rearranged, Moved;
    RearrangedSoFar(q, gap, |q|);
  }

  function Total(q: seq<int>): int {
    if |q| == 0 then 0 else Total(q[..|q| - 1]) + q[|q| - 1]
  }

  lemma {:induction false} TotalSoFar(q: seq<int>, gap: int, r: seq<int>)
    requires 1 <= |q| && |r| <= |q|
    requires forall k :: 0 <= k < |r| ==> r[k] == q[k] + Moved(q, gap, k) - Taken(q, gap, k)
    ensures Total(r) == Total(q[..|r|]) - (if |r| < |q| then Moved(q, gap, |r|) else 0)
  {
    assert Moved(q, gap, 0) == 0;
    hide Moved;
    var n := |r|;
    if n > 0 {
      TotalSoFar(q, gap, r[..n - 1]);
      assert q[..n][..n - 1] == q[..n - 1];
    }
  }

  /** The pass conserves the sum of the coefficients. */
  lemma RearrangementConserves(q: seq<int>, gap: int)
    requires |q| >= 1 && InCodebookRange(q) && 0 <= gap <= 10
    ensures Total(Rearranged(q, gap, |q|)) == Total(q)
  {
    hide Rearranged, Moved;
    var r := Rearranged(q, gap, |q|);
    forall k | 0 <= k < |r|
      ensures r[k] == q[k] + Moved(q, gap, k) - Taken(q, gap, k)
    {
      RearrangedClosedForm(q, gap, k);
    }
    TotalSoFar(q, gap, r);
    assert q[..|q|] == q;
  }

  /** One unit of the distance is lost to the halving. */
  ghost predicate Apart(q: seq<int>, gap: int) {
    forall i :: 1 <= i < |q| ==> q[i] - q[i - 1] >= gap - 1
  }

  lemma {:induction false} NothingMoved(q: seq<int>, gap: int, i: nat)
    requires i < |q| && Apart(q, gap)
    ensures Moved(q, gap, i) == 0
  {
    if i > 0 {
      NothingMoved(q, gap, i - 1);
    }
  }

  /** The pass leaves a vector alone exactly when its elements are apart already. */
  lemma RearrangementFixesApart(q: seq<int>, gap: int)
    requires |q| >= 1 && InCodebookRange(q) && 0 <= gap <= 10
    ensures Rearranged(q, gap, |q|) == q <==> Apart(q, gap)
  {
    var r := Rearranged(q, gap, |q|);
    if Apart(q, gap) {
      forall k | 0 <= k < |q|
        ensures r[k] == q[k]
      {
        RearrangedClosedForm(q, gap, k);
        NothingMoved(q, gap, k);
        if k + 1 < |q| {
          NothingMoved(q, gap, k + 1);
        }
      }
    }
    if r == q {
      NothingMovedBack(q, gap, |q| - 1);
      forall i | 1 <= i < |q|
        ensures q[i] - q[i - 1] >= gap - 1
      {
        NothingMovedBack(q, gap, i);
        NothingMovedBack(q, gap, i - 1);
      }
    }
  }

  lemma {:induction false} NothingMovedBack(q: seq<int>, gap: int, i: nat)
    requires i < |q| && InCodebookRange(q) && 0 <= gap <= 10 && Rearranged(q, gap, |q|) == q
    ensures Moved(q, gap, i) == 0
    decreases |q| - i
  {
    RearrangedClosedForm(q, gap, i);
    if i + 1 < |q| {
      NothingMovedBack(q, gap, i + 1);
    }
  }

  /** How much step i + 1 may take before a pair that lacked this much is no longer apart. */
  function Slack(missing: int): int {
    if missing > 1 then 1 - missing % 2 else 1 - missing
  }

  /** The guard under which pair i ends apart: it is the last one, or the next pair does not lack too much. */
  predicate KeptApart(q: seq<int>, gap: int, i: nat)
    requires 1 <= i < |q|
  {
    i + 1 < |q| ==> Missing(q, gap, i + 1) <= 2 * Slack(Missing(q, gap, i)) + 1
  }

  /** What a later step takes may undo the distance an earlier one made; this is exactly when it does not. */
  lemma RearrangementSeparates(q: seq<int>, gap: int, i: nat)
    requires 1 <= i < |q| && InCodebookRange(q) && 0 <= gap <= 10
    ensures var r := Rearranged(q, gap, |q|);
            r[i] - r[i - 1] >= gap - 1 <==> KeptApart(q, gap, i)
  {
    hide Rearranged;
    RearrangedClosedForm(q, gap, i);
    RearrangedClosedForm(q, gap, i - 1);
  }

  /** The whole vector ends apart exactly when no pair but the last lacks more than the pair before it can spare. */
  lemma RearrangementLeavesApart(q: seq<int>, gap: int)
    requires |q| >= 1 && InCodebookRange(q) && 0 <= gap <= 10
    ensures Apart(Rearranged(q, gap, |q|), gap) <==> forall i :: 1 <= i < |q| ==> KeptApart(q, gap, i)
  {
    hide Rearranged, KeptApart;
    var r := Rearranged(q, gap, |q|);
    forall i | 1 <= i < |q|
      ensures r[i] - r[i - 1] >= gap - 1 <==> KeptApart(q, gap, i)
    {
      RearrangementSeparates(q, gap, i);
    }
    if Apart(r, gap) {
      forall i | 1 <= i < |q|
        ensures KeptApart(q, gap, i)
      {
        assert r[i] - r[i - 1] >= gap - 1;
      }
    }
  }

  /** The last pair always ends apart. */
  lemma LastPairApart(q: seq<int>, gap: int)
    requires |q| >= 2 && InCodebookRange(q) && 0 <= gap <= 10
    ensures var r := Rearranged(q, gap, |q|);
            r[|q| - 1] - r[|q| - 2] >= gap - 1
  {
    RearrangementSeparates(q, gap, |q| - 1);
  }

  lemma FirstMoves(q: seq<int>, gap: int)
    requires |q| >= 3
    ensures var first := q[0] - q[1] + gap;
            Moved(q, gap, 1) == if first > 1 then first / 2 else 0
    ensures var second := q[1] + Moved(q, gap, 1) - q[2] + gap;
            Moved(q, gap, 2) == if second > 1 then second / 2 else 0
  {
    assert Moved(q, gap, 0) == 0;
    assert Missing(q, gap, 1) == q[0] - q[1] + gap;
  }

  function HalfIfMissing(missing: int): int {
    if missing > 1 then missing / 2 else 0
  }

  /** A vector whose elements from the third on are far apart changes only before it. */
  lemma StepsEnd(q: seq<int>, gap: int, first: int, second: int, r: seq<int>)
    requires |q| == |r| == NB_LSP_COEFF && InCodebookRange(q) && 0 <= gap <= 10
    requires first == HalfIfMissing(q[0] - q[1] + gap) && second == HalfIfMissing(q[1] + first - q[2] + gap)
    requires q[3] - q[2] >= second + gap && forall i :: 4 <= i < |q| ==> q[i] - q[i - 1] >= gap
    requires r[0] == q[0] - first && r[1] == q[1] + first - second && r[2] == q[2] + second
    requires forall k :: 3 <= k < |q| ==> r[k] == q[k]
    ensures Rearranged(q, gap, |q|) == r
  {
    hide Rearranged;
    FirstMoves(q, gap);
    assert Moved(q, gap, 0) == 0;
    forall k | 0 <= k < |q|
      ensures Rearranged(q, gap, |q|)[k] == r[k]
    {
      RearrangedClosedForm(q, gap, k);
      if k >= 3 {
        NothingMovedLater(q, gap, k);
      }
      if 2 <= k < |q| - 1 {
        NothingMovedLater(q, gap, k + 1);
      }
    }
  }

  lemma {:induction false} NothingMovedLater(q: seq<int>, gap: int, i: nat)
    requires 3 <= i < |q| && 0 <= gap && q[3] - q[2] >= Moved(q, gap, 2) + gap
    requires forall i :: 4 <= i < |q| ==> q[i] - q[i - 1] >= gap
    ensures Moved(q, gap, i) == 0
  {
    if i > 3 {
      NothingMovedLater(q, gap, i - 1);
    }
  }

  /** The pass does not in general leave the promised distance, not even on a sum of codebook vectors: row 5 of the
      first table with row 30 of the second in its lower half and row 0 in its upper half is out of order after both
      passes. */
  lemma RearrangementMayFail()
    ensures var first := [1786, 2369, 3372, 4521, 6795, 12963, 17674, 18988, 20855, 21640];
            var lower, upper := [1320, 827, -398, -576, 341], [582, -1201, 829, 86, 385];
            var q := [3106, 3196, 2974, 3945, 7136, 13545, 16473, 19817, 20941, 22025];
            && |q| == NB_LSP_COEFF && (forall i :: 0 <= i < |q| ==> q[i] == first[i] + (lower + upper)[i])
            && InCodebookRange(q) && !Apart(Rearranged(q, GAP1, |q|), GAP1) && CodeWord(q)[0] > CodeWord(q)[1]
  {
    hide Rearranged;
    var q := [3106, 3196, 2974, 3945, 7136, 13545, 16473, 19817, 20941, 22025];
    var p := [3106, 3080, 3090, 3945, 7136, 13545, 16473, 19817, 20941, 22025];
    StepsEnd(q, GAP1, 0, 116, p);
    StepsEnd(p, GAP2, 15, 5, [3091, 3090, 3095, 3945, 7136, 13545, 16473, 19817, 20941, 22025]);
    assert p[1] - p[0] < GAP1 - 1;
  }

  function CodeWord(l: seq<int>): (r: seq<int>)
    requires |l| >= 1
    ensures |r| == |l|
  {
    Rearranged(Rearranged(l, GAP1, |l|), GAP2, |l|)
  }

  // ---- Prediction

  /** One of the two predictors of a table: coefficients in Q15, and one minus their sum. */
  datatype Predictor = Predictor(rows: seq<seq<int>>, sum: seq<int>)

  ghost predicate IsMemory(m: seq<seq<int>>) {
    |m| == MA_MAX_K && forall j :: 0 <= j < MA_MAX_K ==> |m[j]| == NB_LSP_COEFF
  }

  ghost predicate IsPredictor(p: Predictor) {
    IsMemory(p.rows) && |p.sum| == NB_LSP_COEFF
  }

  function Coefficient(m: seq<seq<int>>, j: nat, i: nat): int {
    if j < |m| && i < |m[j]| then m[j][i] else 0
  }

  /** Contribution of the n most recent codewords to coefficient i. */
  function History(rows: seq<seq<int>>, memory: seq<seq<int>>, i: nat, n: nat): int {
    if n == 0 then 0 else History(rows, memory, i, n - 1) + Coefficient(rows, n - 1, i) * Coefficient(memory, n - 1, i)
  }

  /** eq 20 for one coefficient. */
  function PredictedAt(p: Predictor, code: seq<int>, memory: seq<seq<int>>, i: nat): int
    requires IsPredictor(p) && |code| == NB_LSP_COEFF && i < NB_LSP_COEFF
  {
    Cast16(Pshr(p.sum[i] * code[i] + History(p.rows, memory, i, MA_MAX_K), 15))
  }

  /** It is the weighted mean of the new codeword and the four before it, newest first, in Q15. */
  lemma PredictedIsMean(p: Predictor, code: seq<int>, memory: seq<seq<int>>, i: nat)
    requires IsPredictor(p) && IsMemory(memory) && |code| == NB_LSP_COEFF && i < NB_LSP_COEFF
    ensures var mean := p.sum[i] * code[i] + p.rows[0][i] * memory[0][i] + p.rows[1][i] * memory[1][i]
                        + p.rows[2][i] * memory[2][i] + p.rows[3][i] * memory[3][i];
            -0x8000 * 0x8000 <= mean < 0x7fff * 0x8000 ==> NearestWord(PredictedAt(p, code, memory, i), mean, 0x8000)
  {
    hide Pshr, NearestWord;
    var mean := p.sum[i] * code[i] + p.rows[0][i] * memory[0][i] + p.rows[1][i] * memory[1][i]
                + p.rows[2][i] * memory[2][i] + p.rows[3][i] * memory[3][i];
    FourTerms(p.rows, memory, i);
    SaturatedIsNearest(mean, 15);
    Powers();
    if -0x8000 * 0x8000 <= mean < 0x7fff * 0x8000 {
      ShiftFits(mean);
    }
  }

  lemma FourTerms(rows: seq<seq<int>>, memory: seq<seq<int>>, i: nat)
    requires IsMemory(rows) && IsMemory(memory) && i < NB_LSP_COEFF
    ensures History(rows, memory, i, MA_MAX_K) == rows[0][i] * memory[0][i] + rows[1][i] * memory[1][i]
                                                  + rows[2][i] * memory[2][i] + rows[3][i] * memory[3][i]
  {
    assert History(rows, memory, i, 1) == History(rows, memory, i, 0) + rows[0][i] * memory[0][i];
    assert History(rows, memory, i, 2) == History(rows, memory, i, 1) + rows[1][i] * memory[1][i];
    assert History(rows, memory, i, 3) == History(rows, memory, i, 2) + rows[2][i] * memory[2][i];
  }

  lemma ShiftFits(mean: int)
    requires -0x8000 * 0x8000 <= mean < 0x7fff * 0x8000
    ensures Saturate16(Pshr(mean, 15)) == Cast16(Pshr(mean, 15))
  {
    Powers();
  }

  function Predicted(p: Predictor, code: seq<int>, memory: seq<seq<int>>): (r: seq<int>)
    requires IsPredictor(p) && |code| == NB_LSP_COEFF
    ensures |r| == NB_LSP_COEFF
  {
    seq(NB_LSP_COEFF, i requires 0 <= i < NB_LSP_COEFF => PredictedAt(p, code, memory, i))
  }

  /** The newest codeword enters, the oldest leaves. */
  function Shifted(code: seq<int>, memory: seq<seq<int>>): (r: seq<seq<int>>)
    requires IsMemory(memory) && |code| == NB_LSP_COEFF
    ensures IsMemory(r)
  {
    [code, memory[0], memory[1], memory[2]]
  }

  ghost predicate IsArray(m: array2<int>) {
    m.Length0 == MA_MAX_K && m.Length1 == NB_LSP_COEFF
  }

  ghost function Row(m: array2<int>, j: nat): (r: seq<int>)
    requires IsArray(m) && j < MA_MAX_K
    reads m
    ensures |r| == NB_LSP_COEFF && forall i :: 0 <= i < NB_LSP_COEFF ==> r[i] == m[j, i]
  {
    seq(NB_LSP_COEFF, i requires 0 <= i < NB_LSP_COEFF reads m => m[j, i])
  }

  ghost function Rows(m: array2<int>): (r: seq<seq<int>>)
    requires IsArray(m)
    reads m
    ensures IsMemory(r)
  {
    [Row(m, 0), Row(m, 1), Row(m, 2), Row(m, 3)]
  }

  /** Prediction of one coefficient, shifting its column on the way, as the decoder does. */
  method PredictColumn(codebookqLSF: array<int>, previousLCodeWord: array2<int>, p: Predictor, i: nat)
    requires codebookqLSF.Length == NB_LSP_COEFF && IsArray(previousLCodeWord) && IsPredictor(p) && i < NB_LSP_COEFF
    modifies codebookqLSF, previousLCodeWord
    ensures codebookqLSF[..]
            == old(codebookqLSF[..])[i := PredictedAt(p, old(codebookqLSF[..]), old(Rows(previousLCodeWord)), i)]
    ensures forall j, k :: 0 <= j < MA_MAX_K && 0 <= k < NB_LSP_COEFF ==>
              previousLCodeWord[j, k] == if k != i then old(previousLCodeWord[j, k])
                                         else if j > 0 then old(previousLCodeWord[j - 1, k]) else old(codebookqLSF[k])
  {
    hide Pshr, Cast16;
    ghost var memory := Rows(previousLCodeWord);
    var acc := p.sum[i] * codebookqLSF[i];
    var j := MA_MAX_K - 1;
    while j >= 0
      invariant -1 <= j < MA_MAX_K
      invariant acc + History(p.rows, memory, i, j + 1) == p.sum[i] * codebookqLSF[i]
                + History(p.rows, memory, i, MA_MAX_K)
      invariant codebookqLSF[..] == old(codebookqLSF[..])
      invariant forall l, k :: 0 <= l < MA_MAX_K && 0 <= k < NB_LSP_COEFF ==>
                  previousLCodeWord[l, k] == if k != i || l <= j then old(previousLCodeWord[l, k])
                                             else if l > 0 then old(previousLCodeWord[l - 1, k])
                                               else old(codebookqLSF[k])
    {
      assert Coefficient(memory, j, i) == old(previousLCodeWord[j, i]);
      acc := acc + p.rows[j][i] * previousLCodeWord[j, i];
      previousLCodeWord[j, i] := if j > 0 then previousLCodeWord[j - 1, i] else codebookqLSF[i];
      j := j - 1;
    }
    codebookqLSF[i] := Cast16(Pshr(acc, 15));
  }

  lemma HistoryLocal(rows: seq<seq<int>>, a: seq<seq<int>>, b: seq<seq<int>>, i: nat, n: nat)
    requires forall j :: 0 <= j < n ==> Coefficient(a, j, i) == Coefficient(b, j, i)
    ensures History(rows, a, i, n) == History(rows, b, i, n)
  {
  }

  /** Decoder: prediction with the memory shifted in place, column by column, then the stability pass. */
  method ComputeqLSF(codebookqLSF: array<int>, previousLCodeWord: array2<int>, p: Predictor)
    requires codebookqLSF.Length == NB_LSP_COEFF && IsArray(previousLCodeWord) && IsPredictor(p)
    modifies codebookqLSF, previousLCodeWord
    ensures var code := CodeWord(old(codebookqLSF[..]));
            && codebookqLSF[..] == Stable(Predicted(p, code, old(Rows(previousLCodeWord))))
            && Rows(previousLCodeWord) == Shifted(code, old(Rows(previousLCodeWord)))
  {
    hide Rearranged, Stable, PredictedAt;
    RearrangeCoefficients(codebookqLSF, GAP1);
    RearrangeCoefficients(codebookqLSF, GAP2);
    ghost var code := codebookqLSF[..];
    ghost var memory := Rows(previousLCodeWord);
    var i := 0;
    while i < NB_LSP_COEFF
      invariant 0 <= i <= NB_LSP_COEFF
      invariant forall k :: 0 <= k < NB_LSP_COEFF ==>
                  codebookqLSF[k] == if k < i then PredictedAt(p, code, memory, k) else code[k]
      invariant forall j, k :: 0 <= j < MA_MAX_K && 0 <= k < NB_LSP_COEFF ==>
                  previousLCodeWord[j, k] == if k >= i then memory[j][k] else if j > 0 then memory[j - 1][k]
                    else code[k]
    {
      PredictedLocal(p, codebookqLSF[..], code, Rows(previousLCodeWord), memory, i);
      PredictColumn(codebookqLSF, previousLCodeWord, p, i);
      i := i + 1;
    }
    assert codebookqLSF[..] == Predicted(p, code, memory);
    assert Row(previousLCodeWord, 0) == code && Row(previousLCodeWord, 1) == memory[0];
    assert Row(previousLCodeWord, 2) == memory[1] && Row(previousLCodeWord, 3) == memory[2];
    Stabilise(codebookqLSF);
  }

  lemma PredictedLocal(p: Predictor, a: seq<int>, b: seq<int>, m: seq<seq<int>>, n: seq<seq<int>>, i: nat)
    requires IsPredictor(p) && |a| == |b| == NB_LSP_COEFF && IsMemory(m) && IsMemory(n) && i < NB_LSP_COEFF
    requires a[i] == b[i] && forall j :: 0 <= j < MA_MAX_K ==> m[j][i] == n[j][i]
    ensures PredictedAt(p, a, m, i) == PredictedAt(p, b, n, i)
  {
    HistoryLocal(p.rows, m, n, i, MA_MAX_K);
  }

  /** memcpy of row j - 1 to row j, or of the codeword to row 0. */
  method CopyRow(m: array2<int>, j: nat, source: seq<int>)
    requires IsArray(m) && j < MA_MAX_K && |source| == NB_LSP_COEFF
    modifies m
    ensures Row(m, j) == source
    ensures forall l, k :: 0 <= l < MA_MAX_K && l != j && 0 <= k < NB_LSP_COEFF ==> m[l, k] == old(m[l, k])
  {
    var k := 0;
    while k < NB_LSP_COEFF
      invariant 0 <= k <= NB_LSP_COEFF
      invariant forall l :: 0 <= l < k ==> m[j, l] == source[l]
      invariant forall l, i :: 0 <= l < MA_MAX_K && l != j && 0 <= i < NB_LSP_COEFF ==> m[l, i] == old(m[l, i])
    {
      m[j, k] := source[k];
      k := k + 1;
    }
  }

  method ReadRow(m: array2<int>, j: nat) returns (r: seq<int>)
    requires IsArray(m) && j < MA_MAX_K
    ensures r == Row(m, j)
  {
    r := [];
    var k := 0;
    while k < NB_LSP_COEFF
      invariant 0 <= k <= NB_LSP_COEFF && |r| == k && forall l :: 0 <= l < k ==> r[l] == m[j, l]
    {
      r := r + [m[j, k]];
      k := k + 1;
    }
  }

  /** Encoder: reconstruction from the chosen indices into a separate buffer, whole rows of the memory copied
      afterwards. */
  method Reconstruct(quantizerOutput: array<int>, previousqLSF: array2<int>, p: Predictor) returns (qLSF: array<int>)
    requires quantizerOutput.Length == NB_LSP_COEFF && IsArray(previousqLSF) && IsPredictor(p)
    modifies quantizerOutput, previousqLSF
    ensures fresh(qLSF)
    ensures var code := CodeWord(old(quantizerOutput[..]));
            && qLSF[..] == Stable(Predicted(p, code, old(Rows(previousqLSF))))
            && Rows(previousqLSF) == Shifted(code, old(Rows(previousqLSF)))
  {
    hide Rearranged, Stable, Pshr, Cast16;
    RearrangeCoefficients(quantizerOutput, GAP1);
    RearrangeCoefficients(quantizerOutput, GAP2);
    ghost var code := quantizerOutput[..];
    ghost var memory := Rows(previousqLSF);
    qLSF := new int[NB_LSP_COEFF];
    var i := 0;
    while i < NB_LSP_COEFF
      invariant 0 <= i <= NB_LSP_COEFF && fresh(qLSF)
      invariant quantizerOutput[..] == code && Rows(previousqLSF) == memory
      invariant forall k :: 0 <= k < i ==> qLSF[k] == PredictedAt(p, code, memory, k)
    {
      var acc := p.sum[i] * quantizerOutput[i];
      var j := 0;
      while j < MA_MAX_K
        invariant 0 <= j <= MA_MAX_K && fresh(qLSF)
        invariant quantizerOutput[..] == code && Rows(previousqLSF) == memory
        invariant acc == p.sum[i] * code[i] + History(p.rows, memory, i, j)
        invariant forall k :: 0 <= k < i ==> qLSF[k] == PredictedAt(p, code, memory, k)
      {
        assert Coefficient(memory, j, i) == previousqLSF[j, i];
        acc := acc + p.rows[j][i] * previousqLSF[j, i];
        j := j + 1;
      }
      qLSF[i] := Cast16(Pshr(acc, 15));
      i := i + 1;
    }
    assert qLSF[..] == Predicted(p, code, memory);
    ShiftRows(previousqLSF, quantizerOutput[..]);
    Stabilise(qLSF);
  }

  method ShiftRows(previousqLSF: array2<int>, code: seq<int>)
    requires IsArray(previousqLSF) && |code| == NB_LSP_COEFF
    modifies previousqLSF
    ensures Rows(previousqLSF) == Shifted(code, old(Rows(previousqLSF)))
  {
    var i := MA_MAX_K - 1;
    while i > 0
      invariant 0 <= i < MA_MAX_K
      invariant forall l, k :: 0 <= l < MA_MAX_K && 0 <= k < NB_LSP_COEFF ==>
                  previousqLSF[l, k] == if l <= i then old(previousqLSF[l, k]) else old(previousqLSF[l - 1, k])
    {
      var row := ReadRow(previousqLSF, i - 1);
      CopyRow(previousqLSF, i, row);
      forall k | 0 <= k < NB_LSP_COEFF
        ensures previousqLSF[i, k] == row[k]
      {
        assert Row(previousqLSF, i)[k] == row[k];
      }
      i := i - 1;
    }
    CopyRow(previousqLSF, 0, code);
    assert Row(previousqLSF, 1) == old(Row(previousqLSF, 0)) && Row(previousqLSF, 2) == old(Row(previousqLSF, 1));
    assert Row(previousqLSF, 3) == old(Row(previousqLSF, 2));
  }
}
