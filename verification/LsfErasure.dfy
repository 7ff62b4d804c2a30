/** LSF decoding with its erased-frame branch (decodeLSP.c), and the predictor tables it uses. */
module LsfErasure {
  import opened FixedPoint
  import opened LsfStability
  import opened LsfPrediction

  /** The two first-stage and second-stage codebooks. */
  datatype Codebooks = Codebooks(l1: (int, int) -> int, l2l3: (int, int) -> int)

  /** Sum of the stage vectors: l2 serves the lower half, l3 the upper. */
  function CodebookSum(books: Codebooks, l1: int, l2: int, l3: int): (r: seq<int>)
    ensures |r| == NB_LSP_COEFF
  {
    seq(NB_LSP_COEFF, i => Cast16(books.l1(l1, i) + books.l2l3(if i < 5 then l2 else l3, i)))
  }

  function MAPredictorSum(l0: int): (r: seq<int>)
    ensures |r| == NB_LSP_COEFF
  {
    if l0 == 0 then [7798, 8447, 8205, 8293, 8126, 8477, 8447, 8703, 9043, 8604]
    else [14585, 18333, 19772, 17344, 16426, 16459, 15155, 15220, 16043, 15708]
  }

  function InvMAPredictorSum(l0: int): (r: seq<int>)
    ensures |r| == NB_LSP_COEFF
  {
    if l0 == 0 then [17210, 15888, 16357, 16183, 16516, 15833, 15888, 15421, 14840, 15597]
    else [9202, 7320, 6788, 7738, 8170, 8154, 8856, 8818, 8366, 8544]
  }

  function MAPredictor(l0: int): (r: seq<seq<int>>)
    ensures IsMemory(r)
  {
    if l0 == 0 then
      [[8421, 9109, 9175, 8965, 9034, 9057, 8765, 8775, 9106, 8673],
       [7018, 7189, 7638, 7307, 7444, 7379, 7038, 6956, 6930, 6868],
       [5472, 4990, 5134, 5177, 5246, 5141, 5206, 5095, 4830, 5147],
       [4056, 3031, 2614, 3024, 2916, 2713, 3309, 3237, 2857, 3473]]
    else
      [[7733, 7880, 8188, 8175, 8247, 8490, 8637, 8601, 8359, 7569],
       [4210, 3031, 2552, 3473, 3876, 3853, 4184, 4154, 3909, 3968],
       [3214, 1930, 1313, 2143, 2493, 2385, 2755, 2706, 2542, 2919],
       [3024, 1592, 940, 1631, 1723, 1579, 2034, 2084, 1913, 2601]]
  }

  function Regular(l0: int): (p: Predictor)
    ensures IsPredictor(p)
  {
    Predictor(MAPredictor(l0), MAPredictorSum(l0))
  }

  /** Before rounding, the codeword that would predict the old qLSF again. */
  function BackComputed(l0: int, q: int, memory: seq<seq<int>>, i: nat): int
    requires i < NB_LSP_COEFF
  {
    Pshr(SplitMultiply(InvMAPredictorSum(l0)[i], 0x8000 * q - History(MAPredictor(l0), memory, i, MA_MAX_K), 12), 15)
  }

  function BackCode(l0: int, q: seq<int>, memory: seq<seq<int>>): (r: seq<int>)
    requires |q| == NB_LSP_COEFF
    ensures |r| == NB_LSP_COEFF
  {
    seq(NB_LSP_COEFF, i requires 0 <= i < NB_LSP_COEFF => Cast16(BackComputed(l0, q[i], memory, i)))
  }

  // ---- The decoder

  datatype LsfState = LsfState(memory: seq<seq<int>>, lastqLSF: seq<int>, lastValidL0: int)

  ghost predicate IsState(s: LsfState) {
    IsMemory(s.memory) && |s.lastqLSF| == NB_LSP_COEFF
  }

  function Received(s: LsfState, l0: int, l: seq<int>): (r: LsfState)
    requires IsState(s) && |l| == NB_LSP_COEFF
    ensures IsState(r)
  {
    LsfState(Shifted(CodeWord(l), s.memory), Stable(Predicted(Regular(l0), CodeWord(l), s.memory)), l0)
  }

  function Erased(s: LsfState): (r: LsfState)
    requires IsState(s)
    ensures IsState(r)
  {
    s.(memory := Shifted(BackCode(s.lastValidL0, s.lastqLSF, s.memory), s.memory))
  }

  class LspDecoder {
    const previousLCodeWord: array2<int>
    const lastqLSF: array<int>
    var lastValidL0: int

    ghost predicate Valid()
      reads this
    {
      IsArray(previousLCodeWord) && lastqLSF.Length == NB_LSP_COEFF
    }

    ghost function State(): (s: LsfState)
      requires Valid()
      reads this, previousLCodeWord, lastqLSF
      ensures IsState(s)
    {
      LsfState(Rows(previousLCodeWord), lastqLSF[..], lastValidL0)
    }

    /** InitDecodeLSP: pi/11 steps everywhere. */
    constructor ()
      ensures Valid() && fresh(previousLCodeWord) && fresh(lastqLSF)
      ensures State() == LsfState([InitialCodeWord(), InitialCodeWord(), InitialCodeWord(), InitialCodeWord()],
                                  InitialCodeWord(), 0)
    {
      var init := InitialCodeWord();
      previousLCodeWord := new int[MA_MAX_K, NB_LSP_COEFF]((j, i) => if 0 <= i < NB_LSP_COEFF then init[i] else 0);
      lastqLSF := new int[NB_LSP_COEFF](i => if 0 <= i < NB_LSP_COEFF then init[i] else 0);
      lastValidL0 := 0;
      new;
      assert forall j :: 0 <= j < MA_MAX_K ==> Row(previousLCodeWord, j) == init;
      assert lastqLSF[..] == init;
    }

    method DecodeLSP(books: Codebooks, l: seq<int>, frameErased: bool, cos: int -> int) returns (qLSP: seq<int>)
      requires Valid() && |l| == 4
      modifies this, previousLCodeWord, lastqLSF
      ensures Valid()
      ensures State() == if frameErased then Erased(old(State()))
              else Received(old(State()), l[0], CodebookSum(books, l[1], l[2], l[3]))
      ensures |qLSP| == NB_LSP_COEFF && forall i :: 0 <= i < NB_LSP_COEFF ==> qLSP[i] == cos(lastqLSF[i])
    {
      hide CodeWord, Stable, Predicted, MAPredictor, MAPredictorSum, InvMAPredictorSum;
      if !frameErased {
        var sum := CodebookSum(books, l[1], l[2], l[3]);
        var currentqLSF := new int[NB_LSP_COEFF](i => if 0 <= i < NB_LSP_COEFF then sum[i] else 0);
        assert currentqLSF[..] == sum;
        ComputeqLSF(currentqLSF, previousLCodeWord, Regular(l[0]));
        var i := 0;
        while i < NB_LSP_COEFF
          invariant 0 <= i <= NB_LSP_COEFF
          invariant lastqLSF[..i] == currentqLSF[..i]
          invariant lastqLSF != currentqLSF
                    && Rows(previousLCodeWord) == Shifted(CodeWord(sum), old(Rows(previousLCodeWord)))
          invariant currentqLSF[..] == Stable(Predicted(Regular(l[0]), CodeWord(sum), old(Rows(previousLCodeWord))))
        {
          lastqLSF[i] := currentqLSF[i];
          i := i + 1;
        }
        assert lastqLSF[..] == lastqLSF[..i] == currentqLSF[..i] == currentqLSF[..];
        lastValidL0 := l[0];
      } else {
        ConcealCodeWords();
      }
      qLSP := seq(NB_LSP_COEFF, i requires 0 <= i < NB_LSP_COEFF reads this, lastqLSF => cos(lastqLSF[i]));
    }

    /** Computes the codewords back from the last good qLSF, shifting the memory column by column. */
    method ConcealCodeWords()
      requires Valid()
      modifies previousLCodeWord
      ensures Rows(previousLCodeWord)
              == Shifted(BackCode(lastValidL0, lastqLSF[..], old(Rows(previousLCodeWord))),
                         old(Rows(previousLCodeWord)))
    {
      hide MAPredictor, InvMAPredictorSum, BackComputed;
      ghost var memory := Rows(previousLCodeWord);
      ghost var code := BackCode(lastValidL0, lastqLSF[..], memory);
      var i := 0;
      while i < NB_LSP_COEFF
        invariant 0 <= i <= NB_LSP_COEFF
        invariant forall j, k :: 0 <= j < MA_MAX_K && 0 <= k < NB_LSP_COEFF ==>
                    previousLCodeWord[j, k] == if k >= i then memory[j][k] else if j > 0 then memory[j - 1][k]
                      else code[k]
      {
        BackLocal(lastValidL0, lastqLSF[i], Rows(previousLCodeWord), memory, i);
        ConcealColumn(i);
        i := i + 1;
      }
      assert Row(previousLCodeWord, 0) == code && Row(previousLCodeWord, 1) == memory[0];
      assert Row(previousLCodeWord, 2) == memory[1] && Row(previousLCodeWord, 3) == memory[2];
    }

    method ConcealColumn(i: nat)
      requires Valid() && i < NB_LSP_COEFF
      modifies previousLCodeWord
      ensures forall j, k :: 0 <= j < MA_MAX_K && 0 <= k < NB_LSP_COEFF ==>
                previousLCodeWord[j, k] == if k != i then old(previousLCodeWord[j, k])
                                           else if j > 0 then old(previousLCodeWord[j - 1, k])
                                           else Cast16(BackComputed(lastValidL0, lastqLSF[i],
                                                                    old(Rows(previousLCodeWord)), i))
    {
      hide Pshr, Cast16, SplitMultiply, MAPredictor, InvMAPredictorSum;
      ghost var memory := Rows(previousLCodeWord);
      var acc := 0x8000 * lastqLSF[i];
      var j := 0;
      while j < MA_MAX_K
        invariant 0 <= j <= MA_MAX_K
        invariant acc == 0x8000 * lastqLSF[i] - History(MAPredictor(lastValidL0), memory, i, j)
      {
        assert Coefficient(memory, j, i) == previousLCodeWord[j, i];
        acc := acc - MAPredictor(lastValidL0)[j][i] * previousLCodeWord[j, i];
        j := j + 1;
      }
      acc := SplitMultiply(InvMAPredictorSum(lastValidL0)[i], acc, 12);
      j := MA_MAX_K - 1;
      while j >= 0
        invariant -1 <= j < MA_MAX_K
        invariant forall l, k :: 0 <= l < MA_MAX_K && 0 <= k < NB_LSP_COEFF ==>
                    previousLCodeWord[l, k] == if k != i || l <= j then old(previousLCodeWord[l, k])
                                               else if l > 0 then old(previousLCodeWord[l - 1, k])
                                                 else Cast16(Pshr(acc, 15))
      {
        previousLCodeWord[j, i] := if j > 0 then previousLCodeWord[j - 1, i] else Cast16(Pshr(acc, 15));
        j := j - 1;
      }
    }
  }

  function InitialCodeWord(): (r: seq<int>)
    ensures |r| == NB_LSP_COEFF
  {
    [2339, 4679, 7018, 9358, 11698, 14037, 16377, 18717, 21056, 23396]
  }

  lemma BackLocal(l0: int, q: int, m: seq<seq<int>>, n: seq<seq<int>>, i: nat)
    requires IsMemory(m) && IsMemory(n) && i < NB_LSP_COEFF && forall j :: 0 <= j < MA_MAX_K ==> m[j][i] == n[j][i]
    ensures BackComputed(l0, q, m, i) == BackComputed(l0, q, n, i)
  {
    HistoryLocal(MAPredictor(l0), m, n, i, MA_MAX_K);
  }

  // ---- The erased branch inverts the prediction

  /** The reciprocals of the table err by less than three units of 2 to the -27. */
  lemma TablesAreReciprocal(l0: int, i: nat)
    requires 0 <= l0 <= 1 && i < NB_LSP_COEFF
    ensures var sum := MAPredictorSum(l0)[i];
            var inverse := InvMAPredictorSum(l0)[i];
            0 < sum <= 20000 && 0 < inverse && 0 <= 0x8000000 - sum * inverse <= 3 * inverse
  {
  }

  lemma SandwichedProduct(sum: int, x: int, lo: int, hi: int)
    requires 0 < sum && lo <= x <= hi
    ensures sum * lo <= sum * x <= sum * hi
  {
  }

  /** Error of multiplying the reciprocal back: a the accumulator, t its scaled value, l the rounded codeword. */
  lemma ReciprocalError(sum: int, inverse: int, a: int, t: int, l: int)
    requires 0 < sum <= 20000 && 0 < inverse && 0 <= 0x8000000 - sum * inverse <= 3 * inverse
    requires 4096 * t <= inverse * a < 4096 * t + 4096
    requires 0x8000 * l <= t + 0x4000 < 0x8000 * l + 0x8000
    ensures -3 * (Abs(t) + 1) - 0x4001 * sum <= 0x8000 * (sum * l - a) <= 3 * (Abs(t) + 1) + 0x4001 * sum
  {
    var d := 0x8000000 - sum * inverse;
    hide Abs;
    SandwichedProduct(sum, inverse * a, 4096 * t, 4096 * t + 4096);
    DefectSplits(sum, inverse, a);
    DefectBound(d, inverse, a, t);
    SandwichedProduct(sum, 0x8000 * l, t - 0x4000, t + 0x4000);
    Regroup3(sum, t, l);
    CombineErrors(sum, a, Abs(t) + 1, sum * t, sum * (inverse * a), d * a, sum * l);
  }

  lemma DefectSplits(sum: int, inverse: int, a: int)
    ensures sum * (inverse * a) == 0x8000000 * a - (0x8000000 - sum * inverse) * a
  {
    assert sum * (inverse * a) == sum * inverse * a;
  }

  /** The three errors together: of the reciprocal, of its shift, and of the rounding. */
  lemma CombineErrors(sum: int, a: int, m: int, st: int, sia: int, da: int, sl: int)
    requires 4096 * st <= sia <= 4096 * st + 4096 * sum && sia == 0x8000000 * a - da
    requires -3 * 4096 * m <= da <= 3 * 4096 * m && st - 0x4000 * sum <= 0x8000 * sl <= st + 0x4000 * sum
    ensures -3 * m - 0x4001 * sum <= 0x8000 * (sl - a) <= 3 * m + 0x4001 * sum
  {
  }

  lemma Regroup3(sum: int, t: int, l: int)
    ensures sum * (4096 * t) == 4096 * (sum * t) && sum * (4096 * t + 4096) == 4096 * (sum * t) + 4096 * sum
    ensures sum * (0x8000 * l) == 0x8000 * (sum * l)
    ensures sum * (t - 0x4000) == sum * t - 0x4000 * sum && sum * (t + 0x4000) == sum * t + 0x4000 * sum
  {
  }

  lemma DefectBound(d: int, inverse: int, a: int, t: int)
    requires 0 <= d <= 3 * inverse && 4096 * t <= inverse * a < 4096 * t + 4096
    ensures -3 * 4096 * (Abs(t) + 1) <= d * a <= 3 * 4096 * (Abs(t) + 1)
  {
    if a >= 0 {
      MultiplyMonotone(d, 3 * inverse, a);
      assert 0 <= d * a <= 3 * inverse * a == 3 * (inverse * a);
    } else {
      MultiplyMonotone(d, 3 * inverse, -a);
      assert 3 * inverse * -a == -(3 * (inverse * a)) && d * -a == -(d * a);
      assert d * -a >= 0;
    }
  }

  /** The scaled accumulator of the erased branch, 32 bits wide in the code. */
  function Scaled(l0: int, q: int, memory: seq<seq<int>>, i: nat): int
    requires i < NB_LSP_COEFF
  {
    SplitMultiply(InvMAPredictorSum(l0)[i], 0x8000 * q - History(MAPredictor(l0), memory, i, MA_MAX_K), 12)
  }

  /** As long as the accumulator is in its 32 bits, the codeword entered by an erased frame rebuilds the last qLSF,
      up to three units of 2 to the -13, exactly when it survives its 16-bit store. */
  lemma ErasureInvertsPrediction(l0: int, q: seq<int>, memory: seq<seq<int>>, i: nat)
    requires 0 <= l0 <= 1 && IsMemory(memory) && |q| == NB_LSP_COEFF && i < NB_LSP_COEFF
    requires -0x7ffd <= q[i] <= 0x7ffc && Fits32(Scaled(l0, q[i], memory, i))
    ensures -3 <= PredictedAt(Regular(l0), BackCode(l0, q, memory), memory, i) - q[i] <= 3
            <==> Fits16(BackComputed(l0, q[i], memory, i))
  {
    TablesAreReciprocal(l0, i);
    SumRange(l0, i);
    var h := History(MAPredictor(l0), memory, i, MA_MAX_K);
    ErasureAtCoefficient(MAPredictorSum(l0)[i], InvMAPredictorSum(l0)[i], q[i], h);
    hide MAPredictor, MAPredictorSum, InvMAPredictorSum, History, Pshr, Cast16, SplitMultiply;
    assert BackCode(l0, q, memory)[i] == Cast16(BackComputed(l0, q[i], memory, i));
  }

  lemma ErasureAtCoefficient(sum: int, inverse: int, q: int, h: int)
    requires 7000 < sum < 20000 && 0 < inverse && 0 <= 0x8000000 - sum * inverse <= 3 * inverse
    requires -0x7ffd <= q <= 0x7ffc && Fits32(SplitMultiply(inverse, 0x8000 * q - h, 12))
    ensures var l := Pshr(SplitMultiply(inverse, 0x8000 * q - h, 12), 15);
            -3 <= Cast16(Pshr(sum * Cast16(l) + h, 15)) - q <= 3 <==> Fits16(l)
  {
    var a := 0x8000 * q - h;
    var t := SplitMultiply(inverse, a, 12);
    SplitMultiplyIsFloor(inverse, a, 12);
    Powers();
    ShiftBounds(inverse * a, 12);
    var l := Pshr(t, 15);
    ShiftBounds(t + 0x4000, 15);
    ReciprocalError(sum, inverse, a, t, l);
    StoredPredicts(q, sum, a, t, l);
    RoundedNear(q, sum * Cast16(l) - a);
  }

  /** A codeword that does not survive its store is off by 2 to the 16, far beyond the other errors. */
  lemma StoredPredicts(q: int, sum: int, a: int, t: int, l: int)
    requires 7000 < sum < 20000 && Fits32(t) && 0x8000 * l <= t + 0x4000 < 0x8000 * l + 0x8000 && -0x7ffd <= q <= 0x7ffc
    requires -3 * (Abs(t) + 1) - 0x4001 * sum <= 0x8000 * (sum * l - a) <= 3 * (Abs(t) + 1) + 0x4001 * sum
    ensures -3 <= Cast16(q + (sum * Cast16(l) - a + 0x4000) / 0x8000) - q <= 3 <==> Fits16(l)
  {
    var x := sum * l - a;
    if Fits16(l) {
      assert -0x1c000 <= x < 0x1c000;
    } else {
      var k := if l > 0 then -1 else 1;
      assert Cast16(l) == l + 0x10000 * k;
      assert sum * (l + 0x10000 * k) == sum * l + 0x10000 * sum * k;
      assert -0x38000 <= x < 0x38000;
      assert (x + 0x10000 * sum * k + 0x4000) / 0x8000 == 2 * sum * k + (x + 0x4000) / 0x8000;
    }
  }

  lemma SumRange(l0: int, i: nat)
    requires 0 <= l0 <= 1 && i < NB_LSP_COEFF
    ensures 7000 < MAPredictorSum(l0)[i] < 20000
  {
  }

  /** Rounding to whole units: e is the error in units of 2 to the -28. */
  lemma RoundedNear(q: int, e: int)
    ensures Pshr(0x8000 * q + e, 15) == q + (e + 0x4000) / 0x8000
  {
    Powers();
    ShiftWhole(e + 0x4000, q, 15);
  }

  /** n erased frames in a row. */
  function ErasedRun(s: LsfState, n: nat): (r: LsfState)
    requires IsState(s)
    ensures IsState(r)
  {
    if n == 0 then s else Erased(ErasedRun(s, n - 1))
  }

  /** Throughout any run of erasures the filter is frozen, the memory shifts as in good frames, and every codeword
      entered predicts the frozen qLSF again. */
  lemma {:induction false} ErasedRunKeepsFilter(s: LsfState, n: nat, i: nat)
    requires IsState(s) && 0 <= s.lastValidL0 <= 1 && i < NB_LSP_COEFF && -0x7ffd <= s.lastqLSF[i] <= 0x7ffc
    requires Fits32(Scaled(s.lastValidL0, s.lastqLSF[i], ErasedRun(s, n).memory, i))
    ensures var before := ErasedRun(s, n);
            var after := ErasedRun(s, n + 1);
            && after.lastqLSF == s.lastqLSF && after.lastValidL0 == s.lastValidL0
            && after.memory[1..] == before.memory[..3]
            && (-3 <= PredictedAt(Regular(s.lastValidL0), after.memory[0], before.memory, i) - s.lastqLSF[i] <= 3
                <==> Fits16(BackComputed(s.lastValidL0, s.lastqLSF[i], before.memory, i)))
  {
    hide BackCode, BackComputed, PredictedAt, Scaled;
    FrozenLast(s, n);
    var before := ErasedRun(s, n);
    ErasureInvertsPrediction(s.lastValidL0, s.lastqLSF, before.memory, i);
  }

  lemma {:induction false} FrozenLast(s: LsfState, n: nat)
    requires IsState(s)
    ensures ErasedRun(s, n).lastqLSF == s.lastqLSF && ErasedRun(s, n).lastValidL0 == s.lastValidL0
  {
    if n > 0 {
      FrozenLast(s, n - 1);
    }
  }

  // ---- The same in exact arithmetic

  function RealHistory(rows: seq<real>, memory: seq<real>): real
    requires |rows| == |memory|
  {
    if |rows| == 0 then 0.0
    else RealHistory(rows[..|rows| - 1], memory[..|rows| - 1]) + rows[|rows| - 1] * memory[|rows| - 1]
  }

  /** One coefficient of the memory after n erasures, any predictor order. */
  function RealRun(rows: seq<real>, inverse: real, q: real, memory: seq<real>, n: nat): (r: seq<real>)
    requires |rows| == |memory| >= 1
    ensures |r| == |rows|
  {
    if n == 0 then memory
    else
      var m := RealRun(rows, inverse, q, memory, n - 1);
      [inverse * (q - RealHistory(rows, m))] + m[..|m| - 1]
  }

  /** With an exact reciprocal, every erased frame of every run predicts the last qLSF exactly. */
  lemma ExactErasureInvertsPrediction(rows: seq<real>, sum: real, inverse: real, q: real, memory: seq<real>, n: nat)
    requires |rows| == |memory| >= 1 && sum * inverse == 1.0
    ensures sum * RealRun(rows, inverse, q, memory, n + 1)[0] + RealHistory(rows, RealRun(rows, inverse, q, memory, n))
            == q
    ensures RealRun(rows, inverse, q, memory, n + 1)[1..] == RealRun(rows, inverse, q, memory, n)[..|rows| - 1]
  {
    var m := RealRun(rows, inverse, q, memory, n);
    var x := q - RealHistory(rows, m);
    assert sum * (inverse * x) == sum * inverse * x == x;
  }
}
