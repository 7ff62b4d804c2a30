/** Finite sums of integers over an index range, for the fixed-point layer. */
module IntSums {
  import opened FixedPoint

  /** f(0) + ... + f(n-1) */
  function Sum(n: nat, f: int -> int): int {
    if n == 0 then 0 else Sum(n - 1, f) + f(n - 1)
  }

  /** A sequence extended by zeros on both sides. */
  function At(s: seq<int>, i: int): int {
    if 0 <= i < |s| then s[i] else 0
  }

  lemma {:induction false} SumCong(n: nat, f: int -> int, g: int -> int)
    requires forall i {:trigger f(i)} {:trigger g(i)} :: 0 <= i < n ==> f(i) == g(i)
    ensures Sum(n, f) == Sum(n, g)
  {
    if n > 0 {
      SumCong(n - 1, f, g);
      assert f(n - 1) == g(n - 1);
    }
  }

  lemma {:induction false} SumLinear(n: nat, f: int -> int, g: int -> int, h: int -> int, c: int)
    requires forall i {:trigger h(i)} :: 0 <= i < n ==> h(i) == f(i) + c * g(i)
    ensures Sum(n, h) == Sum(n, f) + c * Sum(n, g)
  {
    if n > 0 {
      SumLinear(n - 1, f, g, h, c);
      assert h(n - 1) == f(n - 1) + c * g(n - 1);
    }
  }

  lemma {:induction false} SumScale(n: nat, f: int -> int, h: int -> int, c: int)
    requires forall i {:trigger h(i)} :: 0 <= i < n ==> h(i) == c * f(i)
    ensures Sum(n, h) == c * Sum(n, f)
  {
    if n > 0 {
      SumScale(n - 1, f, h, c);
      assert h(n - 1) == c * f(n - 1);
    }
  }

  lemma {:induction false} SumZero(n: nat, f: int -> int)
    requires forall i {:trigger f(i)} :: 0 <= i < n ==> f(i) == 0
    ensures Sum(n, f) == 0
  {
    if n > 0 {
      SumZero(n - 1, f);
      assert f(n - 1) == 0;
    }
  }

  lemma {:induction false} SumNonNegative(n: nat, f: int -> int)
    requires forall i {:trigger f(i)} :: 0 <= i < n ==> f(i) >= 0
    ensures Sum(n, f) >= 0
  {
    if n > 0 {
      SumNonNegative(n - 1, f);
      assert f(n - 1) >= 0;
    }
  }

  /** Cutting a sum in two; g is the tail of f. */
  lemma {:induction false} SumSplit(m: nat, n: nat, f: int -> int, g: int -> int)
    requires forall i {:trigger g(i)} :: 0 <= i < n ==> g(i) == f(m + i)
    ensures Sum(m + n, f) == Sum(m, f) + Sum(n, g)
  {
    if n > 0 {
      SumSplit(m, n - 1, f, g);
      assert g(n - 1) == f(m + (n - 1));
    }
  }

  /** Leading and trailing zeros do not count. */
  lemma {:induction false} SumWindow(m: nat, n: nat, k: nat, f: int -> int, g: int -> int)
    requires forall t {:trigger f(t)} :: 0 <= t < m || m + n <= t < m + n + k ==> f(t) == 0
    requires forall t {:trigger g(t)} :: 0 <= t < n ==> g(t) == f(m + t)
    ensures Sum(m + n + k, f) == Sum(n, g)
  {
    if k > 0 {
      SumWindow(m, n, k - 1, f, g);
    } else {
      SumSplit(m, n, f, g);
      SumZero(m, f);
    }
  }

  lemma {:induction false} AbsSum(n: nat, f: int -> int, g: int -> int)
    requires forall i {:trigger f(i)} {:trigger g(i)} :: 0 <= i < n ==> Abs(f(i)) <= g(i)
    ensures Abs(Sum(n, f)) <= Sum(n, g)
  {
    if n > 0 {
      AbsSum(n - 1, f, g);
      assert Abs(f(n - 1)) <= g(n - 1);
    }
  }

  /** Two samples multiplied; zero outside the sequence. */
  function Pair(s: seq<int>, i: int, j: int): int {
    At(s, i) * At(s, j)
  }

  lemma PairIs(s: seq<int>, i: int, j: int)
    ensures 0 <= i < |s| && 0 <= j < |s| ==> Pair(s, i, j) == s[i] * s[j]
    ensures i < 0 || j < 0 ==> Pair(s, i, j) == 0
    ensures Pair(s, i, j) == Pair(s, j, i)
  {
  }

  lemma PairBound(s: seq<int>, i: int, j: int)
    ensures Pair(s, i, i) >= 0
    ensures 2 * Abs(Pair(s, i, j)) <= Pair(s, i, i) + Pair(s, j, j)
  {
    hide At;
    var x, y := At(s, i), At(s, j);
    assert (x - y) * (x - y) >= 0 && (x + y) * (x + y) >= 0;
    assert (x - y) * (x - y) == x * x - 2 * (x * y) + y * y;
    assert (x + y) * (x + y) == x * x + 2 * (x * y) + y * y;
  }

  /** The energy of the first m samples. */
  function EnergyOf(s: seq<int>, m: nat): int {
    Sum(m, j => Pair(s, j, j))
  }

  lemma {:induction false} EnergyGrows(s: seq<int>, m: nat, n: nat)
    requires m <= n
    ensures 0 <= EnergyOf(s, m) <= EnergyOf(s, n)
  {
    hide Pair;
    if n > 0 {
      PairBound(s, n - 1, n - 1);
      if m < n {
        EnergyGrows(s, m, n - 1);
      } else {
        EnergyGrows(s, m - 1, n - 1);
      }
    }
  }

  /** The energy of a delayed sequence. */
  lemma DelayedEnergy(s: seq<int>, k: nat, m: nat, f: int -> int)
    requires forall j {:trigger f(j)} :: 0 <= j < m ==> f(j) == Pair(s, j - k, j - k)
    ensures Sum(m, f) <= EnergyOf(s, m)
  {
    hide Pair;
    EnergyGrows(s, if m <= k then 0 else m - k, m);
    if m <= k {
      forall j | 0 <= j < m
        ensures f(j) == 0
      {
        PairIs(s, j - k, j - k);
      }
      SumZero(m, f);
    } else {
      var g := (j: int) => Pair(s, j, j);
      forall j | 0 <= j < k || k + (m - k) <= j < k + (m - k) + 0
        ensures f(j) == 0
      {
        PairIs(s, j - k, j - k);
      }
      forall j | 0 <= j < m - k
        ensures g(j) == f(k + j)
      {
        assert k + j - k == j;
      }
      SumWindow(k, m - k, 0, f, g);
    }
  }

  /** No correlation of two delayed copies exceeds the energy. */
  lemma CorrelationBounded(s: seq<int>, i: nat, j: nat, m: nat, f: int -> int)
    requires forall n {:trigger f(n)} :: 0 <= n < m ==> f(n) == Pair(s, n - i, n - j)
    ensures Abs(Sum(m, f)) <= EnergyOf(s, m)
  {
    hide Pair, Sum, EnergyOf;
    var doubled := (n: int) => 2 * f(n);
    var left := (n: int) => Pair(s, n - i, n - i);
    var right := (n: int) => Pair(s, n - j, n - j);
    var both := (n: int) => left(n) + 1 * right(n);
    forall n | 0 <= n < m
      ensures Abs(doubled(n)) <= both(n)
    {
      PairBound(s, n - i, n - j);
    }
    SumScale(m, f, doubled, 2);
    AbsSum(m, doubled, both);
    SumLinear(m, left, right, both, 1);
    DelayedEnergy(s, i, m, left);
    DelayedEnergy(s, j, m, right);
  }
}
