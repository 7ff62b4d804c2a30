/** Finite sums of reals over an index range, for the exact layer. */
module RealSums {

  /** f(0) + ... + f(n-1) */
  function Sum(n: nat, f: int -> real): real {
    if n == 0 then 0.0 else Sum(n - 1, f) + f(n - 1)
  }

  /** A sequence extended by zeros on both sides. */
  function At(s: seq<real>, i: int): real {
    if 0 <= i < |s| then s[i] else 0.0
  }

  /** x to the power n */
  function Power(x: real, n: nat): real {
    if n == 0 then 1.0 else x * Power(x, n - 1)
  }

  lemma NonNegativeProduct(a: real, b: real)
    requires a >= 0.0 && b >= 0.0
    ensures a * b >= 0.0
  {
  }

  lemma {:induction false} SumCong(n: nat, f: int -> real, g: int -> real)
    requires forall i {:trigger f(i)} {:trigger g(i)} :: 0 <= i < n ==> f(i) == g(i)
    ensures Sum(n, f) == Sum(n, g)
  {
    if n > 0 {
      SumCong(n - 1, f, g);
      assert f(n - 1) == g(n - 1);
    }
  }

  lemma {:induction false} SumLinear(n: nat, f: int -> real, g: int -> real, h: int -> real, c: real)
    requires forall i {:trigger h(i)} :: 0 <= i < n ==> h(i) == f(i) + c * g(i)
    ensures Sum(n, h) == Sum(n, f) + c * Sum(n, g)
  {
    if n > 0 {
      SumLinear(n - 1, f, g, h, c);
      assert h(n - 1) == f(n - 1) + c * g(n - 1);
    }
  }

  lemma {:induction false} SumScale(n: nat, f: int -> real, h: int -> real, c: real)
    requires forall i {:trigger h(i)} :: 0 <= i < n ==> h(i) == c * f(i)
    ensures Sum(n, h) == c * Sum(n, f)
  {
    if n > 0 {
      SumScale(n - 1, f, h, c);
      assert h(n - 1) == c * f(n - 1);
    }
  }

  lemma {:induction false} SumZero(n: nat, f: int -> real)
    requires forall i {:trigger f(i)} :: 0 <= i < n ==> f(i) == 0.0
    ensures Sum(n, f) == 0.0
  {
    if n > 0 {
      SumZero(n - 1, f);
      assert f(n - 1) == 0.0;
    }
  }

  lemma {:induction false} SumNonNegative(n: nat, f: int -> real)
    requires forall i {:trigger f(i)} :: 0 <= i < n ==> f(i) >= 0.0
    ensures Sum(n, f) >= 0.0
  {
    if n > 0 {
      SumNonNegative(n - 1, f);
      assert f(n - 1) >= 0.0;
    }
  }

  /** Cutting a sum in two; g is the tail of f. */
  lemma {:induction false} SumSplit(m: nat, n: nat, f: int -> real, g: int -> real)
    requires forall i {:trigger g(i)} :: 0 <= i < n ==> g(i) == f(m + i)
    ensures Sum(m + n, f) == Sum(m, f) + Sum(n, g)
  {
    if n > 0 {
      SumSplit(m, n - 1, f, g);
      assert g(n - 1) == f(m + (n - 1));
    }
  }

  /** Leading and trailing zeros do not count. */
  lemma {:induction false} SumWindow(m: nat, n: nat, k: nat, f: int -> real, g: int -> real)
    requires forall t {:trigger f(t)} :: 0 <= t < m || m + n <= t < m + n + k ==> f(t) == 0.0
    requires forall t {:trigger g(t)} :: 0 <= t < n ==> g(t) == f(m + t)
    ensures Sum(m + n + k, f) == Sum(n, g)
  {
    if k > 0 {
      SumWindow(m, n, k - 1, f, g);
    } else {
      SumSplit(m, n, f, g);
      SumZero(m, f);
    }
  }

  lemma SumReverse(n: nat, f: int -> real, g: int -> real)
    requires forall i {:trigger g(i)} :: 0 <= i < n ==> g(i) == f(n - 1 - i)
    ensures Sum(n, g) == Sum(n, f)
  {
    SumReversePart(n, n, f, g);
  }

  lemma {:induction false} SumReversePart(n: nat, k: nat, f: int -> real, g: int -> real)
    requires k <= n
    requires forall i {:trigger g(i)} :: 0 <= i < n ==> g(i) == f(n - 1 - i)
    ensures Sum(k, g) + Sum(n - k, f) == Sum(n, f)
  {
    if k > 0 {
      SumReversePart(n, k - 1, f, g);
      assert g(k - 1) == f(n - k);
    }
  }

  /** Exchanging the order of a double sum. */
  lemma {:induction false} SumSwap(m: nat, n: nat, f: (int, int) -> real)
    ensures Sum(m, i => Sum(n, j => f(i, j))) == Sum(n, j => Sum(m, i => f(i, j)))
  {
    if m == 0 {
      SumZero(n, j => Sum(m, i => f(i, j)));
    } else {
      SumSwap(m - 1, n, f);
      SumLinear(n, j => Sum(m - 1, i => f(i, j)), j => f(m - 1, j), j => Sum(m, i => f(i, j)), 1.0);
    }
  }

  /** The same, with the inner sums named. */
  lemma SumSwapNamed(m: nat, n: nat, f: (int, int) -> real, rows: int -> real, columns: int -> real)
    requires forall i {:trigger rows(i)} :: 0 <= i < m ==> rows(i) == Sum(n, j => f(i, j))
    requires forall j {:trigger columns(j)} :: 0 <= j < n ==> columns(j) == Sum(m, i => f(i, j))
    ensures Sum(m, rows) == Sum(n, columns)
  {
    SumSwap(m, n, f);
    SumCong(m, rows, i => Sum(n, j => f(i, j)));
    SumCong(n, columns, j => Sum(m, i => f(i, j)));
  }
}
