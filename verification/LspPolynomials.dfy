/** The sum and difference polynomials of LP2LSPConversion.c and their Chebyshev form. */
module LspPolynomials {
  import opened RealSums

  const ONE_IN_Q12 := 4096

  /** Coefficient k of A(z), with the leading one that is not stored. */
  function Tap(a: seq<int>, k: int): int {
    if k == 0 then ONE_IN_Q12 else if 1 <= k <= |a| then a[k - 1] else 0
  }

  function SumCoefficient(a: seq<int>, k: nat): int {
    if k == 0 then ONE_IN_Q12 else Tap(a, k) + (Tap(a, |a| + 1 - k) - SumCoefficient(a, k - 1))
  }

  function DifferenceCoefficient(a: seq<int>, k: nat): int {
    if k == 0 then ONE_IN_Q12 else DifferenceCoefficient(a, k - 1) + (Tap(a, k) - Tap(a, |a| + 1 - k))
  }

  lemma CoefficientZero(a: seq<int>)
    ensures SumCoefficient(a, 0) == DifferenceCoefficient(a, 0) == ONE_IN_Q12
  {
  }

  lemma NextCoefficient(a: seq<int>, i: nat)
    requires i < |a|
    ensures SumCoefficient(a, i + 1) == a[i] + (a[|a| - 1 - i] - SumCoefficient(a, i))
    ensures DifferenceCoefficient(a, i + 1) == DifferenceCoefficient(a, i) + (a[i] - a[|a| - 1 - i])
  {
  }

  /** f1 and f2 in Q15 except for their unused entry 0, from an even number of Q12 coefficients. */
  method SumAndDifference(a: seq<int>) returns (f1: array<int>, f2: array<int>)
    requires |a| % 2 == 0
    ensures fresh(f1) && fresh(f2) && f1.Length == f2.Length == |a| / 2 + 1
    ensures f1[0] == f2[0] == ONE_IN_Q12
    ensures forall k :: 1 <= k <= |a| / 2 ==> f1[k] == 8 * SumCoefficient(a, k)
    ensures forall k :: 1 <= k <= |a| / 2 ==> f2[k] == 8 * DifferenceCoefficient(a, k)
  {
    hide SumCoefficient, DifferenceCoefficient;
    CoefficientZero(a);
    var m := |a| / 2;
    f1, f2 := new int[m + 1], new int[m + 1];
    f1[0], f2[0] := ONE_IN_Q12, ONE_IN_Q12;
    var i := 0;
    while i < m
      invariant 0 <= i <= m
      invariant forall k :: 0 <= k <= i ==> f1[k] == SumCoefficient(a, k) && f2[k] == DifferenceCoefficient(a, k)
    {
      NextCoefficient(a, i);
      f1[i + 1] := a[i] + (a[|a| - 1 - i] - f1[i]);
      f2[i + 1] := f2[i] + (a[i] - a[|a| - 1 - i]);
      i := i + 1;
    }
    i := 1;
    while i < m + 1
      invariant 1 <= i <= m + 1
      invariant f1[0] == f2[0] == ONE_IN_Q12
      invariant forall k :: 1 <= k < i ==> f1[k] == 8 * SumCoefficient(a, k) && f2[k] == 8 * DifferenceCoefficient(a, k)
      invariant forall k :: i <= k <= m ==> f1[k] == SumCoefficient(a, k) && f2[k] == DifferenceCoefficient(a, k)
    {
      f1[i], f2[i] := f1[i] * 8, f2[i] * 8;
      i := i + 1;
    }
  }

  /** The whole polynomials are symmetric around coefficient |a|/2 and zero outside. */
  function Fold(a: seq<int>, k: int): int {
    if k <= |a| / 2 then k else |a| - k
  }

  function F1(a: seq<int>, k: int): int {
    if 0 <= k <= |a| then SumCoefficient(a, Fold(a, k)) else 0
  }

  function F2(a: seq<int>, k: int): int {
    if 0 <= k <= |a| then DifferenceCoefficient(a, Fold(a, k)) else 0
  }

  /** (1 + z^-1) F1 is A(z) plus its mirror image, and (1 - z^-1) F2 is A(z) minus it. */
  lemma FactorsRecovered(a: seq<int>, k: int)
    requires |a| % 2 == 0 && 0 <= k <= |a| + 1
    ensures F1(a, k) + F1(a, k - 1) == Tap(a, k) + Tap(a, |a| + 1 - k)
    ensures F2(a, k) - F2(a, k - 1) == Tap(a, k) - Tap(a, |a| + 1 - k)
  {
    var m := |a| / 2;
    if k > m {
      var j: nat := |a| + 1 - k;
      assert k == m + 1 ==> |a| - k == k - 2;
      if j > 0 {
        assert SumCoefficient(a, j) + SumCoefficient(a, j - 1) == Tap(a, j) + Tap(a, |a| + 1 - j);
        assert DifferenceCoefficient(a, j) - DifferenceCoefficient(a, j - 1) == Tap(a, j) - Tap(a, |a| + 1 - j);
      }
    }
  }

  /** Coefficient by coefficient, (1 + z^-1) F1(z) + (1 - z^-1) F2(z) = 2 A(z). */
  lemma FactorisationOfA(a: seq<int>, k: int)
    requires |a| % 2 == 0 && 0 <= k <= |a| + 1
    ensures F1(a, k) + F1(a, k - 1) + F2(a, k) - F2(a, k - 1) == 2 * Tap(a, k)
  {
    FactorsRecovered(a, k);
  }

  /** Value at x of the polynomial with n integer coefficients c(0), ..., c(n-1). */
  function Value(c: int -> int, n: nat, x: real): real {
    Sum(n, k => Term(c(k), x, k))
  }

  function Term(c: int, x: real, k: int): real {
    if k < 0 then 0.0 else c as real * Power(x, k)
  }

  lemma ValueNext(c: int -> int, n: nat, x: real)
    ensures Value(c, 0, x) == 0.0
    ensures Value(c, n + 1, x) == Value(c, n, x) + Term(c(n), x, n)
  {
  }

  /** Multiplying a polynomial of n coefficients by the binomial b = 1 + s x. */
  lemma {:induction false} TimesBinomial(c: int -> int, d: int -> int, n: nat, x: real, s: int, b: real)
    requires forall k {:trigger d(k)} :: 0 <= k < n ==> d(k) == c(k) + s * c(k - 1)
    requires c(-1) == 0 && b == 1.0 + s as real * x
    ensures b * Value(c, n, x) == Value(d, n, x) + Term(s * c(n - 1), x, n)
  {
    hide Term, Value;
    ValueNext(c, 0, x);
    ValueNext(d, 0, x);
    if n == 0 {
      ZeroTerm(x, 0);
    } else {
      TimesBinomial(c, d, n - 1, x, s, b);
      assert d(n - 1) == c(n - 1) + s * c(n - 1 - 1);
      ValueNext(c, n - 1, x);
      ValueNext(d, n - 1, x);
      BinomialStep(Value(c, n - 1, x), Value(d, n - 1, x), c(n - 1), c(n - 1 - 1), x, s, b, n - 1);
    }
  }

  lemma ZeroTerm(x: real, k: nat)
    ensures Term(0, x, k) == 0.0
  {
  }

  lemma BinomialStep(v: real, w: real, c: int, e: int, x: real, s: int, b: real, k: nat)
    requires b == 1.0 + s as real * x
    requires b * v == w + Term(s * e, x, k)
    ensures b * (v + Term(c, x, k)) == w + Term(c + s * e, x, k) + Term(s * c, x, k + 1)
  {
    var t, p := s as real, Power(x, k);
    IntTimes(s, c);
    assert (c + s * e) as real == c as real + (s * e) as real;
    TermSum(c as real, (s * e) as real, p);
    Distribute(t * x, v, c as real * p);
    assert t * x * (c as real * p) == t * c as real * (x * p);
  }

  lemma IntTimes(x: int, y: int)
    ensures (x * y) as real == x as real * y as real
  {
  }

  lemma TermSum(c: real, b: real, p: real)
    ensures (c + b) * p == c * p + b * p
  {
  }

  lemma Distribute(y: real, v: real, t: real)
    ensures (1.0 + y) * (v + t) == (1.0 + y) * v + t + y * t
  {
  }

  /** As functions of x = z^-1: (1 + x) F1(x) + (1 - x) F2(x) = 2 A(x), at every x. */
  lemma Factorisation(a: seq<int>, x: real)
    requires |a| % 2 == 0
    ensures (1.0 + x) * Value(k => F1(a, k), |a| + 1, x) + (1.0 - x) * Value(k => F2(a, k), |a| + 1, x)
         == 2.0 * Value(k => Tap(a, k), |a| + 1, x)
  {
    hide Term, F1, F2, Tap, Value;
    var n := |a| + 2;
    var f1 := (k: int) => F1(a, k);
    var f2 := (k: int) => F2(a, k);
    var plus := (k: int) => F1(a, k) + F1(a, k - 1);
    var minus := (k: int) => F2(a, k) - F2(a, k - 1);
    var taps := (k: int) => Tap(a, k);
    Outside(a);
    TimesBinomial(f1, plus, n, x, 1, 1.0 + x);
    TimesBinomial(f2, minus, n, x, -1, 1.0 - x);
    ZeroTerm(x, n);
    LastTermVanishes(f1, |a| + 1, x);
    LastTermVanishes(f2, |a| + 1, x);
    LastTermVanishes(taps, |a| + 1, x);
    forall k | 0 <= k < n
      ensures plus(k) + minus(k) == 2 * taps(k)
    {
      FactorisationOfA(a, k);
    }
    ValuesAdd(plus, minus, taps, n, x);
  }

  lemma {:induction false} ValuesAdd(c: int -> int, d: int -> int, e: int -> int, n: nat, x: real)
    requires forall k {:trigger c(k)} {:trigger d(k)} {:trigger e(k)} :: 0 <= k < n ==> c(k) + d(k) == 2 * e(k)
    ensures Value(c, n, x) + Value(d, n, x) == 2.0 * Value(e, n, x)
  {
    hide Term, Value;
    if n == 0 {
      ValueNext(c, 0, x);
      ValueNext(d, 0, x);
      ValueNext(e, 0, x);
    } else {
      ValuesAdd(c, d, e, n - 1, x);
      ValueNext(c, n - 1, x);
      ValueNext(d, n - 1, x);
      ValueNext(e, n - 1, x);
      assert c(n - 1) + d(n - 1) == 2 * e(n - 1);
      TermsAdd(c(n - 1), d(n - 1), e(n - 1), x, n - 1);
    }
  }

  lemma Outside(a: seq<int>)
    ensures F1(a, -1) == 0 && F2(a, -1) == 0
    ensures F1(a, |a| + 1) == 0 && F2(a, |a| + 1) == 0 && Tap(a, |a| + 1) == 0
  {
  }

  lemma TermsAdd(c: int, d: int, e: int, x: real, k: nat)
    requires c + d == 2 * e
    ensures Term(c, x, k) + Term(d, x, k) == 2.0 * Term(e, x, k)
  {
    TermSum(c as real, d as real, Power(x, k));
    assert c as real + d as real == 2.0 * e as real;
  }

  lemma LastTermVanishes(c: int -> int, n: nat, x: real)
    requires c(n) == 0
    ensures Value(c, n + 1, x) == Value(c, n, x)
  {
    ZeroTerm(x, n);
  }
}
