/** ChebyshevPolynomial of LP2LSPConversion.c: a backward recurrence for a Chebyshev series, in exact arithmetic. */
module Chebyshev {
  import opened RealSums

  /** Chebyshev polynomials of the first kind. */
  function T(n: nat, x: real): real {
    if n == 0 then 1.0 else if n == 1 then x else 2.0 * x * T(n - 1, x) - T(n - 2, x)
  }

  /** Coefficient i of F; the first one is always 1 and not read. */
  function Coefficient(f: seq<real>, i: int): real {
    if i == 0 then 1.0 else At(f, i)
  }

  function SeriesTerm(f: seq<real>, x: real, i: int): real {
    if 0 <= i < |f| then Coefficient(f, i) * T(|f| - 1 - i, x) else 0.0
  }

  /** C(x) = T(m) + f[1] T(m-1) + ... + f[m-1] T(1) + f[m]/2 with m = |f|-1 */
  function Series(f: seq<real>, x: real): real
    requires |f| > 0
  {
    Sum(|f| - 1, i => SeriesTerm(f, x, i)) + At(f, |f| - 1) / 2.0
  }

  lemma NextT(n: nat, x: real)
    requires n >= 2
    ensures T(n, x) == 2.0 * x * T(n - 1, x) - T(n - 2, x)
  {
  }

  /** One step of the recurrence, in terms of the partial series. */
  lemma RecurrenceStep(b1: real, b2: real, t: real, t1: real, t2: real, x: real, c: real, partial: real)
    requires partial == b1 * t - b2 * t1
    requires t == 2.0 * x * t1 - t2
    ensures partial + c * t1 == (2.0 * x * b1 - b2 + c) * t1 - b1 * t2
  {
    assert b1 * (2.0 * x * t1) == 2.0 * x * b1 * t1;
    assert b1 * t == b1 * (2.0 * x * t1) - b1 * t2;
    assert (2.0 * x * b1 - b2 + c) * t1 == 2.0 * x * b1 * t1 - b2 * t1 + c * t1;
  }

  /** The value of the series, whatever the order and the argument. */
  method ChebyshevPolynomial(x: real, f: seq<real>) returns (c: real)
    requires |f| >= 3
    ensures c == Series(f, x)
  {
    hide T, SeriesTerm;
    var m := |f| - 1;
    var bk1 := 2.0 * x + f[1];
    var bk2 := 1.0;
    var k := m - 2;
    FirstTerms(f, x);
    while k > 0
      invariant 0 <= k <= m - 2
      invariant Sum(m - k, i => SeriesTerm(f, x, i)) == bk1 * T(k + 1, x) - bk2 * T(k, x)
    {
      SeriesTermIs(f, x, m - k);
      NextT(k + 1, x);
      RecurrenceStep(bk1, bk2, T(k + 1, x), T(k, x), T(k - 1, x), x, f[m - k], Sum(m - k, i => SeriesTerm(f, x, i)));
      var bk := 2.0 * (x * bk1) + f[m - k] - bk2;
      assert bk == 2.0 * x * bk1 - bk2 + f[m - k] by { Reassociate(x, bk1); }
      bk2 := bk1;
      bk1 := bk;
      k := k - 1;
    }
    LowT(x);
    c := x * bk1 + f[m] / 2.0 - bk2;
  }

  lemma Reassociate(x: real, b: real)
    ensures 2.0 * (x * b) == 2.0 * x * b
  {
  }

  lemma LowT(x: real)
    ensures T(0, x) == 1.0 && T(1, x) == x
  {
  }

  lemma SeriesTermIs(f: seq<real>, x: real, i: nat)
    requires i < |f|
    ensures SeriesTerm(f, x, i) == (if i == 0 then 1.0 else f[i]) * T(|f| - 1 - i, x)
  {
  }

  lemma FirstTerms(f: seq<real>, x: real)
    requires |f| >= 3
    ensures Sum(2, i => SeriesTerm(f, x, i)) == (2.0 * x + f[1]) * T(|f| - 2, x) - 1.0 * T(|f| - 3, x)
  {
    hide T, SeriesTerm;
    var term := (i: int) => SeriesTerm(f, x, i);
    assert Sum(2, term) == Sum(0, term) + term(0) + term(1);
    SeriesTermIs(f, x, 0);
    SeriesTermIs(f, x, 1);
    NextT(|f| - 1, x);
  }

  /** Coefficient k of the symmetric polynomial of degree 2m that f describes by its first half. */
  function Palindrome(f: seq<real>, k: int): real
    requires |f| > 0
  {
    var m := |f| - 1;
    if k <= m then Coefficient(f, k) else Coefficient(f, 2 * m - k)
  }

  /** One product of a sum against a symmetric polynomial, the exponent counted from the middle. */
  function Product(f: seq<real>, g: int -> real, k: int): real
    requires |f| > 0
  {
    Palindrome(f, k) * g(k - (|f| - 1))
  }

  lemma LowProduct(f: seq<real>, g: int -> real, i: int)
    requires |f| > 0 && i < |f|
    ensures Product(f, g, i) == Coefficient(f, i) * g(i - (|f| - 1))
  {
  }

  lemma HighProduct(f: seq<real>, g: int -> real, j: int)
    requires |f| > 0 && j >= 0
    ensures Product(f, g, |f| + j) == Coefficient(f, |f| - 2 - j) * g(j + 1)
  {
    hide Coefficient;
    assert 2 * (|f| - 1) - (|f| + j) == |f| - 2 - j && |f| + j - (|f| - 1) == j + 1;
  }

  /** The two products at distance |f|-1-i from the middle. */
  function PairProduct(f: seq<real>, g: int -> real, i: int): real {
    Coefficient(f, i) * (g(|f| - 1 - i) + g(i - (|f| - 1)))
  }

  lemma PairProductIs(f: seq<real>, g: int -> real, i: int)
    requires 0 <= i < |f| - 1
    ensures PairProduct(f, g, i) == Product(f, g, i) + 1.0 * Product(f, g, 2 * (|f| - 1) - i)
  {
    hide Coefficient, Product;
    var m := |f| - 1;
    LowProduct(f, g, i);
    HighProduct(f, g, m - 1 - i);
    assert |f| + (m - 1 - i) == 2 * m - i && |f| - 2 - (m - 1 - i) == i && m - 1 - i + 1 == m - i;
    PairSum(Coefficient(f, i), g(m - i), g(i - m));
  }

  /** Folding a sum of 2m+1 terms around its middle. */
  lemma FoldSum(m: nat, all: int -> real, mirrored: int -> real)
    requires forall i {:trigger mirrored(i)} :: 0 <= i < m ==> mirrored(i) == all(2 * m - i)
    ensures Sum(2 * m + 1, all) == Sum(m, all) + all(m) + Sum(m, mirrored)
  {
    var after := (j: int) => all(m + 1 + j);
    SumSplit(m + 1, m, all, after);
    forall i | 0 <= i < m
      ensures mirrored(i) == after(m - 1 - i)
    {
      assert m + 1 + (m - 1 - i) == 2 * m - i;
    }
    SumReverse(m, after, mirrored);
  }

  /** A sum against a symmetric polynomial pairs the exponents k and -k around the middle. */
  lemma PalindromePairs(f: seq<real>, g: int -> real)
    requires |f| > 1
    ensures Sum(2 * |f| - 1, k => Product(f, g, k))
         == Coefficient(f, |f| - 1) * g(0) + Sum(|f| - 1, i => PairProduct(f, g, i))
  {
    hide Coefficient, Product, PairProduct;
    var m := |f| - 1;
    var all := (k: int) => Product(f, g, k);
    var mirrored := (i: int) => Product(f, g, 2 * m - i);
    FoldSum(m, all, mirrored);
    LowProduct(f, g, m);
    var pairs := (i: int) => PairProduct(f, g, i);
    forall i | 0 <= i < m
      ensures pairs(i) == all(i) + 1.0 * mirrored(i)
    {
      PairProductIs(f, g, i);
    }
    SumLinear(m, all, mirrored, pairs, 1.0);
  }

  lemma PairSum(c: real, x: real, y: real)
    ensures c * (x + y) == c * y + 1.0 * (c * x)
  {
  }

  /** g behaves like n |-> z^n with z + 1/z = 2x: it takes twice the Chebyshev values on pairs of exponents. */
  ghost predicate FollowsChebyshev(g: int -> real, x: real) {
    g(0) == 1.0 && forall n: int {:trigger g(n)} :: n >= 0 ==> g(n) + g(0 - n) == 2.0 * T(n, x)
  }

  /** z^-m F(z) = 2 C((z + 1/z)/2) for every assignment of powers that follows Chebyshev. */
  lemma PalindromeIsSeries(f: seq<real>, g: int -> real, x: real)
    requires |f| > 1 && FollowsChebyshev(g, x)
    ensures Sum(2 * |f| - 1, k => Product(f, g, k)) == 2.0 * Series(f, x)
  {
    hide Product, PairProduct, SeriesTerm, Coefficient;
    PalindromePairs(f, g);
    var pairs := (i: int) => PairProduct(f, g, i);
    var term := (i: int) => SeriesTerm(f, x, i);
    forall i | 0 <= i < |f| - 1
      ensures pairs(i) == 2.0 * term(i)
    {
      PairIsTwiceTerm(f, g, x, i);
    }
    SumScale(|f| - 1, term, pairs, 2.0);
    LastCoefficient(f);
  }

  lemma PairIsTwiceTerm(f: seq<real>, g: int -> real, x: real, i: int)
    requires 0 <= i < |f| - 1 && FollowsChebyshev(g, x)
    ensures PairProduct(f, g, i) == 2.0 * SeriesTerm(f, x, i)
  {
    hide T, Coefficient;
    var n := |f| - 1 - i;
    assert i - (|f| - 1) == 0 - n;
    assert g(n) + g(0 - n) == 2.0 * T(n, x);
    TwiceTerm(Coefficient(f, i), T(n, x));
  }

  lemma TwiceTerm(c: real, t: real)
    ensures c * (2.0 * t) == 2.0 * (c * t)
  {
  }

  lemma LastCoefficient(f: seq<real>)
    requires |f| > 1
    ensures Coefficient(f, |f| - 1) * 1.0 == 2.0 * (At(f, |f| - 1) / 2.0)
  {
  }

  /** z^n for any integer n, given w = 1/z */
  function IntegerPower(z: real, w: real, n: int): real {
    if n < 0 then Power(w, 0 - n) else Power(z, n)
  }

  /** z^n + z^-n is twice the Chebyshev polynomial of their mean. */
  ghost predicate Follows(z: real, w: real, n: nat) {
    Power(z, n) + Power(w, n) == 2.0 * T(n, (z + w) / 2.0)
  }

  lemma {:induction false} PowersFollowChebyshev(z: real, w: real, n: nat)
    requires z * w == 1.0
    ensures Follows(z, w, n)
  {
    if n < 2 {
      LowPowersFollow(z, w, n);
    } else {
      hide Follows;
      PowersFollowChebyshev(z, w, n - 1);
      PowersFollowChebyshev(z, w, n - 2);
      FollowsNext(z, w, n);
    }
  }

  lemma FollowsIs(z: real, w: real, n: nat, x: real)
    requires x == (z + w) / 2.0
    ensures Follows(z, w, n) <==> Power(z, n) + Power(w, n) == 2.0 * T(n, x)
  {
    hide Power, T;
  }

  lemma FollowsNext(z: real, w: real, n: nat)
    requires z * w == 1.0 && n >= 2 && Follows(z, w, n - 1) && Follows(z, w, n - 2)
    ensures Follows(z, w, n)
  {
    hide Follows, Power, T;
    var x := (z + w) / 2.0;
    FollowsIs(z, w, n - 1, x);
    FollowsIs(z, w, n - 2, x);
    FollowsIs(z, w, n, x);
    NextPower(z, n);
    NextPower(w, n);
    NextT(n, x);
    PowersStep(z, w, x, Power(z, n - 2), Power(w, n - 2), T(n - 1, x), T(n - 2, x));
  }

  lemma PowersStep(z: real, w: real, x: real, p: real, q: real, t1: real, t2: real)
    requires z * w == 1.0 && x == (z + w) / 2.0 && z * p + w * q == 2.0 * t1 && p + q == 2.0 * t2
    ensures z * (z * p) + w * (w * q) == 2.0 * (2.0 * x * t1 - t2)
  {
    PowerAlgebra(z, w, p, q);
    DoubledSum(z + w, x, t1);
  }

  lemma LowPowersFollow(z: real, w: real, n: nat)
    requires n < 2
    ensures Power(z, n) + Power(w, n) == 2.0 * T(n, (z + w) / 2.0)
  {
    LowPowers(z);
    LowPowers(w);
    LowT((z + w) / 2.0);
  }

  lemma LowPowers(z: real)
    ensures Power(z, 0) == 1.0 && Power(z, 1) == z
  {
  }

  lemma NextPower(z: real, n: nat)
    requires n >= 2
    ensures Power(z, n - 1) == z * Power(z, n - 2) && Power(z, n) == z * (z * Power(z, n - 2))
  {
  }

  lemma DoubledSum(s: real, x: real, t: real)
    requires s == 2.0 * x
    ensures s * (2.0 * t) == 2.0 * (2.0 * x * t)
  {
  }

  lemma PowerAlgebra(z: real, w: real, p: real, q: real)
    requires z * w == 1.0
    ensures z * (z * p) + w * (w * q) == (z + w) * (z * p + w * q) - (p + q)
  {
    assert z * (w * q) == z * w * q == q;
    assert w * (z * p) == z * w * p == p;
    assert (z + w) * (z * p + w * q) == z * (z * p) + z * (w * q) + w * (z * p) + w * (w * q);
  }

  /** For every real z other than 0: z^-m F(z) = 2 C((z + 1/z)/2). */
  lemma SeriesOffCircle(f: seq<real>, z: real, w: real)
    requires |f| > 1 && z * w == 1.0
    ensures Sum(2 * |f| - 1, k => Product(f, n => IntegerPower(z, w, n), k)) == 2.0 * Series(f, (z + w) / 2.0)
  {
    hide Series, Product, T, Power;
    var g := (n: int) => IntegerPower(z, w, n);
    forall n: int | n >= 0
      ensures g(n) + g(0 - n) == 2.0 * T(n, (z + w) / 2.0)
    {
      PowersFollowChebyshev(z, w, n);
      if n == 0 {
        PowerZero(z, w);
      }
    }
    PowerZero(z, w);
    PalindromeIsSeries(f, g, (z + w) / 2.0);
  }

  lemma PowerZero(z: real, w: real)
    ensures Power(z, 0) == Power(w, 0) == 1.0
  {
  }

  datatype Complex = Complex(re: real, im: real) {
    function Times(z: Complex): Complex {
      Complex(re * z.re - im * z.im, im * z.re + re * z.im)
    }
  }

  /** z^n */
  function Turn(z: Complex, n: nat): Complex {
    if n == 0 then Complex(1.0, 0.0) else z.Times(Turn(z, n - 1))
  }

  /** z^n for any integer n and z on the unit circle, where the inverse is the conjugate */
  function CirclePower(z: Complex, n: int): Complex {
    if n < 0 then var p := Turn(z, 0 - n); Complex(p.re, -p.im) else Turn(z, n)
  }

  lemma {:induction false} CosineIsChebyshev(z: Complex, n: nat)
    requires z.re * z.re + z.im * z.im == 1.0
    ensures Turn(z, n).re == T(n, z.re)
  {
    if n < 2 {
      TurnOne(z);
      LowT(z.re);
    } else {
      CosineIsChebyshev(z, n - 1);
      CosineIsChebyshev(z, n - 2);
      TimesTwice(z, Turn(z, n - 2));
      NextT(n, z.re);
      hide T, Complex.Times;
      assert Turn(z, n - 1) == z.Times(Turn(z, n - 2));
      assert Turn(z, n) == z.Times(z.Times(Turn(z, n - 2)));
    }
  }

  lemma TurnOne(z: Complex)
    ensures Turn(z, 0).re == 1.0 && Turn(z, 1).re == z.re
  {
    assert Turn(z, 1) == z.Times(Turn(z, 0));
  }

  lemma TimesTwice(z: Complex, p: Complex)
    requires z.re * z.re + z.im * z.im == 1.0
    ensures z.Times(z.Times(p)).re == 2.0 * z.re * z.Times(p).re - p.re
  {
    TurnTwice(z.re, z.im, p.re, p.im);
  }

  lemma TurnTwice(c: real, s: real, x: real, y: real)
    requires c * c + s * s == 1.0
    ensures c * (c * x - s * y) - s * (s * x + c * y) == 2.0 * c * (c * x - s * y) - x
  {
    assert c * (c * x) + s * (s * x) == (c * c + s * s) * x == x;
    assert c * (c * x - s * y) == c * (c * x) - c * (s * y);
    assert s * (s * x + c * y) == s * (s * x) + s * (c * y);
    assert c * (s * y) == s * (c * y);
    assert 2.0 * c * (c * x - s * y) == 2.0 * (c * (c * x - s * y));
  }

  /** On the unit circle z^-m F(z) is real and equals 2 C(Re z): the roots of C in [-1, 1] are those of F there. */
  lemma SeriesOnCircle(f: seq<real>, z: Complex)
    requires |f| > 1 && z.re * z.re + z.im * z.im == 1.0
    ensures Sum(2 * |f| - 1, k => Product(f, n => CirclePower(z, n).re, k)) == 2.0 * Series(f, z.re)
    ensures Sum(2 * |f| - 1, k => Product(f, n => CirclePower(z, n).im, k)) == 0.0
  {
    hide Series, Product, T, Coefficient, Turn;
    var m := |f| - 1;
    var re := (n: int) => CirclePower(z, n).re;
    var im := (n: int) => CirclePower(z, n).im;
    TurnZero(z);
    forall n: int | n >= 0
      ensures re(n) + re(0 - n) == 2.0 * T(n, z.re)
    {
      CosineIsChebyshev(z, n);
    }
    PalindromeIsSeries(f, re, z.re);
    ImaginaryPairsCancel(f, z, im);
  }

  lemma TurnZero(z: Complex)
    ensures Turn(z, 0) == Complex(1.0, 0.0)
  {
  }

  lemma ImaginaryPairsCancel(f: seq<real>, z: Complex, im: int -> real)
    requires |f| > 1
    requires forall n {:trigger im(n)} :: im(n) == CirclePower(z, n).im
    ensures Sum(2 * |f| - 1, k => Product(f, im, k)) == 0.0
  {
    hide Product, Coefficient, Turn;
    var m := |f| - 1;
    TurnZero(z);
    var pairs := (i: int) => PairProduct(f, im, i);
    PalindromePairs(f, im);
    forall i | 0 <= i < m
      ensures pairs(i) == 0.0
    {
      assert 0 - (i - m) == m - i;
      assert im(m - i) + im(i - m) == 0.0;
      TimesZero(Coefficient(f, i));
    }
    SumZero(m, pairs);
    TimesZero(Coefficient(f, m));
  }

  lemma TimesZero(c: real)
    ensures c * 0.0 == 0.0
  {
  }
}
