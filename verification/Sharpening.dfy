/** Pitch sharpening of the code vector or of the impulse response, in exact arithmetic. */
module Sharpening {
  import opened RealSums

  /** h[n] + beta * h'[n-T], the sharpened samples feeding back */
  function SharpenedAt(x: seq<real>, t: nat, beta: real, n: int): real
    requires t > 0
    decreases if n < 0 then 0 else n + 1
  {
    if n < 0 then 0.0 else At(x, n) + beta * SharpenedAt(x, t, beta, n - t)
  }

  function Sharpened(x: seq<real>, t: nat, beta: real): seq<real>
    requires t > 0
  {
    seq(|x|, n => SharpenedAt(x, t, beta, n))
  }

  /** Sample n of the convolution of two causal sequences. */
  function Convolution(x: seq<real>, y: seq<real>, n: int): real {
    if n < 0 then 0.0 else Sum(n + 1, i => Product(x, y, i, n - i))
  }

  function Product(x: seq<real>, y: seq<real>, i: int, j: int): real {
    At(x, i) * At(y, j)
  }

  /** eq 49, in place: later samples use the already sharpened earlier ones. */
  method SharpenInPlace(v: array<real>, intPitchDelay: nat, beta: real)
    requires intPitchDelay > 0
    modifies v
    ensures v[..] == Sharpened(old(v[..]), intPitchDelay, beta)
  {
    hide SharpenedAt;
    ghost var x := v[..];
    var i := intPitchDelay;
    forall n | 0 <= n < v.Length && n < intPitchDelay
      ensures SharpenedAt(x, intPitchDelay, beta, n) == x[n]
    {
      Untouched(x, intPitchDelay, beta, n);
    }
    while i < v.Length
      invariant intPitchDelay <= i
      invariant forall n :: 0 <= n < v.Length && n < i ==> v[n] == SharpenedAt(x, intPitchDelay, beta, n)
      invariant forall n :: i <= n < v.Length ==> v[n] == x[n]
    {
      Fed(x, intPitchDelay, beta, i);
      v[i] := v[i] + beta * v[i - intPitchDelay];
      i := i + 1;
    }
  }

  lemma Untouched(x: seq<real>, t: nat, beta: real, n: int)
    requires t > 0 && 0 <= n < |x| && n < t
    ensures SharpenedAt(x, t, beta, n) == x[n]
  {
    assert SharpenedAt(x, t, beta, n - t) == 0.0;
  }

  lemma Fed(x: seq<real>, t: nat, beta: real, n: int)
    requires t > 0 && t <= n < |x|
    ensures SharpenedAt(x, t, beta, n) == x[n] + beta * SharpenedAt(x, t, beta, n - t)
  {
  }

  lemma SharpenedIs(x: seq<real>, t: nat, beta: real, i: int)
    requires t > 0 && i < |x|
    ensures At(Sharpened(x, t, beta), i) == At(x, i) + beta * At(Sharpened(x, t, beta), i - t)
  {
    hide SharpenedAt;
    if 0 <= i < t {
      Untouched(x, t, beta, i);
    } else if i >= t {
      Fed(x, t, beta, i);
    }
  }

  lemma SpreadProduct(a: real, b: real, c: real, y: real)
    ensures (a + b * c) * y == a * y + b * (c * y)
  {
  }

  lemma BeforeStart(x: seq<real>, y: seq<real>, i: int, j: int)
    requires i < 0
    ensures Product(x, y, i, j) == 0.0
  {
  }

  lemma ConvolutionCommutes(x: seq<real>, y: seq<real>, n: int)
    ensures Convolution(x, y, n) == Convolution(y, x, n)
  {
    if n >= 0 {
      var f := (i: int) => Product(y, x, i, n - i);
      var g := (i: int) => Product(x, y, i, n - i);
      forall i | 0 <= i < n + 1
        ensures g(i) == f(n + 1 - 1 - i)
      {
        assert n - (n - i) == i;
        ProductCommutes(x, y, i, n - i);
      }
      SumReverse(n + 1, f, g);
    }
  }

  lemma ProductCommutes(x: seq<real>, y: seq<real>, i: int, j: int)
    ensures Product(x, y, i, j) == Product(y, x, j, i)
  {
  }

  /** Convolving a sharpened sequence feeds back exactly like sharpening. */
  lemma FeedbackThroughConvolution(x: seq<real>, y: seq<real>, t: nat, beta: real, n: int)
    requires t > 0 && n < |x|
    ensures Convolution(Sharpened(x, t, beta), y, n)
         == Convolution(x, y, n) + beta * Convolution(Sharpened(x, t, beta), y, n - t)
  {
    hide Product;
    if n >= 0 {
      var s := Sharpened(x, t, beta);
      var f := (i: int) => Product(x, y, i, n - i);
      var g := (i: int) => Product(s, y, i - t, n - i);
      var h := (i: int) => Product(s, y, i, n - i);
      forall i | 0 <= i < n + 1
        ensures h(i) == f(i) + beta * g(i)
      {
        SharpenedProduct(x, y, t, beta, i, n - i);
      }
      SumLinear(n + 1, f, g, h, beta);
      DelayedConvolution(s, y, t, n, g);
    }
  }

  lemma SharpenedProduct(x: seq<real>, y: seq<real>, t: nat, beta: real, i: int, j: int)
    requires t > 0 && i < |x|
    ensures var s := Sharpened(x, t, beta);
            Product(s, y, i, j) == Product(x, y, i, j) + beta * Product(s, y, i - t, j)
  {
    hide Sharpened, At;
    SharpenedIs(x, t, beta, i);
    SpreadProduct(At(x, i), beta, At(Sharpened(x, t, beta), i - t), At(y, j));
  }

  lemma DelayedConvolution(s: seq<real>, y: seq<real>, t: nat, n: nat, g: int -> real)
    requires forall i {:trigger g(i)} :: 0 <= i < n + 1 ==> g(i) == Product(s, y, i - t, n - i)
    ensures Sum(n + 1, g) == Convolution(s, y, n - t)
  {
    hide Product;
    if n < t {
      forall i | 0 <= i < n + 1
        ensures g(i) == 0.0
      {
        BeforeStart(s, y, i - t, n - i);
      }
      SumZero(n + 1, g);
    } else {
      var d := (u: int) => Product(s, y, u, n - t - u);
      forall i | 0 <= i < t || t + (n - t + 1) <= i < t + (n - t + 1) + 0
        ensures g(i) == 0.0
      {
        BeforeStart(s, y, i - t, n - i);
      }
      forall u | 0 <= u < n - t + 1
        ensures d(u) == g(t + u)
      {
        assert t + u - t == u && n - (t + u) == n - t - u;
      }
      SumWindow(t, n - t + 1, 0, g, d);
    }
  }

  /** Sharpening may be moved from the code vector to the impulse response: both filtered vectors are equal. */
  lemma {:induction false} SharpeningMoves(c: seq<real>, h: seq<real>, t: nat, beta: real, n: int)
    requires t > 0 && |c| == |h| && n < |h|
    ensures Convolution(Sharpened(c, t, beta), h, n) == Convolution(c, Sharpened(h, t, beta), n)
    decreases if n < 0 then 0 else n + 1
  {
    if n >= 0 {
      SharpeningMoves(c, h, t, beta, n - t);
      FeedbackThroughConvolution(c, h, t, beta, n);
      FeedbackThroughConvolution(h, c, t, beta, n);
      ConvolutionCommutes(c, h, n);
      ConvolutionCommutes(c, Sharpened(h, t, beta), n);
      ConvolutionCommutes(c, Sharpened(h, t, beta), n - t);
    }
  }
}
