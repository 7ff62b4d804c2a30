/** Autocorrelations of signals make positive semidefinite Toeplitz forms. */
module SignalAutocorrelation {
  import opened RealSums
  import opened LevinsonDurbin
  import opened QuadraticForms
  import FixedPoint

  /** sum over t of x[t] * x[t-k], the signal being zero outside its samples */
  function Autocorrelation(x: seq<real>, k: int): real {
    Sum(|x|, t => Pair(x, t, t - k))
  }

  /** The first n autocorrelation coefficients of a signal. */
  function Coefficients(x: seq<real>, n: nat): seq<real> {
    seq(n, k => Autocorrelation(x, k))
  }

  /** Two samples multiplied. */
  function Pair(x: seq<real>, a: int, b: int): real {
    At(x, a) * At(x, b)
  }

  lemma Vanishes(x: seq<real>, a: int, b: int)
    requires !(0 <= a < |x|)
    ensures Pair(x, a, b) == 0.0
  {
  }

  /** Two delayed copies of a signal correlate according to the difference of the delays. */
  lemma DelayedCopies(x: seq<real>, i: nat, d: nat, n: nat, f: int -> real)
    requires i <= n
    requires forall t {:trigger f(t)} :: 0 <= t < |x| + n ==> f(t) == Pair(x, t - i, t - i - d)
    ensures Sum(|x| + n, f) == Autocorrelation(x, d)
  {
    hide Pair;
    var g := (t: int) => Pair(x, t, t - d);
    forall t | 0 <= t < i || i + |x| <= t < i + |x| + (n - i)
      ensures f(t) == 0.0
    {
      Vanishes(x, t - i, t - i - d);
    }
    forall t | 0 <= t < |x|
      ensures g(t) == f(i + t)
    {
      assert i + t - i == t;
    }
    SumWindow(i, |x|, n - i, f, g);
  }

  lemma DelaysCorrelate(x: seq<real>, i: nat, j: nat, n: nat, f: int -> real)
    requires i < n && j < n
    requires forall t {:trigger f(t)} :: 0 <= t < |x| + n ==> f(t) == Pair(x, t - i, t - j)
    ensures Sum(|x| + n, f) == Lag(Coefficients(x, n), i - j)
  {
    assert Lag(Coefficients(x, n), i - j) == Autocorrelation(x, FixedPoint.Abs(i - j));
    if i <= j {
      forall t | 0 <= t < |x| + n
        ensures f(t) == Pair(x, t - i, t - i - (j - i))
      {
        hide Pair;
        assert t - i - (j - i) == t - j;
      }
      DelayedCopies(x, i, j - i, n, f);
    } else {
      forall t | 0 <= t < |x| + n
        ensures f(t) == Pair(x, t - j, t - j - (i - j))
      {
        PairCommutes(x, t - i, t - j);
        assert t - j - (i - j) == t - i;
      }
      DelayedCopies(x, j, i - j, n, f);
    }
  }

  lemma PairCommutes(x: seq<real>, a: int, b: int)
    ensures Pair(x, a, b) == Pair(x, b, a)
  {
  }

  /** The signal filtered by v: sum over j of v[j] * x[t-j]. */
  function Filtered(v: seq<real>, x: seq<real>, t: int): real {
    Sum(|v|, j => Tap(v, x, t, j))
  }

  /** One tap of the filter. */
  function Tap(v: seq<real>, x: seq<real>, t: int, j: int): real {
    At(v, j) * At(x, t - j)
  }

  /** The signal delayed by i against the filtered one. */
  function Against(v: seq<real>, x: seq<real>, i: int, t: int): real {
    At(x, t - i) * Filtered(v, x, t)
  }

  /** Scaling a filtered sample, term by term. */
  lemma ScaledFiltered(v: seq<real>, x: seq<real>, t: int, c: real, f: int -> real)
    requires forall j {:trigger f(j)} :: 0 <= j < |v| ==> f(j) == c * Tap(v, x, t, j)
    ensures Sum(|v|, f) == c * Filtered(v, x, t)
  {
    hide Tap;
    SumScale(|v|, j => Tap(v, x, t, j), f, c);
  }

  lemma ScaledDelays(x: seq<real>, i: nat, j: nat, n: nat, c: real, f: int -> real)
    requires i < n && j < n
    requires forall t {:trigger f(t)} :: 0 <= t < |x| + n ==> f(t) == Times(c, At(x, t - i), At(x, t - j))
    ensures Sum(|x| + n, f) == c * Lag(Coefficients(x, n), i - j)
  {
    hide At, Lag;
    var product := (t: int) => Pair(x, t - i, t - j);
    DelaysCorrelate(x, i, j, n, product);
    SumScale(|x| + n, product, f, c);
  }

  /** A delayed signal against the filtered one gives a row of the Toeplitz matrix. */
  lemma FilteredRow(v: seq<real>, x: seq<real>, i: nat, f: int -> real)
    requires i < |v|
    requires forall t {:trigger f(t)} :: 0 <= t < |x| + |v| ==> f(t) == Against(v, x, i, t)
    ensures Sum(|x| + |v|, f) == Row(v, Coefficients(x, |v|), i, |v|)
  {
    hide At, Lag, Times, Filtered;
    var n := |v|;
    var g := (t: int, j: int) => Times(At(v, j), At(x, t - i), At(x, t - j));
    var columns := (j: int) => At(v, j) * Lag(Coefficients(x, n), i - j);
    forall t | 0 <= t < |x| + n
      ensures f(t) == Sum(n, j => g(t, j))
    {
      forall j | 0 <= j < n
        ensures g(t, j) == At(x, t - i) * Tap(v, x, t, j)
      {
        TimesCommutes(At(v, j), At(x, t - i), At(x, t - j));
      }
      ScaledFiltered(v, x, t, At(x, t - i), j => g(t, j));
    }
    forall j | 0 <= j < n
      ensures columns(j) == Sum(|x| + n, t => g(t, j))
    {
      ScaledDelays(x, i, j, n, At(v, j), t => g(t, j));
    }
    SumSwapNamed(|x| + n, n, g, f, columns);
  }

  lemma ScaledFilteredRow(v: seq<real>, x: seq<real>, i: nat, c: real, f: int -> real)
    requires i < |v|
    requires forall t {:trigger f(t)} :: 0 <= t < |x| + |v| ==> f(t) == c * Against(v, x, i, t)
    ensures Sum(|x| + |v|, f) == c * Row(v, Coefficients(x, |v|), i, |v|)
  {
    hide At, Row, Against;
    var product := (t: int) => Against(v, x, i, t);
    FilteredRow(v, x, i, product);
    SumScale(|x| + |v|, product, f, c);
  }

  lemma TimesAgainst(v: seq<real>, x: seq<real>, i: int, t: int)
    ensures Times(At(v, i), At(x, t - i), Filtered(v, x, t)) == At(v, i) * Against(v, x, i, t)
  {
    hide At, Filtered;
  }

  /** The quadratic form of v is the energy of the filtered signal. */
  lemma FormIsFilteredEnergy(v: seq<real>, x: seq<real>)
    ensures Form(v, v, Coefficients(x, |v|), |v|)
         == Sum(|x| + |v|, t => Filtered(v, x, t) * Filtered(v, x, t))
  {
    hide At, Row, Times, Filtered;
    var n := |v|;
    var r := Coefficients(x, n);
    var g := (t: int, i: int) => Times(At(v, i), At(x, t - i), Filtered(v, x, t));
    var rows := (t: int) => Filtered(v, x, t) * Filtered(v, x, t);
    var columns := (i: int) => At(v, i) * Row(v, r, i, n);
    forall t | 0 <= t < |x| + n
      ensures rows(t) == Sum(n, i => g(t, i))
    {
      forall i | 0 <= i < n
        ensures g(t, i) == Filtered(v, x, t) * Tap(v, x, t, i)
      {
        Rotate(At(v, i), At(x, t - i), Filtered(v, x, t));
      }
      ScaledFiltered(v, x, t, Filtered(v, x, t), i => g(t, i));
    }
    forall i | 0 <= i < n
      ensures columns(i) == Sum(|x| + n, t => g(t, i))
    {
      forall t | 0 <= t < |x| + n
        ensures g(t, i) == At(v, i) * Against(v, x, i, t)
      {
        TimesAgainst(v, x, i, t);
      }
      ScaledFilteredRow(v, x, i, At(v, i), t => g(t, i));
    }
    SumSwapNamed(|x| + n, n, g, rows, columns);
  }

  lemma Rotate(x: real, y: real, l: real)
    ensures Times(x, y, l) == l * (x * y)
  {
  }

  lemma Square(x: real)
    ensures x * x >= 0.0
  {
  }

  lemma {:induction false} FormPrefix(v: seq<real>, r: seq<real>, s: seq<real>)
    requires forall k :: 0 <= k < |v| ==> At(r, k) == At(s, k)
    ensures Form(v, v, r, |v|) == Form(v, v, s, |v|)
  {
    hide At;
    var n := |v|;
    var f := (i: int) => At(v, i) * Row(v, r, i, n);
    var g := (i: int) => At(v, i) * Row(v, s, i, n);
    forall i | 0 <= i < n
      ensures f(i) == g(i)
    {
      var k := (j: int) => At(v, j) * Lag(r, i - j);
      forall j | 0 <= j < n
        ensures k(j) == At(v, j) * Lag(s, i - j)
      {
        assert Lag(r, i - j) == Lag(s, i - j);
      }
      SumCong(n, j => At(v, j) * Lag(r, i - j), j => At(v, j) * Lag(s, i - j));
    }
    SumCong(n, f, g);
  }

  lemma SignalIsPositiveSemidefinite(x: seq<real>, n: nat)
    ensures PositiveSemidefinite(Coefficients(x, n), n)
  {
    forall v: seq<real> | |v| <= n
      ensures Form(v, v, Coefficients(x, n), |v|) >= 0.0
    {
      FormPrefix(v, Coefficients(x, n), Coefficients(x, |v|));
      FormIsFilteredEnergy(v, x);
      var energy := (t: int) => Filtered(v, x, t) * Filtered(v, x, t);
      forall t | 0 <= t < |x| + |v|
        ensures energy(t) >= 0.0
      {
        Square(Filtered(v, x, t));
      }
      SumNonNegative(|x| + |v|, energy);
    }
  }

  /** Coefficientwise r + c * s. */
  function Combine(r: seq<real>, s: seq<real>, c: real): seq<real>
    requires |r| == |s|
  {
    seq(|r|, k requires 0 <= k < |r| => r[k] + c * s[k])
  }

  lemma RowLinearInLags(a: seq<real>, r: seq<real>, s: seq<real>, c: real, m: int, n: nat)
    requires |r| == |s|
    ensures Row(a, Combine(r, s, c), m, n) == Row(a, r, m, n) + c * Row(a, s, m, n)
  {
    var t := Combine(r, s, c);
    var f := (j: int) => At(a, j) * Lag(r, m - j);
    var g := (j: int) => At(a, j) * Lag(s, m - j);
    var h := (j: int) => At(a, j) * Lag(t, m - j);
    forall j | 0 <= j < n
      ensures h(j) == f(j) + c * g(j)
    {
      assert Lag(t, m - j) == Lag(r, m - j) + c * Lag(s, m - j);
      Distribute(Lag(r, m - j), Lag(s, m - j), c, At(a, j));
    }
    SumLinear(n, f, g, h, c);
  }

  /** Adding a non-negative multiple of the autocorrelation of another frame keeps the property. */
  lemma CombinedIsPositiveSemidefinite(r: seq<real>, s: seq<real>, c: real, n: nat)
    requires |r| == |s| && c >= 0.0
    requires PositiveSemidefinite(r, n) && PositiveSemidefinite(s, n)
    ensures PositiveSemidefinite(Combine(r, s, c), n)
  {
    hide At, Row;
    var t := Combine(r, s, c);
    forall v: seq<real> | |v| <= n
      ensures Form(v, v, t, |v|) >= 0.0
    {
      var f := (i: int) => At(v, i) * Row(v, r, i, |v|);
      var g := (i: int) => At(v, i) * Row(v, s, i, |v|);
      var h := (i: int) => At(v, i) * Row(v, t, i, |v|);
      forall i | 0 <= i < |v|
        ensures h(i) == f(i) + c * g(i)
      {
        RowLinearInLags(v, r, s, c, i, |v|);
        Distribute(Row(v, r, i, |v|), Row(v, s, i, |v|), c, At(v, i));
      }
      SumLinear(|v|, f, g, h, c);
      assert Form(v, v, r, |v|) >= 0.0 && Form(v, v, s, |v|) >= 0.0;
    }
  }
}
