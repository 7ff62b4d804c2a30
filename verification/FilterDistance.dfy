/** The LPC filter distance of dtx.c: autocorrelation of the filter against that of the signal. */
module FilterDistance {
  import opened RealSums
  import opened LevinsonDurbin
  import opened QuadraticForms

  /** Coefficient j of the autocorrelation of a filter with n taps; doubled except at lag 0. */
  function FilterAutocorrelation(a: seq<real>, j: nat, n: nat): real
    requires j <= n
  {
    if j == 0 then Sum(n, k => At(a, k) * At(a, k)) else 2.0 * Sum(n - j, k => At(a, k) * At(a, k + j))
  }

  function Distance(a: seq<real>, r: seq<real>, n: nat): real {
    Sum(n, j => Weighted(a, r, n, j))
  }

  function Weighted(a: seq<real>, r: seq<real>, n: nat, j: int): real {
    if 0 <= j <= n then FilterAutocorrelation(a, j, n) * At(r, j) else 0.0
  }

  /** Growth of the quadratic form by one tap. */
  lemma FormGrows(a: seq<real>, r: seq<real>, n: nat)
    ensures Form(a, a, r, n + 1)
         == Form(a, a, r, n) + 2.0 * (At(a, n) * Row(a, r, n, n)) + At(a, n) * (At(a, n) * Lag(r, 0))
  {
    hide At, Lag;
    var c := At(a, n);
    var f := (i: int) => At(a, i) * Row(a, r, i, n);
    var g := (i: int) => At(a, i) * Lag(r, n - i);
    var h := (i: int) => At(a, i) * Row(a, r, i, n + 1);
    forall i | 0 <= i < n
      ensures h(i) == f(i) + c * g(i)
    {
      assert Lag(r, n - i) == Lag(r, i - n) by { LagEven(r, n - i); }
      assert Row(a, r, i, n + 1) == Row(a, r, i, n) + c * Lag(r, i - n);
      Distribute(Row(a, r, i, n), Lag(r, n - i), c, At(a, i));
    }
    SumLinear(n, f, g, h, c);
    assert Sum(n, g) == Row(a, r, n, n);
    LastTap(c, Row(a, r, n, n), Lag(r, 0));
    assert n - n == 0;
  }

  lemma LagEven(r: seq<real>, d: int)
    ensures Lag(r, d) == Lag(r, -d)
  {
  }

  lemma LastTap(c: real, row: real, l: real)
    ensures c * row + c * (row + c * l) == 2.0 * (c * row) + c * (c * l)
  {
  }

  /** Growth of one filter autocorrelation coefficient by one tap. */
  lemma FilterAutocorrelationGrows(a: seq<real>, j: nat, n: nat)
    requires j <= n
    ensures FilterAutocorrelation(a, j, n + 1)
         == FilterAutocorrelation(a, j, n) + At(a, n) * (if j == 0 then At(a, n) else 2.0 * At(a, n - j))
  {
    hide At;
    if j > 0 {
      assert n - j + j == n;
      var f := (k: int) => At(a, k) * At(a, k + j);
      assert Sum(n + 1 - j, f) == Sum(n - j, f) + At(a, n - j) * At(a, n);
    }
  }

  /** The new terms that tap n adds to the distance. */
  function NewTerm(a: seq<real>, r: seq<real>, n: nat, j: int): real {
    (if j == 0 then At(a, n) else 2.0 * At(a, n - j)) * At(r, j)
  }

  lemma NewTermsSum(a: seq<real>, r: seq<real>, n: nat)
    ensures Sum(n + 1, j => NewTerm(a, r, n, j)) == 2.0 * Row(a, r, n, n) + At(a, n) * Lag(r, 0)
  {
    hide At, NewTerm;
    var f := (j: int) => NewTerm(a, r, n, j);
    var tail := (j: int) => NewTerm(a, r, n, 1 + j);
    SumSplit(1, n, f, tail);
    FirstNewTerm(a, r, n);
    assert Sum(1, f) == Sum(0, f) + f(0);
    LaterNewTerms(a, r, n, tail);
  }

  lemma LaterNewTerms(a: seq<real>, r: seq<real>, n: nat, f: int -> real)
    requires forall j {:trigger f(j)} :: 0 <= j < n ==> f(j) == NewTerm(a, r, n, 1 + j)
    ensures Sum(n, f) == 2.0 * Row(a, r, n, n)
  {
    hide At, Lag, NewTerm;
    var g := (i: int) => At(a, i) * Lag(r, n - i);
    var mirrored := (j: int) => g(n - 1 - j);
    SumReverse(n, g, mirrored);
    forall j | 0 <= j < n
      ensures f(j) == 2.0 * mirrored(j)
    {
      MirroredTerm(a, r, n, j);
    }
    SumScale(n, mirrored, f, 2.0);
  }

  lemma FirstNewTerm(a: seq<real>, r: seq<real>, n: nat)
    ensures NewTerm(a, r, n, 0) == At(a, n) * Lag(r, 0)
  {
  }

  lemma MirroredTerm(a: seq<real>, r: seq<real>, n: nat, j: nat)
    requires j < n
    ensures NewTerm(a, r, n, 1 + j) == 2.0 * (At(a, n - 1 - j) * Lag(r, n - (n - 1 - j)))
  {
    assert n - (1 + j) == n - 1 - j && n - (n - 1 - j) == 1 + j;
    assert Lag(r, 1 + j) == At(r, 1 + j);
  }

  lemma WeightedGrows(a: seq<real>, r: seq<real>, n: nat, j: nat)
    requires j <= n
    ensures Weighted(a, r, n + 1, j) == Weighted(a, r, n, j) + At(a, n) * NewTerm(a, r, n, j)
  {
    hide At, FilterAutocorrelation;
    FilterAutocorrelationGrows(a, j, n);
    var w := if j == 0 then At(a, n) else 2.0 * At(a, n - j);
    Distribute(FilterAutocorrelation(a, j, n), w, At(a, n), At(r, j));
  }

  lemma DistanceGrows(a: seq<real>, r: seq<real>, n: nat)
    ensures Distance(a, r, n + 1) == Distance(a, r, n) + At(a, n) * (2.0 * Row(a, r, n, n) + At(a, n) * Lag(r, 0))
  {
    hide At, Weighted, NewTerm, Lag, Row;
    var f := (j: int) => Weighted(a, r, n, j);
    var g := (j: int) => NewTerm(a, r, n, j);
    var h := (j: int) => Weighted(a, r, n + 1, j);
    forall j | 0 <= j < n + 1
      ensures h(j) == f(j) + At(a, n) * g(j)
    {
      WeightedGrows(a, r, n, j);
    }
    SumLinear(n + 1, f, g, h, At(a, n));
    NewTermsSum(a, r, n);
    LastLagEmpty(a, r, n);
  }

  lemma LastLagEmpty(a: seq<real>, r: seq<real>, n: nat)
    ensures Weighted(a, r, n, n) == 0.0
  {
    hide At;
    assert FilterAutocorrelation(a, n, n) == 0.0;
  }

  lemma SpreadGrowth(c: real, row: real, l: real)
    ensures c * (2.0 * row + c * l) == 2.0 * (c * row) + c * (c * l)
  {
  }

  /** The distance is the quadratic form of the filter, for every filter and every autocorrelation. */
  lemma {:induction false} DistanceIsForm(a: seq<real>, r: seq<real>, n: nat)
    ensures Distance(a, r, n) == Form(a, a, r, n)
  {
    hide At, Row, Weighted;
    if n > 0 {
      DistanceIsForm(a, r, n - 1);
      DistanceGrows(a, r, n - 1);
      FormGrows(a, r, n - 1);
      SpreadGrowth(At(a, n - 1), Row(a, r, n - 1, n - 1), Lag(r, 0));
    }
  }

  /** A filter is compared with the least energy any monic filter can reach, met by the Levinson-Durbin filter. */
  lemma DistanceAtLeastResidualEnergy(b: seq<real>, r: seq<real>, p: nat)
    requires Regular(r, p) && PositiveSemidefinite(r, p + 1)
    requires |b| == p + 1 && b[0] == 1.0
    ensures Distance(b, r, p + 1) >= Levinson(r, p).e
    ensures Distance(Levinson(r, p).a, r, p + 1) == Levinson(r, p).e
  {
    DistanceIsForm(b, r, p + 1);
    DistanceIsForm(Levinson(r, p).a, r, p + 1);
    LevinsonIsOptimal(b, r, p);
  }
}
