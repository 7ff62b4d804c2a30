/** The two kinds of sums agree on integers. */
module SumConversion {
  import I = IntSums
  import R = RealSums

  lemma {:induction false} SumAsReal(n: nat, f: int -> int, g: int -> real)
    requires forall i {:trigger g(i)} :: 0 <= i < n ==> g(i) == f(i) as real
    ensures R.Sum(n, g) == I.Sum(n, f) as real
  {
    if n > 0 {
      SumAsReal(n - 1, f, g);
      assert g(n - 1) == f(n - 1) as real;
    }
  }

  function AsReals(s: seq<int>): seq<real> {
    seq(|s|, i requires 0 <= i < |s| => s[i] as real)
  }

  lemma AtAsReal(s: seq<int>, i: int)
    ensures R.At(AsReals(s), i) == I.At(s, i) as real
  {
  }

  lemma ProductAsReal(x: int, y: int)
    ensures (x * y) as real == x as real * y as real
  {
  }
}
