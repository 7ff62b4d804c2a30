/** Ordering and spacing of the quantised LSFs, common to encoder, decoder and noise coding. */
module LsfStability {
  import opened FixedPoint

  const QLSF_MIN := 40
  const QLSF_MAX := 25681
  const MIN_QLSF_DISTANCE := 321

  ghost predicate Ordered(s: seq<int>) {
    forall i, j :: 0 <= i < j < |s| ==> s[i] <= s[j]
  }

  predicate Words(s: seq<int>) {
    forall i :: 0 <= i < |s| ==> Fits16(s[i])
  }

  /** Puts x after the last element not above it. */
  function Insert(x: int, s: seq<int>): (r: seq<int>)
    ensures |r| == |s| + 1
  {
    if |s| == 0 || s[|s| - 1] <= x then s + [x] else Insert(x, s[..|s| - 1]) + [s[|s| - 1]]
  }

  function Sort(s: seq<int>): (r: seq<int>)
    ensures |r| == |s|
  {
    if |s| == 0 then [] else Insert(s[|s| - 1], Sort(s[..|s| - 1]))
  }

  lemma {:induction false} InsertPermutes(x: int, s: seq<int>)
    ensures multiset(Insert(x, s)) == multiset(s) + multiset{x}
  {
    if !(|s| == 0 || s[|s| - 1] <= x) {
      InsertPermutes(x, s[..|s| - 1]);
      assert s == s[..|s| - 1] + [s[|s| - 1]];
    }
  }

  lemma {:induction false} InsertOrders(x: int, s: seq<int>, top: int)
    requires Ordered(s) && x <= top && (forall i :: 0 <= i < |s| ==> s[i] <= top)
    ensures Ordered(Insert(x, s)) && forall i :: 0 <= i < |Insert(x, s)| ==> Insert(x, s)[i] <= top
  {
    if !(|s| == 0 || s[|s| - 1] <= x) {
      InsertOrders(x, s[..|s| - 1], s[|s| - 1]);
    }
  }

  lemma {:induction false} SortPermutes(s: seq<int>)
    ensures multiset(Sort(s)) == multiset(s)
  {
    if |s| > 0 {
      SortPermutes(s[..|s| - 1]);
      InsertPermutes(s[|s| - 1], Sort(s[..|s| - 1]));
      assert s == s[..|s| - 1] + [s[|s| - 1]];
    }
  }

  lemma {:induction false} SortIsOrdered(s: seq<int>)
    ensures Ordered(Sort(s))
  {
    if |s| > 0 {
      SortIsOrdered(s[..|s| - 1]);
      var t := Sort(s[..|s| - 1]);
      var x := s[|s| - 1];
      InsertOrders(x, t, if |t| > 0 && t[|t| - 1] > x then t[|t| - 1] else x);
    }
  }

  /** The result is the ordered permutation of the input. */
  lemma SortOrders(s: seq<int>)
    ensures Ordered(Sort(s)) && multiset(Sort(s)) == multiset(s)
  {
    SortIsOrdered(s);
    SortPermutes(s);
  }

  /** s with the elements from j + 1 up to i - 1 moved up by one, element j + 1 free. */
  ghost predicate Opened(t: seq<int>, s: seq<int>, j: int, i: int) {
    && |t| == |s| && -1 <= j < i < |s|
    && (forall k :: 0 <= k <= j ==> t[k] == s[k])
    && (forall k :: j + 1 < k <= i ==> t[k] == s[k - 1])
    && forall k :: i < k < |s| ==> t[k] == s[k]
  }

  lemma OpenedFurther(t: seq<int>, s: seq<int>, j: int, i: int)
    requires Opened(t, s, j, i) && j >= 0
    ensures Opened(t[j + 1 := t[j]], s, j - 1, i)
  {
  }

  lemma Closed(t: seq<int>, s: seq<int>, j: int, i: int, v: int)
    requires Opened(t, s, j, i)
    ensures var r := t[j + 1 := v];
            r[..i + 1] == s[..j + 1] + [v] + s[j + 1..i] && r[i + 1..] == s[i + 1..]
  {
  }

  /** Moves element i down to its place among its ordered predecessors. */
  method InsertInPlace(x: array<int>, i: nat)
    requires 0 < i < x.Length
    modifies x
    ensures x[..i + 1] == Insert(old(x[i]), old(x[..i])) && x[i + 1..] == old(x[i + 1..])
  {
    hide Insert, Opened;
    var currentValue := x[i];
    ghost var s := x[..];
    ghost var before := s[..i];
    var j := i - 1;
    OpenedAtFirst(s, i);
    assert before[..j + 1] == before;
    while j >= 0 && x[j] > currentValue
      invariant -1 <= j < i
      invariant Opened(x[..], s, j, i)
      invariant Insert(currentValue, before) == Insert(currentValue, before[..j + 1]) + before[j + 1..]
    {
      Untouched(x[..], s, j, i);
      ShiftOne(currentValue, before, j);
      OpenedFurther(x[..], s, j, i);
      ghost var t := x[..];
      x[j + 1] := x[j];
      assert x[..] == t[j + 1 := t[j]];
      j := j - 1;
    }
    Untouched(x[..], s, j, i);
    InsertAtEnd(currentValue, before[..j + 1]);
    Closed(x[..], s, j, i, currentValue);
    ghost var t := x[..];
    x[j + 1] := currentValue;
    assert x[..] == t[j + 1 := currentValue];
    assert before[..j + 1] == s[..j + 1] && before[j + 1..] == s[j + 1..i];
    assert x[..i + 1] == x[..][..i + 1] && x[i + 1..] == x[..][i + 1..];
  }

  lemma OpenedAtFirst(s: seq<int>, i: nat)
    requires i < |s|
    ensures Opened(s, s, i - 1, i)
  {
  }

  lemma Untouched(t: seq<int>, s: seq<int>, j: int, i: int)
    requires Opened(t, s, j, i)
    ensures j >= 0 ==> t[j] == s[j] == s[..i][j]
    ensures j >= 0 ==> s[..i][..j + 1][j] == s[j]
  {
  }

  lemma InsertAtEnd(x: int, s: seq<int>)
    requires |s| == 0 || s[|s| - 1] <= x
    ensures Insert(x, s) == s + [x]
  {
  }

  lemma ShiftOne(x: int, s: seq<int>, j: nat)
    requires j < |s| && s[j] > x
    ensures Insert(x, s[..j + 1]) + s[j + 1..] == Insert(x, s[..j]) + s[j..]
  {
    assert s[..j + 1][..j] == s[..j];
    assert s[j..] == [s[j]] + s[j + 1..];
  }

  lemma SortNext(s: seq<int>, i: nat)
    requires i < |s|
    ensures Sort(s[..i + 1]) == Insert(s[i], Sort(s[..i]))
  {
    assert s[..i + 1][..i] == s[..i];
  }

  lemma SortFirst(s: seq<int>)
    requires |s| > 0
    ensures Sort(s[..1]) == s[..1]
  {
    assert s[..1][..0] == [] && Sort([]) == [];
  }

  method InsertionSort(x: array<int>)
    modifies x
    ensures x[..] == Sort(old(x[..]))
  {
    hide Insert, Sort;
    ghost var s := x[..];
    if x.Length == 0 {
      SortNothing(s);
      return;
    }
    SortFirst(s);
    var i := 1;
    while i < x.Length
      invariant 1 <= i <= x.Length && x[..i] == Sort(s[..i]) && x[i..] == s[i..]
    {
      assert x[i] == x[i..][0] == s[i];
      assert x[i + 1..] == x[i..][1..] && s[i + 1..] == s[i..][1..];
      SortNext(s, i);
      InsertInPlace(x, i);
      i := i + 1;
    }
    assert s[..x.Length] == s && x[..x.Length] == x[..];
  }

  lemma SortNothing(s: seq<int>)
    requires |s| == 0
    ensures Sort(s) == s
  {
  }

  /** The minimum-distance pass, with the 16-bit store of the code. */
  function Spaced(s: seq<int>): (r: seq<int>)
    ensures |r| == |s|
  {
    if |s| <= 1 then s
    else
      var r := Spaced(s[..|s| - 1]);
      r + [if s[|s| - 1] - r[|r| - 1] < MIN_QLSF_DISTANCE then Cast16(r[|r| - 1] + MIN_QLSF_DISTANCE) else s[|s| - 1]]
  }

  /** Where k alone would push element i. */
  function Pushed(s: seq<int>, k: nat, i: nat): int
    requires k <= i < |s|
  {
    s[k] + MIN_QLSF_DISTANCE * (i - k)
  }

  ghost predicate Gaps(s: seq<int>, n: nat)
    requires n <= |s|
  {
    forall i :: 0 <= i < n - 1 ==> s[i + 1] - s[i] >= MIN_QLSF_DISTANCE
  }

  /** No pushed value leaves 16 bits. */
  ghost predicate Room(s: seq<int>) {
    forall k, i :: 0 <= k <= i < |s| ==> Pushed(s, k, i) <= MAXINT16
  }

  /** Element i becomes the largest of the values its predecessors and itself push it to. */
  lemma {:induction false} SpacedIsMaximum(s: seq<int>, i: nat)
    requires i < |s| && Words(s) && Room(s)
    ensures forall k :: 0 <= k <= i ==> Spaced(s)[i] >= Pushed(s, k, i)
    ensures exists k :: 0 <= k <= i && Spaced(s)[i] == Pushed(s, k, i)
  {
    var t := s[..|s| - 1];
    if |s| == 1 {
      assert Spaced(s)[i] == Pushed(s, 0, i);
    } else {
      assert forall k, j :: 0 <= k <= j < |t| ==> Pushed(t, k, j) == Pushed(s, k, j);
      if i < |t| {
        SpacedIsMaximum(t, i);
        var k :| 0 <= k <= i && Spaced(t)[i] == Pushed(t, k, i);
        assert Spaced(s)[i] == Pushed(s, k, i);
      } else {
        SpacedIsMaximum(t, i - 1);
        var k :| 0 <= k <= i - 1 && Spaced(t)[i - 1] == Pushed(t, k, i - 1);
        assert Pushed(s, k, i) == Spaced(t)[i - 1] + MIN_QLSF_DISTANCE;
        assert Pushed(s, i, i) == s[i];
        forall m | 0 <= m <= i
          ensures Spaced(s)[i] >= Pushed(s, m, i)
        {
          assert m < i ==> Spaced(t)[i - 1] >= Pushed(t, m, i - 1);
        }
        assert Spaced(s)[i] == Pushed(s, k, i) || Spaced(s)[i] == Pushed(s, i, i);
      }
    }
  }

  /** Of all well-spaced vectors not below the input the pass returns the pointwise least. */
  lemma {:induction false} SpacedIsLeast(s: seq<int>, t: seq<int>, i: nat)
    requires i < |s| == |t| && Words(s) && Room(s)
    requires Gaps(t, |t|) && forall k :: 0 <= k < |s| ==> t[k] >= s[k]
    ensures s[i] <= Spaced(s)[i] <= t[i]
  {
    SpacedIsMaximum(s, i);
    assert Spaced(s)[i] >= Pushed(s, i, i);
    var k :| 0 <= k <= i && Spaced(s)[i] == Pushed(s, k, i);
    GapsAddUp(t, k, i);
  }

  lemma {:induction false} GapsAddUp(t: seq<int>, k: nat, i: nat)
    requires k <= i < |t| && Gaps(t, |t|)
    ensures t[i] >= t[k] + MIN_QLSF_DISTANCE * (i - k)
  {
    if k < i {
      GapsAddUp(t, k, i - 1);
      assert t[i - 1 + 1] - t[i - 1] >= MIN_QLSF_DISTANCE;
    }
  }

  /** The pass spaces its output exactly when no value has to leave 16 bits. */
  lemma {:induction false} SpacedIffRoom(s: seq<int>)
    requires Words(s)
    ensures Words(Spaced(s)) && (Gaps(Spaced(s), |s|) <==> Room(s))
  {
    var r := Spaced(s);
    SpacedWords(s);
    if Room(s) {
      forall i | 0 <= i < |s| - 1
        ensures r[i + 1] - r[i] >= MIN_QLSF_DISTANCE
      {
        SpacedIsMaximum(s, i);
        SpacedIsMaximum(s, i + 1);
        var k :| 0 <= k <= i && r[i] == Pushed(s, k, i);
        assert r[i + 1] >= Pushed(s, k, i + 1);
      }
    } else if Gaps(r, |s|) {
      var k, i :| 0 <= k <= i < |s| && Pushed(s, k, i) > MAXINT16;
      GapsAddUp(r, k, i);
      SpacedNotBelow(s, k);
      assert false;
    }
  }

  lemma {:induction false} SpacedWords(s: seq<int>)
    requires Words(s)
    ensures Words(Spaced(s))
  {
    if |s| > 1 {
      SpacedWords(s[..|s| - 1]);
    }
  }

  /** A store that wraps goes below its predecessor, so a spaced output never fell below the input. */
  lemma {:induction false} SpacedNotBelow(s: seq<int>, k: nat)
    requires k < |s| && Words(s) && Gaps(Spaced(s), |s|)
    ensures Spaced(s)[k] >= s[k]
  {
    if |s| > 1 {
      var t := s[..|s| - 1];
      var r := Spaced(s);
      assert r[..|t|] == Spaced(t);
      if k < |t| {
        forall i | 0 <= i < |t| - 1
          ensures Spaced(t)[i + 1] - Spaced(t)[i] >= MIN_QLSF_DISTANCE
        {
          assert r[..|t|][i + 1] == r[i + 1] && r[..|t|][i] == r[i] && r[i + 1] - r[i] >= MIN_QLSF_DISTANCE;
        }
        SpacedNotBelow(t, k);
      } else {
        assert r[|t| - 1 + 1] - r[|t| - 1] >= MIN_QLSF_DISTANCE;
        SpacedWords(t);
        assert Fits16(Spaced(t)[|t| - 1]);
      }
    }
  }

  /** The low limit, which the code applies to the second element. */
  function LowLimited(s: seq<int>): seq<int>
    requires |s| >= 2
  {
    if s[1] < QLSF_MIN then s[1 := QLSF_MIN] else s
  }

  function HighLimited(s: seq<int>): seq<int>
    requires |s| >= 2
  {
    if s[|s| - 1] > QLSF_MAX then s[|s| - 1 := QLSF_MAX] else s
  }

  /** Sort, low limit, spacing, high limit. */
  function Stable(s: seq<int>): (r: seq<int>)
    requires |s| >= 2
    ensures |r| == |s|
  {
    HighLimited(Spaced(LowLimited(Sort(s))))
  }

  lemma SpacedStep(s: seq<int>, n: nat)
    requires 1 <= n < |s|
    ensures var r := Spaced(s[..n]);
            Spaced(s[..n + 1]) == r
              + [if s[n] - r[n - 1] < MIN_QLSF_DISTANCE then Cast16(r[n - 1] + MIN_QLSF_DISTANCE) else s[n]]
  {
    assert s[..n + 1][..n] == s[..n];
  }

  method SpaceInPlace(x: array<int>)
    modifies x
    ensures x[..] == Spaced(old(x[..]))
  {
    hide Cast16;
    ghost var s := x[..];
    assert x.Length > 0 ==> x[..1] == Spaced(s[..1]);
    hide Spaced;
    var i := 0;
    while i < x.Length - 1
      invariant 0 <= i && (i <= x.Length - 1 || x.Length == 0)
      invariant x.Length > 0 ==> x[..i + 1] == Spaced(s[..i + 1]) && forall k :: i < k < x.Length ==> x[k] == s[k]
    {
      SpacedStep(s, i + 1);
      assert x[i] == x[..i + 1][i];
      if x[i + 1] - x[i] < MIN_QLSF_DISTANCE {
        x[i + 1] := Cast16(x[i] + MIN_QLSF_DISTANCE);
      }
      assert x[..i + 2] == x[..i + 1] + [x[i + 1]];
      i := i + 1;
    }
    if x.Length > 0 {
      assert s[..x.Length] == s;
    }
  }

  /** The stability pass of the three quantisers. */
  method Stabilise(x: array<int>)
    requires x.Length >= 2
    modifies x
    ensures x[..] == Stable(old(x[..]))
  {
    InsertionSort(x);
    if x[1] < QLSF_MIN {
      x[1] := QLSF_MIN;
    }
    assert x[..] == LowLimited(Sort(old(x[..])));
    SpaceInPlace(x);
    if x[x.Length - 1] > QLSF_MAX {
      x[x.Length - 1] := QLSF_MAX;
    }
  }

  lemma SortedWords(s: seq<int>)
    requires |s| >= 2 && Words(s)
    ensures Words(Sort(s)) && Words(LowLimited(Sort(s)))
  {
    SortOrders(s);
    var r := Sort(s);
    forall i | 0 <= i < |r|
      ensures Fits16(r[i])
    {
      assert r[i] in multiset(r);
      assert r[i] in multiset(s);
    }
  }

  /** Ten values up to 29878 always leave room. */
  lemma TenHaveRoom(s: seq<int>)
    requires |s| == 10 && Words(s) && forall i :: 0 <= i < 10 ==> s[i] <= MAXINT16 - 9 * MIN_QLSF_DISTANCE
    ensures Room(LowLimited(Sort(s)))
  {
    SortOrders(s);
    var r := Sort(s);
    hide Sort;
    forall i | 0 <= i < 10
      ensures r[i] <= MAXINT16 - 9 * MIN_QLSF_DISTANCE
    {
      assert r[i] in multiset(r);
      assert r[i] in multiset(s);
    }
  }

  lemma HighLimitOrder(u: seq<int>)
    requires |u| >= 2 && Gaps(u, |u|)
    ensures var r := HighLimited(u);
            Gaps(r, |u| - 1) && r[|u| - 1] <= QLSF_MAX && (Ordered(r) <==> r[|u| - 2] <= QLSF_MAX)
  {
    var r := HighLimited(u);
    assert u[|u| - 2 + 1] - u[|u| - 2] >= MIN_QLSF_DISTANCE;
    if r[|u| - 2] <= QLSF_MAX {
      forall i, j | 0 <= i < j < |r|
        ensures r[i] <= r[j]
      {
        GapsAddUp(u, i, if j < |r| - 1 then j else |r| - 2);
      }
    } else {
      assert r[|u| - 2] > r[|u| - 1];
    }
  }

  /** After the high limit all gaps but the last are kept, and the last pair is in order exactly when its lower
      member is in range. */
  lemma StableOrder(s: seq<int>)
    requires |s| >= 2 && Words(s) && Room(LowLimited(Sort(s)))
    ensures Gaps(Stable(s), |s| - 1) && Stable(s)[|s| - 1] <= QLSF_MAX
    ensures Ordered(Stable(s)) <==> Stable(s)[|s| - 2] <= QLSF_MAX
  {
    SortedWords(s);
    hide Sort, Spaced, LowLimited;
    SpacedIffRoom(LowLimited(Sort(s)));
    HighLimitOrder(Spaced(LowLimited(Sort(s))));
  }

  lemma {:induction false} SortFixes(s: seq<int>)
    requires Ordered(s)
    ensures Sort(s) == s
  {
    if |s| > 0 {
      SortFixes(s[..|s| - 1]);
      assert s == s[..|s| - 1] + [s[|s| - 1]];
    }
  }

  lemma {:induction false} SpacedFixes(s: seq<int>)
    requires Gaps(s, |s|)
    ensures Spaced(s) == s
  {
    if |s| > 1 {
      var t := s[..|s| - 1];
      SpacedFixes(t);
      assert s[|s| - 2 + 1] - s[|s| - 2] >= MIN_QLSF_DISTANCE;
      assert s == t + [s[|s| - 1]];
    }
  }

  /** A vector that keeps the distance and both limits passes unchanged. */
  lemma StableFixes(s: seq<int>)
    requires |s| >= 2 && Gaps(s, |s|) && s[1] >= QLSF_MIN && s[|s| - 1] <= QLSF_MAX
    ensures Stable(s) == s
  {
    hide Sort, Spaced;
    forall i, j | 0 <= i < j < |s|
      ensures s[i] <= s[j]
    {
      GapsAddUp(s, i, j);
    }
    SortFixes(s);
    SpacedFixes(s);
  }

  /** The first element is only ever sorted: it meets the low limit exactly when the whole input does. */
  lemma FirstNotLimited(s: seq<int>)
    requires |s| >= 3
    ensures Stable(s)[0] >= QLSF_MIN <==> forall i :: 0 <= i < |s| ==> s[i] >= QLSF_MIN
  {
    SortOrders(s);
    hide Sort;
    var r := Sort(s);
    SpacedFirst(LowLimited(r));
    assert Stable(s)[0] == r[0];
    if r[0] >= QLSF_MIN {
      forall i | 0 <= i < |s|
        ensures s[i] >= QLSF_MIN
      {
        assert s[i] in multiset(s) && s[i] in multiset(r);
        var j :| 0 <= j < |r| && r[j] == s[i];
      }
    } else {
      assert r[0] in multiset(r) && r[0] in multiset(s);
      var j :| 0 <= j < |s| && s[j] == r[0];
    }
  }

  lemma {:induction false} SpacedFirst(s: seq<int>)
    requires |s| >= 1
    ensures Spaced(s)[0] == s[0]
  {
    if |s| > 1 {
      SpacedFirst(s[..|s| - 1]);
    }
  }
}
