/** Sum of the autocorrelations of several frames, each in its own scale (sumAutocorrelationCoefficients of dtx.c). */
module AutocorrelationSum {
  import opened FixedPoint

  /** Coefficients of a frame are stored as value times 2 to the scale. */
  ghost predicate Frames(coefficients: seq<seq<int>>, scales: seq<int>, n: nat) {
    |coefficients| == |scales| >= 1 && forall j :: 0 <= j < |coefficients| ==> |coefficients[j]| == n
  }

  ghost predicate IsLowest(scales: seq<int>, low: int) {
    low in scales && forall j :: 0 <= j < |scales| ==> low <= scales[j]
  }

  /** Coefficient i of frame j brought to the lowest scale. */
  function Rescaled(coefficients: seq<seq<int>>, scales: seq<int>, low: int, j: nat, i: nat): int {
    if j < |coefficients| && j < |scales| && i < |coefficients[j]| && low <= scales[j]
    then Shr(coefficients[j][i], scales[j] - low) else 0
  }

  function Total(coefficients: seq<seq<int>>, scales: seq<int>, low: int, i: nat, m: nat): int {
    if m == 0 then 0 else Total(coefficients, scales, low, i, m - 1) + Rescaled(coefficients, scales, low, m - 1, i)
  }

  ghost predicate IsLargest(sums: seq<int>, max: int) {
    (max == 0 || exists i :: 0 <= i < |sums| && Abs(sums[i]) == max) && forall i :: 0 <= i < |sums| ==>
      Abs(sums[i]) <= max
  }

  /** The least shift that brings the largest magnitude to 32 bits. */
  ghost predicate LeastShift(max: int, shift: nat) {
    Shr(max, shift) <= MAXINT32 && (shift > 0 ==> Shr(max, shift - 1) > MAXINT32)
  }

  method LowestScale(scales: seq<int>) returns (minScale: int)
    requires |scales| >= 1
    ensures IsLowest(scales, minScale)
  {
    minScale := scales[0];
    var i := 1;
    while i < |scales|
      invariant 1 <= i <= |scales| && minScale in scales && forall j :: 0 <= j < i ==> minScale <= scales[j]
    {
      if scales[i] < minScale {
        minScale := scales[i];
      }
      i := i + 1;
    }
  }

  method SumCoefficient(coefficients: seq<seq<int>>, scales: seq<int>, minScale: int, n: nat, i: nat) returns (sum: int)
    requires Frames(coefficients, scales, n) && IsLowest(scales, minScale) && i < n
    ensures sum == Total(coefficients, scales, minScale, i, |scales|)
  {
    hide Shr;
    sum := Shr(coefficients[0][i], scales[0] - minScale);
    assert Total(coefficients, scales, minScale, i, 1) == Total(coefficients, scales, minScale, i, 0)
           + Rescaled(coefficients, scales, minScale, 0, i);
    var j := 1;
    while j < |scales|
      invariant 1 <= j <= |scales| && sum == Total(coefficients, scales, minScale, i, j)
    {
      sum := sum + Shr(coefficients[j][i], scales[j] - minScale);
      j := j + 1;
    }
  }

  /** The do-while of the normalisation. */
  method HalveToFit(largest: int) returns (rightShiftToNormalise: nat)
    requires largest >= 0
    ensures LeastShift(largest, rightShiftToNormalise)
  {
    rightShiftToNormalise := 0;
    var max := largest;
    assert Shr(largest, 0) == largest;
    while max > MAXINT32
      invariant max >= 0 && max == Shr(largest, rightShiftToNormalise)
      invariant rightShiftToNormalise > 0 ==> Shr(largest, rightShiftToNormalise - 1) > MAXINT32
      decreases max
    {
      ShiftTwice(largest, rightShiftToNormalise, 1);
      assert Shr(max, 1) == max / 2;
      max := max / 2;
      rightShiftToNormalise := rightShiftToNormalise + 1;
    }
  }

  /** Every coefficient of the sum in one scale, as many bits as 32-bit words can hold. */
  method SumAutocorrelationCoefficients(coefficients: seq<seq<int>>, scales: seq<int>, n: nat)
    returns (result: array<int>, scale: int, ghost minScale: int, ghost sums: seq<int>, ghost max: int,
             ghost shift: nat)
    requires Frames(coefficients, scales, n)
    ensures IsLowest(scales, minScale) && |sums| == n && fresh(result)
    ensures forall i :: 0 <= i < n ==> sums[i] == Total(coefficients, scales, minScale, i, |scales|)
    ensures IsLargest(sums, max) && LeastShift(max, shift) && scale == minScale - shift
    ensures result.Length == n && forall i :: 0 <= i < n ==> result[i] == Shr(sums[i], shift) && Fits32(result[i])
  {
    hide Shr, Total, Rescaled;
    var low := LowestScale(scales);
    minScale := low;
    var buffer := new int[n];
    var largest := 0;
    var i := 0;
    while i < n
      invariant 0 <= i <= n && largest >= 0
      invariant forall k :: 0 <= k < i ==> buffer[k] == Total(coefficients, scales, low, k, |scales|)
      invariant IsLargest(buffer[..i], largest)
    {
      buffer[i] := SumCoefficient(coefficients, scales, low, n, i);
      LargestGrows(buffer[..i], largest, buffer[i]);
      assert buffer[..i + 1] == buffer[..i] + [buffer[i]];
      if Abs(buffer[i]) > largest {
        largest := Abs(buffer[i]);
      }
      i := i + 1;
    }
    assert buffer[..n] == buffer[..];
    sums, max := buffer[..], largest;
    var rightShift := HalveToFit(largest);
    shift := rightShift;
    result := new int[n];
    i := 0;
    while i < n
      invariant 0 <= i <= n && fresh(result) && buffer[..] == sums
      invariant forall k :: 0 <= k < i ==> result[k] == Shr(sums[k], shift) && Fits32(result[k])
    {
      ShiftedFits(buffer[i], largest, rightShift);
      result[i] := Shr(buffer[i], rightShift);
      i := i + 1;
    }
    scale := low - rightShift;
  }

  lemma LargestGrows(sums: seq<int>, max: int, x: int)
    requires IsLargest(sums, max) && max >= 0
    ensures IsLargest(sums + [x], if Abs(x) > max then Abs(x) else max)
  {
    var all := sums + [x];
    assert all[|sums|] == x;
    if Abs(x) <= max && max != 0 {
      var i :| 0 <= i < |sums| && Abs(sums[i]) == max;
      assert all[i] == sums[i];
    }
  }

  lemma ShiftedFits(x: int, max: int, shift: nat)
    requires Abs(x) <= max && Shr(max, shift) <= MAXINT32
    ensures Fits32(Shr(x, shift))
  {
    QuotientFits(x, max, Pow2(shift));
  }

  /** The exact sum in the lowest scale. */
  function ExactTotal(coefficients: seq<seq<int>>, scales: seq<int>, low: int, i: nat, m: nat): real
    requires Frames(coefficients, scales, if |coefficients| > 0 then |coefficients[0]| else 0) && m <= |scales|
    requires i < |coefficients[0]| && forall j :: 0 <= j < |scales| ==> low <= scales[j]
  {
    if m == 0 then 0.0
    else ExactTotal(coefficients, scales, low, i, m - 1)
         + coefficients[m - 1][i] as real / Pow2(scales[m - 1] - low) as real
  }

  /** Rescaling loses less than one unit a frame, always downwards. */
  lemma {:induction false} SumCloseToExact(coefficients: seq<seq<int>>, scales: seq<int>, low: int, i: nat, m: nat)
    requires Frames(coefficients, scales, if |coefficients| > 0 then |coefficients[0]| else 0) && m <= |scales|
    requires i < |coefficients[0]| && forall j :: 0 <= j < |scales| ==> low <= scales[j]
    ensures var total := Total(coefficients, scales, low, i, m) as real;
            total <= ExactTotal(coefficients, scales, low, i, m) <= total + m as real
  {
    hide Shr, Pow2;
    if m > 0 {
      SumCloseToExact(coefficients, scales, low, i, m - 1);
      var x, d := coefficients[m - 1][i], scales[m - 1] - low;
      ShiftLoss(x, d);
      assert Rescaled(coefficients, scales, low, m - 1, i) == Shr(x, d);
      assert Total(coefficients, scales, low, i, m) == Total(coefficients, scales, low, i, m - 1) + Shr(x, d);
    }
  }

  lemma ShiftLoss(x: int, n: nat)
    ensures var q := Shr(x, n) as real;
            q <= x as real / Pow2(n) as real <= q + 1.0
  {
    ShiftBounds(x, n);
    var d := Pow2(n);
    RealQuotient(x, Shr(x, n), d);
  }

  lemma RealQuotient(x: int, q: int, d: int)
    requires d > 0 && q * d <= x <= q * d + d
    ensures q as real <= x as real / d as real <= q as real + 1.0
  {
    var e := d as real;
    var r := x as real / e;
    assert r * e == x as real;
    RealProduct(q, d);
    if r < q as real {
      Ordered(r, q as real, e);
    }
    if r > q as real + 1.0 {
      Ordered(q as real + 1.0, r, e);
    }
  }

  lemma RealProduct(q: int, d: int)
    ensures (q * d) as real == q as real * d as real && (q * d + d) as real == (q as real + 1.0) * d as real
  {
  }

  lemma Ordered(x: real, y: real, e: real)
    requires x < y && e > 0.0
    ensures x * e < y * e
  {
  }
}
