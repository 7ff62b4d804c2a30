/** The depth-first pulse search of fixedCodebookSearch.c. */
module CodebookSearch {
  import opened CodecParameters
  import opened FixedPoint
  import opened CorrelationMatrix
  import opened PulseEnergy

  /** The eight positions of a track. */
  predicate OnTrack(m: int, track: int) {
    0 <= m < L_SUBFRAME && m % 5 == track
  }

  /** The element function behind a matrix: what the matrix holds wherever it may be read. */
  ghost predicate Holds(phi: array2<int>, e: (int, int) -> int)
    reads phi
  {
    Square40(phi) && forall a, b :: Readable(a, b) ==> phi[a, b] == e(a, b)
  }

  /** Positions on different tracks. */
  predicate Apart2(a: int, b: int) {
    0 <= a < L_SUBFRAME && 0 <= b < L_SUBFRAME && a % 5 != b % 5
  }

  predicate Apart4(a: int, b: int, c: int, d: int) {
    Apart2(a, b) && Apart2(a, c) && Apart2(a, d) && Apart2(b, c) && Apart2(b, d) && Apart2(c, d)
  }

  lemma ApartIsReadable(a: int, b: int)
    requires Apart2(a, b)
    ensures Readable(a, b) && Readable(b, a) && Readable(a, a) && Readable(b, b)
  {
  }

  /** Half of the energy of two pulses, and of four. */
  function Energy2(e: (int, int) -> int, a: int, b: int): int {
    e(a, a) + (e(a, b) + e(b, b))
  }

  function Energy4(e: (int, int) -> int, a: int, b: int, c: int, d: int): int {
    Energy2(e, a, b) + (e(c, c) + (e(c, a) + e(c, b))) + (e(d, c) + (e(d, d) + (e(d, a) + e(d, b))))
  }

  ghost predicate PositiveEnergies(e: (int, int) -> int) {
    && (forall a, b :: Apart2(a, b) ==> Energy2(e, a, b) > 0)
    && (forall a, b, c, d :: Apart4(a, b, c, d) ==> Energy4(e, a, b, c, d) > 0)
  }

  /** A ratio c2/e, compared by cross-multiplication. */
  datatype Score = Score(c2: int, e: int)

  predicate Beats(s: Score, t: Score) {
    s.c2 * t.e >= t.c2 * s.e
  }

  lemma BeatsTransitive(s: Score, t: Score, u: Score)
    requires s.e > 0 && t.e > 0 && u.e > 0
    requires Beats(s, t) && Beats(t, u)
    ensures Beats(s, u)
  {
    MultiplyMonotone(t.c2 * s.e, s.c2 * t.e, u.e);
    MultiplyMonotone(u.c2 * t.e, t.c2 * u.e, s.e);
    assert u.c2 * s.e * t.e <= s.c2 * u.e * t.e by {
      Rearrange(s.c2, t.e, u.e);
      Rearrange(t.c2, s.e, u.e);
      Rearrange(u.c2, t.e, s.e);
    }
    CancelFactor(u.c2 * s.e, s.c2 * u.e, t.e);
  }

  lemma Rearrange(x: int, y: int, z: int)
    ensures x * y * z == x * z * y
  {
  }

  lemma CancelFactor(x: int, y: int, d: int)
    requires d > 0 && x * d <= y * d
    ensures x <= y
  {
  }

  /** The order of cross-multiplication is the order of the ratios. */
  lemma BeatsIsRatioOrder(s: Score, t: Score)
    requires s.e > 0 && t.e > 0
    ensures Beats(s, t) <==> s.c2 as real / s.e as real >= t.c2 as real / t.e as real
  {
    var x, y := s.c2 as real / s.e as real, t.c2 as real / t.e as real;
    var d, f := s.e as real, t.e as real;
    assert x * d == s.c2 as real && y * f == t.c2 as real;
    assert (s.c2 * t.e) as real == x * d * f && (t.c2 * s.e) as real == y * f * d;
    assert x * d * f == x * (d * f) && y * f * d == y * (d * f);
    assert d * f > 0.0;
    if x >= y {
      assert (x - y) * (d * f) >= 0.0;
    } else {
      assert (y - x) * (d * f) > 0.0;
    }
  }

  function Score2(c: seq<int>, e: (int, int) -> int, a: int, b: int): Score
    requires 0 <= a < |c| && 0 <= b < |c|
  {
    Score((c[a] + c[b]) * (c[a] + c[b]), Energy2(e, a, b))
  }

  function Score4(c: seq<int>, e: (int, int) -> int, a: int, b: int, m: int, n: int): Score
    requires 0 <= a < |c| && 0 <= b < |c| && 0 <= m < |c| && 0 <= n < |c|
  {
    var sum := c[a] + c[b] + c[m] + c[n];
    Score(sum * sum, Energy4(e, a, b, m, n))
  }

  /** The largest magnitude of a track, the excluded position left aside. */
  method TrackMaximum(c: seq<int>, track: int, excluded: int) returns (m: int, best: int)
    requires |c| == L_SUBFRAME && 0 <= track < 5
    requires forall i :: 0 <= i < |c| ==> c[i] >= 0
    ensures OnTrack(m, track) && m != excluded && best == c[m]
    ensures forall i :: OnTrack(i, track) && i != excluded ==> c[i] <= best
  {
    best := -1;
    m := 0;
    var j := track;
    while j < L_SUBFRAME
      invariant track <= j <= L_SUBFRAME + track && j % 5 == track
      invariant best == -1 || (OnTrack(m, track) && m != excluded && best == c[m])
      invariant forall i :: OnTrack(i, track) && i < j && i != excluded ==> c[i] <= best
      invariant best == -1 ==> j == track || (j == track + 5 && excluded == track)
    {
      if c[j] > best && j != excluded {
        m, best := j, c[j];
      }
      j := j + 5;
    }
  }

  /** The comparison the code makes: squares against energies, cross-multiplied. */
  predicate Exceeds(candidate: Score, best: Score) {
    best.e * candidate.c2 > candidate.e * best.c2
  }

  /** What it decides. */
  lemma Compared(best: Score, candidate: Score)
    ensures Exceeds(candidate, best) ==> Beats(candidate, best)
    ensures !Exceeds(candidate, best) ==> Beats(best, candidate)
    ensures best.c2 == -1 && best.e == 1 && candidate.c2 >= 0 && candidate.e > 0
            ==> Exceeds(candidate, best)
    ensures Beats(best, best)
  {
  }

  lemma Score2Valid(c: seq<int>, e: (int, int) -> int, a: int, b: int)
    requires |c| == L_SUBFRAME && PositiveEnergies(e) && Apart2(a, b)
    ensures Score2(c, e, a, b).c2 >= 0 && Score2(c, e, a, b).e > 0
  {
    SquareNonNegative(c[a] + c[b]);
  }

  lemma Score4Valid(c: seq<int>, e: (int, int) -> int, a: int, b: int, m: int, n: int)
    requires |c| == L_SUBFRAME && PositiveEnergies(e) && Apart4(a, b, m, n)
    ensures Score4(c, e, a, b, m, n).c2 >= 0 && Score4(c, e, a, b, m, n).e > 0
  {
    hide Energy4;
    SquareNonNegative(c[a] + c[b] + c[m] + c[n]);
  }

  ghost predicate DominatesPairs(c: seq<int>, e: (int, int) -> int, s: Score, a: int, track: int, limit: int)
    requires |c| == L_SUBFRAME && 0 <= a < L_SUBFRAME
  {
    forall j :: OnTrack(j, track) && j < limit ==> Beats(s, Score2(c, e, a, j))
  }

  /** A better score dominates whatever the old one did. */
  lemma DominanceInherited(c: seq<int>, e: (int, int) -> int, better: Score, previous: Score, a: int, track: int,
                           limit: int)
    requires |c| == L_SUBFRAME && PositiveEnergies(e) && 0 <= a < L_SUBFRAME && a % 5 != track && 0 <= track < 5
    requires better.e > 0 && previous.e > 0 && Beats(better, previous)
    requires DominatesPairs(c, e, previous, a, track, limit)
    ensures DominatesPairs(c, e, better, a, track, limit)
  {
  }

  /** The best pair so far: nothing yet, or an actual pair with its score. */
  predicate PairFound(c: seq<int>, e: (int, int) -> int, best: Score, correlation: int, m2: int, m3: int, track2: int,
                      track3: int)
    requires |c| == L_SUBFRAME
  {
    OnTrack(m2, track2) && OnTrack(m3, track3) && correlation == c[m2] + c[m3] && best == Score2(c, e, m2, m3)
  }

  /** Among the two best positions of one track and all of the next, the pair of best ratio. */
  method SelectPair(c: seq<int>, phi: array2<int>, ghost e: (int, int) -> int, track2: int, track3: int)
    returns (m2: int, m3: int, correlation: int, energy: int, first: int, second: int)
    requires |c| == L_SUBFRAME && (forall i :: 0 <= i < |c| ==> c[i] >= 0)
    requires Holds(phi, e) && PositiveEnergies(e) && 1 <= track2 < 5 && 0 <= track3 < 5 && track2 != track3
    ensures OnTrack(m2, track2) && OnTrack(m3, track3)
    ensures correlation == c[m2] + c[m3] && energy == Energy2(e, m2, m3)
    ensures OnTrack(first, track2) && OnTrack(second, track2) && first != second && (m2 == first || m2 == second)
    ensures forall i :: OnTrack(i, track2) ==> c[i] <= c[first] && (i != first ==> c[i] <= c[second])
    ensures DominatesPairs(c, e, Score2(c, e, m2, m3), first, track3, L_SUBFRAME)
    ensures DominatesPairs(c, e, Score2(c, e, m2, m3), second, track3, L_SUBFRAME)
  {
    hide Beats, Score2, Energy2;
    var firstM2 := 0;
    var bestM2: int;
    first, bestM2 := TrackMaximum(c, track2, firstM2);
    var best: Score;
    best, correlation, m2, m3 := ScanTrack(c, phi, e, first, bestM2, track2, track3, Score(-1, 1), 0, 0, 0);
    ghost var before := best;
    second, bestM2 := TrackMaximum(c, track2, first);
    best, correlation, m2, m3 := ScanTrack(c, phi, e, second, bestM2, track2, track3, best, correlation, m2, m3);
    energy := best.e;
    DominanceInherited(c, e, best, before, first, track3, L_SUBFRAME);
    ScoreParts(c, e, m2, m3);
  }

  lemma ScoreParts(c: seq<int>, e: (int, int) -> int, a: int, b: int)
    requires 0 <= a < |c| && 0 <= b < |c|
    ensures Score2(c, e, a, b).e == Energy2(e, a, b)
  {
  }

  /** The eight pairs with one fixed pulse, against the best found so far. */
  method ScanTrack(c: seq<int>, phi: array2<int>, ghost e: (int, int) -> int, currentM2: int, correlationM2: int,
                   ghost track2: int, track3: int, start: Score, correlationIn: int, m2In: int, m3In: int)
    returns (best: Score, correlation: int, m2: int, m3: int)
    requires |c| == L_SUBFRAME && Holds(phi, e) && PositiveEnergies(e)
    requires 0 <= track2 < 5 && 0 <= track3 < 5 && track2 != track3
    requires OnTrack(currentM2, track2) && correlationM2 == c[currentM2]
    requires start == Score(-1, 1) || PairFound(c, e, start, correlationIn, m2In, m3In, track2, track3)
    ensures PairFound(c, e, best, correlation, m2, m3, track2, track3)
    ensures m2 == currentM2 || (start != Score(-1, 1) && m2 == m2In)
    ensures DominatesPairs(c, e, best, currentM2, track3, L_SUBFRAME)
    ensures best.e > 0 && Beats(best, start)
  {
    hide Beats, Score2, Exceeds, DominatesPairs;
    best, correlation, m2, m3 := start, correlationIn, m2In, m3In;
    Compared(start, start);
    if start != Score(-1, 1) {
      Score2Valid(c, e, m2, m3);
    }
    NoPairBefore(c, e, best, currentM2, track3);
    var j := track3;
    while j < L_SUBFRAME
      invariant track3 <= j <= L_SUBFRAME + track3 && j % 5 == track3
      invariant (j == track3 && best == Score(-1, 1)) || PairFound(c, e, best, correlation, m2, m3, track2, track3)
      invariant if j == track3 then best == start && m2 == m2In
                else m2 == currentM2 || (start != Score(-1, 1) && m2 == m2In)
      invariant best.e > 0 && Beats(best, start)
      invariant DominatesPairs(c, e, best, currentM2, track3, j)
    {
      var candidate, sum := PairScore(c, phi, e, currentM2, correlationM2, j);
      BetterPair(c, e, best, candidate, start, currentM2, track3, j);
      if Exceeds(candidate, best) {
        best, correlation, m2, m3 := candidate, sum, currentM2, j;
      }
      SameTrack(j);
      j := j + 5;
    }
    AllPairs(c, e, best, currentM2, track3, j);
  }

  lemma SameTrack(j: int)
    ensures (j + 5) % 5 == j % 5
  {
  }

  lemma NoPairBefore(c: seq<int>, e: (int, int) -> int, s: Score, a: int, track: int)
    requires |c| == L_SUBFRAME && 0 <= a < L_SUBFRAME && 0 <= track < 5
    ensures DominatesPairs(c, e, s, a, track, track)
  {
    hide Beats, Score2;
  }

  lemma AllPairs(c: seq<int>, e: (int, int) -> int, s: Score, a: int, track: int, limit: int)
    requires |c| == L_SUBFRAME && 0 <= a < L_SUBFRAME && limit >= L_SUBFRAME && DominatesPairs(c, e, s, a, track, limit)
    ensures DominatesPairs(c, e, s, a, track, L_SUBFRAME)
  {
    hide Beats, Score2;
  }

  lemma NextPair(c: seq<int>, e: (int, int) -> int, s: Score, a: int, track: int, j: int)
    requires |c| == L_SUBFRAME && 0 <= a < L_SUBFRAME && OnTrack(j, track)
    requires DominatesPairs(c, e, s, a, track, j) && Beats(s, Score2(c, e, a, j))
    ensures DominatesPairs(c, e, s, a, track, j + 5)
  {
    hide Beats, Score2;
  }

  /** One comparison of the scan. */
  lemma BetterPair(c: seq<int>, e: (int, int) -> int, best: Score, candidate: Score, start: Score, a: int, track: int,
                   j: int)
    requires |c| == L_SUBFRAME && PositiveEnergies(e) && 0 <= a < L_SUBFRAME && a % 5 != track && OnTrack(j, track)
    requires candidate == Score2(c, e, a, j) && best.e > 0 && start.e > 0 && Beats(best, start)
    requires DominatesPairs(c, e, best, a, track, j)
    ensures candidate.e > 0 && (best == Score(-1, 1) ==> Exceeds(candidate, best))
    ensures var winner := if Exceeds(candidate, best) then candidate else best;
            DominatesPairs(c, e, winner, a, track, j + 5) && Beats(winner, start)
  {
    hide Beats, Score2, Exceeds, DominatesPairs;
    Score2Valid(c, e, a, j);
    Compared(best, candidate);
    Compared(candidate, candidate);
    if Exceeds(candidate, best) {
      DominanceInherited(c, e, candidate, best, a, track, j);
      BeatsTransitive(candidate, best, start);
      NextPair(c, e, candidate, a, track, j);
    } else {
      NextPair(c, e, best, a, track, j);
    }
  }

  method PairScore(c: seq<int>, phi: array2<int>, ghost e: (int, int) -> int, currentM2: int, correlationM2: int,
                   j: int)
    returns (candidate: Score, correlationM2M3: int)
    requires |c| == L_SUBFRAME && Holds(phi, e) && Apart2(currentM2, j) && correlationM2 == c[currentM2]
    ensures candidate == Score2(c, e, currentM2, j) && correlationM2M3 == c[currentM2] + c[j]
  {
    ApartIsReadable(currentM2, j);
    correlationM2M3 := correlationM2 + c[j];
    var energyM2M3 := phi[currentM2, currentM2] + (phi[currentM2, j] + phi[j, j]);
    candidate := Score(correlationM2M3 * correlationM2M3, energyM2M3);
  }

  ghost predicate DominatesCompletions(c: seq<int>, e: (int, int) -> int, s: Score, m2: int, m3: int,
                                       track0: int, track1: int, i: int, j: int)
    requires |c| == L_SUBFRAME && 0 <= m2 < L_SUBFRAME && 0 <= m3 < L_SUBFRAME
  {
    forall x, y :: OnTrack(x, track0) && OnTrack(y, track1) && (x < i || (x == i && y < j)) ==>
                     Beats(s, Score4(c, e, m2, m3, x, y))
  }

  /** Four different tracks. */
  predicate DifferentTracks(t0: int, t1: int, t2: int, t3: int) {
    && 0 <= t0 < 5 && 0 <= t1 < 5 && 0 <= t2 < 5 && 0 <= t3 < 5
    && t0 != t1 && t0 != t2 && t0 != t3 && t1 != t2 && t1 != t3 && t2 != t3
  }

  lemma CompletionDominanceInherited(c: seq<int>, e: (int, int) -> int, better: Score, previous: Score, m2: int,
                                     m3: int, track0: int, track1: int, i: int, j: int)
    requires |c| == L_SUBFRAME && PositiveEnergies(e) && OnTrack(m2, m2 % 5) && OnTrack(m3, m3 % 5)
    requires DifferentTracks(track0, track1, m2 % 5, m3 % 5)
    requires better.e > 0 && previous.e > 0 && Beats(better, previous)
    requires DominatesCompletions(c, e, previous, m2, m3, track0, track1, i, j)
    ensures DominatesCompletions(c, e, better, m2, m3, track0, track1, i, j)
  {
  }

  predicate CompletionFound(c: seq<int>, e: (int, int) -> int, best: Score, m2: int, m3: int, m0: int, m1: int,
                            track0: int, track1: int)
    requires |c| == L_SUBFRAME && 0 <= m2 < L_SUBFRAME && 0 <= m3 < L_SUBFRAME
  {
    OnTrack(m0, track0) && OnTrack(m1, track1) && best == Score4(c, e, m2, m3, m0, m1)
  }

  lemma NoneBefore(c: seq<int>, e: (int, int) -> int, s: Score, m2: int, m3: int, track0: int, track1: int, i: int)
    requires |c| == L_SUBFRAME && 0 <= m2 < L_SUBFRAME && 0 <= m3 < L_SUBFRAME && 0 <= track1 < 5
    requires DominatesCompletions(c, e, s, m2, m3, track0, track1, i, 0)
    ensures DominatesCompletions(c, e, s, m2, m3, track0, track1, i, track1)
  {
    hide Beats, Score4;
  }

  lemma AllCompletions(c: seq<int>, e: (int, int) -> int, s: Score, m2: int, m3: int, track0: int, track1: int, i: int,
                       j: int)
    requires |c| == L_SUBFRAME && 0 <= m2 < L_SUBFRAME && 0 <= m3 < L_SUBFRAME && j >= L_SUBFRAME
    requires DominatesCompletions(c, e, s, m2, m3, track0, track1, i, j)
    ensures DominatesCompletions(c, e, s, m2, m3, track0, track1, i, L_SUBFRAME)
  {
    hide Beats, Score4;
  }

  /** One comparison of the scan: the winner also dominates the candidate, and anything beats the start value. */
  lemma BetterCompletion(c: seq<int>, e: (int, int) -> int, best: Score, candidate: Score, m2: int, m3: int,
                         track0: int, track1: int, i: int, j: int)
    requires |c| == L_SUBFRAME && PositiveEnergies(e) && OnTrack(m2, m2 % 5) && OnTrack(m3, m3 % 5)
    requires DifferentTracks(track0, track1, m2 % 5, m3 % 5) && OnTrack(i, track0) && OnTrack(j, track1)
    requires candidate == Score4(c, e, m2, m3, i, j) && best.e > 0
    requires DominatesCompletions(c, e, best, m2, m3, track0, track1, i, j)
    ensures candidate.e > 0 && (best == Score(-1, 1) ==> Exceeds(candidate, best))
    ensures DominatesCompletions(c, e, if Exceeds(candidate, best) then candidate else best,
                                 m2, m3, track0, track1, i, j + 5)
  {
    hide Beats, Score4, DominatesCompletions, Exceeds;
    Score4Valid(c, e, m2, m3, i, j);
    Compared(best, candidate);
    Compared(candidate, candidate);
    if Exceeds(candidate, best) {
      CompletionDominanceInherited(c, e, candidate, best, m2, m3, track0, track1, i, j);
      NextCompletion(c, e, candidate, m2, m3, track0, track1, i, j);
    } else {
      NextCompletion(c, e, best, m2, m3, track0, track1, i, j);
    }
  }

  lemma CompletionApart(m2: int, m3: int, track0: int, track1: int, i: int, j: int)
    requires OnTrack(m2, m2 % 5) && OnTrack(m3, m3 % 5) && DifferentTracks(track0, track1, m2 % 5, m3 % 5)
    requires OnTrack(i, track0) && OnTrack(j, track1)
    ensures Apart4(m2, m3, i, j)
  {
  }

  /** The eight completions with one third pulse, against the best found so far. */
  method ScanCompletions(c: seq<int>, phi: array2<int>, ghost e: (int, int) -> int, m2: int, m3: int, correlation: int,
                         energy: int, track0: int, track1: int, i: int, start: Score, m0In: int, m1In: int)
    returns (best: Score, m0: int, m1: int)
    requires |c| == L_SUBFRAME && Holds(phi, e) && PositiveEnergies(e)
    requires OnTrack(m2, m2 % 5) && OnTrack(m3, m3 % 5) && DifferentTracks(track0, track1, m2 % 5, m3 % 5)
    requires correlation == c[m2] + c[m3] && energy == Energy2(e, m2, m3)
    requires OnTrack(i, track0) && start.e > 0
    requires start == Score(-1, 1) || CompletionFound(c, e, start, m2, m3, m0In, m1In, track0, track1)
    requires DominatesCompletions(c, e, start, m2, m3, track0, track1, i, 0)
    ensures CompletionFound(c, e, best, m2, m3, m0, m1, track0, track1) && best.e > 0
    ensures DominatesCompletions(c, e, best, m2, m3, track0, track1, i, L_SUBFRAME)
  {
    hide Beats, Score4, Energy2, DominatesCompletions, Exceeds, Holds, PositiveEnergies, Apart4;
    NoneBefore(c, e, start, m2, m3, track0, track1, i);
    best, m0, m1 := start, m0In, m1In;
    var j := track1;
    while j < L_SUBFRAME
      invariant track1 <= j <= L_SUBFRAME + track1 && j % 5 == track1 && best.e > 0
      invariant (j == track1 && best == Score(-1, 1)) || CompletionFound(c, e, best, m2, m3, m0, m1, track0, track1)
      invariant DominatesCompletions(c, e, best, m2, m3, track0, track1, i, j)
    {
      CompletionApart(m2, m3, track0, track1, i, j);
      var candidate := CompletionScore(c, phi, e, m2, m3, correlation, energy, i, j);
      BetterCompletion(c, e, best, candidate, m2, m3, track0, track1, i, j);
      if Exceeds(candidate, best) {
        m1, m0, best := j, i, candidate;
      }
      SameTrack(j);
      j := j + 5;
    }
    AllCompletions(c, e, best, m2, m3, track0, track1, i, j);
  }

  lemma NextCompletion(c: seq<int>, e: (int, int) -> int, s: Score, m2: int, m3: int, track0: int, track1: int, i: int,
                       j: int)
    requires |c| == L_SUBFRAME && 0 <= m2 < L_SUBFRAME && 0 <= m3 < L_SUBFRAME
    requires OnTrack(i, track0) && OnTrack(j, track1)
    requires DominatesCompletions(c, e, s, m2, m3, track0, track1, i, j) && Beats(s, Score4(c, e, m2, m3, i, j))
    ensures DominatesCompletions(c, e, s, m2, m3, track0, track1, i, j + 5)
  {
    hide Beats, Score4;
  }

  /** The 64 completions of a pair, exhaustively. */
  method SelectCompletion(c: seq<int>, phi: array2<int>, ghost e: (int, int) -> int, m2: int, m3: int,
                          correlation: int, energy: int, track0: int, track1: int)
    returns (m0: int, m1: int, best: Score)
    requires |c| == L_SUBFRAME && Holds(phi, e) && PositiveEnergies(e)
    requires OnTrack(m2, m2 % 5) && OnTrack(m3, m3 % 5) && DifferentTracks(track0, track1, m2 % 5, m3 % 5)
    requires correlation == c[m2] + c[m3] && energy == Energy2(e, m2, m3)
    ensures CompletionFound(c, e, best, m2, m3, m0, m1, track0, track1) && best.e > 0
    ensures DominatesCompletions(c, e, best, m2, m3, track0, track1, L_SUBFRAME, 0)
  {
    hide Beats, Score4, Energy2;
    m0, m1, best := 0, 0, Score(-1, 1);
    var i := track0;
    while i < L_SUBFRAME
      invariant track0 <= i <= L_SUBFRAME + track0 && i % 5 == track0 && best.e > 0
      invariant (i == track0 && best == Score(-1, 1)) || CompletionFound(c, e, best, m2, m3, m0, m1, track0, track1)
      invariant DominatesCompletions(c, e, best, m2, m3, track0, track1, i, 0)
    {
      best, m0, m1 := ScanCompletions(c, phi, e, m2, m3, correlation, energy, track0, track1, i, best, m0, m1);
      i := i + 5;
    }
  }

  method CompletionScore(c: seq<int>, phi: array2<int>, ghost e: (int, int) -> int, m2: int, m3: int,
                         correlation: int, energy: int, i: int, j: int) returns (candidate: Score)
    requires |c| == L_SUBFRAME && Holds(phi, e) && Apart4(m2, m3, i, j)
    requires correlation == c[m2] + c[m3] && energy == Energy2(e, m2, m3)
    ensures candidate == Score4(c, e, m2, m3, i, j)
  {
    hide Energy2;
    ApartIsReadable(i, m2);
    ApartIsReadable(i, m3);
    ApartIsReadable(j, m2);
    ApartIsReadable(j, m3);
    ApartIsReadable(j, i);
    var correlationM0 := correlation + c[i];
    var energyM0 := energy + (phi[i, i] + (phi[i, m2] + phi[i, m3]));
    var correlationM1 := correlationM0 + c[j];
    var energyM1 := energyM0 + (phi[j, i] + (phi[j, j] + (phi[j, m2] + phi[j, m3])));
    candidate := Score(correlationM1 * correlationM1, energyM1);
  }

  /** One of the four passes: the two largest positions of track t2, the pair fixed with track t3, the tracks it is
      completed from. */
  datatype Pass = Pass(first: int, second: int, m2: int, m3: int, t2: int, t3: int, t0: int, t1: int)

  ghost predicate PairSelected(c: seq<int>, e: (int, int) -> int, p: Pass)
    requires |c| == L_SUBFRAME
  {
    && OnTrack(p.first, p.t2) && OnTrack(p.second, p.t2) && p.first != p.second && (p.m2 == p.first || p.m2 == p.second)
    && (forall i :: OnTrack(i, p.t2) ==> c[i] <= c[p.first] && (i != p.first ==> c[i] <= c[p.second]))
    && OnTrack(p.m2, p.t2) && OnTrack(p.m3, p.t3)
    && DominatesPairs(c, e, Score2(c, e, p.m2, p.m3), p.first, p.t3, L_SUBFRAME)
    && DominatesPairs(c, e, Score2(c, e, p.m2, p.m3), p.second, p.t3, L_SUBFRAME)
  }

  /** s is at least as good as every completion of the pair this pass fixed. */
  ghost predicate PassSearched(c: seq<int>, e: (int, int) -> int, s: Score, p: Pass)
    requires |c| == L_SUBFRAME
  {
    && DifferentTracks(p.t0, p.t1, p.t2, p.t3) && PairSelected(c, e, p)
    && DominatesCompletions(c, e, s, p.m2, p.m3, p.t0, p.t1, L_SUBFRAME, 0)
  }

  /** A pulse on each of the tracks 0, 1, 2 and 3 or 4, with the score of the set in the order it was built. */
  ghost predicate Chosen(c: seq<int>, e: (int, int) -> int, s: Score, i0: int, i1: int, i2: int, i3: int, jx: int)
    requires |c| == L_SUBFRAME
  {
    && OnAllTracks(i0, i1, i2, i3, jx)
    && (s == Score4(c, e, i2, i3, i0, i1) || s == Score4(c, e, i3, i0, i1, i2))
  }

  lemma PassInherited(c: seq<int>, e: (int, int) -> int, better: Score, previous: Score, p: Pass)
    requires |c| == L_SUBFRAME && PositiveEnergies(e)
    requires better.e > 0 && previous.e > 0 && Beats(better, previous) && PassSearched(c, e, previous, p)
    ensures PassSearched(c, e, better, p)
  {
    hide Beats, DominatesCompletions, DominatesPairs;
    CompletionDominanceInherited(c, e, better, previous, p.m2, p.m3, p.t0, p.t1, L_SUBFRAME, 0);
  }

  /** One pass: fix a pair, then complete it. */
  method RunPass(c: seq<int>, phi: array2<int>, ghost e: (int, int) -> int, t2: int, t3: int, t0: int, t1: int)
    returns (m0: int, m1: int, m2: int, m3: int, candidate: Score, ghost pass: Pass)
    requires |c| == L_SUBFRAME && (forall i :: 0 <= i < |c| ==> c[i] >= 0)
    requires Holds(phi, e) && PositiveEnergies(e) && DifferentTracks(t0, t1, t2, t3) && t2 > 0
    ensures PassSearched(c, e, candidate, pass) && candidate.c2 >= 0 && candidate.e > 0
    ensures OnTrack(m2, t2) && OnTrack(m3, t3) && OnTrack(m0, t0) && OnTrack(m1, t1)
    ensures candidate == Score4(c, e, m2, m3, m0, m1)
    ensures pass.m2 == m2 && pass.m3 == m3 && pass.t2 == t2 && pass.t3 == t3 && pass.t0 == t0 && pass.t1 == t1
  {
    hide Beats, Score4, Energy2, Score2, DominatesCompletions, DominatesPairs;
    var correlation, energy, first, second;
    m2, m3, correlation, energy, first, second := SelectPair(c, phi, e, t2, t3);
    m0, m1, candidate := SelectCompletion(c, phi, e, m2, m3, correlation, energy, t0, t1);
    pass := Pass(first, second, m2, m3, t2, t3, t0, t1);
    Score4Valid(c, e, m2, m3, m0, m1);
  }

  /** Tracks of pass k: (2,3), (3,0), (2,4), (4,0) for the pair, (0,1) or (1,2) for the completion. */
  predicate TracksOf(p: Pass, k: int) {
    && p.t2 == (if k == 0 || k == 2 then 2 else if k == 1 then 3 else 4)
    && p.t3 == (if k == 0 then 3 else if k == 2 then 4 else 0)
    && p.t0 == (if k == 0 || k == 2 then 0 else 1)
    && p.t1 == (if k == 0 || k == 2 then 1 else 2)
  }

  ghost predicate SwitchState(mSwitch: array2<int>, m3Base: int)
    reads mSwitch
  {
    && mSwitch.Length0 == 2 && mSwitch.Length1 == 4
    && mSwitch[0, 0] == 2 && mSwitch[0, 1] == m3Base && mSwitch[0, 2] == 0 && mSwitch[0, 3] == 1
    && mSwitch[1, 0] == m3Base && mSwitch[1, 1] == 0 && mSwitch[1, 2] == 1 && mSwitch[1, 3] == 2
  }

  /** Progress of the search: nothing tried yet, or a choice that is as good as all completions tried. */
  ghost predicate Progress(c: seq<int>, e: (int, int) -> int, best: Score, passes: seq<Pass>,
                           i0: int, i1: int, i2: int, i3: int, jx: int)
    requires |c| == L_SUBFRAME
  {
    && best.e > 0
    && (if |passes| == 0 then best == Score(-1, 1) else Chosen(c, e, best, i0, i1, i2, i3, jx))
    && forall k :: 0 <= k < |passes| ==> TracksOf(passes[k], k) && PassSearched(c, e, best, passes[k])
  }

  lemma AllInherited(c: seq<int>, e: (int, int) -> int, better: Score, previous: Score, passes: seq<Pass>)
    requires |c| == L_SUBFRAME && PositiveEnergies(e) && better.e > 0 && previous.e > 0 && Beats(better, previous)
    requires forall k :: 0 <= k < |passes| ==> PassSearched(c, e, previous, passes[k])
    ensures forall k :: 0 <= k < |passes| ==> PassSearched(c, e, better, passes[k])
  {
    hide Beats, PassSearched;
    forall k | 0 <= k < |passes|
      ensures PassSearched(c, e, better, passes[k])
    {
      PassInherited(c, e, better, previous, passes[k]);
    }
  }

  ghost predicate Symmetric(e: (int, int) -> int) {
    forall a, b :: e(a, b) == e(b, a)
  }

  /** The score of four pulses does not depend on the order they were found in. */
  lemma ScoreReordered(c: seq<int>, e: (int, int) -> int, i0: int, i1: int, i2: int, i3: int)
    requires 0 <= i0 < |c| && 0 <= i1 < |c| && 0 <= i2 < |c| && 0 <= i3 < |c| && Symmetric(e)
    ensures Score4(c, e, i3, i0, i1, i2) == Score4(c, e, i2, i3, i0, i1)
  {
  }

  /** At least as good as every completion of all four passes. */
  ghost predicate BestOfPasses(c: seq<int>, e: (int, int) -> int, s: Score)
    requires |c| == L_SUBFRAME
  {
    exists passes: seq<Pass> ::
      |passes| == 4 && forall k :: 0 <= k < 4 ==> TracksOf(passes[k], k) && PassSearched(c, e, s, passes[k])
  }

  predicate OnAllTracks(i0: int, i1: int, i2: int, i3: int, jx: int) {
    0 <= jx <= 1 && OnTrack(i0, 0) && OnTrack(i1, 1) && OnTrack(i2, 2) && OnTrack(i3, 3 + jx)
  }

  /** Two passes for each of the two positions of the last track; the best completion of all four is kept. */
  method Search(c: seq<int>, phi: array2<int>, ghost e: (int, int) -> int)
    returns (i0: int, i1: int, i2: int, i3: int, jx: int)
    requires |c| == L_SUBFRAME && (forall i :: 0 <= i < |c| ==> c[i] >= 0)
    requires Holds(phi, e) && PositiveEnergies(e) && Symmetric(e)
    ensures OnAllTracks(i0, i1, i2, i3, jx)
    ensures BestOfPasses(c, e, Score4(c, e, i2, i3, i0, i1))
  {
    hide Beats, Score4, PassSearched, Symmetric;
    ghost var best: Score;
    ghost var passes: seq<Pass>;
    var mSwitch := new int[2, 4];
    mSwitch[0, 0], mSwitch[0, 1], mSwitch[0, 2], mSwitch[0, 3] := 2, 3, 0, 1;
    mSwitch[1, 0], mSwitch[1, 1], mSwitch[1, 2], mSwitch[1, 3] := 3, 0, 1, 2;
    i0, i1, i2, i3, jx := 0, 0, 0, 0, 0;
    var correlationSquareMax, energyMax := -1, 1;
    best, passes := Score(-1, 1), [];
    var m3Base := 3;
    while m3Base < 5
      invariant 3 <= m3Base <= 5 && |passes| == 2 * (m3Base - 3) && SwitchState(mSwitch, m3Base)
      invariant Holds(phi, e) && best == Score(correlationSquareMax, energyMax)
      invariant Progress(c, e, best, passes, i0, i1, i2, i3, jx)
    {
      var mIndex := 0;
      while mIndex < 2
        invariant 0 <= mIndex <= 2 && |passes| == 2 * (m3Base - 3) + mIndex && SwitchState(mSwitch, m3Base)
        invariant Holds(phi, e) && best == Score(correlationSquareMax, energyMax)
        invariant Progress(c, e, best, passes, i0, i1, i2, i3, jx)
      {
        var m0, m1, m2, m3, candidate;
        ghost var pass;
        m0, m1, m2, m3, candidate, pass := RunPass(c, phi, e, mSwitch[mIndex, 0], mSwitch[mIndex, 1],
                                                   mSwitch[mIndex, 2], mSwitch[mIndex, 3]);
        Compared(best, candidate);
        if energyMax * candidate.c2 > candidate.e * correlationSquareMax {
          AllInherited(c, e, candidate, best, passes);
          correlationSquareMax, energyMax := candidate.c2, candidate.e;
          if mIndex == 0 {
            i0, i1, i2, i3 := m0, m1, m2, m3;
          } else {
            i0, i1, i2, i3 := m3, m0, m1, m2;
          }
          jx := m3Base - 3;
          best := candidate;
        } else {
          PassInherited(c, e, best, candidate, pass);
        }
        passes := passes + [pass];
        mIndex := mIndex + 1;
      }
      mSwitch[0, 1] := mSwitch[0, 1] + 1;
      mSwitch[1, 0] := mSwitch[1, 0] + 1;
      m3Base := m3Base + 1;
    }
    ScoreReordered(c, e, i0, i1, i2, i3);
  }
}
