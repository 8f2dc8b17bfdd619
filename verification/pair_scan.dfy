/** The pairwise scan shared by the brute-force solver and the strip merge of
    shamos_algorithm.go: for every i, compare s[i] with the following entries
    s[j] (all of them for `forceBrute`, at most 7 of them for `combiner`),
    keeping the first pair strictly closer than the best so far. */
module PairScan {
  import opened Points

  /** One comparison of the scan: `if d < minDist { minDist = d; p1, p2 = p, q }`. */
  function Improve(acc: Closest, p: Point, q: Point): Closest {
    if Less(Fin(SqDist(p, q)), acc.d) then Closest(p, q, Fin(SqDist(p, q))) else acc
  }

  /** The inner loop from position j on: it runs while j < |s| and j <= i + w. */
  function ScanRow(s: seq<Point>, w: nat, i: nat, j: nat, acc: Closest): Closest
    requires i < |s|
    decreases |s| - j
  {
    if j < |s| && j <= i + w then ScanRow(s, w, i, j + 1, Improve(acc, s[i], s[j])) else acc
  }

  /** The outer loop from position i on. */
  function ScanFrom(s: seq<Point>, w: nat, i: nat, acc: Closest): Closest
    decreases |s| - i
  {
    if i < |s| then ScanFrom(s, w, i + 1, ScanRow(s, w, i, i + 1, acc)) else acc
  }

  /** (a, b) is a pair the scan with window w compares. */
  ghost predicate InWindow(n: nat, w: nat, a: int, b: int) {
    0 <= a < b < n && b <= a + w
  }

  /** (c, e) is compared before (a, b) in loop order. */
  ghost predicate Earlier(c: int, e: int, a: int, b: int) {
    c < a || (c == a && e < b)
  }

  /** (a, b) is a window pair compared before the loop reached (i, j). */
  ghost predicate Seen(n: nat, w: nat, i: int, j: int, a: int, b: int) {
    InWindow(n, w, a, b) && Earlier(a, b, i, j)
  }

  /** Among the window pairs seen before (i, j), (a, b) is at least as close as
      every one and strictly closer than every one compared before it. */
  ghost predicate FirstMinimal(s: seq<Point>, w: nat, i: int, j: int, a: nat, b: nat)
    requires a < |s| && b < |s|
  {
    forall c, e :: Seen(|s|, w, i, j, c, e) ==>
      SqDist(s[a], s[b]) <= SqDist(s[c], s[e]) &&
      (Earlier(c, e, a, b) ==> SqDist(s[a], s[b]) < SqDist(s[c], s[e]))
  }

  /** No pair compared before (i, j) is strictly closer than init. */
  ghost predicate Unbeaten(s: seq<Point>, w: nat, init: Closest, i: int, j: int) {
    forall a, b :: Seen(|s|, w, i, j, a, b) ==> !Less(Fin(SqDist(s[a], s[b])), init.d)
  }

  /** (a, b) is the pair the accumulator holds after reaching (i, j). */
  ghost predicate BestSoFar(s: seq<Point>, w: nat, init: Closest, i: int, j: int, a: int, b: int) {
    Seen(|s|, w, i, j, a, b) && Less(Fin(SqDist(s[a], s[b])), init.d) &&
    FirstMinimal(s, w, i, j, a, b)
  }

  /** The state of the scan at loop position (i, j), started from init. */
  ghost predicate ScanState(s: seq<Point>, w: nat, init: Closest, i: int, j: int, acc: Closest) {
    (acc == init && Unbeaten(s, w, init, i, j)) ||
    (exists a, b :: BestSoFar(s, w, init, i, j, a, b) && acc == PairAt(s, a, b))
  }

  /** What a complete scan returns: init if no window pair is strictly closer,
      otherwise the first window pair of least distance. */
  ghost predicate ScanOutcome(s: seq<Point>, w: nat, init: Closest, r: Closest) {
    (r == init && forall a, b :: InWindow(|s|, w, a, b) ==> !Less(Fin(SqDist(s[a], s[b])), init.d)) ||
    (exists a, b :: InWindow(|s|, w, a, b) && r == PairAt(s, a, b) && Less(r.d, init.d) &&
                     FirstMinimal(s, w, |s|, |s| + 1, a, b))
  }

  /** The pairs seen before (i, j + 1) are those seen before (i, j) and (i, j) itself. */
  lemma SeenStep(n: nat, w: nat, i: nat, j: nat)
    requires i < j < n && j <= i + w
    ensures forall a, b :: Seen(n, w, i, j + 1, a, b) <==> Seen(n, w, i, j, a, b) || (a == i && b == j)
  {
  }

  lemma StepFirstImprovement(s: seq<Point>, w: nat, init: Closest, i: nat, j: nat)
    requires i < j < |s| && j <= i + w
    requires Unbeaten(s, w, init, i, j) && Less(Fin(SqDist(s[i], s[j])), init.d)
    ensures BestSoFar(s, w, init, i, j + 1, i, j)
  {
    SeenStep(|s|, w, i, j);
    var dij := SqDist(s[i], s[j]);
    forall c, e | Seen(|s|, w, i, j + 1, c, e)
      ensures dij <= SqDist(s[c], s[e]) && (Earlier(c, e, i, j) ==> dij < SqDist(s[c], s[e]))
    {
      if c != i || e != j {
        assert !Less(Fin(SqDist(s[c], s[e])), init.d);
      }
    }
  }

  lemma StepStillUnbeaten(s: seq<Point>, w: nat, init: Closest, i: nat, j: nat)
    requires i < j < |s| && j <= i + w
    requires Unbeaten(s, w, init, i, j) && !Less(Fin(SqDist(s[i], s[j])), init.d)
    ensures Unbeaten(s, w, init, i, j + 1)
  {
    SeenStep(|s|, w, i, j);
  }

  lemma StepNewBest(s: seq<Point>, w: nat, init: Closest, i: nat, j: nat, a: nat, b: nat)
    requires i < j < |s| && j <= i + w
    requires BestSoFar(s, w, init, i, j, a, b) && SqDist(s[i], s[j]) < SqDist(s[a], s[b])
    ensures BestSoFar(s, w, init, i, j + 1, i, j)
  {
    SeenStep(|s|, w, i, j);
  }

  lemma StepKeepBest(s: seq<Point>, w: nat, init: Closest, i: nat, j: nat, a: nat, b: nat)
    requires i < j < |s| && j <= i + w
    requires BestSoFar(s, w, init, i, j, a, b) && SqDist(s[a], s[b]) <= SqDist(s[i], s[j])
    ensures BestSoFar(s, w, init, i, j + 1, a, b)
  {
    SeenStep(|s|, w, i, j);
  }

  lemma StepState(s: seq<Point>, w: nat, init: Closest, i: nat, j: nat, acc: Closest)
    requires i < j < |s| && j <= i + w
    requires ScanState(s, w, init, i, j, acc)
    ensures ScanState(s, w, init, i, j + 1, Improve(acc, s[i], s[j]))
  {
    var next := Improve(acc, s[i], s[j]);
    if acc == init && Unbeaten(s, w, init, i, j) {
      if Less(Fin(SqDist(s[i], s[j])), init.d) {
        StepFirstImprovement(s, w, init, i, j);
      } else {
        StepStillUnbeaten(s, w, init, i, j);
      }
    } else {
      var a, b :| BestSoFar(s, w, init, i, j, a, b) && acc == PairAt(s, a, b);
      if SqDist(s[i], s[j]) < SqDist(s[a], s[b]) {
        StepNewBest(s, w, init, i, j, a, b);
        assert next == PairAt(s, i, j);
      } else {
        StepKeepBest(s, w, init, i, j, a, b);
        assert next == acc;
      }
    }
  }

  lemma RowDone(s: seq<Point>, w: nat, init: Closest, i: nat, j: nat, acc: Closest)
    requires i < |s| && (j >= |s| || j > i + w)
    requires ScanState(s, w, init, i, j, acc)
    ensures ScanState(s, w, init, i + 1, i + 2, acc)
  {
    assert forall a, b :: Seen(|s|, w, i, j, a, b) <==> Seen(|s|, w, i + 1, i + 2, a, b);
    if !(acc == init && Unbeaten(s, w, init, i, j)) {
      var a, b :| BestSoFar(s, w, init, i, j, a, b) && acc == PairAt(s, a, b);
      assert BestSoFar(s, w, init, i + 1, i + 2, a, b);
    }
  }

  lemma {:induction false} RowState(s: seq<Point>, w: nat, init: Closest, i: nat, j: nat, acc: Closest)
    requires i < j && i < |s| && ScanState(s, w, init, i, j, acc)
    ensures ScanState(s, w, init, i + 1, i + 2, ScanRow(s, w, i, j, acc))
    decreases |s| - j
  {
    if j < |s| && j <= i + w {
      StepState(s, w, init, i, j, acc);
      RowState(s, w, init, i, j + 1, Improve(acc, s[i], s[j]));
    } else {
      RowDone(s, w, init, i, j, acc);
    }
  }

  lemma {:induction false} FromState(s: seq<Point>, w: nat, init: Closest, i: nat, acc: Closest)
    requires i <= |s| && ScanState(s, w, init, i, i + 1, acc)
    ensures ScanState(s, w, init, |s|, |s| + 1, ScanFrom(s, w, i, acc))
    decreases |s| - i
  {
    if i < |s| {
      RowState(s, w, init, i, i + 1, acc);
      FromState(s, w, init, i + 1, ScanRow(s, w, i, i + 1, acc));
    }
  }

  /** A full scan started from init returns init when no window pair beats it,
      and otherwise the first window pair of least distance. */
  lemma {:induction false} ScanSpec(s: seq<Point>, w: nat, init: Closest)
    ensures ScanOutcome(s, w, init, ScanFrom(s, w, 0, init))
  {
    assert forall a, b :: !Seen(|s|, w, 0, 1, a, b);
    assert ScanState(s, w, init, 0, 1, init);
    FromState(s, w, init, 0, init);
    var r := ScanFrom(s, w, 0, init);
    assert forall a, b :: Seen(|s|, w, |s|, |s| + 1, a, b) <==> InWindow(|s|, w, a, b);
    if !(r == init && Unbeaten(s, w, init, |s|, |s| + 1)) {
      var a, b :| BestSoFar(s, w, init, |s|, |s| + 1, a, b) && r == PairAt(s, a, b);
      assert InWindow(|s|, w, a, b) && Less(r.d, init.d);
    }
  }

  /** A scan never reports a distance larger than the one it started from. */
  lemma ScanNeverWorse(s: seq<Point>, w: nat, init: Closest)
    ensures !Less(init.d, ScanFrom(s, w, 0, init).d)
  {
    ScanSpec(s, w, init);
  }

  // ---------------------------------------------------------------------
  // Brute force: forceBrute and pairePlusProcheNaive
  // ---------------------------------------------------------------------

  /** The value computed by the double loop of forceBrute / pairePlusProcheNaive:
      every pair i < j, no window (w = |s| admits every j). */
  function Brute(s: seq<Point>): Closest {
    if |s| < 2 then NoPair else ScanFrom(s, |s|, 0, NoPair)
  }

  /** With fewer than two points the sentinel is returned; otherwise the result
      is the pair at positions a < b that is closest, the first such pair in
      loop order (the strict `<` keeps earlier ties); for two points it is
      exactly those two points. */
  lemma {:induction false} BruteIsFirstClosest(s: seq<Point>)
    ensures |s| < 2 ==> Brute(s) == NoPair
    ensures |s| >= 2 ==> exists a, b :: InWindow(|s|, |s|, a, b) && Brute(s) == PairAt(s, a, b) &&
                                        FirstMinimal(s, |s|, |s|, |s| + 1, a, b)
    ensures |s| == 2 ==> Brute(s) == PairAt(s, 0, 1)
  {
    if |s| >= 2 {
      ScanSpec(s, |s|, NoPair);
      assert InWindow(|s|, |s|, 0, 1);
      assert Less(Fin(SqDist(s[0], s[1])), NoPair.d);
      if |s| == 2 {
        var a, b :| InWindow(|s|, |s|, a, b) && Brute(s) == PairAt(s, a, b);
        assert a == 0 && b == 1;
      }
    }
  }

  /** The brute-force result is a closest pair of its input. */
  lemma BruteIsClosest(s: seq<Point>)
    requires |s| >= 2
    ensures IsClosest(Brute(s), s)
  {
    BruteIsFirstClosest(s);
    var a, b :| InWindow(|s|, |s|, a, b) && Brute(s) == PairAt(s, a, b) &&
                FirstMinimal(s, |s|, |s|, |s| + 1, a, b);
    PositionsArePair(s, a, b);
    forall c, e | 0 <= c < e < |s| ensures Brute(s).d.sq <= SqDist(s[c], s[e]) {
      assert Seen(|s|, |s|, |s|, |s| + 1, c, e);
    }
  }

  /** forceBrute (shamos_algorithm.go:49-69). */
  method ForceBrute(points: seq<Point>) returns (r: Closest)
    ensures r == Brute(points)
  {
    var n := |points|;
    if n < 2 {
      return NoPair;
    }
    var minDist := Inf;
    var p1, p2 := Point(0.0, 0.0), Point(0.0, 0.0);
    var i := 0;
    while i < n
      invariant 0 <= i <= n
      invariant ScanFrom(points, n, i, Closest(p1, p2, minDist)) == ScanFrom(points, n, 0, NoPair)
    {
      var j := i + 1;
      while j < n
        invariant i + 1 <= j <= n
        invariant ScanFrom(points, n, i + 1, ScanRow(points, n, i, j, Closest(p1, p2, minDist)))
               == ScanFrom(points, n, 0, NoPair)
      {
        var d := SqDist(points[i], points[j]);
        if Less(Fin(d), minDist) {
          minDist := Fin(d);
          p1, p2 := points[i], points[j];
        }
        j := j + 1;
      }
      i := i + 1;
    }
    r := Closest(p1, p2, minDist);
  }

  /** pairePlusProcheNaive (shamos_algorithm.go:24-44), the reference the
      divide-and-conquer result is compared with; its body is a copy of
      forceBrute's. */
  method PairePlusProcheNaive(points: seq<Point>) returns (r: Closest)
    ensures |points| < 2 ==> r == NoPair
    ensures |points| >= 2 ==> IsClosest(r, points)
  {
    r := ForceBrute(points);
    BruteIsFirstClosest(points);
    if |points| >= 2 {
      BruteIsClosest(points);
    }
  }
}
