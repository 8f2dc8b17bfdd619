/** The divide-and-conquer closest-pair algorithm of shamos_algorithm.go
    (lines 130-184): the recursion `pairePlusProcheRec` as written, the same
    recursion over the consistent partition, and the entry point
    `PairePlusProche`. */
module Shamos {
  import opened Points
  import opened PairScan
  import opened Partition
  import opened Packing
  import opened Strip
  import opened Sorting

  /** The choice between the two halves' results (shamos_algorithm.go:147-156):
      the left one only when strictly closer, so ties go to the right. */
  function PickBest(left: Closest, right: Closest): (best: Closest)
    ensures best == left || best == right
    ensures !Less(left.d, best.d) && !Less(right.d, best.d)
    ensures left.d == right.d ==> best == right
  {
    if Less(left.d, right.d) then left else right
  }

  // ---------------------------------------------------------------------
  // pairePlusProcheRec as written
  // ---------------------------------------------------------------------

  /** `pairePlusProcheRec` (shamos_algorithm.go:131-160) over the partition
      `diviser` computes: brute force up to three points, otherwise recurse on
      both halves, keep the better, and merge across the median line. */
  function ShamosAsWritten(px: seq<Point>, py: seq<Point>): Closest
    decreases |px|
  {
    if |px| <= 3 then Brute(px)
    else
      var h := Split(px, py);
      Merge(px, py, PickBest(ShamosAsWritten(h.pxL, h.pyL), ShamosAsWritten(h.pxR, h.pyR)))
  }

  /** The recursion as written reports a genuine pair, drawn from Px or from
      Py, or the sentinel for fewer than two points. */
  lemma {:induction false} ShamosAsWrittenSound(px: seq<Point>, py: seq<Point>)
    ensures |px| < 2 ==> ShamosAsWritten(px, py) == NoPair
    ensures |px| >= 2 ==> PairOf(ShamosAsWritten(px, py), px) || PairOf(ShamosAsWritten(px, py), py)
    decreases |px|
  {
    var r := ShamosAsWritten(px, py);
    if |px| <= 3 {
      BruteIsFirstClosest(px);
      if |px| >= 2 {
        BruteIsClosest(px);
      }
    } else {
      var h := Split(px, py);
      var left, right := ShamosAsWritten(h.pxL, h.pyL), ShamosAsWritten(h.pxR, h.pyR);
      ShamosAsWrittenSound(h.pxL, h.pyL);
      ShamosAsWrittenSound(h.pxR, h.pyR);
      SplitSubsets(px, py);
      var best := PickBest(left, right);
      MergeOutcome(px, py, best);
      if r == best {
        if best == left {
          PairOfEither(left, h.pxL, h.pyL, px, py);
        } else {
          PairOfEither(right, h.pxR, h.pyR, px, py);
        }
      }
    }
  }

  /** Each of the four slices `diviser` returns is drawn from Px or from Py. */
  lemma SplitSubsets(px: seq<Point>, py: seq<Point>)
    requires |px| > 0
    ensures var h := Split(px, py);
      && multiset(h.pxL) <= multiset(px) && multiset(h.pxR) <= multiset(px)
      && multiset(h.pyL) <= multiset(py) && multiset(h.pyR) <= multiset(py)
  {
    var h := Split(px, py);
    assert px == h.pxL + h.pxR;
    SplitFiltersPartition(py, px[|px| / 2].x);
  }

  /** A pair of a sub-multiset is a pair of the whole. */
  lemma PairOfEither(r: Closest, s: seq<Point>, t: seq<Point>, s': seq<Point>, t': seq<Point>)
    requires PairOf(r, s) || PairOf(r, t)
    requires multiset(s) <= multiset(s') && multiset(t) <= multiset(t')
    ensures PairOf(r, s') || PairOf(r, t')
  {
  }

  /** Hence, on a permutation Py of Px, its distance is never below the true
      closest distance. */
  lemma ShamosAsWrittenNeverBelow(px: seq<Point>, py: seq<Point>)
    requires |px| >= 2 && multiset(px) == multiset(py)
    ensures PairOf(ShamosAsWritten(px, py), px)
    ensures !Less(ShamosAsWritten(px, py).d, Brute(px).d)
  {
    ShamosAsWrittenSound(px, py);
    BruteIsClosest(px);
    PairRespectsLowerBound(ShamosAsWritten(px, py), px, Brute(px).d.sq);
  }

  // ---------------------------------------------------------------------
  // The recursion over the consistent partition
  // ---------------------------------------------------------------------

  /** The recursion of `pairePlusProcheRec` with Py split so that each Py half
      holds the points of the Px half of the same side. */
  function Shamos(px: seq<Point>, py: seq<Point>): Closest
    decreases |px|
  {
    if |px| <= 3 then Brute(px)
    else
      var h := SplitConsistent(px, py);
      Merge(px, py, PickBest(Shamos(h.pxL, h.pyL), Shamos(h.pxR, h.pyR)))
  }

  /** A slice of a sorted sequence is sorted. */
  lemma SliceSorted(s: seq<Point>, axis: Axis, lo: nat, hi: nat)
    requires lo <= hi <= |s| && SortedBy(s, axis)
    ensures SortedBy(s[lo..hi], axis)
  {
    forall k, l | 0 <= k < l < hi - lo ensures Key(s[lo..hi][k], axis) <= Key(s[lo..hi][l], axis) {
      assert s[lo..hi][k] == s[lo + k] && s[lo..hi][l] == s[lo + l];
    }
  }

  /** The band around the median of sorted Px, built from Py sorted by Y:
      sorted by Y, made of points of the two Px halves, all closer than
      sqrt(d) to the median line, with PxGauche on its left and PxDroite on
      its right. */
  lemma BandShape(px: seq<Point>, py: seq<Point>, d: real)
    requires SortedBy(px, X) && SortedBy(py, Y) && multiset(px) == multiset(py) && |px| > 0
    ensures var mid := |px| / 2; var m := px[mid]; var band := Band(py, m.x, Fin(d));
      && SortedBy(band, Y)
      && multiset(band) <= multiset(px[..mid]) + multiset(px[mid..])
      && (forall u :: u in band ==> Holds(Near(m.x, Fin(d)), u))
      && (forall u :: u in px[..mid] ==> u.x <= m.x)
      && (forall u :: u in px[mid..] ==> m.x <= u.x)
  {
    var mid := |px| / 2;
    var m := px[mid];
    var band := Band(py, m.x, Fin(d));
    FilterSorted(py, Near(m.x, Fin(d)), Y);
    assert multiset(px[..mid]) + multiset(px[mid..]) == multiset(py) by {
      assert px == px[..mid] + px[mid..];
    }
    FilterMultiset(py, Near(m.x, Fin(d)));
    SplitPx(px, py);
  }

  /** Two entries of Px passing the band test are two entries of the band. */
  lemma PairInBand(px: seq<Point>, py: seq<Point>, mx: real, d: real, i: nat, j: nat)
    requires multiset(px) == multiset(py) && i < j < |px|
    requires Holds(Near(mx, Fin(d)), px[i]) && Holds(Near(mx, Fin(d)), px[j])
    ensures multiset{px[i], px[j]} <= multiset(Band(py, mx, Fin(d)))
  {
    var pair := multiset{px[i], px[j]};
    PositionsArePair(px, i, j);
    forall x ensures pair[x] <= multiset(Band(py, mx, Fin(d)))[x] {
      FilterCount(py, Near(mx, Fin(d)), x);
      if x != px[i] && x != px[j] {
        assert pair[x] == 0;
      }
    }
  }

  /** A pair straddling the median line and closer than sqrt(d) sits at two
      positions of the band. */
  lemma CrossPairInBand(px: seq<Point>, py: seq<Point>, d: real, i: nat, j: nat) returns (a: nat, b: nat)
    requires SortedBy(px, X) && multiset(px) == multiset(py)
    requires i < |px| / 2 <= j < |px|
    requires SqDist(px[i], px[j]) < d
    ensures var band := Band(py, px[|px| / 2].x, Fin(d));
      a < b < |band| && SqDist(band[a], band[b]) == SqDist(px[i], px[j])
  {
    var mid := |px| / 2;
    var m := px[mid];
    var band := Band(py, m.x, Fin(d));
    assert Key(px[i], X) <= Key(px[mid], X);
    if mid < j {
      assert Key(px[mid], X) <= Key(px[j], X);
    }
    assert Holds(Near(m.x, Fin(d)), px[i]) && Holds(Near(m.x, Fin(d)), px[j]) by {
      BothInBand(px[i], px[j], m.x, d);
    }
    PairInBand(px, py, m.x, d, i, j);
    var a0, b0 := PairHasPositions(band, px[i], px[j]);
    SqDistSymmetric(px[i], px[j]);
    if a0 < b0 {
      a, b := a0, b0;
    } else {
      a, b := b0, a0;
    }
  }

  /** A pair straddling the median line and closer than both halves' best
      distance shows up, in the band, at most seven places apart. */
  lemma CrossPairInWindow(px: seq<Point>, py: seq<Point>, d: real, i: nat, j: nat) returns (a: nat, b: nat)
    requires SortedBy(px, X) && SortedBy(py, Y) && multiset(px) == multiset(py)
    requires i < |px| / 2 <= j < |px|
    requires LowerBound(px[..|px| / 2], d) && LowerBound(px[|px| / 2..], d)
    requires SqDist(px[i], px[j]) < d
    ensures var band := Band(py, px[|px| / 2].x, Fin(d));
      InWindow(|band|, Window, a, b) && SqDist(band[a], band[b]) == SqDist(px[i], px[j])
  {
    var mid := |px| / 2;
    var band := Band(py, px[mid].x, Fin(d));
    a, b := CrossPairInBand(px, py, d, i, j);
    BandShape(px, py, d);
    WindowBound(band, px[..mid], px[mid..], px[mid].x, d, a, b);
  }

  /** Two points on either side of the line x = mx and closer than sqrt(d)
      both lie closer than sqrt(d) to the line. */
  lemma BothInBand(p: Point, q: Point, mx: real, d: real)
    requires p.x <= mx <= q.x && SqDist(p, q) < d
    ensures (p.x - mx) * (p.x - mx) < d && (q.x - mx) * (q.x - mx) < d
  {
    SquareNonnegative(p.y - q.y);
    SquareBound(p.x - mx, q.x - p.x);
    SquareBound(q.x - mx, q.x - p.x);
    assert (q.x - p.x) * (q.x - p.x) == (p.x - q.x) * (p.x - q.x);
  }

  /** The better of closest pairs of the two Px halves is a genuine pair of
      Px, and neither half has a pair closer than it. */
  lemma BestOfHalves(px: seq<Point>, left: Closest, right: Closest)
    requires IsClosest(left, px[..|px| / 2]) && IsClosest(right, px[|px| / 2..])
    ensures var best := PickBest(left, right);
      && PairOf(best, px)
      && LowerBound(px[..|px| / 2], best.d.sq) && LowerBound(px[|px| / 2..], best.d.sq)
  {
    var mid := |px| / 2;
    assert px == px[..mid] + px[mid..];
    assert multiset(px) == multiset(px[..mid]) + multiset(px[mid..]);
  }

  /** No pair of Px is closer than the merge's result. */
  lemma MergeNotBeaten(px: seq<Point>, py: seq<Point>, best: Closest, i: nat, j: nat)
    requires SortedBy(px, X) && SortedBy(py, Y) && multiset(px) == multiset(py)
    requires best.d.Fin? && LowerBound(px[..|px| / 2], best.d.sq) && LowerBound(px[|px| / 2..], best.d.sq)
    requires i < j < |px|
    ensures Merge(px, py, best).d.Fin? && Merge(px, py, best).d.sq <= SqDist(px[i], px[j])
  {
    var mid := |px| / 2;
    var d := best.d.sq;
    var band := Band(py, px[mid].x, best.d);
    var r := Merge(px, py, best);
    MergeOutcome(px, py, best);
    if j < mid {
      assert px[i] == px[..mid][i] && px[j] == px[..mid][j];
    } else if mid <= i {
      assert px[i] == px[mid..][i - mid] && px[j] == px[mid..][j - mid];
    } else if SqDist(px[i], px[j]) < d {
      var a, b := CrossPairInWindow(px, py, d, i, j);
      MergeBelowWindow(px, py, best, a, b);
    }
  }

  /** The merge step completes the recursion: from closest pairs of both Px
      halves, `combiner` yields a closest pair of Px. */
  lemma MergeFindsClosest(px: seq<Point>, py: seq<Point>, left: Closest, right: Closest)
    requires SortedBy(px, X) && SortedBy(py, Y) && multiset(px) == multiset(py)
    requires IsClosest(left, px[..|px| / 2]) && IsClosest(right, px[|px| / 2..])
    ensures IsClosest(Merge(px, py, PickBest(left, right)), px)
  {
    var best := PickBest(left, right);
    var r := Merge(px, py, best);
    BestOfHalves(px, left, right);
    MergeOutcome(px, py, best);
    if r != best {
      assert PairOf(r, py);
    }
    forall i, j | 0 <= i < j < |px| ensures r.d.sq <= SqDist(px[i], px[j]) {
      MergeNotBeaten(px, py, best, i, j);
    }
  }

  /** The recursion over the consistent partition returns a closest pair of
      Px, or the sentinel for fewer than two points. */
  lemma {:induction false} ShamosCorrect(px: seq<Point>, py: seq<Point>)
    requires SortedBy(px, X) && SortedBy(py, Y) && multiset(px) == multiset(py)
    ensures |px| < 2 ==> Shamos(px, py) == NoPair
    ensures |px| >= 2 ==> IsClosest(Shamos(px, py), px)
    decreases |px|
  {
    if |px| <= 3 {
      BruteIsFirstClosest(px);
      if |px| >= 2 {
        BruteIsClosest(px);
      }
    } else {
      var mid := |px| / 2;
      var h := SplitConsistent(px, py);
      SplitConsistentSpec(px, py);
      SliceSorted(px, X, 0, mid);
      SliceSorted(px, X, mid, |px|);
      assert px[0..mid] == h.pxL && px[mid..|px|] == h.pxR;
      ShamosCorrect(h.pxL, h.pyL);
      ShamosCorrect(h.pxR, h.pyR);
      MergeFindsClosest(px, py, Shamos(h.pxL, h.pyL), Shamos(h.pxR, h.pyR));
    }
  }

  /** `pairePlusProcheRec` (shamos_algorithm.go:131-160), calling the
      brute-force solver, the consistent partition and the merge. */
  method PairePlusProcheRec(px: seq<Point>, py: seq<Point>) returns (r: Closest)
    ensures r == Shamos(px, py)
    decreases |px|
  {
    var n := |px|;
    if n <= 3 {
      r := ForceBrute(px);
      return;
    }
    var pxG, pxD, pyG, pyD := DiviserConsistent(px, py);
    var left := PairePlusProcheRec(pxG, pyG);
    var right := PairePlusProcheRec(pxD, pyD);
    var best: Closest;
    if Less(left.d, right.d) {
      best := left;
    } else {
      best := right;
    }
    r := Combiner(px, py, best.d, best.p1, best.p2);
  }

  /** `PairePlusProche` (shamos_algorithm.go:164-184): copy the points twice,
      sort one copy by X and the other by Y, and recurse. The result is the
      closest distance brute force finds, carried by a closest pair. */
  method PairePlusProche(points: seq<Point>) returns (r: Closest)
    ensures |points| < 2 ==> r == NoPair
    ensures |points| >= 2 ==> IsClosest(r, points) && r.d == Brute(points).d
  {
    if |points| < 2 {
      return NoPair;
    }
    var px := new Point[|points|](i requires 0 <= i < |points| => points[i]);
    var py := new Point[|points|](i requires 0 <= i < |points| => points[i]);
    assert px[..] == points && py[..] == points;
    SortBy(px, X);
    SortBy(py, Y);
    r := PairePlusProcheRec(px[..], py[..]);
    ShamosCorrect(px[..], py[..]);
    LowerBoundPermutation(px[..], points, r.d.sq);
    BruteIsClosest(points);
    ClosestDistanceUnique(r, Brute(points), points);
  }
}
