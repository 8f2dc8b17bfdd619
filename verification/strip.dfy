/** The merge step `combiner` of shamos_algorithm.go (lines 98-128): the band
    of Py around the median line and the scan of each band point against the
    seven points that follow it. */
module Strip {
  import opened Points
  import opened PairScan
  import opened Partition
  import opened Packing

  /** The band: the points of Py closer to the vertical line x = mx than the
      current best distance, in Py's order. With d the squared best distance,
      |p.x - mx| < sqrt(d) is (p.x - mx)^2 < d. */
  function Band(py: seq<Point>, mx: real, d: Dist): seq<Point> {
    Filter(py, Near(mx, d))
  }

  /** `j < len(bande) && j < i+8`: each band point meets the next seven. */
  const Window: nat := 7

  /** The value `combiner(Px, Py, best.d, best.p1, best.p2)` returns. */
  function Merge(px: seq<Point>, py: seq<Point>, best: Closest): Closest
    requires |px| > 0
  {
    ScanFrom(Band(py, px[|px| / 2].x, best.d), Window, 0, best)
  }

  /** What `combiner` promises: it returns best unless a compared band pair is
      strictly closer, and then the first compared band pair of least
      distance, which is a genuine pair of Py; it never reports a larger
      distance than best. */
  lemma MergeOutcome(px: seq<Point>, py: seq<Point>, best: Closest)
    requires |px| > 0
    ensures var band := Band(py, px[|px| / 2].x, best.d); var r := Merge(px, py, best);
      && ScanOutcome(band, Window, best, r)
      && !Less(best.d, r.d)
      && (r != best ==> PairOf(r, py) && Less(r.d, best.d))
      && (r == best <==> forall a, b :: InWindow(|band|, Window, a, b) ==> !Less(Fin(SqDist(band[a], band[b])), best.d))
  {
    var band := Band(py, px[|px| / 2].x, best.d);
    var r := Merge(px, py, best);
    ScanSpec(band, Window, best);
    ScanNeverWorse(band, Window, best);
    FilterMultiset(py, Near(px[|px| / 2].x, best.d));
    if r != best {
      var a, b :| InWindow(|band|, Window, a, b) && r == PairAt(band, a, b) && Less(r.d, best.d) &&
                  FirstMinimal(band, Window, |band|, |band| + 1, a, b);
      PositionsArePair(band, a, b);
    }
  }

  /** No pair `combiner` compares is strictly closer than what it returns. */
  lemma MergeBelowWindow(px: seq<Point>, py: seq<Point>, best: Closest, a: nat, b: nat)
    requires |px| > 0
    requires InWindow(|Band(py, px[|px| / 2].x, best.d)|, Window, a, b)
    ensures var band := Band(py, px[|px| / 2].x, best.d);
      !Less(Fin(SqDist(band[a], band[b])), Merge(px, py, best).d)
  {
    var band := Band(py, px[|px| / 2].x, best.d);
    var r := Merge(px, py, best);
    ScanSpec(band, Window, best);
    if r != best {
      var a', b' :| InWindow(|band|, Window, a', b') && r == PairAt(band, a', b') && Less(r.d, best.d) &&
                    FirstMinimal(band, Window, |band|, |band| + 1, a', b');
      assert Seen(|band|, Window, |band|, |band| + 1, a, b);
    }
  }

  /** `combiner` (shamos_algorithm.go:99-128). */
  method Combiner(px: seq<Point>, py: seq<Point>, d: Dist, p1Best: Point, p2Best: Point)
    returns (r: Closest)
    requires |px| > 0
    ensures r == Merge(px, py, Closest(p1Best, p2Best, d))
  {
    var n := |px|;
    var mid := n / 2;
    var pointMedian := px[mid];
    var bande := [];
    var k := 0;
    while k < |py|
      invariant 0 <= k <= |py|
      invariant bande == Filter(py[..k], Near(pointMedian.x, d))
    {
      var p := py[k];
      assert py[..k + 1][..k] == py[..k];
      if d.Inf? || (p.x - pointMedian.x) * (p.x - pointMedian.x) < d.sq {
        bande := bande + [p];
      }
      k := k + 1;
    }
    assert py[..|py|] == py;
    ghost var goal := Merge(px, py, Closest(p1Best, p2Best, d));
    var minDist := d;
    var bestP1, bestP2 := p1Best, p2Best;
    var i := 0;
    while i < |bande|
      invariant 0 <= i <= |bande|
      invariant ScanFrom(bande, Window, i, Closest(bestP1, bestP2, minDist)) == goal
    {
      var j := i + 1;
      while j < |bande| && j < i + 8
        invariant i + 1 <= j <= |bande|
        invariant ScanFrom(bande, Window, i + 1, ScanRow(bande, Window, i, j, Closest(bestP1, bestP2, minDist))) == goal
      {
        var dist := SqDist(bande[i], bande[j]);
        if Less(Fin(dist), minDist) {
          minDist := Fin(dist);
          bestP1, bestP2 := bande[i], bande[j];
        }
        j := j + 1;
      }
      i := i + 1;
    }
    r := Closest(bestP1, bestP2, minDist);
  }

  // ---------------------------------------------------------------------
  // Why seven following points suffice
  // ---------------------------------------------------------------------

  /** Two points within sqrt(d) of the line x = mx on the same side, whose y
      lie in a range below sqrt(d), differ by less than sqrt(d) on each axis. */
  lemma CloseOnBothAxes(p: Point, q: Point, mx: real, ylo: real, yhi: real, d: real, left: bool)
    requires (p.x - mx) * (p.x - mx) < d && (q.x - mx) * (q.x - mx) < d
    requires if left then p.x <= mx && q.x <= mx else mx <= p.x && mx <= q.x
    requires ylo <= p.y <= yhi && ylo <= q.y <= yhi && (yhi - ylo) * (yhi - ylo) < d
    ensures (p.x - q.x) * (p.x - q.x) < d && (p.y - q.y) * (p.y - q.y) < d
  {
    if left {
      assert (mx - p.x) * (mx - p.x) == (p.x - mx) * (p.x - mx);
      assert (mx - q.x) * (mx - q.x) == (q.x - mx) * (q.x - mx);
      SameSideClose(mx - p.x, mx - q.x, d);
      assert (p.x - q.x) * (p.x - q.x) == ((mx - p.x) - (mx - q.x)) * ((mx - p.x) - (mx - q.x));
    } else {
      SameSideClose(p.x - mx, q.x - mx, d);
      assert (p.x - q.x) * (p.x - q.x) == ((p.x - mx) - (q.x - mx)) * ((p.x - mx) - (q.x - mx));
    }
    SquareBound(p.y - q.y, yhi - ylo);
  }

  /** An entry of a sequence whose multiset is within half's is in half. */
  lemma SubMember(part: seq<Point>, half: seq<Point>, i: nat)
    requires multiset(part) <= multiset(half) && i < |part|
    ensures part[i] in part && part[i] in half
  {
    assert part[i] in multiset(part);
  }

  /** Two entries of a sub-multiset of half lie at least as far apart as any
      lower bound of half. */
  lemma SubPairApart(part: seq<Point>, half: seq<Point>, d: real, i: nat, j: nat)
    requires multiset(part) <= multiset(half) && LowerBound(half, d)
    requires i < |part| && j < |part| && i != j
    ensures d <= SqDist(part[i], part[j])
  {
    PositionsArePair(part, i, j);
    PairRespectsLowerBound(PairAt(part, i, j), half, d);
  }

  /** Heights ylo and yhi differ by less than sqrt(d). */
  ghost predicate Short(ylo: real, yhi: real, d: real) {
    (yhi - ylo) * (yhi - ylo) < d
  }

  /** p lies within sqrt(d) of the line x = mx, at a height between ylo and yhi. */
  ghost predicate InBox(p: Point, mx: real, ylo: real, yhi: real, d: real) {
    (p.x - mx) * (p.x - mx) < d && ylo <= p.y <= yhi
  }

  /** Two entries of such a part are Apart. */
  lemma SideApart(part: seq<Point>, half: seq<Point>, mx: real, ylo: real, yhi: real, d: real, left: bool, i: nat, j: nat)
    requires multiset(part) <= multiset(half) && LowerBound(half, d)
    requires forall p :: p in half ==> (if left then p.x <= mx else mx <= p.x)
    requires forall p :: p in part ==> InBox(p, mx, ylo, yhi, d)
    requires Short(ylo, yhi, d)
    requires i < |part| && j < |part| && i != j
    ensures Apart(part, d, i, j)
  {
    var p, q := part[i], part[j];
    SubMember(part, half, i);
    SubMember(part, half, j);
    CloseOnBothAxes(p, q, mx, ylo, yhi, d, left);
    SubPairApart(part, half, d, i, j);
  }

  /** The part of a band window drawn from one side of the median line holds
      at most four points: they lie within sqrt(d) of the line on that side,
      within the window's height (below sqrt(d)), and are pairwise at least
      sqrt(d) apart since they are points of one half. */
  lemma SideOfWindow(part: seq<Point>, half: seq<Point>, mx: real, ylo: real, yhi: real, d: real, left: bool)
    requires multiset(part) <= multiset(half) && LowerBound(half, d)
    requires forall p :: p in half ==> (if left then p.x <= mx else mx <= p.x)
    requires forall p :: p in part ==> InBox(p, mx, ylo, yhi, d)
    requires Short(ylo, yhi, d)
    ensures |part| <= 4
  {
    forall i: nat, j: nat | i < |part| && j < |part| && i != j ensures Apart(part, d, i, j) {
      SideApart(part, half, mx, ylo, yhi, d, left, i, j);
    }
    AtMostFour(part, d);
  }

  /** The band entries from a to b, inclusive, lie within sqrt(d) of the line
      and between the heights of entries a and b, which differ by less than
      sqrt(d) when entries a and b are closer than sqrt(d). */
  lemma WindowInBox(band: seq<Point>, mx: real, d: real, a: nat, b: nat)
    requires SortedBy(band, Y)
    requires forall p :: p in band ==> Holds(Near(mx, Fin(d)), p)
    requires a < b < |band| && SqDist(band[a], band[b]) < d
    ensures Short(band[a].y, band[b].y, d)
    ensures forall p :: p in band[a..b + 1] ==> InBox(p, mx, band[a].y, band[b].y, d)
  {
    var win := band[a..b + 1];
    assert Key(band[a], Y) <= Key(band[b], Y);
    SquareNonnegative(band[a].x - band[b].x);
    forall p | p in win ensures InBox(p, mx, band[a].y, band[b].y, d) {
      var k :| 0 <= k < |win| && win[k] == p;
      assert band[a + k] == p && p in band;
      assert Key(band[a], Y) <= Key(band[a + k], Y) <= Key(band[b], Y);
    }
  }

  /** A window drawn from two halves splits into a part from each. */
  lemma SplitWindow(win: seq<Point>, left: seq<Point>, right: seq<Point>) returns (parts: (seq<Point>, seq<Point>))
    requires multiset(win) <= multiset(left) + multiset(right)
    ensures multiset(parts.0) <= multiset(left) && multiset(parts.1) <= multiset(right)
    ensures forall p :: p in parts.0 ==> p in win
    ensures forall p :: p in parts.1 ==> p in win
    ensures |win| == |parts.0| + |parts.1|
  {
    parts := TakeCounted(win, multiset(left));
    TakeCountedMultiset(win, multiset(left));
    assert multiset(parts.1) <= multiset(right) by {
      forall p ensures multiset(parts.1)[p] <= multiset(right)[p] {
        TakeCountedCount(win, multiset(left), p);
      }
    }
    assert forall p :: p in parts.0 ==> p in multiset(win);
    assert forall p :: p in parts.1 ==> p in multiset(win);
    assert |win| == |parts.0| + |parts.1| by {
      assert |multiset(win)| == |multiset(parts.0)| + |multiset(parts.1)|;
    }
  }

  /** A slice holds no more of any point than the whole sequence. */
  lemma SliceMultiset(s: seq<Point>, lo: nat, hi: nat)
    requires lo <= hi <= |s|
    ensures multiset(s[lo..hi]) <= multiset(s)
  {
    assert s == s[..lo] + s[lo..hi] + s[hi..];
  }

  /** A window of band points within sqrt(d) of the line and less than sqrt(d)
      high, drawn from two halves with no pair closer than sqrt(d), holds at
      most eight points. */
  lemma WindowSize(win: seq<Point>, left: seq<Point>, right: seq<Point>, mx: real, ylo: real, yhi: real, d: real)
    requires multiset(win) <= multiset(left) + multiset(right)
    requires forall p :: p in left ==> p.x <= mx
    requires forall p :: p in right ==> mx <= p.x
    requires LowerBound(left, d) && LowerBound(right, d)
    requires forall p :: p in win ==> InBox(p, mx, ylo, yhi, d)
    requires Short(ylo, yhi, d)
    ensures |win| <= 2 * 4
  {
    var parts := SplitWindow(win, left, right);
    SideOfWindow(parts.0, left, mx, ylo, yhi, d, true);
    SideOfWindow(parts.1, right, mx, ylo, yhi, d, false);
  }

  /** Two band points closer than sqrt(d) sit at most seven places apart in
      the band, when each half on its side of the line has no pair closer
      than sqrt(d): the band entries between them, inclusive, split into at
      most four from each half. */
  lemma WindowBound(band: seq<Point>, left: seq<Point>, right: seq<Point>, mx: real, d: real, a: nat, b: nat)
    requires SortedBy(band, Y)
    requires multiset(band) <= multiset(left) + multiset(right)
    requires forall p :: p in band ==> Holds(Near(mx, Fin(d)), p)
    requires forall p :: p in left ==> p.x <= mx
    requires forall p :: p in right ==> mx <= p.x
    requires LowerBound(left, d) && LowerBound(right, d)
    requires a < b < |band| && SqDist(band[a], band[b]) < d
    ensures b - a <= Window
  {
    var win := band[a..b + 1];
    var ylo, yhi := band[a].y, band[b].y;
    WindowInBox(band, mx, d, a, b);
    assert multiset(win) <= multiset(left) + multiset(right) by {
      SliceMultiset(band, a, b + 1);
    }
    WindowSize(win, left, right, mx, ylo, yhi, d);
    assert |win| == b + 1 - a;
  }
}
