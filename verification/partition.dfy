/** The partition step `diviser` of shamos_algorithm.go (lines 72-96), the
    order-preserving filters it and `combiner` build with `append`, and a
    corrected partition whose Py halves hold exactly the points of the Px
    halves. */
module Partition {
  import opened Points

  /** The tests the source applies to each point of Py. */
  datatype Test =
    | AtMost(mx: real)           // p.X <= pointMedian.X
    | Beyond(mx: real)           // the else branch of that test
    | Near(mx: real, d: Dist)    // math.Abs(p.X - pointMedian.X) < d

  predicate Holds(t: Test, p: Point) {
    match t
    case AtMost(mx) => p.x <= mx
    case Beyond(mx) => !(p.x <= mx)
    case Near(mx, d) => d.Inf? || (p.x - mx) * (p.x - mx) < d.sq
  }

  /** The entries of s passing t, in their order in s: what a loop over s
      appending the passing entries builds. */
  function Filter(s: seq<Point>, t: Test): seq<Point> {
    if s == [] then []
    else Filter(s[..|s| - 1], t) + (if Holds(t, s[|s| - 1]) then [s[|s| - 1]] else [])
  }

  /** A filter keeps every copy of a passing point and no copy of another. */
  lemma {:induction false} FilterCount(s: seq<Point>, t: Test, p: Point)
    ensures multiset(Filter(s, t))[p] == if Holds(t, p) then multiset(s)[p] else 0
  {
    if s != [] {
      var init, last := s[..|s| - 1], s[|s| - 1];
      assert s == init + [last];
      FilterCount(init, t, p);
    }
  }

  lemma FilterMultiset(s: seq<Point>, t: Test)
    ensures multiset(Filter(s, t)) <= multiset(s)
    ensures forall p :: p in Filter(s, t) <==> p in s && Holds(t, p)
  {
    forall p ensures multiset(Filter(s, t))[p] <= multiset(s)[p] {
      FilterCount(s, t, p);
    }
    forall p ensures p in Filter(s, t) <==> p in s && Holds(t, p) {
      FilterCount(s, t, p);
    }
  }

  /** The two branches of the test in `diviser` split Py without loss or duplication. */
  lemma SplitFiltersPartition(s: seq<Point>, mx: real)
    ensures multiset(Filter(s, AtMost(mx))) + multiset(Filter(s, Beyond(mx))) == multiset(s)
  {
    forall p ensures (multiset(Filter(s, AtMost(mx))) + multiset(Filter(s, Beyond(mx))))[p] == multiset(s)[p] {
      FilterCount(s, AtMost(mx), p);
      FilterCount(s, Beyond(mx), p);
    }
  }

  /** A filter of a sorted sequence is sorted: it keeps the order of s. */
  lemma {:induction false} FilterSorted(s: seq<Point>, t: Test, axis: Axis)
    requires SortedBy(s, axis)
    ensures SortedBy(Filter(s, t), axis)
  {
    if s != [] {
      var init, last := s[..|s| - 1], s[|s| - 1];
      FilterSorted(init, t, axis);
      var f := Filter(init, t);
      forall k | 0 <= k < |f| ensures Key(f[k], axis) <= Key(last, axis) {
        FilterMultiset(init, t);
        assert f[k] in init;
        var m :| 0 <= m < |init| && init[m] == f[k];
        assert s[m] == f[k];
      }
      if Holds(t, last) {
        SnocSorted(f, last, axis);
      }
    }
  }

  /** A sorted sequence stays sorted when a key no smaller than all of its
      keys is appended. */
  lemma SnocSorted(f: seq<Point>, last: Point, axis: Axis)
    requires SortedBy(f, axis)
    requires forall k :: 0 <= k < |f| ==> Key(f[k], axis) <= Key(last, axis)
    ensures SortedBy(f + [last], axis)
  {
  }

  /** Filters of sequences with equal multisets have equal multisets. */
  lemma FilterPermutation(s: seq<Point>, u: seq<Point>, t: Test)
    requires multiset(s) == multiset(u)
    ensures multiset(Filter(s, t)) == multiset(Filter(u, t))
  {
    forall p ensures multiset(Filter(s, t))[p] == multiset(Filter(u, t))[p] {
      FilterCount(s, t, p);
      FilterCount(u, t, p);
    }
  }

  // ---------------------------------------------------------------------
  // diviser, as written
  // ---------------------------------------------------------------------

  /** The four slices returned by `diviser`. */
  datatype Halves = Halves(pxL: seq<Point>, pxR: seq<Point>, pyL: seq<Point>, pyR: seq<Point>)

  /** `diviser`: Px is cut by index at n/2; Py is cut by the value test
      p.X <= Px[n/2].X. */
  function Split(px: seq<Point>, py: seq<Point>): Halves
    requires |px| > 0
  {
    var mid := |px| / 2;
    var median := px[mid];
    Halves(px[..mid], px[mid..], Filter(py, AtMost(median.x)), Filter(py, Beyond(median.x)))
  }

  /** The Px side of `diviser`: PxGauche + PxDroite == Px with |PxGauche| = n/2,
      the median opens PxDroite, and on sorted Px every left point lies on or
      left of the median and every right point on or right of it. */
  lemma SplitPx(px: seq<Point>, py: seq<Point>)
    requires |px| > 0
    ensures var h := Split(px, py); var median := px[|px| / 2];
      && h.pxL + h.pxR == px && |h.pxL| == |px| / 2
      && median in h.pxR
      && (SortedBy(px, X) ==> (forall p :: p in h.pxL ==> p.x <= median.x) &&
                              (forall p :: p in h.pxR ==> median.x <= p.x))
  {
    var mid := |px| / 2;
    assert px[..mid] + px[mid..] == px;
    assert px[mid..][0] == px[mid];
    if SortedBy(px, X) {
      SortedSides(px, mid);
    }
  }

  /** In a sequence sorted by X, entries before position mid lie on or left
      of entry mid and entries from mid on lie on or right of it. */
  lemma SortedSides(px: seq<Point>, mid: nat)
    requires SortedBy(px, X) && mid < |px|
    ensures forall p :: p in px[..mid] ==> p.x <= px[mid].x
    ensures forall p :: p in px[mid..] ==> px[mid].x <= p.x
  {
    forall p | p in px[..mid] ensures p.x <= px[mid].x {
      var k :| 0 <= k < mid && px[..mid][k] == p;
      assert Key(px[k], X) <= Key(px[mid], X);
    }
    forall p | p in px[mid..] ensures px[mid].x <= p.x {
      var k :| 0 <= k < |px| - mid && px[mid..][k] == p;
      if k > 0 {
        assert Key(px[mid], X) <= Key(px[mid + k], X);
      }
    }
  }

  /** The Py side of `diviser`: PyGauche and PyDroite together are a
      permutation of Py, hold exactly the points of Py on or left of
      (respectively right of) the median, and are sorted by Y when Py is. */
  lemma SplitPy(px: seq<Point>, py: seq<Point>)
    requires |px| > 0
    ensures var h := Split(px, py); var median := px[|px| / 2];
      && multiset(h.pyL) + multiset(h.pyR) == multiset(py)
      && (forall p :: p in h.pyL <==> p in py && p.x <= median.x)
      && (forall p :: p in h.pyR <==> p in py && median.x < p.x)
      && (SortedBy(py, Y) ==> SortedBy(h.pyL, Y) && SortedBy(h.pyR, Y))
  {
    var median := px[|px| / 2];
    SplitFiltersPartition(py, median.x);
    FilterMultiset(py, AtMost(median.x));
    FilterMultiset(py, Beyond(median.x));
    if SortedBy(py, Y) {
      FilterSorted(py, AtMost(median.x), Y);
      FilterSorted(py, Beyond(median.x), Y);
    }
  }

  /** The median sits in PxDroite, but in PyGauche whenever it occurs in Py. */
  lemma SplitMedianSides(px: seq<Point>, py: seq<Point>)
    requires |px| > 0
    ensures var h := Split(px, py); var median := px[|px| / 2];
      median in h.pxR && (median in py ==> median in h.pyL && median !in h.pyR)
  {
    SplitPx(px, py);
    SplitPy(px, py);
  }

  /** No two points of s share an x coordinate, and s is sorted on x. */
  ghost predicate StrictlyIncreasingX(s: seq<Point>) {
    forall i, j :: 0 <= i < j < |s| ==> s[i].x < s[j].x
  }

  /** On sorted Px, the points of Px lying on or left of a threshold reached
      by Px[k] with a strictly larger x after it are exactly Px[..k+1]. */
  lemma {:induction false} FilterOfStrictlySortedPrefix(px: seq<Point>, k: nat, n: nat)
    requires k < n <= |px|
    requires StrictlyIncreasingX(px)
    ensures Filter(px[..n], AtMost(px[k].x)) == px[..k + 1]
    decreases n
  {
    assert px[..n][..n - 1] == px[..n - 1];
    if n == k + 1 {
      if k > 0 {
        assert forall i :: 0 <= i < k ==> px[i].x < px[k].x;
        FilterAllPass(px[..k], AtMost(px[k].x));
      } else {
        assert px[..0] == [];
      }
      assert px[..k + 1] == px[..k] + [px[k]];
    } else {
      FilterOfStrictlySortedPrefix(px, k, n - 1);
    }
  }

  lemma {:induction false} FilterAllPass(s: seq<Point>, t: Test)
    requires forall i :: 0 <= i < |s| ==> Holds(t, s[i])
    ensures Filter(s, t) == s
  {
    if s != [] {
      FilterAllPass(s[..|s| - 1], t);
      assert s == s[..|s| - 1] + [s[|s| - 1]];
    }
  }

  /** The two cuts of `diviser` disagree: when Py is a permutation of Px and
      the x coordinates of Px are strictly increasing, PyGauche holds PxGauche
      plus the median and PyDroite holds PxDroite minus the median. */
  lemma SplitMedianMismatch(px: seq<Point>, py: seq<Point>)
    requires |px| > 0 && multiset(px) == multiset(py)
    requires StrictlyIncreasingX(px)
    ensures var h := Split(px, py); var median := px[|px| / 2];
      && multiset(h.pyL) == multiset(h.pxL) + multiset{median}
      && multiset(h.pyR) == multiset(h.pxR) - multiset{median}
      && multiset(h.pyL) != multiset(h.pxL)
  {
    var mid := |px| / 2;
    var median := px[mid];
    var pxL, pxR := px[..mid], px[mid..];
    var pyL, pyR := Filter(py, AtMost(median.x)), Filter(py, Beyond(median.x));
    assert Split(px, py) == Halves(pxL, pxR, pyL, pyR);
    MedianFilter(px, py);
    SplitFiltersPartition(py, median.x);
    assert px == pxL + pxR;
    assert median in multiset(pxR) by {
      assert pxR[0] == median;
    }
    MultisetCancel(multiset(pyL), multiset(pyR), multiset(pxL), multiset(pxR), median);
    assert multiset(pyL)[median] == multiset(pxL)[median] + 1;
  }

  /** If L + R == A + B and L is A plus one copy of m, taken from B, then R is
      B less that copy. */
  lemma MultisetCancel(L: multiset<Point>, R: multiset<Point>, A: multiset<Point>, B: multiset<Point>, m: Point)
    requires L + R == A + B && L == A + multiset{m} && m in B
    ensures R == B - multiset{m}
  {
    forall p ensures R[p] == (B - multiset{m})[p] {
      assert (L + R)[p] == (A + B)[p];
    }
  }

  /** The left filter of Py at a strictly increasing Px's median holds
      PxGauche and the median. */
  lemma MedianFilter(px: seq<Point>, py: seq<Point>)
    requires |px| > 0 && multiset(px) == multiset(py)
    requires StrictlyIncreasingX(px)
    ensures multiset(Filter(py, AtMost(px[|px| / 2].x))) == multiset(px[..|px| / 2]) + multiset{px[|px| / 2]}
  {
    var mid := |px| / 2;
    var t := AtMost(px[mid].x);
    assert Filter(px, t) == px[..mid + 1] by {
      FilterOfStrictlySortedPrefix(px, mid, |px|);
      assert px[..|px|] == px;
    }
    assert multiset(px[..mid + 1]) == multiset(px[..mid]) + multiset{px[mid]} by {
      assert px[..mid + 1] == px[..mid] + [px[mid]];
    }
    FilterPermutation(py, px, t);
  }

  /** Four points on the x axis: PxGauche gets two of them and PyGauche
      three, so the recursive calls on (PxGauche, PyGauche) receive different
      point sets. */
  lemma SplitMedianMismatchExample()
    ensures var px := [Point(0.0, 0.0), Point(1.0, 0.0), Point(2.0, 0.0), Point(3.0, 0.0)];
      var h := Split(px, px);
      |h.pxL| == 2 && |h.pyL| == 3 && h.pyL == h.pxL + [Point(2.0, 0.0)]
  {
    var px := [Point(0.0, 0.0), Point(1.0, 0.0), Point(2.0, 0.0), Point(3.0, 0.0)];
    var t := AtMost(2.0);
    assert px[..1][..0] == [];
    assert Filter(px[..1], t) == [px[0]];
    assert px[..2][..1] == px[..1];
    assert Filter(px[..2], t) == [px[0], px[1]];
    assert px[..3][..2] == px[..2];
    assert Filter(px[..3], t) == [px[0], px[1], px[2]];
    assert px[..3] == px[..|px| - 1];
    assert Filter(px, t) == [px[0], px[1], px[2]];
  }

  /** `diviser` (shamos_algorithm.go:72-96). */
  method Diviser(px: seq<Point>, py: seq<Point>)
    returns (pxGauche: seq<Point>, pxDroite: seq<Point>, pyGauche: seq<Point>, pyDroite: seq<Point>)
    requires |px| > 0
    ensures Halves(pxGauche, pxDroite, pyGauche, pyDroite) == Split(px, py)
  {
    var n := |px|;
    var mid := n / 2;
    var pointMedian := px[mid];
    pxGauche := px[..mid];
    pxDroite := px[mid..];
    pyGauche := [];
    pyDroite := [];
    var k := 0;
    while k < |py|
      invariant 0 <= k <= |py|
      invariant pyGauche == Filter(py[..k], AtMost(pointMedian.x))
      invariant pyDroite == Filter(py[..k], Beyond(pointMedian.x))
    {
      var p := py[k];
      assert py[..k + 1][..k] == py[..k];
      if p.x <= pointMedian.x {
        pyGauche := pyGauche + [p];
      } else {
        pyDroite := pyDroite + [p];
      }
      k := k + 1;
    }
    assert py[..|py|] == py;
  }

  // ---------------------------------------------------------------------
  // A partition of Py that agrees with the partition of Px
  // ---------------------------------------------------------------------

  /** Walks s in order and sends each entry left while quota still holds a
      copy of it (using that copy up), and right otherwise. */
  function TakeCounted(s: seq<Point>, quota: multiset<Point>): (seq<Point>, seq<Point>)
  {
    if s == [] then ([], [])
    else
      var rest := TakeCounted(s[1..], if s[0] in quota then quota - multiset{s[0]} else quota);
      if s[0] in quota then ([s[0]] + rest.0, rest.1) else (rest.0, [s[0]] + rest.1)
  }

  function Min(a: nat, b: nat): nat { if a <= b then a else b }

  /** Point by point: the left part keeps as many copies of p as s and quota
      both have, and the right part the remaining copies of p in s. */
  lemma {:induction false} TakeCountedCount(s: seq<Point>, quota: multiset<Point>, p: Point)
    ensures multiset(TakeCounted(s, quota).0)[p] == Min(multiset(s)[p], quota[p])
    ensures multiset(TakeCounted(s, quota).0)[p] + multiset(TakeCounted(s, quota).1)[p] == multiset(s)[p]
  {
    if s != [] {
      var x := s[0];
      var q' := if x in quota then quota - multiset{x} else quota;
      TakeCountedCount(s[1..], q', p);
      assert s == [x] + s[1..];
      assert multiset(s)[p] == multiset(s[1..])[p] + (if x == p then 1 else 0);
    }
  }

  /** The left part holds the common part of s and quota; the right part the rest of s. */
  lemma TakeCountedMultiset(s: seq<Point>, quota: multiset<Point>)
    ensures multiset(TakeCounted(s, quota).0) == multiset(s) * quota
    ensures multiset(TakeCounted(s, quota).0) + multiset(TakeCounted(s, quota).1) == multiset(s)
  {
    var r := TakeCounted(s, quota);
    forall p ensures multiset(r.0)[p] == (multiset(s) * quota)[p] {
      TakeCountedCount(s, quota, p);
    }
    forall p ensures (multiset(r.0) + multiset(r.1))[p] == multiset(s)[p] {
      TakeCountedCount(s, quota, p);
    }
  }

  /** Both parts draw only on the entries of s. */
  lemma TakeCountedSubset(s: seq<Point>, quota: multiset<Point>)
    ensures forall p :: p in TakeCounted(s, quota).0 ==> p in s
    ensures forall p :: p in TakeCounted(s, quota).1 ==> p in s
  {
    forall p ensures multiset(TakeCounted(s, quota).0)[p] + multiset(TakeCounted(s, quota).1)[p] == multiset(s)[p] {
      TakeCountedCount(s, quota, p);
    }
  }

  /** Putting a point no later than every entry in front of a sorted sequence keeps it sorted. */
  lemma ConsSorted(x: Point, t: seq<Point>, axis: Axis)
    requires SortedBy(t, axis)
    requires forall p :: p in t ==> Key(x, axis) <= Key(p, axis)
    ensures SortedBy([x] + t, axis)
  {
    var u := [x] + t;
    forall i, j | 0 <= i < j < |u| ensures Key(u[i], axis) <= Key(u[j], axis) {
      assert u[j] == t[j - 1];
      if i > 0 {
        assert u[i] == t[i - 1];
      }
    }
  }

  /** Both parts keep the order of s. */
  lemma {:induction false} TakeCountedSorted(s: seq<Point>, quota: multiset<Point>, axis: Axis)
    requires SortedBy(s, axis)
    ensures SortedBy(TakeCounted(s, quota).0, axis) && SortedBy(TakeCounted(s, quota).1, axis)
  {
    if s != [] {
      var x := s[0];
      var q' := if x in quota then quota - multiset{x} else quota;
      var r := TakeCounted(s[1..], q');
      assert SortedBy(s[1..], axis);
      TakeCountedSorted(s[1..], q', axis);
      TakeCountedSubset(s[1..], q');
      forall p | p in s[1..] ensures Key(x, axis) <= Key(p, axis) {
        var k :| 0 <= k < |s[1..]| && s[1..][k] == p;
        assert s[k + 1] == p;
      }
      if x in quota {
        ConsSorted(x, r.0, axis);
      } else {
        ConsSorted(x, r.1, axis);
      }
    }
  }

  /** The corrected partition: Px is cut by index as in `diviser`, and Py is
      cut so that its left part holds exactly the points of PxGauche. */
  function SplitConsistent(px: seq<Point>, py: seq<Point>): Halves
  {
    var mid := |px| / 2;
    var parts := TakeCounted(py, multiset(px[..mid]));
    Halves(px[..mid], px[mid..], parts.0, parts.1)
  }

  /** Partition completeness: when Py is a permutation of Px, each Py half is a
      permutation of the Px half of the same side, and keeps Py's Y-order. */
  lemma SplitConsistentSpec(px: seq<Point>, py: seq<Point>)
    requires multiset(px) == multiset(py)
    ensures var h := SplitConsistent(px, py);
      && h.pxL + h.pxR == px && |h.pxL| == |px| / 2
      && multiset(h.pyL) == multiset(h.pxL)
      && multiset(h.pyR) == multiset(h.pxR)
      && (SortedBy(py, Y) ==> SortedBy(h.pyL, Y) && SortedBy(h.pyR, Y))
  {
    var mid := |px| / 2;
    var pxL, pxR := px[..mid], px[mid..];
    var parts := TakeCounted(py, multiset(pxL));
    assert SplitConsistent(px, py) == Halves(pxL, pxR, parts.0, parts.1);
    assert px == pxL + pxR;
    forall p ensures multiset(parts.0)[p] == multiset(pxL)[p] && multiset(parts.1)[p] == multiset(pxR)[p] {
      TakeCountedCount(py, multiset(pxL), p);
      assert multiset(py)[p] == (multiset(pxL) + multiset(pxR))[p];
    }
    assert multiset(parts.0) == multiset(pxL);
    assert multiset(parts.1) == multiset(pxR);
    if SortedBy(py, Y) {
      TakeCountedSorted(py, multiset(pxL), Y);
    }
  }

  /** The corrected `diviser`: the loop over Py sends a point left while
      PxGauche still has an unmatched copy of it. */
  method DiviserConsistent(px: seq<Point>, py: seq<Point>)
    returns (pxGauche: seq<Point>, pxDroite: seq<Point>, pyGauche: seq<Point>, pyDroite: seq<Point>)
    ensures Halves(pxGauche, pxDroite, pyGauche, pyDroite) == SplitConsistent(px, py)
  {
    var mid := |px| / 2;
    pxGauche := px[..mid];
    pxDroite := px[mid..];
    pyGauche := [];
    pyDroite := [];
    var quota := multiset(pxGauche);
    ghost var goal := TakeCounted(py, quota);
    var k := 0;
    while k < |py|
      invariant 0 <= k <= |py|
      invariant pyGauche + TakeCounted(py[k..], quota).0 == goal.0
      invariant pyDroite + TakeCounted(py[k..], quota).1 == goal.1
    {
      var p := py[k];
      assert py[k..][1..] == py[k + 1..];
      if p in quota {
        quota := quota - multiset{p};
        pyGauche := pyGauche + [p];
      } else {
        pyDroite := pyDroite + [p];
      }
      k := k + 1;
    }
  }
}
