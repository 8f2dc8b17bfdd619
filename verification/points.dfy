/** Points of the plane, squared distances and the candidate-pair result of
    the closest-pair algorithms (shamos_algorithm.go). */
module Points {

  /** A point of the plane. The source uses float64 coordinates; the model uses
      exact reals. */
  datatype Point = Point(x: real, y: real)

  /** A squared Euclidean distance, or the sentinel math.Inf(1) that the source
      returns when there is no pair. Since sqrt is monotone, every comparison of
      distances in the source is a comparison of squared distances here. */
  datatype Dist = Inf | Fin(sq: real)

  /** The (Point, Point, float64) triple returned by every closest-pair routine. */
  datatype Closest = Closest(p1: Point, p2: Point, d: Dist)

  /** The result for fewer than two points: two zero points and +Inf. */
  const NoPair: Closest := Closest(Point(0.0, 0.0), Point(0.0, 0.0), Inf)

  /** The coordinate a sequence is sorted on. */
  datatype Axis = X | Y

  function Key(p: Point, axis: Axis): real {
    match axis
    case X => p.x
    case Y => p.y
  }

  ghost predicate SortedBy(s: seq<Point>, axis: Axis) {
    forall i, j :: 0 <= i < j < |s| ==> Key(s[i], axis) <= Key(s[j], axis)
  }

  /** The square of `distance` (shamos_algorithm.go:17-19). */
  function SqDist(p: Point, q: Point): real {
    (p.x - q.x) * (p.x - q.x) + (p.y - q.y) * (p.y - q.y)
  }

  /** `a < b` on distances extended with +Inf. */
  predicate Less(a: Dist, b: Dist) {
    a.Fin? && (b.Inf? || a.sq < b.sq)
  }

  /** The candidate made of positions i and j of s. */
  function PairAt(s: seq<Point>, i: nat, j: nat): Closest
    requires i < |s| && j < |s|
  {
    Closest(s[i], s[j], Fin(SqDist(s[i], s[j])))
  }

  /** r reports a genuine pair of s: two entries of s (at distinct positions,
      as the multiset says) and their own squared distance. */
  ghost predicate PairOf(r: Closest, s: seq<Point>) {
    r.d.Fin? && r.d.sq == SqDist(r.p1, r.p2) && multiset{r.p1, r.p2} <= multiset(s)
  }

  /** No two entries of s are closer than v. */
  ghost predicate LowerBound(s: seq<Point>, v: real) {
    forall i, j :: 0 <= i < j < |s| ==> v <= SqDist(s[i], s[j])
  }

  /** r is a closest pair of s. */
  ghost predicate IsClosest(r: Closest, s: seq<Point>) {
    PairOf(r, s) && LowerBound(s, r.d.sq)
  }

  lemma SqDistSymmetric(p: Point, q: Point)
    ensures SqDist(p, q) == SqDist(q, p)
  {
  }

  /** Two distinct positions of s form a sub-multiset of s. */
  lemma PositionsArePair(s: seq<Point>, i: nat, j: nat)
    requires i < |s| && j < |s| && i != j
    ensures multiset{s[i], s[j]} <= multiset(s)
  {
    assert s == s[..i] + [s[i]] + s[i + 1..];
    if j < i {
      assert s[j] == s[..i][j];
    } else {
      assert s[j] == s[i + 1..][j - i - 1];
    }
    assert multiset(s) == multiset(s[..i]) + multiset{s[i]} + multiset(s[i + 1..]);
  }

  /** Removing the entry at position i takes one copy of it out of the multiset. */
  lemma RemoveAt(s: seq<Point>, i: nat)
    requires i < |s|
    ensures multiset(s) == multiset(s[..i] + s[i + 1..]) + multiset{s[i]}
  {
    assert s == s[..i] + [s[i]] + s[i + 1..];
  }

  /** Entry k of s without its entry i is an entry of s at a position other than i. */
  lemma RemovedPosition(s: seq<Point>, i: nat, k: nat) returns (j: nat)
    requires i < |s| && k < |s| - 1
    ensures j < |s| && j != i && s[j] == (s[..i] + s[i + 1..])[k]
  {
    if k < i {
      j := k;
    } else {
      j := k + 1;
    }
  }

  /** Conversely, a two-element sub-multiset of s sits at two distinct positions. */
  lemma PairHasPositions(s: seq<Point>, p: Point, q: Point) returns (i: nat, j: nat)
    requires multiset{p, q} <= multiset(s)
    ensures i < |s| && j < |s| && i != j && s[i] == p && s[j] == q
  {
    assert p in multiset(s);
    i :| 0 <= i < |s| && s[i] == p;
    var rest := s[..i] + s[i + 1..];
    RemoveAt(s, i);
    assert q in multiset(rest);
    var k :| 0 <= k < |rest| && rest[k] == q;
    j := RemovedPosition(s, i, k);
  }

  /** A genuine pair of s is never closer than a lower bound of s. */
  lemma PairRespectsLowerBound(r: Closest, s: seq<Point>, v: real)
    requires PairOf(r, s) && LowerBound(s, v)
    ensures v <= r.d.sq
  {
    var i, j := PairHasPositions(s, r.p1, r.p2);
    if i < j {
      assert v <= SqDist(s[i], s[j]);
    } else {
      assert v <= SqDist(s[j], s[i]);
      SqDistSymmetric(s[i], s[j]);
    }
  }

  /** Two closest pairs of the same points report the same distance. */
  lemma ClosestDistanceUnique(r1: Closest, r2: Closest, s: seq<Point>)
    requires IsClosest(r1, s) && IsClosest(r2, s)
    ensures r1.d == r2.d
  {
    PairRespectsLowerBound(r1, s, r2.d.sq);
    PairRespectsLowerBound(r2, s, r1.d.sq);
  }

  /** A lower bound depends only on the multiset of points, not on their order. */
  lemma LowerBoundPermutation(s: seq<Point>, t: seq<Point>, v: real)
    requires multiset(s) == multiset(t) && LowerBound(s, v)
    ensures LowerBound(t, v)
  {
    forall i, j | 0 <= i < j < |t| ensures v <= SqDist(t[i], t[j]) {
      PositionsArePair(t, i, j);
      PairRespectsLowerBound(PairAt(t, i, j), s, v);
    }
  }
}
