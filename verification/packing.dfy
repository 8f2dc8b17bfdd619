/** The geometric fact behind the "at most 7 following points" bound of
    `combiner` (shamos_algorithm.go:112-118): points that are pairwise closer
    than sqrt(d) on each axis, yet pairwise at least sqrt(d) apart, number at
    most four. */
module Packing {
  import opened Points

  /** Entries i and j of s differ by less than sqrt(d) on each axis and lie at
      least sqrt(d) apart. */
  ghost predicate Apart(s: seq<Point>, d: real, i: nat, j: nat)
    requires i < |s| && j < |s|
  {
    (s[i].x - s[j].x) * (s[i].x - s[j].x) < d &&
    (s[i].y - s[j].y) * (s[i].y - s[j].y) < d &&
    d <= SqDist(s[i], s[j])
  }

  /** Every two entries at distinct positions of s are Apart. */
  ghost predicate Spread(s: seq<Point>, d: real) {
    forall i: nat, j: nat :: i < |s| && j < |s| && i != j ==> Apart(s, d, i, j)
  }

  /** |a| <= h implies a^2 <= h^2. */
  lemma SquareBound(a: real, h: real)
    requires -h <= a <= h
    ensures a * a <= h * h
  {
    assert (h - a) * (h + a) >= 0.0;
  }

  /** Two offsets on the same side of a line, each closer to it than sqrt(d),
      are closer to each other than sqrt(d). */
  lemma SameSideClose(a: real, b: real, d: real)
    requires 0.0 <= a && 0.0 <= b && a * a < d && b * b < d
    ensures (a - b) * (a - b) < d
  {
    if a <= b {
      SquareBound(a - b, b);
    } else {
      SquareBound(a - b, a);
    }
  }

  /** What Spread says about two given positions. */
  lemma SpreadAt(s: seq<Point>, d: real, i: nat, j: nat)
    requires Spread(s, d) && i < |s| && j < |s| && i != j
    ensures (s[i].x - s[j].x) * (s[i].x - s[j].x) < d
    ensures (s[i].y - s[j].y) * (s[i].y - s[j].y) < d
    ensures d <= SqDist(s[i], s[j])
  {
    assert Apart(s, d, i, j);
  }

  lemma SquareNonnegative(a: real)
    ensures 0.0 <= a * a
  {
    if a < 0.0 {
      assert a * a == (-a) * (-a);
    }
  }

  /** Positions of a least and a greatest key of s. */
  lemma {:induction false} Extremes(s: seq<Point>, axis: Axis) returns (lo: nat, hi: nat)
    requires |s| > 0
    ensures lo < |s| && hi < |s|
    ensures forall i :: 0 <= i < |s| ==> Key(s[lo], axis) <= Key(s[i], axis) <= Key(s[hi], axis)
  {
    if |s| == 1 {
      lo, hi := 0, 0;
    } else {
      var init := s[..|s| - 1];
      lo, hi := Extremes(init, axis);
      assert forall i :: 0 <= i < |s| - 1 ==> init[i] == s[i];
      if Key(s[|s| - 1], axis) < Key(s[lo], axis) {
        lo := |s| - 1;
      }
      if Key(s[hi], axis) < Key(s[|s| - 1], axis) {
        hi := |s| - 1;
      }
    }
  }

  /** The x coordinates of a spread sequence range over less than sqrt(d). */
  lemma RangeX(s: seq<Point>, d: real, lo: nat, hi: nat)
    requires 2 <= |s| && lo < |s| && hi < |s| && Spread(s, d)
    requires s[lo].x <= s[hi].x
    ensures (s[hi].x - s[lo].x) * (s[hi].x - s[lo].x) < d
  {
    if lo != hi {
      SpreadAt(s, d, hi, lo);
    } else {
      SpreadAt(s, d, 0, 1);
      SquareNonnegative(s[0].x - s[1].x);
    }
  }

  /** The y coordinates of a spread sequence range over less than sqrt(d). */
  lemma RangeY(s: seq<Point>, d: real, lo: nat, hi: nat)
    requires 2 <= |s| && lo < |s| && hi < |s| && Spread(s, d)
    requires s[lo].y <= s[hi].y
    ensures (s[hi].y - s[lo].y) * (s[hi].y - s[lo].y) < d
  {
    if lo != hi {
      SpreadAt(s, d, hi, lo);
    } else {
      SpreadAt(s, d, 0, 1);
      SquareNonnegative(s[0].y - s[1].y);
    }
  }

  /** Two keys in the same half of a range r differ by at most r/2. */
  lemma HalfRange(u: real, v: real, lo: real, hi: real)
    requires lo <= u <= hi && lo <= v <= hi
    requires (u <= (lo + hi) / 2.0) == (v <= (lo + hi) / 2.0)
    ensures (u - v) * (u - v) <= (hi - lo) * (hi - lo) / 4.0
  {
    SquareBound(u - v, (hi - lo) / 2.0);
  }

  /** Offsets within half of two ranges below sqrt(d) add up to less than d. */
  lemma QuarterSum(dx2: real, dy2: real, rx2: real, ry2: real, d: real)
    requires 0.0 <= rx2 < d && 0.0 <= ry2 < d
    requires dx2 <= rx2 / 4.0 && dy2 <= ry2 / 4.0
    ensures dx2 + dy2 < d
  {
  }

  /** Two points of a box whose sides are below sqrt(d) and that share a cell
      of the box's 2-by-2 grid are closer than sqrt(d). */
  lemma SameCellClose(p: Point, q: Point, xlo: real, xhi: real, ylo: real, yhi: real, d: real)
    requires xlo <= p.x <= xhi && xlo <= q.x <= xhi && ylo <= p.y <= yhi && ylo <= q.y <= yhi
    requires (xhi - xlo) * (xhi - xlo) < d && (yhi - ylo) * (yhi - ylo) < d
    requires (p.x <= (xlo + xhi) / 2.0) == (q.x <= (xlo + xhi) / 2.0)
    requires (p.y <= (ylo + yhi) / 2.0) == (q.y <= (ylo + yhi) / 2.0)
    ensures SqDist(p, q) < d
  {
    SquareNonnegative(xhi - xlo);
    SquareNonnegative(yhi - ylo);
    HalfRange(p.x, q.x, xlo, xhi);
    HalfRange(p.y, q.y, ylo, yhi);
    QuarterSum((p.x - q.x) * (p.x - q.x), (p.y - q.y) * (p.y - q.y),
               (xhi - xlo) * (xhi - xlo), (yhi - ylo) * (yhi - ylo), d);
  }

  /** The cell of the 2-by-2 grid centred on (cx, cy) that holds p. */
  function Cell(p: Point, cx: real, cy: real): (r: (bool, bool))
    ensures r.0 <==> p.x <= cx
    ensures r.1 <==> p.y <= cy
  {
    (p.x <= cx, p.y <= cy)
  }

  /** Among five points two share a cell of a 2-by-2 grid. */
  lemma Pigeonhole(s: seq<Point>, cx: real, cy: real) returns (i: nat, j: nat)
    requires |s| >= 5
    ensures i < j < 5 && Cell(s[i], cx, cy) == Cell(s[j], cx, cy)
  {
    var c0, c1, c2, c3, c4 := Cell(s[0], cx, cy), Cell(s[1], cx, cy), Cell(s[2], cx, cy), Cell(s[3], cx, cy), Cell(s[4], cx, cy);
    if c0 == c1 { i, j := 0, 1; }
    else if c0 == c2 { i, j := 0, 2; }
    else if c0 == c3 { i, j := 0, 3; }
    else if c0 == c4 { i, j := 0, 4; }
    else if c1 == c2 { i, j := 1, 2; }
    else if c1 == c3 { i, j := 1, 3; }
    else if c1 == c4 { i, j := 1, 4; }
    else if c2 == c3 { i, j := 2, 3; }
    else if c2 == c4 { i, j := 2, 4; }
    else { i, j := 3, 4; }
  }

  /** At most four points are pairwise within sqrt(d) on each axis and
      pairwise at least sqrt(d) apart: cut their bounding box into a 2-by-2
      grid; two of five points would share a cell and be closer than sqrt(d). */
  lemma AtMostFour(s: seq<Point>, d: real)
    requires Spread(s, d)
    ensures |s| <= 4
  {
    if |s| >= 5 {
      var xl, xh := Extremes(s, X);
      var yl, yh := Extremes(s, Y);
      RangeX(s, d, xl, xh);
      RangeY(s, d, yl, yh);
      var xlo, xhi, ylo, yhi := s[xl].x, s[xh].x, s[yl].y, s[yh].y;
      var cx, cy := (xlo + xhi) / 2.0, (ylo + yhi) / 2.0;
      var i, j := Pigeonhole(s, cx, cy);
      assert Key(s[xl], X) <= Key(s[i], X) <= Key(s[xh], X);
      assert Key(s[xl], X) <= Key(s[j], X) <= Key(s[xh], X);
      assert Key(s[yl], Y) <= Key(s[i], Y) <= Key(s[yh], Y);
      assert Key(s[yl], Y) <= Key(s[j], Y) <= Key(s[yh], Y);
      SameCellClose(s[i], s[j], xlo, xhi, ylo, yhi, d);
      SpreadAt(s, d, i, j);
      assert false;
    }
  }
}
