/** The pre-sorting of `PairePlusProche` (shamos_algorithm.go:175-181): Px by
    X and Py by Y, in place. The source calls sort.Slice; any in-place sort
    meeting the same postcondition stands for it here. */
module Sorting {
  import opened Points

  /** Every key of s before position i is no larger than every key from i on. */
  ghost predicate Partitioned(s: seq<Point>, axis: Axis, i: nat) {
    forall k, l :: 0 <= k < i <= l < |s| ==> Key(s[k], axis) <= Key(s[l], axis)
  }

  /** Exchanging entry i with a least entry of s[i..] extends the sorted,
      partitioned prefix by one. */
  lemma SelectStep(s: seq<Point>, axis: Axis, i: nat, m: nat)
    requires i <= m < |s| && SortedBy(s[..i], axis) && Partitioned(s, axis, i)
    requires forall l :: i <= l < |s| ==> Key(s[m], axis) <= Key(s[l], axis)
    ensures SortedBy(s[i := s[m]][m := s[i]][..i + 1], axis)
    ensures Partitioned(s[i := s[m]][m := s[i]], axis, i + 1)
  {
    var t := s[i := s[m]][m := s[i]];
    var u := t[..i + 1];
    forall k, l | 0 <= k < l < i + 1 ensures Key(u[k], axis) <= Key(u[l], axis) {
      if l < i {
        assert s[..i][k] == u[k] && s[..i][l] == u[l];
      }
    }
  }

  /** Exchanges two entries of a. */
  method Swap(a: array<Point>, i: nat, j: nat)
    requires i < a.Length && j < a.Length
    modifies a
    ensures a[..] == old(a[..])[i := old(a[..])[j]][j := old(a[..])[i]]
    ensures multiset(a[..]) == multiset(old(a[..]))
  {
    a[i], a[j] := a[j], a[i];
  }

  /** The position of a least key of a[i..]. */
  method MinFrom(a: array<Point>, axis: Axis, i: nat) returns (m: nat)
    requires i < a.Length
    ensures i <= m < a.Length
    ensures forall l :: i <= l < a.Length ==> Key(a[m], axis) <= Key(a[l], axis)
  {
    m := i;
    for l := i + 1 to a.Length
      invariant i <= m < l
      invariant forall k :: i <= k < l ==> Key(a[m], axis) <= Key(a[k], axis)
    {
      if Key(a[l], axis) < Key(a[m], axis) {
        m := l;
      }
    }
  }

  /** Sorts a by the key of axis, in place, keeping its multiset of points. */
  method SortBy(a: array<Point>, axis: Axis)
    modifies a
    ensures SortedBy(a[..], axis)
    ensures multiset(a[..]) == multiset(old(a[..]))
  {
    for i := 0 to a.Length
      invariant SortedBy(a[..i], axis) && Partitioned(a[..], axis, i)
      invariant multiset(a[..]) == multiset(old(a[..]))
    {
      var m := MinFrom(a, axis, i);
      SelectStep(a[..], axis, i, m);
      Swap(a, i, m);
    }
    assert a[..a.Length] == a[..];
  }
}
