/** The LINQ post-processing the terrain code applies to its lists:
    OrderBy(h => h), Min(), Max() and Distinct().Count() over heights, and
    Distinct().OrderBy(p => p.X).ThenBy(p => p.Y) over points. */
module Ordering {
  import opened Common

  predicate SortedInts(s: seq<int>)
  {
    forall i, j :: 0 <= i < j < |s| ==> s[i] <= s[j]
  }

  function InsertInt(x: int, s: seq<int>): (r: seq<int>)
    requires SortedInts(s)
    ensures SortedInts(r)
    ensures multiset(r) == multiset(s) + multiset{x}
  {
    if s == [] then [x]
    else if x <= s[0] then [x] + s
    else
      SortedTail(s);
      var t := InsertInt(x, s[1..]);
      ConsSorted(s, x, t);
      [s[0]] + t
  }

  lemma SortedTail(s: seq<int>)
    requires SortedInts(s) && |s| > 0
    ensures SortedInts(s[1..])
  {
  }

  /** Putting the head back in front of the tail with x inserted keeps the
      order, and the multiset gains exactly x. */
  lemma ConsSorted(s: seq<int>, x: int, t: seq<int>)
    requires SortedInts(s) && |s| > 0 && s[0] < x && SortedInts(t)
    requires multiset(t) == multiset(s[1..]) + multiset{x}
    ensures SortedInts([s[0]] + t)
    ensures multiset([s[0]] + t) == multiset(s) + multiset{x}
  {
    assert s == [s[0]] + s[1..];
    forall k | 0 <= k < |t| ensures s[0] <= t[k] {
      assert t[k] in multiset(t);
      if t[k] != x {
        assert t[k] in multiset(s[1..]);
        var j :| 0 <= j < |s[1..]| && s[1..][j] == t[k];
        assert s[j + 1] == t[k];
      }
    }
  }

  /** OrderBy(h => h): an ascending permutation of the input. */
  function SortInts(s: seq<int>): (r: seq<int>)
    ensures SortedInts(r)
    ensures multiset(r) == multiset(s)
  {
    if s == [] then []
    else
      assert s == [s[0]] + s[1..];
      InsertInt(s[0], SortInts(s[1..]))
  }

  /** Sorting neither adds nor loses a value. */
  lemma SortedMember(s: seq<int>, x: int)
    requires x in SortInts(s)
    ensures x in s
  {
    assert x in multiset(SortInts(s));
  }

  /** The order OrderBy(p => p.X).ThenBy(p => p.Y) sorts by. */
  predicate PointLess(a: Point2D, b: Point2D)
  {
    a.x < b.x || (a.x == b.x && a.y < b.y)
  }

  predicate StrictlySorted(s: seq<Point2D>)
  {
    forall i, j :: 0 <= i < j < |s| ==> PointLess(s[i], s[j])
  }

  function InsertPoint(p: Point2D, s: seq<Point2D>): (r: seq<Point2D>)
    requires StrictlySorted(s)
    ensures StrictlySorted(r)
    ensures forall q :: q in r <==> q == p || q in s
  {
    if s == [] then [p]
    else if p == s[0] then s
    else if PointLess(p, s[0]) then [p] + s
    else
      var t := InsertPoint(p, s[1..]);
      assert forall q :: q in s <==> q == s[0] || q in s[1..];
      assert forall k :: 0 <= k < |t| ==> PointLess(s[0], t[k]) by {
        forall k | 0 <= k < |t| ensures PointLess(s[0], t[k]) {
          assert t[k] in t;
          if t[k] != p {
            var i :| 1 <= i < |s| && s[i] == t[k];
          }
        }
      }
      [s[0]] + t
  }

  /** Distinct().OrderBy(X).ThenBy(Y): the points of the input, each once, in
      strictly increasing (X, Y) order. */
  function DistinctSorted(s: seq<Point2D>): (r: seq<Point2D>)
    ensures StrictlySorted(r)
    ensures forall q :: q in r <==> q in s
  {
    if s == [] then []
    else
      assert forall q :: q in s <==> q == s[0] || q in s[1..];
      InsertPoint(s[0], DistinctSorted(s[1..]))
  }

  /** A strictly sorted sequence is determined by its elements, so whatever
      order the input was in, the post-processed list is the unique sorted
      enumeration of its points. */
  lemma {:induction false} StrictlySortedUnique(a: seq<Point2D>, b: seq<Point2D>)
    requires StrictlySorted(a) && StrictlySorted(b)
    requires forall q :: q in a <==> q in b
    ensures a == b
    decreases |a|
  {
    assert a != [] ==> a[0] in b;
    assert b != [] ==> b[0] in a;
    if a != [] && b != [] {
      var i :| 0 <= i < |b| && b[i] == a[0];
      var j :| 0 <= j < |a| && a[j] == b[0];
      assert i == 0 || j == 0;
      assert a[0] == b[0];
      forall q ensures q in a[1..] <==> q in b[1..] {
        if q in a[1..] {
          var k :| 1 <= k < |a| && a[k] == q;
          assert PointLess(a[0], q);
          assert q in b && q != b[0];
        }
        if q in b[1..] {
          var k :| 1 <= k < |b| && b[k] == q;
          assert PointLess(b[0], q);
          assert q in a && q != a[0];
        }
      }
      StrictlySortedUnique(a[1..], b[1..]);
      assert a == [a[0]] + a[1..] && b == [b[0]] + b[1..];
    }
  }

  /** Min() of a non-empty list. */
  function SeqMin(s: seq<int>): (m: int)
    requires |s| > 0
    ensures m in s && forall k :: 0 <= k < |s| ==> m <= s[k]
  {
    if |s| == 1 then s[0] else Min(s[0], SeqMin(s[1..]))
  }

  /** Max() of a non-empty list. */
  function SeqMax(s: seq<int>): (m: int)
    requires |s| > 0
    ensures m in s && forall k :: 0 <= k < |s| ==> s[k] <= m
  {
    if |s| == 1 then s[0] else Max(s[0], SeqMax(s[1..]))
  }

  /** The set of values in a list. */
  function Levels(s: seq<int>): (r: set<int>)
    ensures forall h :: h in r <==> h in s
  {
    if s == [] then {}
    else
      assert forall h :: h in s <==> h == s[0] || h in s[1..];
      {s[0]} + Levels(s[1..])
  }

  /** heights.Distinct().Count(). */
  function DistinctCount(s: seq<int>): nat
  {
    |Levels(s)|
  }
}
