/** Sequences ordered by a comparison function, and what rearranging a range of one keeps. */
module Sorting {
  type Compare<!T> = (T, T) -> int

  ghost predicate Agree<T>(cmp: Compare<T>, x: T, y: T, z: T) {
    && (cmp(x, y) < 0 <==> cmp(y, x) > 0)
    && (cmp(x, y) <= 0 && cmp(y, z) <= 0 ==> cmp(x, z) <= 0)
  }

  /** What qsort asks of its comparison function: a total preorder. */
  ghost predicate TotalPreorder<T(!new)>(cmp: Compare<T>) {
    forall x, y, z {:trigger Agree(cmp, x, y, z)} :: Agree(cmp, x, y, z)
  }

  ghost predicate Sorted<T>(s: seq<T>, cmp: Compare<T>, lo: int, hi: int) {
    forall i, j :: 0 <= lo <= i < j < hi <= |s| ==> cmp(s[i], s[j]) <= 0
  }

  ghost function Times<T>(s: seq<T>, x: T): nat {
    multiset(s)[x]
  }

  /** `t` holds the elements of `s` with those from `lo` to `hi` rearranged. */
  ghost predicate Shuffled<T(!new)>(s: seq<T>, t: seq<T>, lo: int, hi: int) {
    && |s| == |t| && (forall x {:trigger Times(t, x)} :: Times(t, x) == Times(s, x))
    && forall k :: 0 <= k < |s| && !(lo <= k < hi) ==> t[k] == s[k]
  }

  function Swapped<T>(s: seq<T>, i: int, j: int): seq<T>
    requires 0 <= i < |s| && 0 <= j < |s|
  {
    s[i := s[j]][j := s[i]]
  }

  lemma SwappedShuffled<T(!new)>(s: seq<T>, i: int, j: int, lo: int, hi: int)
    requires lo <= i < hi && lo <= j < hi && 0 <= lo && hi <= |s|
    ensures Shuffled(s, Swapped(s, i, j), lo, hi)
  {
    assert multiset(Swapped(s, i, j)) == multiset(s);
    assert forall x :: Times(Swapped(s, i, j), x) == multiset(Swapped(s, i, j))[x];
  }

  lemma ShuffledAgain<T(!new)>(s: seq<T>, t: seq<T>, u: seq<T>, lo: int, hi: int)
    requires Shuffled(s, t, lo, hi) && Shuffled(t, u, lo, hi)
    ensures Shuffled(s, u, lo, hi)
  {
  }

  lemma ShuffledWider<T(!new)>(s: seq<T>, t: seq<T>, lo: int, hi: int, lo': int, hi': int)
    requires Shuffled(s, t, lo, hi) && lo' <= lo && hi <= hi'
    ensures Shuffled(s, t, lo', hi')
  {
  }

  lemma Split3<T>(s: seq<T>, lo: int, hi: int)
    requires 0 <= lo <= hi <= |s|
    ensures multiset(s) == multiset(s[..lo]) + multiset(s[hi..]) + multiset(s[lo..hi])
  {
    assert s == s[..lo] + s[lo..hi] + s[hi..];
  }

  // The elements of the range are the same.
  lemma ShuffledRange<T(!new)>(s: seq<T>, t: seq<T>, lo: int, hi: int)
    requires Shuffled(s, t, lo, hi) && 0 <= lo <= hi <= |s|
    ensures multiset(s[lo..hi]) == multiset(t[lo..hi])
  {
    assert forall x :: multiset(t)[x] == Times(t, x) && multiset(s)[x] == Times(s, x);
    assert multiset(s) == multiset(t);
    Split3(s, lo, hi);
    Split3(t, lo, hi);
    assert s[..lo] == t[..lo] && s[hi..] == t[hi..];
    var outer, x, y := multiset(s[..lo]) + multiset(s[hi..]), multiset(s[lo..hi]), multiset(t[lo..hi]);
    assert outer + x == outer + y;
    assert x == (outer + x) - outer && y == (outer + y) - outer;
  }

  // An element of the shuffled range was in the range before.
  lemma ShuffledFrom<T(!new)>(s: seq<T>, t: seq<T>, lo: int, hi: int, k: int) returns (i: int)
    requires Shuffled(s, t, lo, hi) && 0 <= lo <= k < hi <= |s|
    ensures lo <= i < hi && s[i] == t[k]
  {
    ShuffledRange(s, t, lo, hi);
    assert t[lo..hi][k - lo] == t[k] && t[k] in multiset(t[lo..hi]);
    assert t[k] in s[lo..hi];
    var j :| 0 <= j < hi - lo && s[lo..hi][j] == t[k];
    i := lo + j;
  }

  // ---------- the three zones of a partition ----------

  ghost predicate Below<T>(s: seq<T>, cmp: Compare<T>, v: T, lo: int, hi: int) {
    forall k :: 0 <= lo <= k < hi <= |s| ==> cmp(s[k], v) < 0
  }

  ghost predicate Level<T>(s: seq<T>, cmp: Compare<T>, v: T, lo: int, hi: int) {
    forall k :: 0 <= lo <= k < hi <= |s| ==> cmp(s[k], v) == 0
  }

  ghost predicate Above<T>(s: seq<T>, cmp: Compare<T>, v: T, lo: int, hi: int) {
    forall k :: 0 <= lo <= k < hi <= |s| ==> cmp(s[k], v) > 0
  }

  /** Less than `v` up to `i`, equal up to `j`, greater up to `hi`. */
  ghost predicate Zones<T>(s: seq<T>, cmp: Compare<T>, v: T, lo: int, i: int, j: int, hi: int) {
    0 <= lo <= i <= j <= hi <= |s| && Below(s, cmp, v, lo, i) && Level(s, cmp, v, i, j) && Above(s, cmp, v, j, hi)
  }

  lemma BelowShuffled<T(!new)>(s: seq<T>, t: seq<T>, cmp: Compare<T>, v: T, lo: int, hi: int)
    requires Shuffled(s, t, lo, hi) && Below(s, cmp, v, lo, hi)
    ensures Below(t, cmp, v, lo, hi)
  {
    forall k | 0 <= lo <= k < hi <= |t| ensures cmp(t[k], v) < 0 { var i := ShuffledFrom(s, t, lo, hi, k); }
  }

  lemma AboveShuffled<T(!new)>(s: seq<T>, t: seq<T>, cmp: Compare<T>, v: T, lo: int, hi: int)
    requires Shuffled(s, t, lo, hi) && Above(s, cmp, v, lo, hi)
    ensures Above(t, cmp, v, lo, hi)
  {
    forall k | 0 <= lo <= k < hi <= |t| ensures cmp(t[k], v) > 0 { var i := ShuffledFrom(s, t, lo, hi, k); }
  }

  lemma Through<T(!new)>(cmp: Compare<T>, x: T, v: T, y: T)
    requires TotalPreorder(cmp) && cmp(x, v) <= 0 && cmp(y, v) >= 0
    ensures cmp(x, y) <= 0
  {
    assert Agree(cmp, x, v, y) && Agree(cmp, v, y, v) && Agree(cmp, y, v, y);
  }

  /** Sorting the outer zones sorts the whole. */
  lemma ZonesSorted<T(!new)>(s: seq<T>, cmp: Compare<T>, v: T, lo: int, i: int, j: int, hi: int)
    requires TotalPreorder(cmp) && Zones(s, cmp, v, lo, i, j, hi) && Sorted(s, cmp, lo, i) && Sorted(s, cmp, j, hi)
    ensures Sorted(s, cmp, lo, hi)
  {
    forall p, q | 0 <= lo <= p < q < hi <= |s| ensures cmp(s[p], s[q]) <= 0 {
      if !(q < i) && !(j <= p) { Through(cmp, s[p], v, s[q]); }
    }
  }

  // Neighbours out of order lie in the same outer zone.
  lemma SameZone<T(!new)>(s: seq<T>, cmp: Compare<T>, v: T, lo: int, i: int, j: int, hi: int, k: int)
    requires TotalPreorder(cmp) && Zones(s, cmp, v, lo, i, j, hi) && lo < k < hi && cmp(s[k - 1], s[k]) > 0
    ensures k < i || k - 1 >= j
  {
    if k >= i && k - 1 < j { Through(cmp, s[k - 1], v, s[k]); }
  }

  lemma SwappedZones<T(!new)>(s: seq<T>, cmp: Compare<T>, v: T, lo: int, i: int, j: int, hi: int, k: int)
    requires TotalPreorder(cmp) && Zones(s, cmp, v, lo, i, j, hi) && lo < k < hi && cmp(s[k - 1], s[k]) > 0
    ensures Zones(Swapped(s, k, k - 1), cmp, v, lo, i, j, hi)
  {
    SameZone(s, cmp, v, lo, i, j, hi, k);
  }
}
