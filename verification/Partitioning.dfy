/** The three-way partition of linux-2023-summer/quiz1/problem3.c:250-294 on sequences: pivot
    choice, the scans, and the block swaps. */
module Partitioning {
  import opened Sorting

  // ---------- med3, problem3.c:67-72, on positions ----------

  function Med3<T>(s: seq<T>, cmp: Compare<T>, a: int, b: int, c: int): int
    requires 0 <= a < |s| && 0 <= b < |s| && 0 <= c < |s|
  {
    if cmp(s[a], s[b]) < 0 then
      if cmp(s[b], s[c]) < 0 then b else if cmp(s[a], s[c]) < 0 then c else a
    else
      if cmp(s[b], s[c]) > 0 then b else if cmp(s[a], s[c]) < 0 then a else c
  }

  predicate Between<T>(s: seq<T>, cmp: Compare<T>, x: int, m: int, y: int)
    requires 0 <= x < |s| && 0 <= m < |s| && 0 <= y < |s|
  {
    || (cmp(s[x], s[m]) <= 0 && cmp(s[m], s[y]) <= 0)
    || (cmp(s[y], s[m]) <= 0 && cmp(s[m], s[x]) <= 0)
  }

  /** `m` is one of the three positions, and its element lies between the other two. */
  predicate IsMedian<T>(s: seq<T>, cmp: Compare<T>, a: int, b: int, c: int, m: int) {
    && 0 <= a < |s| && 0 <= b < |s| && 0 <= c < |s|
    && ((m == a && Between(s, cmp, b, m, c)) || (m == b && Between(s, cmp, a, m, c))
      || (m == c && Between(s, cmp, a, m, b)))
  }

  lemma Med3IsMedian<T(!new)>(s: seq<T>, cmp: Compare<T>, a: int, b: int, c: int)
    requires TotalPreorder(cmp) && 0 <= a < |s| && 0 <= b < |s| && 0 <= c < |s|
    ensures IsMedian(s, cmp, a, b, c, Med3(s, cmp, a, b, c))
  {
    var x, y, z := s[a], s[b], s[c];
    assert Agree(cmp, x, y, z) && Agree(cmp, y, x, y) && Agree(cmp, y, z, y) && Agree(cmp, z, y, z)
      && Agree(cmp, x, z, x) && Agree(cmp, z, x, z);
  }

  // ---------- the pivot, problem3.c:249-260 ----------

  function Ninther<T>(s: seq<T>, cmp: Compare<T>, pl: int, pm: int, pn: int, d: int): int
    requires 0 <= d && 0 <= pl && pl + 2 * d < |s| && d <= pm < |s| - d && 2 * d <= pn < |s|
  {
    Med3(s, cmp, Med3(s, cmp, pl, pl + d, pl + 2 * d), Med3(s, cmp, pm - d, pm, pm + d),
      Med3(s, cmp, pn - 2 * d, pn - d, pn))
  }

  function ChoosePivot<T>(s: seq<T>, cmp: Compare<T>, lo: int, n: int): int
    requires 0 <= lo && 7 <= n && lo + n <= |s|
  {
    if n > 40 then Ninther(s, cmp, lo, lo + n / 2, lo + n - 1, n / 8)
    else if n > 7 then Med3(s, cmp, lo, lo + n / 2, lo + n - 1)
    else lo + n / 2
  }

  /** The median of the medians of three triples: at the left end, in the middle and at the
      right end. */
  ghost predicate IsNinther<T>(s: seq<T>, cmp: Compare<T>, pl: int, pm: int, pn: int, d: int, m: int) {
    exists x, y, z ::
      && IsMedian(s, cmp, pl, pl + d, pl + 2 * d, x) && IsMedian(s, cmp, pm - d, pm, pm + d, y)
      && IsMedian(s, cmp, pn - 2 * d, pn - d, pn, z) && IsMedian(s, cmp, x, y, z, m)
  }

  lemma NintherIsMedian<T(!new)>(s: seq<T>, cmp: Compare<T>, pl: int, pm: int, pn: int, d: int, lo: int, hi: int)
    requires TotalPreorder(cmp) && 0 <= d && 0 <= lo <= pl && pl + 2 * d < hi <= |s| && lo + d <= pm < hi - d
      && lo + 2 * d <= pn < hi
    ensures IsNinther(s, cmp, pl, pm, pn, d, Ninther(s, cmp, pl, pm, pn, d))
    ensures lo <= Ninther(s, cmp, pl, pm, pn, d) < hi
  {
    var x, y, z :=
      Med3(s, cmp, pl, pl + d, pl + 2 * d), Med3(s, cmp, pm - d, pm, pm + d), Med3(s, cmp, pn - 2 * d, pn - d, pn);
    Med3IsMedian(s, cmp, pl, pl + d, pl + 2 * d);
    Med3IsMedian(s, cmp, pm - d, pm, pm + d);
    Med3IsMedian(s, cmp, pn - 2 * d, pn - d, pn);
    Med3IsMedian(s, cmp, x, y, z);
  }

  /** The pivot is the median of the first, middle and last elements, or, beyond 40 elements, of
      the medians of three triples. */
  lemma PivotIsMedian<T(!new)>(s: seq<T>, cmp: Compare<T>, lo: int, n: int)
    requires TotalPreorder(cmp) && 0 <= lo && 7 <= n && lo + n <= |s|
    ensures lo <= ChoosePivot(s, cmp, lo, n) < lo + n
    ensures 7 < n <= 40 ==> IsMedian(s, cmp, lo, lo + n / 2, lo + n - 1, ChoosePivot(s, cmp, lo, n))
    ensures n > 40 ==> IsNinther(s, cmp, lo, lo + n / 2, lo + n - 1, n / 8, ChoosePivot(s, cmp, lo, n))
  {
    if n > 40 { NintherIsMedian(s, cmp, lo, lo + n / 2, lo + n - 1, n / 8, lo, lo + n); }
    else { Med3IsMedian(s, cmp, lo, lo + n / 2, lo + n - 1); }
  }

  // ---------- the scans ----------

  /** While scanning, with the pivot at `lo`: equal to it, less, not seen, greater, equal. */
  ghost predicate Scanned<T>(s: seq<T>, cmp: Compare<T>, lo: int, pa: int, pb: int, pc: int, pd: int, hi: int) {
    && 0 <= lo < pa <= pb <= pc + 1 && pc <= pd < hi <= |s|
    && Level(s, cmp, s[lo], lo, pa) && Below(s, cmp, s[lo], pa, pb)
    && Above(s, cmp, s[lo], pc + 1, pd + 1) && Level(s, cmp, s[lo], pd + 1, hi)
  }

  lemma ScanStart<T(!new)>(s: seq<T>, cmp: Compare<T>, lo: int, hi: int)
    requires TotalPreorder(cmp) && 0 <= lo && lo + 2 <= hi <= |s|
    ensures Scanned(s, cmp, lo, lo + 1, lo + 1, hi - 1, hi - 1, hi)
  {
    assert Agree(cmp, s[lo], s[lo], s[lo]);
  }

  lemma ScanUpEqual<T>(s: seq<T>, cmp: Compare<T>, lo: int, pa: int, pb: int, pc: int, pd: int, hi: int)
    requires Scanned(s, cmp, lo, pa, pb, pc, pd, hi) && pb <= pc && cmp(s[pb], s[lo]) == 0
    ensures Scanned(Swapped(s, pa, pb), cmp, lo, pa + 1, pb + 1, pc, pd, hi)
  {
  }

  lemma ScanDownEqual<T>(s: seq<T>, cmp: Compare<T>, lo: int, pa: int, pb: int, pc: int, pd: int, hi: int)
    requires Scanned(s, cmp, lo, pa, pb, pc, pd, hi) && pb <= pc && cmp(s[pc], s[lo]) == 0
    ensures Scanned(Swapped(s, pc, pd), cmp, lo, pa, pb, pc - 1, pd - 1, hi)
  {
  }

  lemma ScanCross<T>(s: seq<T>, cmp: Compare<T>, lo: int, pa: int, pb: int, pc: int, pd: int, hi: int)
    requires Scanned(s, cmp, lo, pa, pb, pc, pd, hi) && pb <= pc && cmp(s[pb], s[lo]) > 0 && cmp(s[pc], s[lo]) < 0
    ensures Scanned(Swapped(s, pb, pc), cmp, lo, pa, pb + 1, pc - 1, pd, hi)
  {
  }

  // ---------- vecswap, problem3.c:59-63 ----------

  // Where the element at `k` after exchanging the blocks of length `r` at `i` and `j` stood before.
  function Source(i: int, j: int, r: int, k: int): int {
    if i <= k < i + r then k - i + j else if j <= k < j + r then k - j + i else k
  }

  /** `t` is `s` with the blocks of length `r` at `i` and at `j` exchanged, place by place. */
  ghost predicate Exchanged<T>(s: seq<T>, t: seq<T>, i: int, j: int, r: int) {
    && |t| == |s| && 0 <= i && 0 <= r && i + r <= j && j + r <= |s|
    && forall k {:trigger Source(i, j, r, k)} :: 0 <= k < |t| ==>
         0 <= Source(i, j, r, k) < |s| && t[k] == s[Source(i, j, r, k)]
  }

  /** Exchanging one more pair extends the blocks by one. */
  lemma ExchangedNext<T>(s: seq<T>, t: seq<T>, i: int, j: int, r: int)
    requires Exchanged(s, t, i, j, r) && i + r < j && j + r < |s|
    ensures Exchanged(s, Swapped(t, i + r, j + r), i, j, r + 1)
  {
    var u := Swapped(t, i + r, j + r);
    forall k | 0 <= k < |u| ensures 0 <= Source(i, j, r + 1, k) < |s| && u[k] == s[Source(i, j, r + 1, k)] {
      var before := if k == i + r then j + r else if k == j + r then i + r else k;
      assert u[k] == t[before] && Source(i, j, r, before) == Source(i, j, r + 1, k);
    }
  }

  // ---------- from the scans to the zones ----------

  function Min(a: int, b: int): int { if a < b then a else b }

  /** The equal elements at the left end trade places with as many lesser ones. */
  lemma LeftBlock<T>(s: seq<T>, t: seq<T>, cmp: Compare<T>, lo: int, pa: int, pb: int, pd: int, hi: int)
    requires Scanned(s, cmp, lo, pa, pb, pb - 1, pd, hi)
      && Exchanged(s, t, lo, pb - Min(pa - lo, pb - pa), Min(pa - lo, pb - pa))
    ensures var v := s[lo];
      && Below(t, cmp, v, lo, lo + pb - pa) && Level(t, cmp, v, lo + pb - pa, pb)
      && Above(t, cmp, v, pb, pd + 1) && Level(t, cmp, v, pd + 1, hi)
  {
    var r := Min(pa - lo, pb - pa);
    forall k | lo <= k < hi
      ensures (k < lo + pb - pa ==> cmp(t[k], s[lo]) < 0) && (lo + pb - pa <= k < pb ==> cmp(t[k], s[lo]) == 0)
      ensures (pb <= k <= pd ==> cmp(t[k], s[lo]) > 0) && (pd < k ==> cmp(t[k], s[lo]) == 0)
    {
      assert t[k] == s[Source(lo, pb - r, r, k)];
    }
  }

  /** The equal elements at the right end trade places with as many greater ones. */
  lemma RightBlock<T>(s: seq<T>, t: seq<T>, cmp: Compare<T>, v: T, lo: int, i: int, pb: int, pd: int, hi: int)
    requires 0 <= lo <= i <= pb <= pd + 1 <= hi <= |s|
    requires Below(s, cmp, v, lo, i) && Level(s, cmp, v, i, pb) && Above(s, cmp, v, pb, pd + 1)
      && Level(s, cmp, v, pd + 1, hi)
    requires var r := Min(pd + 1 - pb, hi - pd - 1); Exchanged(s, t, pb, hi - r, r)
    ensures Zones(t, cmp, v, lo, i, hi - (pd + 1 - pb), hi)
  {
    var r, j := Min(pd + 1 - pb, hi - pd - 1), hi - (pd + 1 - pb);
    forall k | lo <= k < hi
      ensures if k < i then cmp(t[k], v) < 0 else if k < j then cmp(t[k], v) == 0 else cmp(t[k], v) > 0
    {
      assert t[k] == s[Source(pb, hi - r, r, k)];
    }
  }
}
