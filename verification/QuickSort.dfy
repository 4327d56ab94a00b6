/** qsort_algo, linux-2023-summer/quiz1/problem3.c:221-329: Bentley and McIlroy's quicksort on
    a range of an array, with a comparison function. */
module QuickSort {
  import opened Sorting
  import opened Partitioning

  method Swap<T>(a: array<T>, i: int, j: int)
    requires 0 <= i < a.Length && 0 <= j < a.Length
    modifies a
    ensures a[..] == Swapped(old(a[..]), i, j)
  {
    a[i], a[j] := a[j], a[i];
  }

  // ---------- insertion sort, problem3.c:242-248 ----------

  // `s` is sorted up to `pm`, but for the element at `pl` moving left.
  ghost predicate Inserting<T>(s: seq<T>, cmp: Compare<T>, lo: int, pl: int, pm: int) {
    && 0 <= lo <= pl <= pm < |s|
    && (forall i, j :: lo <= i < j <= pm && i != pl && j != pl ==> cmp(s[i], s[j]) <= 0)
    && (forall j :: pl < j <= pm ==> cmp(s[pl], s[j]) <= 0)
  }

  lemma InsertStep<T(!new)>(s: seq<T>, cmp: Compare<T>, lo: int, pl: int, pm: int)
    requires TotalPreorder(cmp) && Inserting(s, cmp, lo, pl, pm) && lo < pl && cmp(s[pl - 1], s[pl]) > 0
    ensures Inserting(Swapped(s, pl, pl - 1), cmp, lo, pl - 1, pm)
  {
    assert Agree(cmp, s[pl], s[pl - 1], s[pl]);
  }

  lemma InsertDone<T(!new)>(s: seq<T>, cmp: Compare<T>, lo: int, pl: int, pm: int)
    requires TotalPreorder(cmp) && Inserting(s, cmp, lo, pl, pm) && (lo == pl || cmp(s[pl - 1], s[pl]) <= 0)
    ensures Sorted(s, cmp, lo, pm + 1)
  {
    forall i, j | lo <= i < j <= pm ensures cmp(s[i], s[j]) <= 0 {
      if j == pl && i < pl - 1 { assert Agree(cmp, s[i], s[pl - 1], s[pl]); }
    }
  }

  lemma InsertStart<T>(s: seq<T>, cmp: Compare<T>, lo: int, pm: int)
    requires 0 <= lo <= pm < |s| && Sorted(s, cmp, lo, pm)
    ensures Inserting(s, cmp, lo, pm, pm)
  {
  }

  // One swap of the inner loop.
  lemma SinkStep<T(!new)>(was: seq<T>, s: seq<T>, cmp: Compare<T>, lo: int, pl: int, pm: int, hi: int)
    requires TotalPreorder(cmp) && Inserting(s, cmp, lo, pl, pm) && lo < pl && cmp(s[pl - 1], s[pl]) > 0
    requires pm < hi <= |s| && Shuffled(was, s, lo, hi)
    ensures Inserting(Swapped(s, pl, pl - 1), cmp, lo, pl - 1, pm) && Shuffled(was, Swapped(s, pl, pl - 1), lo, hi)
  {
    InsertStep(s, cmp, lo, pl, pm);
    SwappedShuffled(s, pl, pl - 1, lo, hi);
    ShuffledAgain(was, s, Swapped(s, pl, pl - 1), lo, hi);
  }

  // The inner loop.
  method Sink<T(!new)>(a: array<T>, cmp: Compare<T>, lo: int, pm: int, hi: int)
    requires TotalPreorder(cmp) && 0 <= lo <= pm < hi <= a.Length && Sorted(a[..], cmp, lo, pm)
    modifies a
    ensures Sorted(a[..], cmp, lo, pm + 1) && Shuffled(old(a[..]), a[..], lo, hi)
  {
    var pl := pm;
    ghost var was, s := a[..], a[..];
    InsertStart(s, cmp, lo, pm);
    while pl > lo && cmp(a[pl - 1], a[pl]) > 0
      invariant a[..] == s && Inserting(s, cmp, lo, pl, pm) && Shuffled(was, s, lo, hi)
    {
      SinkStep(was, s, cmp, lo, pl, pm, hi);
      Swap(a, pl, pl - 1);
      s := Swapped(s, pl, pl - 1);
      pl := pl - 1;
    }
    InsertDone(s, cmp, lo, pl, pm);
  }

  method InsertionSort<T(!new)>(a: array<T>, cmp: Compare<T>, lo: int, n: int)
    requires TotalPreorder(cmp) && 0 <= lo && 0 <= n && lo + n <= a.Length
    modifies a
    ensures Sorted(a[..], cmp, lo, lo + n) && Shuffled(old(a[..]), a[..], lo, lo + n)
  {
    var pm := lo + 1;
    while pm < lo + n
      invariant lo + 1 <= pm && Sorted(a[..], cmp, lo, if pm <= lo + n then pm else lo + n)
      invariant Shuffled(old(a[..]), a[..], lo, lo + n)
    {
      ghost var s := a[..];
      Sink(a, cmp, lo, pm, lo + n);
      ShuffledAgain(old(a[..]), s, a[..], lo, lo + n);
      pm := pm + 1;
    }
  }

  // ---------- the scans, problem3.c:265-288 ----------

  method ScanUp<T(!new)>(a: array<T>, cmp: Compare<T>, lo: int, pa0: int, pb0: int, pc: int, ghost pd: int,
        ghost hi: int, cnt: int)
    returns (pa: int, pb: int, swapCnt: int)
    requires Scanned(a[..], cmp, lo, pa0, pb0, pc, pd, hi)
    modifies a
    ensures Scanned(a[..], cmp, lo, pa, pb, pc, pd, hi) && Shuffled(old(a[..]), a[..], lo, hi)
    ensures pb0 <= pb && (pb <= pc ==> cmp(a[pb], a[lo]) > 0) && a[lo] == old(a[lo])
    ensures if swapCnt == 0 then cnt == 0 && pa == pa0 else cnt == swapCnt || swapCnt == 1
  {
    pa, pb, swapCnt := pa0, pb0, cnt;
    ghost var was, s := a[..], a[..];
    while pb <= pc && cmp(a[pb], a[lo]) <= 0
      invariant a[..] == s && Scanned(s, cmp, lo, pa, pb, pc, pd, hi) && Shuffled(was, s, lo, hi)
      invariant pb0 <= pb && s[lo] == was[lo]
        && if swapCnt == 0 then cnt == 0 && pa == pa0 else cnt == swapCnt || swapCnt == 1
    {
      if cmp(a[pb], a[lo]) == 0 {
        swapCnt := 1;
        ScanUpEqual(s, cmp, lo, pa, pb, pc, pd, hi);
        SwappedShuffled(s, pa, pb, lo, hi);
        Swap(a, pa, pb);
        s := Swapped(s, pa, pb);
        pa := pa + 1;
      }
      pb := pb + 1;
    }
  }

  method ScanDown<T(!new)>(a: array<T>, cmp: Compare<T>, lo: int, ghost pa: int, pb: int, pc0: int, pd0: int,
        ghost hi: int, cnt: int)
    returns (pc: int, pd: int, swapCnt: int)
    requires Scanned(a[..], cmp, lo, pa, pb, pc0, pd0, hi)
    modifies a
    ensures Scanned(a[..], cmp, lo, pa, pb, pc, pd, hi) && Shuffled(old(a[..]), a[..], lo, hi)
    ensures pc <= pc0 && (pb <= pc ==> cmp(a[pc], a[lo]) < 0 && a[pb] == old(a[pb])) && a[lo] == old(a[lo])
    ensures if swapCnt == 0 then cnt == 0 && pd == pd0 else cnt == swapCnt || swapCnt == 1
  {
    pc, pd, swapCnt := pc0, pd0, cnt;
    ghost var was, s := a[..], a[..];
    while pb <= pc && cmp(a[pc], a[lo]) >= 0
      invariant a[..] == s && Scanned(s, cmp, lo, pa, pb, pc, pd, hi) && Shuffled(was, s, lo, hi)
      invariant pc <= pc0 && s[lo] == was[lo] && (pb <= pc ==> s[pb] == was[pb])
        && if swapCnt == 0 then cnt == 0 && pd == pd0 else cnt == swapCnt || swapCnt == 1
    {
      if cmp(a[pc], a[lo]) == 0 {
        swapCnt := 1;
        ScanDownEqual(s, cmp, lo, pa, pb, pc, pd, hi);
        SwappedShuffled(s, pc, pd, lo, hi);
        Swap(a, pc, pd);
        s := Swapped(s, pc, pd);
        pd := pd - 1;
      }
      pc := pc - 1;
    }
  }

  method Scan<T(!new)>(a: array<T>, cmp: Compare<T>, lo: int, hi: int)
    returns (pa: int, pb: int, pc: int, pd: int, swapCnt: int)
    requires TotalPreorder(cmp) && 0 <= lo && lo + 2 <= hi <= a.Length
    modifies a
    ensures Scanned(a[..], cmp, lo, pa, pb, pc, pd, hi) && pb == pc + 1 && Shuffled(old(a[..]), a[..], lo, hi)
    ensures swapCnt == 0 ==> pa == lo + 1 && pd == hi - 1
    ensures swapCnt >= 0
  {
    pa, pb, pc, pd, swapCnt := lo + 1, lo + 1, hi - 1, hi - 1, 0;
    ScanStart(a[..], cmp, lo, hi);
    ghost var was := a[..];
    while true
      invariant Scanned(a[..], cmp, lo, pa, pb, pc, pd, hi) && Shuffled(was, a[..], lo, hi)
      invariant swapCnt >= 0 && (swapCnt == 0 ==> pa == lo + 1 && pd == hi - 1)
      decreases pc - pb
    {
      ghost var s0, pb1 := a[..], pb;
      pa, pb, swapCnt := ScanUp(a, cmp, lo, pa, pb, pc, pd, hi, swapCnt);
      ghost var s1 := a[..];
      pc, pd, swapCnt := ScanDown(a, cmp, lo, pa, pb, pc, pd, hi, swapCnt);
      ShuffledAgain(was, s0, s1, lo, hi);
      ghost var s2 := a[..];
      ShuffledAgain(was, s1, s2, lo, hi);
      if pb > pc {
        break;
      }
      ScanCrossed(s1, s2, cmp, lo, pa, pb, pc, pd, hi);
      SwappedShuffled(s2, pb, pc, lo, hi);
      Swap(a, pb, pc);
      ShuffledAgain(was, s2, a[..], lo, hi);
      swapCnt := 1;
      pb := pb + 1;
      pc := pc - 1;
    }
  }

  // The scan from the right leaves the pivot and the element at `pb` where they were.
  lemma ScanCrossed<T>(s1: seq<T>, s2: seq<T>, cmp: Compare<T>, lo: int, pa: int, pb: int, pc: int, pd: int, hi: int)
    requires Scanned(s2, cmp, lo, pa, pb, pc, pd, hi) && pb <= pc && |s1| == |s2| && s1[pb] == s2[pb]
      && s1[lo] == s2[lo]
    requires cmp(s1[pb], s1[lo]) > 0 && cmp(s2[pc], s2[lo]) < 0
    ensures Scanned(Swapped(s2, pb, pc), cmp, lo, pa, pb + 1, pc - 1, pd, hi)
  {
    ScanCross(s2, cmp, lo, pa, pb, pc, pd, hi);
  }

  // ---------- the block swaps, problem3.c:43-47 and 290-294 ----------

  lemma SwapOnce<T(!new)>(was: seq<T>, s: seq<T>, i: int, j: int, lo: int, hi: int)
    requires 0 <= lo <= i < hi <= |was| && lo <= j < hi && Shuffled(was, s, lo, hi)
    ensures |s| == |was| && Shuffled(was, Swapped(s, i, j), lo, hi)
  {
    SwappedShuffled(s, i, j, lo, hi);
    ShuffledAgain(was, s, Swapped(s, i, j), lo, hi);
  }

  method VecSwap<T(!new)>(a: array<T>, i: int, j: int, r: int, ghost lo: int, ghost hi: int)
    requires 0 <= lo <= i && 0 <= r && i + r <= j && j + r <= hi <= a.Length
    modifies a
    ensures Exchanged(old(a[..]), a[..], i, j, r) && Shuffled(old(a[..]), a[..], lo, hi)
  {
    ghost var was, s := a[..], a[..];
    var k := 0;
    while k < r
      invariant 0 <= k <= r && a[..] == s && Exchanged(was, s, i, j, k) && Shuffled(was, s, lo, hi)
    {
      ExchangedNext(was, s, i, j, k);
      SwapOnce(was, s, i + k, j + k, lo, hi);
      Swap(a, i + k, j + k);
      s := Swapped(s, i + k, j + k);
      k := k + 1;
    }
  }

  /** Lines 249-294, around a pivot `v`: `nl` elements are less, and come first, `nr` are
      greater, and come last. */
  method Partition<T(!new)>(a: array<T>, cmp: Compare<T>, lo: int, n: int)
    returns (nl: int, nr: int, swapCnt: int, ghost v: T)
    requires TotalPreorder(cmp) && 0 <= lo && 7 <= n && lo + n <= a.Length
    modifies a
    ensures Zones(a[..], cmp, v, lo, lo + nl, lo + n - nr, lo + n) && Shuffled(old(a[..]), a[..], lo, lo + n)
    ensures 0 <= nl && 0 <= nr && nl + nr < n
    ensures swapCnt == 0 ==> nl + nr == n - 1
  {
    ghost var s0 := a[..];
    PivotIsMedian(s0, cmp, lo, n);
    var pm := ChoosePivot(a[..], cmp, lo, n);
    SwappedShuffled(s0, lo, pm, lo, lo + n);
    Swap(a, lo, pm);
    ghost var s1 := a[..];
    var pa, pb, pc, pd;
    pa, pb, pc, pd, swapCnt := Scan(a, cmp, lo, lo + n);
    ghost var s2 := a[..];
    ShuffledAgain(s0, s1, s2, lo, lo + n);
    v := a[lo];
    BlockSwaps(a, cmp, lo, pa, pb, pc, pd, lo + n);
    ShuffledAgain(s0, s2, a[..], lo, lo + n);
    nl, nr := pb - pa, pd - pc;
  }

  // Lines 290-294.
  method BlockSwaps<T(!new)>(a: array<T>, ghost cmp: Compare<T>, lo: int, pa: int, pb: int, pc: int, pd: int, pn: int)
    requires Scanned(a[..], cmp, lo, pa, pb, pc, pd, pn) && pb == pc + 1
    modifies a
    ensures Zones(a[..], cmp, old(a[lo]), lo, lo + pb - pa, pn - (pd - pc), pn) && Shuffled(old(a[..]), a[..], lo, pn)
  {
    ghost var s := a[..];
    var r := Min(pa - lo, pb - pa);
    VecSwap(a, lo, pb - r, r, lo, pn);
    ghost var t := a[..];
    LeftBlock(s, t, cmp, lo, pa, pb, pd, pn);
    r := Min(pd - pc, pn - pd - 1);
    VecSwap(a, pb, pn - r, r, lo, pn);
    RightBlock(t, a[..], cmp, s[lo], lo, lo + pb - pa, pb, pd, pn);
    ShuffledAgain(s, t, a[..], lo, pn);
  }

  // ---------- the switch to insertion sort, problem3.c:296-306 ----------

  // In the middle of an insertion, on zones.
  ghost predicate Trying<T(!new)>(was: seq<T>, s: seq<T>, cmp: Compare<T>, v: T, lo: int, i: int, j: int, pl: int,
        pm: int, hi: int)
  {
    Inserting(s, cmp, lo, pl, pm) && Shuffled(was, s, lo, hi) && Zones(s, cmp, v, lo, i, j, hi)
  }

  lemma RetryStep<T(!new)>(was: seq<T>, s: seq<T>, cmp: Compare<T>, v: T, lo: int, i: int, j: int, pl: int, pm: int,
        hi: int)
    requires TotalPreorder(cmp) && Inserting(s, cmp, lo, pl, pm) && lo < pl && cmp(s[pl - 1], s[pl]) > 0
    requires pm < hi <= |s| && Shuffled(was, s, lo, hi) && Zones(s, cmp, v, lo, i, j, hi)
    ensures Inserting(Swapped(s, pl, pl - 1), cmp, lo, pl - 1, pm) && Shuffled(was, Swapped(s, pl, pl - 1), lo, hi)
    ensures Zones(Swapped(s, pl, pl - 1), cmp, v, lo, i, j, hi)
  {
    SinkStep(was, s, cmp, lo, pl, pm, hi);
    SwappedZones(s, cmp, v, lo, i, j, hi, pl);
  }

  // The inner loop; it gives up after more than `r` swaps.
  method TrySink<T(!new)>(a: array<T>, cmp: Compare<T>, ghost v: T, lo: int, ghost i: int, ghost j: int, pm: int,
        hi: int, cnt: int, r: int)
    returns (swapCnt: int)
    requires TotalPreorder(cmp) && lo <= pm < hi <= a.Length && Sorted(a[..], cmp, lo, pm)
      && Zones(a[..], cmp, v, lo, i, j, hi)
    modifies a
    ensures Zones(a[..], cmp, v, lo, i, j, hi) && Shuffled(old(a[..]), a[..], lo, hi) && cnt <= swapCnt
    ensures cnt <= r && swapCnt <= r ==> Sorted(a[..], cmp, lo, pm + 1)
  {
    var pl := pm;
    swapCnt := cnt;
    ghost var was, s := a[..], a[..];
    InsertStart(s, cmp, lo, pm);
    while pl > lo && cmp(a[pl - 1], a[pl]) > 0
      invariant a[..] == s && Trying(was, s, cmp, v, lo, i, j, pl, pm, hi)
      invariant cnt <= swapCnt
    {
      RetryStep(was, s, cmp, v, lo, i, j, pl, pm, hi);
      Swap(a, pl, pl - 1);
      s := Swapped(s, pl, pl - 1);
      pl := pl - 1;
      swapCnt := swapCnt + 1;
      if swapCnt > r {
        return;
      }
    }
    InsertDone(s, cmp, lo, pl, pm);
  }

  /** Insertion sort on zones that needed no swaps, given up after more than 1 + n / 4 swaps: no
      element crosses from one zone into another. */
  method TryInsertion<T(!new)>(a: array<T>, cmp: Compare<T>, ghost v: T, lo: int, ghost i: int, ghost j: int, n: int)
    returns (sorted: bool)
    requires TotalPreorder(cmp) && 0 <= n && Zones(a[..], cmp, v, lo, i, j, lo + n)
    modifies a
    ensures Zones(a[..], cmp, v, lo, i, j, lo + n) && Shuffled(old(a[..]), a[..], lo, lo + n)
    ensures sorted ==> Sorted(a[..], cmp, lo, lo + n)
  {
    var swapCnt, r, pm := 0, 1 + n / 4, lo + 1;
    while pm < lo + n
      invariant lo + 1 <= pm && Sorted(a[..], cmp, lo, if pm <= lo + n then pm else lo + n) && swapCnt <= r
      invariant Zones(a[..], cmp, v, lo, i, j, lo + n) && Shuffled(old(a[..]), a[..], lo, lo + n)
    {
      ghost var s := a[..];
      swapCnt := TrySink(a, cmp, v, lo, i, j, pm, lo + n, swapCnt, r);
      ShuffledAgain(old(a[..]), s, a[..], lo, lo + n);
      if swapCnt > r {
        return false;
      }
      pm := pm + 1;
    }
    return true;
  }

  /** Lines 249-306: partition, and insertion sort where the partition needed no swaps. */
  method Divide<T(!new)>(a: array<T>, cmp: Compare<T>, lo: int, n: int)
    returns (nl: int, nr: int, sorted: bool, ghost v: T)
    requires TotalPreorder(cmp) && 0 <= lo && 7 <= n && lo + n <= a.Length
    modifies a
    ensures Zones(a[..], cmp, v, lo, lo + nl, lo + n - nr, lo + n) && Shuffled(old(a[..]), a[..], lo, lo + n)
    ensures 0 <= nl && 0 <= nr && nl + nr < n
    ensures sorted ==> Sorted(a[..], cmp, lo, lo + n)
  {
    var swapCnt;
    sorted := false;
    nl, nr, swapCnt, v := Partition(a, cmp, lo, n);
    if swapCnt == 0 {
      ghost var s := a[..];
      sorted := TryInsertion(a, cmp, v, lo, lo + nl, lo + n - nr, n);
      ShuffledAgain(old(a[..]), s, a[..], lo, lo + n);
    }
  }

  // ---------- qsort_algo ----------

  /** Sorted up to `lo`, with nothing smaller behind. */
  ghost predicate Settled<T>(s: seq<T>, cmp: Compare<T>, base: int, lo: int, hi: int) {
    && 0 <= base <= lo <= hi <= |s| && Sorted(s, cmp, base, lo)
    && forall i, j :: base <= i < lo <= j < hi ==> cmp(s[i], s[j]) <= 0
  }

  lemma SettledShuffled<T(!new)>(s: seq<T>, t: seq<T>, cmp: Compare<T>, base: int, lo: int, hi: int)
    requires Settled(s, cmp, base, lo, hi) && Shuffled(s, t, lo, hi)
    ensures Settled(t, cmp, base, lo, hi)
  {
    forall i, j | base <= i < lo <= j < hi ensures cmp(t[i], t[j]) <= 0 { var k := ShuffledFrom(s, t, lo, hi, j); }
  }

  lemma SettledSorted<T>(s: seq<T>, cmp: Compare<T>, base: int, lo: int, hi: int)
    requires Settled(s, cmp, base, lo, hi) && Sorted(s, cmp, lo, hi)
    ensures Sorted(s, cmp, base, hi)
  {
  }

  // The left part and the elements equal to the pivot are in place.
  lemma LeftSorted<T(!new)>(s: seq<T>, t: seq<T>, cmp: Compare<T>, v: T, lo: int, i: int, j: int, hi: int)
    requires TotalPreorder(cmp) && Zones(s, cmp, v, lo, i, j, hi) && Shuffled(s, t, lo, i) && Sorted(t, cmp, lo, i)
    ensures Settled(t, cmp, lo, j, hi) && Shuffled(s, t, lo, hi)
  {
    BelowShuffled(s, t, cmp, v, lo, i);
    ZonesSorted(t, cmp, v, lo, i, j, j);
    forall p, q | lo <= p < j <= q < hi ensures cmp(t[p], t[q]) <= 0 { Through(cmp, t[p], v, t[q]); }
  }

  lemma BothSorted<T(!new)>(s: seq<T>, t: seq<T>, u: seq<T>, cmp: Compare<T>, v: T, lo: int, i: int, j: int, hi: int)
    requires TotalPreorder(cmp) && Zones(s, cmp, v, lo, i, j, hi)
    requires Shuffled(s, t, j, hi) && Sorted(t, cmp, j, hi) && Shuffled(t, u, lo, i) && Sorted(u, cmp, lo, i)
    ensures Sorted(u, cmp, lo, hi) && Shuffled(s, u, lo, hi)
  {
    AboveShuffled(s, t, cmp, v, j, hi);
    LeftSorted(t, u, cmp, v, lo, i, j, hi);
    ShuffledWider(s, t, j, hi, lo, hi);
    ShuffledAgain(s, t, u, lo, hi);
    SettledSorted(u, cmp, lo, j, hi);
  }

  /** Sub-sorts of disjoint ranges do not see each other: each is given the same elements in the
      same order whichever goes first, and if what it leaves depends on those only, the array ends
      up the same.  `t` and `u` are the array after the left and then the right sub-sort, `t'` and
      `u'` after the right and then the left one. */
  lemma OrderIrrelevant<T(!new)>(s: seq<T>, t: seq<T>, u: seq<T>, t': seq<T>, u': seq<T>, lo: int, i: int, j: int,
        hi: int)
    requires 0 <= lo <= i <= j <= hi <= |s|
    requires Shuffled(s, t, lo, i) && Shuffled(t, u, j, hi) && Shuffled(s, t', j, hi) && Shuffled(t', u', lo, i)
    ensures s[j..hi] == t[j..hi] && s[lo..i] == t'[lo..i]
    ensures t[lo..i] == u'[lo..i] && u[j..hi] == t'[j..hi] ==> u == u'
  {
    if t[lo..i] == u'[lo..i] && u[j..hi] == t'[j..hi] {
      forall k | 0 <= k < |s| ensures u[k] == u'[k] {
        if lo <= k < i {
          assert t[k] == t[lo..i][k - lo] && u'[k] == u'[lo..i][k - lo];
        } else if j <= k < hi {
          assert u[k] == u[j..hi][k - j] && t'[k] == t'[j..hi][k - j];
        }
      }
    }
  }

  /** Lines 308-328: sorts the left part, in this thread or in another one, and says whether the
      right part is left for the loop.  Whether a pool thread is free, and whether it sorts the
      left part before or after the right part, is left open. */
  method Conquer<T(!new)>(a: array<T>, cmp: Compare<T>, ghost v: T, lo: int, nl: int, nr: int, hi: int, forkElem: int)
    returns (rest: bool)
    requires TotalPreorder(cmp) && 0 <= nl && 0 <= nr && hi <= a.Length
      && Zones(a[..], cmp, v, lo, lo + nl, hi - nr, hi)
    modifies a
    ensures if rest then Settled(a[..], cmp, lo, hi - nr, hi) && nr > 0 else Sorted(a[..], cmp, lo, hi)
    ensures Shuffled(old(a[..]), a[..], lo, hi)
    decreases nl + nr, 1
  {
    ghost var s := a[..];
    var free: bool, soon: bool := *, *;
    if nl > forkElem && nr > forkElem && free && !soon {
      QsortAlgo(a, cmp, hi - nr, nr, forkElem);
      ghost var t := a[..];
      QsortAlgo(a, cmp, lo, nl, forkElem);
      BothSorted(s, t, a[..], cmp, v, lo, lo + nl, hi - nr, hi);
      return false;
    }
    if nl > 0 {
      QsortAlgo(a, cmp, lo, nl, forkElem);
    }
    LeftSorted(s, a[..], cmp, v, lo, lo + nl, hi - nr, hi);
    return nr > 0;
  }

  /** qsort_algo on `len` elements from `base`: for every comparison that is a total preorder it
      ends, and leaves the range sorted, holding the same elements, and everything else alone. */
  method QsortAlgo<T(!new)>(a: array<T>, cmp: Compare<T>, base: int, len: int, forkElem: int)
    requires TotalPreorder(cmp) && 0 <= base && 0 <= len && base + len <= a.Length
    modifies a
    ensures Sorted(a[..], cmp, base, base + len) && Shuffled(old(a[..]), a[..], base, base + len)
    decreases len, 0
  {
    var lo, n, hi := base, len, base + len;
    ghost var was, s := a[..], a[..];
    while true
      invariant base <= lo && 0 <= n && lo + n == hi && n <= len && a[..] == s
      invariant Settled(s, cmp, base, lo, hi) && Shuffled(was, s, base, hi)
      decreases n
    {
      if n < 7 {
        InsertionSort(a, cmp, lo, n);
        Finish(was, s, a[..], cmp, base, lo, hi);
        return;
      }
      var nl, nr, rest := Round(a, cmp, lo, n, forkElem);
      if !rest {
        Finish(was, s, a[..], cmp, base, lo, hi);
        return;
      }
      Regroup(was, s, a[..], cmp, base, lo, hi - nr, hi);
      s := a[..];
      lo, n := hi - nr, nr;
    }
  }

  // Lines 249-328.
  method Round<T(!new)>(a: array<T>, cmp: Compare<T>, lo: int, n: int, forkElem: int)
    returns (nl: int, nr: int, rest: bool)
    requires TotalPreorder(cmp) && 0 <= lo && 7 <= n && lo + n <= a.Length
    modifies a
    ensures if rest then Settled(a[..], cmp, lo, lo + n - nr, lo + n) && 0 < nr < n else Sorted(a[..], cmp, lo, lo + n)
    ensures Shuffled(old(a[..]), a[..], lo, lo + n)
    decreases n - 1, 2
  {
    var sorted;
    ghost var v;
    nl, nr, sorted, v := Divide(a, cmp, lo, n);
    if sorted {
      return nl, nr, false;
    }
    ghost var s := a[..];
    rest := Conquer(a, cmp, v, lo, nl, nr, lo + n, forkElem);
    ShuffledAgain(old(a[..]), s, a[..], lo, lo + n);
  }

  lemma Regroup<T(!new)>(was: seq<T>, s: seq<T>, t: seq<T>, cmp: Compare<T>, base: int, lo: int, j: int, hi: int)
    requires Settled(s, cmp, base, lo, hi) && Shuffled(was, s, base, hi) && Shuffled(s, t, lo, hi)
      && Settled(t, cmp, lo, j, hi)
    ensures Settled(t, cmp, base, j, hi) && Shuffled(was, t, base, hi)
  {
    SettledShuffled(s, t, cmp, base, lo, hi);
    ShuffledWider(s, t, lo, hi, base, hi);
    ShuffledAgain(was, s, t, base, hi);
  }

  lemma Finish<T(!new)>(was: seq<T>, s: seq<T>, t: seq<T>, cmp: Compare<T>, base: int, lo: int, hi: int)
    requires Settled(s, cmp, base, lo, hi) && Shuffled(was, s, base, hi) && Shuffled(s, t, lo, hi)
      && Sorted(t, cmp, lo, hi)
    ensures Sorted(t, cmp, base, hi) && Shuffled(was, t, base, hi)
  {
    SettledShuffled(s, t, cmp, base, lo, hi);
    ShuffledWider(s, t, lo, hi, base, hi);
    ShuffledAgain(was, s, t, base, hi);
    SettledSorted(t, cmp, base, lo, hi);
  }

  /** What qsort promises, in the usual words. */
  lemma SortedPermutation<T(!new)>(s: seq<T>, t: seq<T>, cmp: Compare<T>, lo: int, n: int)
    requires 0 <= lo && 0 <= n && lo + n <= |s| && Sorted(t, cmp, lo, lo + n) && Shuffled(s, t, lo, lo + n)
    ensures multiset(t[lo..lo + n]) == multiset(s[lo..lo + n]) && t[..lo] == s[..lo] && t[lo + n..] == s[lo + n..]
    ensures forall i, j :: lo <= i < j < lo + n ==> cmp(t[i], t[j]) <= 0
  {
    ShuffledRange(s, t, lo, lo + n);
  }
}
