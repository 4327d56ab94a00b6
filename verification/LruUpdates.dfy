/** Eviction and insertion in the LRU cache, linux-2022/quiz1/problem3.c:131-146, on snapshots. */
module LruUpdates {
  import opened IntrusiveList
  import opened LruSpec
  import opened LruShape

  function IndexOf(s: seq<LruNode>, n: LruNode): (i: nat)
    requires n in s
    ensures i < |s| && s[i] == n
  {
    if s[0] == n then 0 else 1 + IndexOf(s[1..], n)
  }

  // ---------- eviction of the last node ----------

  function Last(c: Cache): LruNode
    requires |c.recent| > 0
  {
    c.recent[|c.recent| - 1]
  }

  function BucketOf(c: Cache, n: LruNode): int
    requires n in c.data && |c.buckets| > 0
  {
    c.data[n].key % |c.buckets|
  }

  predicate Evictable(c: Cache) {
    && |c.recent| > 0 && |c.buckets| > 0 && Last(c) in c.data && Last(c) in c.buckets[BucketOf(c, Last(c))]
    && Last(c).dlink in c.h && c.h[Last(c).dlink].next in c.h && c.h[Last(c).dlink].prev in c.h
    && var h1 := ListDel(c.h, Last(c).dlink);
       Last(c).hlink in h1 && h1[Last(c).hlink].next in h1 && h1[Last(c).hlink].prev in h1
  }

  function Evicted(c: Cache): Cache
    requires Evictable(c)
  {
    var n := Last(c);
    var b := BucketOf(c, n);
    Cache(ListDel(ListDel(c.h, n.dlink), n.hlink), c.data - {n}, Without(c.recent, |c.recent| - 1),
          c.buckets[b := Without(c.buckets[b], IndexOf(c.buckets[b], n))])
  }

  // list_del of the recency link.
  lemma EvictRecent(c: Cache, dhead: ListHead, heads: seq<ListHead>)
    requires Shape(c, dhead, heads) && |c.recent| > 0
    ensures var node := Last(c).dlink; node in c.h && c.h[node].next in c.h && c.h[node].prev in c.h
    ensures var h1 := ListDel(c.h, Last(c).dlink);
      && ChangesOnly(c.h, h1, DRing(dhead, c.recent))
      && Ring(h1, DRing(dhead, Without(c.recent, |c.recent| - 1)))
  {
    var k, r := |c.recent|, DRing(dhead, c.recent);
    DelRing(c.h, r, k);
    assert Without(r, k) == DRing(dhead, Without(c.recent, k - 1));
  }

  // list_del of the bucket link.
  lemma EvictBucket(h: Heap, head: ListHead, s: seq<LruNode>, n: LruNode)
    requires Ring(h, HRing(head, s)) && n in s
    ensures n.hlink in h && h[n.hlink].next in h && h[n.hlink].prev in h
    ensures ChangesOnly(h, ListDel(h, n.hlink), HRing(head, s))
    ensures Ring(ListDel(h, n.hlink), HRing(head, Without(s, IndexOf(s, n))))
  {
    var j, r := IndexOf(s, n), HRing(head, s);
    DelRing(h, r, j + 1);
    assert Without(r, j + 1) == HRing(head, Without(s, j));
  }

  // A bucket after the recency list changed.
  lemma BucketAfterRecent(c: Cache, h1: Heap, dhead: ListHead, heads: seq<ListHead>, s: seq<ListHead>, b: int)
    requires Shape(c, dhead, heads) && ChangesOnly(c.h, h1, s) && AllD(s) && 0 <= b < |heads|
    ensures Ring(h1, HRing(heads[b], c.buckets[b]))
  {
    BucketsKept(c, c.(h := h1), dhead, heads, s, b);
    assert BucketAt(c.(h := h1), heads, b);
  }

  lemma EvictWorks(c: Cache, dhead: ListHead, heads: seq<ListHead>)
    requires Shape(c, dhead, heads) && |c.recent| > 0
    ensures Evictable(c)
    ensures var n := Last(c); var b := BucketOf(c, n); var h1 := ListDel(c.h, n.dlink);
      && 0 <= b < |heads| && ChangesOnly(c.h, h1, DRing(dhead, c.recent)) && AllD(DRing(dhead, c.recent))
      && ChangesOnly(h1, Evicted(c).h, HRing(heads[b], c.buckets[b]))
      && Ring(h1, DRing(dhead, Evicted(c).recent)) && Ring(Evicted(c).h, HRing(heads[b], Evicted(c).buckets[b]))
  {
    var n := Last(c);
    assert n in c.recent && Listed(c, n);
    var b := BucketOf(c, n);
    EvictRecent(c, dhead, heads);
    DRingIsD(c, dhead, heads);
    var h1 := ListDel(c.h, n.dlink);
    BucketAfterRecent(c, h1, dhead, heads, DRing(dhead, c.recent), b);
    EvictBucket(h1, heads[b], c.buckets[b], n);
  }

  lemma EvictKeepsRecent(c: Cache, dhead: ListHead, heads: seq<ListHead>)
    requires Shape(c, dhead, heads) && |c.recent| > 0 && Evictable(c)
    ensures Ring(Evicted(c).h, DRing(dhead, Evicted(c).recent))
  {
    EvictWorks(c, dhead, heads);
    var b := BucketOf(c, Last(c));
    HRingIsH(c, dhead, heads, b);
    var r, r' := DRing(dhead, c.recent), DRing(dhead, Evicted(c).recent);
    assert forall i :: 0 <= i < |r'| ==> r'[i] == r[i] && r[i] in r;
    RingKept(ListDel(c.h, Last(c).dlink), Evicted(c).h, HRing(heads[b], c.buckets[b]), r');
  }

  lemma EvictBuckets(c: Cache, dhead: ListHead, heads: seq<ListHead>, d: int)
    requires Shape(c, dhead, heads) && |c.recent| > 0 && Evictable(c) && 0 <= d < |heads|
    ensures BucketAt(Evicted(c), heads, d)
  {
    EvictWorks(c, dhead, heads);
    var n := Last(c);
    var b := BucketOf(c, n);
    assert BucketAt(c, heads, d);
    if d != b {
      BucketAfterRecent(c, ListDel(c.h, n.dlink), dhead, heads, DRing(dhead, c.recent), d);
      BucketsApart(c, dhead, heads, b, d);
      RingKept(ListDel(c.h, n.dlink), Evicted(c).h, HRing(heads[b], c.buckets[b]), HRing(heads[d], c.buckets[d]));
    } else {
      NotLeft(heads[b], c.buckets[b], c.h, IndexOf(c.buckets[b], n));
    }
  }

  // A node taken out of a ring's nodes is gone.
  lemma NotLeft(head: ListHead, s: seq<LruNode>, h: Heap, j: int)
    requires 0 <= j < |s| && Ring(h, HRing(head, s))
    ensures forall m :: m in Without(s, j) <==> m in s && m != s[j]
  {
    var r := HRing(head, s);
    forall i | 0 <= i < |s| && i != j ensures s[i] != s[j] && s[i] in Without(s, j) {
      assert r[i + 1] != r[j + 1] by { if i < j { assert r[i + 1] != r[j + 1]; } else { assert r[j + 1] != r[i + 1]; } }
      assert Without(s, j)[if i < j then i else i - 1] == s[i];
    }
    forall m | m in Without(s, j) ensures m in s && m != s[j] {
      var k :| 0 <= k < |Without(s, j)| && Without(s, j)[k] == m;
      assert m == s[if k < j then k else k + 1];
    }
  }

  lemma EvictListed(c: Cache, dhead: ListHead, heads: seq<ListHead>, m: LruNode)
    requires Shape(c, dhead, heads) && |c.recent| > 0 && Evictable(c) && m in c.data && m != Last(c)
    ensures m in Evicted(c).data && Listed(Evicted(c), m)
  {
    EvictWorks(c, dhead, heads);
    assert Listed(c, m);
    var n := Last(c);
    var b := BucketOf(c, n);
    var i :| 0 <= i < |c.recent| && c.recent[i] == m;
    assert Without(c.recent, |c.recent| - 1)[i] == m;
    if BucketOf(c, m) == b {
      assert BucketAt(c, heads, b);
      NotLeft(heads[b], c.buckets[b], c.h, IndexOf(c.buckets[b], n));
    }
  }

  /** Eviction takes exactly the last entry out, and leaves its node in no list. */
  lemma EvictedShape(c: Cache, dhead: ListHead, heads: seq<ListHead>)
    requires Shape(c, dhead, heads) && |c.recent| > 0
    ensures Evictable(c) && Shape(Evicted(c), dhead, heads)
    ensures Last(c) in c.data && Last(c) !in Evicted(c).data && NodeAt(Evicted(c).h, Last(c))
      && Evicted(c).h.Keys == c.h.Keys
    ensures Items(Evicted(c)) == Without(Items(c), |c.recent| - 1)
  {
    EvictWorks(c, dhead, heads);
    EvictKeepsRecent(c, dhead, heads);
    var c' := Evicted(c);
    assert Last(c) in c.recent && Listed(c, Last(c));
    forall b | 0 <= b < |heads| ensures BucketAt(c', heads, b) { EvictBuckets(c, dhead, heads, b); }
    forall m | m in c'.data ensures Listed(c', m) { EvictListed(c, dhead, heads, m); }
    RecentDistinct(c, dhead, heads);
    EvictedItems(c, c', |c.recent| - 1);
  }

  lemma EvictedItems(c: Cache, c': Cache, k: int)
    requires k == |c.recent| - 1 >= 0 && Distinct(c.recent) && forall n :: n in c.recent ==> n in c.data
    requires c'.recent == Without(c.recent, k) && c'.data == c.data - {c.recent[k]}
    ensures forall n :: n in c'.recent ==> n in c'.data
    ensures Items(c') == Without(Items(c), k)
  {
    forall i | 0 <= i < k ensures c'.recent[i] == c.recent[i] && c.recent[i] in c'.data {
      assert c.recent[i] in c.recent && c.recent[i] != c.recent[k];
    }
    assert forall n :: n in c'.recent ==> n in c'.data;
    assert forall i :: 0 <= i < k ==> Items(c')[i] == Without(Items(c), k)[i];
  }

  // ---------- insertion at the front ----------

  predicate Insertable(c: Cache, dhead: ListHead, heads: seq<ListHead>, n: LruNode, b: int) {
    && 0 <= b < |heads| == |c.buckets| && NodeAt(c.h, n) && dhead in c.h && c.h[dhead].next in c.h
    && var h1 := ListAdd(c.h, n.dlink, dhead); n.hlink in h1 && heads[b] in h1 && h1[heads[b]].next in h1
  }

  function Inserted(c: Cache, dhead: ListHead, heads: seq<ListHead>, n: LruNode, item: Item, b: int): Cache
    requires Insertable(c, dhead, heads, n, b)
  {
    Cache(ListAdd(ListAdd(c.h, n.dlink, dhead), n.hlink, heads[b]), c.data[n := item], [n] + c.recent,
          c.buckets[b := [n] + c.buckets[b]])
  }

  lemma InsertRecent(h: Heap, dhead: ListHead, s: seq<LruNode>, n: LruNode)
    requires Ring(h, DRing(dhead, s)) && n.dlink in h && n.dlink !in DRing(dhead, s)
    ensures dhead in h && h[dhead].next in h
    ensures Ring(ListAdd(h, n.dlink, dhead), DRing(dhead, [n] + s))
      && ChangesOnly(h, ListAdd(h, n.dlink, dhead), DRing(dhead, [n] + s))
  {
    AddRing(h, DRing(dhead, s), n.dlink);
    assert Added(DRing(dhead, s), n.dlink) == DRing(dhead, [n] + s);
  }

  lemma InsertBucket(h: Heap, head: ListHead, s: seq<LruNode>, n: LruNode)
    requires Ring(h, HRing(head, s)) && n.hlink in h && n.hlink !in HRing(head, s)
    ensures head in h && h[head].next in h
    ensures Ring(ListAdd(h, n.hlink, head), HRing(head, [n] + s))
      && ChangesOnly(h, ListAdd(h, n.hlink, head), HRing(head, [n] + s))
  {
    AddRing(h, HRing(head, s), n.hlink);
    assert Added(HRing(head, s), n.hlink) == HRing(head, [n] + s);
  }

  // `n` is ready to go in, with a key of bucket `b`.
  ghost predicate Fresh(c: Cache, dhead: ListHead, heads: seq<ListHead>, n: LruNode, item: Item, b: int) {
    Shape(c, dhead, heads) && n !in c.data && NodeAt(c.h, n) && 0 <= item.key && b == item.key % |heads|
  }

  lemma InsertWorks(c: Cache, dhead: ListHead, heads: seq<ListHead>, n: LruNode, item: Item, b: int)
    requires Fresh(c, dhead, heads, n, item, b)
    ensures Insertable(c, dhead, heads, n, b)
    ensures var h1, h2 := ListAdd(c.h, n.dlink, dhead), Inserted(c, dhead, heads, n, item, b).h;
      && ChangesOnly(c.h, h1, DRing(dhead, [n] + c.recent)) && AllD(DRing(dhead, [n] + c.recent))
      && ChangesOnly(h1, h2, HRing(heads[b], [n] + c.buckets[b]))
      && Ring(h1, DRing(dhead, [n] + c.recent)) && Ring(h2, HRing(heads[b], [n] + c.buckets[b]))
  {
    OutsideRings(c, dhead, heads, n, b);
    InsertRecent(c.h, dhead, c.recent, n);
    DRingIsD(c, dhead, heads);
    var h1, s := ListAdd(c.h, n.dlink, dhead), DRing(dhead, [n] + c.recent);
    forall m | m in s ensures m.kind.DHead? || m.kind.DLink? {
      assert m == n.dlink || m in DRing(dhead, c.recent) by { FrontLinks(dhead, c.recent, n, m); }
    }
    BucketAfterRecent(c, h1, dhead, heads, s, b);
    InsertBucket(h1, heads[b], c.buckets[b], n);
  }

  lemma FrontLinks(dhead: ListHead, s: seq<LruNode>, n: LruNode, m: ListHead)
    requires m in DRing(dhead, [n] + s)
    ensures m == n.dlink || m in DRing(dhead, s)
  {
    var r, r' := DRing(dhead, s), DRing(dhead, [n] + s);
    var i :| 0 <= i < |r'| && r'[i] == m;
    if i == 0 { assert r[0] == m; } else if i > 1 { assert r[i - 1] == m; }
  }

  lemma FrontBucketLinks(head: ListHead, s: seq<LruNode>, n: LruNode, m: ListHead)
    requires m in HRing(head, [n] + s)
    ensures m == n.hlink || m in HRing(head, s)
  {
    var r, r' := HRing(head, s), HRing(head, [n] + s);
    var i :| 0 <= i < |r'| && r'[i] == m;
    if i == 0 { assert r[0] == m; } else if i > 1 { assert r[i - 1] == m; }
  }

  lemma InsertKeepsRecent(c: Cache, dhead: ListHead, heads: seq<ListHead>, n: LruNode, item: Item, b: int)
    requires Fresh(c, dhead, heads, n, item, b) && Insertable(c, dhead, heads, n, b)
    ensures Ring(Inserted(c, dhead, heads, n, item, b).h, DRing(dhead, [n] + c.recent))
  {
    InsertWorks(c, dhead, heads, n, item, b);
    HRingIsH(c, dhead, heads, b);
    var s, r := HRing(heads[b], [n] + c.buckets[b]), DRing(dhead, [n] + c.recent);
    forall m | m in r ensures m !in s { if m in s { FrontBucketLinks(heads[b], c.buckets[b], n, m); } }
    RingKept(ListAdd(c.h, n.dlink, dhead), Inserted(c, dhead, heads, n, item, b).h, s, r);
  }

  lemma InsertBuckets(c: Cache, dhead: ListHead, heads: seq<ListHead>, n: LruNode, item: Item, b: int, d: int)
    requires Fresh(c, dhead, heads, n, item, b) && Insertable(c, dhead, heads, n, b) && 0 <= d < |heads|
    ensures BucketAt(Inserted(c, dhead, heads, n, item, b), heads, d)
  {
    InsertWorks(c, dhead, heads, n, item, b);
    assert BucketAt(c, heads, d);
    if d != b {
      var s, r := HRing(heads[b], [n] + c.buckets[b]), HRing(heads[d], c.buckets[d]);
      BucketAfterRecent(c, ListAdd(c.h, n.dlink, dhead), dhead, heads, DRing(dhead, [n] + c.recent), d);
      BucketsApart(c, dhead, heads, b, d);
      OutsideRings(c, dhead, heads, n, d);
      forall m | m in r ensures m !in s { if m in s { FrontBucketLinks(heads[b], c.buckets[b], n, m); } }
      RingKept(ListAdd(c.h, n.dlink, dhead), Inserted(c, dhead, heads, n, item, b).h, s, r);
    }
  }

  lemma InsertListed(c: Cache, dhead: ListHead, heads: seq<ListHead>, n: LruNode, item: Item, b: int, m: LruNode)
    requires Fresh(c, dhead, heads, n, item, b) && Insertable(c, dhead, heads, n, b) && (m in c.data || m == n)
    ensures var c' := Inserted(c, dhead, heads, n, item, b); m in c'.data && Listed(c', m)
  {
    InsertWorks(c, dhead, heads, n, item, b);
    if m != n { assert Listed(c, m); }
  }

  /** Insertion puts the new entry in front, and into the bucket of its key. */
  lemma InsertedShape(c: Cache, dhead: ListHead, heads: seq<ListHead>, n: LruNode, item: Item, b: int)
    requires Fresh(c, dhead, heads, n, item, b)
    ensures Insertable(c, dhead, heads, n, b) && Shape(Inserted(c, dhead, heads, n, item, b), dhead, heads)
    ensures Items(Inserted(c, dhead, heads, n, item, b)) == [item] + Items(c)
  {
    InsertWorks(c, dhead, heads, n, item, b);
    InsertKeepsRecent(c, dhead, heads, n, item, b);
    var c' := Inserted(c, dhead, heads, n, item, b);
    forall d | 0 <= d < |heads| ensures BucketAt(c', heads, d) { InsertBuckets(c, dhead, heads, n, item, b, d); }
    forall m | m in c'.data ensures Listed(c', m) { InsertListed(c, dhead, heads, n, item, b, m); }
    InsertedItems(c, c', n, item);
  }

  lemma InsertedItems(c: Cache, c': Cache, n: LruNode, item: Item)
    requires n !in c.data && (forall m :: m in c.recent ==> m in c.data)
    requires c'.recent == [n] + c.recent && c'.data == c.data[n := item]
    ensures forall m :: m in c'.recent ==> m in c'.data
    ensures Items(c') == [item] + Items(c)
  {
    assert forall m :: m in c'.recent ==> m == n || m in c.recent;
    forall i | 0 <= i < |c'.recent| ensures Items(c')[i] == ([item] + Items(c))[i] {
      if i > 0 { assert c'.recent[i] == c.recent[i - 1] && c.recent[i - 1] in c.recent; }
    }
  }

  // ---------- a node from malloc ----------

  function Extended(h: Heap, n: LruNode, d: Links, k: Links): Heap {
    h[n.dlink := d][n.hlink := k]
  }

  lemma RingSame(h: Heap, h': Heap, c: seq<ListHead>)
    requires Ring(h, c) && forall m :: m in c ==> m in h && m in h' && h'[m] == h[m]
    ensures Ring(h', c)
  {
    forall i | 0 <= i < |c| ensures LinkedAt(h', c, i) { assert LinkedAt(h, c, i) && c[i] in c; }
  }

  lemma RingIn(h: Heap, c: seq<ListHead>, m: ListHead)
    requires Ring(h, c) && m in c
    ensures m in h
  {
    var i :| 0 <= i < |c| && c[i] == m;
    assert LinkedAt(h, c, i);
  }

  lemma ExtendedShape(c: Cache, dhead: ListHead, heads: seq<ListHead>, n: LruNode, d: Links, k: Links)
    requires Shape(c, dhead, heads) && n.dlink !in c.h && n.hlink !in c.h
    ensures Shape(c.(h := Extended(c.h, n, d, k)), dhead, heads) && n !in c.data
  {
    var c' := c.(h := Extended(c.h, n, d, k));
    forall m | m in DRing(dhead, c.recent) ensures m in c.h { RingIn(c.h, DRing(dhead, c.recent), m); }
    RingSame(c.h, c'.h, DRing(dhead, c.recent));
    forall b | 0 <= b < |heads| ensures BucketAt(c', heads, b) {
      assert BucketAt(c, heads, b);
      forall m | m in HRing(heads[b], c.buckets[b]) ensures m in c.h { RingIn(c.h, HRing(heads[b], c.buckets[b]), m); }
      RingSame(c.h, c'.h, HRing(heads[b], c.buckets[b]));
    }
    forall m | m in c.data ensures m != n && Listed(c', m) { assert Listed(c, m); }
  }
}
