/** The recency list and the buckets of the LRU cache, linux-2022/quiz1/problem3.c:34-147, on
    snapshots. */
module LruShape {
  import opened IntrusiveList
  import opened LruSpec

  /** The links, the data of the cached nodes, and the lists as sequences of nodes. */
  datatype Cache = Cache(h: Heap, data: map<LruNode, Item>, recent: seq<LruNode>, buckets: seq<seq<LruNode>>)

  function Items(c: Cache): seq<Item>
    requires forall n :: n in c.recent ==> n in c.data
  {
    seq(|c.recent|, i requires 0 <= i < |c.recent| => c.data[c.recent[i]])
  }

  function DRing(dhead: ListHead, s: seq<LruNode>): (r: seq<ListHead>)
    ensures |r| == |s| + 1 && r[0] == dhead && forall i :: 1 <= i < |r| ==> r[i] == s[i - 1].dlink
  {
    [dhead] + seq(|s|, i requires 0 <= i < |s| => s[i].dlink)
  }

  function HRing(head: ListHead, s: seq<LruNode>): (r: seq<ListHead>)
    ensures |r| == |s| + 1 && r[0] == head && forall i :: 1 <= i < |r| ==> r[i] == s[i - 1].hlink
  {
    [head] + seq(|s|, i requires 0 <= i < |s| => s[i].hlink)
  }

  predicate NodeAt(h: Heap, n: LruNode) {
    && n.dlink.kind == DLink && n.hlink.kind == HLink && n.dlink in h && n.hlink in h
    && h[n.dlink].entry == n && h[n.hlink].entry == n
  }

  ghost predicate Heads(h: Heap, dhead: ListHead, heads: seq<ListHead>) {
    && |heads| > 0 && dhead.kind == DHead && dhead in h
    && forall b :: 0 <= b < |heads| ==> heads[b].kind == HHead(b) && heads[b] in h
  }

  // Bucket `b` is a ring of the nodes whose keys fall into it.
  ghost predicate BucketAt(c: Cache, heads: seq<ListHead>, b: int)
    requires 0 <= b < |heads| == |c.buckets|
  {
    && Ring(c.h, HRing(heads[b], c.buckets[b]))
    && forall n :: n in c.buckets[b] ==> n in c.data && c.data[n].key % |heads| == b
  }

  // A cached node is in the recency list and in the bucket of its key.
  ghost predicate Listed(c: Cache, n: LruNode)
    requires n in c.data && |c.buckets| > 0
  {
    n in c.recent && 0 <= c.data[n].key && n in c.buckets[c.data[n].key % |c.buckets|] && NodeAt(c.h, n)
  }

  /** The recency list and the buckets are well-formed lists of the same nodes. */
  ghost predicate Shape(c: Cache, dhead: ListHead, heads: seq<ListHead>) {
    && Heads(c.h, dhead, heads) && |c.buckets| == |heads|
    && Ring(c.h, DRing(dhead, c.recent)) && (forall n :: n in c.recent ==> n in c.data)
    && (forall b {:trigger BucketAt(c, heads, b)} :: 0 <= b < |heads| ==> BucketAt(c, heads, b))
    && (forall n {:trigger Listed(c, n)} :: n in c.data ==> Listed(c, n))
  }

  // ---------- rings do not share links ----------

  ghost predicate AllD(s: seq<ListHead>) {
    forall m :: m in s ==> m.kind.DHead? || m.kind.DLink?
  }

  lemma DRingIsD(c: Cache, dhead: ListHead, heads: seq<ListHead>)
    requires Shape(c, dhead, heads)
    ensures AllD(DRing(dhead, c.recent))
  {
    forall n | n in c.recent ensures n.dlink.kind == DLink { assert Listed(c, n); }
  }

  // No link of a bucket is a recency link.
  lemma HRingIsH(c: Cache, dhead: ListHead, heads: seq<ListHead>, b: int)
    requires Shape(c, dhead, heads) && 0 <= b < |heads|
    ensures forall m :: m in HRing(heads[b], c.buckets[b]) ==> m.kind.HHead? || m.kind.HLink?
  {
    assert BucketAt(c, heads, b);
    forall n | n in c.buckets[b] ensures n.hlink.kind == HLink { assert Listed(c, n); }
  }

  // Buckets do not share links.
  lemma BucketsApart(c: Cache, dhead: ListHead, heads: seq<ListHead>, b: int, d: int)
    requires Shape(c, dhead, heads) && 0 <= b < |heads| && 0 <= d < |heads| && b != d
    ensures forall m :: m in HRing(heads[d], c.buckets[d]) ==> m !in HRing(heads[b], c.buckets[b])
  {
    assert BucketAt(c, heads, b) && BucketAt(c, heads, d);
    forall n | n in c.buckets[b]
      ensures n.hlink.kind == HLink && n.hlink in c.h && c.h[n.hlink].entry == n
    {
      assert Listed(c, n);
    }
    forall n | n in c.buckets[d]
      ensures n.hlink.kind == HLink && n.hlink in c.h && c.h[n.hlink].entry == n
    {
      assert Listed(c, n);
    }
  }

  // A node outside the cache is in no ring.
  lemma OutsideRings(c: Cache, dhead: ListHead, heads: seq<ListHead>, n: LruNode, b: int)
    requires Shape(c, dhead, heads) && n !in c.data && NodeAt(c.h, n) && 0 <= b < |heads|
    ensures n.dlink !in DRing(dhead, c.recent) && n.hlink !in HRing(heads[b], c.buckets[b])
  {
    assert BucketAt(c, heads, b);
    forall m | m in c.recent ensures m.dlink in c.h && c.h[m.dlink].entry == m { assert Listed(c, m); }
    forall m | m in c.buckets[b] ensures m.hlink in c.h && c.h[m.hlink].entry == m { assert Listed(c, m); }
  }

  // Different nodes at different places.
  lemma RecentDistinct(c: Cache, dhead: ListHead, heads: seq<ListHead>)
    requires Shape(c, dhead, heads)
    ensures Distinct(c.recent)
  {
    var r := DRing(dhead, c.recent);
    forall i, j | 0 <= i < j < |c.recent| ensures c.recent[i] != c.recent[j] { assert r[i + 1] != r[j + 1]; }
  }

  // ---------- changes to the recency list only ----------

  // Buckets survive a change of recency links.
  lemma BucketsKept(c: Cache, c': Cache, dhead: ListHead, heads: seq<ListHead>, s: seq<ListHead>, b: int)
    requires Shape(c, dhead, heads) && 0 <= b < |heads| && ChangesOnly(c.h, c'.h, s) && AllD(s)
    requires c'.buckets == c.buckets && c'.data.Keys == c.data.Keys
    requires forall n :: n in c.data ==> c'.data[n].key == c.data[n].key
    ensures BucketAt(c', heads, b)
  {
    assert BucketAt(c, heads, b);
    HRingIsH(c, dhead, heads, b);
    RingKept(c.h, c'.h, s, HRing(heads[b], c.buckets[b]));
  }

  /** A hit: the node moves to the front, with its old or a new value. */
  function Touched(c: Cache, dhead: ListHead, i: int, value: int): Cache
    requires 0 <= i < |c.recent| && c.recent[i] in c.data && Moves(c.h, dhead, c.recent[i].dlink)
  {
    var n := c.recent[i];
    Cache(ListMove(c.h, n.dlink, dhead), c.data[n := c.data[n].(value := value)], [n] + Without(c.recent, i), c.buckets)
  }

  predicate Moves(h: Heap, head: ListHead, node: ListHead) {
    node in h && h[node].next in h && h[node].prev in h && head in h && ListDel(h, node)[head].next in h
  }

  /** list_move. */
  function ListMove(h: Heap, node: ListHead, head: ListHead): Heap
    requires Moves(h, head, node)
  {
    ListAdd(ListDel(h, node), node, head)
  }

  lemma MoveLinks(h: Heap, r: seq<ListHead>, k: int)
    requires 0 < k < |r| && Ring(h, r)
    ensures Moves(h, r[0], r[k]) && Ring(ListMove(h, r[k], r[0]), Added(Without(r, k), r[k]))
    ensures ChangesOnly(h, ListMove(h, r[k], r[0]), r)
  {
    DelRing(h, r, k);
    assert LinkedAt(h, r, k);
    AddRing(ListDel(h, r[k]), Without(r, k), r[k]);
    SameLinks(r, k);
  }

  lemma MoveRing(h: Heap, dhead: ListHead, s: seq<LruNode>, i: int)
    requires 0 <= i < |s| && Ring(h, DRing(dhead, s))
    ensures Moves(h, dhead, s[i].dlink) && Ring(ListMove(h, s[i].dlink, dhead), DRing(dhead, [s[i]] + Without(s, i)))
    ensures ChangesOnly(h, ListMove(h, s[i].dlink, dhead), DRing(dhead, s))
  {
    MoveLinks(h, DRing(dhead, s), i + 1);
    MovedNodes(dhead, s, i);
  }

  lemma MovedNodes(dhead: ListHead, s: seq<LruNode>, i: int)
    requires 0 <= i < |s|
    ensures Added(Without(DRing(dhead, s), i + 1), s[i].dlink) == DRing(dhead, [s[i]] + Without(s, i))
  {
  }

  lemma SameLinks(r: seq<ListHead>, k: int)
    requires 0 < k < |r|
    ensures forall m :: m in Added(Without(r, k), r[k]) ==> m in r
  {
    var t := Added(Without(r, k), r[k]);
    assert forall j :: 0 <= j < |t| ==>
      t[j] == r[if j == 0 then 0 else if j == 1 then k else if j - 1 < k then j - 1 else j];
  }

  lemma TouchedListed(c: Cache, dhead: ListHead, heads: seq<ListHead>, i: int, value: int, n: LruNode)
    requires Shape(c, dhead, heads) && 0 <= i < |c.recent| && n in c.data && Moves(c.h, dhead, c.recent[i].dlink)
    requires ChangesOnly(c.h, ListMove(c.h, c.recent[i].dlink, dhead), DRing(dhead, c.recent))
    ensures n in Touched(c, dhead, i, value).data && Listed(Touched(c, dhead, i, value), n)
  {
    assert Listed(c, n);
    var j :| 0 <= j < |c.recent| && c.recent[j] == n;
    var recent' := [c.recent[i]] + Without(c.recent, i);
    assert n == recent'[if j == i then 0 else if j < i then j + 1 else j];
  }

  lemma TouchedShape(c: Cache, dhead: ListHead, heads: seq<ListHead>, i: int, value: int)
    requires Shape(c, dhead, heads) && 0 <= i < |c.recent|
    ensures Moves(c.h, dhead, c.recent[i].dlink) && c.recent[i] in c.data
    ensures Shape(Touched(c, dhead, i, value), dhead, heads)
    ensures Items(Touched(c, dhead, i, value)) == Front(Items(c), i, Items(c)[i].(value := value))
  {
    MoveRing(c.h, dhead, c.recent, i);
    var c' := Touched(c, dhead, i, value);
    DRingIsD(c, dhead, heads);
    forall b | 0 <= b < |heads|
      ensures BucketAt(c', heads, b)
    {
      BucketsKept(c, c', dhead, heads, DRing(dhead, c.recent), b);
    }
    forall n | n in c'.data ensures Listed(c', n) { TouchedListed(c, dhead, heads, i, value, n); }
    RecentDistinct(c, dhead, heads);
    TouchedItems(c, c', i, value);
  }

  lemma TouchedItems(c: Cache, c': Cache, i: int, value: int)
    requires 0 <= i < |c.recent| && Distinct(c.recent) && forall n :: n in c.recent ==> n in c.data
    requires c'.recent == [c.recent[i]] + Without(c.recent, i)
      && c'.data == c.data[c.recent[i] := c.data[c.recent[i]].(value := value)]
    ensures forall n :: n in c'.recent ==> n in c'.data
    ensures Items(c') == Front(Items(c), i, Items(c)[i].(value := value))
  {
    var t := Front(Items(c), i, Items(c)[i].(value := value));
    forall k | 0 <= k < |c'.recent| ensures c'.recent[k] in c'.data && Items(c')[k] == t[k] {
      var j := if k == 0 then i else if k - 1 < i then k - 1 else k;
      assert c'.recent[k] == c.recent[j] && c.recent[j] in c.recent;
    }
  }
}
