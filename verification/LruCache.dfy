/** The LRU cache on intrusive lists, linux-2022/quiz1/problem3.c:34-147. */
module LruCache {
  import opened IntrusiveList
  import opened LruSpec
  import opened LruShape
  import opened LruUpdates

  // The key and value of every cached node.
  ghost predicate DataOf(data: map<LruNode, Item>)
    reads data.Keys
  {
    forall n {:trigger n in data} {:trigger data[n]} :: n in data ==> data[n] == Item(n.key, n.value)
  }

  /** list_move. */
  method Move(node: ListHead, head: ListHead, ghost links: set<ListHead>, ghost h: Heap)
    requires Reflects(h, links) && Moves(h, head, node)
    modifies links
    ensures Reflects(ListMove(h, node, head), links)
  {
    Del(node, links, h);
    Add(node, head, links, ListDel(h, node));
  }

  // ---------- the walk along a bucket, problem3.c:85-91 and 122-129 ----------

  lemma BucketWalk(c: Cache, dhead: ListHead, heads: seq<ListHead>, b: int, i: int)
    requires Shape(c, dhead, heads) && 0 <= b < |heads| && 0 <= i <= |c.buckets[b]|
    ensures var r := HRing(heads[b], c.buckets[b]);
      r[i] in c.h && c.h[r[i]].next == (if i == |c.buckets[b]| then heads[b] else c.buckets[b][i].hlink)
    ensures i > 0 ==> var n := c.buckets[b][i - 1];
      n.hlink in c.h && c.h[n.hlink].entry == n && n.hlink != heads[b] && n in c.data && n in c.recent
  {
    var r := HRing(heads[b], c.buckets[b]);
    assert BucketAt(c, heads, b);
    assert LinkedAt(c.h, r, i);
    if i > 0 { assert r[i] != r[0] && c.buckets[b][i - 1] in c.buckets[b] && Listed(c, c.buckets[b][i - 1]); }
  }

  // A key that is in no node of its bucket is not cached.
  lemma NotCached(c: Cache, dhead: ListHead, heads: seq<ListHead>, key: int)
    requires Shape(c, dhead, heads) && key >= 0
    requires forall i :: 0 <= i < |c.buckets[key % |heads|]| ==> var n := c.buckets[key % |heads|][i];
      n in c.data ==> c.data[n].key != key
    ensures NoKey(Items(c), key)
  {
    forall i | 0 <= i < |c.recent| ensures c.data[c.recent[i]].key != key {
      var n := c.recent[i];
      assert n in c.recent && Listed(c, n);
    }
  }

  method Lookup(key: int, hheads: seq<ListHead>, ghost dhead: ListHead, ghost c: Cache) returns (n: LruNode?)
    requires Shape(c, dhead, hheads) && Reflects(c.h, c.h.Keys) && DataOf(c.data) && key >= 0
    ensures n != null ==> n in c.recent && n in c.data && c.data[n].key == key
    ensures n == null ==> NoKey(Items(c), key)
  {
    var hash := key % |hheads|;
    ghost var i, bucket := 1, c.buckets[hash];
    BucketWalk(c, dhead, hheads, hash, 0);
    var link := hheads[hash].next;
    while link != hheads[hash]
      invariant 1 <= i <= |bucket| + 1 && link == (if i == |bucket| + 1 then hheads[hash] else bucket[i - 1].hlink)
      invariant forall j :: 0 <= j < i - 1 ==> bucket[j] in c.data ==> c.data[bucket[j]].key != key
      decreases |bucket| + 1 - i
    {
      BucketWalk(c, dhead, hheads, hash, i);
      n := link.entry;
      if n.key == key {
        return n;
      }
      link := link.next;
      i := i + 1;
    }
    if i <= |bucket| { BucketWalk(c, dhead, hheads, hash, i); }
    NotCached(c, dhead, hheads, key);
    return null;
  }

  /** Where a cached node stands is where its key is found. */
  lemma FoundAt(c: Cache, dhead: ListHead, heads: seq<ListHead>, n: LruNode)
    requires Shape(c, dhead, heads) && KeysDiffer(Items(c)) && n in c.recent
    ensures n in c.data && Find(Items(c), c.data[n].key) == IndexOf(c.recent, n)
  {
    var i, j := IndexOf(c.recent, n), Find(Items(c), c.data[n].key);
    assert Items(c)[i].key == c.data[n].key;
  }

  // ---------- the steps of get and put, on the state of the cache ----------

  // A hit: list_move, and the new value.
  method Touch(n: LruNode, value: int, dhead: ListHead, ghost heads: seq<ListHead>, ghost c: Cache)
    requires Shape(c, dhead, heads) && Reflects(c.h, c.h.Keys) && DataOf(c.data) && n in c.recent
    modifies c.h.Keys, n
    ensures Moves(c.h, dhead, n.dlink) && n in c.data && Reflects(ListMove(c.h, n.dlink, dhead), c.h.Keys)
    ensures DataOf(c.data[n := c.data[n].(value := value)])
  {
    MoveRing(c.h, dhead, c.recent, IndexOf(c.recent, n));
    Move(n.dlink, dhead, c.h.Keys, c.h);
    Update(n, value, c.data);
  }

  method Update(n: LruNode, value: int, ghost data: map<LruNode, Item>)
    requires DataOf(data) && n in data
    modifies n
    ensures DataOf(data[n := data[n].(value := value)])
  {
    n.value := value;
  }

  // Lines 132-135.
  method Evict(dhead: ListHead, ghost heads: seq<ListHead>, ghost c: Cache) returns (n: LruNode)
    requires Shape(c, dhead, heads) && Reflects(c.h, c.h.Keys) && DataOf(c.data) && |c.recent| > 0
    modifies c.h.Keys
    ensures Evictable(c) && n == Last(c) && Reflects(Evicted(c).h, c.h.Keys) && DataOf(Evicted(c).data)
  {
    EvictedShape(c, dhead, heads);
    LastEntry(c, dhead, heads);
    n := dhead.prev.entry;
    Del(n.dlink, c.h.Keys, c.h);
    Del(n.hlink, c.h.Keys, ListDel(c.h, n.dlink));
  }

  /** list_last_entry. */
  lemma LastEntry(c: Cache, dhead: ListHead, heads: seq<ListHead>)
    requires Shape(c, dhead, heads) && |c.recent| > 0
    ensures dhead in c.h && c.h[dhead].prev == Last(c).dlink && Last(c).dlink in c.h
      && c.h[Last(c).dlink].entry == Last(c)
  {
    assert LinkedAt(c.h, DRing(dhead, c.recent), 0);
    assert Last(c) in c.recent && Listed(c, Last(c));
  }

  method SetKey(n: LruNode, key: int, ghost data: map<LruNode, Item>)
    requires DataOf(data) && n !in data
    modifies n
    ensures DataOf(data) && n.key == key
  {
    n.key := key;
  }

  method SetValue(n: LruNode, value: int, ghost data: map<LruNode, Item>)
    requires DataOf(data) && n !in data
    modifies n
    ensures DataOf(data[n := Item(old(n.key), value)])
  {
    n.value := value;
  }

  // Lines 144-145.
  method LinkFront(n: LruNode, ghost item: Item, dhead: ListHead, hheads: seq<ListHead>, hash: int, ghost c: Cache)
    requires Insertable(c, dhead, hheads, n, hash) && Reflects(c.h, c.h.Keys)
    modifies c.h.Keys
    ensures Reflects(Inserted(c, dhead, hheads, n, item, hash).h, c.h.Keys)
  {
    Add(n.dlink, dhead, c.h.Keys, c.h);
    Add(n.hlink, hheads[hash], c.h.Keys, ListAdd(c.h, n.dlink, dhead));
  }

  // Lines 143-146.
  method PutFront(n: LruNode, key: int, value: int, dhead: ListHead, hheads: seq<ListHead>, ghost c: Cache)
    requires |hheads| > 0 && Fresh(c, dhead, hheads, n, Item(key, value), key % |hheads|) && Reflects(c.h, c.h.Keys)
      && DataOf(c.data)
    modifies c.h.Keys, n
    ensures Insertable(c, dhead, hheads, n, key % |hheads|)
    ensures var c' := Inserted(c, dhead, hheads, n, Item(key, value), key % |hheads|);
      Reflects(c'.h, c.h.Keys) && DataOf(c'.data)
  {
    InsertedShape(c, dhead, hheads, n, Item(key, value), key % |hheads|);
    SetKey(n, key, c.data);
    LinkFront(n, Item(key, value), dhead, hheads, key % |hheads|, c);
    SetValue(n, value, c.data);
  }

  // ---------- the cache ----------

  // A put of a new key into a full cache: the node of the last entry is used again.
  method Replace(key: int, value: int, dhead: ListHead, hheads: seq<ListHead>, ghost c: Cache) returns (ghost c': Cache)
    requires Shape(c, dhead, hheads) && Reflects(c.h, c.h.Keys) && DataOf(c.data) && |c.recent| > 0 && key >= 0
    modifies c.h.Keys, c.data.Keys
    ensures Shape(c', dhead, hheads) && Reflects(c'.h, c'.h.Keys) && DataOf(c'.data) && |c'.recent| == |c.recent|
    ensures Items(c') == [Item(key, value)] + Without(Items(c), |c.recent| - 1)
  {
    EvictedShape(c, dhead, hheads);
    var n := Evict(dhead, hheads, c);
    ghost var e := Evicted(c);
    InsertedShape(e, dhead, hheads, n, Item(key, value), key % |hheads|);
    PutFront(n, key, value, dhead, hheads, e);
    c' := Inserted(e, dhead, hheads, n, Item(key, value), key % |hheads|);
  }

  // A put of a new key into a cache with room: a node from malloc.
  method Append(key: int, value: int, dhead: ListHead, hheads: seq<ListHead>, ghost c: Cache) returns (ghost c': Cache)
    requires Shape(c, dhead, hheads) && Reflects(c.h, c.h.Keys) && DataOf(c.data) && key >= 0
    modifies c.h.Keys, c.data.Keys
    ensures Shape(c', dhead, hheads) && Reflects(c'.h, c'.h.Keys) && DataOf(c'.data) && |c'.recent| == |c.recent| + 1
    ensures Items(c') == [Item(key, value)] + Items(c)
  {
    var n := new LruNode();
    ghost var e := c.(h := Extended(c.h, n, n.dlink.View(), n.hlink.View()));
    ExtendedShape(c, dhead, hheads, n, n.dlink.View(), n.hlink.View());
    InsertedShape(e, dhead, hheads, n, Item(key, value), key % |hheads|);
    PutFront(n, key, value, dhead, hheads, e);
    c' := Inserted(e, dhead, hheads, n, Item(key, value), key % |hheads|);
  }

  // lRUCacheCreate: heads that are rings of their own.
  method InitHead(kind: Kind) returns (head: ListHead)
    ensures fresh(head) && head.kind == kind && head.View() == Links(head, head, null)
  {
    head := new ListHead(kind);
    head.next := head;
    head.prev := head;
  }

  ghost predicate Alone(h: Heap, head: ListHead) {
    head in h && h[head] == Links(head, head, null)
  }

  method InitHeads(capacity: int) returns (hheads: seq<ListHead>, ghost h: Heap)
    requires capacity > 0
    ensures |hheads| == capacity && Reflects(h, h.Keys) && fresh(h.Keys)
    ensures forall b :: 0 <= b < capacity ==> hheads[b].kind == HHead(b) && Alone(h, hheads[b])
  {
    hheads, h := [], map[];
    var i := 0;
    while i < capacity
      invariant 0 <= i <= capacity && |hheads| == i && Reflects(h, h.Keys) && fresh(h.Keys)
      invariant forall b :: 0 <= b < i ==> hheads[b].kind == HHead(b) && Alone(h, hheads[b])
    {
      var head := InitHead(HHead(i));
      hheads := hheads + [head];
      h := h[head := head.View()];
      i := i + 1;
    }
  }

  function Empty(h: Heap, capacity: nat): Cache {
    Cache(h, map[], [], seq(capacity, _ => []))
  }

  lemma EmptyShape(h: Heap, dhead: ListHead, heads: seq<ListHead>)
    requires |heads| > 0 && dhead.kind == DHead && Alone(h, dhead)
    requires forall b :: 0 <= b < |heads| ==> heads[b].kind == HHead(b) && Alone(h, heads[b])
    ensures Shape(Empty(h, |heads|), dhead, heads) && Items(Empty(h, |heads|)) == []
  {
    var c := Empty(h, |heads|);
    AloneRing(h, dhead);
    assert DRing(dhead, []) == [dhead];
    forall b | 0 <= b < |heads| ensures BucketAt(c, heads, b) {
      AloneRing(h, heads[b]);
      assert HRing(heads[b], []) == [heads[b]];
    }
  }

  lemma AloneRing(h: Heap, head: ListHead)
    requires Alone(h, head)
    ensures Ring(h, [head])
  {
    assert LinkedAt(h, [head], 0);
  }

  class LruCache {
    const capacity: int
    var count: int
    const dhead: ListHead
    const hheads: seq<ListHead>
    ghost var c: Cache

    ghost predicate Valid()
      reads this, c.h.Keys, c.data.Keys
    {
      && Reflects(c.h, c.h.Keys) && DataOf(c.data) && Shape(c, dhead, hheads)
      && |hheads| == capacity && count == |c.recent| <= capacity && KeysDiffer(Items(c))
    }

    /** lRUCacheCreate. */
    constructor (capacity: int)
      requires capacity > 0
      ensures Valid() && this.capacity == capacity && Entries() == [] && fresh(c.h.Keys) && c.data == map[]
    {
      this.capacity := capacity;
      count := 0;
      var heads, h := InitHeads(capacity);
      var head := InitHead(DHead);
      hheads, dhead := heads, head;
      EmptyShape(h[head := Links(head, head, null)], head, heads);
      c := Empty(h[head := Links(head, head, null)], capacity);
    }

    /** The entries, most recently used first. */
    ghost function Entries(): seq<Item>
      requires Shape(c, dhead, hheads)
      reads this
    {
      Items(c)
    }

    method Become(count': int, ghost c': Cache)
      requires Reflects(c'.h, c'.h.Keys) && DataOf(c'.data) && Shape(c', dhead, hheads)
      requires |hheads| == capacity && count' == |c'.recent| <= capacity && KeysDiffer(Items(c'))
      modifies this
      ensures Valid() && c == c' && count == count'
    {
      count := count';
      c := c';
    }

    /** lRUCacheGet. */
    method Get(key: int) returns (r: int)
      requires Valid() && key >= 0
      modifies this, c.h.Keys, c.data.Keys
      ensures Valid() && Entries() == AfterGet(old(Entries()), key) && r == GetResult(old(Entries()), key)
    {
      var n := Lookup(key, hheads, dhead, c);
      if n == null {
        return -1;
      }
      FoundAt(c, dhead, hheads, n);
      ghost var i := IndexOf(c.recent, n);
      TouchedShape(c, dhead, hheads, i, n.value);
      GetKeys(Items(c), key);
      r := n.value;
      Touch(n, n.value, dhead, hheads, c);
      Become(count, Touched(c, dhead, i, r));
    }

    // Lines 124-128.
    method Renew(n: LruNode, ghost key: int, value: int)
      requires Valid() && n in c.recent && n in c.data && c.data[n].key == key
      modifies this, c.h.Keys, c.data.Keys
      ensures Valid() && Entries() == AfterPut(old(Entries()), key, value, capacity)
    {
      FoundAt(c, dhead, hheads, n);
      ghost var i := IndexOf(c.recent, n);
      TouchedShape(c, dhead, hheads, i, value);
      PutKeys(Items(c), key, value, capacity);
      Touch(n, value, dhead, hheads, c);
      Become(count, Touched(c, dhead, i, value));
    }

    /** lRUCachePut. */
    method Put(key: int, value: int)
      requires Valid() && key >= 0
      modifies this, c.h.Keys, c.data.Keys
      ensures Valid() && Entries() == AfterPut(old(Entries()), key, value, capacity)
    {
      var n := Lookup(key, hheads, dhead, c);
      if n != null {
        Renew(n, key, value);
        return;
      }
      PutKeys(Items(c), key, value, capacity);
      if count == capacity {
        ghost var c' := Replace(key, value, dhead, hheads, c);
        Become(count, c');
      } else {
        ghost var c' := Append(key, value, dhead, hheads, c);
        Become(count + 1, c');
      }
    }
  }

  lemma PutKeys(items: seq<Item>, key: int, value: int, capacity: nat)
    requires KeysDiffer(items) && |items| <= capacity && capacity > 0
    ensures KeysDiffer(AfterPut(items, key, value, capacity)) && |AfterPut(items, key, value, capacity)| <= capacity
    ensures Find(items, key) < |items| ==> |AfterPut(items, key, value, capacity)| == |items|
  {
  }

  lemma GetKeys(items: seq<Item>, key: int)
    requires KeysDiffer(items)
    ensures KeysDiffer(AfterGet(items, key)) && |AfterGet(items, key)| == |items|
  {
  }
}
