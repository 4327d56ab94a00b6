/** The circular doubly linked lists of linux-2022/include/list.h:82-146 and 317-321, on
    snapshots of their links. */
module IntrusiveList {
  datatype Kind = DHead | HHead(bucket: nat) | DLink | HLink

  class LruNode {
    var key: int
    var value: int
    const hlink: ListHead
    const dlink: ListHead

    // malloc, with `container_of` of the two links.
    constructor ()
      ensures fresh(hlink) && fresh(dlink) && hlink.kind == HLink && dlink.kind == DLink
      ensures hlink.entry == this && dlink.entry == this
    {
      hlink := new ListHead(HLink);
      dlink := new ListHead(DLink);
      new;
      hlink.entry := this;
      dlink.entry := this;
    }
  }

  /** `struct list_head`; `entry` is the structure it is embedded in, and `kind` which of its
      links it is. */
  class ListHead {
    var next: ListHead?
    var prev: ListHead?
    var entry: LruNode?
    const kind: Kind

    constructor (kind: Kind)
      ensures this.kind == kind && entry == null
    {
      this.kind := kind;
      next, prev, entry := null, null, null;
    }

    ghost function View(): Links
      reads this
    {
      Links(next, prev, entry)
    }
  }

  datatype Links = Links(next: ListHead?, prev: ListHead?, entry: LruNode?)

  type Heap = map<ListHead, Links>

  ghost predicate Reflects(h: Heap, links: set<ListHead>)
    reads links
  {
    h.Keys == links && forall m {:trigger m in links} {:trigger h[m]} :: m in links ==> h[m] == m.View()
  }

  // ---------- rings ----------

  function Succ(i: int, n: int): int { if i + 1 == n then 0 else i + 1 }
  function Pred(i: int, n: int): int { if i == 0 then n - 1 else i - 1 }

  ghost predicate Distinct<T>(c: seq<T>) {
    forall i, j :: 0 <= i < j < |c| ==> c[i] != c[j]
  }

  predicate LinkedAt(h: Heap, c: seq<ListHead>, i: int)
    requires 0 <= i < |c|
  {
    c[i] in h && h[c[i]].next == c[Succ(i, |c|)] && h[c[i]].prev == c[Pred(i, |c|)]
  }

  /** Following `next` from c[0] visits c in order and comes back, and `prev` is its inverse. */
  ghost predicate Ring(h: Heap, c: seq<ListHead>) {
    |c| > 0 && Distinct(c) && forall i {:trigger LinkedAt(h, c, i)} :: 0 <= i < |c| ==> LinkedAt(h, c, i)
  }

  function SetNext(h: Heap, m: ListHead, next: ListHead): Heap
    requires m in h
  {
    h[m := h[m].(next := next)]
  }

  function SetPrev(h: Heap, m: ListHead, prev: ListHead): Heap
    requires m in h
  {
    h[m := h[m].(prev := prev)]
  }

  /** list_add. */
  function ListAdd(h: Heap, node: ListHead, head: ListHead): Heap
    requires node in h && head in h && h[head].next in h
  {
    var next: ListHead := h[head].next;
    SetNext(SetPrev(SetNext(SetPrev(h, next, node), node, next), node, head), head, node)
  }

  /** list_del. */
  function ListDel(h: Heap, node: ListHead): Heap
    requires node in h && h[node].next in h && h[node].prev in h
  {
    var next: ListHead, prev: ListHead := h[node].next, h[node].prev;
    SetNext(SetPrev(h, next, prev), prev, next)
  }

  // `h'` differs from `h` in next and prev of the links in `s`, and keeps every entry.
  ghost predicate ChangesOnly(h: Heap, h': Heap, s: seq<ListHead>) {
    && h'.Keys == h.Keys
    && forall m {:trigger h'[m]} :: m in h ==> h'[m].entry == h[m].entry && (m !in s ==> h'[m] == h[m])
  }

  function Added(c: seq<ListHead>, node: ListHead): seq<ListHead>
    requires |c| > 0
  {
    [c[0], node] + c[1..]
  }

  lemma AddLinks(h: Heap, c: seq<ListHead>, node: ListHead, i: int)
    requires Ring(h, c) && node in h && node !in c && 0 <= i <= |c|
    ensures c[0] in h && h[c[0]].next in h && LinkedAt(ListAdd(h, node, c[0]), Added(c, node), i)
  {
    assert LinkedAt(h, c, 0) && LinkedAt(h, c, Succ(0, |c|));
    if i > 1 { assert LinkedAt(h, c, i - 1); }
  }

  /** list_add puts `node` right behind the head of a ring that does not hold it. */
  lemma AddRing(h: Heap, c: seq<ListHead>, node: ListHead)
    requires Ring(h, c) && node in h && node !in c
    ensures c[0] in h && h[c[0]].next in h
    ensures Ring(ListAdd(h, node, c[0]), Added(c, node)) && ChangesOnly(h, ListAdd(h, node, c[0]), Added(c, node))
  {
    assert LinkedAt(h, c, 0) && LinkedAt(h, c, Succ(0, |c|));
    var h', c' := ListAdd(h, node, c[0]), Added(c, node);
    forall i | 0 <= i < |c'| ensures LinkedAt(h', c', i) { AddLinks(h, c, node, i); }
    assert c[0] in c' && node in c' && c[Succ(0, |c|)] in c' by { assert c'[0] == c[0] && c'[1] == node; }
  }

  function Without<T>(c: seq<T>, k: int): seq<T>
    requires 0 <= k < |c|
  {
    c[..k] + c[k + 1..]
  }

  lemma DelLinks(h: Heap, c: seq<ListHead>, k: int, i: int)
    requires Ring(h, c) && 0 < k < |c| && 0 <= i < |c| - 1
    ensures c[k] in h && h[c[k]].next in h && h[c[k]].prev in h && LinkedAt(ListDel(h, c[k]), Without(c, k), i)
  {
    assert LinkedAt(h, c, k) && LinkedAt(h, c, Succ(k, |c|)) && LinkedAt(h, c, Pred(k, |c|));
    var c', at := Without(c, k), if i < k then i else i + 1;
    assert LinkedAt(h, c, at) && c'[i] == c[at];
    var s, p := Succ(i, |c'|), Pred(i, |c'|);
    assert c'[s] == c[if s < k then s else s + 1] && c'[p] == c[if p < k then p else p + 1];
  }

  /** list_del takes a link out of a ring. */
  lemma DelRing(h: Heap, c: seq<ListHead>, k: int)
    requires Ring(h, c) && 0 < k < |c|
    ensures c[k] in h && h[c[k]].next in h && h[c[k]].prev in h
    ensures Ring(ListDel(h, c[k]), Without(c, k)) && ChangesOnly(h, ListDel(h, c[k]), c) && c[k] !in Without(c, k)
  {
    assert LinkedAt(h, c, k) && LinkedAt(h, c, Succ(k, |c|)) && LinkedAt(h, c, Pred(k, |c|));
    var h', c' := ListDel(h, c[k]), Without(c, k);
    forall i | 0 <= i < |c'| ensures LinkedAt(h', c', i) { DelLinks(h, c, k, i); }
    assert c[Succ(k, |c|)] in c && c[Pred(k, |c|)] in c;
  }

  // A ring whose links did not change is still one.
  lemma RingKept(h: Heap, h': Heap, s: seq<ListHead>, c: seq<ListHead>)
    requires Ring(h, c) && ChangesOnly(h, h', s) && forall m :: m in c ==> m !in s
    ensures Ring(h', c)
  {
    forall i | 0 <= i < |c| ensures LinkedAt(h', c, i) { assert LinkedAt(h, c, i) && c[i] in c; }
  }

  /** Adding and then deleting the same link gives the ring back. */
  lemma AddDel(h: Heap, c: seq<ListHead>, node: ListHead)
    requires Ring(h, c) && node in h && node !in c
    ensures c[0] in h && h[c[0]].next in h
    ensures var h1 := ListAdd(h, node, c[0]);
      && node in h1 && h1[node].next in h1 && h1[node].prev in h1 && Ring(ListDel(h1, node), c)
      && forall m :: m in c ==> m in h && ListDel(h1, node)[m] == h[m]
  {
    AddRing(h, c, node);
    var h1, c1 := ListAdd(h, node, c[0]), Added(c, node);
    DelRing(h1, c1, 1);
    assert Without(c1, 1) == c;
    forall m | m in c ensures m in h && ListDel(h1, node)[m] == h[m] {
      var i :| 0 <= i < |c| && c[i] == m;
      assert LinkedAt(h, c, i) && LinkedAt(ListDel(h1, node), c, i);
    }
  }

  // ---------- the methods ----------

  method Add(node: ListHead, head: ListHead, ghost links: set<ListHead>, ghost h: Heap)
    requires Reflects(h, links) && node in h && head in h && h[head].next in h
    modifies links
    ensures Reflects(ListAdd(h, node, head), links)
  {
    var next: ListHead := head.next;
    SetPrevOf(next, node, links, h);
    ghost var h1 := SetPrev(h, next, node);
    SetNextOf(node, next, links, h1);
    ghost var h2 := SetNext(h1, node, next);
    SetPrevOf(node, head, links, h2);
    SetNextOf(head, node, links, SetPrev(h2, node, head));
  }

  method Del(node: ListHead, ghost links: set<ListHead>, ghost h: Heap)
    requires Reflects(h, links) && node in h && h[node].next in h && h[node].prev in h
    modifies links
    ensures Reflects(ListDel(h, node), links)
  {
    var next: ListHead := node.next;
    var prev: ListHead := node.prev;
    SetPrevOf(next, prev, links, h);
    SetNextOf(prev, next, links, SetPrev(h, next, prev));
  }

  method SetNextOf(m: ListHead, next: ListHead, ghost links: set<ListHead>, ghost h: Heap)
    requires Reflects(h, links) && m in h
    modifies links
    ensures Reflects(SetNext(h, m, next), links)
  {
    m.next := next;
  }

  method SetPrevOf(m: ListHead, prev: ListHead, ghost links: set<ListHead>, ghost h: Heap)
    requires Reflects(h, links) && m in h
    modifies links
    ensures Reflects(SetPrev(h, m, prev), links)
  {
    m.prev := prev;
  }
}
