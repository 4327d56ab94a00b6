/** The heap of the non-blocking list, linux-2022/quiz11/problem2/nblist.c, and the five
    atomic writes that its operations make.

    Locations are numbered: 0 is the list head `list->n` and a node gets the next number
    when a push publishes it, so smaller numbers are older nodes.  A `next` field holding
    `to == 0` is NULL, because nothing ever points at the head. */
module ListHeap {
  // A `next` field: target, F_MARK ("dead") and F_FLAG ("next is about to die").
  datatype Link = Link(to: nat, mark: bool, flag: bool)
  datatype Ref = NoRef | At(loc: nat)
  // Who set the flag on a node's predecessor: that predecessor and the thread.
  datatype Claim = Claim(pred: nat, tid: nat)

  /** `claims` is history: it records for each node the one successful flagging CAS. */
  datatype Heap = Heap(links: seq<Link>, backs: seq<Ref>, claims: map<nat, Claim>)

  function Clean(to: nat): Link { Link(to, false, false) }
  function Flagged(to: nat): Link { Link(to, false, true) }

  const EMPTY: Heap := Heap([Clean(0)], [NoRef], map[])

  // ---------- the atomic writes ----------

  // A successful CAS of nblist_push: the new node points where the head did.
  function Push(h: Heap): Heap
    requires |h.links| > 0
  {
    Heap(h.links[0 := Clean(|h.links|)] + [h.links[0]], h.backs + [NoRef], h.claims)
  }

  // A successful CAS setting F_FLAG at `p`.
  function SetFlag(h: Heap, p: nat, tid: nat): Heap
    requires p < |h.links|
  {
    Heap(h.links[p := Flagged(h.links[p].to)], h.backs, h.claims[h.links[p].to := Claim(p, tid)])
  }

  // The exchange of clear_flag.
  function SetBack(h: Heap, n: nat, prev: nat): Heap
    requires n < |h.backs|
  {
    h.(backs := h.backs[n := At(prev)])
  }

  // A successful CAS setting F_MARK at `n`.
  function SetMark(h: Heap, n: nat): Heap
    requires n < |h.links|
  {
    h.(links := h.links[n := h.links[n].(mark := true)])
  }

  // The CAS of rend_the_marked, taken when `prev` still points at `n` with the flag.
  function Unlink(h: Heap, prev: nat, n: nat, to: nat): Heap
    requires prev < |h.links|
  {
    if h.links[prev] == Flagged(n) then h.(links := h.links[prev := Clean(to)]) else h
  }

  // ---------- the heap invariant ----------

  predicate Live(h: Heap, p: nat) {
    p < |h.links| && !h.links[p].mark
  }

  // `i` lies strictly between `p` and the node `p` points at; the head is newer than all.
  predicate Between(h: Heap, p: nat, i: nat)
    requires p < |h.links|
  {
    h.links[p].to < i < |h.links| && (p == 0 || i < p)
  }

  /** `n` is dead and no live location points at it. */
  predicate Cut(h: Heap, n: nat) {
    && n < |h.links| && h.links[n].mark
    && forall p :: 0 <= p < |h.links| && !h.links[p].mark ==> h.links[p].to != n
  }

  predicate Shaped(h: Heap) {
    && |h.backs| == |h.links| > 0
    && !h.links[0].mark
    && (forall p :: 0 <= p < |h.links| ==>
         && h.links[p].to < |h.links|
         && (p > 0 ==> h.links[p].to < p)
         && !(h.links[p].mark && h.links[p].flag))
  }

  /** Every node that a link jumps over is dead. */
  ghost predicate SkipsDead(h: Heap) {
    forall p: nat, i: nat :: p < |h.links| && Between(h, p, i) ==> h.links[i].mark
  }

  predicate Claimed(h: Heap, n: nat) {
    && n in h.claims && 0 < n < |h.links|
    && var p := h.claims[n].pred;
    && p < |h.links| && (p == 0 || p > n)
    && (h.links[p] == Flagged(n) || Cut(h, n))
  }

  ghost predicate FlagsClaimed(h: Heap) {
    && (forall n :: n in h.claims ==> Claimed(h, n))
    && (forall p :: 0 <= p < |h.links| && h.links[p].flag ==>
         h.links[p].to in h.claims && h.claims[h.links[p].to].pred == p)
  }

  /** A backlink is the flagged predecessor, and a dead node has one. */
  predicate Backed(h: Heap)
    requires |h.backs| == |h.links|
  {
    && (forall n :: 0 <= n < |h.links| && h.backs[n].At? ==> n in h.claims && h.claims[n].pred == h.backs[n].loc)
    && (forall n :: 0 <= n < |h.links| && h.links[n].mark ==> h.backs[n].At?)
  }

  // While a dead node is still linked, the node after it is alive.
  predicate OneAtATime(h: Heap) {
    forall p :: 0 <= p < |h.links| && h.links[p].flag ==> DeadThenLive(h, h.links[p].to)
  }

  predicate DeadThenLive(h: Heap, m: nat) {
    m < |h.links| && h.links[m].mark ==> h.links[m].to == 0 || Live(h, h.links[m].to)
  }

  ghost predicate HeapInv(h: Heap) {
    Shaped(h) && SkipsDead(h) && FlagsClaimed(h) && Backed(h) && OneAtATime(h)
  }

  // ---------- consequences ----------

  lemma NoLiveBetween(h: Heap, p: nat, i: nat)
    requires SkipsDead(h) && p < |h.links|
    ensures Between(h, p, i) ==> !Live(h, i)
  {
  }

  /** A published node has at most one live predecessor. */
  lemma OneLivePredecessor(h: Heap, p: nat, q: nat)
    requires Shaped(h) && SkipsDead(h) && Live(h, p) && Live(h, q)
    requires h.links[p].to == h.links[q].to != 0
    ensures p == q
  {
    NoLiveBetween(h, p, q);
    NoLiveBetween(h, q, p);
  }

  // The same when the two paths to a node have different lengths: p -> m -> n and q -> n.
  lemma OneLivePredecessorBehind(h: Heap, p: nat, m: nat, q: nat)
    requires Shaped(h) && SkipsDead(h) && Live(h, p) && Live(h, q)
    requires h.links[p].to == m != 0 && h.links[m].to == h.links[q].to != 0
    ensures q == m
  {
    NoLiveBetween(h, p, q);
    NoLiveBetween(h, q, p);
    NoLiveBetween(h, m, q);
  }

  /** A live node can be flagged at most once: its predecessor's link is not yet claimed. */
  lemma NotYetClaimed(h: Heap, p: nat)
    requires HeapInv(h) && Live(h, p) && !h.links[p].flag && h.links[p].to != 0
    ensures h.links[p].to !in h.claims
  {
    var n := h.links[p].to;
    if n in h.claims {
      assert Claimed(h, n);
      if h.links[h.claims[n].pred] == Flagged(n) { OneLivePredecessor(h, p, h.claims[n].pred); }
    }
  }

  // ---------- what never changes back ----------

  /** History only grows: dead links and backlinks are frozen, claims and cuts are final. */
  ghost predicate Later(h: Heap, h': Heap) {
    && |h.links| <= |h'.links| && |h.backs| == |h.links| && |h'.backs| == |h'.links|
    && (forall n :: 0 <= n < |h.links| && h.links[n].mark ==> h'.links[n] == h.links[n])
    && (forall n :: 0 <= n < |h.backs| && h.backs[n].At? ==> h'.backs[n] == h.backs[n])
    && (forall n :: n in h.claims ==> n in h'.claims && h'.claims[n] == h.claims[n])
    && (forall n :: Cut(h, n) ==> Cut(h', n))
  }

  // ---------- each write keeps the invariant ----------

  lemma PushKeeps(h: Heap)
    requires HeapInv(h) && !h.links[0].flag
    ensures HeapInv(Push(h)) && Later(h, Push(h))
  {
    var h' := Push(h);
    var N := |h.links|;
    assert forall p :: 0 < p < N ==> h'.links[p] == h.links[p];
    assert h'.links[N] == h.links[0];
    forall p: nat, i: nat | p < |h'.links| && Between(h', p, i) ensures h'.links[i].mark {
      assert Between(h, if p == N then 0 else p, i);
    }
    forall n | Cut(h, n) ensures Cut(h', n) {}
    forall n | n in h'.claims ensures Claimed(h', n) { assert Claimed(h, n); }
  }

  lemma FlagClaims(h: Heap, p: nat, tid: nat, n: nat)
    requires HeapInv(h) && Live(h, p) && !h.links[p].flag && h.links[p].to != 0
    requires n in SetFlag(h, p, tid).claims && h.links[p].to !in h.claims && Live(h, h.links[p].to)
    ensures Claimed(SetFlag(h, p, tid), n)
  {
    if n != h.links[p].to { assert Claimed(h, n); assert Cut(h, n) ==> Cut(SetFlag(h, p, tid), n); }
  }

  lemma FlagKeeps(h: Heap, p: nat, tid: nat)
    requires HeapInv(h) && Live(h, p) && !h.links[p].flag && h.links[p].to != 0
    ensures HeapInv(SetFlag(h, p, tid)) && Later(h, SetFlag(h, p, tid))
  {
    var h' := SetFlag(h, p, tid);
    NotYetClaimed(h, p);
    assert forall q :: 0 <= q < |h.links| ==> h'.links[q].to == h.links[q].to && h'.links[q].mark == h.links[q].mark;
    forall q: nat, i: nat | q < |h'.links| && Between(h', q, i) ensures h'.links[i].mark { assert Between(h, q, i); }
    forall n | Cut(h, n) ensures Cut(h', n) {}
    assert Live(h, h.links[p].to);
    forall n | n in h'.claims ensures Claimed(h', n) { FlagClaims(h, p, tid, n); }
  }

  lemma BackKeeps(h: Heap, n: nat, prev: nat)
    requires HeapInv(h) && n in h.claims && h.claims[n].pred == prev
    ensures n < |h.links| && HeapInv(SetBack(h, n, prev)) && Later(h, SetBack(h, n, prev))
    ensures h.backs[n] == NoRef || h.backs[n] == At(prev)
  {
    assert Claimed(h, n);
    var h' := SetBack(h, n, prev);
    forall q: nat, i: nat | q < |h'.links| && Between(h', q, i) ensures h'.links[i].mark { assert Between(h, q, i); }
    forall m | m in h'.claims ensures Claimed(h', m) { assert Claimed(h, m); assert Cut(h, m) ==> Cut(h', m); }
    forall m | Cut(h, m) ensures Cut(h', m) {}
  }

  lemma MarkKeeps(h: Heap, n: nat)
    requires HeapInv(h) && n in h.claims && n < |h.links| && !h.links[n].flag && h.backs[n].At?
    ensures HeapInv(SetMark(h, n)) && Later(h, SetMark(h, n))
  {
    var h' := SetMark(h, n);
    assert Claimed(h, n);
    forall q: nat, i: nat | q < |h'.links| && Between(h', q, i) ensures h'.links[i].mark { assert Between(h, q, i); }
    forall m | Cut(h, m) ensures Cut(h', m) {}
    forall m | m in h'.claims ensures Claimed(h', m) { assert Claimed(h, m); }
    forall p | 0 <= p < |h'.links| && h'.links[p].flag ensures DeadThenLive(h', h'.links[p].to) {
      MarkLeavesOne(h, n, p);
    }
  }

  // Marking `n` makes neither end of a dead-then-live pair wrong.
  lemma MarkLeavesOne(h: Heap, n: nat, p: nat)
    requires HeapInv(h) && Claimed(h, n) && !h.links[n].flag && p < |h.links| && h.links[p].flag
    ensures DeadThenLive(SetMark(h, n), h.links[p].to)
  {
    var m := h.links[p].to;
    assert DeadThenLive(h, m);
    assert Claimed(h, m);
    if !h.links[n].mark {
      var q := h.claims[n].pred;
      if m == n {
        var k := h.links[n].to;
        if k != 0 && h.links[k].mark {
          assert Claimed(h, k);
          if h.links[h.claims[k].pred] == Flagged(k) { OneLivePredecessor(h, n, h.claims[k].pred); }
        }
      } else if h.links[m].mark && h.links[m].to == n {
        OneLivePredecessorBehind(h, p, m, q);
      }
    }
  }

  lemma UnlinkSkips(h: Heap, prev: nat, n: nat)
    requires HeapInv(h) && prev < |h.links| && n < |h.links| && h.links[prev] == Flagged(n) && h.links[n].mark
    ensures SkipsDead(Unlink(h, prev, n, h.links[n].to))
  {
    var h' := Unlink(h, prev, n, h.links[n].to);
    forall q: nat, i: nat | q < |h'.links| && Between(h', q, i) ensures h'.links[i].mark {
      if q == prev { assert Between(h, prev, i) || Between(h, n, i) || i == n; } else { assert Between(h, q, i); }
    }
  }

  lemma UnlinkCuts(h: Heap, prev: nat, n: nat)
    requires HeapInv(h) && prev < |h.links| && 0 < n < |h.links| && h.links[prev] == Flagged(n) && h.links[n].mark
    ensures Cut(Unlink(h, prev, n, h.links[n].to), n)
    ensures forall m :: Cut(h, m) ==> Cut(Unlink(h, prev, n, h.links[n].to), m)
  {
    var h' := Unlink(h, prev, n, h.links[n].to);
    assert DeadThenLive(h, n);
    forall p | 0 <= p < |h'.links| && !h'.links[p].mark ensures h'.links[p].to != n {
      if p != prev && h.links[p].to == n { OneLivePredecessor(h, p, prev); }
    }
    forall m | Cut(h, m) ensures Cut(h', m) {}
  }

  lemma UnlinkKeeps(h: Heap, prev: nat, n: nat)
    requires HeapInv(h) && n in h.claims && h.claims[n].pred == prev && n < |h.links| && h.links[n].mark
    ensures prev < |h.links| && HeapInv(Unlink(h, prev, n, h.links[n].to))
      && Later(h, Unlink(h, prev, n, h.links[n].to))
    ensures Cut(Unlink(h, prev, n, h.links[n].to), n)
  {
    assert Claimed(h, n);
    if h.links[prev] == Flagged(n) {
      var h' := Unlink(h, prev, n, h.links[n].to);
      assert DeadThenLive(h, n);
      UnlinkSkips(h, prev, n);
      UnlinkCuts(h, prev, n);
      forall m | m in h'.claims ensures Claimed(h', m) { assert Claimed(h, m); }
    }
  }
}
