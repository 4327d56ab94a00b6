/** How insertion and removal change the shape of an S-Tree,
    linux-2023-summer/quiz1/problem1.c:165-296. */
module STreeEdit {
  import opened STreeShape

  datatype Dir = LEFT | RIGHT

  function InsertAt<T>(s: seq<T>, at: int, x: T): seq<T>
    requires 0 <= at <= |s|
  {
    s[..at] + [x] + s[at..]
  }

  function RemoveAt<T>(s: seq<T>, at: int): seq<T>
    requires 0 <= at < |s|
  {
    s[..at] + s[at + 1..]
  }

  // Spans and positions beyond the given ones move by `d`.
  function Moved(x: int, d: int, beyond: int): int {
    if x > beyond then x + d else x
  }

  function Shift(k: Links, d: int, a: int, b: int, c: int): Links {
    k.(lo := Moved(k.lo, d, a), pos := Moved(k.pos, d, b), hi := Moved(k.hi, d, c))
  }

  function Shifted(h: Heap, d: int, a: int, b: int, c: int): Heap {
    map m | m in h :: Shift(h[m], d, a, b, c)
  }

  // ---------- st_insert, problem1.c:170-182 ----------

  predicate FreeSlot(h: Heap, p: Node, d: Dir) {
    p in h && if d.LEFT? then h[p].left == null else h[p].right == null
  }

  /** Where a node hung under `p` comes in the sequence: right before or right after it. */
  function Place(h: Heap, p: Node, d: Dir): int
    requires p in h
  {
    if d.LEFT? then h[p].pos else h[p].pos + 1
  }

  function Hung(h: Heap, p: Node, n: Node, d: Dir): Heap
    requires p in h && n in h
  {
    h[p := if d.LEFT? then h[p].(left := n) else h[p].(right := n)]
  }

  // Positions and spans with room for `n`, and `n` in it.
  function Roomed(h: Heap, p: Node, n: Node, value: int, d: Dir): Heap
    requires p in h
  {
    Joined(Shifted(h, 1, h[p].pos, Place(h, p, d) - 1, h[p].pos), p, n, value, Place(h, p, d))
  }

  function Joined(h: Heap, p: Node, n: Node, value: int, at: int): Heap {
    h[n := Links(0, p, null, null, value, at, at, at + 1)]
  }

  function Inserted(h: Heap, p: Node, n: Node, value: int, d: Dir): Heap
    requires p in h
  {
    Hung(Roomed(h, p, n, value, d), p, n, d)
  }

  predicate InsertedNode(h: Heap, h': Heap, p: Node, n: Node, d: Dir, m: Node)
    requires m in h && p in h
  {
    m in h' && h'[m] == (
      var k := Shift(h[m], 1, h[p].pos, Place(h, p, d) - 1, h[p].pos);
      if m != p then k else if d.LEFT? then k.(left := n) else k.(right := n))
  }

  lemma InsertedLocal(h: Heap, h': Heap, all: seq<Node>, root: Node?, p: Node, n: Node, d: Dir, m: Node)
    requires Shape(h, all, root) && FreeSlot(h, p, d) && n !in h && m in h && n in h'
    requires h'[n].parent == p && h'[n].lo == h'[n].pos == Place(h, p, d) && h'[n].hi == Place(h, p, d) + 1
    requires forall k {:trigger InsertedNode(h, h', p, n, d, k)} :: k in h ==> InsertedNode(h, h', p, n, d, k)
    requires 0 <= Place(h, p, d) <= |all|
    ensures m in h' && Local(h', InsertAt(all, Place(h, p, d), n), root, m)
  {
    assert Local(h, all, root, m) && Local(h, all, root, p);
    assert InsertedNode(h, h', p, n, d, m) && InsertedNode(h, h', p, n, d, p);
    if h[m].left != null { assert InsertedNode(h, h', p, n, d, h[m].left); }
    if h[m].right != null { assert InsertedNode(h, h', p, n, d, h[m].right); }
    if h[m].parent != null { assert InsertedNode(h, h', p, n, d, h[m].parent); }
  }

  lemma InsertedPositions(h: Heap, h': Heap, all: seq<Node>, root: Node?, p: Node, n: Node, d: Dir)
    requires Shape(h, all, root) && FreeSlot(h, p, d) && n !in h && n in h' && h'[n].pos == Place(h, p, d)
    requires forall k {:trigger InsertedNode(h, h', p, n, d, k)} :: k in h ==> InsertedNode(h, h', p, n, d, k)
    ensures 0 <= Place(h, p, d) <= |all|
    ensures var all' := InsertAt(all, Place(h, p, d), n);
      forall i :: 0 <= i < |all'| ==> all'[i] in h' && h'[all'[i]].pos == i
    ensures root != null && root in h' && h'[root].lo == 0 && h'[root].hi == |all| + 1
  {
    assert Local(h, all, root, p);
    assert InsertedNode(h, h', p, n, d, root);
    var all' := InsertAt(all, Place(h, p, d), n);
    forall i | 0 <= i < |all'| ensures all'[i] in h' && h'[all'[i]].pos == i {
      if all'[i] != n { assert InsertedNode(h, h', p, n, d, all'[i]); }
    }
  }

  lemma InsertedNodes(h: Heap, p: Node, n: Node, value: int, d: Dir, m: Node)
    requires p in h && n !in h && m in h
    ensures InsertedNode(h, Inserted(h, p, n, value, d), p, n, d, m)
  {
  }

  lemma InsertedHint(h: Heap, h': Heap, all: seq<Node>, root: Node?, removed: nat, p: Node, n: Node, d: Dir, m: Node)
    requires Shape(h, all, root) && Hints(h, removed) && p in h && m in h && InsertedNode(h, h', p, n, d, m)
    ensures HintOf(h', removed, m)
  {
    assert HintOf(h, removed, m) && Local(h, all, root, m);
  }

  lemma InsertedOwn(h: Heap, h': Heap, all: seq<Node>, root: Node?, p: Node, n: Node, value: int, d: Dir)
    requires Shape(h, all, root) && FreeSlot(h, p, d) && n !in h && n in h'
    requires h'[n] == Links(0, p, null, null, value, Place(h, p, d), Place(h, p, d), Place(h, p, d) + 1)
    requires InsertedNode(h, h', p, n, d, p) && root != null && root in h && 0 <= Place(h, p, d) <= |all|
    ensures Local(h', InsertAt(all, Place(h, p, d), n), root, n)
  {
  }

  /** Hanging a new node into a free slot of `p` puts it next to `p` in the in-order sequence,
      and keeps everything else. */
  lemma InsertedShape(h: Heap, all: seq<Node>, root: Node?, removed: nat, p: Node, n: Node, value: int, d: Dir)
    requires Shape(h, all, root) && Hints(h, removed) && FreeSlot(h, p, d) && n !in h
    ensures 0 <= Place(h, p, d) <= |all|
    ensures var h' := Inserted(h, p, n, value, d);
      && Shape(h', InsertAt(all, Place(h, p, d), n), root) && Hints(h', removed) && h'.Keys == h.Keys + {n}
      && h'[n].value == value && forall m :: m in h ==> h'[m].value == h[m].value
  {
    var h' := Inserted(h, p, n, value, d);
    forall m | m in h ensures InsertedNode(h, h', p, n, d, m) { InsertedNodes(h, p, n, value, d, m); }
    InsertedPositions(h, h', all, root, p, n, d);
    InsertedOwn(h, h', all, root, p, n, value, d);
    forall m | m in h
      ensures m in h' && Local(h', InsertAt(all, Place(h, p, d), n), root, m) && HintOf(h', removed, m)
        && h'[m].value == h[m].value
    {
      InsertedLocal(h, h', all, root, p, n, d, m);
      InsertedHint(h, h', all, root, removed, p, n, d, m);
    }
    assert h'.Keys == h.Keys + {n};
  }
}
