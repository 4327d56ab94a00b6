/** What the hints of an S-Tree mean, linux-2023-summer/quiz1/problem1.c:124-182. */
module STreeHints {
  import opened STreeShape
  import opened STreeEdit

  // The hint of `m` is one more than the greatest hint of its children.
  predicate ExactAt(h: Heap, m: Node) {
    Family(h, m) && h[m].hint == MaxHint(h, m)
  }

  ghost predicate ExactBut(h: Heap, q: Node?) {
    forall m {:trigger ExactAt(h, m)} :: m in h && m != q ==> ExactAt(h, m)
  }

  /** The height of the subtree of `n`, counting links. */
  ghost function Height(h: Heap, all: seq<Node>, root: Node?, n: Node): int
    requires Shape(h, all, root) && n in h
    decreases h[n].hi - h[n].lo
  {
    Descend(h, all, root, n);
    var l := if h[n].left == null then 0 else Height(h, all, root, h[n].left) + 1;
    var r := if h[n].right == null then 0 else Height(h, all, root, h[n].right) + 1;
    if l > r then l else r
  }

  lemma {:induction false} HintIsHeight(h: Heap, all: seq<Node>, root: Node?, n: Node)
    requires Shape(h, all, root) && ExactBut(h, null) && n in h
    ensures h[n].hint == Height(h, all, root, n)
    decreases h[n].hi - h[n].lo
  {
    Descend(h, all, root, n);
    assert ExactAt(h, n);
    if h[n].left != null { HintIsHeight(h, all, root, h[n].left); }
    if h[n].right != null { HintIsHeight(h, all, root, h[n].right); }
  }

  /** Every hint agrees with the hints of the node's children exactly when every hint is the
      height of its subtree. */
  lemma ExactMeansHeights(h: Heap, all: seq<Node>, root: Node?)
    requires Shape(h, all, root)
    ensures ExactBut(h, null) <==> forall n :: n in h ==> h[n].hint == Height(h, all, root, n)
  {
    if ExactBut(h, null) {
      forall n | n in h ensures h[n].hint == Height(h, all, root, n) { HintIsHeight(h, all, root, n); }
    }
    if forall n :: n in h ==> h[n].hint == Height(h, all, root, n) {
      forall m | m in h ensures ExactAt(h, m) {
        HasFamily(h, all, root, m);
        Descend(h, all, root, m);
      }
    }
  }

  /** A climb that meets no node leaning beyond one. */
  ghost predicate Steady(h: Heap, all: seq<Node>, root: Node?, removed: nat, n: Node?)
    requires Shape(h, all, root) && Hints(h, removed) && Known(h, n)
    decreases Above(h, all, n)
  {
    n == null ||
    (AdjustedShape(h, all, root, removed, n);
     UpdatedParent(h, all, root, removed, n);
     var t := Adjusted(h, root, n);
     && -1 <= Balance(h, n) <= 1
     && (t.h[n].hint == 0 || t.h[n].hint != h[n].hint ==> Steady(t.h, all, t.root, removed, h[n].parent)))
  }

  // Recomputing the hint of `n` leaves at most its parent's hint wrong.
  lemma RecomputedAt(h: Heap, all: seq<Node>, root: Node?, n: Node, m: Node)
    requires Shape(h, all, root) && n in h && m in h && Family(h, n) && (m != n ==> ExactAt(h, m))
    requires m != h[n].parent || MaxHint(h, n) == h[n].hint
    ensures ExactAt(Hinted(h, n, MaxHint(h, n)), m)
  {
    assert Local(h, all, root, m) && Local(h, all, root, n);
    HasFamily(h, all, root, m);
    Descend(h, all, root, m);
    Descend(h, all, root, n);
  }

  /** st_update repairs the one hint that may be wrong, at the node it starts from, and those
      that become wrong on the way: a climb that meets no leaning node leaves all hints exact. */
  lemma {:induction false} ClimbRepairs(h: Heap, all: seq<Node>, root: Node?, removed: nat, n: Node?)
    requires Shape(h, all, root) && Hints(h, removed) && Known(h, n)
    requires ExactBut(h, n) && Steady(h, all, root, removed, n)
    ensures ExactBut(Updated(h, all, root, removed, n).h, null)
    decreases Above(h, all, n)
  {
    if n != null {
      AdjustedShape(h, all, root, removed, n);
      UpdatedParent(h, all, root, removed, n);
      var t, p := Adjusted(h, root, n), h[n].parent;
      assert t == Tree(Hinted(h, n, MaxHint(h, n)), root);
      var climbs := t.h[n].hint == 0 || t.h[n].hint != h[n].hint;
      forall m | m in t.h && m != (if climbs then p else null) ensures ExactAt(t.h, m) {
        assert m != n ==> ExactAt(h, m);
        RecomputedAt(h, all, root, n, m);
      }
      if climbs { ClimbRepairs(t.h, all, t.root, removed, p); }
    }
  }

  // A new leaf has an exact hint, and may make its parent's wrong.
  lemma LeafHung(h: Heap, all: seq<Node>, root: Node?, removed: nat, p: Node, n: Node, value: int, d: Dir)
    requires Shape(h, all, root) && Hints(h, removed) && ExactBut(h, null) && FreeSlot(h, p, d) && n !in h
    ensures ExactBut(Inserted(h, p, n, value, d), p) && n in Inserted(h, p, n, value, d)
  {
    var h' := Inserted(h, p, n, value, d);
    forall m | m in h' && m != p ensures ExactAt(h', m) {
      if m in h {
        assert ExactAt(h, m);
        HasFamily(h, all, root, m);
        Descend(h, all, root, m);
      }
    }
  }

  /** The nodes and `*root` after st_insert. */
  ghost function AfterInsert(h: Heap, all: seq<Node>, root: Node?, removed: nat, p: Node, n: Node, value: int,
        d: Dir): (t: Tree)
    requires Shape(h, all, root) && Hints(h, removed) && FreeSlot(h, p, d) && n !in h
    ensures 0 <= Place(h, p, d) <= |all| && Shape(t.h, InsertAt(all, Place(h, p, d), n), t.root)
  {
    InsertedShape(h, all, root, removed, p, n, value, d);
    Updated(Inserted(h, p, n, value, d), InsertAt(all, Place(h, p, d), n), root, removed, n)
  }

  ghost predicate SteadyInsert(h: Heap, all: seq<Node>, root: Node?, removed: nat, p: Node, n: Node, value: int, d: Dir)
    requires Shape(h, all, root) && Hints(h, removed) && FreeSlot(h, p, d) && n !in h
  {
    InsertedShape(h, all, root, removed, p, n, value, d);
    Steady(Inserted(h, p, n, value, d), InsertAt(all, Place(h, p, d), n), root, removed, n)
  }

  /** If every hint is the height of its subtree, and the climb after an insertion meets no
      node that leans beyond one, every hint is the height of its subtree again. */
  lemma InsertKeepsHeights(h: Heap, all: seq<Node>, root: Node?, removed: nat, p: Node, n: Node, value: int, d: Dir)
    requires Shape(h, all, root) && Hints(h, removed) && FreeSlot(h, p, d) && n !in h
    requires forall m :: m in h ==> h[m].hint == Height(h, all, root, m)
    requires SteadyInsert(h, all, root, removed, p, n, value, d)
    ensures var t := AfterInsert(h, all, root, removed, p, n, value, d);
      forall m :: m in t.h ==> t.h[m].hint == Height(t.h, InsertAt(all, Place(h, p, d), n), t.root, m)
  {
    InsertedShape(h, all, root, removed, p, n, value, d);
    var h', all' := Inserted(h, p, n, value, d), InsertAt(all, Place(h, p, d), n);
    ExactMeansHeights(h, all, root);
    LeafHung(h, all, root, removed, p, n, value, d);
    AdjustedShape(h', all', root, removed, n);
    UpdatedParent(h', all', root, removed, n);
    assert Adjusted(h', root, n) == Tree(h', root);
    ClimbRepairs(h', all', root, removed, p);
    var t := Updated(h', all', root, removed, n);
    ExactMeansHeights(t.h, all', t.root);
  }
}
