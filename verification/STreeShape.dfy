/** The shape of an S-Tree, linux-2023-summer/quiz1/problem1.c, on snapshots of its nodes, and
    what each operation does to it. */
module STreeShape {
  /** `struct treeint` with its `struct st_node`.  The ghost fields place the node in the
      in-order sequence of its tree: it stands at `pos`, its subtree spans `lo` to `hi`. */
  class Node {
    var hint: int
    var parent: Node?
    var left: Node?
    var right: Node?
    var value: int
    ghost var lo: int
    ghost var pos: int
    ghost var hi: int

    ghost function View(): Links
      reads this
    {
      Links(hint, parent, left, right, value, lo, pos, hi)
    }

    // calloc.
    constructor ()
      ensures hint == 0 && parent == null && left == null && right == null && value == 0
    {
      hint, parent, left, right, value := 0, null, null, null, 0;
    }
  }

  datatype Links = Links(hint: int, parent: Node?, left: Node?, right: Node?, value: int, lo: int, pos: int, hi: int)

  type Heap = map<Node, Links>

  ghost predicate Reflects(h: Heap, nodes: set<Node>)
    reads nodes
  {
    h.Keys == nodes && forall m {:trigger m in nodes} {:trigger h[m]} :: m in nodes ==> h[m] == m.View()
  }

  predicate Known(h: Heap, m: Node?) {
    m == null || m in h
  }

  // ---------- what every operation keeps ----------

  predicate LeftOf(h: Heap, m: Node)
    requires m in h
  {
    var k := h[m];
    if k.left == null then k.lo == k.pos
    else k.left in h && h[k.left].parent == m && h[k.left].lo == k.lo && h[k.left].hi == k.pos
  }

  predicate RightOf(h: Heap, m: Node)
    requires m in h
  {
    var k := h[m];
    if k.right == null then k.hi == k.pos + 1
    else k.right in h && h[k.right].parent == m && h[k.right].lo == k.pos + 1 && h[k.right].hi == k.hi
  }

  predicate ParentOf(h: Heap, root: Node?, m: Node)
    requires m in h
  {
    var p := h[m].parent;
    if p == null then m == root
    else m != root && p in h && (h[p].left == m || h[p].right == m)
  }

  predicate Local(h: Heap, all: seq<Node>, root: Node?, m: Node)
    requires m in h
  {
    && 0 <= h[m].lo <= h[m].pos < h[m].hi <= |all| && all[h[m].pos] == m
    && LeftOf(h, m) && RightOf(h, m) && ParentOf(h, root, m)
  }

  /** `all` is the in-order sequence of the tree under `root`: every node agrees with its
      children and its parent, and `root` is the only parentless node. */
  ghost predicate Shape(h: Heap, all: seq<Node>, root: Node?) {
    && (if root == null then all == [] else root in h && h[root].lo == 0 && h[root].hi == |all|)
    && (forall i :: 0 <= i < |all| ==> all[i] in h && h[all[i]].pos == i)
    && (forall m {:trigger Local(h, all, root, m)} :: m in h ==> Local(h, all, root, m))
  }

  /** The in-order walk of the subtree of `n`. */
  ghost function InOrder(h: Heap, all: seq<Node>, root: Node?, n: Node?): seq<Node>
    requires Shape(h, all, root) && Known(h, n)
    decreases if n == null then 0 else h[n].hi - h[n].lo
  {
    if n == null then []
    else
      Descend(h, all, root, n);
      InOrder(h, all, root, h[n].left) + [n] + InOrder(h, all, root, h[n].right)
  }

  lemma Descend(h: Heap, all: seq<Node>, root: Node?, n: Node)
    requires Shape(h, all, root) && n in h
    ensures Known(h, h[n].left) && Known(h, h[n].right) && 0 <= h[n].lo <= h[n].pos < h[n].hi <= |all|
      && all[h[n].pos] == n
    ensures if h[n].left == null then h[n].lo == h[n].pos else h[h[n].left].lo == h[n].lo && h[h[n].left].hi == h[n].pos
    ensures if h[n].right == null then h[n].hi == h[n].pos + 1
      else h[h[n].right].lo == h[n].pos + 1 && h[h[n].right].hi == h[n].hi
  {
    assert Local(h, all, root, n);
  }

  /** A well-shaped tree's in-order walk is the sequence of its nodes. */
  lemma {:induction false} InOrderSpan(h: Heap, all: seq<Node>, root: Node?, n: Node)
    requires Shape(h, all, root) && n in h
    ensures 0 <= h[n].lo <= h[n].hi <= |all| && InOrder(h, all, root, n) == all[h[n].lo..h[n].hi]
    decreases h[n].hi - h[n].lo
  {
    Descend(h, all, root, n);
    var k := h[n];
    if k.left != null { InOrderSpan(h, all, root, k.left); }
    if k.right != null { InOrderSpan(h, all, root, k.right); }
    assert all[k.lo..k.hi] == all[k.lo..k.pos] + [all[k.pos]] + all[k.pos + 1..k.hi];
  }

  lemma InOrderIsAll(h: Heap, all: seq<Node>, root: Node?)
    requires Shape(h, all, root)
    ensures InOrder(h, all, root, root) == all
  {
    if root != null {
      InOrderSpan(h, all, root, root);
      assert all[0..|all|] == all;
    }
  }

  /** Hints are not exact, but never negative, and below the size of the subtree plus the
      number of removals so far. */
  predicate HintOf(h: Heap, removed: nat, m: Node)
    requires m in h
  {
    0 <= h[m].hint < h[m].hi - h[m].lo + removed
  }

  ghost predicate Hints(h: Heap, removed: nat) {
    forall m {:trigger HintOf(h, removed, m)} :: m in h ==> HintOf(h, removed, m)
  }

  // ---------- st_rotate_left, st_rotate_right, problem1.c:75-109 ----------

  // `c` takes the place of `n` under p.
  function Relinked(h: Heap, p: Node?, n: Node, c: Node?): Heap
    requires Known(h, p)
  {
    if p == null then h
    else if h[p].left == n then h[p := h[p].(left := c)]
    else h[p := h[p].(right := c)]
  }

  function Adopted(h: Heap, x: Node?, n: Node?): Heap
    requires Known(h, x)
  {
    if x == null then h else h[x := h[x].(parent := n)]
  }

  // `n` has a left child; it, its parent and the child's right child are different nodes.
  predicate TurnsLeft(h: Heap, n: Node) {
    n in h && h[n].left in h && Known(h, h[n].parent) && Known(h, h[h[n].left].right) &&
    var l, p := h[n].left, h[n].parent; var x := h[l].right;
    l != n && p != n && p != l && x != n && x != l && (x != null ==> x != p)
  }

  predicate TurnsRight(h: Heap, n: Node) {
    n in h && h[n].right in h && Known(h, h[n].parent) && Known(h, h[h[n].right].left) &&
    var r, p := h[n].right, h[n].parent; var x := h[r].left;
    r != n && p != n && p != r && x != n && x != r && (x != null ==> x != p)
  }

  // The first half of a rotation: `n` and its child change places.
  function SwungLeft(h: Heap, n: Node): Heap
    requires TurnsLeft(h, n)
  {
    var l, p := h[n].left, h[n].parent;
    h[n := h[n].(left := h[l].right, parent := l, lo := h[l].pos + 1)]
     [l := h[l].(parent := p, right := n, hi := h[n].hi)]
  }

  function SwungRight(h: Heap, n: Node): Heap
    requires TurnsRight(h, n)
  {
    var r, p := h[n].right, h[n].parent;
    h[n := h[n].(right := h[r].left, parent := r, hi := h[r].pos)]
     [r := h[r].(parent := p, left := n, lo := h[n].lo)]
  }

  function RotatedLeft(h: Heap, n: Node): Heap
    requires TurnsLeft(h, n)
  {
    Adopted(Relinked(SwungLeft(h, n), h[n].parent, n, h[n].left), h[h[n].left].right, n)
  }

  function RotatedRight(h: Heap, n: Node): Heap
    requires TurnsRight(h, n)
  {
    Adopted(Relinked(SwungRight(h, n), h[n].parent, n, h[n].right), h[h[n].right].left, n)
  }

  // The nodes a rotation touches are different ones.
  lemma LeftNodes(h: Heap, all: seq<Node>, root: Node?, n: Node)
    requires Shape(h, all, root) && n in h && h[n].left != null
    ensures TurnsLeft(h, n)
  {
    var l, p := h[n].left, h[n].parent;
    assert Local(h, all, root, n) && Local(h, all, root, l);
    if p != null { assert Local(h, all, root, p); }
    if h[l].right != null { assert Local(h, all, root, h[l].right); }
  }

  lemma RightNodes(h: Heap, all: seq<Node>, root: Node?, n: Node)
    requires Shape(h, all, root) && n in h && h[n].right != null
    ensures TurnsRight(h, n)
  {
    var r, p := h[n].right, h[n].parent;
    assert Local(h, all, root, n) && Local(h, all, root, r);
    if p != null { assert Local(h, all, root, p); }
    if h[r].left != null { assert Local(h, all, root, h[r].left); }
  }

  // A left rotation, node by node.
  predicate TurnedLeft(h: Heap, h': Heap, n: Node, m: Node)
    requires m in h && n in h && h[n].left in h
  {
    var l, p := h[n].left, h[n].parent; var x := h[l].right;
    && m in h' && h'[m].hint == h[m].hint && h'[m].pos == h[m].pos && h'[m].value == h[m].value
    && h'[m].left == (if m == n then x else if m == p && h[m].left == n then l else h[m].left)
    && h'[m].right == (if m == l then n else if m == p && h[m].left != n then l else h[m].right)
    && h'[m].parent == (if m == l then p else if m == n then l else if m == x then n else h[m].parent)
    && h'[m].lo == (if m == n then h[l].pos + 1 else h[m].lo)
    && h'[m].hi == (if m == l then h[n].hi else h[m].hi)
  }

  lemma RotatedLeftAt(h: Heap, n: Node, m: Node)
    requires TurnsLeft(h, n) && m in h
    ensures TurnedLeft(h, RotatedLeft(h, n), n, m)
  {
  }

  lemma TurnedLeftLocal(h: Heap, h': Heap, all: seq<Node>, root: Node?, n: Node, m: Node)
    requires Shape(h, all, root) && n in h && h[n].left in h && m in h
    requires forall k {:trigger TurnedLeft(h, h', n, k)} :: k in h ==> TurnedLeft(h, h', n, k)
    ensures m in h' && Local(h', all, if root == n then h[n].left else root, m)
  {
    LeftNodes(h, all, root, n);
    var l, p := h[n].left, h[n].parent;
    assert Local(h, all, root, m) && Local(h, all, root, n) && Local(h, all, root, l);
    if p != null { assert Local(h, all, root, p); }
    assert TurnedLeft(h, h', n, m);
    if h'[m].left != null { assert TurnedLeft(h, h', n, h'[m].left); }
    if h'[m].right != null { assert TurnedLeft(h, h', n, h'[m].right); }
    if h'[m].parent != null { assert TurnedLeft(h, h', n, h'[m].parent); }
  }

  lemma TurnedLeftRoot(h: Heap, h': Heap, all: seq<Node>, root: Node?, n: Node)
    requires Shape(h, all, root) && n in h && h[n].left in h
    requires forall k {:trigger TurnedLeft(h, h', n, k)} :: k in h ==> TurnedLeft(h, h', n, k)
    ensures var root' := if root == n then h[n].left else root;
      root' in h' && h'[root'].lo == 0 && h'[root'].hi == |all|
    ensures forall i :: 0 <= i < |all| ==> all[i] in h' && h'[all[i]].pos == i
  {
    assert Local(h, all, root, n) && Local(h, all, root, h[n].left);
    assert TurnedLeft(h, h', n, if root == n then h[n].left else root);
    forall i | 0 <= i < |all| ensures all[i] in h' && h'[all[i]].pos == i { assert TurnedLeft(h, h', n, all[i]); }
  }

  lemma TurnedLeftShape(h: Heap, h': Heap, all: seq<Node>, root: Node?, n: Node)
    requires Shape(h, all, root) && n in h && h[n].left in h && h'.Keys == h.Keys
    requires forall k {:trigger TurnedLeft(h, h', n, k)} :: k in h ==> TurnedLeft(h, h', n, k)
    ensures Shape(h', all, if root == n then h[n].left else root)
  {
    var root' := if root == n then h[n].left else root;
    forall m | m in h' ensures Local(h', all, root', m) { TurnedLeftLocal(h, h', all, root, n, m); }
    TurnedLeftRoot(h, h', all, root, n);
  }

  /** A rotation keeps the in-order sequence and the agreement of parents and children; at the
      root the child rotated up becomes the only parentless node. */
  lemma RotatedLeftShape(h: Heap, all: seq<Node>, root: Node?, n: Node)
    requires Shape(h, all, root) && n in h && h[n].left != null
    ensures TurnsLeft(h, n)
    ensures Shape(RotatedLeft(h, n), all, if root == n then h[n].left else root) && RotatedLeft(h, n).Keys == h.Keys
  {
    LeftNodes(h, all, root, n);
    var h' := RotatedLeft(h, n);
    forall k | k in h ensures TurnedLeft(h, h', n, k) { RotatedLeftAt(h, n, k); }
    TurnedLeftShape(h, h', all, root, n);
  }

  // A right rotation, node by node.
  predicate TurnedRight(h: Heap, h': Heap, n: Node, m: Node)
    requires m in h && n in h && h[n].right in h
  {
    var r, p := h[n].right, h[n].parent; var x := h[r].left;
    && m in h' && h'[m].hint == h[m].hint && h'[m].pos == h[m].pos && h'[m].value == h[m].value
    && h'[m].right == (if m == n then x else if m == p && h[m].left != n then r else h[m].right)
    && h'[m].left == (if m == r then n else if m == p && h[m].left == n then r else h[m].left)
    && h'[m].parent == (if m == r then p else if m == n then r else if m == x then n else h[m].parent)
    && h'[m].hi == (if m == n then h[r].pos else h[m].hi)
    && h'[m].lo == (if m == r then h[n].lo else h[m].lo)
  }

  lemma RotatedRightAt(h: Heap, n: Node, m: Node)
    requires TurnsRight(h, n) && m in h
    ensures TurnedRight(h, RotatedRight(h, n), n, m)
  {
  }

  lemma TurnedRightLocal(h: Heap, h': Heap, all: seq<Node>, root: Node?, n: Node, m: Node)
    requires Shape(h, all, root) && n in h && h[n].right in h && m in h
    requires forall k {:trigger TurnedRight(h, h', n, k)} :: k in h ==> TurnedRight(h, h', n, k)
    ensures m in h' && Local(h', all, if root == n then h[n].right else root, m)
  {
    RightNodes(h, all, root, n);
    var r, p := h[n].right, h[n].parent;
    assert Local(h, all, root, m) && Local(h, all, root, n) && Local(h, all, root, r);
    if p != null { assert Local(h, all, root, p); }
    assert TurnedRight(h, h', n, m);
    if h'[m].right != null { assert TurnedRight(h, h', n, h'[m].right); }
    if h'[m].left != null { assert TurnedRight(h, h', n, h'[m].left); }
    if h'[m].parent != null { assert TurnedRight(h, h', n, h'[m].parent); }
  }

  lemma TurnedRightRoot(h: Heap, h': Heap, all: seq<Node>, root: Node?, n: Node)
    requires Shape(h, all, root) && n in h && h[n].right in h
    requires forall k {:trigger TurnedRight(h, h', n, k)} :: k in h ==> TurnedRight(h, h', n, k)
    ensures var root' := if root == n then h[n].right else root;
      root' in h' && h'[root'].lo == 0 && h'[root'].hi == |all|
    ensures forall i :: 0 <= i < |all| ==> all[i] in h' && h'[all[i]].pos == i
  {
    assert Local(h, all, root, n) && Local(h, all, root, h[n].right);
    assert TurnedRight(h, h', n, if root == n then h[n].right else root);
    forall i | 0 <= i < |all| ensures all[i] in h' && h'[all[i]].pos == i { assert TurnedRight(h, h', n, all[i]); }
  }

  lemma TurnedRightShape(h: Heap, h': Heap, all: seq<Node>, root: Node?, n: Node)
    requires Shape(h, all, root) && n in h && h[n].right in h && h'.Keys == h.Keys
    requires forall k {:trigger TurnedRight(h, h', n, k)} :: k in h ==> TurnedRight(h, h', n, k)
    ensures Shape(h', all, if root == n then h[n].right else root)
  {
    var root' := if root == n then h[n].right else root;
    forall m | m in h' ensures Local(h', all, root', m) { TurnedRightLocal(h, h', all, root, n, m); }
    TurnedRightRoot(h, h', all, root, n);
  }

  lemma RotatedRightShape(h: Heap, all: seq<Node>, root: Node?, n: Node)
    requires Shape(h, all, root) && n in h && h[n].right != null
    ensures TurnsRight(h, n)
    ensures Shape(RotatedRight(h, n), all, if root == n then h[n].right else root) && RotatedRight(h, n).Keys == h.Keys
  {
    RightNodes(h, all, root, n);
    var h' := RotatedRight(h, n);
    forall k | k in h ensures TurnedRight(h, h', n, k) { RotatedRightAt(h, n, k); }
    TurnedRightShape(h, h', all, root, n);
  }

  /** Rotating back at the child that came up undoes a rotation. */
  lemma RotationsUndo(h: Heap, all: seq<Node>, root: Node?, n: Node)
    requires Shape(h, all, root) && n in h && h[n].left != null
    ensures TurnsLeft(h, n) && TurnsRight(RotatedLeft(h, n), h[n].left)
    ensures RotatedRight(RotatedLeft(h, n), h[n].left) == h
  {
    LeftNodes(h, all, root, n);
    RotatedLeftShape(h, all, root, n);
    var l, h1, root1 := h[n].left, RotatedLeft(h, n), if root == n then h[n].left else root;
    RotatedLeftAt(h, n, l);
    RightNodes(h1, all, root1, l);
    RotatedRightShape(h1, all, root1, l);
    forall m | m in h ensures RotatedRight(h1, l)[m] == h[m] { Undone(h, all, root, n, m); }
  }

  lemma Undone(h: Heap, all: seq<Node>, root: Node?, n: Node, m: Node)
    requires Shape(h, all, root) && n in h && h[n].left != null && m in h
    requires TurnsLeft(h, n) && TurnsRight(RotatedLeft(h, n), h[n].left) && RotatedLeft(h, n).Keys == h.Keys
    ensures m in RotatedRight(RotatedLeft(h, n), h[n].left) && RotatedRight(RotatedLeft(h, n), h[n].left)[m] == h[m]
  {
    var l, p, h1 := h[n].left, h[n].parent, RotatedLeft(h, n);
    assert Local(h, all, root, n) && Local(h, all, root, l) && Local(h, all, root, m);
    if p != null { assert Local(h, all, root, p); RotatedLeftAt(h, n, p); }
    RotatedLeftAt(h, n, m);
    RotatedLeftAt(h, n, l);
    RotatedLeftAt(h, n, n);
    RotatedRightAt(h1, l, m);
  }

  // ---------- st_balance, st_max_hint, st_update, problem1.c:111-163 ----------

  predicate Family(h: Heap, n: Node) {
    n in h && Known(h, h[n].left) && Known(h, h[n].right) && Known(h, h[n].parent)
  }

  function LeftHint(h: Heap, n: Node): int
    requires Family(h, n)
  {
    if h[n].left == null then 0 else h[h[n].left].hint + 1
  }

  function RightHint(h: Heap, n: Node): int
    requires Family(h, n)
  {
    if h[n].right == null then 0 else h[h[n].right].hint + 1
  }

  function Balance(h: Heap, n: Node): int
    requires Family(h, n)
  {
    LeftHint(h, n) - RightHint(h, n)
  }

  function MaxHint(h: Heap, n: Node): int
    requires Family(h, n)
  {
    if LeftHint(h, n) > RightHint(h, n) then LeftHint(h, n) else RightHint(h, n)
  }

  /** The nodes and `*root`. */
  datatype Tree = Tree(h: Heap, root: Node?)

  // The rotation of one call of st_update.
  function Turned(h: Heap, root: Node?, n: Node): Tree
    requires Family(h, n) && (Balance(h, n) < -1 ==> TurnsRight(h, n)) && (Balance(h, n) > 1 ==> TurnsLeft(h, n))
  {
    if Balance(h, n) < -1 then Tree(RotatedRight(h, n), if n == root then h[n].right else root)
    else if Balance(h, n) > 1 then Tree(RotatedLeft(h, n), if n == root then h[n].left else root)
    else Tree(h, root)
  }

  function Hinted(h: Heap, n: Node, hint: int): Heap
    requires n in h
  {
    h[n := h[n].(hint := hint)]
  }

  lemma HasFamily(h: Heap, all: seq<Node>, root: Node?, n: Node)
    requires Shape(h, all, root) && n in h
    ensures Family(h, n)
    ensures h[n].parent != null ==> h[n].hi - h[n].lo < h[h[n].parent].hi - h[h[n].parent].lo <= |all|
  {
    assert Local(h, all, root, n);
    if h[n].parent != null { assert Local(h, all, root, h[n].parent); }
  }

  /** A node that leans beyond one has the child it leans on, because hints are not negative. */
  lemma LeansOnAChild(h: Heap, all: seq<Node>, root: Node?, removed: nat, n: Node)
    requires Shape(h, all, root) && Hints(h, removed) && n in h
    ensures Family(h, n)
    ensures Balance(h, n) < -1 ==> TurnsRight(h, n)
    ensures Balance(h, n) > 1 ==> TurnsLeft(h, n)
  {
    HasFamily(h, all, root, n);
    if h[n].left != null { assert HintOf(h, removed, h[n].left); LeftNodes(h, all, root, n); }
    if h[n].right != null { assert HintOf(h, removed, h[n].right); RightNodes(h, all, root, n); }
  }

  // The bound on hints survives a rotation, except for the node rotated down.
  lemma TurnedHints(h: Heap, all: seq<Node>, root: Node?, removed: nat, n: Node, m: Node)
    requires Shape(h, all, root) && Hints(h, removed) && n in h && m in h && m != n && Family(h, n)
    requires (Balance(h, n) < -1 ==> TurnsRight(h, n)) && (Balance(h, n) > 1 ==> TurnsLeft(h, n))
    ensures m in Turned(h, root, n).h && HintOf(Turned(h, root, n).h, removed, m)
    ensures Turned(h, root, n).h[m].value == h[m].value
  {
    assert Local(h, all, root, n) && HintOf(h, removed, m);
    if Balance(h, n) < -1 {
      assert Local(h, all, root, h[n].right);
      RotatedRightAt(h, n, m);
    } else if Balance(h, n) > 1 {
      assert Local(h, all, root, h[n].left);
      RotatedLeftAt(h, n, m);
    }
  }

  lemma HintedShape(h: Heap, all: seq<Node>, root: Node?, n: Node, hint: int)
    requires Shape(h, all, root) && n in h
    ensures Shape(Hinted(h, n, hint), all, root)
  {
    var h' := Hinted(h, n, hint);
    forall m | m in h' ensures Local(h', all, root, m) { assert Local(h, all, root, m); }
  }

  lemma HintedHints(h: Heap, all: seq<Node>, root: Node?, removed: nat, n: Node)
    requires Shape(h, all, root) && n in h && Family(h, n)
    requires forall m :: m in h && m != n ==> HintOf(h, removed, m)
    ensures Hints(Hinted(h, n, MaxHint(h, n)), removed)
  {
    var h' := Hinted(h, n, MaxHint(h, n));
    assert Local(h, all, root, n);
    if h[n].left != null { assert Local(h, all, root, h[n].left); }
    if h[n].right != null { assert Local(h, all, root, h[n].right); }
    forall m | m in h' ensures HintOf(h', removed, m) {
      if m != n { assert HintOf(h, removed, m); }
    }
  }

  // A call of st_update finds the child it rotates on.
  predicate AdjustsWell(h: Heap, root: Node?, n: Node) {
    && Family(h, n) && (Balance(h, n) < -1 ==> TurnsRight(h, n)) && (Balance(h, n) > 1 ==> TurnsLeft(h, n))
    && Family(Turned(h, root, n).h, n)
  }

  // One call of st_update, before it goes on to the parent.
  function Adjusted(h: Heap, root: Node?, n: Node): Tree
    requires AdjustsWell(h, root, n)
  {
    var t := Turned(h, root, n);
    Tree(Hinted(t.h, n, MaxHint(t.h, n)), t.root)
  }

  lemma AdjustedShape(h: Heap, all: seq<Node>, root: Node?, removed: nat, n: Node)
    requires Shape(h, all, root) && Hints(h, removed) && n in h
    ensures AdjustsWell(h, root, n)
    ensures var t := Adjusted(h, root, n);
      && Shape(t.h, all, t.root) && Hints(t.h, removed) && t.h.Keys == h.Keys
      && forall m :: m in h ==> t.h[m].value == h[m].value
  {
    LeansOnAChild(h, all, root, removed, n);
    var t := Turned(h, root, n);
    TurnedShape(h, all, root, n);
    HasFamily(t.h, all, t.root, n);
    forall m | m in t.h && m != n ensures HintOf(t.h, removed, m) && t.h[m].value == h[m].value {
      TurnedHints(h, all, root, removed, n, m);
    }
    HintedShape(t.h, all, t.root, n, MaxHint(t.h, n));
    HintedHints(t.h, all, t.root, removed, n);
  }

  /** What one call does: a node that leans beyond one goes down under the child it leans on, and
      its hint becomes one more than the greatest hint of the children it has then. */
  lemma AdjustedEffect(h: Heap, all: seq<Node>, root: Node?, removed: nat, n: Node)
    requires Shape(h, all, root) && Hints(h, removed) && n in h
    ensures AdjustsWell(h, root, n)
    ensures var t := Adjusted(h, root, n).h;
      && Family(t, n) && t[n].hint == MaxHint(t, n)
      && (Balance(h, n) > 1 ==>
           && t[n].parent == h[n].left && h[n].left in t
           && t[h[n].left].right == n && t[h[n].left].parent == h[n].parent)
      && (Balance(h, n) < -1 ==>
           && t[n].parent == h[n].right && h[n].right in t
           && t[h[n].right].left == n && t[h[n].right].parent == h[n].parent)
      && (-1 <= Balance(h, n) <= 1 ==> t == h[n := h[n].(hint := MaxHint(h, n))])
  {
    AdjustedShape(h, all, root, removed, n);
    var t := Adjusted(h, root, n);
    HasFamily(t.h, all, t.root, n);
    assert Local(t.h, all, t.root, n);
    if t.h[n].left != null { assert Local(t.h, all, t.root, t.h[n].left); }
    if t.h[n].right != null { assert Local(t.h, all, t.root, t.h[n].right); }
    if Balance(h, n) > 1 { RotatedLeftAt(h, n, n); RotatedLeftAt(h, n, h[n].left); }
    else if Balance(h, n) < -1 { RotatedRightAt(h, n, n); RotatedRightAt(h, n, h[n].right); }
  }

  lemma TurnedShape(h: Heap, all: seq<Node>, root: Node?, n: Node)
    requires Shape(h, all, root) && Family(h, n)
    requires (Balance(h, n) < -1 ==> TurnsRight(h, n)) && (Balance(h, n) > 1 ==> TurnsLeft(h, n))
    ensures var t := Turned(h, root, n); Shape(t.h, all, t.root) && t.h.Keys == h.Keys && t.h[n].value == h[n].value
  {
    if Balance(h, n) < -1 {
      RotatedRightShape(h, all, root, n);
      RotatedRightAt(h, n, n);
    } else if Balance(h, n) > 1 {
      RotatedLeftShape(h, all, root, n);
      RotatedLeftAt(h, n, n);
    }
  }

  // How many nodes lie outside the subtree of `n`: what the climb uses up.
  function Above(h: Heap, all: seq<Node>, n: Node?): nat {
    if n == null || n !in h || h[n].hi - h[n].lo > |all| then 0 else |all| - (h[n].hi - h[n].lo) + 1
  }

  /** st_update: rotates at `n` if it leans, recomputes its hint, and goes on to the parent
      that `n` had before while the hint changes or is zero.  The climb ends, because that
      parent's subtree is larger; every rotation on the way finds the child it needs; and the
      in-order sequence, the agreement of parents and children, and the bounds on hints are
      kept. */
  ghost function Updated(h: Heap, all: seq<Node>, root: Node?, removed: nat, n: Node?): (t: Tree)
    requires Shape(h, all, root) && Hints(h, removed) && Known(h, n)
    ensures Shape(t.h, all, t.root) && Hints(t.h, removed) && t.h.Keys == h.Keys
    ensures forall m :: m in h ==> t.h[m].value == h[m].value
    decreases Above(h, all, n)
  {
    if n == null then Tree(h, root)
    else
      AdjustedShape(h, all, root, removed, n);
      UpdatedParent(h, all, root, removed, n);
      var t := Adjusted(h, root, n);
      if t.h[n].hint == 0 || t.h[n].hint != h[n].hint then Updated(t.h, all, t.root, removed, h[n].parent)
      else t
  }

  // The former parent keeps its span.
  lemma UpdatedParent(h: Heap, all: seq<Node>, root: Node?, removed: nat, n: Node)
    requires Shape(h, all, root) && Hints(h, removed) && n in h
    requires AdjustsWell(h, root, n)
    ensures var t, p := Adjusted(h, root, n), h[n].parent; Known(t.h, p) && Above(t.h, all, p) < Above(h, all, n)
  {
    var p := h[n].parent;
    HasFamily(h, all, root, n);
    assert Local(h, all, root, n);
    if p != null {
      if Balance(h, n) < -1 { RotatedRightAt(h, n, p); }
      else if Balance(h, n) > 1 { RotatedLeftAt(h, n, p); }
    }
  }
}
