/** Removal from an S-Tree, linux-2023-summer/quiz1/problem1.c:184-296: the removed node gives
    its place to its neighbour in the in-order sequence, if it has children. */
module STreeRemove {
  import opened STreeShape
  import opened STreeEdit

  // ---------- st_replace_right, problem1.c:184-212 ----------

  // `r` is the first node of the right subtree of `n`; what st_replace_right relies on.
  predicate RightHeir(h: Heap, n: Node, r: Node) {
    && Family(h, n) && Family(h, r) && r != n && h[n].right != null && h[r].left == null && h[r].parent != null &&
    var p, q, l, x := h[n].parent, h[r].parent, h[n].left, h[r].right;
    && p != n && p != r && p != q && q != r && (q == n <==> h[n].right == r) && (q != n ==> h[q].left == r)
      && (h[q].parent == n ==> q == h[n].right)
    && (l != null ==> l != n && l != r && l != q && l != p && l != x && l != h[n].right)
    && (x != null ==> x != n && x != r && x != q && x != p && x != h[n].right)
    && h[n].right != n && h[n].right != p
  }

  // Lines 188-192.
  function UnhookedLeft(h: Heap, q: Node, r: Node): Heap
    requires q in h && r in h && Known(h, h[r].right)
  {
    if h[q].left == r then Adopted(h[q := h[q].(left := h[r].right)], h[r].right, q) else h
  }

  // Lines 194-195.
  function Reparented(h: Heap, q: Node, n: Node, r: Node): Heap
    requires q in h
  {
    if h[q].parent == n then h[q := h[q].(parent := r)] else h
  }

  // Lines 197-203.
  function SeatedRight(h: Heap, n: Node, r: Node): Heap
    requires Family(h, n) && r in h && h[n].right != null
  {
    var h1 := h[r := h[r].(parent := h[n].parent, left := h[n].left)];
    if h[n].right != r then h1[r := h1[r].(right := h[n].right)][h[n].right := h1[h[n].right].(parent := r)] else h1
  }

  function ReplacedRight(h: Heap, n: Node, r: Node): Heap
    requires RightHeir(h, n, r)
  {
    var q := h[r].parent;
    var h1 := Reparented(UnhookedLeft(h, q, r), q, n, r);
    Adopted(Relinked(SeatedRight(h1, n, r), h[n].parent, n, r), h[n].left, r)
  }

  // The steps in between leave `n` alone.
  lemma RightSteps(h: Heap, n: Node, r: Node)
    requires RightHeir(h, n, r)
    ensures var h2 := Reparented(UnhookedLeft(h, h[r].parent, r), h[r].parent, n, r);
      && h2.Keys == h.Keys && Family(h2, n) && h2[n] == h[n]
      && var h4 := Relinked(SeatedRight(h2, n, r), h[n].parent, n, r); h4.Keys == h.Keys && h4[n] == h[n]
  {
  }

  // The replacement, node by node.
  predicate ReplacedRightNode(h: Heap, h': Heap, n: Node, r: Node, m: Node)
    requires RightHeir(h, n, r) && m in h && m != n
  {
    var p, q, l, x, s := h[n].parent, h[r].parent, h[n].left, h[r].right, h[n].right;
    && m in h'
    && h'[m].left == (if m == r then l else if m == q && q != n then x else if m == p && h[p].left == n then r
      else h[m].left)
    && h'[m].right == (if m == r then (if s == r then x else s) else if m == p && h[p].left != n then r else h[m].right)
    && h'[m].parent == (if m == r then p else if m == x && q != n then q else if m == s || m == l then r
      else h[m].parent)
    && h'[m].hint == h[m].hint && h'[m].value == h[m].value
    && h'[m].lo == h[m].lo && h'[m].pos == h[m].pos && h'[m].hi == h[m].hi
  }

  lemma ReplacedRightAt(h: Heap, n: Node, r: Node, m: Node)
    requires RightHeir(h, n, r) && m in h && m != n
    ensures ReplacedRightNode(h, ReplacedRight(h, n, r), n, r, m)
  {
  }

  /** The first node of the right subtree is the right neighbour in the sequence; it has no left
      child, and is the right child of `n` or a left child below it. */
  lemma RightHeirFits(h: Heap, all: seq<Node>, root: Node?, n: Node, r: Node)
    requires Shape(h, all, root) && n in h && r in h && h[n].right != null && h[r].left == null
      && h[r].pos == h[n].pos + 1
    ensures RightHeir(h, n, r)
  {
    HasFamily(h, all, root, n);
    HasFamily(h, all, root, r);
    assert Local(h, all, root, n) && Local(h, all, root, r) && Local(h, all, root, h[n].right);
    var q := h[r].parent;
    assert q != null;
    assert Local(h, all, root, q);
    RightHeirPlace(h, all, root, n, r);
    if h[n].left != null { assert Local(h, all, root, h[n].left); }
    if h[r].right != null { assert Local(h, all, root, h[r].right); }
    if h[n].parent != null { assert Local(h, all, root, h[n].parent); }
  }

  lemma RightHeirPlace(h: Heap, all: seq<Node>, root: Node?, n: Node, r: Node)
    requires Shape(h, all, root) && n in h && r in h && h[n].right != null && h[r].left == null
      && h[r].pos == h[n].pos + 1
    requires h[r].parent in h
    ensures (h[r].parent == n <==> h[n].right == r)
      && (h[r].parent != n ==> h[h[r].parent].left == r && h[r].parent != h[n].parent)
  {
    var q := h[r].parent;
    assert Local(h, all, root, n) && Local(h, all, root, r) && Local(h, all, root, q);
    if h[n].right == r { assert q == n; }
    if h[q].right == r { assert h[q].pos == h[n].pos; }
  }

  /** `del` removed: its right neighbour stands in its place, and spans and positions close up. */
  function TakenRight(h: Heap, n: Node, r: Node): Heap
    requires RightHeir(h, n, r)
  {
    var j := h[n].pos;
    Closed(ReplacedRight(h, n, r), n, r, h[n].lo, h[n].hi - 1, j + 1, j, j)
  }

  lemma TakenRightClosed(h: Heap, n: Node, r: Node)
    requires RightHeir(h, n, r)
    ensures var j := h[n].pos;
      TakenRight(h, n, r) == Closed(ReplacedRight(h, n, r), n, r, h[n].lo, h[n].hi - 1, j + 1, j, j)
        && r in ReplacedRight(h, n, r)
  {
  }

  // Without `n`, and with `r` spanning `lo` to `hi`.
  function Closed(h: Heap, n: Node, r: Node, lo: int, hi: int, a: int, b: int, c: int): Heap {
    Filled(Shifted(h - {n}, -1, a, b, c), lo, hi, r)
  }

  function Filled(h: Heap, lo: int, hi: int, r: Node): Heap {
    if r in h then h[r := h[r].(lo := lo, hi := hi)] else h
  }

  predicate TakenRightNode(h: Heap, h': Heap, n: Node, r: Node, m: Node)
    requires RightHeir(h, n, r) && m in h && m != n
  {
    var p, q, l, x, s := h[n].parent, h[r].parent, h[n].left, h[r].right, h[n].right;
    var j := h[n].pos;
    && m in h'
    && h'[m].left == (if m == r then l else if m == q && q != n then x else if m == p && h[p].left == n then r
      else h[m].left)
    && h'[m].right == (if m == r then (if s == r then x else s) else if m == p && h[p].left != n then r else h[m].right)
    && h'[m].parent == (if m == r then p else if m == x && q != n then q else if m == s || m == l then r
      else h[m].parent)
    && h'[m].hint == h[m].hint && h'[m].value == h[m].value
    && h'[m].pos == Moved(h[m].pos, -1, j)
    && h'[m].lo == (if m == r then h[n].lo else Moved(h[m].lo, -1, j + 1))
    && h'[m].hi == (if m == r then h[n].hi - 1 else Moved(h[m].hi, -1, j))
  }

  lemma TakenRightAt(h: Heap, n: Node, r: Node, m: Node)
    requires RightHeir(h, n, r) && m in h && m != n
    ensures TakenRightNode(h, TakenRight(h, n, r), n, r, m)
  {
    ReplacedRightAt(h, n, r, m);
    ReplacedRightAt(h, n, r, r);
  }

  // `h'` is `h` with `n` replaced by its right neighbour `r`.
  ghost predicate TakesRight(h: Heap, h': Heap, all: seq<Node>, root: Node?, n: Node, r: Node) {
    && Shape(h, all, root) && RightHeir(h, n, r) && h[r].pos == h[n].pos + 1 && 0 <= h[n].pos < |all| - 1
    && forall k {:trigger TakenRightNode(h, h', n, r, k)} :: k in h && k != n ==> TakenRightNode(h, h', n, r, k)
  }

  lemma TakenRightSpan(h: Heap, h': Heap, all: seq<Node>, root: Node?, n: Node, r: Node, m: Node)
    requires TakesRight(h, h', all, root, n, r) && m in h && m != n
    ensures var all' := RemoveAt(all, h[n].pos);
      m in h' && 0 <= h'[m].lo <= h'[m].pos < h'[m].hi <= |all'| && all'[h'[m].pos] == m
  {
    assert Local(h, all, root, m) && Local(h, all, root, n) && Local(h, all, root, r)
      && Local(h, all, root, h[n].right);
    assert TakenRightNode(h, h', n, r, m);
    assert (h[m].pos == h[r].pos ==> m == r) && h[m].pos != h[n].pos;
  }

  lemma TakenRightLeft(h: Heap, h': Heap, all: seq<Node>, root: Node?, n: Node, r: Node, m: Node)
    requires TakesRight(h, h', all, root, n, r) && m in h && m != n
    ensures m in h' && LeftOf(h', m)
  {
    assert Local(h, all, root, m) && Local(h, all, root, n) && Local(h, all, root, r)
      && Local(h, all, root, h[r].parent);
    assert TakenRightNode(h, h', n, r, m) && TakenRightNode(h, h', n, r, r);
    assert (h[m].pos == h[r].pos ==> m == r) && h[m].pos != h[n].pos;
    var c := h'[m].left;
    if c != null { assert c in h && c != n && TakenRightNode(h, h', n, r, c); }
  }

  lemma TakenRightRight(h: Heap, h': Heap, all: seq<Node>, root: Node?, n: Node, r: Node, m: Node)
    requires TakesRight(h, h', all, root, n, r) && m in h && m != n
    ensures m in h' && RightOf(h', m)
  {
    assert Local(h, all, root, m) && Local(h, all, root, n) && Local(h, all, root, r)
      && Local(h, all, root, h[r].parent);
    assert TakenRightNode(h, h', n, r, m) && TakenRightNode(h, h', n, r, r);
    assert (h[m].pos == h[r].pos ==> m == r) && h[m].pos != h[n].pos;
    var c := h'[m].right;
    if c != null { assert c in h && c != n && TakenRightNode(h, h', n, r, c); }
  }

  lemma TakenRightParent(h: Heap, h': Heap, all: seq<Node>, root: Node?, n: Node, r: Node, m: Node)
    requires TakesRight(h, h', all, root, n, r) && m in h && m != n
    ensures m in h' && ParentOf(h', if root == n then r else root, m)
  {
    assert Local(h, all, root, m) && Local(h, all, root, n) && Local(h, all, root, r)
      && Local(h, all, root, h[r].parent);
    assert TakenRightNode(h, h', n, r, m);
    var c := h'[m].parent;
    if c != null { assert c in h && c != n && TakenRightNode(h, h', n, r, c); }
  }

  lemma TakenRightHint(h: Heap, h': Heap, all: seq<Node>, root: Node?, removed: nat, n: Node, r: Node, m: Node)
    requires TakesRight(h, h', all, root, n, r) && Hints(h, removed) && h[r].hi <= h[n].hi && m in h && m != n
    ensures m in h' && HintOf(h', removed + 1, m)
  {
    assert Local(h, all, root, m) && Local(h, all, root, n) && Local(h, all, root, r) && HintOf(h, removed, m);
    assert TakenRightNode(h, h', n, r, m);
  }

  lemma TakenRightRoot(h: Heap, h': Heap, all: seq<Node>, root: Node?, n: Node, r: Node)
    requires TakesRight(h, h', all, root, n, r)
    ensures var all' := RemoveAt(all, h[n].pos); forall i :: 0 <= i < |all'| ==> all'[i] in h' && h'[all'[i]].pos == i
    ensures var root' := if root == n then r else root;
      root' != null && root' in h' && h'[root'].lo == 0 && h'[root'].hi == |all| - 1
  {
    assert Local(h, all, root, n) && Local(h, all, root, r);
    assert TakenRightNode(h, h', n, r, if root == n then r else root);
    var all' := RemoveAt(all, h[n].pos);
    forall i | 0 <= i < |all'| ensures all'[i] in h' && h'[all'[i]].pos == i {
      assert h[all'[i]].pos == if i < h[n].pos then i else i + 1;
      assert TakenRightNode(h, h', n, r, all'[i]);
    }
  }

  lemma TakenRightAll(h: Heap, all: seq<Node>, root: Node?, removed: nat, n: Node, r: Node)
    requires RightHeir(h, n, r) && TakesRight(h, TakenRight(h, n, r), all, root, n, r)
    requires Hints(h, removed) && h[r].hi <= h[n].hi && TakenRight(h, n, r).Keys == h.Keys - {n}
    ensures Shape(TakenRight(h, n, r), RemoveAt(all, h[n].pos), if root == n then r else root)
    ensures Hints(TakenRight(h, n, r), removed + 1)
  {
    var h', all', root' := TakenRight(h, n, r), RemoveAt(all, h[n].pos), if root == n then r else root;
    TakenRightRoot(h, h', all, root, n, r);
    forall m | m in h' ensures Local(h', all', root', m) && HintOf(h', removed + 1, m) {
      TakenRightSpan(h, h', all, root, n, r, m);
      TakenRightLeft(h, h', all, root, n, r, m);
      TakenRightRight(h, h', all, root, n, r, m);
      TakenRightParent(h, h', all, root, n, r, m);
      TakenRightHint(h, h', all, root, removed, n, r, m);
    }
  }

  lemma TakenRightKeys(h: Heap, n: Node, r: Node)
    requires RightHeir(h, n, r)
    ensures TakenRight(h, n, r).Keys == h.Keys - {n}
  {
    assert ReplacedRight(h, n, r).Keys == h.Keys;
  }

  /** Replacing `n` by its right neighbour deletes exactly `n` from the in-order sequence. */
  lemma TakenRightShape(h: Heap, all: seq<Node>, root: Node?, removed: nat, n: Node, r: Node)
    requires Shape(h, all, root) && Hints(h, removed) && n in h && r in h && h[n].right != null && h[r].left == null
    requires h[r].pos == h[n].pos + 1 && h[r].hi <= h[n].hi
    ensures RightHeir(h, n, r) && 0 <= h[n].pos < |all|
    ensures Shape(TakenRight(h, n, r), RemoveAt(all, h[n].pos), if root == n then r else root)
    ensures Hints(TakenRight(h, n, r), removed + 1) && TakenRight(h, n, r).Keys == h.Keys - {n}
    ensures forall m :: m in h && m != n ==> TakenRight(h, n, r)[m].value == h[m].value
  {
    RightHeirFits(h, all, root, n, r);
    TakenRightKeys(h, n, r);
    assert Local(h, all, root, n) && Local(h, all, root, r);
    forall m | m in h && m != n ensures TakenRightNode(h, TakenRight(h, n, r), n, r, m) { TakenRightAt(h, n, r, m); }
    TakenRightAll(h, all, root, removed, n, r);
  }

  // ---------- st_replace_left, problem1.c:214-242 ----------

  // `l` is the last node of the left subtree of `n`; what st_replace_left relies on.
  predicate LeftHeir(h: Heap, n: Node, l: Node) {
    && Family(h, n) && Family(h, l) && l != n && h[n].left != null && h[l].right == null && h[l].parent != null &&
    var p, q, r, x := h[n].parent, h[l].parent, h[n].right, h[l].left;
    && p != n && p != l && p != q && q != l && (q == n <==> h[n].left == l) && (q != n ==> h[q].right == l)
      && (h[q].parent == n ==> q == h[n].left)
    && (r != null ==> r != n && r != l && r != q && r != p && r != x && r != h[n].left)
    && (x != null ==> x != n && x != l && x != q && x != p && x != h[n].left)
    && h[n].left != n && h[n].left != p
  }

  // Lines 218-222.
  function UnhookedRight(h: Heap, q: Node, l: Node): Heap
    requires q in h && l in h && Known(h, h[l].left)
  {
    if h[q].right == l then Adopted(h[q := h[q].(right := h[l].left)], h[l].left, q) else h
  }

  // Lines 227-233.
  function SeatedLeft(h: Heap, n: Node, l: Node): Heap
    requires Family(h, n) && l in h && h[n].left != null
  {
    var h1 := h[l := h[l].(parent := h[n].parent, right := h[n].right)];
    if h[n].left != l then h1[l := h1[l].(left := h[n].left)][h[n].left := h1[h[n].left].(parent := l)] else h1
  }

  function ReplacedLeft(h: Heap, n: Node, l: Node): Heap
    requires LeftHeir(h, n, l)
  {
    var q := h[l].parent;
    var h1 := Reparented(UnhookedRight(h, q, l), q, n, l);
    Adopted(Relinked(SeatedLeft(h1, n, l), h[n].parent, n, l), h[n].right, l)
  }

  // The steps in between leave `n` alone.
  lemma LeftSteps(h: Heap, n: Node, l: Node)
    requires LeftHeir(h, n, l)
    ensures var h2 := Reparented(UnhookedRight(h, h[l].parent, l), h[l].parent, n, l);
      && h2.Keys == h.Keys && Family(h2, n) && h2[n] == h[n]
      && var h4 := Relinked(SeatedLeft(h2, n, l), h[n].parent, n, l); h4.Keys == h.Keys && h4[n] == h[n]
  {
  }

  // The replacement, node by node.
  predicate ReplacedLeftNode(h: Heap, h': Heap, n: Node, l: Node, m: Node)
    requires LeftHeir(h, n, l) && m in h && m != n
  {
    var p, q, r, x, s := h[n].parent, h[l].parent, h[n].right, h[l].left, h[n].left;
    && m in h'
    && h'[m].right == (if m == l then r else if m == q && q != n then x else if m == p && h[p].left != n then l
      else h[m].right)
    && h'[m].left == (if m == l then (if s == l then x else s) else if m == p && h[p].left == n then l else h[m].left)
    && h'[m].parent == (if m == l then p else if m == x && q != n then q else if m == s || m == r then l
      else h[m].parent)
    && h'[m].hint == h[m].hint && h'[m].value == h[m].value
    && h'[m].lo == h[m].lo && h'[m].pos == h[m].pos && h'[m].hi == h[m].hi
  }

  lemma ReplacedLeftAt(h: Heap, n: Node, l: Node, m: Node)
    requires LeftHeir(h, n, l) && m in h && m != n
    ensures ReplacedLeftNode(h, ReplacedLeft(h, n, l), n, l, m)
  {
  }

  /** The last node of the left subtree is the left neighbour in the sequence; it has no right
      child, and is the left child of `n` or a right child below it. */
  lemma LeftHeirFits(h: Heap, all: seq<Node>, root: Node?, n: Node, l: Node)
    requires Shape(h, all, root) && n in h && l in h && h[n].left != null && h[l].right == null
      && h[l].pos == h[n].pos - 1
    ensures LeftHeir(h, n, l)
  {
    HasFamily(h, all, root, n);
    HasFamily(h, all, root, l);
    assert Local(h, all, root, n) && Local(h, all, root, l) && Local(h, all, root, h[n].left);
    var q := h[l].parent;
    assert q != null;
    assert Local(h, all, root, q);
    LeftHeirPlace(h, all, root, n, l);
    if h[n].right != null { assert Local(h, all, root, h[n].right); }
    if h[l].left != null { assert Local(h, all, root, h[l].left); }
    if h[n].parent != null { assert Local(h, all, root, h[n].parent); }
  }

  lemma LeftHeirPlace(h: Heap, all: seq<Node>, root: Node?, n: Node, l: Node)
    requires Shape(h, all, root) && n in h && l in h && h[n].left != null && h[l].right == null
      && h[l].pos == h[n].pos - 1
    requires h[l].parent in h
    ensures (h[l].parent == n <==> h[n].left == l)
      && (h[l].parent != n ==> h[h[l].parent].right == l && h[l].parent != h[n].parent)
  {
    var q := h[l].parent;
    assert Local(h, all, root, n) && Local(h, all, root, l) && Local(h, all, root, q);
    if h[n].left == l { assert q == n; }
    if h[q].left == l { assert h[q].pos == h[n].pos; }
  }

  /** `del` removed: its left neighbour stands in its place, and spans and positions close up. */
  function TakenLeft(h: Heap, n: Node, l: Node): Heap
    requires LeftHeir(h, n, l)
  {
    var j := h[n].pos;
    Closed(ReplacedLeft(h, n, l), n, l, h[n].lo, h[n].hi - 1, j, j, j - 1)
  }

  lemma TakenLeftClosed(h: Heap, n: Node, l: Node)
    requires LeftHeir(h, n, l)
    ensures var j := h[n].pos;
      TakenLeft(h, n, l) == Closed(ReplacedLeft(h, n, l), n, l, h[n].lo, h[n].hi - 1, j, j, j - 1)
        && l in ReplacedLeft(h, n, l)
  {
  }

  predicate TakenLeftNode(h: Heap, h': Heap, n: Node, l: Node, m: Node)
    requires LeftHeir(h, n, l) && m in h && m != n
  {
    var p, q, r, x, s := h[n].parent, h[l].parent, h[n].right, h[l].left, h[n].left;
    var j := h[n].pos;
    && m in h'
    && h'[m].right == (if m == l then r else if m == q && q != n then x else if m == p && h[p].left != n then l
      else h[m].right)
    && h'[m].left == (if m == l then (if s == l then x else s) else if m == p && h[p].left == n then l else h[m].left)
    && h'[m].parent == (if m == l then p else if m == x && q != n then q else if m == s || m == r then l
      else h[m].parent)
    && h'[m].hint == h[m].hint && h'[m].value == h[m].value
    && h'[m].pos == Moved(h[m].pos, -1, j)
    && h'[m].lo == (if m == l then h[n].lo else Moved(h[m].lo, -1, j))
    && h'[m].hi == (if m == l then h[n].hi - 1 else Moved(h[m].hi, -1, j - 1))
  }

  lemma TakenLeftAt(h: Heap, n: Node, l: Node, m: Node)
    requires LeftHeir(h, n, l) && m in h && m != n
    ensures TakenLeftNode(h, TakenLeft(h, n, l), n, l, m)
  {
    ReplacedLeftAt(h, n, l, m);
    ReplacedLeftAt(h, n, l, l);
  }

  // `h'` is `h` with `n` replaced by its left neighbour `l`.
  ghost predicate TakesLeft(h: Heap, h': Heap, all: seq<Node>, root: Node?, n: Node, l: Node) {
    && Shape(h, all, root) && LeftHeir(h, n, l) && h[l].pos == h[n].pos - 1 && 0 < h[n].pos < |all|
    && forall k {:trigger TakenLeftNode(h, h', n, l, k)} :: k in h && k != n ==> TakenLeftNode(h, h', n, l, k)
  }

  lemma TakenLeftSpan(h: Heap, h': Heap, all: seq<Node>, root: Node?, n: Node, l: Node, m: Node)
    requires TakesLeft(h, h', all, root, n, l) && m in h && m != n
    ensures var all' := RemoveAt(all, h[n].pos);
      m in h' && 0 <= h'[m].lo <= h'[m].pos < h'[m].hi <= |all'| && all'[h'[m].pos] == m
  {
    assert Local(h, all, root, m) && Local(h, all, root, n) && Local(h, all, root, l) && Local(h, all, root, h[n].left);
    assert TakenLeftNode(h, h', n, l, m);
    assert (h[m].pos == h[l].pos ==> m == l) && h[m].pos != h[n].pos;
  }

  lemma TakenLeftRight(h: Heap, h': Heap, all: seq<Node>, root: Node?, n: Node, l: Node, m: Node)
    requires TakesLeft(h, h', all, root, n, l) && m in h && m != n
    ensures m in h' && RightOf(h', m)
  {
    assert Local(h, all, root, m) && Local(h, all, root, n) && Local(h, all, root, l)
      && Local(h, all, root, h[l].parent);
    assert TakenLeftNode(h, h', n, l, m) && TakenLeftNode(h, h', n, l, l);
    assert (h[m].pos == h[l].pos ==> m == l) && h[m].pos != h[n].pos;
    var c := h'[m].right;
    if c != null { assert c in h && c != n && TakenLeftNode(h, h', n, l, c); }
  }

  lemma TakenLeftLeft(h: Heap, h': Heap, all: seq<Node>, root: Node?, n: Node, l: Node, m: Node)
    requires TakesLeft(h, h', all, root, n, l) && m in h && m != n
    ensures m in h' && LeftOf(h', m)
  {
    assert Local(h, all, root, m) && Local(h, all, root, n) && Local(h, all, root, l)
      && Local(h, all, root, h[l].parent);
    assert TakenLeftNode(h, h', n, l, m) && TakenLeftNode(h, h', n, l, l);
    assert (h[m].pos == h[l].pos ==> m == l) && h[m].pos != h[n].pos;
    var c := h'[m].left;
    if c != null { assert c in h && c != n && TakenLeftNode(h, h', n, l, c); }
  }

  lemma TakenLeftParent(h: Heap, h': Heap, all: seq<Node>, root: Node?, n: Node, l: Node, m: Node)
    requires TakesLeft(h, h', all, root, n, l) && m in h && m != n
    ensures m in h' && ParentOf(h', if root == n then l else root, m)
  {
    assert Local(h, all, root, m) && Local(h, all, root, n) && Local(h, all, root, l)
      && Local(h, all, root, h[l].parent);
    assert TakenLeftNode(h, h', n, l, m);
    var c := h'[m].parent;
    if c != null { assert c in h && c != n && TakenLeftNode(h, h', n, l, c); }
  }

  lemma TakenLeftHint(h: Heap, h': Heap, all: seq<Node>, root: Node?, removed: nat, n: Node, l: Node, m: Node)
    requires TakesLeft(h, h', all, root, n, l) && Hints(h, removed) && h[n].lo <= h[l].lo && m in h && m != n
    ensures m in h' && HintOf(h', removed + 1, m)
  {
    assert Local(h, all, root, m) && Local(h, all, root, n) && Local(h, all, root, l) && HintOf(h, removed, m);
    assert TakenLeftNode(h, h', n, l, m);
  }

  lemma TakenLeftRoot(h: Heap, h': Heap, all: seq<Node>, root: Node?, n: Node, l: Node)
    requires TakesLeft(h, h', all, root, n, l)
    ensures var all' := RemoveAt(all, h[n].pos); forall i :: 0 <= i < |all'| ==> all'[i] in h' && h'[all'[i]].pos == i
    ensures var root' := if root == n then l else root;
      root' != null && root' in h' && h'[root'].lo == 0 && h'[root'].hi == |all| - 1
  {
    assert Local(h, all, root, n) && Local(h, all, root, l);
    assert TakenLeftNode(h, h', n, l, if root == n then l else root);
    var all' := RemoveAt(all, h[n].pos);
    forall i | 0 <= i < |all'| ensures all'[i] in h' && h'[all'[i]].pos == i {
      assert h[all'[i]].pos == if i < h[n].pos then i else i + 1;
      assert TakenLeftNode(h, h', n, l, all'[i]);
    }
  }

  lemma TakenLeftAll(h: Heap, all: seq<Node>, root: Node?, removed: nat, n: Node, l: Node)
    requires LeftHeir(h, n, l) && TakesLeft(h, TakenLeft(h, n, l), all, root, n, l)
    requires Hints(h, removed) && h[n].lo <= h[l].lo && TakenLeft(h, n, l).Keys == h.Keys - {n}
    ensures Shape(TakenLeft(h, n, l), RemoveAt(all, h[n].pos), if root == n then l else root)
    ensures Hints(TakenLeft(h, n, l), removed + 1)
  {
    var h', all', root' := TakenLeft(h, n, l), RemoveAt(all, h[n].pos), if root == n then l else root;
    TakenLeftRoot(h, h', all, root, n, l);
    forall m | m in h' ensures Local(h', all', root', m) && HintOf(h', removed + 1, m) {
      TakenLeftSpan(h, h', all, root, n, l, m);
      TakenLeftRight(h, h', all, root, n, l, m);
      TakenLeftLeft(h, h', all, root, n, l, m);
      TakenLeftParent(h, h', all, root, n, l, m);
      TakenLeftHint(h, h', all, root, removed, n, l, m);
    }
  }

  lemma TakenLeftKeys(h: Heap, n: Node, l: Node)
    requires LeftHeir(h, n, l)
    ensures TakenLeft(h, n, l).Keys == h.Keys - {n}
  {
    assert ReplacedLeft(h, n, l).Keys == h.Keys;
  }

  /** Replacing `n` by its left neighbour deletes exactly `n` from the in-order sequence. */
  lemma TakenLeftShape(h: Heap, all: seq<Node>, root: Node?, removed: nat, n: Node, l: Node)
    requires Shape(h, all, root) && Hints(h, removed) && n in h && l in h && h[n].left != null && h[l].right == null
    requires h[l].pos == h[n].pos - 1 && h[n].lo <= h[l].lo
    ensures LeftHeir(h, n, l) && 0 <= h[n].pos < |all|
    ensures Shape(TakenLeft(h, n, l), RemoveAt(all, h[n].pos), if root == n then l else root)
    ensures Hints(TakenLeft(h, n, l), removed + 1) && TakenLeft(h, n, l).Keys == h.Keys - {n}
    ensures forall m :: m in h && m != n ==> TakenLeft(h, n, l)[m].value == h[m].value
  {
    LeftHeirFits(h, all, root, n, l);
    TakenLeftKeys(h, n, l);
    assert Local(h, all, root, n) && Local(h, all, root, l);
    forall m | m in h && m != n ensures TakenLeftNode(h, TakenLeft(h, n, l), n, l, m) { TakenLeftAt(h, n, l, m); }
    TakenLeftAll(h, all, root, removed, n, l);
  }

  // ---------- a node without children, problem1.c:282-295 ----------

  function Dropped(h: Heap, n: Node): Heap
    requires Family(h, n)
  {
    var j := h[n].pos;
    Shifted(Relinked(h, h[n].parent, n, null) - {n}, -1, j, j, j)
  }

  predicate DroppedNode(h: Heap, h': Heap, n: Node, m: Node)
    requires Family(h, n) && m in h && m != n
  {
    var q, j := h[n].parent, h[n].pos;
    m in h' && h'[m] == (
      var k := Shift(h[m], -1, j, j, j);
      if m != q then k else if h[q].left == n then k.(left := null) else k.(right := null))
  }

  ghost predicate Drops(h: Heap, h': Heap, all: seq<Node>, root: Node?, n: Node) {
    && Shape(h, all, root) && Family(h, n) && h[n].left == h[n].right == null && h[n].parent != null
      && 0 <= h[n].pos < |all|
    && forall k {:trigger DroppedNode(h, h', n, k)} :: k in h && k != n ==> DroppedNode(h, h', n, k)
  }

  lemma DroppedLocal(h: Heap, h': Heap, all: seq<Node>, root: Node?, n: Node, m: Node)
    requires Drops(h, h', all, root, n) && m in h && m != n
    ensures m in h' && Local(h', RemoveAt(all, h[n].pos), root, m)
  {
    assert Local(h, all, root, m) && Local(h, all, root, n) && Local(h, all, root, h[n].parent);
    assert DroppedNode(h, h', n, m) && h[m].pos != h[n].pos;
    if h'[m].left != null { assert DroppedNode(h, h', n, h'[m].left); }
    if h'[m].right != null { assert DroppedNode(h, h', n, h'[m].right); }
    if h'[m].parent != null { assert DroppedNode(h, h', n, h'[m].parent); }
  }

  lemma DroppedHint(h: Heap, h': Heap, all: seq<Node>, root: Node?, removed: nat, n: Node, m: Node)
    requires Drops(h, h', all, root, n) && Hints(h, removed) && m in h && m != n
    ensures m in h' && HintOf(h', removed + 1, m)
  {
    assert Local(h, all, root, m) && HintOf(h, removed, m) && DroppedNode(h, h', n, m);
  }

  lemma DroppedRoot(h: Heap, h': Heap, all: seq<Node>, root: Node?, n: Node)
    requires Drops(h, h', all, root, n)
    ensures var all' := RemoveAt(all, h[n].pos); forall i :: 0 <= i < |all'| ==> all'[i] in h' && h'[all'[i]].pos == i
    ensures root != null && root in h' && h'[root].lo == 0 && h'[root].hi == |all| - 1
  {
    assert Local(h, all, root, n);
    assert root != null && root != n;
    assert DroppedNode(h, h', n, root) && Local(h, all, root, root);
    var all' := RemoveAt(all, h[n].pos);
    forall i | 0 <= i < |all'| ensures all'[i] in h' && h'[all'[i]].pos == i {
      assert h[all'[i]].pos == if i < h[n].pos then i else i + 1;
      assert DroppedNode(h, h', n, all'[i]);
    }
  }

  lemma DroppedAt(h: Heap, n: Node, m: Node)
    requires Family(h, n) && m in h && m != n
    ensures DroppedNode(h, Dropped(h, n), n, m) && Dropped(h, n).Keys == h.Keys - {n}
  {
    assert Relinked(h, h[n].parent, n, null).Keys == h.Keys;
  }

  /** Cutting off a node without children deletes exactly it from the in-order sequence. */
  lemma DroppedShape(h: Heap, all: seq<Node>, root: Node?, removed: nat, n: Node)
    requires Shape(h, all, root) && Hints(h, removed) && n in h && h[n].left == h[n].right == null && n != root
    ensures Family(h, n) && 0 <= h[n].pos < |all|
    ensures Shape(Dropped(h, n), RemoveAt(all, h[n].pos), root) && Hints(Dropped(h, n), removed + 1)
      && Dropped(h, n).Keys == h.Keys - {n}
    ensures h[n].parent in Dropped(h, n)
    ensures forall m :: m in h && m != n ==> Dropped(h, n)[m].value == h[m].value
  {
    HasFamily(h, all, root, n);
    assert Local(h, all, root, n);
    var h', all' := Dropped(h, n), RemoveAt(all, h[n].pos);
    forall m | m in h && m != n ensures DroppedNode(h, h', n, m) { DroppedAt(h, n, m); }
    DroppedAt(h, n, h[n].parent);
    DroppedRoot(h, h', all, root, n);
    forall m | m in h' ensures Local(h', all', root, m) && HintOf(h', removed + 1, m) {
      DroppedLocal(h, h', all, root, n, m);
      DroppedHint(h, h', all, root, removed, n, m);
    }
  }

  // ---------- st_remove, problem1.c:260-296 ----------

  // The first (last) node of a subtree has no left (right) child.
  lemma {:induction false} FirstOf(h: Heap, all: seq<Node>, root: Node?, m: Node)
    requires Shape(h, all, root) && m in h
    ensures 0 <= h[m].lo < |all| && all[h[m].lo] in h && h[all[h[m].lo]].left == null && h[all[h[m].lo]].hi <= h[m].hi
    decreases h[m].hi - h[m].lo
  {
    assert Local(h, all, root, m);
    if h[m].left != null {
      assert Local(h, all, root, h[m].left);
      FirstOf(h, all, root, h[m].left);
    }
  }

  lemma {:induction false} LastOf(h: Heap, all: seq<Node>, root: Node?, m: Node)
    requires Shape(h, all, root) && m in h
    ensures 0 < h[m].hi <= |all| && all[h[m].hi - 1] in h && h[all[h[m].hi - 1]].right == null
      && h[m].lo <= h[all[h[m].hi - 1]].lo
    decreases h[m].hi - h[m].lo
  {
    assert Local(h, all, root, m);
    if h[m].right != null {
      assert Local(h, all, root, h[m].right);
      LastOf(h, all, root, h[m].right);
    }
  }

  // The node that takes the place of `n`.
  predicate HasHeir(h: Heap, all: seq<Node>, n: Node) {
    && Family(h, n) && 0 <= h[n].pos < |all|
    && (h[n].right != null ==> h[n].pos + 1 < |all| && RightHeir(h, n, all[h[n].pos + 1]))
    && (h[n].right == null && h[n].left != null ==> 0 < h[n].pos && LeftHeir(h, n, all[h[n].pos - 1]))
  }

  function Heir(h: Heap, all: seq<Node>, n: Node): Node
    requires HasHeir(h, all, n) && (h[n].left != null || h[n].right != null)
  {
    if h[n].right != null then all[h[n].pos + 1] else all[h[n].pos - 1]
  }

  /** st_remove up to the call of st_update. */
  function Cut(h: Heap, all: seq<Node>, root: Node?, n: Node): Tree
    requires HasHeir(h, all, n)
  {
    if h[n].right != null then Tree(TakenRight(h, n, Heir(h, all, n)), if root == n then Heir(h, all, n) else root)
    else if h[n].left != null then Tree(TakenLeft(h, n, Heir(h, all, n)), if root == n then Heir(h, all, n) else root)
    else if root == n then Tree(map[], null)
    else Tree(Dropped(h, n), root)
  }

  // Where st_update starts.
  function Below(h: Heap, all: seq<Node>, root: Node?, n: Node): Node?
    requires HasHeir(h, all, n)
  {
    if h[n].right != null then ReplacedRight(h, n, Heir(h, all, n))[Heir(h, all, n)].right
    else if h[n].left != null then ReplacedLeft(h, n, Heir(h, all, n))[Heir(h, all, n)].left
    else if root == n then null
    else h[n].parent
  }

  lemma CutRight(h: Heap, all: seq<Node>, root: Node?, removed: nat, n: Node)
    requires Shape(h, all, root) && Hints(h, removed) && n in h && h[n].right != null
    ensures HasHeir(h, all, n)
    ensures var t, all' := Cut(h, all, root, n), RemoveAt(all, h[n].pos);
      && Shape(t.h, all', t.root) && Hints(t.h, removed + 1) && t.h.Keys == h.Keys - {n}
        && Known(t.h, Below(h, all, root, n))
      && forall m :: m in h && m != n ==> t.h[m].value == h[m].value
  {
    assert Local(h, all, root, n) && Local(h, all, root, h[n].right);
    FirstOf(h, all, root, h[n].right);
    var r := all[h[n].pos + 1];
    TakenRightShape(h, all, root, removed, n, r);
    ReplacedRightAt(h, n, r, r);
    HasFamily(h, all, root, r);
  }

  lemma CutLeft(h: Heap, all: seq<Node>, root: Node?, removed: nat, n: Node)
    requires Shape(h, all, root) && Hints(h, removed) && n in h && h[n].right == null && h[n].left != null
    ensures HasHeir(h, all, n)
    ensures var t, all' := Cut(h, all, root, n), RemoveAt(all, h[n].pos);
      && Shape(t.h, all', t.root) && Hints(t.h, removed + 1) && t.h.Keys == h.Keys - {n}
        && Known(t.h, Below(h, all, root, n))
      && forall m :: m in h && m != n ==> t.h[m].value == h[m].value
  {
    assert Local(h, all, root, n) && Local(h, all, root, h[n].left);
    LastOf(h, all, root, h[n].left);
    var l := all[h[n].pos - 1];
    TakenLeftShape(h, all, root, removed, n, l);
    ReplacedLeftAt(h, n, l, l);
    HasFamily(h, all, root, l);
  }

  lemma CutLast(h: Heap, all: seq<Node>, root: Node?, n: Node)
    requires Shape(h, all, root) && n in h && h[n].right == null && h[n].left == null && root == n
    ensures h.Keys == {n} && all == [n] && h[n].pos == 0
  {
    assert Local(h, all, root, n);
    forall m | m in h ensures m == n { assert Local(h, all, root, m); }
  }

  /** st_remove deletes exactly `n` from the in-order sequence. */
  lemma CutShape(h: Heap, all: seq<Node>, root: Node?, removed: nat, n: Node)
    requires Shape(h, all, root) && Hints(h, removed) && n in h
    ensures HasHeir(h, all, n)
    ensures var t, all' := Cut(h, all, root, n), RemoveAt(all, h[n].pos);
      && Shape(t.h, all', t.root) && Hints(t.h, removed + 1) && t.h.Keys == h.Keys - {n}
        && Known(t.h, Below(h, all, root, n))
      && forall m :: m in h && m != n ==> t.h[m].value == h[m].value
  {
    HasFamily(h, all, root, n);
    assert Local(h, all, root, n);
    if h[n].right != null { CutRight(h, all, root, removed, n); }
    else if h[n].left != null { CutLeft(h, all, root, removed, n); }
    else if root == n { CutLast(h, all, root, n); }
    else { DroppedShape(h, all, root, removed, n); }
  }
}
