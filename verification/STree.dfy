/** The S-Tree on a mutable heap, linux-2023-summer/quiz1/problem1.c, as a set of integers. */
module STree {
  import opened STreeShape
  import opened STreeEdit
  import opened STreeRemove

  // ---------- writes to one or two nodes ----------

  // `if (p && st_left(p) == n) st_left(p) = c; else if (p) st_right(p) = c;`
  method Relink(p: Node?, n: Node, c: Node?, ghost nodes: set<Node>, ghost h: Heap)
    requires Known(h, p) && Reflects(h, nodes)
    modifies nodes
    ensures Reflects(Relinked(h, p, n, c), nodes)
  {
    if p != null && p.left == n {
      p.left := c;
    } else if p != null {
      p.right := c;
    }
  }

  // `if (x) st_parent(x) = n;`
  method Adopt(x: Node?, n: Node?, ghost nodes: set<Node>, ghost h: Heap)
    requires Known(h, x) && Reflects(h, nodes)
    modifies nodes
    ensures Reflects(Adopted(h, x, n), nodes)
  {
    if x != null {
      x.parent := n;
    }
  }

  // ---------- st_rotate_left, st_rotate_right ----------

  method SwingLeft(n: Node, l: Node, ghost nodes: set<Node>, ghost h: Heap)
    requires Reflects(h, nodes) && TurnsLeft(h, n) && l == n.left
    modifies nodes
    ensures Reflects(SwungLeft(h, n), nodes)
  {
    l.parent := n.parent;
    n.left := l.right;
    n.parent := l;
    l.right := n;
    n.lo, l.hi := l.pos + 1, n.hi;
  }

  method RotateLeft(n: Node, ghost nodes: set<Node>, ghost h: Heap)
    requires Reflects(h, nodes) && TurnsLeft(h, n)
    modifies nodes
    ensures Reflects(RotatedLeft(h, n), nodes)
  {
    var l: Node, p := n.left, n.parent;
    SwingLeft(n, l, nodes, h);
    Relink(p, n, l, nodes, SwungLeft(h, n));
    assert n.left == Relinked(SwungLeft(h, n), p, n, l)[n].left;
    Adopt(n.left, n, nodes, Relinked(SwungLeft(h, n), p, n, l));
  }

  method SwingRight(n: Node, r: Node, ghost nodes: set<Node>, ghost h: Heap)
    requires Reflects(h, nodes) && TurnsRight(h, n) && r == n.right
    modifies nodes
    ensures Reflects(SwungRight(h, n), nodes)
  {
    r.parent := n.parent;
    n.right := r.left;
    n.parent := r;
    r.left := n;
    n.hi, r.lo := r.pos, n.lo;
  }

  method RotateRight(n: Node, ghost nodes: set<Node>, ghost h: Heap)
    requires Reflects(h, nodes) && TurnsRight(h, n)
    modifies nodes
    ensures Reflects(RotatedRight(h, n), nodes)
  {
    var r: Node, p := n.right, n.parent;
    SwingRight(n, r, nodes, h);
    Relink(p, n, r, nodes, SwungRight(h, n));
    assert n.right == Relinked(SwungRight(h, n), p, n, r)[n].right;
    Adopt(n.right, n, nodes, Relinked(SwungRight(h, n), p, n, r));
  }

  // ---------- st_replace_right ----------

  method UnhookLeft(q: Node, r: Node, ghost nodes: set<Node>, ghost h: Heap)
    requires Reflects(h, nodes) && q in h && r in h && Known(h, h[r].right) && h[r].right != q && h[r].right != r
      && q != r
    modifies nodes
    ensures Reflects(UnhookedLeft(h, q, r), nodes)
  {
    if q.left == r {
      q.left := r.right;
      Adopt(r.right, q, nodes, h[q := h[q].(left := h[r].right)]);
    }
  }

  method SeatRight(n: Node, r: Node, p: Node?, ghost nodes: set<Node>, ghost h: Heap)
    requires Reflects(h, nodes) && Family(h, n) && r in h && h[n].right != null && r != n && p == n.parent
      && h[n].right != n
    modifies nodes
    ensures Reflects(SeatedRight(h, n, r), nodes)
  {
    r.parent := p;
    r.left := n.left;

    if n.right != r {
      r.right := n.right;
      n.right.parent := r;
    }
  }

  // `st_parent(rp) = r` when it was n.
  method Reparent(q: Node, n: Node, r: Node, ghost nodes: set<Node>, ghost h: Heap)
    requires Reflects(h, nodes) && q in h
    modifies nodes
    ensures Reflects(Reparented(h, q, n, r), nodes)
  {
    if q.parent == n {
      q.parent := r;
    }
  }

  method ReplaceRight(n: Node, r: Node, ghost nodes: set<Node>, ghost h: Heap)
    requires Reflects(h, nodes) && RightHeir(h, n, r)
    modifies nodes
    ensures Reflects(ReplacedRight(h, n, r), nodes)
  {
    RightSteps(h, n, r);
    var p, q: Node := n.parent, r.parent;
    ghost var h1 := UnhookedLeft(h, q, r);
    UnhookLeft(q, r, nodes, h);
    ghost var h2 := Reparented(h1, q, n, r);
    Reparent(q, n, r, nodes, h1);
    SeatRight(n, r, p, nodes, h2);
    ghost var h3 := SeatedRight(h2, n, r);
    Relink(p, n, r, nodes, h3);
    Adopt(n.left, r, nodes, Relinked(h3, p, n, r));
  }

  // ---------- st_replace_left ----------

  method UnhookRight(q: Node, l: Node, ghost nodes: set<Node>, ghost h: Heap)
    requires Reflects(h, nodes) && q in h && l in h && Known(h, h[l].left) && h[l].left != q && h[l].left != l && q != l
    modifies nodes
    ensures Reflects(UnhookedRight(h, q, l), nodes)
  {
    if q.right == l {
      q.right := l.left;
      Adopt(l.left, q, nodes, h[q := h[q].(right := h[l].left)]);
    }
  }

  method SeatLeft(n: Node, l: Node, p: Node?, ghost nodes: set<Node>, ghost h: Heap)
    requires Reflects(h, nodes) && Family(h, n) && l in h && h[n].left != null && l != n && p == n.parent
      && h[n].left != n
    modifies nodes
    ensures Reflects(SeatedLeft(h, n, l), nodes)
  {
    l.parent := p;
    l.right := n.right;

    if n.left != l {
      l.left := n.left;
      n.left.parent := l;
    }
  }

  method ReplaceLeft(n: Node, l: Node, ghost nodes: set<Node>, ghost h: Heap)
    requires Reflects(h, nodes) && LeftHeir(h, n, l)
    modifies nodes
    ensures Reflects(ReplacedLeft(h, n, l), nodes)
  {
    LeftSteps(h, n, l);
    var p, q: Node := n.parent, l.parent;
    ghost var h1 := UnhookedRight(h, q, l);
    UnhookRight(q, l, nodes, h);
    ghost var h2 := Reparented(h1, q, n, l);
    Reparent(q, n, l, nodes, h1);
    SeatLeft(n, l, p, nodes, h2);
    ghost var h3 := SeatedLeft(h2, n, l);
    Relink(p, n, l, nodes, h3);
    Adopt(n.right, l, nodes, Relinked(h3, p, n, l));
  }

  // ---------- st_first, st_last, problem1.c:59-73 ----------

  /** The first node of the subtree of `n` in the sequence. */
  method First(n: Node, ghost nodes: set<Node>, ghost h: Heap, ghost all: seq<Node>, ghost root: Node?)
    returns (r: Node)
    requires Reflects(h, nodes) && Shape(h, all, root) && n in h
    ensures r in h && h[r].pos == h[n].lo && h[r].left == null && h[r].hi <= h[n].hi
    decreases h[n].hi - h[n].lo
  {
    assert Local(h, all, root, n);
    if n.left == null {
      return n;
    }
    assert Local(h, all, root, h[n].left);
    r := First(n.left, nodes, h, all, root);
  }

  method Last(n: Node, ghost nodes: set<Node>, ghost h: Heap, ghost all: seq<Node>, ghost root: Node?) returns (r: Node)
    requires Reflects(h, nodes) && Shape(h, all, root) && n in h
    ensures r in h && h[r].pos == h[n].hi - 1 && h[r].right == null && h[r].lo >= h[n].lo
    decreases h[n].hi - h[n].lo
  {
    assert Local(h, all, root, n);
    if n.right == null {
      return n;
    }
    assert Local(h, all, root, h[n].right);
    r := Last(n.right, nodes, h, all, root);
  }

  // ---------- st_balance, st_max_hint, problem1.c:111-135 ----------

  method ComputeBalance(n: Node, ghost nodes: set<Node>, ghost h: Heap) returns (b: int)
    requires Reflects(h, nodes) && Family(h, n)
    ensures b == Balance(h, n)
  {
    var l, r := 0, 0;
    if n.left != null {
      l := n.left.hint + 1;
    }
    if n.right != null {
      r := n.right.hint + 1;
    }
    return l - r;
  }

  method ComputeMaxHint(n: Node, ghost nodes: set<Node>, ghost h: Heap) returns (m: int)
    requires Reflects(h, nodes) && Family(h, n)
    ensures m == MaxHint(h, n)
  {
    var l, r := 0, 0;
    if n.left != null {
      l := n.left.hint + 1;
    }
    if n.right != null {
      r := n.right.hint + 1;
    }
    return if l > r then l else r;
  }

  // ---------- positions ----------

  ghost method ShiftSpans(nodes: set<Node>, h: Heap, d: int, a: int, b: int, c: int)
    requires Reflects(h, nodes)
    modifies nodes
    ensures Reflects(Shifted(h, d, a, b, c), nodes)
  {
    ShiftLo(nodes, d, a);
    ShiftPos(nodes, d, b);
    ShiftHi(nodes, d, c);
  }

  ghost method ShiftLo(nodes: set<Node>, d: int, a: int)
    modifies nodes
    ensures forall m {:trigger m in nodes} :: m in nodes ==> m.View() == old(m.View()).(lo := Moved(old(m.lo), d, a))
  {
    forall m | m in nodes { m.lo := Moved(m.lo, d, a); }
  }

  ghost method ShiftPos(nodes: set<Node>, d: int, b: int)
    modifies nodes
    ensures forall m {:trigger m in nodes} :: m in nodes ==> m.View() == old(m.View()).(pos := Moved(old(m.pos), d, b))
  {
    forall m | m in nodes { m.pos := Moved(m.pos, d, b); }
  }

  ghost method ShiftHi(nodes: set<Node>, d: int, c: int)
    modifies nodes
    ensures forall m {:trigger m in nodes} :: m in nodes ==> m.View() == old(m.View()).(hi := Moved(old(m.hi), d, c))
  {
    forall m | m in nodes { m.hi := Moved(m.hi, d, c); }
  }

  // ---------- st_update, problem1.c:137-163; `*root` is passed in and out ----------

  // The rotation.
  method Turn(root: Node?, n: Node, ghost nodes: set<Node>, ghost h: Heap) returns (root': Node?)
    requires Reflects(h, nodes) && AdjustsWell(h, root, n)
    modifies nodes
    ensures Reflects(Turned(h, root, n).h, nodes) && root' == Turned(h, root, n).root
  {
    root' := root;
    var b := ComputeBalance(n, nodes, h);
    if b < -1 {
      if n == root {
        root' := n.right;
      }
      RotateRight(n, nodes, h);
    } else if b > 1 {
      if n == root {
        root' := n.left;
      }
      RotateLeft(n, nodes, h);
    }
  }

  method SetHint(n: Node, hint: int, ghost nodes: set<Node>, ghost h: Heap)
    requires Reflects(h, nodes) && n in h
    modifies n
    ensures Reflects(Hinted(h, n, hint), nodes)
  {
    n.hint := hint;
  }

  // Lines 142-160.
  method Adjust(root: Node?, n: Node, ghost nodes: set<Node>, ghost h: Heap) returns (root': Node?)
    requires Reflects(h, nodes) && AdjustsWell(h, root, n)
    modifies nodes
    ensures Reflects(Adjusted(h, root, n).h, nodes) && root' == Adjusted(h, root, n).root
  {
    root' := Turn(root, n, nodes, h);
    ghost var h1 := Turned(h, root, n).h;
    var hint := ComputeMaxHint(n, nodes, h1);
    SetHint(n, hint, nodes, h1);
  }

  method Update(root: Node?, n: Node?, ghost nodes: set<Node>, ghost h: Heap, ghost all: seq<Node>, ghost removed: nat)
    returns (root': Node?)
    requires Reflects(h, nodes) && Shape(h, all, root) && Hints(h, removed) && Known(h, n)
    modifies nodes
    ensures Reflects(Updated(h, all, root, removed, n).h, nodes) && root' == Updated(h, all, root, removed, n).root
    decreases Above(h, all, n)
  {
    if n == null {
      return root;
    }
    AdjustedShape(h, all, root, removed, n);
    UpdatedParent(h, all, root, removed, n);
    var prevHint, p := n.hint, n.parent;
    root' := Adjust(root, n, nodes, h);
    ghost var t := Adjusted(h, root, n);
    assert n.hint == t.h[n].hint;
    if n.hint == 0 || n.hint != prevHint {
      root' := Update(root', p, nodes, t.h, all, removed);
    }
  }

  // ---------- st_insert, problem1.c:170-182 ----------

  // Lines 175-180.
  method Hang(p: Node, n: Node, d: Dir, ghost nodes: set<Node>, ghost h: Heap)
    requires Reflects(h, nodes) && p in h && n !in nodes && n.left == n.right == null && n.hint == 0
    modifies nodes, n
    ensures Reflects(Inserted(h, p, n, old(n.value), d), nodes + {n})
  {
    ghost var h1 := Roomed(h, p, n, n.value, d);
    n.parent := p;
    MakeRoom(p, n, d, nodes, h);
    HangUnder(p, n, d, nodes + {n}, h1);
  }

  // Positions and spans with room for `n`.
  ghost method MakeRoom(p: Node, n: Node, d: Dir, nodes: set<Node>, h: Heap)
    requires Reflects(h, nodes) && p in h && n !in nodes && n.left == n.right == null && n.hint == 0 && n.parent == p
    modifies nodes, n`lo, n`pos, n`hi
    ensures Reflects(Roomed(h, p, n, n.value, d), nodes + {n})
  {
    ShiftSpans(nodes, h, 1, h[p].pos, Place(h, p, d) - 1, h[p].pos);
    Join(p, n, Place(h, p, d), nodes, Shifted(h, 1, h[p].pos, Place(h, p, d) - 1, h[p].pos));
  }

  ghost method Join(p: Node, n: Node, at: int, nodes: set<Node>, h: Heap)
    requires Reflects(h, nodes) && n !in nodes && n.left == n.right == null && n.hint == 0 && n.parent == p
    modifies n`lo, n`pos, n`hi
    ensures Reflects(Joined(h, p, n, n.value, at), nodes + {n})
  {
    n.lo, n.pos, n.hi := at, at, at + 1;
  }

  method HangUnder(p: Node, n: Node, d: Dir, ghost nodes: set<Node>, ghost h: Heap)
    requires Reflects(h, nodes) && p in h && n in h
    modifies p
    ensures Reflects(Hung(h, p, n, d), nodes)
  {
    if d.LEFT? {
      p.left := n;
    } else {
      p.right := n;
    }
  }

  method Insert(root: Node?, p: Node, n: Node, d: Dir, ghost nodes: set<Node>, ghost h: Heap, ghost all: seq<Node>,
        ghost removed: nat)
    returns (root': Node?)
    requires Reflects(h, nodes) && Shape(h, all, root) && Hints(h, removed)
    requires FreeSlot(h, p, d) && n !in nodes && n.left == n.right == null && n.hint == 0
    modifies nodes, n
    ensures InsertsWell(h, all, root, removed, p, n, old(n.value), d)
    ensures var t := Updated(Inserted(h, p, n, old(n.value), d), InsertAt(all, Place(h, p, d), n), root, removed, n);
      Reflects(t.h, nodes + {n}) && root' == t.root
  {
    ghost var value := n.value;
    InsertedShape(h, all, root, removed, p, n, value, d);
    Hang(p, n, d, nodes, h);
    root' := Update(root, n, nodes + {n}, Inserted(h, p, n, value, d), InsertAt(all, Place(h, p, d), n), removed);
  }

  ghost predicate InsertsWell(h: Heap, all: seq<Node>, root: Node?, removed: nat, p: Node, n: Node, value: int, d: Dir)
  {
    && p in h && 0 <= Place(h, p, d) <= |all|
    && Shape(Inserted(h, p, n, value, d), InsertAt(all, Place(h, p, d), n), root)
      && Hints(Inserted(h, p, n, value, d), removed)
    && n in Inserted(h, p, n, value, d)
  }

  // ---------- st_remove, problem1.c:260-296 ----------

  // Positions and spans once `n` is gone and `r` spans `lo` to `hi`.
  ghost method CloseSpans(n: Node, r: Node, lo: int, hi: int, nodes: set<Node>, h: Heap, a: int, b: int, c: int)
    requires Reflects(h, nodes) && r in h && r != n
    modifies nodes
    ensures Reflects(Closed(h, n, r, lo, hi, a, b, c), nodes - {n})
  {
    assert Reflects(h - {n}, nodes - {n});
    ShiftSpans(nodes - {n}, h - {n}, -1, a, b, c);
    SetSpan(r, lo, hi, nodes - {n}, Shifted(h - {n}, -1, a, b, c));
  }

  ghost method SetSpan(r: Node, lo: int, hi: int, nodes: set<Node>, h: Heap)
    requires Reflects(h, nodes) && r in h
    modifies r
    ensures Reflects(Filled(h, lo, hi, r), nodes)
  {
    r.lo, r.hi := lo, hi;
  }

  // st_replace_right, and the positions after it.
  method TakeRight(n: Node, r: Node, ghost nodes: set<Node>, ghost h: Heap)
    requires Reflects(h, nodes) && RightHeir(h, n, r)
    modifies nodes
    ensures Reflects(TakenRight(h, n, r), nodes - {n})
  {
    TakenRightClosed(h, n, r);
    ReplaceRight(n, r, nodes, h);
    CloseSpans(n, r, h[n].lo, h[n].hi - 1, nodes, ReplacedRight(h, n, r), h[n].pos + 1, h[n].pos, h[n].pos);
  }

  // st_replace_left, and the positions after it.
  method TakeLeft(n: Node, l: Node, ghost nodes: set<Node>, ghost h: Heap)
    requires Reflects(h, nodes) && LeftHeir(h, n, l)
    modifies nodes
    ensures Reflects(TakenLeft(h, n, l), nodes - {n})
  {
    TakenLeftClosed(h, n, l);
    ReplaceLeft(n, l, nodes, h);
    CloseSpans(n, l, h[n].lo, h[n].hi - 1, nodes, ReplacedLeft(h, n, l), h[n].pos, h[n].pos, h[n].pos - 1);
  }

  method Drop(n: Node, ghost nodes: set<Node>, ghost h: Heap)
    requires Reflects(h, nodes) && Family(h, n) && n.parent != null
    modifies nodes
    ensures Reflects(Dropped(h, n), nodes - {n})
  {
    ghost var j := n.pos;
    Relink(n.parent, n, null, nodes, h);
    ShiftSpans(nodes - {n}, Relinked(h, h[n].parent, n, null) - {n}, -1, j, j, j);
  }

  method Remove(root: Node?, del: Node, ghost nodes: set<Node>, ghost h: Heap, ghost all: seq<Node>, ghost removed: nat)
    returns (root': Node?)
    requires Reflects(h, nodes) && Shape(h, all, root) && Hints(h, removed) && del in nodes
    modifies nodes
    ensures CutsWell(h, all, root, removed, del)
    ensures var t := Cut(h, all, root, del);
      var u := Updated(t.h, RemoveAt(all, h[del].pos), t.root, removed + 1, Below(h, all, root, del));
      Reflects(u.h, nodes - {del}) && root' == u.root
  {
    CutShape(h, all, root, removed, del);
    ghost var t, all' := Cut(h, all, root, del), RemoveAt(all, h[del].pos);
    if del.right != null {
      root' := RemoveByRight(root, del, nodes, h, all, removed);
      return;
    }

    if del.left != null {
      root' := RemoveByLeft(root, del, nodes, h, all, removed);
      return;
    }

    if del == root {
      CutLast(h, all, root, del);
      return null;
    }

    assert Local(h, all, root, del);
    var parent := del.parent;
    Drop(del, nodes, h);
    root' := Update(root, parent, nodes - {del}, t.h, all', removed + 1);
  }

  ghost predicate CutsWell(h: Heap, all: seq<Node>, root: Node?, removed: nat, n: Node) {
    HasHeir(h, all, n) &&
    var t, all' := Cut(h, all, root, n), RemoveAt(all, h[n].pos);
    Shape(t.h, all', t.root) && Hints(t.h, removed + 1) && Known(t.h, Below(h, all, root, n))
  }

  // Lines 262-270.
  method RemoveByRight(root: Node?, del: Node, ghost nodes: set<Node>, ghost h: Heap, ghost all: seq<Node>,
        ghost removed: nat)
    returns (root': Node?)
    requires Reflects(h, nodes) && Shape(h, all, root) && CutsWell(h, all, root, removed, del) && del.right != null
    modifies nodes
    ensures var t := Cut(h, all, root, del);
      var u := Updated(t.h, RemoveAt(all, h[del].pos), t.root, removed + 1, Below(h, all, root, del));
      Reflects(u.h, nodes - {del}) && root' == u.root
  {
    var least := First(del.right, nodes, h, all, root);
    assert least == Heir(h, all, del) by { assert Local(h, all, root, del) && Local(h, all, root, least); }
    root' := root;
    if del == root {
      root' := least;
    }
    TakeRight(del, least, nodes, h);
    ghost var t := Cut(h, all, root, del);
    assert least.right == t.h[least].right == Below(h, all, root, del);
    root' := Update(root', least.right, nodes - {del}, t.h, RemoveAt(all, h[del].pos), removed + 1);
  }

  // Lines 272-280.
  method RemoveByLeft(root: Node?, del: Node, ghost nodes: set<Node>, ghost h: Heap, ghost all: seq<Node>,
        ghost removed: nat)
    returns (root': Node?)
    requires Reflects(h, nodes) && Shape(h, all, root) && CutsWell(h, all, root, removed, del) && del.right == null
      && del.left != null
    modifies nodes
    ensures var t := Cut(h, all, root, del);
      var u := Updated(t.h, RemoveAt(all, h[del].pos), t.root, removed + 1, Below(h, all, root, del));
      Reflects(u.h, nodes - {del}) && root' == u.root
  {
    var most := Last(del.left, nodes, h, all, root);
    assert most == Heir(h, all, del) by { assert Local(h, all, root, del) && Local(h, all, root, most); }
    root' := root;
    if del == root {
      root' := most;
    }
    TakeLeft(del, most, nodes, h);
    ghost var t := Cut(h, all, root, del);
    assert most.left == t.h[most].left == Below(h, all, root, del);
    root' := Update(root', most.left, nodes - {del}, t.h, RemoveAt(all, h[del].pos), removed + 1);
  }
}
