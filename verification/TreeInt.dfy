/** `struct treeint`: the S-Tree as a set of integers, linux-2023-summer/quiz1/problem1.c:311-403. */
module TreeInt {
  import opened STreeShape
  import opened STreeEdit
  import opened STreeRemove
  import STree

  /** Values ascend along the in-order sequence. */
  ghost predicate Ascending(h: Heap, all: seq<Node>) {
    forall i, j :: 0 <= i < j < |all| ==> all[i] in h && all[j] in h && h[all[i]].value < h[all[j]].value
  }

  ghost function Values(h: Heap): set<int> {
    set m | m in h :: h[m].value
  }

  // Everything before `lo` is less than `a`, and everything from `hi` on is greater.
  ghost predicate Around(h: Heap, all: seq<Node>, lo: int, hi: int, a: int) {
    forall i :: 0 <= i < |all| ==> all[i] in h && (i < lo ==> h[all[i]].value < a) && (i >= hi ==> h[all[i]].value > a)
  }

  lemma Narrow(h: Heap, all: seq<Node>, root: Node?, n: Node, a: int)
    requires Shape(h, all, root) && Ascending(h, all) && n in h && Around(h, all, h[n].lo, h[n].hi, a)
    ensures h[n].value < a ==> Around(h, all, h[n].pos + 1, h[n].hi, a)
    ensures a < h[n].value ==> Around(h, all, h[n].lo, h[n].pos, a)
    ensures Local(h, all, root, n)
  {
    assert Local(h, all, root, n);
  }

  lemma NotIn(h: Heap, all: seq<Node>, root: Node?, at: int, a: int)
    requires Shape(h, all, root) && Around(h, all, at, at, a)
    ensures a !in Values(h)
  {
    forall m | m in h ensures h[m].value != a {
      assert Local(h, all, root, m);
      assert all[h[m].pos] == m;
    }
  }

  function Valued(h: Heap, n: Node, value: int): Heap
    requires n in h
  {
    h[n := h[n].(value := value)]
  }

  lemma ValuedShape(h: Heap, all: seq<Node>, root: Node?, removed: nat, n: Node, value: int)
    requires Shape(h, all, root) && Hints(h, removed) && n in h
    ensures Shape(Valued(h, n, value), all, root) && Hints(Valued(h, n, value), removed)
  {
    var h' := Valued(h, n, value);
    forall m | m in h' ensures Local(h', all, root, m) && HintOf(h', removed, m) {
      assert Local(h, all, root, m) && HintOf(h, removed, m);
    }
  }

  // `h'` holds the nodes of `h`, with their values, and `n` with value `a`.
  ghost predicate Gains(h: Heap, h': Heap, n: Node, a: int) {
    && n !in h && h'.Keys == h.Keys + {n} && h'[n].value == a && forall m :: m in h ==> h'[m].value == h[m].value
  }

  lemma GainsAscending(h: Heap, h': Heap, all: seq<Node>, at: int, n: Node, a: int)
    requires Ascending(h, all) && Gains(h, h', n, a) && 0 <= at <= |all| && Around(h, all, at, at, a)
    ensures Ascending(h', InsertAt(all, at, n)) && Values(h') == Values(h) + {a}
  {
    var all' := InsertAt(all, at, n);
    forall i, j | 0 <= i < j < |all'| ensures all'[i] in h' && all'[j] in h' && h'[all'[i]].value < h'[all'[j]].value {
      if i < at { assert all'[i] == all[i]; } else if i > at { assert all'[i] == all[i - 1]; }
      if j < at { assert all'[j] == all[j]; } else if j > at { assert all'[j] == all[j - 1]; }
    }
    forall v | v in Values(h) + {a} ensures v in Values(h') {
      if v != a { var m :| m in h && h[m].value == v; assert h'[m].value == v; }
    }
  }

  // The nodes and `*root` after st_insert, and after st_remove.
  ghost function Grown(h: Heap, all: seq<Node>, root: Node?, removed: nat, p: Node, n: Node, d: Dir): Tree
    requires STree.InsertsWell(h, all, root, removed, p, n, 0, d)
  {
    Updated(Inserted(h, p, n, 0, d), InsertAt(all, Place(h, p, d), n), root, removed, n)
  }

  ghost function Shrunk(h: Heap, all: seq<Node>, root: Node?, removed: nat, n: Node): Tree
    requires STree.CutsWell(h, all, root, removed, n)
  {
    var t := Cut(h, all, root, n);
    Updated(t.h, RemoveAt(all, h[n].pos), t.root, removed + 1, Below(h, all, root, n))
  }

  /** st_insert of `n`, then its value: the set gains it, and the tree is well-formed. */
  lemma GrownShape(h: Heap, all: seq<Node>, root: Node?, removed: nat, p: Node, n: Node, d: Dir, a: int)
    requires Shape(h, all, root) && Hints(h, removed) && Ascending(h, all) && FreeSlot(h, p, d) && n !in h
    requires Around(h, all, Place(h, p, d), Place(h, p, d), a)
    ensures STree.InsertsWell(h, all, root, removed, p, n, 0, d)
    ensures var t, all' := Grown(h, all, root, removed, p, n, d), InsertAt(all, Place(h, p, d), n);
      n in t.h && t.h.Keys == h.Keys + {n} &&
      var h' := Valued(t.h, n, a);
      Shape(h', all', t.root) && Hints(h', removed) && Ascending(h', all') && Values(h') == Values(h) + {a}
  {
    InsertedShape(h, all, root, removed, p, n, 0, d);
    var t, all' := Grown(h, all, root, removed, p, n, d), InsertAt(all, Place(h, p, d), n);
    ValuedShape(t.h, all', t.root, removed, n, a);
    GainsAscending(h, Valued(t.h, n, a), all, Place(h, p, d), n, a);
  }

  /** The first node of an empty tree. */
  function Planted(n: Node, value: int): Heap {
    map[n := Links(0, null, null, null, value, 0, 0, 1)]
  }

  lemma PlantedShape(n: Node, value: int, removed: nat)
    ensures Shape(Planted(n, value), [n], n) && Hints(Planted(n, value), removed) && Ascending(Planted(n, value), [n])
    ensures Values(Planted(n, value)) == {value}
  {
    var h := Planted(n, value);
    assert Values(h) == {value} by { assert n in h && h[n].value == value; }
  }

  // `h'` holds the nodes of `h` except `n`, with their values.
  ghost predicate Loses(h: Heap, h': Heap, n: Node) {
    n in h && h'.Keys == h.Keys - {n} && forall m :: m in h' ==> h'[m].value == h[m].value
  }

  lemma LosesAscending(h: Heap, h': Heap, all: seq<Node>, root: Node?, n: Node)
    requires Shape(h, all, root) && Ascending(h, all) && Loses(h, h', n) && 0 <= h[n].pos < |all|
    ensures Ascending(h', RemoveAt(all, h[n].pos)) && Values(h') == Values(h) - {h[n].value}
  {
    var at := h[n].pos;
    var all' := RemoveAt(all, at);
    forall i, j | 0 <= i < j < |all'| ensures all'[i] in h' && all'[j] in h' && h'[all'[i]].value < h'[all'[j]].value {
      assert h[all'[i]].pos == if i < at then i else i + 1;
      assert h[all'[j]].pos == if j < at then j else j + 1;
    }
    forall m | m in h && m != n ensures h[m].value != h[n].value {
      assert Local(h, all, root, m) && Local(h, all, root, n);
      assert all[h[m].pos] == m && all[h[n].pos] == n;
    }
    forall v | v in Values(h) - {h[n].value} ensures v in Values(h') {
      var m :| m in h && h[m].value == v;
      assert h'[m].value == v;
    }
  }

  /** st_remove of `n`: the set loses its value, and the tree is well-formed. */
  lemma ShrunkShape(h: Heap, all: seq<Node>, root: Node?, removed: nat, n: Node)
    requires Shape(h, all, root) && Hints(h, removed) && Ascending(h, all) && n in h
    ensures STree.CutsWell(h, all, root, removed, n)
    ensures var t, all' := Shrunk(h, all, root, removed, n), RemoveAt(all, h[n].pos);
      && Shape(t.h, all', t.root) && Hints(t.h, removed + 1) && Ascending(t.h, all') && t.h.Keys == h.Keys - {n}
      && Values(t.h) == Values(h) - {h[n].value}
  {
    CutShape(h, all, root, removed, n);
    LosesAscending(h, Shrunk(h, all, root, removed, n).h, all, root, n);
  }

  /** Every hint is below the number of insertions made so far, so a 16-bit `short` holds it
      for the first 2^15 insertions. */
  lemma HintBound(h: Heap, all: seq<Node>, root: Node?, removed: nat, n: Node)
    requires Shape(h, all, root) && Hints(h, removed) && n in h
    ensures 0 <= h[n].hint < |all| + removed
  {
    assert Local(h, all, root, n) && HintOf(h, removed, n);
  }

  lemma InSequence(h: Heap, all: seq<Node>, root: Node?, m: Node)
    requires Shape(h, all, root) && m in h
    ensures 0 <= h[m].pos < |all|
  {
    assert Local(h, all, root, m);
  }

  lemma EmptyTree(h: Heap, all: seq<Node>)
    requires Shape(h, all, null)
    ensures h == map[] && all == []
  {
    if m :| m in h {
      InSequence(h, all, null, m);
      assert false;
    }
  }

  // st_insert, then line 373.
  method AddNode(root: Node?, p: Node, n: Node, d: Dir, a: int, ghost nodes: set<Node>, ghost h: Heap,
        ghost all: seq<Node>, ghost removed: nat)
    returns (root': Node?)
    requires Reflects(h, nodes) && Shape(h, all, root) && Hints(h, removed)
    requires FreeSlot(h, p, d) && n !in nodes && n.left == n.right == null && n.hint == 0 && n.value == 0
    modifies nodes, n
    ensures STree.InsertsWell(h, all, root, removed, p, n, 0, d)
    ensures var t := Grown(h, all, root, removed, p, n, d);
      n in t.h && Reflects(Valued(t.h, n, a), nodes + {n}) && root' == t.root
  {
    root' := STree.Insert(root, p, n, d, nodes, h, all, removed);
    SetValue(n, a, nodes + {n}, Grown(h, all, root, removed, p, n, d).h);
  }

  method RemoveNode(root: Node?, n: Node, ghost nodes: set<Node>, ghost h: Heap, ghost all: seq<Node>,
        ghost removed: nat)
    returns (root': Node?)
    requires Reflects(h, nodes) && Shape(h, all, root) && Hints(h, removed) && n in nodes
    modifies nodes
    ensures STree.CutsWell(h, all, root, removed, n)
    ensures var t := Shrunk(h, all, root, removed, n); Reflects(t.h, nodes - {n}) && root' == t.root
  {
    root' := STree.Remove(root, n, nodes, h, all, removed);
  }

  method SetValue(n: Node, a: int, ghost nodes: set<Node>, ghost h: Heap)
    requires Reflects(h, nodes) && n in h
    modifies n`value
    ensures Reflects(Valued(h, n, a), nodes)
  {
    n.value := a;
  }

  /** The static `tree`.  The ghost fields record its nodes, their in-order sequence, and how
      many were removed so far. */
  class TreeInt {
    var root: Node?
    ghost var nodes: set<Node>
    ghost var h: Heap
    ghost var all: seq<Node>
    ghost var removed: nat

    ghost predicate Valid()
      reads this, nodes
    {
      Reflects(h, nodes) && Shape(h, all, root) && Hints(h, removed) && Ascending(h, all)
    }

    /** The set of integers the tree stands for. */
    ghost function Contents(): set<int>
      reads this
    {
      Values(h)
    }

    /** treeint_init. */
    constructor ()
      ensures Valid() && Contents() == {} && nodes == {} && removed == 0
    {
      root, nodes, h, all, removed := null, {}, map[], [], 0;
    }

    /** treeint_find, problem1.c:377-392. */
    method Find(a: int) returns (t: Node?)
      requires Valid()
      ensures a in Contents() <==> t != null
      ensures t != null ==> t in nodes && t.value == a
    {
      var n := root;
      ghost var lo, hi := 0, |all|;
      while n != null
        invariant Around(h, all, lo, hi, a) && lo <= hi
        invariant if n == null then lo == hi else n in h && lo == h[n].lo && hi == h[n].hi
        decreases hi - lo, n != null
      {
        Narrow(h, all, root, n, a);
        if a == n.value {
          return n;
        }
        if a < n.value {
          hi := n.pos;
          n := n.left;
        } else {
          lo := n.pos + 1;
          n := n.right;
        }
      }
      NotIn(h, all, root, lo, a);
      return null;
    }

    // The loop of treeint_insert, problem1.c:349-365.
    method Search(a: int) returns (t: Node?, p: Node?, d: Dir)
      requires Valid()
      ensures t != null ==> t in h && h[t].value == a
      ensures t != null <==> a in Contents()
      ensures t == null && root != null ==>
        p != null && FreeSlot(h, p, d) && Around(h, all, Place(h, p, d), Place(h, p, d), a)
    {
      var n := root;
      p, d := null, LEFT;
      ghost var lo, hi := 0, |all|;
      while n != null
        invariant Around(h, all, lo, hi, a) && lo <= hi
        invariant if n == null then lo == hi else n in h && lo == h[n].lo && hi == h[n].hi
        invariant p == null ==> n == root
        invariant p != null ==> p in h && (n == null ==> FreeSlot(h, p, d) && lo == Place(h, p, d))
        decreases hi - lo, n != null
      {
        Narrow(h, all, root, n, a);
        if a == n.value {
          return n, p, d;
        }
        p := n;
        if a < n.value {
          hi := n.pos;
          n := n.left;
          d := LEFT;
        } else {
          lo := n.pos + 1;
          n := n.right;
          d := RIGHT;
        }
      }
      NotIn(h, all, root, lo, a);
      return null, p, d;
    }

    ghost predicate Holds(root': Node?, nodes': set<Node>, h': Heap, all': seq<Node>, removed': nat)
      reads this
    {
      root == root' && nodes == nodes' && h == h' && all == all' && removed == removed'
    }

    method Become(root': Node?, ghost nodes': set<Node>, ghost h': Heap, ghost all': seq<Node>, ghost removed': nat)
      requires Reflects(h', nodes') && Shape(h', all', root') && Hints(h', removed') && Ascending(h', all')
      modifies this
      ensures Valid() && Holds(root', nodes', h', all', removed')
    {
      root, nodes, h, all, removed := root', nodes', h', all', removed';
    }

    /** treeint_insert, problem1.c:347-375. */
    method Insert(a: int) returns (t: Node)
      requires Valid()
      modifies this, nodes
      ensures Valid() && Contents() == old(Contents()) + {a} && t in nodes && t.value == a
      ensures a in old(Contents()) ==> Holds(old(root), old(nodes), old(h), old(all), old(removed))
      ensures a !in old(Contents()) ==> |all| == |old(all)| + 1 && fresh(t) && nodes == old(nodes) + {t}
      ensures removed == old(removed)
    {
      var found, p, d := Search(a);
      if found != null {
        return found;
      }
      t := new Node();
      if root != null {
        AddUnder(p, t, d, a);
      } else {
        AddFirst(t, a);
      }
    }

    method AddUnder(p: Node, t: Node, d: Dir, a: int)
      requires Valid() && FreeSlot(h, p, d) && Around(h, all, Place(h, p, d), Place(h, p, d), a)
      requires t !in nodes && t.left == t.right == null && t.hint == 0 && t.value == 0
      modifies this, nodes, t
      ensures Valid() && Contents() == old(Contents()) + {a} && t.value == a && nodes == old(nodes) + {t}
      ensures |all| == |old(all)| + 1 && removed == old(removed)
    {
      GrownShape(h, all, root, removed, p, t, d, a);
      ghost var g := Grown(h, all, root, removed, p, t, d);
      var root' := AddNode(root, p, t, d, a, nodes, h, all, removed);
      Become(root', nodes + {t}, Valued(g.h, t, a), InsertAt(all, Place(h, p, d), t), removed);
    }

    method AddFirst(t: Node, a: int)
      requires Valid() && root == null
      requires t.left == t.right == t.parent == null && t.hint == 0
      modifies this, t
      ensures Valid() && Contents() == old(Contents()) + {a} && t.value == a && nodes == old(nodes) + {t}
      ensures |all| == |old(all)| + 1 && removed == old(removed)
    {
      EmptyTree(h, all);
      PlantedShape(t, a, removed);
      t.value := a;
      t.lo, t.pos, t.hi := 0, 0, 1;
      Become(t, {t}, Planted(t, a), [t], removed);
    }

    method TakeOut(n: Node)
      requires Valid() && n in nodes
      modifies this, nodes
      ensures Valid() && Contents() == old(Contents()) - {old(n.value)}
      ensures |all| == |old(all)| - 1 && removed == old(removed) + 1 && nodes == old(nodes) - {n}
    {
      ShrunkShape(h, all, root, removed, n);
      ghost var g := Shrunk(h, all, root, removed, n);
      var root' := RemoveNode(root, n, nodes, h, all, removed);
      Become(root', nodes - {n}, g.h, RemoveAt(all, h[n].pos), removed + 1);
    }

    /** treeint_remove, problem1.c:394-403: -1 when `a` is not in the set. */
    method Remove(a: int) returns (r: int)
      requires Valid()
      modifies this, nodes
      ensures Valid() && Contents() == old(Contents()) - {a}
      ensures if a in old(Contents()) then r == 0
        else r == -1 && Holds(old(root), old(nodes), old(h), old(all), old(removed))
      ensures a in old(Contents()) ==> |all| == |old(all)| - 1 && removed == old(removed) + 1 && nodes < old(nodes)
    {
      var n := Find(a);
      if n == null {
        return -1;
      }
      TakeOut(n);
      return 0;
    }
  }
}
