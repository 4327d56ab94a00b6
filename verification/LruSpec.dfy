/** What the LRU cache of linux-2022/quiz1/problem3.c does, on the list of its entries, most
    recently used first. */
module LruSpec {
  import opened IntrusiveList

  datatype Item = Item(key: int, value: int)
  datatype Op = Get(key: int) | Put(key: int, value: int)

  ghost predicate KeysDiffer(items: seq<Item>) {
    forall i, j :: 0 <= i < j < |items| ==> items[i].key != items[j].key
  }

  /** Where `key` is, or the length. */
  function Find(items: seq<Item>, key: int): (i: nat)
    ensures i <= |items| && (i < |items| ==> items[i].key == key)
    ensures forall j :: 0 <= j < i ==> items[j].key != key
  {
    if items == [] || items[0].key == key then 0
    else
      var i := Find(items[1..], key);
      assert forall j :: 1 <= j < i + 1 ==> items[j] == items[1..][j - 1];
      i + 1
  }

  function Front(items: seq<Item>, i: int, item: Item): seq<Item>
    requires 0 <= i < |items|
  {
    [item] + Without(items, i)
  }

  /** lRUCacheGet: a hit moves to the front; a miss answers -1 and changes nothing. */
  function AfterGet(items: seq<Item>, key: int): seq<Item> {
    var i := Find(items, key);
    if i < |items| then Front(items, i, items[i]) else items
  }

  function GetResult(items: seq<Item>, key: int): int {
    var i := Find(items, key);
    if i < |items| then items[i].value else -1
  }

  /** lRUCachePut: an update moves to the front; a new key goes to the front, in the place of
      the last entry when the cache is full. */
  function AfterPut(items: seq<Item>, key: int, value: int, capacity: nat): seq<Item> {
    var i := Find(items, key);
    if i < |items| then Front(items, i, Item(key, value))
    else if |items| == capacity && |items| > 0 then [Item(key, value)] + Without(items, |items| - 1)
    else [Item(key, value)] + items
  }

  function Apply(items: seq<Item>, op: Op, capacity: nat): seq<Item> {
    if op.Get? then AfterGet(items, op.key) else AfterPut(items, op.key, op.value, capacity)
  }

  function Exec(ops: seq<Op>, capacity: nat): seq<Item>
    decreases |ops|
  {
    if ops == [] then [] else Apply(Exec(ops[..|ops| - 1], capacity), ops[|ops| - 1], capacity)
  }

  /** The last operation that names `key`, or -1. */
  function LastUse(ops: seq<Op>, key: int): (t: int)
    ensures -1 <= t < |ops| && (t >= 0 ==> ops[t].key == key) && forall u :: t < u < |ops| ==> ops[u].key != key
    decreases |ops|
  {
    if ops == [] then -1
    else if ops[|ops| - 1].key == key then |ops| - 1
    else
      var t := LastUse(ops[..|ops| - 1], key);
      assert forall u :: 0 <= u < |ops| - 1 ==> ops[u] == ops[..|ops| - 1][u];
      t
  }

  /** The last put of `key`, or -1. */
  function LastPut(ops: seq<Op>, key: int): (t: int)
    ensures -1 <= t < |ops| && (t >= 0 ==> ops[t].Put? && ops[t].key == key)
    ensures forall u :: t < u < |ops| ==> !(ops[u].Put? && ops[u].key == key)
    decreases |ops|
  {
    if ops == [] then -1
    else if ops[|ops| - 1].Put? && ops[|ops| - 1].key == key then |ops| - 1
    else
      var t := LastPut(ops[..|ops| - 1], key);
      assert forall u :: 0 <= u < |ops| - 1 ==> ops[u] == ops[..|ops| - 1][u];
      t
  }

  // Entries are ordered by their last use, and hold the value last put.
  ghost predicate ByLastUse(items: seq<Item>, ops: seq<Op>) {
    && (forall i, j :: 0 <= i < j < |items| ==> LastUse(ops, items[i].key) > LastUse(ops, items[j].key))
    && (forall i :: 0 <= i < |items| ==> Holds(items[i], ops))
  }

  predicate Holds(item: Item, ops: seq<Op>) {
    var t := LastPut(ops, item.key);
    t >= 0 && ops[t].value == item.value
  }

  lemma LastUseNext(ops: seq<Op>, op: Op, key: int)
    ensures LastUse(ops + [op], key) == if op.key == key then |ops| else LastUse(ops, key)
  {
    assert (ops + [op])[..|ops|] == ops;
  }

  lemma HoldsNext(item: Item, ops: seq<Op>, op: Op)
    ensures op.Put? && op.key == item.key ==> (Holds(item, ops + [op]) <==> op.value == item.value)
    ensures !(op.Put? && op.key == item.key) ==> (Holds(item, ops + [op]) <==> Holds(item, ops))
  {
    assert (ops + [op])[..|ops|] == ops;
  }

  // ---------- what an operation keeps ----------

  ghost predicate Good(items: seq<Item>, ops: seq<Op>, capacity: nat) {
    KeysDiffer(items) && ByLastUse(items, ops) && |items| <= capacity
  }

  ghost predicate NoKey(items: seq<Item>, key: int) {
    forall i :: 0 <= i < |items| ==> items[i].key != key
  }

  lemma WithoutGood(items: seq<Item>, ops: seq<Op>, k: int)
    requires 0 <= k < |items| && KeysDiffer(items) && ByLastUse(items, ops)
    ensures KeysDiffer(Without(items, k)) && ByLastUse(Without(items, k), ops) && NoKey(Without(items, k), items[k].key)
  {
    var rest := Without(items, k);
    assert forall i :: 0 <= i < |rest| ==> rest[i] == items[if i < k then i else i + 1];
  }

  lemma ConsGood(rest: seq<Item>, ops: seq<Op>, op: Op, item: Item)
    requires KeysDiffer(rest) && ByLastUse(rest, ops) && NoKey(rest, item.key) && op.key == item.key
    requires Holds(item, ops + [op])
    ensures KeysDiffer([item] + rest) && ByLastUse([item] + rest, ops + [op])
  {
    var all, ops' := [item] + rest, ops + [op];
    assert forall i :: 1 <= i < |all| ==> all[i] == rest[i - 1];
    LastUseNext(ops, op, item.key);
    forall i | 0 <= i < |rest| ensures LastUse(ops', rest[i].key) == LastUse(ops, rest[i].key) && Holds(rest[i], ops') {
      LastUseNext(ops, op, rest[i].key);
      HoldsNext(rest[i], ops, op);
      assert Holds(rest[i], ops);
    }
  }

  // A missing key leaves the order alone.
  lemma MissGood(items: seq<Item>, ops: seq<Op>, op: Op)
    requires KeysDiffer(items) && ByLastUse(items, ops) && NoKey(items, op.key)
    ensures ByLastUse(items, ops + [op])
  {
    forall i | 0 <= i < |items|
      ensures LastUse(ops + [op], items[i].key) == LastUse(ops, items[i].key) && Holds(items[i], ops + [op])
    {
      LastUseNext(ops, op, items[i].key);
      HoldsNext(items[i], ops, op);
      assert Holds(items[i], ops);
    }
  }

  lemma GetGood(items: seq<Item>, ops: seq<Op>, key: int, capacity: nat)
    requires Good(items, ops, capacity)
    ensures Good(AfterGet(items, key), ops + [Get(key)], capacity)
  {
    var i := Find(items, key);
    if i < |items| {
      WithoutGood(items, ops, i);
      HoldsNext(items[i], ops, Get(key));
      assert Holds(items[i], ops);
      ConsGood(Without(items, i), ops, Get(key), items[i]);
    } else {
      MissGood(items, ops, Get(key));
    }
  }

  lemma PutGood(items: seq<Item>, ops: seq<Op>, key: int, value: int, capacity: nat)
    requires Good(items, ops, capacity) && capacity > 0
    ensures Good(AfterPut(items, key, value, capacity), ops + [Put(key, value)], capacity)
  {
    var i, item, op := Find(items, key), Item(key, value), Put(key, value);
    HoldsNext(item, ops, op);
    if i < |items| {
      WithoutGood(items, ops, i);
      ConsGood(Without(items, i), ops, op, item);
    } else if |items| == capacity {
      var k := |items| - 1;
      WithoutGood(items, ops, k);
      assert forall j :: 0 <= j < k ==> Without(items, k)[j] == items[j];
      ConsGood(Without(items, k), ops, op, item);
    } else {
      ConsGood(items, ops, op, item);
    }
  }

  /** After any operations the cache holds at most `capacity` entries, with different keys, the
      values last put, and in the order of their last use: the entry that a put evicts is the
      least recently used. */
  lemma {:induction false} LeastRecentlyUsed(ops: seq<Op>, capacity: nat)
    requires capacity > 0
    ensures Good(Exec(ops, capacity), ops, capacity)
    decreases |ops|
  {
    if ops != [] {
      var before, op := ops[..|ops| - 1], ops[|ops| - 1];
      LeastRecentlyUsed(before, capacity);
      assert before + [op] == ops;
      if op.Get? { GetGood(Exec(before, capacity), before, op.key, capacity); }
      else { PutGood(Exec(before, capacity), before, op.key, op.value, capacity); }
    }
  }

  lemma WithoutMember(items: seq<Item>, k: int, x: Item)
    requires KeysDiffer(items) && 0 <= k < |items|
    ensures x in Without(items, k) <==> x in items && x != items[k]
  {
    var rest := Without(items, k);
    assert forall i :: 0 <= i < |rest| ==> rest[i] == items[if i < k then i else i + 1];
    if x in items && x != items[k] {
      var i :| 0 <= i < |items| && items[i] == x;
      assert rest[if i < k then i else i - 1] == x;
    }
  }

  /** After a put the key has the new value; a new key in a full cache drops exactly the last
      entry, and no other put drops any. */
  lemma PutEvictsLast(items: seq<Item>, key: int, value: int, capacity: nat, other: Item)
    requires KeysDiffer(items) && |items| <= capacity && capacity > 0 && other.key != key
    ensures var items' := AfterPut(items, key, value, capacity); items'[0] == Item(key, value)
    ensures other in AfterPut(items, key, value, capacity) <==>
      other in items && !(NoKey(items, key) && |items| == capacity && other == items[|items| - 1])
  {
    var i := Find(items, key);
    if i < |items| { WithoutMember(items, i, other); }
    else if |items| == capacity { WithoutMember(items, |items| - 1, other); }
  }

  /** A get answers the value of the key if the cache holds it, and drops nothing. */
  lemma GetFinds(items: seq<Item>, key: int, other: Item)
    requires KeysDiffer(items)
    ensures other in AfterGet(items, key) <==> other in items
    ensures other in items && other.key == key ==>
      GetResult(items, key) == other.value && AfterGet(items, key)[0] == other
    ensures NoKey(items, key) ==> GetResult(items, key) == -1
  {
    var i := Find(items, key);
    if i < |items| { WithoutMember(items, i, other); }
  }
}
