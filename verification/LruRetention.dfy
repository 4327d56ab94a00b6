/** Which keys the LRU cache of linux-2022/quiz1/problem3.c holds after a run. */
module LruRetention {
  import opened IntrusiveList
  import opened LruSpec

  /** Operation `t` uses an entry: a put, or a get that finds its key. */
  predicate Uses(ops: seq<Op>, capacity: nat, t: int)
    requires 0 <= t < |ops|
  {
    ops[t].Put? || Find(Exec(ops[..t], capacity), ops[t].key) < |Exec(ops[..t], capacity)|
  }

  /** The last operation that uses the entry of `key`, or -1. */
  function LastTouch(ops: seq<Op>, capacity: nat, key: int): (t: int)
    ensures -1 <= t < |ops| && (t >= 0 ==> ops[t].key == key && Uses(ops, capacity, t))
    ensures forall u :: t < u < |ops| && Uses(ops, capacity, u) ==> ops[u].key != key
    decreases |ops|
  {
    if ops == [] then -1
    else if ops[|ops| - 1].key == key && Uses(ops, capacity, |ops| - 1) then |ops| - 1
    else
      var before := ops[..|ops| - 1];
      var t := LastTouch(before, capacity, key);
      assert forall u :: 0 <= u < |before| ==> before[..u] == ops[..u] && before[u] == ops[u];
      t
  }

  /** The keys used since `key` was. */
  ghost function UsedSince(ops: seq<Op>, capacity: nat, key: int): set<int> {
    set t | LastTouch(ops, capacity, key) < t < |ops| && Uses(ops, capacity, t) :: ops[t].key
  }

  lemma UsesNext(ops: seq<Op>, op: Op, capacity: nat, t: int)
    requires 0 <= t < |ops|
    ensures Uses(ops + [op], capacity, t) == Uses(ops, capacity, t) && (ops + [op])[t] == ops[t]
  {
    assert (ops + [op])[..t] == ops[..t];
  }

  // One more operation.
  lemma UsedSinceNext(ops: seq<Op>, op: Op, capacity: nat, key: int)
    ensures var uses := Uses(ops + [op], capacity, |ops|);
      UsedSince(ops + [op], capacity, key) ==
      if !uses then UsedSince(ops, capacity, key) else if op.key == key then {}
      else UsedSince(ops, capacity, key) + {op.key}
  {
    var next, n := ops + [op], |ops|;
    assert next[..n] == ops;
    var from := LastTouch(next, capacity, key);
    assert from == if op.key == key && Uses(next, capacity, n) then n else LastTouch(ops, capacity, key);
    forall t | 0 <= t < n ensures Uses(next, capacity, t) == Uses(ops, capacity, t) && next[t] == ops[t] {
      UsesNext(ops, op, capacity, t);
    }
    if from < n {
      forall k | k in UsedSince(ops, capacity, key) ensures k in UsedSince(next, capacity, key) {
        var t :| from < t < n && Uses(ops, capacity, t) && ops[t].key == k;
        assert Uses(next, capacity, t) && next[t].key == k;
      }
      if Uses(next, capacity, n) { assert next[n].key in UsedSince(next, capacity, key); }
    }
  }

  // ---------- the keys in front of an entry ----------

  function KeySet(items: seq<Item>): set<int> {
    set i | 0 <= i < |items| :: items[i].key
  }

  lemma KeySetCons(item: Item, rest: seq<Item>)
    ensures KeySet([item] + rest) == {item.key} + KeySet(rest)
  {
    var all := [item] + rest;
    assert all[0] == item && forall i :: 0 <= i < |rest| ==> all[i + 1] == rest[i];
  }

  lemma KeySetCat(s: seq<Item>, t: seq<Item>)
    ensures KeySet(s + t) == KeySet(s) + KeySet(t)
  {
    forall k | k in KeySet(s) + KeySet(t) ensures k in KeySet(s + t) {
      if k in KeySet(s) {
        var i :| 0 <= i < |s| && s[i].key == k;
        assert (s + t)[i].key == k;
      } else {
        var i :| 0 <= i < |t| && t[i].key == k;
        assert (s + t)[|s| + i].key == k;
      }
    }
  }

  lemma {:induction false} KeySetSize(items: seq<Item>)
    requires KeysDiffer(items)
    ensures |KeySet(items)| == |items|
  {
    if items != [] {
      KeySetSize(items[1..]);
      assert items == [items[0]] + items[1..];
      KeySetCons(items[0], items[1..]);
      assert items[0].key !in KeySet(items[1..]);
    }
  }

  // An entry has in front of it exactly the keys used since it was.
  ghost predicate InFront(items: seq<Item>, ops: seq<Op>, capacity: nat, i: int)
    requires 0 <= i < |items|
  {
    UsedSince(ops, capacity, items[i].key) == KeySet(items[..i])
  }

  ghost predicate Ranked(items: seq<Item>, ops: seq<Op>, capacity: nat) {
    && (forall i {:trigger InFront(items, ops, capacity, i)} :: 0 <= i < |items| ==> InFront(items, ops, capacity, i))
    && (forall key {:trigger NoKey(items, key)} :: NoKey(items, key) && LastPut(ops, key) >= 0 ==>
         |UsedSince(ops, capacity, key)| >= capacity)
  }

  // An entry that stays moves behind the one just used.
  lemma MovesBack(items: seq<Item>, ops: seq<Op>, op: Op, capacity: nat, item: Item, i: int, front: seq<Item>)
    requires 0 <= i < |items| && InFront(items, ops, capacity, i) && Uses(ops + [op], capacity, |ops|)
    requires op.key == item.key != items[i].key && KeySet(front) + {item.key} == KeySet(items[..i]) + {item.key}
    ensures UsedSince(ops + [op], capacity, items[i].key) == KeySet([item] + front)
  {
    UsedSinceNext(ops, op, capacity, items[i].key);
    KeySetCons(item, front);
  }

  // What is in front of entry `i` without entry `k`.
  lemma FrontWithout(items: seq<Item>, k: int, i: int)
    requires 0 <= k < |items| && 0 <= i < |items| && i != k
    ensures var front := Without(items, k)[..if i < k then i else i - 1];
      KeySet(front) + {items[k].key} == KeySet(items[..i]) + {items[k].key}
  {
    if i < k {
      assert Without(items, k)[..i] == items[..i];
    } else {
      var left, right := items[..k], items[k + 1..i];
      assert Without(items, k)[..i - 1] == left + right;
      assert items[..i] == left + ([items[k]] + right);
      KeySetCat(left, right);
      KeySetCat(left, [items[k]] + right);
      KeySetCons(items[k], right);
    }
  }

  // A key that is out stays out until it is put.
  lemma StaysOut(items: seq<Item>, ops: seq<Op>, op: Op, capacity: nat, key: int)
    requires Ranked(items, ops, capacity) && NoKey(items, key) && op.key != key && LastPut(ops + [op], key) >= 0
    ensures |UsedSince(ops + [op], capacity, key)| >= capacity
  {
    LastPutBefore(ops, op, key);
    UsedSinceNext(ops, op, capacity, key);
    Grows(UsedSince(ops, capacity, key), op.key);
  }

  lemma LastPutBefore(ops: seq<Op>, op: Op, key: int)
    requires op.key != key || op.Get?
    ensures LastPut(ops + [op], key) == LastPut(ops, key)
  {
    assert (ops + [op])[..|ops|] == ops;
  }

  lemma Grows(s: set<int>, x: int)
    ensures |s + {x}| == if x in s then |s| else |s| + 1
  {
    if x in s { assert s + {x} == s; }
  }

  // A hit on entry `k`: it comes to the front.
  lemma HitInFront(items: seq<Item>, ops: seq<Op>, op: Op, capacity: nat, k: int, item: Item, j: int)
    requires Ranked(items, ops, capacity) && KeysDiffer(items) && Uses(ops + [op], capacity, |ops|)
    requires 0 <= k < |items| && op.key == item.key == items[k].key && 0 <= j < |items|
    ensures InFront([item] + Without(items, k), ops + [op], capacity, j)
  {
    var rest := Without(items, k);
    var all := [item] + rest;
    if j == 0 {
      UsedSinceNext(ops, op, capacity, item.key);
    } else {
      var i := if j - 1 < k then j - 1 else j;
      assert all[j] == items[i] && InFront(items, ops, capacity, i);
      FrontWithout(items, k, i);
      MovesBack(items, ops, op, capacity, item, i, rest[..j - 1]);
      assert all[..j] == [item] + rest[..j - 1];
    }
  }

  lemma HitRanked(items: seq<Item>, ops: seq<Op>, op: Op, capacity: nat, k: int, item: Item)
    requires Ranked(items, ops, capacity) && KeysDiffer(items) && Uses(ops + [op], capacity, |ops|)
    requires 0 <= k < |items| && op.key == item.key == items[k].key
    ensures Ranked([item] + Without(items, k), ops + [op], capacity)
  {
    var all := [item] + Without(items, k);
    forall j | 0 <= j < |all| ensures InFront(all, ops + [op], capacity, j) {
      HitInFront(items, ops, op, capacity, k, item, j);
    }
    forall key | NoKey(all, key) && LastPut(ops + [op], key) >= 0
      ensures |UsedSince(ops + [op], capacity, key)| >= capacity
    {
      StillOut(items, k, item, key);
      StaysOut(items, ops, op, capacity, key);
    }
  }

  lemma StillOut(items: seq<Item>, k: int, item: Item, key: int)
    requires 0 <= k < |items| && item.key == items[k].key && NoKey([item] + Without(items, k), key)
    ensures NoKey(items, key) && item.key != key
  {
    var all := [item] + Without(items, k);
    assert all[0] == item;
    forall i | 0 <= i < |items| ensures items[i].key != key {
      if i != k { assert items[i] == all[if i < k then i + 1 else i]; }
    }
  }

  // A new key goes to the front of the first `n` entries, which are all or all but the last.
  lemma NewInFront(items: seq<Item>, ops: seq<Op>, op: Op, capacity: nat, n: nat, j: int)
    requires Ranked(items, ops, capacity) && op.Put? && NoKey(items, op.key) && n <= |items| && 0 <= j < n + 1
    requires Uses(ops + [op], capacity, |ops|)
    ensures InFront([Item(op.key, op.value)] + items[..n], ops + [op], capacity, j)
  {
    var item := Item(op.key, op.value);
    var all := [item] + items[..n];
    if j == 0 {
      UsedSinceNext(ops, op, capacity, item.key);
    } else {
      assert all[j] == items[j - 1] && InFront(items, ops, capacity, j - 1);
      MovesBack(items, ops, op, capacity, item, j - 1, items[..j - 1]);
      assert all[..j] == [item] + items[..j - 1];
    }
  }

  lemma NewRanked(items: seq<Item>, ops: seq<Op>, op: Op, capacity: nat, n: nat)
    requires Ranked(items, ops, capacity) && KeysDiffer(items) && op.Put? && NoKey(items, op.key)
    requires n == |items| || (n == |items| - 1 && |items| == capacity)
    requires Uses(ops + [op], capacity, |ops|)
    ensures Ranked([Item(op.key, op.value)] + items[..n], ops + [op], capacity)
  {
    var all := [Item(op.key, op.value)] + items[..n];
    forall j | 0 <= j < |all| ensures InFront(all, ops + [op], capacity, j) {
      NewInFront(items, ops, op, capacity, n, j);
    }
    forall key | NoKey(all, key) && LastPut(ops + [op], key) >= 0
      ensures |UsedSince(ops + [op], capacity, key)| >= capacity
    {
      NewOut(items, ops, op, capacity, n, key);
    }
  }

  lemma NewOut(items: seq<Item>, ops: seq<Op>, op: Op, capacity: nat, n: nat, key: int)
    requires Ranked(items, ops, capacity) && KeysDiffer(items) && op.Put? && NoKey(items, op.key)
    requires n == |items| || (n == |items| - 1 && |items| == capacity)
    requires Uses(ops + [op], capacity, |ops|)
    requires NoKey([Item(op.key, op.value)] + items[..n], key) && LastPut(ops + [op], key) >= 0
    ensures |UsedSince(ops + [op], capacity, key)| >= capacity
  {
    if n < |items| && key == items[n].key {
      EvictedRank(items, ops, op, capacity);
    } else {
      NotAmong(items, n, Item(op.key, op.value), key);
      StaysOut(items, ops, op, capacity, key);
    }
  }

  lemma NotAmong(items: seq<Item>, n: nat, item: Item, key: int)
    requires n <= |items| <= n + 1 && NoKey([item] + items[..n], key) && (n < |items| ==> items[n].key != key)
    ensures NoKey(items, key) && item.key != key
  {
    var all := [item] + items[..n];
    assert all[0] == item;
    forall i | 0 <= i < |items| ensures items[i].key != key {
      if i < n { assert all[i + 1] == items[i]; }
    }
  }

  // The last entry of a full cache has been left behind by `capacity` other keys.
  lemma EvictedRank(items: seq<Item>, ops: seq<Op>, op: Op, capacity: nat)
    requires Ranked(items, ops, capacity) && KeysDiffer(items) && |items| == capacity > 0
    requires NoKey(items, op.key) && Uses(ops + [op], capacity, |ops|)
    ensures |UsedSince(ops + [op], capacity, items[capacity - 1].key)| >= capacity
  {
    var n := capacity - 1;
    assert InFront(items, ops, capacity, n);
    UsedSinceNext(ops, op, capacity, items[n].key);
    KeySetSize(items[..n]);
    Grows(KeySet(items[..n]), op.key);
    assert op.key !in KeySet(items[..n]);
  }

  lemma MissRanked(items: seq<Item>, ops: seq<Op>, op: Op, capacity: nat)
    requires Ranked(items, ops, capacity) && op.Get? && !Uses(ops + [op], capacity, |ops|)
    ensures Ranked(items, ops + [op], capacity)
  {
    forall i | 0 <= i < |items| ensures InFront(items, ops + [op], capacity, i) {
      assert InFront(items, ops, capacity, i);
      UsedSinceNext(ops, op, capacity, items[i].key);
    }
    forall key | NoKey(items, key) && LastPut(ops + [op], key) >= 0
      ensures |UsedSince(ops + [op], capacity, key)| >= capacity
    {
      LastPutBefore(ops, op, key);
      UsedSinceNext(ops, op, capacity, key);
    }
  }

  lemma StepRanked(ops: seq<Op>, op: Op, capacity: nat)
    requires capacity > 0 && Ranked(Exec(ops, capacity), ops, capacity) && Good(Exec(ops, capacity), ops, capacity)
    ensures Ranked(Exec(ops + [op], capacity), ops + [op], capacity)
  {
    var items := Exec(ops, capacity);
    assert (ops + [op])[..|ops|] == ops;
    var i := Find(items, op.key);
    if i < |items| {
      HitRanked(items, ops, op, capacity, i, if op.Get? then items[i] else Item(op.key, op.value));
    } else if op.Get? {
      MissRanked(items, ops, op, capacity);
    } else {
      var n := if |items| == capacity then |items| - 1 else |items|;
      NewRanked(items, ops, op, capacity, n);
      if n < |items| { assert Without(items, n) == items[..n]; } else { assert items[..n] == items; }
    }
  }

  lemma {:induction false} ExecRanked(ops: seq<Op>, capacity: nat)
    requires capacity > 0
    ensures Ranked(Exec(ops, capacity), ops, capacity)
    decreases |ops|
  {
    if ops != [] {
      var before := ops[..|ops| - 1];
      ExecRanked(before, capacity);
      LeastRecentlyUsed(before, capacity);
      assert before + [ops[|ops| - 1]] == ops;
      StepRanked(before, ops[|ops| - 1], capacity);
    }
  }

  /** After any operations a key is cached exactly when it was put and fewer than `capacity`
      other keys have been used since it was. */
  lemma CachedExactly(ops: seq<Op>, capacity: nat, key: int)
    requires capacity > 0
    ensures !NoKey(Exec(ops, capacity), key) <==>
      LastPut(ops, key) >= 0 && |UsedSince(ops, capacity, key)| < capacity
  {
    var items := Exec(ops, capacity);
    ExecRanked(ops, capacity);
    LeastRecentlyUsed(ops, capacity);
    if !NoKey(items, key) {
      var i :| 0 <= i < |items| && items[i].key == key;
      assert InFront(items, ops, capacity, i) && Holds(items[i], ops);
      KeySetSize(items[..i]);
    }
  }
}
