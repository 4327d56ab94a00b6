/** What every schedule of the ring on unbounded indices keeps. */
module LockFreeRingSafety {
  import opened RingWords
  import opened LockFreeRing

  // ---------- slots ----------

  /** The newest index below `frontier` that shares the slot of `x`. */
  function Latest(size: nat, frontier: int, x: int): (j: int)
    requires size > 0
    ensures frontier - size <= j < frontier
  {
    frontier - 1 - (frontier - 1 - x) % size
  }

  lemma LatestSlot(size: nat, frontier: int, x: int)
    requires size > 0
    ensures Latest(size, frontier, x) % size == x % size
    ensures frontier - size <= x < frontier ==> Latest(size, frontier, x) == x
    ensures x == frontier ==> Latest(size, frontier, x) == frontier - size
    ensures x < frontier - size ==> Latest(size, frontier, x) >= x + size
  {
    var y := frontier - 1 - x;
    var q, r := y / size, y % size;
    assert y == q * size + r;
    assert Latest(size, frontier, x) == x + q * size;
    assert x == (x / size) * size + x % size;
    assert x + q * size == (x / size + q) * size + x % size;
    ModUnique(x + q * size, size, x / size + q, x % size);
    if frontier - size <= x < frontier { ModUnique(y, size, 0, y); }
    if x == frontier { ModUnique(y, size, -1, size - 1); }
    MulApart(q, size);
  }

  // ---------- the shared state ----------

  /** The indices written form one gap-free prefix, of which the last `size` fill the ring. */
  predicate SharedInv(c: Config, s: State) {
    && |s.ring| == c.size > 0 && c.width.Unbounded?
    && 0 <= s.head <= s.tail <= |s.written| <= s.head + c.size
    && s.read == s.written[..s.head]
    && (forall i :: |s.written| - c.size <= i < |s.written| ==> At(c, s.ring, i).idx == i)
    && (forall i :: s.head <= i < |s.written| ==> At(c, s.ring, i).ptr == s.written[i])
  }

  lemma SlotIdx(c: Config, s: State, x: int)
    requires SharedInv(c, s)
    ensures |s.written| - c.size <= x < |s.written| ==> At(c, s.ring, x).idx == x
    ensures x == |s.written| ==> At(c, s.ring, x).idx == x - c.size
    ensures x < |s.written| - c.size ==> At(c, s.ring, x).idx >= x + c.size
  {
    LatestSlot(c.size, |s.written|, x);
    assert At(c, s.ring, Latest(c.size, |s.written|, x)) == At(c, s.ring, x);
  }

  // Writing the slot of the frontier disturbs no index still in use.
  lemma FrontierSlot(c: Config, s: State, slot: Slot)
    requires SharedInv(c, s)
    ensures var ring' := s.ring[|s.written| % c.size := slot];
      && At(c, ring', |s.written|) == slot
      && forall i :: |s.written| - c.size < i < |s.written| ==> At(c, ring', i) == At(c, s.ring, i)
  {
    var w := |s.written|;
    forall i | w - c.size < i < w ensures i % c.size != w % c.size {
      LatestSlot(c.size, w, i);
      LatestSlot(c.size, w, w);
      DistinctSlots(c.size, i, w);
    }
  }

  lemma DistinctSlots(size: nat, i: int, j: int)
    requires size > 0 && i < j < i + size
    ensures i % size != j % size
  {
    assert i == (i / size) * size + i % size && j == (j / size) * size + j % size;
    MulApart(j / size - i / size, size);
    assert (j / size - i / size) * size == (j / size) * size - (i / size) * size;
  }

  // ---------- one thread ----------

  // `head` was loaded from the ring; a single consumer knows that it is still current.
  predicate HeadSeen(c: Config, s: State, head: int) {
    0 <= head <= s.head && (c.sc ==> head == s.head)
  }

  predicate AfterInv(c: Config, s: State, neu: int, after: After) {
    match after
    case AfterEnqueue(want, count, full) => count <= want && (count < want ==> full)
    case AfterScan(want, head, stop, empty) =>
      && HeadSeen(c, s, head)
      && stop == neu && (neu == head ==> empty || s.head > neu)
  }

  // `buf` holds the elements at `head` onwards, as long as nobody has dequeued them.
  predicate Copied(s: State, head: int, buf: seq<Elem>) {
    0 <= head && head + |buf| <= |s.written| && (s.head == head ==> buf == s.written[head..head + |buf|])
  }

  predicate PcInv(c: Config, s: State, pc: Pc)
    requires |s.ring| == c.size > 0
  {
    var w := |s.written|;
    match pc
    case Idle => true
    case Failed => false
    case EnqTail(_) => true
    case SpHead(_, tail) => c.sp && tail == s.tail == w
    case SpPtr(elems, tail, i, actual) =>
      c.sp && i < actual <= |elems| && tail == w == s.tail + i && w + (actual - i) <= s.head + c.size
    case SpIdx(elems, tail, i, actual) =>
      && c.sp && i < actual <= |elems| && tail == w == s.tail + i && w + (actual - i) <= s.head + c.size
      && At(c, s.ring, tail).ptr == elems[i]
    case SpPublish(elems, tail, actual) => c.sp && actual <= |elems| && tail == w == s.tail + actual
    case MpHead(elems, actual, tail) => !c.sp && actual < |elems| && tail <= w
    case MpPtr(elems, actual, tail) => !c.sp && actual < |elems| && tail <= w && tail < s.head + c.size
    case MpIdx(elems, actual, tail, _) => !c.sp && actual < |elems| && tail <= w && tail < s.head + c.size
    case MpReload(elems, actual, tail) => !c.sp && actual < |elems| && tail < w
    case MpCas(elems, actual, tail, seen) =>
      !c.sp && actual < |elems| && tail <= w && tail < s.head + c.size && seen.idx == tail - c.size
    case UpdateRead(neu, after) => !c.sp && neu <= w && AfterInv(c, s, neu, after)
    case UpdateCas(neu, was, after) => !c.sp && was <= neu <= w && was <= s.tail && AfterInv(c, s, neu, after)
    case DeqHead(_) => true
    case DeqTail(_, head) => HeadSeen(c, s, head)
    case FindSp(_, head) => c.sp && HeadSeen(c, s, head)
    case Scan(_, head, tail) => !c.sp && HeadSeen(c, s, head) && tail <= w
    case Copy(want, head, tail, actual, buf) =>
      && HeadSeen(c, s, head) && |buf| < actual <= want
      && head + actual <= tail <= s.tail && Copied(s, head, buf)
    case DeqCommit(want, head, tail, buf) =>
      && HeadSeen(c, s, head) && 0 < |buf| <= want
      && head + |buf| <= tail <= s.tail && Copied(s, head, buf)
  }

  predicate ResultInv(c: Config, written: seq<Elem>, r: Result) {
    match r
    case Enqueued(want, count, full) => count <= want && (count < want && !c.sp ==> full)
    case Dequeued(index, elems) =>
      0 <= index && index + |elems| <= |written| && elems == written[index..index + |elems|] && elems != []
    case Nothing(want, head, stop, drained, empty) => want > 0 ==> drained && (!c.sp && stop >= head ==> empty)
  }

  // With one producer the frontier is ahead of the published tail only while it writes.
  predicate Writing(pc: Pc) {
    pc.SpPtr? || pc.SpIdx? || pc.SpPublish?
  }

  ghost predicate Exclusive(c: Config, s: State) {
    && (c.sp ==>
         forall t, u :: 0 <= t < |s.threads| && 0 <= u < |s.threads| ==>
           Enqueues(s.threads[t]) && Enqueues(s.threads[u]) ==> t == u)
    && (c.sc ==>
         forall t, u :: 0 <= t < |s.threads| && 0 <= u < |s.threads| ==>
           Dequeues(s.threads[t]) && Dequeues(s.threads[u]) ==> t == u)
    && (c.sp && (forall t :: 0 <= t < |s.threads| ==> !Writing(s.threads[t])) ==> s.tail == |s.written|)
  }

  ghost predicate Inv(c: Config, s: State) {
    && SharedInv(c, s)
    && (forall t :: 0 <= t < |s.threads| ==> PcInv(c, s, s.threads[t]))
    && (forall r :: 0 <= r < |s.results| ==> ResultInv(c, s.written, s.results[r]))
    && Exclusive(c, s)
  }

  // ---------- what a step leaves alone ----------

  /** Head, tail and the written prefix only grow; a step that is not a producer's writes
      nothing, and one that is not a consumer's leaves the head. */
  ghost predicate Later(c: Config, s: State, s': State, mine: Pc) {
    && s.head <= s'.head && s.tail <= s'.tail && s.written <= s'.written
    && (c.sp && !Enqueues(mine) ==> s'.written == s.written && s'.tail == s.tail && s'.ring == s.ring)
    && (c.sc && !Dequeues(mine) ==> s'.head == s.head)
  }

  lemma ProducerLater(c: Config, s: State, s': State, mine: Pc, pc: Pc)
    requires |s.ring| == |s'.ring| == c.size > 0 && Later(c, s, s', mine) && PcInv(c, s, pc)
    requires Enqueues(pc) && (c.sp ==> !Enqueues(mine))
    ensures PcInv(c, s', pc)
  {
  }

  lemma CopiedLater(s: State, s': State, head: int, buf: seq<Elem>)
    requires s.head <= s'.head && s.written <= s'.written && head <= s.head && Copied(s, head, buf)
    ensures Copied(s', head, buf)
  {
    if s'.head == head { assert s'.written[head..head + |buf|] == s.written[head..head + |buf|]; }
  }

  lemma ConsumerLater(c: Config, s: State, s': State, mine: Pc, pc: Pc)
    requires |s.ring| == |s'.ring| == c.size > 0 && Later(c, s, s', mine) && PcInv(c, s, pc)
    requires Dequeues(pc) && (c.sc ==> !Dequeues(mine))
    ensures PcInv(c, s', pc)
  {
    if pc.Copy? || pc.DeqCommit? { CopiedLater(s, s', pc.head, pc.buf); }
  }

  lemma PcInvLater(c: Config, s: State, s': State, mine: Pc, pc: Pc)
    requires |s.ring| == |s'.ring| == c.size > 0 && Later(c, s, s', mine) && PcInv(c, s, pc)
    requires c.sp ==> !(Enqueues(mine) && Enqueues(pc))
    requires c.sc ==> !(Dequeues(mine) && Dequeues(pc))
    ensures PcInv(c, s', pc)
  {
    if Enqueues(pc) {
      ProducerLater(c, s, s', mine, pc);
    } else if Dequeues(pc) {
      ConsumerLater(c, s, s', mine, pc);
    }
  }

  lemma ResultInvLater(c: Config, s: State, s': State, r: Result)
    requires s.written <= s'.written && ResultInv(c, s.written, r)
    ensures ResultInv(c, s'.written, r)
  {
  }

  // ---------- one step, by the function it belongs to ----------

  // What a step of thread `t` gives; `pc` and `pc'` are the thread before and after.
  ghost predicate StepInv(c: Config, s: State, s': State, t: nat) {
    && t < |s.threads| == |s'.threads|
    && var pc, pc' := s.threads[t], s'.threads[t];
    && s'.threads == s.threads[t := pc']
    && SharedInv(c, s') && Later(c, s, s', pc) && PcInv(c, s', pc')
    && (Enqueues(pc') ==> Enqueues(pc)) && (Dequeues(pc') ==> Dequeues(pc))
    && (c.sp && Enqueues(pc) && !Writing(pc') ==> s'.tail == |s'.written|)
    && s.results <= s'.results && |s'.results| <= |s.results| + 1
    && (|s'.results| > |s.results| ==> ResultInv(c, s'.written, s'.results[|s.results|]))
    && Reads(s, s')
  }

  // A result that hands out elements hands out the next ones in line.
  predicate Reads(s: State, s': State) {
    if |s'.results| == |s.results| + 1 && s'.results[|s.results|].Dequeued? then
      s'.results[|s.results|].index == |s.read| && s'.read == s.read + s'.results[|s.results|].elems
    else s'.read == s.read
  }

  // What a step may rely on.
  ghost predicate Ready(c: Config, s: State, t: nat) {
    && t < |s.threads| && SharedInv(c, s) && PcInv(c, s, s.threads[t])
    && (c.sp && Enqueues(s.threads[t]) && !Writing(s.threads[t]) ==> s.tail == |s.written|)
  }

  /** A step that changes only its own thread, and perhaps returns a result. */
  ghost predicate Silent(c: Config, s: State, s': State, t: nat)
    requires |s.ring| == c.size > 0
  {
    && t < |s.threads| == |s'.threads|
    && var pc, pc' := s.threads[t], s'.threads[t];
    && s' == s.(threads := s.threads[t := pc'], results := s'.results)
    && PcInv(c, s, pc') && (Enqueues(pc') ==> Enqueues(pc)) && (Dequeues(pc') ==> Dequeues(pc))
    && (s'.results == s.results ||
         (|s'.results| == |s.results| + 1 && s'.results == s.results + [s'.results[|s.results|]]
          && ResultInv(c, s.written, s'.results[|s.results|]) && !s'.results[|s.results|].Dequeued?))
  }

  lemma SilentStep(c: Config, s: State, s': State, t: nat)
    requires SharedInv(c, s) && Silent(c, s, s', t)
    requires c.sp && Enqueues(s.threads[t]) && !Writing(s'.threads[t]) ==> s.tail == |s.written|
    ensures StepInv(c, s, s', t)
  {
  }

  // Advancing the frontier by one element.
  lemma WriteInv(c: Config, s: State, s': State, e: Elem)
    requires SharedInv(c, s) && |s.written| < s.head + c.size
    requires s' == s.(ring := s.ring[|s.written| % c.size := Slot(e, |s.written|)], written := s.written + [e])
    ensures SharedInv(c, s')
  {
    FrontierSlot(c, s, Slot(e, |s.written|));
  }

  // A single producer stores the pointer of a slot before its index.
  lemma PtrInv(c: Config, s: State, s': State, e: Elem)
    requires SharedInv(c, s) && |s.written| < s.head + c.size
    requires s' == s.(ring := s.ring[|s.written| % c.size := At(c, s.ring, |s.written|).(ptr := e)])
    ensures SharedInv(c, s') && At(c, s'.ring, |s.written|).ptr == e
  {
    var w := |s.written|;
    FrontierSlot(c, s, At(c, s.ring, w).(ptr := e));
    SlotIdx(c, s, w);
    LatestSlot(c.size, w, w);
    assert At(c, s'.ring, w - c.size) == At(c, s'.ring, w);
  }

  lemma SpPtrInv(c: Config, s: State, t: nat)
    requires Ready(c, s, t) && s.threads[t].SpPtr?
    ensures StepInv(c, s, SpStep(c, s, t), t)
  {
    var pc := s.threads[t];
    SlotIdx(c, s, pc.tail);
    var e := pc.elems[pc.i];
    var s0 := s.(ring := s.ring[|s.written| % c.size := At(c, s.ring, |s.written|).(ptr := e)]);
    PtrInv(c, s, s0, e);
    assert SpStep(c, s, t) == s0.Goto(t, SpIdx(pc.elems, pc.tail, pc.i, pc.actual));
  }

  lemma SpIdxInv(c: Config, s: State, t: nat)
    requires Ready(c, s, t) && s.threads[t].SpIdx?
    ensures StepInv(c, s, SpStep(c, s, t), t)
  {
    var pc := s.threads[t];
    var slot := At(c, s.ring, pc.tail).(idx := pc.tail);
    var s0 := s.(ring := s.ring[pc.tail % c.size := slot], written := s.written + [pc.elems[pc.i]]);
    WriteInv(c, s, s0, pc.elems[pc.i]);
  }

  lemma SpOtherInv(c: Config, s: State, t: nat)
    requires Ready(c, s, t) && (s.threads[t].SpHead? || s.threads[t].SpPublish?)
    ensures StepInv(c, s, SpStep(c, s, t), t)
  {
  }

  lemma MpDecideInv(c: Config, s: State, elems: seq<Elem>, actual: nat, tail: int, ptr: Elem)
    requires SharedInv(c, s) && !c.sp && actual < |elems| && tail <= |s.written| && tail < s.head + c.size
    ensures var pc := MpDecide(c, elems, actual, tail, Slot(ptr, At(c, s.ring, tail).idx));
      PcInv(c, s, pc) && Enqueues(pc)
  {
    SlotIdx(c, s, tail);
  }

  lemma MpCasInv(c: Config, s: State, t: nat)
    requires Ready(c, s, t) && s.threads[t].MpCas?
    ensures StepInv(c, s, MpStep(c, s, t), t)
  {
    var pc := s.threads[t];
    var elems, actual, tail := pc.elems, pc.actual, pc.tail;
    SlotIdx(c, s, tail);
    if At(c, s.ring, tail) == pc.seen {
      WritesAtFrontier(c, s, t);
      var s0 := s.(ring := s.ring[tail % c.size := Slot(elems[actual], tail)], written := s.written + [elems[actual]]);
      WriteInv(c, s, s0, elems[actual]);
    } else {
      MpDecideInv(c, s, elems, actual, tail, At(c, s.ring, tail).ptr);
    }
  }

  /** A producer whose slot CAS succeeds stands exactly at the write frontier. */
  lemma WritesAtFrontier(c: Config, s: State, t: nat)
    requires Ready(c, s, t) && s.threads[t].MpCas? && At(c, s.ring, s.threads[t].tail) == s.threads[t].seen
    ensures s.threads[t].tail == |s.written| < s.head + c.size
  {
    SlotIdx(c, s, s.threads[t].tail);
  }

  lemma MpReadInv(c: Config, s: State, t: nat)
    requires Ready(c, s, t)
    requires s.threads[t].MpHead? || s.threads[t].MpPtr? || s.threads[t].MpIdx? || s.threads[t].MpReload?
    ensures Silent(c, s, MpStep(c, s, t), t)
  {
    var pc := s.threads[t];
    if pc.MpIdx? { MpDecideInv(c, s, pc.elems, pc.actual, pc.tail, pc.ptr); }
  }

  // The value that ends a cond_update or a load of the tail is the published tail.
  lemma FoundInv(c: Config, s: State, t: nat, want: nat, head: int, stop: int, empty: bool)
    requires SharedInv(c, s) && t < |s.threads| && Dequeues(s.threads[t]) && HeadSeen(c, s, head)
    requires stop <= s.tail && (!c.sp && stop == head ==> empty || s.head > stop)
    ensures Silent(c, s, Found(c, s, t, want, head, s.tail, stop, empty), t)
  {
  }

  lemma UpdateDecideInv(c: Config, s: State, t: nat, neu: int, after: After)
    requires SharedInv(c, s) && t < |s.threads| && !c.sp && neu <= |s.written| && AfterInv(c, s, neu, after)
    requires if after.AfterEnqueue? then Enqueues(s.threads[t]) else Dequeues(s.threads[t])
    ensures Silent(c, s, UpdateDecide(c, s, t, neu, s.tail, after), t)
  {
    if after.AfterScan? && neu < s.tail { FoundInv(c, s, t, after.want, after.head, after.stop, after.empty); }
  }

  lemma UpdateInv(c: Config, s: State, t: nat)
    requires Ready(c, s, t) && (s.threads[t].UpdateRead? || s.threads[t].UpdateCas?)
    ensures StepInv(c, s, UpdateStep(c, s, t), t)
  {
    var pc := s.threads[t];
    var neu, after := pc.neu, pc.after;
    if pc.UpdateCas? && s.tail == pc.was {
      var s0 := s.(tail := neu);
      assert SharedInv(c, s0);
      if after.AfterScan? { FoundInv(c, s0, t, after.want, after.head, after.stop, after.empty); }
      assert UpdateStep(c, s, t) == Updated(c, s0, t, neu, after);
      SilentStep(c, s0, Updated(c, s0, t, neu, after), t);
    } else {
      UpdateDecideInv(c, s, t, neu, after);
      SilentStep(c, s, UpdateDecide(c, s, t, neu, s.tail, after), t);
    }
  }

  lemma ScanInv(c: Config, s: State, t: nat)
    requires Ready(c, s, t) && s.threads[t].Scan?
    ensures Silent(c, s, DeqStep(c, s, t), t)
  {
    SlotIdx(c, s, s.threads[t].tail);
  }

  lemma DeqReadInv(c: Config, s: State, t: nat)
    requires Ready(c, s, t) && (s.threads[t].DeqHead? || s.threads[t].DeqTail? || s.threads[t].FindSp?)
    ensures Silent(c, s, DeqStep(c, s, t), t)
  {
    if s.threads[t].FindSp? { FoundInv(c, s, t, s.threads[t].want, s.threads[t].head, s.tail, false); }
  }

  lemma CopyInv(c: Config, s: State, t: nat)
    requires Ready(c, s, t) && s.threads[t].Copy?
    ensures Silent(c, s, DeqStep(c, s, t), t)
  {
    var pc := s.threads[t];
    var i := pc.head + |pc.buf|;
    if s.head == pc.head {
      assert At(c, s.ring, i).ptr == s.written[i];
      assert s.written[pc.head..i + 1] == s.written[pc.head..i] + [s.written[i]];
    }
  }

  // Moving the head past elements that were copied while it stood still.
  lemma HeadInv(c: Config, s: State, s': State, buf: seq<Elem>)
    requires SharedInv(c, s) && s.head + |buf| <= s.tail && Copied(s, s.head, buf)
    requires s' == s.(head := s.head + |buf|, read := s.read + buf)
    ensures SharedInv(c, s')
  {
    assert s.written[..s.head] + s.written[s.head..s.head + |buf|] == s.written[..s.head + |buf|];
  }

  lemma CommitFails(c: Config, s: State, t: nat)
    requires Ready(c, s, t) && s.threads[t].DeqCommit? && !c.sc && s.head != s.threads[t].head
    ensures Silent(c, s, DeqStep(c, s, t), t)
  {
  }

  lemma CommitInv(c: Config, s: State, t: nat)
    requires Ready(c, s, t) && s.threads[t].DeqCommit?
    ensures StepInv(c, s, DeqStep(c, s, t), t)
  {
    var pc := s.threads[t];
    if c.sc || s.head == pc.head {
      var s0 := s.(head := s.head + |pc.buf|, read := s.read + pc.buf);
      HeadInv(c, s, s0, pc.buf);
      assert DeqStep(c, s, t) == s0.Return(t, Dequeued(pc.head, pc.buf));
      assert ResultInv(c, s.written, Dequeued(pc.head, pc.buf));
    } else {
      CommitFails(c, s, t);
      SilentStep(c, s, DeqStep(c, s, t), t);
    }
  }

  lemma EnqTailInv(c: Config, s: State, a: Action)
    requires Ready(c, s, a.tid) && s.threads[a.tid].EnqTail?
    ensures Silent(c, s, Step(c, s, a), a.tid)
  {
  }

  // ---------- every schedule ----------

  lemma BeginExclusive(c: Config, s: State, t: nat, pc: Pc)
    requires Exclusive(c, s) && t < |s.threads| && s.threads[t].Idle?
    requires pc.EnqTail? || pc.DeqHead?
    requires c.sp && pc.EnqTail? ==> forall u :: 0 <= u < |s.threads| ==> !Enqueues(s.threads[u])
    requires c.sc && pc.DeqHead? ==> forall u :: 0 <= u < |s.threads| ==> !Dequeues(s.threads[u])
    ensures Exclusive(c, s.Goto(t, pc))
  {
    var s' := s.Goto(t, pc);
    assert forall u :: 0 <= u < |s.threads| && u != t ==> s'.threads[u] == s.threads[u];
    if forall u :: 0 <= u < |s.threads| ==> !Writing(s'.threads[u]) {
      forall u | 0 <= u < |s.threads| ensures !Writing(s.threads[u]) { assert !Writing(s'.threads[u]); }
    }
  }

  // Only the program counters change.
  lemma PcInvGoto(c: Config, s: State, t: nat, pc: Pc, mine: Pc)
    requires |s.ring| == c.size > 0 && t < |s.threads| && PcInv(c, s, mine)
    ensures PcInv(c, s.Goto(t, pc), mine)
  {
  }

  lemma GotoInv(c: Config, s: State, t: nat, pc: Pc)
    requires Inv(c, s) && t < |s.threads| && PcInv(c, s, pc) && Exclusive(c, s.Goto(t, pc))
    ensures Inv(c, s.Goto(t, pc))
  {
    var s' := s.Goto(t, pc);
    forall u | 0 <= u < |s'.threads| ensures PcInv(c, s', s'.threads[u]) {
      PcInvGoto(c, s, t, pc, if u == t then pc else s.threads[u]);
    }
    forall r | 0 <= r < |s'.results| ensures ResultInv(c, s'.written, s'.results[r]) {
      assert s'.results[r] == s.results[r];
    }
  }

  lemma BeginInv(c: Config, s: State, t: nat, cmd: Cmd)
    requires Inv(c, s) && t < |s.threads| && s.threads[t].Idle?
    ensures Inv(c, Begin(c, s, t, cmd))
  {
    if MayBegin(c, s.threads, cmd) && !cmd.Continue? {
      var pc := if cmd.CallEnqueue? then EnqTail(cmd.elems) else DeqHead(cmd.want);
      BeginExclusive(c, s, t, pc);
      GotoInv(c, s, t, pc);
      assert Begin(c, s, t, cmd) == s.Goto(t, pc);
    }
  }

  lemma SpInv(c: Config, s: State, t: nat)
    requires Ready(c, s, t)
    requires s.threads[t].SpHead? || s.threads[t].SpPtr? || s.threads[t].SpIdx? || s.threads[t].SpPublish?
    ensures StepInv(c, s, SpStep(c, s, t), t)
  {
    if s.threads[t].SpPtr? {
      SpPtrInv(c, s, t);
    } else if s.threads[t].SpIdx? {
      SpIdxInv(c, s, t);
    } else {
      SpOtherInv(c, s, t);
    }
  }

  lemma MpInv(c: Config, s: State, t: nat)
    requires Ready(c, s, t)
    requires s.threads[t].MpHead? || s.threads[t].MpPtr? || s.threads[t].MpIdx? || s.threads[t].MpReload?
      || s.threads[t].MpCas?
    ensures StepInv(c, s, MpStep(c, s, t), t)
  {
    if s.threads[t].MpCas? {
      MpCasInv(c, s, t);
    } else {
      MpReadInv(c, s, t);
      SilentStep(c, s, MpStep(c, s, t), t);
    }
  }

  lemma DeqInv(c: Config, s: State, t: nat)
    requires Ready(c, s, t) && Dequeues(s.threads[t]) && !s.threads[t].UpdateRead? && !s.threads[t].UpdateCas?
    ensures StepInv(c, s, DeqStep(c, s, t), t)
  {
    if s.threads[t].DeqCommit? {
      CommitInv(c, s, t);
    } else {
      if s.threads[t].Scan? { ScanInv(c, s, t); } else if s.threads[t].Copy? { CopyInv(c, s, t); }
      else { DeqReadInv(c, s, t); }
      SilentStep(c, s, DeqStep(c, s, t), t);
    }
  }

  lemma ThreadStepInv(c: Config, s: State, a: Action)
    requires Ready(c, s, a.tid) && !s.threads[a.tid].Idle?
    ensures StepInv(c, s, Step(c, s, a), a.tid)
  {
    var t := a.tid;
    var pc, s' := s.threads[t], Step(c, s, a);
    if pc.EnqTail? {
      EnqTailInv(c, s, a);
      SilentStep(c, s, s', t);
    } else if pc.SpHead? || pc.SpPtr? || pc.SpIdx? || pc.SpPublish? {
      assert s' == SpStep(c, s, t) by { assert !Dequeues(pc); }
      SpInv(c, s, t);
    } else if pc.UpdateRead? || pc.UpdateCas? {
      assert s' == UpdateStep(c, s, t);
      UpdateInv(c, s, t);
    } else if Dequeues(pc) {
      assert s' == DeqStep(c, s, t);
      DeqInv(c, s, t);
    } else {
      assert s' == MpStep(c, s, t);
      MpInv(c, s, t);
    }
  }

  // The thread about to step is the only producer of a single-producer ring.
  lemma ReadyInv(c: Config, s: State, t: nat)
    requires Inv(c, s) && t < |s.threads|
    ensures Ready(c, s, t)
  {
    if c.sp && Enqueues(s.threads[t]) && !Writing(s.threads[t]) {
      forall u | 0 <= u < |s.threads| ensures !Writing(s.threads[u]) {
        assert Writing(s.threads[u]) ==> Enqueues(s.threads[u]);
      }
    }
  }

  lemma ExclusiveStep(c: Config, s: State, s': State, t: nat)
    requires Inv(c, s) && StepInv(c, s, s', t)
    ensures Exclusive(c, s')
  {
    if c.sp && (forall u :: 0 <= u < |s'.threads| ==> !Writing(s'.threads[u])) && !Enqueues(s.threads[t]) {
      forall u | 0 <= u < |s.threads| ensures !Writing(s.threads[u]) {
        assert u != t ==> s'.threads[u] == s.threads[u];
      }
    }
  }

  lemma StepKeepsInv(c: Config, s: State, s': State, t: nat)
    requires Inv(c, s) && StepInv(c, s, s', t)
    ensures Inv(c, s')
  {
    forall u | 0 <= u < |s'.threads| ensures PcInv(c, s', s'.threads[u]) {
      if u != t { PcInvLater(c, s, s', s.threads[t], s.threads[u]); }
    }
    forall r | 0 <= r < |s'.results| ensures ResultInv(c, s'.written, s'.results[r]) {
      if r < |s.results| { ResultInvLater(c, s, s', s.results[r]); }
    }
    ExclusiveStep(c, s, s', t);
  }

  lemma InvStep(c: Config, s: State, a: Action)
    requires Inv(c, s)
    ensures Inv(c, Step(c, s, a))
    ensures s.tail <= Step(c, s, a).tail && s.head <= Step(c, s, a).head && s.written <= Step(c, s, a).written
    ensures s.results <= Step(c, s, a).results && |Step(c, s, a).results| <= |s.results| + 1 && Reads(s, Step(c, s, a))
  {
    if a.tid < |s.threads| {
      if s.threads[a.tid].Idle? {
        BeginInv(c, s, a.tid, a.cmd);
      } else {
        ReadyInv(c, s, a.tid);
        ThreadStepInv(c, s, a);
        StepKeepsInv(c, s, Step(c, s, a), a.tid);
      }
    }
  }

  lemma StartInv(c: Config, threads: nat)
    requires c.size > 0 && c.width.Unbounded?
    ensures Inv(c, Start(c, threads))
  {
    var s := Start(c, threads);
    forall i: int | 0 <= i + c.size < c.size ensures At(c, s.ring, i).idx == i {
      ModUnique(i, c.size, -1, i + c.size);
      var k: nat := i + c.size;
      assert s.ring[k] == Slot(0, Norm(c.width, k - c.size));
    }
  }

  lemma {:induction false} ExecInv(c: Config, threads: nat, schedule: seq<Action>)
    requires c.size > 0 && c.width.Unbounded?
    ensures Inv(c, Exec(c, Start(c, threads), schedule))
    decreases |schedule|
  {
    if schedule == [] {
      StartInv(c, threads);
    } else {
      ExecInv(c, threads, schedule[..|schedule| - 1]);
      InvStep(c, Exec(c, Start(c, threads), schedule[..|schedule| - 1]), schedule[|schedule| - 1]);
    }
  }
}
