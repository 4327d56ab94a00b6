/** The ring on wrapping 64-bit indices takes the same steps as the ring on unbounded ones. */
module LockFreeRingWrap {
  import opened RingWords
  import opened LockFreeRing
  import opened LockFreeRingSafety

  function W(x: int): int { Norm(Word64, x) }

  function Wide(c: Config): Config { c.(width := Word64) }

  // ---------- the 64-bit image of a state ----------

  function WrapSlot(slot: Slot): Slot { Slot(slot.ptr, W(slot.idx)) }

  function WrapAfter(after: After): After {
    match after
    case AfterEnqueue(want, count, full) => after
    case AfterScan(want, head, stop, empty) => AfterScan(want, W(head), W(stop), empty)
  }

  function WrapPc(pc: Pc): Pc {
    match pc
    case Idle => pc
    case Failed => pc
    case EnqTail(_) => pc
    case SpHead(elems, tail) => SpHead(elems, W(tail))
    case SpPtr(elems, tail, i, actual) => SpPtr(elems, W(tail), i, actual)
    case SpIdx(elems, tail, i, actual) => SpIdx(elems, W(tail), i, actual)
    case SpPublish(elems, tail, actual) => SpPublish(elems, W(tail), actual)
    case MpHead(elems, actual, tail) => MpHead(elems, actual, W(tail))
    case MpPtr(elems, actual, tail) => MpPtr(elems, actual, W(tail))
    case MpIdx(elems, actual, tail, ptr) => MpIdx(elems, actual, W(tail), ptr)
    case MpReload(elems, actual, tail) => MpReload(elems, actual, W(tail))
    case MpCas(elems, actual, tail, seen) => MpCas(elems, actual, W(tail), WrapSlot(seen))
    case UpdateRead(neu, after) => UpdateRead(W(neu), WrapAfter(after))
    case UpdateCas(neu, was, after) => UpdateCas(W(neu), W(was), WrapAfter(after))
    case DeqHead(_) => pc
    case DeqTail(want, head) => DeqTail(want, W(head))
    case FindSp(want, head) => FindSp(want, W(head))
    case Scan(want, head, tail) => Scan(want, W(head), W(tail))
    case Copy(want, head, tail, actual, buf) => Copy(want, W(head), W(tail), actual, buf)
    case DeqCommit(want, head, tail, buf) => DeqCommit(want, W(head), W(tail), buf)
  }

  function WrapResult(r: Result): Result {
    match r
    case Enqueued(_, _, _) => r
    case Dequeued(index, elems) => Dequeued(W(index), elems)
    case Nothing(want, head, stop, drained, empty) => Nothing(want, W(head), W(stop), drained, empty)
  }

  function WrapState(s: State): State {
    State(W(s.head), W(s.tail),
          seq(|s.ring|, i requires 0 <= i < |s.ring| => WrapSlot(s.ring[i])),
          seq(|s.threads|, t requires 0 <= t < |s.threads| => WrapPc(s.threads[t])),
          s.written, s.read,
          seq(|s.results|, r requires 0 <= r < |s.results| => WrapResult(s.results[r])))
  }

  // ---------- the window ----------

  /** `x` lies less than half the word range behind the end of the live range, the first index
      that a producer must not reach. */
  predicate Near(c: Config, s: State, x: int) {
    s.head + c.size - HALF < x <= s.head + c.size
  }

  predicate AfterNear(c: Config, s: State, after: After) {
    after.AfterScan? ==> Near(c, s, after.head) && Near(c, s, after.stop)
  }

  predicate PcNear(c: Config, s: State, pc: Pc) {
    match pc
    case SpHead(_, tail) => Near(c, s, tail)
    case SpPtr(_, tail, _, _) => Near(c, s, tail)
    case SpIdx(_, tail, _, _) => Near(c, s, tail)
    case MpHead(_, _, tail) => Near(c, s, tail)
    case MpPtr(_, _, tail) => Near(c, s, tail)
    case MpIdx(_, _, tail, _) => Near(c, s, tail)
    case MpReload(_, _, tail) => Near(c, s, tail)
    case MpCas(_, _, tail, _) => Near(c, s, tail)
    case UpdateRead(neu, after) => Near(c, s, neu) && AfterNear(c, s, after)
    case UpdateCas(neu, was, after) => Near(c, s, neu) && Near(c, s, was) && AfterNear(c, s, after)
    case DeqTail(_, head) => Near(c, s, head)
    case FindSp(_, head) => Near(c, s, head)
    case Scan(_, head, tail) => Near(c, s, head) && Near(c, s, tail)
    case Copy(_, head, tail, _, _) => Near(c, s, head) && Near(c, s, tail)
    case DeqCommit(_, head, tail, _) => Near(c, s, head) && Near(c, s, tail)
    case _ => true
  }

  /** The ring has a power-of-two size of at most 2^31, and every index held by a thread is less
      than 2^63 behind the end of the live range. */
  ghost predicate Window(c: Config, s: State) {
    && 0 < c.size <= 0x8000_0000 && WORD % c.size == 0
    && forall t :: 0 <= t < |s.threads| ==> PcNear(c, s, s.threads[t])
  }

  // ---------- building blocks ----------

  lemma PlusWrap(c: Config, x: int, k: int)
    requires c.width.Unbounded?
    ensures Plus(Wide(c), W(x), k) == W(Plus(c, x, k))
    ensures Lap(Wide(c), W(x)) == W(Lap(c, x))
  {
    NormShift(x, k);
    NormShift(x, 0 - c.size);
  }

  lemma AtWrap(c: Config, s: State, x: int)
    requires |s.ring| == c.size > 0 && WORD % c.size == 0
    ensures At(Wide(c), WrapState(s).ring, W(x)) == WrapSlot(At(c, s.ring, x))
    ensures W(x) % c.size == x % c.size
  {
    MaskExact(x, c.size);
  }

  // Every pair of indices in the window is compared correctly.
  lemma NearExact(c: Config, s: State, a: int, b: int)
    requires Near(c, s, a) && Near(c, s, b)
    ensures Diff(Word64, W(a), W(b)) == a - b && (W(a) == W(b) <==> a == b)
    ensures Before(Word64, W(a), W(b)) <==> a < b
  {
    DiffExact(a, b);
  }

  lemma GotoWrap(s: State, t: nat, pc: Pc)
    requires t < |s.threads|
    ensures WrapState(s).Goto(t, WrapPc(pc)) == WrapState(s.Goto(t, pc))
  {
    assert WrapState(s).threads[t := WrapPc(pc)] == WrapState(s.Goto(t, pc)).threads;
  }

  lemma ReturnWrap(s: State, t: nat, r: Result)
    requires t < |s.threads|
    ensures WrapState(s).Return(t, WrapResult(r)) == WrapState(s.Return(t, r))
  {
    assert WrapState(s).threads[t := Idle] == WrapState(s.Return(t, r)).threads;
    assert WrapState(s).results + [WrapResult(r)] == WrapState(s.Return(t, r)).results;
  }

  lemma RingWrap(c: Config, s: State, x: int, slot: Slot)
    requires |s.ring| == c.size > 0 && WORD % c.size == 0
    ensures WrapState(s).ring[W(x) % c.size := WrapSlot(slot)] == WrapState(s.(ring := s.ring[x % c.size := slot])).ring
  {
    MaskExact(x, c.size);
  }

  // ---------- each function takes the same step ----------

  ghost predicate Comparable(c: Config, s: State, t: nat) {
    && SharedInv(c, s) && 0 < c.size <= 0x8000_0000 && WORD % c.size == 0
    && t < |s.threads| && PcInv(c, s, s.threads[t]) && PcNear(c, s, s.threads[t])
  }

  lemma SharedNear(c: Config, s: State)
    requires SharedInv(c, s) && c.size <= 0x8000_0000
    ensures Near(c, s, s.head) && Near(c, s, s.tail) && Near(c, s, |s.written|) && Near(c, s, s.head + c.size)
  {
  }

  lemma SpHeadWrap(c: Config, s: State, t: nat)
    requires Comparable(c, s, t) && s.threads[t].SpHead?
    ensures SpStep(Wide(c), WrapState(s), t) == WrapState(SpStep(c, s, t))
  {
    var pc := s.threads[t];
    SharedNear(c, s);
    PlusWrap(c, s.head, c.size);
    NearExact(c, s, s.head + c.size, pc.tail);
    NearExact(c, s, |s.written|, s.head + c.size);
    var actual := Min(s.head + c.size - pc.tail, |pc.elems|);
    if actual <= 0 {
      ReturnWrap(s, t, Enqueued(|pc.elems|, 0, |s.written| == s.head + c.size));
    } else {
      GotoWrap(s, t, SpPtr(pc.elems, pc.tail, 0, actual));
    }
  }

  lemma SpPtrWrap(c: Config, s: State, t: nat)
    requires Comparable(c, s, t) && s.threads[t].SpPtr?
    ensures SpStep(Wide(c), WrapState(s), t) == WrapState(SpStep(c, s, t))
  {
    var pc := s.threads[t];
    SlotIdx(c, s, pc.tail);
    AtWrap(c, s, pc.tail);
    PlusWrap(c, pc.tail, 0);
    var slot := At(c, s.ring, pc.tail).(ptr := pc.elems[pc.i]);
    RingWrap(c, s, pc.tail, slot);
    GotoWrap(s.(ring := s.ring[pc.tail % c.size := slot]), t, SpIdx(pc.elems, pc.tail, pc.i, pc.actual));
  }

  lemma SpIdxWrap(c: Config, s: State, t: nat)
    requires Comparable(c, s, t) && s.threads[t].SpIdx?
    ensures SpStep(Wide(c), WrapState(s), t) == WrapState(SpStep(c, s, t))
  {
    var pc := s.threads[t];
    AtWrap(c, s, pc.tail);
    PlusWrap(c, pc.tail, 1);
    var slot := At(c, s.ring, pc.tail).(idx := pc.tail);
    RingWrap(c, s, pc.tail, slot);
    var s0 := s.(ring := s.ring[pc.tail % c.size := slot], written := s.written + [pc.elems[pc.i]]);
    GotoWrap(s0, t, if pc.i + 1 < pc.actual then SpPtr(pc.elems, pc.tail + 1, pc.i + 1, pc.actual)
      else SpPublish(pc.elems, pc.tail + 1, pc.actual));
  }

  lemma SpWrap(c: Config, s: State, t: nat)
    requires Comparable(c, s, t)
    requires s.threads[t].SpHead? || s.threads[t].SpPtr? || s.threads[t].SpIdx? || s.threads[t].SpPublish?
    ensures SpStep(Wide(c), WrapState(s), t) == WrapState(SpStep(c, s, t))
  {
    var pc := s.threads[t];
    if pc.SpHead? { SpHeadWrap(c, s, t); }
    else if pc.SpPtr? { SpPtrWrap(c, s, t); }
    else if pc.SpIdx? { SpIdxWrap(c, s, t); }
    else { ReturnWrap(s.(tail := pc.tail), t, Enqueued(|pc.elems|, pc.actual, false)); }
  }

  lemma MpDecideWrap(c: Config, s: State, elems: seq<Elem>, actual: nat, tail: int, ptr: Elem)
    requires SharedInv(c, s) && 0 < c.size <= 0x8000_0000 && Near(c, s, tail)
    ensures var seen := Slot(ptr, At(c, s.ring, tail).idx);
      MpDecide(Wide(c), elems, actual, W(tail), WrapSlot(seen)) == WrapPc(MpDecide(c, elems, actual, tail, seen))
  {
    var x := At(c, s.ring, tail).idx;
    SlotIdx(c, s, Latest(c.size, |s.written|, tail));
    LatestSlot(c.size, |s.written|, tail);
    PlusWrap(c, tail, 1);
    SameWord(x, tail - c.size);
    SameWord(x, tail);
  }

  lemma MpCasWrap(c: Config, s: State, t: nat)
    requires Comparable(c, s, t) && s.threads[t].MpCas?
    ensures MpStep(Wide(c), WrapState(s), t) == WrapState(MpStep(c, s, t))
  {
    var pc := s.threads[t];
    var elems, actual, tail, seen := pc.elems, pc.actual, pc.tail, pc.seen;
    var slot := At(c, s.ring, tail);
    AtWrap(c, s, tail);
    SlotIdx(c, s, Latest(c.size, |s.written|, tail));
    LatestSlot(c.size, |s.written|, tail);
    SameWord(slot.idx, seen.idx);
    if slot == seen {
      RingWrap(c, s, tail, Slot(elems[actual], tail));
      PlusWrap(c, tail, 1);
      var s0 := s.(ring := s.ring[tail % c.size := Slot(elems[actual], tail)], written := s.written + [elems[actual]]);
      GotoWrap(s0, t, MpLoop(elems, actual + 1, tail + 1));
    } else {
      MpDecideWrap(c, s, elems, actual, tail, slot.ptr);
      GotoWrap(s, t, MpDecide(c, elems, actual, tail, slot));
    }
  }

  lemma MpReadWrap(c: Config, s: State, t: nat)
    requires Comparable(c, s, t)
    requires s.threads[t].MpHead? || s.threads[t].MpPtr? || s.threads[t].MpIdx? || s.threads[t].MpReload?
    ensures MpStep(Wide(c), WrapState(s), t) == WrapState(MpStep(c, s, t))
  {
    var pc := s.threads[t];
    if pc.MpHead? {
      SharedNear(c, s);
      PlusWrap(c, s.head, c.size);
      NearExact(c, s, pc.tail, s.head + c.size);
      NearExact(c, s, |s.written|, s.head + c.size);
    } else if pc.MpReload? {
      SharedNear(c, s);
      PlusWrap(c, pc.tail, 1);
      NearExact(c, s, pc.tail, s.tail);
    } else {
      AtWrap(c, s, pc.tail);
      if pc.MpIdx? { MpDecideWrap(c, s, pc.elems, pc.actual, pc.tail, pc.ptr); }
    }
    GotoWrap(s, t, MpStep(c, s, t).threads[t]);
  }

  lemma FoundWrap(c: Config, s: State, s0: State, t: nat, want: nat, head: int, tail: int, stop: int, empty: bool)
    requires c.width.Unbounded? && t < |s0.threads| && Near(c, s, head) && Near(c, s, tail) && Near(c, s, s0.tail)
      && Near(c, s, s0.head)
    ensures Found(Wide(c), WrapState(s0), t, want, W(head), W(tail), W(stop), empty)
      == WrapState(Found(c, s0, t, want, head, tail, stop, empty))
  {
    NearExact(c, s, tail, head);
    NearExact(c, s, s0.tail, s0.head);
    var actual := Min(tail - head, want);
    if actual <= 0 {
      ReturnWrap(s0, t, Nothing(want, head, stop, s0.tail == s0.head, empty));
    } else {
      GotoWrap(s0, t, Copy(want, head, tail, actual, []));
    }
  }

  lemma UpdatedWrap(c: Config, s: State, s0: State, t: nat, value: int, after: After)
    requires c.width.Unbounded? && t < |s0.threads| && Near(c, s, value) && AfterNear(c, s, after)
      && Near(c, s, s0.tail) && Near(c, s, s0.head)
    ensures Updated(Wide(c), WrapState(s0), t, W(value), WrapAfter(after)) == WrapState(Updated(c, s0, t, value, after))
  {
    match after
    case AfterEnqueue(want, count, full) => ReturnWrap(s0, t, Enqueued(want, count, full));
    case AfterScan(want, head, stop, empty) => FoundWrap(c, s, s0, t, want, head, value, stop, empty);
  }

  lemma UpdateDecideWrap(c: Config, s: State, t: nat, neu: int, after: After)
    requires SharedInv(c, s) && c.size <= 0x8000_0000 && t < |s.threads| && Near(c, s, neu) && AfterNear(c, s, after)
    ensures UpdateDecide(Wide(c), WrapState(s), t, W(neu), W(s.tail), WrapAfter(after))
      == WrapState(UpdateDecide(c, s, t, neu, s.tail, after))
  {
    SharedNear(c, s);
    NearExact(c, s, neu, s.tail);
    UpdatedWrap(c, s, s, t, s.tail, after);
    GotoWrap(s, t, UpdateCas(neu, s.tail, after));
  }

  lemma UpdateWrap(c: Config, s: State, t: nat)
    requires Comparable(c, s, t) && (s.threads[t].UpdateRead? || s.threads[t].UpdateCas?)
    ensures UpdateStep(Wide(c), WrapState(s), t) == WrapState(UpdateStep(c, s, t))
  {
    var pc := s.threads[t];
    SharedNear(c, s);
    UpdateDecideWrap(c, s, t, pc.neu, pc.after);
    if pc.UpdateCas? {
      NearExact(c, s, s.tail, pc.was);
      if s.tail == pc.was {
        UpdatedWrap(c, s, s.(tail := pc.neu), t, pc.neu, pc.after);
      }
    }
  }

  lemma ScanLoopWrap(c: Config, s: State, want: nat, head: int, tail: int)
    requires SharedInv(c, s) && c.size <= 0x8000_0000 && Near(c, s, head) && Near(c, s, tail) && head <= s.head
    ensures ScanLoop(Wide(c), want, W(head), W(tail)) == WrapPc(ScanLoop(c, want, head, tail))
  {
    PlusWrap(c, head, c.size);
    NearExact(c, s, tail, head + c.size);
  }

  lemma DeqLoopWrap(c: Config, s: State, want: nat, head: int, tail: int)
    requires SharedInv(c, s) && c.size <= 0x8000_0000 && Near(c, s, head) && Near(c, s, tail) && head <= s.head
    ensures DeqLoop(Wide(c), want, W(head), W(tail)) == WrapPc(DeqLoop(c, want, head, tail))
  {
    NearExact(c, s, tail, head);
    ScanLoopWrap(c, s, want, head, tail);
  }

  // The index found in a slot is compared exactly with the index looked for.
  lemma SlotNear(c: Config, s: State, tail: int)
    requires SharedInv(c, s) && 0 < c.size <= 0x8000_0000 && Near(c, s, tail)
    ensures W(At(c, s.ring, tail).idx) == W(tail) <==> At(c, s.ring, tail).idx == tail
  {
    SlotIdx(c, s, Latest(c.size, |s.written|, tail));
    LatestSlot(c.size, |s.written|, tail);
    SameWord(At(c, s.ring, tail).idx, tail);
  }

  lemma ScanWrap(c: Config, s: State, t: nat)
    requires Comparable(c, s, t) && s.threads[t].Scan?
    ensures DeqStep(Wide(c), WrapState(s), t) == WrapState(DeqStep(c, s, t))
  {
    var pc := s.threads[t];
    AtWrap(c, s, pc.tail);
    SlotNear(c, s, pc.tail);
    if At(c, s.ring, pc.tail).idx == pc.tail {
      SlotIdx(c, s, pc.tail);
      PlusWrap(c, pc.tail, 1);
      ScanLoopWrap(c, s, pc.want, pc.head, pc.tail + 1);
      GotoWrap(s, t, ScanLoop(c, pc.want, pc.head, pc.tail + 1));
    } else {
      SharedNear(c, s);
      NearExact(c, s, |s.written|, s.head);
      GotoWrap(s, t, UpdateRead(pc.tail, AfterScan(pc.want, pc.head, pc.tail, |s.written| == s.head)));
    }
  }

  lemma CopyWrap(c: Config, s: State, t: nat)
    requires Comparable(c, s, t) && s.threads[t].Copy?
    ensures DeqStep(Wide(c), WrapState(s), t) == WrapState(DeqStep(c, s, t))
  {
    var pc := s.threads[t];
    PlusWrap(c, pc.head, |pc.buf|);
    AtWrap(c, s, pc.head + |pc.buf|);
    GotoWrap(s, t, DeqStep(c, s, t).threads[t]);
  }

  lemma CommitWrap(c: Config, s: State, t: nat)
    requires Comparable(c, s, t) && s.threads[t].DeqCommit?
    ensures DeqStep(Wide(c), WrapState(s), t) == WrapState(DeqStep(c, s, t))
  {
    var pc := s.threads[t];
    SharedNear(c, s);
    PlusWrap(c, pc.head, |pc.buf|);
    NearExact(c, s, s.head, pc.head);
    if c.sc || s.head == pc.head {
      ReturnWrap(s.(head := pc.head + |pc.buf|, read := s.read + pc.buf), t, Dequeued(pc.head, pc.buf));
    } else {
      DeqLoopWrap(c, s, pc.want, s.head, pc.tail);
      GotoWrap(s, t, DeqLoop(c, pc.want, s.head, pc.tail));
    }
  }

  lemma DeqReadWrap(c: Config, s: State, t: nat)
    requires Comparable(c, s, t) && (s.threads[t].DeqHead? || s.threads[t].DeqTail? || s.threads[t].FindSp?)
    ensures DeqStep(Wide(c), WrapState(s), t) == WrapState(DeqStep(c, s, t))
  {
    var pc := s.threads[t];
    SharedNear(c, s);
    if pc.DeqHead? {
      GotoWrap(s, t, DeqTail(pc.want, s.head));
    } else if pc.DeqTail? {
      DeqLoopWrap(c, s, pc.want, pc.head, s.tail);
      GotoWrap(s, t, DeqLoop(c, pc.want, pc.head, s.tail));
    } else {
      FoundWrap(c, s, s, t, pc.want, pc.head, s.tail, s.tail, false);
    }
  }

  lemma DeqWrap(c: Config, s: State, t: nat)
    requires Comparable(c, s, t) && Dequeues(s.threads[t]) && !s.threads[t].UpdateRead? && !s.threads[t].UpdateCas?
    ensures DeqStep(Wide(c), WrapState(s), t) == WrapState(DeqStep(c, s, t))
  {
    if s.threads[t].DeqCommit? { CommitWrap(c, s, t); }
    else if s.threads[t].Scan? { ScanWrap(c, s, t); }
    else if s.threads[t].Copy? { CopyWrap(c, s, t); }
    else { DeqReadWrap(c, s, t); }
  }

  lemma BeginWrap(c: Config, s: State, t: nat, cmd: Cmd)
    requires t < |s.threads| && s.threads[t].Idle?
    ensures Begin(Wide(c), WrapState(s), t, cmd) == WrapState(Begin(c, s, t, cmd))
  {
    assert forall u :: 0 <= u < |s.threads| ==>
      Enqueues(WrapState(s).threads[u]) == Enqueues(s.threads[u])
        && Dequeues(WrapState(s).threads[u]) == Dequeues(s.threads[u]);
    assert MayBegin(Wide(c), WrapState(s).threads, cmd) == MayBegin(c, s.threads, cmd);
    if cmd.CallEnqueue? { GotoWrap(s, t, EnqTail(cmd.elems)); }
    if cmd.CallDequeue? { GotoWrap(s, t, DeqHead(cmd.want)); }
  }

  // ---------- the whole program ----------

  lemma StepWrap(c: Config, s: State, a: Action)
    requires Inv(c, s) && Window(c, s)
    ensures Step(Wide(c), WrapState(s), a) == WrapState(Step(c, s, a))
  {
    var t := a.tid;
    if t < |s.threads| {
      assert WrapState(s).threads[t] == WrapPc(s.threads[t]);
      ThreadWrap(c, s, a);
    }
  }

  lemma SpThread(c: Config, s: State, a: Action)
    requires Comparable(c, s, a.tid) && WrapState(s).threads[a.tid] == WrapPc(s.threads[a.tid])
    requires var pc := s.threads[a.tid]; pc.SpHead? || pc.SpPtr? || pc.SpIdx? || pc.SpPublish?
    ensures Step(Wide(c), WrapState(s), a) == WrapState(Step(c, s, a))
  {
    SpWrap(c, s, a.tid);
  }

  lemma UpdateThread(c: Config, s: State, a: Action)
    requires Comparable(c, s, a.tid) && WrapState(s).threads[a.tid] == WrapPc(s.threads[a.tid])
    requires s.threads[a.tid].UpdateRead? || s.threads[a.tid].UpdateCas?
    ensures Step(Wide(c), WrapState(s), a) == WrapState(Step(c, s, a))
  {
    UpdateWrap(c, s, a.tid);
  }

  lemma DeqThread(c: Config, s: State, a: Action)
    requires Comparable(c, s, a.tid) && WrapState(s).threads[a.tid] == WrapPc(s.threads[a.tid])
    requires var pc := s.threads[a.tid]; Dequeues(pc) && !pc.UpdateRead? && !pc.UpdateCas?
    ensures Step(Wide(c), WrapState(s), a) == WrapState(Step(c, s, a))
  {
    DeqWrap(c, s, a.tid);
  }

  lemma MpThread(c: Config, s: State, a: Action)
    requires Comparable(c, s, a.tid) && WrapState(s).threads[a.tid] == WrapPc(s.threads[a.tid])
    requires var pc := s.threads[a.tid]; pc.MpHead? || pc.MpPtr? || pc.MpIdx? || pc.MpReload? || pc.MpCas?
    ensures Step(Wide(c), WrapState(s), a) == WrapState(Step(c, s, a))
  {
    MpWrap(c, s, a.tid);
  }

  lemma StartThread(c: Config, s: State, a: Action)
    requires Comparable(c, s, a.tid) && WrapState(s).threads[a.tid] == WrapPc(s.threads[a.tid])
    requires s.threads[a.tid].Idle? || s.threads[a.tid].EnqTail?
    ensures Step(Wide(c), WrapState(s), a) == WrapState(Step(c, s, a))
  {
    if s.threads[a.tid].Idle? {
      BeginWrap(c, s, a.tid, a.cmd);
    } else {
      GotoWrap(s, a.tid, Step(c, s, a).threads[a.tid]);
    }
  }

  lemma ThreadWrap(c: Config, s: State, a: Action)
    requires Comparable(c, s, a.tid) && WrapState(s).threads[a.tid] == WrapPc(s.threads[a.tid])
    ensures Step(Wide(c), WrapState(s), a) == WrapState(Step(c, s, a))
  {
    var pc := s.threads[a.tid];
    if pc.Idle? || pc.EnqTail? { StartThread(c, s, a); }
    else if pc.SpHead? || pc.SpPtr? || pc.SpIdx? || pc.SpPublish? { SpThread(c, s, a); }
    else if pc.UpdateRead? || pc.UpdateCas? { UpdateThread(c, s, a); }
    else if Dequeues(pc) { DeqThread(c, s, a); }
    else { MpThread(c, s, a); }
  }

  lemma MpWrap(c: Config, s: State, t: nat)
    requires Comparable(c, s, t)
    requires s.threads[t].MpHead? || s.threads[t].MpPtr? || s.threads[t].MpIdx? || s.threads[t].MpReload?
      || s.threads[t].MpCas?
    ensures MpStep(Wide(c), WrapState(s), t) == WrapState(MpStep(c, s, t))
  {
    if s.threads[t].MpCas? { MpCasWrap(c, s, t); } else { MpReadWrap(c, s, t); }
  }

  lemma StartWrap(c: Config, threads: nat)
    requires c.width.Unbounded?
    ensures Start(Wide(c), threads) == WrapState(Start(c, threads))
  {
    var w, u := Start(Wide(c), threads), Start(c, threads);
    forall i: nat | i < c.size ensures w.ring[i] == WrapState(u).ring[i] {
      assert u.ring[i] == Slot(0, Norm(c.width, i - c.size));
      assert w.ring[i] == Slot(0, Norm(Wide(c).width, i - Wide(c).size));
    }
    assert w.ring == WrapState(u).ring;
    assert Start(Wide(c), threads).threads == WrapState(Start(c, threads)).threads;
  }

  /** Along any schedule in which every index held by a thread is less than 2^63 behind the end of
      the live range, the ring on 64-bit words and the ring on unbounded integers take the same
      steps. */
  lemma {:induction false} SameSteps(c: Config, threads: nat, schedule: seq<Action>)
    requires c.size > 0 && c.width.Unbounded?
    requires forall k :: 0 <= k < |schedule| ==> Window(c, Exec(c, Start(c, threads), schedule[..k]))
    ensures Exec(Wide(c), Start(Wide(c), threads), schedule) == WrapState(Exec(c, Start(c, threads), schedule))
    decreases |schedule|
  {
    if schedule == [] {
      StartWrap(c, threads);
    } else {
      var before := schedule[..|schedule| - 1];
      forall k | 0 <= k < |before| ensures Window(c, Exec(c, Start(c, threads), before[..k])) {
        assert before[..k] == schedule[..k];
      }
      SameSteps(c, threads, before);
      ExecInv(c, threads, before);
      StepWrap(c, Exec(c, Start(c, threads), before), schedule[|schedule| - 1]);
    }
  }
}
