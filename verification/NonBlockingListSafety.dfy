/** What every schedule of list operations keeps. */
module NonBlockingListSafety {
  import opened ListHeap
  import opened NonBlockingList

  // ---------- the invariant of one thread ----------

  // `prev` was once seen flagged and pointing at `n`.
  predicate Seen(h: Heap, prev: nat, n: nat) {
    n in h.claims && h.claims[n].pred == prev
  }

  predicate FrameInv(h: Heap, f: Frame)
    requires |h.backs| == |h.links|
  {
    && Seen(h, f.prev, f.n) && f.n < |h.links|
    && (!f.at.SetBacklink? ==> h.backs[f.n].At?)
    && (f.at.CasMark? ==> !f.at.next.flag && (f.at.next.mark ==> h.links[f.n] == f.at.next))
    && (f.at.CasUnlink? ==> f.at.next.mark && h.links[f.n] == f.at.next)
  }

  /** clear_flag calls itself only for the successor of its own node, which is older. */
  ghost predicate FramesInv(h: Heap, frames: seq<Frame>)
    requires |h.backs| == |h.links|
  {
    && (forall i :: 0 <= i < |frames| ==> FrameInv(h, frames[i]))
    && (forall i, k :: 0 <= i < k < |frames| && k == i + 1 ==>
         frames[k].prev == frames[i].n && frames[k].n < frames[i].n && frames[i].at.RereadNext?)
  }

  predicate CallInv(h: Heap, tid: nat, th: Thread) {
    match th.call
    case Idle => th.frames == []
    case Failed => false
    case PushRead(_) => true
    case PushCas(val) => th.frames == [] && !val.mark && !val.flag
    case PopRead(p) => th.frames == [] && p < |h.links|
    case PopCas(p, val) => th.frames == [] && p < |h.links| && val == Clean(val.to) && 0 < val.to < |h.links|
    case DelHead(_) => th.frames == []
    case DelRead(_, p, val) =>
      th.frames == [] && p < |h.links| && 0 < val.to < |h.links| && (val.flag ==> Seen(h, p, val.to))
    case DelUnlink(_, p, n, next) =>
      th.frames == [] && Seen(h, p, n) && n < |h.links| && next.mark && h.links[n] == next
    case DelAtCur => th.frames == [] && th.it.cur != 0 && th.it.prev.At?
    case DelAtPrev => th.frames == [] && th.it.cur != 0 && th.it.prev.At?
    case FlagCas(p, n) => th.frames == [] && p < |h.links| && 0 < n < |h.links|
    case FlagBack(p, n) => th.frames == [] && p < |h.links| && 0 < n < |h.links| && h.links[p].mark
    case FlagReload(p, n) => th.frames == [] && p < |h.links| && 0 < n < |h.links|
    case FlagForward(p, n) => th.frames == [] && p < |h.links| && 0 < n < |h.links|
    case Clearing(n, got) =>
      && n in h.claims && (got ==> h.claims[n].tid == tid)
      && (if th.frames == [] then Cut(h, n) else th.frames[0].n == n)
    case IterSkip => th.frames == []
  }

  // Nodes alive since the iteration began are returned already or still ahead of it.
  predicate IterInv(h: Heap, th: Thread) {
    var it := th.it;
    && it.cur < |h.links| && it.since <= |h.links|
    && (it.prev.At? ==> it.prev.loc < |h.links|)
    && (forall n :: 0 < n < it.since && Live(h, n) ==> n in it.seen || n < it.cur || (th.call.IterSkip? && n == it.cur))
    && (forall n :: n in it.seen ==> 0 < n < |h.links| && (if th.call.IterSkip? then it.cur < n else it.cur <= n))
  }

  ghost predicate ThreadInv(h: Heap, tid: nat, th: Thread)
    requires |h.backs| == |h.links|
  {
    FramesInv(h, th.frames) && CallInv(h, tid, th) && IterInv(h, th)
  }

  lemma ThreadInvLater(h: Heap, h': Heap, tid: nat, th: Thread)
    requires |h.backs| == |h.links| && Later(h, h') && ThreadInv(h, tid, th)
    ensures ThreadInv(h', tid, th)
  {
    forall i | 0 <= i < |th.frames| ensures FrameInv(h', th.frames[i]) { assert FrameInv(h, th.frames[i]); }
    forall n | 0 < n < th.it.since && Live(h', n) ensures Live(h, n) {}
  }

  // ---------- one step of one thread ----------

  // Outside iteration a step moves no cursor.
  predicate CursorKept(th: Thread, th': Thread) {
    && (th'.it == th.it || th'.it == th.it.(prev := NoRef))
    && !th.call.IterSkip? && !th'.call.IterSkip?
  }

  // The thread has won the flagging CAS for the node it is clearing.
  predicate Won(th: Thread) {
    th.call.Clearing? && th.call.got
  }

  // A step keeps the heap invariant, loses no history and leaves its thread in order; a
  // node it wins was never claimed before.
  ghost predicate StepInv(h: Heap, tid: nat, th: Thread, o: Outcome) {
    && HeapInv(o.h) && Later(h, o.h) && o.report == [] && (Won(o.th) ==> o.th.call.n !in h.claims)
    && FramesInv(o.h, o.th.frames) && CallInv(o.h, tid, o.th) && CursorKept(th, o.th)
  }

  // The same for a step that writes nothing.
  ghost predicate Quiet(h: Heap, tid: nat, th: Thread, o: Outcome)
    requires |h.backs| == |h.links|
  {
    o.h == h && o.report == [] && !Won(o.th) && FramesInv(h, o.th.frames) && CallInv(h, tid, o.th)
      && CursorKept(th, o.th)
  }

  lemma QuietStep(h: Heap, tid: nat, th: Thread, o: Outcome)
    requires HeapInv(h) && Quiet(h, tid, th, o)
    ensures StepInv(h, tid, th, o)
  {
  }

  lemma LaterRefl(h: Heap)
    requires Shaped(h)
    ensures Later(h, h)
  {
  }

  lemma IterKept(h: Heap, h': Heap, th: Thread, th': Thread)
    requires Shaped(h) && Later(h, h') && IterInv(h, th) && CursorKept(th, th')
    ensures IterInv(h', th')
  {
    forall n | 0 < n < th.it.since && Live(h', n) ensures Live(h, n) {}
  }

  lemma PushSafe(h: Heap, th: Thread, tid: nat)
    requires HeapInv(h) && ThreadInv(h, tid, th) && th.frames == []
    requires th.call.PushRead? || th.call.PushCas?
    ensures StepInv(h, tid, th, PushStep(h, th))
  {
    LaterRefl(h);
    if h.links[0].flag { assert Claimed(h, h.links[0].to); } else { PushKeeps(h); }
  }

  lemma PopSafe(h: Heap, th: Thread, tid: nat)
    requires HeapInv(h) && ThreadInv(h, tid, th) && th.frames == []
    requires th.call.PopRead? || th.call.PopCas?
    ensures StepInv(h, tid, th, PopStep(h, th, tid))
  {
    LaterRefl(h);
    if th.call.PopCas? && h.links[th.call.p] == th.call.val {
      FlagKeeps(h, th.call.p, tid); NotYetClaimed(h, th.call.p);
    }
  }

  lemma TryFlagSafe(h: Heap, th: Thread, th': Thread, tid: nat, p: nat, val: Link, n: nat)
    requires HeapInv(h) && CursorKept(th, th') && th'.frames == []
    requires p < |h.links| && 0 < n < |h.links| && (val.flag && val.to == n ==> Seen(h, p, n))
    ensures Quiet(h, tid, th, TryFlag(h, th', p, val, n))
  {
  }

  lemma DelReadSafe(h: Heap, th: Thread, tid: nat)
    requires HeapInv(h) && ThreadInv(h, tid, th) && th.call.DelRead?
    ensures Quiet(h, tid, th, DelStep(h, th))
  {
    var p, val, n := th.call.p, th.call.val, th.call.val.to;
    if !(h.links[n].mark && val.flag) && n == th.call.target {
      TryFlagSafe(h, th, th, tid, p, val, n);
    }
  }

  lemma DelUnlinkSafe(h: Heap, th: Thread, tid: nat)
    requires HeapInv(h) && ThreadInv(h, tid, th) && th.call.DelUnlink?
    ensures StepInv(h, tid, th, DelStep(h, th))
  {
    UnlinkKeeps(h, th.call.p, th.call.n);
  }

  lemma DelOtherSafe(h: Heap, th: Thread, tid: nat)
    requires HeapInv(h) && ThreadInv(h, tid, th) && th.frames == []
    requires th.call.DelHead? || th.call.DelAtCur? || th.call.DelAtPrev?
    ensures Quiet(h, tid, th, DelStep(h, th))
  {
    if th.call.DelAtPrev? {
      var p := th.it.prev.loc;
      TryFlagSafe(h, th, th.(it := th.it.(prev := NoRef)), tid, p, h.links[p], th.it.cur);
    }
  }

  lemma SettleSafe(h: Heap, th: Thread, tid: nat, p: nat, n: nat)
    requires HeapInv(h) && !th.call.IterSkip? && th.frames == []
    requires p < |h.links| && 0 < n < |h.links|
    ensures Quiet(h, tid, th, Settle(h, th, p, h.links[p], n))
  {
    TryFlagSafe(h, th, th, tid, p, h.links[p], n);
  }

  lemma FlagCasSafe(h: Heap, th: Thread, tid: nat)
    requires HeapInv(h) && ThreadInv(h, tid, th) && th.call.FlagCas?
    ensures StepInv(h, tid, th, FlagStep(h, th, tid))
  {
    LaterRefl(h);
    if h.links[th.call.p] == Clean(th.call.n) { FlagKeeps(h, th.call.p, tid); NotYetClaimed(h, th.call.p); }
    else { SettleSafe(h, th, tid, th.call.p, th.call.n); }
  }

  lemma FlagWalkSafe(h: Heap, th: Thread, tid: nat)
    requires HeapInv(h) && ThreadInv(h, tid, th)
    requires th.call.FlagBack? || th.call.FlagReload? || th.call.FlagForward?
    ensures Quiet(h, tid, th, FlagStep(h, th, tid))
  {
    match th.call
    case FlagBack(p, n) => assert Claimed(h, p);
    case FlagReload(p, n) => SettleSafe(h, th, tid, p, n);
    case FlagForward(p, n) => if h.links[p].to == n { TryFlagSafe(h, th, th, tid, p, h.links[p], n); }
  }

  // A cursor that moves to a successor passes over dead nodes only.
  lemma SkipSafe(h: Heap, th: Thread, tid: nat)
    requires HeapInv(h) && ThreadInv(h, tid, th) && th.call.IterSkip?
    ensures SkipStep(h, th).h == h && ThreadInv(h, tid, SkipStep(h, th).th) && SkipStep(h, th).report == []
  {
    forall n: nat ensures Between(h, th.it.cur, n) ==> !Live(h, n) { NoLiveBetween(h, th.it.cur, n); }
  }

  lemma BeginSafe(h: Heap, th: Thread, tid: nat, cmd: Cmd)
    requires HeapInv(h) && ThreadInv(h, tid, th) && th.call.Idle?
    ensures Begin(h, th, cmd).h == h && ThreadInv(h, tid, Begin(h, th, cmd).th) && Begin(h, th, cmd).report == []
  {
    forall n: nat ensures Between(h, 0, n) ==> !Live(h, n) { NoLiveBetween(h, 0, n); }
    forall n: nat ensures Between(h, th.it.cur, n) ==> !Live(h, n) { NoLiveBetween(h, th.it.cur, n); }
  }

  // ---------- one step of clear_flag ----------

  lemma ReplaceSafe(h: Heap, h': Heap, frames: seq<Frame>, at: FrameAt)
    requires |h.backs| == |h.links| && Later(h, h') && frames != [] && FramesInv(h, frames)
    requires FrameInv(h', frames[|frames| - 1].(at := at))
    ensures FramesInv(h', Replace(frames, at)) && Replace(frames, at)[0].n == frames[0].n
  {
    forall i | 0 <= i < |frames| - 1 ensures FrameInv(h', Replace(frames, at)[i]) { assert FrameInv(h, frames[i]); }
  }

  lemma PopFrameSafe(h: Heap, h': Heap, frames: seq<Frame>)
    requires |h.backs| == |h.links| && Later(h, h') && frames != [] && FramesInv(h, frames)
    ensures FramesInv(h', frames[..|frames| - 1])
  {
    var rest := frames[..|frames| - 1];
    forall i | 0 <= i < |rest| ensures FrameInv(h', rest[i]) { assert FrameInv(h, frames[i]); }
  }

  lemma PushFrameSafe(h: Heap, frames: seq<Frame>, g: Frame)
    requires |h.backs| == |h.links| && frames != [] && FramesInv(h, frames) && FrameInv(h, g)
    requires frames[|frames| - 1].at.RereadNext? && g.prev == frames[|frames| - 1].n && g.n < g.prev
    ensures FramesInv(h, frames + [g])
  {
  }

  // Line 97: descending into the successor of `n`, which is older than `n`.
  lemma RereadingSafe(h: Heap, frames: seq<Frame>)
    requires HeapInv(h) && frames != [] && FramesInv(h, frames) && !frames[|frames| - 1].at.SetBacklink?
    ensures frames[|frames| - 1].n < |h.links|
    ensures FramesInv(h, Rereading(frames, h.links[frames[|frames| - 1].n]))
    ensures Rereading(frames, h.links[frames[|frames| - 1].n])[0].n == frames[0].n
  {
    LaterRefl(h);
    var f := frames[|frames| - 1];
    assert FrameInv(h, f);
    assert Claimed(h, f.n);
    if h.links[f.n].flag {
      assert Claimed(h, h.links[f.n].to);
      ReplaceSafe(h, h, frames, RereadNext);
      PushFrameSafe(h, Replace(frames, RereadNext), Frame(f.n, h.links[f.n].to, SetBacklink));
    } else {
      ReplaceSafe(h, h, frames, CasMark(h.links[f.n]));
    }
  }

  lemma MarkingSafe(h: Heap, frames: seq<Frame>)
    requires HeapInv(h) && frames != [] && FramesInv(h, frames) && !frames[|frames| - 1].at.SetBacklink?
    ensures frames[|frames| - 1].n < |h.links|
    ensures FramesInv(h, Marking(frames, h.links[frames[|frames| - 1].n]))
    ensures Marking(frames, h.links[frames[|frames| - 1].n])[0].n == frames[0].n
  {
    RereadingSafe(h, frames);
    var f := frames[|frames| - 1];
    LaterRefl(h);
    assert FrameInv(h, f);
    if h.links[f.n].mark { ReplaceSafe(h, h, frames, CasUnlink(h.links[f.n])); }
  }

  // What a step of clear_flag has to give beyond the heap.
  ghost predicate FrameOutcome(h: Heap, th: Thread, o: Outcome) {
    && HeapInv(o.h) && Later(h, o.h) && o.report == [] && FramesInv(o.h, o.th.frames)
    && th.frames != [] && o.th == th.(frames := o.th.frames)
    && if o.th.frames == [] then Cut(o.h, th.frames[0].n) else o.th.frames[0].n == th.frames[0].n
  }

  lemma BacklinkSafe(h: Heap, th: Thread)
    requires HeapInv(h) && th.frames != [] && FramesInv(h, th.frames) && th.frames[|th.frames| - 1].at.SetBacklink?
    ensures FrameOutcome(h, th, FrameStep(h, th))
  {
    var f := th.frames[|th.frames| - 1];
    assert FrameInv(h, f);
    BackKeeps(h, f.n, f.prev);
    ReplaceSafe(h, SetBack(h, f.n, f.prev), th.frames, ReadNext);
  }

  // The node is marked.
  lemma CasMarkDone(h: Heap, frames: seq<Frame>)
    requires HeapInv(h) && frames != [] && FramesInv(h, frames) && frames[|frames| - 1].at.CasMark?
    requires var f := frames[|frames| - 1]; f.n < |h.links| && h.links[f.n] == f.at.next
    ensures var f := frames[|frames| - 1]; var h' := SetMark(h, f.n);
      && HeapInv(h') && Later(h, h') && FramesInv(h', Replace(frames, CasUnlink(f.at.next.(mark := true))))
      && Replace(frames, CasUnlink(f.at.next.(mark := true)))[0].n == frames[0].n
  {
    var f := frames[|frames| - 1];
    LaterRefl(h);
    assert FrameInv(h, f);
    assert Claimed(h, f.n);
    MarkKeeps(h, f.n);
    ReplaceSafe(h, SetMark(h, f.n), frames, CasUnlink(f.at.next.(mark := true)));
  }

  lemma CasMarkHit(h: Heap, th: Thread)
    requires HeapInv(h) && th.frames != [] && FramesInv(h, th.frames)
    requires var f := th.frames[|th.frames| - 1]; f.at.CasMark? && f.n < |h.links| && h.links[f.n] == f.at.next
    ensures FrameOutcome(h, th, FrameStep(h, th))
  {
    CasMarkDone(h, th.frames);
    assert FrameInv(h, th.frames[|th.frames| - 1]);
  }

  lemma CasMarkMiss(h: Heap, th: Thread)
    requires HeapInv(h) && th.frames != [] && FramesInv(h, th.frames)
    requires var f := th.frames[|th.frames| - 1]; f.at.CasMark? && f.n < |h.links| && h.links[f.n] != f.at.next
    ensures FrameOutcome(h, th, FrameStep(h, th))
  {
    LaterRefl(h);
    MarkingSafe(h, th.frames);
    assert FrameInv(h, th.frames[|th.frames| - 1]);
  }

  lemma CasMarkSafe(h: Heap, th: Thread)
    requires HeapInv(h) && th.frames != [] && FramesInv(h, th.frames) && th.frames[|th.frames| - 1].at.CasMark?
    ensures FrameOutcome(h, th, FrameStep(h, th))
  {
    var f := th.frames[|th.frames| - 1];
    assert FrameInv(h, f);
    if h.links[f.n] == f.at.next { CasMarkHit(h, th); } else { CasMarkMiss(h, th); }
  }

  // The node is unlinked.
  lemma CasUnlinkDone(h: Heap, frames: seq<Frame>)
    requires HeapInv(h) && frames != [] && FramesInv(h, frames) && frames[|frames| - 1].at.CasUnlink?
    ensures var f := frames[|frames| - 1];
      && f.n < |h.links| && f.prev < |h.links| && |h.backs| == |h.links| && f.at.next.mark && !f.at.next.flag
      && var h' := ListHeap.Unlink(h, f.prev, f.n, f.at.next.to);
         HeapInv(h') && Later(h, h') && FramesInv(h', frames[..|frames| - 1]) && Cut(h', f.n)
  {
    var f := frames[|frames| - 1];
    LaterRefl(h);
    assert FrameInv(h, f);
    assert Claimed(h, f.n);
    UnlinkKeeps(h, f.prev, f.n);
    PopFrameSafe(h, ListHeap.Unlink(h, f.prev, f.n, f.at.next.to), frames);
  }

  lemma CasUnlinkSafe(h: Heap, th: Thread)
    requires HeapInv(h) && th.frames != [] && FramesInv(h, th.frames) && th.frames[|th.frames| - 1].at.CasUnlink?
    ensures FrameOutcome(h, th, FrameStep(h, th))
  {
    CasUnlinkDone(h, th.frames);
  }

  lemma FrameSafe(h: Heap, th: Thread)
    requires HeapInv(h) && th.frames != [] && FramesInv(h, th.frames)
    ensures FrameOutcome(h, th, FrameStep(h, th))
  {
    var at := th.frames[|th.frames| - 1].at;
    if at.SetBacklink? { BacklinkSafe(h, th); }
    else if at.CasMark? { CasMarkSafe(h, th); }
    else if at.CasUnlink? { CasUnlinkSafe(h, th); }
    else {
      LaterRefl(h);
      assert FrameInv(h, th.frames[|th.frames| - 1]);
      if at.ReadNext? { MarkingSafe(h, th.frames); } else { RereadingSafe(h, th.frames); }
    }
  }

  // ---------- one step of any thread ----------

  ghost predicate ThreadOutcome(h: Heap, th: Thread, tid: nat, o: Outcome) {
    && HeapInv(o.h) && Later(h, o.h) && ThreadInv(o.h, tid, o.th)
    && (Won(o.th) ==> (Won(th) && o.th.call.n == th.call.n && o.report == []) || o.th.call.n !in h.claims)
    && o.report == if Won(th) && th.frames == [] then [th.call.n] else []
  }

  lemma FrameStepSafe(h: Heap, th: Thread, tid: nat)
    requires HeapInv(h) && ThreadInv(h, tid, th) && th.frames != []
    ensures ThreadOutcome(h, th, tid, FrameStep(h, th))
  {
    FrameSafe(h, th);
    ThreadInvLater(h, FrameStep(h, th).h, tid, th);
  }

  lemma QuietCallSafe(h: Heap, th: Thread, tid: nat, cmd: Cmd)
    requires HeapInv(h) && ThreadInv(h, tid, th) && th.frames == []
    requires th.call.Idle? || th.call.IterSkip? || th.call.Clearing?
    ensures ThreadOutcome(h, th, tid, ThreadStep(h, th, tid, cmd))
  {
    LaterRefl(h);
    match th.call
    case Idle => BeginSafe(h, th, tid, cmd);
    case IterSkip => SkipSafe(h, th, tid);
    case Clearing(_, _) =>
  }

  lemma ThreadStepSafe(h: Heap, th: Thread, tid: nat, cmd: Cmd)
    requires HeapInv(h) && ThreadInv(h, tid, th)
    ensures ThreadOutcome(h, th, tid, ThreadStep(h, th, tid, cmd))
  {
    if th.frames != [] {
      FrameStepSafe(h, th, tid);
    } else if th.call.Idle? || th.call.IterSkip? || th.call.Clearing? {
      QuietCallSafe(h, th, tid, cmd);
    } else {
      MovingSafe(h, th, tid, cmd);
      MovedOutcome(h, th, tid, ThreadStep(h, th, tid, cmd));
    }
  }

  lemma MovedOutcome(h: Heap, th: Thread, tid: nat, o: Outcome)
    requires HeapInv(h) && ThreadInv(h, tid, th) && !th.call.Clearing? && StepInv(h, tid, th, o)
    ensures ThreadOutcome(h, th, tid, o)
  {
    IterKept(h, o.h, th, o.th);
  }

  lemma MovingSafe(h: Heap, th: Thread, tid: nat, cmd: Cmd)
    requires HeapInv(h) && ThreadInv(h, tid, th) && th.frames == []
    requires !th.call.Idle? && !th.call.IterSkip? && !th.call.Clearing?
    ensures StepInv(h, tid, th, ThreadStep(h, th, tid, cmd))
  {
    match th.call
    case PushRead(_) => PushSafe(h, th, tid);
    case PushCas(_) => PushSafe(h, th, tid);
    case PopRead(_) => PopSafe(h, th, tid);
    case PopCas(_, _) => PopSafe(h, th, tid);
    case DelHead(_) => DelOtherSafe(h, th, tid); QuietStep(h, tid, th, DelStep(h, th));
    case DelRead(_, _, _) => DelReadSafe(h, th, tid); QuietStep(h, tid, th, DelStep(h, th));
    case DelUnlink(_, _, _, _) => DelUnlinkSafe(h, th, tid);
    case DelAtCur => DelOtherSafe(h, th, tid); QuietStep(h, tid, th, DelStep(h, th));
    case DelAtPrev => DelOtherSafe(h, th, tid); QuietStep(h, tid, th, DelStep(h, th));
    case FlagCas(_, _) => FlagCasSafe(h, th, tid);
    case FlagBack(_, _) => FlagWalkSafe(h, th, tid); QuietStep(h, tid, th, FlagStep(h, th, tid));
    case FlagReload(_, _) => FlagWalkSafe(h, th, tid); QuietStep(h, tid, th, FlagStep(h, th, tid));
    case FlagForward(_, _) => FlagWalkSafe(h, th, tid); QuietStep(h, tid, th, FlagStep(h, th, tid));
  }

  // ---------- the whole state ----------

  /** Every reported node is gone, no node is reported twice, and a winner still clearing
      its node has not reported it. */
  ghost predicate ReportsInv(s: State) {
    && (forall k :: 0 <= k < |s.reports| ==> s.reports[k] in s.h.claims && Cut(s.h, s.reports[k]))
    && (forall k, l :: 0 <= k < l < |s.reports| ==> s.reports[k] != s.reports[l])
    && (forall t :: 0 <= t < |s.threads| && Won(s.threads[t]) ==> s.threads[t].call.n !in s.reports)
  }

  ghost predicate Inv(s: State) {
    && HeapInv(s.h)
    && (forall t :: 0 <= t < |s.threads| ==> ThreadInv(s.h, t, s.threads[t]))
    && ReportsInv(s)
  }

  lemma InvStep(s: State, a: Action)
    requires Inv(s)
    ensures Inv(Step(s, a)) && Later(s.h, Step(s, a).h)
  {
    LaterRefl(s.h);
    if a.tid < |s.threads| {
      ThreadStepSafe(s.h, s.threads[a.tid], a.tid, a.cmd);
      var s' := Step(s, a);
      forall t | 0 <= t < |s'.threads| ensures ThreadInv(s'.h, t, s'.threads[t]) {
        if t != a.tid { ThreadInvLater(s.h, s'.h, t, s.threads[t]); }
      }
      ReportsStep(s, a);
    }
  }

  // A winner is the thread named in the claim, so two threads never win the same node.
  lemma WinnerNamed(s: State, t: nat)
    requires Inv(s) && t < |s.threads| && Won(s.threads[t])
    ensures s.threads[t].call.n in s.h.claims && s.h.claims[s.threads[t].call.n].tid == t
    ensures s.threads[t].frames == [] ==> Cut(s.h, s.threads[t].call.n)
  {
    assert ThreadInv(s.h, t, s.threads[t]);
  }

  lemma ReportsStep(s: State, a: Action)
    requires Inv(s) && a.tid < |s.threads|
    requires ThreadOutcome(s.h, s.threads[a.tid], a.tid, ThreadStep(s.h, s.threads[a.tid], a.tid, a.cmd))
    ensures ReportsInv(Step(s, a))
  {
    var t, th := a.tid, s.threads[a.tid];
    var o := ThreadStep(s.h, th, t, a.cmd);
    assert Step(s, a) == State(o.h, s.threads[t := o.th], s.reports + o.report);
    if Won(th) { WinnerNamed(s, t); }
    forall u | 0 <= u < |s.threads| && Won(s.threads[u])
      ensures s.threads[u].call.n in s.h.claims && s.h.claims[s.threads[u].call.n].tid == u
    {
      WinnerNamed(s, u);
    }
    ReportsUpdate(s, o, t);
  }

  lemma ReportsUpdate(s: State, o: Outcome, t: nat)
    requires ReportsInv(s) && t < |s.threads| && Later(s.h, o.h)
    requires forall u :: 0 <= u < |s.threads| && Won(s.threads[u]) ==>
      s.threads[u].call.n in s.h.claims && s.h.claims[s.threads[u].call.n].tid == u
    requires o.report == [] || (Won(s.threads[t]) && o.report == [s.threads[t].call.n] && Cut(s.h, s.threads[t].call.n))
    requires Won(o.th) ==>
      (Won(s.threads[t]) && o.th.call.n == s.threads[t].call.n && o.report == []) || o.th.call.n !in s.h.claims
    ensures ReportsInv(State(o.h, s.threads[t := o.th], s.reports + o.report))
  {
    forall n | n in s.reports ensures n in s.h.claims && Cut(s.h, n) {}
  }

  lemma StartInv(threads: nat)
    ensures Inv(Start(threads))
  {
  }

  lemma {:induction false} ExecInv(threads: nat, schedule: seq<Action>)
    ensures Inv(Exec(Start(threads), schedule))
    decreases |schedule|
  {
    if schedule == [] {
      StartInv(threads);
    } else {
      ExecInv(threads, schedule[..|schedule| - 1]);
      InvStep(Exec(Start(threads), schedule[..|schedule| - 1]), schedule[|schedule| - 1]);
    }
  }
}
