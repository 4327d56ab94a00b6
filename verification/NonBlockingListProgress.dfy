/** Which calls on the list return when their thread runs alone, wherever it and the other threads
    have stopped: all but a deletion that looks for the parent of its node while another deletion
    has stopped with a dead node just before it.  try_flag does not help to unlink that one. */
module NonBlockingListProgress {
  import opened ListHeap
  import opened NonBlockingList
  import opened NonBlockingListSafety
  import opened NonBlockingListCalls

  /** A live node that no live location points at: a dead one still stands between. */
  ghost predicate Stuck(h: Heap, n: nat) {
    0 < n && Live(h, n) && forall p :: 0 <= p < |h.links| && Live(h, p) ==> h.links[p].to != n
  }

  // ---------- what clear_flag uses up ----------

  predicate Covered(frames: seq<Frame>, p: nat, n: nat) {
    exists i :: 0 <= i < |frames| && frames[i].prev == p && frames[i].n == n
  }

  /** The flags that no clear_flag on the stack is about. */
  ghost function OpenFlags(h: Heap, frames: seq<Frame>): set<nat> {
    set p: nat | p < |h.links| && h.links[p].flag && !Covered(frames, p, h.links[p].to)
  }

  function FrameRank(h: Heap, f: Frame): nat {
    match f.at
    case SetBacklink => 6
    case ReadNext => 5
    case RereadNext => 4
    case CasMark(next) => if f.n < |h.links| && h.links[f.n] == next then 2 else 3
    case CasUnlink(_) => 1
  }

  function StackRank(h: Heap, frames: seq<Frame>): nat {
    if frames == [] then 0 else 4 * (|frames| - 1) + FrameRank(h, frames[|frames| - 1])
  }

  ghost function Work(h: Heap, frames: seq<Frame>): nat {
    10 * |OpenFlags(h, frames)| + StackRank(h, frames)
  }

  lemma SubsetSize(a: set<nat>, b: set<nat>)
    requires a <= b
    ensures |a| <= |b|
  {
    if a != b { assert |b| == |a| + |b - a| by { assert b == a + (b - a); } }
  }

  // Frames with the same ends cover the same flags.
  lemma ReplaceCovers(frames: seq<Frame>, at: FrameAt, p: nat, n: nat)
    requires frames != []
    ensures Covered(Replace(frames, at), p, n) <==> Covered(frames, p, n)
  {
    var after := Replace(frames, at);
    if i :| 0 <= i < |frames| && frames[i].prev == p && frames[i].n == n {
      assert after[i].prev == p && after[i].n == n;
    }
    if i :| 0 <= i < |after| && after[i].prev == p && after[i].n == n {
      assert frames[i].prev == p && frames[i].n == n;
    }
  }

  lemma SameFlags(h: Heap, h': Heap, frames: seq<Frame>, at: FrameAt)
    requires frames != [] && |h'.links| == |h.links|
    requires forall p :: 0 <= p < |h.links| ==> h'.links[p].flag == h.links[p].flag && h'.links[p].to == h.links[p].to
    ensures OpenFlags(h', Replace(frames, at)) == OpenFlags(h, frames)
  {
    forall p: nat | p < |h.links| ensures p in OpenFlags(h', Replace(frames, at)) <==> p in OpenFlags(h, frames) {
      ReplaceCovers(frames, at, p, h.links[p].to);
    }
  }

  // No frame is about the link of the top frame's own node.
  lemma TopUncovered(h: Heap, frames: seq<Frame>, n: nat)
    requires HeapInv(h) && frames != [] && FramesInv(h, frames)
    ensures !Covered(frames, frames[|frames| - 1].n, n)
  {
    var top := frames[|frames| - 1].n;
    forall i | 0 <= i < |frames| ensures frames[i].prev != top {
      assert FrameInv(h, frames[i]) && Claimed(h, frames[i].n);
      FramesDescend(h, frames, i);
    }
  }

  lemma {:induction false} FramesDescend(h: Heap, frames: seq<Frame>, i: nat)
    requires |h.backs| == |h.links| && FramesInv(h, frames) && i < |frames|
    ensures frames[|frames| - 1].n <= frames[i].n
    decreases |frames| - i
  {
    if i + 1 < |frames| { FramesDescend(h, frames, i + 1); }
  }

  lemma MoreCovers(frames: seq<Frame>, f: Frame, p: nat, n: nat)
    ensures Covered(frames + [f], p, n) <==> Covered(frames, p, n) || (f.prev == p && f.n == n)
  {
    var more := frames + [f];
    assert more[|frames|] == f && forall i :: 0 <= i < |frames| ==> more[i] == frames[i];
  }

  lemma PushCovers(h: Heap, frames: seq<Frame>)
    requires HeapInv(h) && frames != [] && FramesInv(h, frames)
    requires var n := frames[|frames| - 1].n; n < |h.links| && h.links[n].flag
    ensures var n := frames[|frames| - 1].n;
      var more := Replace(frames, RereadNext) + [Frame(n, h.links[n].to, SetBacklink)];
      |OpenFlags(h, more)| < |OpenFlags(h, frames)|
  {
    var n := frames[|frames| - 1].n;
    var kept := Replace(frames, RereadNext);
    var f := Frame(n, h.links[n].to, SetBacklink);
    var more := kept + [f];
    TopUncovered(h, frames, h.links[n].to);
    MoreCovers(kept, f, n, h.links[n].to);
    forall p: nat | p in OpenFlags(h, more) ensures p in OpenFlags(h, frames) && p != n {
      ReplaceCovers(frames, RereadNext, p, h.links[p].to);
      MoreCovers(kept, f, p, h.links[p].to);
    }
    assert n in OpenFlags(h, frames);
    SubsetSize(OpenFlags(h, more), OpenFlags(h, frames) - {n});
  }

  lemma RestCovers(frames: seq<Frame>, p: nat, n: nat)
    requires frames != []
    ensures var top := frames[|frames| - 1];
      Covered(frames, p, n) ==> Covered(frames[..|frames| - 1], p, n) || (top.prev == p && top.n == n)
  {
    var rest := frames[..|frames| - 1];
    assert forall i :: 0 <= i < |rest| ==> rest[i] == frames[i];
  }

  lemma PopCovers(h: Heap, h': Heap, frames: seq<Frame>)
    requires frames != [] && |h'.links| == |h.links|
    requires var f := frames[|frames| - 1]; f.prev < |h.links| && !(h'.links[f.prev] == Flagged(f.n))
    requires forall p :: 0 <= p < |h.links| && h'.links[p].flag ==> h'.links[p] == h.links[p] && !h.links[p].mark
    ensures |OpenFlags(h', frames[..|frames| - 1])| <= |OpenFlags(h, frames)|
  {
    var rest := frames[..|frames| - 1];
    forall p: nat | p in OpenFlags(h', rest) ensures p in OpenFlags(h, frames) {
      RestCovers(frames, p, h.links[p].to);
    }
    SubsetSize(OpenFlags(h', rest), OpenFlags(h, frames));
  }

  // ---------- one step of clear_flag ----------

  lemma ReplaceWork(h: Heap, h': Heap, frames: seq<Frame>, at: FrameAt)
    requires frames != [] && |h'.links| == |h.links|
    requires forall p :: 0 <= p < |h.links| ==> h'.links[p].flag == h.links[p].flag && h'.links[p].to == h.links[p].to
    requires FrameRank(h', frames[|frames| - 1].(at := at)) < FrameRank(h, frames[|frames| - 1])
    ensures Work(h', Replace(frames, at)) < Work(h, frames)
  {
    SameFlags(h, h', frames, at);
  }

  lemma PushWork(h: Heap, frames: seq<Frame>)
    requires HeapInv(h) && frames != [] && FramesInv(h, frames)
    requires var n := frames[|frames| - 1].n; n < |h.links| && h.links[n].flag
    ensures Work(h, Rereading(frames, h.links[frames[|frames| - 1].n])) < Work(h, frames)
  {
    PushCovers(h, frames);
  }

  lemma RereadWork(h: Heap, frames: seq<Frame>)
    requires HeapInv(h) && frames != [] && FramesInv(h, frames)
    requires var f := frames[|frames| - 1];
      f.n < |h.links| && (f.at.ReadNext? || f.at.RereadNext? || (f.at.CasMark? && h.links[f.n] != f.at.next))
    ensures Work(h, Rereading(frames, h.links[frames[|frames| - 1].n])) < Work(h, frames)
  {
    var n := frames[|frames| - 1].n;
    if h.links[n].flag { PushWork(h, frames); } else { ReplaceWork(h, h, frames, CasMark(h.links[n])); }
  }

  lemma MarkingWork(h: Heap, frames: seq<Frame>)
    requires HeapInv(h) && frames != [] && FramesInv(h, frames)
    requires var f := frames[|frames| - 1];
      f.n < |h.links| && (f.at.ReadNext? || (f.at.CasMark? && h.links[f.n] != f.at.next))
    ensures Work(h, Marking(frames, h.links[frames[|frames| - 1].n])) < Work(h, frames)
  {
    var n := frames[|frames| - 1].n;
    if h.links[n].mark { ReplaceWork(h, h, frames, CasUnlink(h.links[n])); } else { RereadWork(h, frames); }
  }

  lemma UnlinkWork(h: Heap, frames: seq<Frame>)
    requires HeapInv(h) && frames != [] && FramesInv(h, frames) && frames[|frames| - 1].at.CasUnlink?
    ensures var f := frames[|frames| - 1];
      f.prev < |h.links|
        && Work(ListHeap.Unlink(h, f.prev, f.n, f.at.next.to), frames[..|frames| - 1]) < Work(h, frames)
  {
    var f, k := frames[|frames| - 1], |frames| - 1;
    assert FrameInv(h, f) && Claimed(h, f.n);
    PopCovers(h, ListHeap.Unlink(h, f.prev, f.n, f.at.next.to), frames);
    if k > 0 { assert frames[k - 1].at.RereadNext? && frames[..k][k - 1] == frames[k - 1]; }
  }

  lemma MarkWork(h: Heap, frames: seq<Frame>)
    requires HeapInv(h) && frames != [] && FramesInv(h, frames)
    requires var f := frames[|frames| - 1]; f.at.CasMark? && f.n < |h.links| && h.links[f.n] == f.at.next
    ensures var f := frames[|frames| - 1];
      Work(SetMark(h, f.n), Replace(frames, CasUnlink(f.at.next.(mark := true)))) < Work(h, frames)
  {
    var f := frames[|frames| - 1];
    ReplaceWork(h, SetMark(h, f.n), frames, CasUnlink(f.at.next.(mark := true)));
  }

  lemma BacklinkWork(h: Heap, frames: seq<Frame>)
    requires |h.backs| == |h.links| && frames != [] && frames[|frames| - 1].at.SetBacklink?
    requires frames[|frames| - 1].n < |h.backs|
    ensures var f := frames[|frames| - 1]; Work(SetBack(h, f.n, f.prev), Replace(frames, ReadNext)) < Work(h, frames)
  {
    var f := frames[|frames| - 1];
    ReplaceWork(h, SetBack(h, f.n, f.prev), frames, ReadNext);
  }

  predicate TopAt(th: Thread, h: Heap) {
    th.frames != [] && th.frames[|th.frames| - 1].n < |h.links| == |h.backs|
      && th.frames[|th.frames| - 1].prev < |h.links|
  }

  ghost predicate LessWork(h: Heap, th: Thread, o: Outcome) {
    o.th.call.Failed? || Work(o.h, o.th.frames) < Work(h, th.frames)
  }

  lemma BacklinkLess(h: Heap, th: Thread)
    requires TopAt(th, h) && th.frames[|th.frames| - 1].at.SetBacklink?
    ensures LessWork(h, th, FrameStep(h, th))
  {
    BacklinkWork(h, th.frames);
  }

  lemma UnlinkIs(h: Heap, th: Thread)
    requires TopAt(th, h) && th.frames[|th.frames| - 1].at.CasUnlink?
    ensures var f, o := th.frames[|th.frames| - 1], FrameStep(h, th);
      o.th.call.Failed? || (o.h == ListHeap.Unlink(h, f.prev, f.n, f.at.next.to)
                            && o.th.frames == th.frames[..|th.frames| - 1])
  {
  }

  lemma SameWork(h: Heap, frames: seq<Frame>, h': Heap, frames': seq<Frame>, th: Thread, o: Outcome)
    requires Work(h', frames') < Work(h, frames) && th.frames == frames
    requires o.th.call.Failed? || (o.h == h' && o.th.frames == frames')
    ensures LessWork(h, th, o)
  {
  }

  lemma UnlinkLess(h: Heap, th: Thread)
    requires HeapInv(h) && FramesInv(h, th.frames) && TopAt(th, h) && th.frames[|th.frames| - 1].at.CasUnlink?
    ensures LessWork(h, th, FrameStep(h, th))
  {
    var f := th.frames[|th.frames| - 1];
    UnlinkIs(h, th);
    UnlinkWork(h, th.frames);
    SameWork(h, th.frames, ListHeap.Unlink(h, f.prev, f.n, f.at.next.to), th.frames[..|th.frames| - 1], th,
      FrameStep(h, th));
  }

  lemma RereadLess(h: Heap, th: Thread)
    requires HeapInv(h) && FramesInv(h, th.frames) && TopAt(th, h)
    requires th.frames[|th.frames| - 1].at.RereadNext? || th.frames[|th.frames| - 1].at.ReadNext?
    ensures LessWork(h, th, FrameStep(h, th))
  {
    if th.frames[|th.frames| - 1].at.RereadNext? { RereadWork(h, th.frames); } else { MarkingWork(h, th.frames); }
  }

  lemma MarkIs(h: Heap, th: Thread)
    requires TopAt(th, h) && th.frames[|th.frames| - 1].at.CasMark?
    ensures var f, o := th.frames[|th.frames| - 1], FrameStep(h, th);
      if h.links[f.n] == f.at.next then
        o.h == SetMark(h, f.n) && o.th.frames == Replace(th.frames, CasUnlink(f.at.next.(mark := true)))
      else o.h == h && o.th.frames == Marking(th.frames, h.links[f.n])
  {
  }

  lemma MarkLess(h: Heap, th: Thread)
    requires HeapInv(h) && FramesInv(h, th.frames) && TopAt(th, h) && th.frames[|th.frames| - 1].at.CasMark?
    ensures LessWork(h, th, FrameStep(h, th))
  {
    var f := th.frames[|th.frames| - 1];
    MarkIs(h, th);
    if h.links[f.n] == f.at.next {
      MarkWork(h, th.frames);
      SameWork(h, th.frames, SetMark(h, f.n), Replace(th.frames, CasUnlink(f.at.next.(mark := true))), th,
        FrameStep(h, th));
    } else {
      MarkingWork(h, th.frames);
      SameWork(h, th.frames, h, Marking(th.frames, h.links[f.n]), th, FrameStep(h, th));
    }
  }

  // An access of clear_flag leaves less work.
  lemma FrameWork(h: Heap, th: Thread)
    requires HeapInv(h) && th.frames != [] && FramesInv(h, th.frames)
    ensures LessWork(h, th, FrameStep(h, th))
  {
    var f := th.frames[|th.frames| - 1];
    TopInBounds(h, th);
    if f.at.SetBacklink? { BacklinkLess(h, th); }
    else if f.at.CasUnlink? { UnlinkLess(h, th); }
    else if f.at.CasMark? { MarkLess(h, th); }
    else { RereadLess(h, th); }
  }

  lemma TopInBounds(h: Heap, th: Thread)
    requires HeapInv(h) && th.frames != [] && FramesInv(h, th.frames)
    ensures TopAt(th, h)
  {
    assert FrameInv(h, th.frames[|th.frames| - 1]) && Claimed(h, th.frames[|th.frames| - 1].n);
  }

  // Entering clear_flag for a flag just seen leaves less work too.
  lemma ClearWork(h: Heap, p: nat)
    requires p < |h.links| && h.links[p].flag
    ensures Work(h, [Frame(p, h.links[p].to, SetBacklink)]) < Work(h, [])
  {
    var frames := [Frame(p, h.links[p].to, SetBacklink)];
    assert frames[0].prev == p && frames[0].n == h.links[p].to;
    assert Covered(frames, p, h.links[p].to) && !Covered([], p, h.links[p].to);
    assert p in OpenFlags(h, []) && p !in OpenFlags(h, frames);
    SubsetSize(OpenFlags(h, frames), OpenFlags(h, []) - {p});
  }

  // ---------- what a call uses up ----------

  /** The phase of the call first, then the locations ahead of it, then the work of clear_flag or the
      accesses that are left. */
  datatype Rank = Rank(phase: nat, ahead: nat, work: nat)

  predicate Below(r: Rank, q: Rank) {
    r.phase < q.phase
    || (r.phase == q.phase && (r.ahead < q.ahead || (r.ahead == q.ahead && r.work < q.work)))
  }

  // Backlinks lead from a node to a newer one, or to the head.
  function BackDistance(h: Heap, p: nat): nat {
    if p == 0 || p > |h.links| then 0 else |h.links| - p
  }

  /** A walk forward from `p` comes to no dead node whose link leads to `n`. */
  predicate Sound(h: Heap, p: nat, n: nat)
    requires Shaped(h) && p < |h.links|
    decreases Distance(h, p)
  {
    var to := h.links[p].to;
    to == 0 || (if to == n then !h.links[p].mark else Sound(h, to, n))
  }

  // Where a thread in try_flag stands.
  function FlagRank(h: Heap, call: Call): Rank
    requires Flagging(call) && Shaped(h) && call.p < |h.links|
  {
    match call
    case FlagCas(p, n) => Rank(if h.links[p].mark then 9 else if h.links[p].to == n then 5 else 7, 0, 0)
    case FlagBack(p, n) => Rank(8, BackDistance(h, p), 0)
    case FlagReload(p, n) => Rank(8, BackDistance(h, p), 1)
    case FlagForward(p, n) => Rank(if Sound(h, p, n) then 6 else 10, Distance(h, p), 0)
  }

  ghost function RankOf(h: Heap, th: Thread): Rank
    requires Shaped(h) && (Flagging(th.call) ==> th.call.p < |h.links|)
  {
    match th.call
    case Idle => Rank(0, 0, 0)
    case Failed => Rank(0, 0, 0)
    case DelAtCur => Rank(14, 0, 0)
    case DelAtPrev => Rank(13, 0, 0)
    case DelHead(_) => Rank(13, 0, 0)
    case DelRead(_, _, val) => Rank(12, val.to, 1)
    case DelUnlink(_, _, n, _) => Rank(12, n, 0)
    case PopRead(p) => Rank(4, Distance(h, p), 2)
    case PopCas(p, val) => Rank(4, Distance(h, p), if p < |h.links| && h.links[p] == val then 0 else 1)
    case PushRead(_) => Rank(3, 0, Work(h, th.frames))
    case PushCas(_) => Rank(2, 0, 0)
    case IterSkip => Rank(2, th.it.cur, 0)
    case Clearing(_, _) => Rank(1, 0, Work(h, th.frames))
    case FlagCas(_, _) => FlagRank(h, th.call)
    case FlagBack(_, _) => FlagRank(h, th.call)
    case FlagReload(_, _) => FlagRank(h, th.call)
    case FlagForward(_, _) => FlagRank(h, th.call)
  }

  // A step returns or goes down.
  ghost predicate Descends(h: Heap, th: Thread, o: Outcome) {
    o.th.call.Idle? || o.th.call.Failed? ||
    (Shaped(h) && Shaped(o.h) && (Flagging(th.call) ==> th.call.p < |h.links|)
     && (Flagging(o.th.call) ==> o.th.call.p < |o.h.links|) && Below(RankOf(o.h, o.th), RankOf(h, th)))
  }

  ghost predicate Parented(h: Heap, n: nat) {
    exists p :: 0 <= p < |h.links| && Live(h, p) && h.links[p].to == n
  }

  // From a live location the walk is sound, unless `n` is stuck.
  lemma {:induction false} LiveSound(h: Heap, p: nat, n: nat)
    requires HeapInv(h) && Live(h, p) && !Stuck(h, n) && 0 < n < |h.links|
    ensures Sound(h, p, n)
    decreases Distance(h, p)
  {
    var to := h.links[p].to;
    if to != 0 && to != n {
      if Live(h, to) {
        LiveSound(h, to, n);
      } else {
        AcrossDead(h, p, n);
        var k := h.links[to].to;
        if k != 0 && k != n { LiveSound(h, k, n); }
      }
    }
  }

  // A dead node behind a live location leads to a live one, and not to `n`.
  lemma AcrossDead(h: Heap, p: nat, n: nat)
    requires HeapInv(h) && Live(h, p) && !Stuck(h, n) && 0 < n < |h.links|
    requires h.links[p].to != 0 && !Live(h, h.links[p].to)
    ensures var k := h.links[h.links[p].to].to; k != n && (k == 0 || Live(h, k))
  {
    var m := h.links[p].to;
    var k := h.links[m].to;
    assert Claimed(h, m);
    if h.links[h.claims[m].pred] == Flagged(m) { OneLivePredecessor(h, p, h.claims[m].pred); }
    assert DeadThenLive(h, m);
    if k == n {
      var q :| 0 <= q < |h.links| && Live(h, q) && h.links[q].to == n;
      OneLivePredecessorBehind(h, p, m, q);
    }
  }

  predicate SettlesDown(h: Heap, p: nat, n: nat, call: Call)
    requires Shaped(h) && p < |h.links|
  {
    && Flagging(call) && call.n == n && call.p < |h.links|
    && if h.links[p].mark then call == FlagBack(p, n) else FlagRank(h, call).phase <= 6
  }

  lemma SettleDescends(h: Heap, th: Thread, p: nat, n: nat)
    requires HeapInv(h) && p < |h.links| && 0 < n < |h.links| && !Stuck(h, n)
    ensures var o := Settle(h, th, p, h.links[p], n);
      o.h == h && (o.th.call.Idle? || o.th.call.Clearing? || SettlesDown(h, p, n, o.th.call))
  {
    if !h.links[p].mark { LiveSound(h, p, n); }
  }

  // ---------- deletions that will find their node ----------

  // The walk of nblist_del stands at a live location, or behind a node that it has just unlinked.
  ghost predicate Fresh(h: Heap, p: nat, val: Link) {
    && p < |h.links| && val == h.links[p]
    && (Live(h, p) || val.to == 0 || (Live(h, val.to) && Parented(h, val.to)))
  }

  predicate FreshDead(h: Heap, p: nat, n: nat, next: Link) {
    Live(h, p) && h.links[p] == Flagged(n) && n < |h.links| && h.links[n] == next && next.mark
  }

  /** The call does not look for a stuck node, or will not do so before it has unlinked what is in the
      way. */
  ghost predicate Good(h: Heap, th: Thread) {
    match th.call
    case DelRead(target, p, val) => !Stuck(h, target) || Fresh(h, p, val)
    case DelUnlink(target, p, n, next) => !Stuck(h, target) || FreshDead(h, p, n, next)
    case DelAtCur => !Stuck(h, th.it.cur)
    case DelAtPrev => !Stuck(h, th.it.cur)
    case _ => Flagging(th.call) ==> !Stuck(h, th.call.n)
  }

  // A step returns, or goes down and stays good.
  ghost predicate Onwards(h: Heap, th: Thread, o: Outcome) {
    Descends(h, th, o) && (o.th.call.Idle? || o.th.call.Failed? || Good(o.h, o.th))
  }

  lemma FlagHits(h: Heap, th: Thread, tid: nat)
    requires HeapInv(h) && CallInv(h, tid, th) && th.call.FlagCas? && h.links[th.call.p].to == th.call.n
    requires !h.links[th.call.p].mark
    ensures FlagStep(h, th, tid).th.call.Clearing?
  {
  }

  lemma FlagMisses(h: Heap, th: Thread, tid: nat)
    requires CallInv(h, tid, th) && th.call.FlagCas? && th.call.p < |h.links|
    requires h.links[th.call.p].to != th.call.n || h.links[th.call.p].mark
    ensures FlagStep(h, th, tid) == Settle(h, th, th.call.p, h.links[th.call.p], th.call.n)
  {
  }

  // From a rank that is high enough, try_flag goes down.
  lemma SettlesBelow(h: Heap, th: Thread, o: Outcome, p: nat, n: nat)
    requires Shaped(h) && p < |h.links| && Flagging(th.call) && th.call.p < |h.links| && !Stuck(h, n)
    requires o.h == h && (o.th.call.Idle? || o.th.call.Clearing? || SettlesDown(h, p, n, o.th.call))
    requires if h.links[p].mark then Below(Rank(8, BackDistance(h, p), 0), FlagRank(h, th.call))
             else FlagRank(h, th.call).phase > 6
    ensures Onwards(h, th, o)
  {
  }

  lemma FlagCasOnwards(h: Heap, th: Thread, tid: nat)
    requires HeapInv(h) && CallInv(h, tid, th) && th.call.FlagCas? && Good(h, th)
    ensures HeapInv(FlagStep(h, th, tid).h) ==> Onwards(h, th, FlagStep(h, th, tid))
  {
    var p, n := th.call.p, th.call.n;
    if h.links[p].to == n && !h.links[p].mark {
      FlagHits(h, th, tid);
    } else {
      FlagMisses(h, th, tid);
      SettleDescends(h, th, p, n);
      SettlesBelow(h, th, FlagStep(h, th, tid), p, n);
    }
  }

  lemma FlagReloadOnwards(h: Heap, th: Thread, tid: nat)
    requires HeapInv(h) && CallInv(h, tid, th) && th.call.FlagReload? && Good(h, th)
    ensures Onwards(h, th, FlagStep(h, th, tid))
  {
    SettleDescends(h, th, th.call.p, th.call.n);
    SettlesBelow(h, th, FlagStep(h, th, tid), th.call.p, th.call.n);
  }

  lemma FlagBackOnwards(h: Heap, th: Thread, tid: nat)
    requires HeapInv(h) && CallInv(h, tid, th) && th.call.FlagBack? && Good(h, th)
    ensures Onwards(h, th, FlagStep(h, th, tid))
  {
    assert Claimed(h, th.call.p);
  }

  lemma FlagForwardOnwards(h: Heap, th: Thread, tid: nat)
    requires Shaped(h) && CallInv(h, tid, th) && th.call.FlagForward? && Good(h, th)
    ensures Onwards(h, th, FlagStep(h, th, tid))
  {
  }

  lemma PopLoopBelow(h: Heap, p: nat)
    requires Shaped(h) && p < |h.links| && !PopLoop(p, h.links[p]).Idle?
    ensures var call := PopLoop(p, h.links[p]);
      && (call.PopRead? ==> Distance(h, call.p) < Distance(h, p))
      && (call.PopCas? ==> call == PopCas(p, h.links[p]))
  {
  }

  lemma PopReadOnwards(h: Heap, th: Thread, tid: nat)
    requires Shaped(h) && CallInv(h, tid, th) && th.call.PopRead?
    ensures Onwards(h, th, PopStep(h, th, tid))
  {
    if !PopLoop(th.call.p, h.links[th.call.p]).Idle? { PopLoopBelow(h, th.call.p); }
  }

  lemma PopCasHits(h: Heap, th: Thread, tid: nat)
    requires Shaped(h) && CallInv(h, tid, th) && th.call.PopCas? && h.links[th.call.p] == th.call.val
    ensures Shaped(PopStep(h, th, tid).h) ==> Onwards(h, th, PopStep(h, th, tid))
  {
  }

  lemma PopCasMisses(h: Heap, th: Thread, tid: nat)
    requires Shaped(h) && CallInv(h, tid, th) && th.call.PopCas? && h.links[th.call.p] != th.call.val
    ensures Onwards(h, th, PopStep(h, th, tid))
  {
    if !PopLoop(th.call.p, h.links[th.call.p]).Idle? { PopLoopBelow(h, th.call.p); }
  }

  lemma PushOnwards(h: Heap, th: Thread)
    requires HeapInv(h) && th.frames == [] && (th.call.PushRead? || th.call.PushCas?)
    ensures Onwards(h, th, PushStep(h, th))
  {
    if th.call.PushRead? && h.links[0].flag { ClearWork(h, 0); }
  }

  lemma SkipOnwards(h: Heap, th: Thread)
    requires Shaped(h) && th.call.IterSkip?
    ensures Onwards(h, th, SkipStep(h, th))
  {
  }

  lemma DelStartOnwards(h: Heap, th: Thread, tid: nat)
    requires Shaped(h) && CallInv(h, tid, th) && (th.call.DelHead? || th.call.DelAtCur?)
    requires th.call.DelAtCur? ==> th.it.cur < |h.links| && Good(h, th)
    ensures Onwards(h, th, DelStep(h, th))
  {
  }

  lemma DelAtPrevOnwards(h: Heap, th: Thread, tid: nat)
    requires Shaped(h) && CallInv(h, tid, th) && th.call.DelAtPrev? && th.it.cur < |h.links| && Good(h, th)
    ensures Onwards(h, th, DelStep(h, th))
  {
  }

  // In a fresh walk the node after a location is alive, or dead and flagged.
  lemma FreshNext(h: Heap, p: nat, val: Link)
    requires HeapInv(h) && Fresh(h, p, val) && val.to != 0
    ensures var n := val.to; n < |h.links| && (Live(h, n) || (val.flag && Live(h, p))) && Parented(h, n)
  {
    var n := val.to;
    DeadClaimed(h);
    if Live(h, p) && !Live(h, n) {
      if h.links[h.claims[n].pred] == Flagged(n) { OneLivePredecessor(h, p, h.claims[n].pred); }
    }
  }

  lemma DelReadDescends(h: Heap, th: Thread, tid: nat)
    requires Shaped(h) && CallInv(h, tid, th) && th.call.DelRead?
    ensures Descends(h, th, DelStep(h, th))
  {
  }

  lemma DelReadGood(h: Heap, th: Thread, tid: nat)
    requires HeapInv(h) && CallInv(h, tid, th) && th.call.DelRead? && Good(h, th)
    ensures Good(h, DelStep(h, th).th)
  {
    if Fresh(h, th.call.p, th.call.val) { FreshNext(h, th.call.p, th.call.val); }
  }

  // Unlinking a dead node leaves every other one its parent.
  lemma UnlinkParents(h: Heap, p: nat, n: nat, to: nat, target: nat)
    requires p < |h.links| && n < |h.links| && target != n && !Stuck(h, target)
    ensures !Stuck(ListHeap.Unlink(h, p, n, to), target)
  {
    var h' := ListHeap.Unlink(h, p, n, to);
    if 0 < target && Live(h, target) {
      var q :| 0 <= q < |h.links| && Live(h, q) && h.links[q].to == target;
      assert h'.links[q].to == target;
    }
  }

  lemma DelUnlinkOnwards(h: Heap, th: Thread, tid: nat)
    requires HeapInv(h) && CallInv(h, tid, th) && th.call.DelUnlink? && Good(h, th)
    ensures HeapInv(DelStep(h, th).h) ==> Onwards(h, th, DelStep(h, th))
  {
    var target, p, n, next := th.call.target, th.call.p, th.call.n, th.call.next;
    var h' := ListHeap.Unlink(h, p, n, next.to);
    if !Stuck(h, target) {
      if n != target { UnlinkParents(h, p, n, next.to, target); }
    } else {
      assert DeadThenLive(h, n);
      assert h'.links[p].to == next.to;
    }
  }

  // ---------- runs of one thread ----------

  // An access that is not one of clear_flag; `o` is what it does.
  lemma CallOnwards(h: Heap, th: Thread, tid: nat, o: Outcome)
    requires HeapInv(h) && ThreadInv(h, tid, th) && th.frames == [] && !th.call.Idle? && Good(h, th)
    requires o == ThreadStep(h, th, tid, Continue) && HeapInv(o.h)
    ensures Onwards(h, th, o)
  {
    match th.call
    case PushRead(_) => PushOnwards(h, th);
    case PushCas(_) => PushOnwards(h, th);
    case PopRead(_) => PopReadOnwards(h, th, tid);
    case PopCas(p, val) => if h.links[p] == val { PopCasHits(h, th, tid); } else { PopCasMisses(h, th, tid); }
    case DelHead(_) => DelStartOnwards(h, th, tid);
    case DelRead(_, _, _) => DelReadDescends(h, th, tid); DelReadGood(h, th, tid);
    case DelUnlink(_, _, _, _) => DelUnlinkOnwards(h, th, tid);
    case DelAtCur => DelStartOnwards(h, th, tid);
    case DelAtPrev => DelAtPrevOnwards(h, th, tid);
    case FlagCas(_, _) => FlagCasOnwards(h, th, tid);
    case FlagBack(_, _) => FlagBackOnwards(h, th, tid);
    case FlagReload(_, _) => FlagReloadOnwards(h, th, tid);
    case FlagForward(_, _) => FlagForwardOnwards(h, th, tid);
    case Clearing(_, _) =>
    case IterSkip => SkipOnwards(h, th);
  }

  lemma LessOnwards(h: Heap, th: Thread, o: Outcome)
    requires Shaped(h) && Shaped(o.h) && o.th == th.(frames := o.th.frames) && LessWork(h, th, o)
    requires th.call.PushRead? || th.call.Clearing?
    ensures Onwards(h, th, o)
  {
  }

  lemma FrameOnwards(h: Heap, th: Thread, tid: nat)
    requires HeapInv(h) && ThreadInv(h, tid, th) && th.frames != [] && !th.call.Idle?
    ensures Onwards(h, th, FrameStep(h, th))
  {
    FrameSafe(h, th);
    FrameWork(h, th);
    LessOnwards(h, th, FrameStep(h, th));
  }

  // A thread in a call that nothing holds up, and what it has left.
  ghost predicate Going(s: State, t: nat, rank: Rank) {
    && Inv(s) && t < |s.threads| && !s.threads[t].call.Idle? && Good(s.h, s.threads[t])
    && (Flagging(s.threads[t].call) ==> s.threads[t].call.p < |s.h.links|) && rank == RankOf(s.h, s.threads[t])
  }

  // The state after `n` steps of thread `t` alone.
  function Alone(s: State, t: nat, n: nat): State
    decreases n
  {
    if n == 0 then s else Alone(Step(s, Action(t, Continue)), t, n - 1)
  }

  predicate ReturnsAt(s: State, t: nat, n: nat) {
    t < |Alone(s, t, n).threads| && Alone(s, t, n).threads[t].call.Idle?
  }

  ghost predicate ReturnsAlone(s: State, t: nat) {
    exists n :: ReturnsAt(s, t, n)
  }

  lemma ReturnsEarlier(s: State, t: nat, n: nat)
    requires ReturnsAt(Step(s, Action(t, Continue)), t, n)
    ensures ReturnsAt(s, t, n + 1)
  {
  }

  lemma IdleAlready(s: State, t: nat)
    requires t < |s.threads| && s.threads[t].call.Idle?
    ensures ReturnsAt(s, t, 0)
  {
    assert Alone(s, t, 0) == s;
  }

  lemma StepOnwards(s: State, t: nat, rank: Rank)
    requires Going(s, t, rank)
    ensures var s' := Step(s, Action(t, Continue)); t < |s'.threads| && var th := s'.threads[t];
      th.call.Idle? || (Shaped(s'.h) && (Flagging(th.call) ==> th.call.p < |s'.h.links|)
                        && Below(RankOf(s'.h, th), rank) && Going(s', t, RankOf(s'.h, th)))
  {
    var th := s.threads[t];
    var o := ThreadStep(s.h, th, t, Continue);
    InvRunning(s, t);
    OwnStep(s, Action(t, Continue));
    NeverFails(s.h, th, t, Continue);
    InvStep(s, Action(t, Continue));
    InvRunning(Step(s, Action(t, Continue)), t);
    if th.frames != [] { FrameOnwards(s.h, th, t); } else { CallOnwards(s.h, th, t, o); }
  }

  // The next state of the thread and what it has left then.
  lemma Onward(s: State, t: nat, rank: Rank) returns (s': State, rank': Rank)
    requires Going(s, t, rank)
    ensures forall n: nat :: ReturnsAt(s', t, n) ==> ReturnsAt(s, t, n + 1)
    ensures t < |s'.threads| && (s'.threads[t].call.Idle? || (Going(s', t, rank') && Below(rank', rank)))
  {
    s' := Step(s, Action(t, Continue));
    StepOnwards(s, t, rank);
    rank' := if s'.threads[t].call.Idle? then rank else RankOf(s'.h, s'.threads[t]);
    forall n: nat | ReturnsAt(s', t, n) ensures ReturnsAt(s, t, n + 1) { ReturnsEarlier(s, t, n); }
  }

  lemma {:induction false} RunsDown(s: State, t: nat, rank: Rank) returns (n: nat)
    requires Going(s, t, rank)
    ensures ReturnsAt(s, t, n)
    decreases rank.phase, rank.ahead, rank.work
  {
    var s', rank' := Onward(s, t, rank);
    if s'.threads[t].call.Idle? {
      IdleAlready(s', t);
      n := 0;
    } else {
      n := RunsDown(s', t, rank');
    }
    n := n + 1;
  }
}
