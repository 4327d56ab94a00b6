/** The operations of the non-blocking list, linux-2022/quiz11/problem2/nblist.c, run by any
    number of threads with one atomic access per step.  A node is pushed at most once. */
module NonBlockingList {
  import opened ListHeap

  // An activation of clear_flag(prev, n) and its next access.
  datatype FrameAt = SetBacklink | ReadNext | RereadNext | CasMark(next: Link) | CasUnlink(next: Link)
  datatype Frame = Frame(prev: nat, n: nat, at: FrameAt)

  /** What a thread does when no clear_flag is running.  `Failed` is a failed assert. */
  datatype Call =
    | Idle
    | Failed
    | PushRead(top: nat)
    | PushCas(val: Link)
    | PopRead(p: nat)
    | PopCas(p: nat, val: Link)
    | DelHead(target: nat)
    | DelRead(target: nat, p: nat, val: Link)
    | DelUnlink(target: nat, p: nat, n: nat, next: Link)
    | DelAtCur
    | DelAtPrev
    | FlagCas(p: nat, n: nat)
    | FlagBack(p: nat, n: nat)
    | FlagReload(p: nat, n: nat)
    | FlagForward(p: nat, n: nat)
    | Clearing(n: nat, got: bool)
    | IterSkip

  /** An nblist_iter, and the history of the iteration: the nodes returned so far and the
      number of locations when it started. */
  datatype Iter = Iter(prev: Ref, cur: nat, seen: set<nat>, since: nat)

  datatype Thread = Thread(call: Call, frames: seq<Frame>, it: Iter)

  /** `reports` are the nodes some call has reported removing, oldest first. */
  datatype State = State(h: Heap, threads: seq<Thread>, reports: seq<nat>)

  datatype Cmd = CallPush(top: nat) | CallPop | CallDel(target: nat) | CallFirst | CallNext | CallDelAt | Continue
  datatype Action = Action(tid: nat, cmd: Cmd)

  const NEW_THREAD: Thread := Thread(Idle, [], Iter(NoRef, 0, {}, 0))

  // What a thread does after an access: its new local state, the new heap, and a node to report.
  datatype Outcome = Outcome(h: Heap, th: Thread, report: seq<nat>)

  function Go(h: Heap, th: Thread, call: Call): Outcome {
    Outcome(h, th.(call := call), [])
  }

  // The caller continues as `call` once clear_flag(prev, n) has returned.
  function Clear(h: Heap, th: Thread, call: Call, prev: nat, n: nat): Outcome {
    Outcome(h, th.(call := call, frames := [Frame(prev, n, SetBacklink)]), [])
  }

  // ---------- clear_flag and rend_the_marked, nblist.c:75-109 ----------

  function Replace(frames: seq<Frame>, at: FrameAt): seq<Frame>
    requires frames != []
  {
    frames[|frames| - 1 := frames[|frames| - 1].(at := at)]
  }

  // Line 96: what follows a load of `n->next` at line 95, or a failed CAS.
  function Marking(frames: seq<Frame>, next: Link): seq<Frame>
    requires frames != []
  {
    if next.mark then Replace(frames, CasUnlink(next)) else Rereading(frames, next)
  }

  // Line 97: the inner loop clears the flag that `n` itself carries.
  function Rereading(frames: seq<Frame>, next: Link): seq<Frame>
    requires frames != []
  {
    if next.flag then
      Replace(frames, RereadNext) + [Frame(frames[|frames| - 1].n, next.to, SetBacklink)]
    else Replace(frames, CasMark(next))
  }

  function FrameStep(h: Heap, th: Thread): Outcome
    requires th.frames != []
  {
    var f := th.frames[|th.frames| - 1];
    if f.n >= |h.links| || |h.backs| != |h.links| || f.prev >= |h.links| then Go(h, th, Failed) else
      match f.at
      case SetBacklink =>
        if h.backs[f.n] == NoRef || h.backs[f.n] == At(f.prev) then
          Outcome(SetBack(h, f.n, f.prev), th.(frames := Replace(th.frames, ReadNext)), [])
        else Go(h, th, Failed)
      case ReadNext => Outcome(h, th.(frames := Marking(th.frames, h.links[f.n])), [])
      case RereadNext => Outcome(h, th.(frames := Rereading(th.frames, h.links[f.n])), [])
      case CasMark(next) =>
        if h.links[f.n] == next then
          Outcome(SetMark(h, f.n), th.(frames := Replace(th.frames, CasUnlink(next.(mark := true)))), [])
        else Outcome(h, th.(frames := Marking(th.frames, h.links[f.n])), [])
      case CasUnlink(next) =>
        if next.mark && !next.flag then
          Outcome(ListHeap.Unlink(h, f.prev, f.n, next.to), th.(frames := th.frames[..|th.frames| - 1]), [])
        else Go(h, th, Failed)
  }

  // ---------- nblist_push, nblist.c:111-125 ----------

  function PushStep(h: Heap, th: Thread): Outcome
    requires |h.links| > 0
  {
    match th.call
    case PushRead(top) =>
      var val := h.links[0];
      if val.flag then Clear(h, th, PushRead(top), 0, val.to)
      else if val.mark then Go(h, th, Failed)
      else Go(h, th, if val.to == top then PushCas(val) else Idle)
    case PushCas(val) => Go(if h.links[0] == val then Push(h) else h, th, Idle)
    case _ => Go(h, th, Failed)
  }

  // ---------- nblist_pop, nblist.c:127-152 ----------

  // The loop of line 137, with `val` just read from `p`.
  function PopLoop(p: nat, val: Link): Call {
    if val.to == 0 then Idle
    else if val.mark || val.flag then PopRead(val.to)
    else PopCas(p, val)
  }

  function PopStep(h: Heap, th: Thread, tid: nat): Outcome {
    match th.call
    case PopRead(p) => if p < |h.links| then Go(h, th, PopLoop(p, h.links[p])) else Go(h, th, Failed)
    case PopCas(p, val) =>
      if p >= |h.links| then Go(h, th, Failed)
      else if h.links[p] == val then Clear(SetFlag(h, p, tid), th, Clearing(val.to, true), p, val.to)
      else Go(h, th, PopLoop(p, h.links[p]))
    case _ => Go(h, th, Failed)
  }

  // ---------- nblist_del and nblist_del_at, nblist.c:159-188 and 218-237 ----------

  // The loop of line 164; the value reloaded at line 173 is overwritten at line 178.
  function DelLoop(target: nat, p: nat, val: Link): Call {
    if val.to == 0 then Idle else DelRead(target, p, val)
  }

  function DelStep(h: Heap, th: Thread): Outcome
    requires |h.links| > 0
  {
    match th.call
    case DelHead(target) => Go(h, th, DelLoop(target, 0, h.links[0]))
    case DelRead(target, p, val) =>
      var n := val.to;
      if n >= |h.links| then Go(h, th, Failed)
      else if h.links[n].mark && val.flag then Go(h, th, DelUnlink(target, p, n, h.links[n]))
      else if n == target then TryFlag(h, th, p, val, n)
      else Go(h, th, DelLoop(target, n, h.links[n]))
    case DelUnlink(target, p, n, next) =>
      if p >= |h.links| || !next.mark || next.flag then Go(h, th, Failed)
      else Go(ListHeap.Unlink(h, p, n, next.to), th, if n == target then Idle else DelLoop(target, n, next))
    case DelAtCur =>
      if th.it.cur >= |h.links| then Go(h, th, Failed)
      else Go(h, th, if h.links[th.it.cur].mark then Idle else DelAtPrev)
    case DelAtPrev =>
      // `it->prev` is cleared here rather than after try_flag: it is private to the thread
      if th.it.prev.At? && th.it.prev.loc < |h.links| then
        TryFlag(h, th.(it := th.it.(prev := NoRef)), th.it.prev.loc, h.links[th.it.prev.loc], th.it.cur)
      else Go(h, th, Failed)
    case _ => Go(h, th, Failed)
  }

  // ---------- try_flag, nblist.c:25-72 ----------

  // The head of the loop at line 33, with `val` last read from `p`.
  function TryFlag(h: Heap, th: Thread, p: nat, val: Link, n: nat): Outcome {
    if val == Flagged(n) then Clear(h, th, Clearing(n, false), p, n) else Go(h, th, FlagCas(p, n))
  }

  // Lines 50-60.  Where line 59 asserts that `p` has a successor, `n` is no longer linked.
  function Settle(h: Heap, th: Thread, p: nat, val: Link, n: nat): Outcome {
    if val.mark then Go(h, th, FlagBack(p, n))
    else if val.to == 0 then Go(h, th, Idle)
    else if val.to == n then TryFlag(h, th, p, val, n)
    else Go(h, th, FlagForward(val.to, n))
  }

  function FlagStep(h: Heap, th: Thread, tid: nat): Outcome {
    match th.call
    case FlagCas(p, n) =>
      if p >= |h.links| then Go(h, th, Failed)
      else if h.links[p] == Clean(n) then Clear(SetFlag(h, p, tid), th, Clearing(n, true), p, n)
      else if h.links[p] == Flagged(n) then Clear(h, th, Clearing(n, false), p, n)
      else Settle(h, th, p, h.links[p], n)
    case FlagBack(p, n) =>
      if p < |h.backs| && h.backs[p].At? then Go(h, th, FlagReload(h.backs[p].loc, n)) else Go(h, th, Failed)
    case FlagReload(p, n) =>
      if p < |h.links| then Settle(h, th, p, h.links[p], n) else Go(h, th, Failed)
    case FlagForward(p, n) =>
      if p >= |h.links| then Go(h, th, Failed)
      else if h.links[p].to == 0 then Go(h, th, Idle)
      else if h.links[p].to == n then TryFlag(h, th, p, h.links[p], n)
      else Go(h, th, FlagForward(h.links[p].to, n))
    case _ => Go(h, th, Failed)
  }

  // ---------- iteration, nblist.c:190-216 ----------

  // skip_dead_nodes has reached a node, which is returned if it is alive.
  function SkipStep(h: Heap, th: Thread): Outcome {
    var cur := th.it.cur;
    if cur == 0 then Go(h, th, Idle)
    else if cur >= |h.links| then Go(h, th, Failed)
    else if h.links[cur].mark then Outcome(h, th.(it := th.it.(cur := h.links[cur].to)), [])
    else Go(h, th.(it := th.it.(seen := th.it.seen + {cur})), Idle)
  }

  // A call made by an idle thread, with its first access.
  function Begin(h: Heap, th: Thread, cmd: Cmd): Outcome
    requires |h.links| > 0
  {
    match cmd
    case CallPush(top) => Go(h, th, PushRead(top))
    case CallPop => Go(h, th, PopRead(0))
    case CallDel(target) => Go(h, th, DelHead(target))
    case CallFirst => Go(h, th.(it := Iter(At(0), h.links[0].to, {}, |h.links|)), IterSkip)
    case CallNext =>
      var cur := th.it.cur;
      if 0 < cur < |h.links| then Go(h, th.(it := th.it.(prev := At(cur), cur := h.links[cur].to)), IterSkip)
      else Go(h, th, Idle)
    case CallDelAt => Go(h, th, if th.it.cur == 0 || th.it.prev == NoRef then Idle else DelAtCur)
    case Continue => Go(h, th, Idle)
  }

  function ThreadStep(h: Heap, th: Thread, tid: nat, cmd: Cmd): Outcome
    requires |h.links| > 0
  {
    if th.call == Failed then Go(h, th, Failed)
    else if th.frames != [] then FrameStep(h, th)
    else match th.call
      case Idle => Begin(h, th, cmd)
      case PushRead(_) => PushStep(h, th)
      case PushCas(_) => PushStep(h, th)
      case PopRead(_) => PopStep(h, th, tid)
      case PopCas(_, _) => PopStep(h, th, tid)
      case DelHead(_) => DelStep(h, th)
      case DelRead(_, _, _) => DelStep(h, th)
      case DelUnlink(_, _, _, _) => DelStep(h, th)
      case DelAtCur => DelStep(h, th)
      case DelAtPrev => DelStep(h, th)
      case FlagCas(_, _) => FlagStep(h, th, tid)
      case FlagBack(_, _) => FlagStep(h, th, tid)
      case FlagReload(_, _) => FlagStep(h, th, tid)
      case FlagForward(_, _) => FlagStep(h, th, tid)
      case Clearing(n, got) => Outcome(h, th.(call := Idle), if got then [n] else [])
      case IterSkip => SkipStep(h, th)
      case Failed => Go(h, th, Failed)
  }

  function Step(s: State, a: Action): State {
    if a.tid >= |s.threads| || |s.h.links| == 0 then s else
      var o := ThreadStep(s.h, s.threads[a.tid], a.tid, a.cmd);
      State(o.h, s.threads[a.tid := o.th], s.reports + o.report)
  }

  /** The state after a schedule, oldest action first. */
  function Exec(s: State, schedule: seq<Action>): State
    decreases |schedule|
  {
    if schedule == [] then s
    else Step(Exec(s, schedule[..|schedule| - 1]), schedule[|schedule| - 1])
  }

  /** An empty list and any number of idle threads. */
  function Start(threads: nat): State {
    State(EMPTY, seq(threads, _ => NEW_THREAD), [])
  }
}
