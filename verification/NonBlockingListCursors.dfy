/** What a call with a cursor does for its caller: nblist_first, nblist_next and nblist_del_at. */
module NonBlockingListCursors {
  import opened ListHeap
  import opened NonBlockingList
  import opened NonBlockingListSafety
  import opened NonBlockingListResults
  import opened NonBlockingListCalls

  // ---------- nblist_del_at ----------

  /** The location before a cursor is newer than the cursor; it is forgotten only by a deletion that
      returns no sooner than the node at the cursor is dead. */
  predicate CursorInv(h: Heap, th: Thread) {
    && (th.call.IterSkip? ==> th.it.prev.At?)
    && (th.it.cur > 0 && th.it.prev.At? ==> th.it.prev.loc == 0 || th.it.cur < th.it.prev.loc)
    && (th.it.cur > 0 && th.it.prev == NoRef && Live(h, th.it.cur) ==>
         Removing(th.call, th.it.cur) && StillAhead(h, th.call, th.it.cur))
  }

  lemma CursorLater(h: Heap, h': Heap, th: Thread)
    requires Later(h, h') && th.it.cur < |h.links| && CursorInv(h, th)
    ensures CursorInv(h', th)
  {
  }

  lemma CursorFlag(h: Heap, th: Thread, tid: nat)
    requires HeapInv(h) && ThreadInv(h, tid, th) && th.frames == [] && Flagging(th.call) && CursorInv(h, th)
    ensures var o := FlagStep(h, th, tid); Later(h, o.h) ==> CursorInv(o.h, o.th) || o.th.call.Failed?
  {
    var o, c := FlagStep(h, th, tid), th.it.cur;
    assert o.th.it == th.it && !o.th.call.IterSkip?;
    if c > 0 && th.it.prev == NoRef && Live(h, c) {
      FlagTarget(h, th, tid, c);
      CallProgress(h, th, tid, Continue, c);
    }
  }

  lemma CursorDelAt(h: Heap, th: Thread, tid: nat)
    requires HeapInv(h) && ThreadInv(h, tid, th) && th.call.DelAtPrev? && CursorInv(h, th)
    ensures var o := DelStep(h, th); o.h == h && (CursorInv(h, o.th) || o.th.call.Failed?)
    ensures var o := DelStep(h, th);
      o.th.it == th.it.(prev := NoRef) && (o.th.call.Failed? || Removing(o.th.call, th.it.cur))
  {
  }

  lemma CursorDel(h: Heap, th: Thread, tid: nat)
    requires HeapInv(h) && ThreadInv(h, tid, th) && DelCall(th.call) && CursorInv(h, th)
    ensures var o := DelStep(h, th); Later(h, o.h) ==> CursorInv(o.h, o.th) || o.th.call.Failed?
  {
    if th.call.DelAtPrev? { CursorDelAt(h, th, tid); }
  }

  lemma CursorIter(h: Heap, th: Thread, tid: nat, cmd: Cmd)
    requires HeapInv(h) && ThreadInv(h, tid, th) && CursorInv(h, th)
    requires th.frames == [] && (th.call.Idle? || th.call.IterSkip? || th.call.Clearing?)
    ensures var o := ThreadStep(h, th, tid, cmd); CursorInv(o.h, o.th)
  {
  }

  lemma CursorOther(h: Heap, th: Thread, tid: nat, cmd: Cmd)
    requires HeapInv(h) && ThreadInv(h, tid, th) && CursorInv(h, th) && th.frames == []
    requires th.call.PushRead? || th.call.PushCas? || th.call.PopRead? || th.call.PopCas?
    ensures var o := ThreadStep(h, th, tid, cmd); Later(h, o.h) ==> CursorInv(o.h, o.th)
  {
  }

  lemma CursorFrame(h: Heap, th: Thread, tid: nat)
    requires HeapInv(h) && ThreadInv(h, tid, th) && CursorInv(h, th) && th.frames != []
    ensures CursorInv(FrameStep(h, th).h, FrameStep(h, th).th)
  {
    FrameSafe(h, th);
    CursorLater(h, FrameStep(h, th).h, th);
  }

  lemma CursorCall(h: Heap, th: Thread, tid: nat, cmd: Cmd)
    requires HeapInv(h) && ThreadInv(h, tid, th) && CursorInv(h, th) && th.frames == []
    ensures var o := ThreadStep(h, th, tid, cmd); Later(h, o.h) ==> CursorInv(o.h, o.th) || o.th.call.Failed?
  {
    if Flagging(th.call) { CursorFlag(h, th, tid); }
    else if DelCall(th.call) { CursorDel(h, th, tid); }
    else if th.call.Idle? || th.call.IterSkip? || th.call.Clearing? { CursorIter(h, th, tid, cmd); }
    else { CursorOther(h, th, tid, cmd); }
  }

  lemma CursorStep(h: Heap, th: Thread, tid: nat, cmd: Cmd)
    requires HeapInv(h) && ThreadInv(h, tid, th) && CursorInv(h, th)
    ensures CursorInv(ThreadStep(h, th, tid, cmd).h, ThreadStep(h, th, tid, cmd).th)
  {
    ThreadStepSafe(h, th, tid, cmd);
    if th.frames != [] { CursorFrame(h, th, tid); } else { CursorCall(h, th, tid, cmd); }
  }

  predicate Cursors(s: State) {
    forall t :: 0 <= t < |s.threads| ==> CursorInv(s.h, s.threads[t])
  }

  lemma CursorsStep(s: State, a: Action)
    requires Inv(s) && Cursors(s)
    ensures Cursors(Step(s, a))
  {
    if a.tid < |s.threads| {
      var s' := Step(s, a);
      InvStep(s, a);
      InvRunning(s, a.tid);
      OwnStep(s, a);
      forall t | 0 <= t < |s'.threads| ensures CursorInv(s'.h, s'.threads[t]) {
        InvRunning(s, t);
        if t == a.tid {
          CursorStep(s.h, s.threads[t], t, a.cmd);
        } else {
          CursorLater(s.h, s'.h, s.threads[t]);
        }
      }
    }
  }

  lemma {:induction false} ExecCursors(s: State, schedule: seq<Action>)
    requires Inv(s) && Cursors(s)
    ensures Inv(Exec(s, schedule)) && Cursors(Exec(s, schedule))
    decreases |schedule|
  {
    if schedule != [] {
      var k := |schedule| - 1;
      ExecCursors(s, schedule[..k]);
      InvStep(Exec(s, schedule[..k]), schedule[k]);
      CursorsStep(Exec(s, schedule[..k]), schedule[k]);
    }
  }

  lemma StartCursors(threads: nat)
    ensures Inv(Start(threads)) && Cursors(Start(threads))
  {
    ExecInv(threads, []);
  }

  lemma ReachCursors(s: State, call: seq<Action>, k: nat)
    requires Inv(s) && Cursors(s) && k <= |call|
    ensures Inv(StateAfter(s, call, k)) && Cursors(StateAfter(s, call, k))
  {
    ExecCursors(s, call[..k]);
  }

  lemma ReachedCursors(threads: nat, schedule: seq<Action>)
    ensures Inv(Exec(Start(threads), schedule)) && Cursors(Exec(Start(threads), schedule))
  {
    StartCursors(threads);
    ExecCursors(Start(threads), schedule);
  }

  // ---------- nblist_del_at ----------

  /** A thread in a deletion at its cursor `c`. */
  predicate DeletingAt(th: Thread, c: nat) {
    th.it.cur == c && (th.call.DelAtCur? || th.call.DelAtPrev? || (Removing(th.call, c) && th.it.prev == NoRef))
  }

  lemma DelAtBegins(s: State, t: nat)
    requires Running(s, t) && s.threads[t].call.Idle?
    ensures var th, th' := s.threads[t], Step(s, Action(t, CallDelAt)).threads[t];
      th'.it == th.it && th'.call == (if th.it.cur == 0 || th.it.prev == NoRef then Idle else DelAtCur)
    ensures Step(s, Action(t, CallDelAt)).h == s.h
  {
  }

  // A step of the deletion goes on, or ends it with the node at the cursor dead.
  lemma DelAtStep(s: State, a: Action, c: nat)
    requires Running(s, a.tid) && CursorInv(s.h, s.threads[a.tid]) && DeletingAt(s.threads[a.tid], c)
    ensures var s' := Step(s, a); var th' := s'.threads[a.tid];
      DeletingAt(th', c) || (th'.call.Idle? && th'.it.cur == c && (c > 0 ==> !Live(s'.h, c)))
  {
    var th := s.threads[a.tid];
    OwnStep(s, a);
    NeverFails(s.h, th, a.tid, a.cmd);
    CursorStep(s.h, th, a.tid, a.cmd);
    if th.frames != [] { FrameSafe(s.h, th); }
    else if th.call.DelAtPrev? { CursorDelAt(s.h, th, a.tid); }
    else if Flagging(th.call) { FlagTarget(s.h, th, a.tid, c); }
  }

  lemma {:induction false} CallDeletesAt(s: State, call: seq<Action>, t: nat, j: nat)
    requires Inv(s) && Cursors(s) && IsCall(s, call, t, CallDelAt) && 0 < j < |call|
    ensures DeletingAt(StateAfter(s, call, j).threads[t], s.threads[t].it.cur)
  {
    var before := StateAfter(s, call, j - 1);
    NextState(s, call, j - 1);
    ReachCursors(s, call, j - 1);
    if j == 1 {
      assert before == s;
      InvRunning(s, t);
      DelAtBegins(s, t);
    } else {
      CallDeletesAt(s, call, t, j - 1);
      InvRunning(before, t);
      if call[j - 1].tid == t {
        DelAtStep(before, call[j - 1], s.threads[t].it.cur);
      } else {
        OthersStay(before, call[j - 1], t);
      }
    }
  }

  // How a deletion at cursor `c` ends.
  predicate EndsAt(end: State, t: nat, c: nat) {
    t < |end.threads| && end.threads[t].it.cur == c && (c > 0 ==> !Live(end.h, c))
  }

  lemma DelAtEndsAtOnce(s: State, call: seq<Action>, t: nat)
    requires Inv(s) && Cursors(s) && IsCall(s, call, t, CallDelAt) && |call| == 1
    ensures EndsAt(StateAfter(s, call, 1), t, s.threads[t].it.cur) && Prize(LastThread(s, call, t)) == []
  {
    NextState(s, call, 0);
    assert StateAfter(s, call, 0) == s;
    InvRunning(s, t);
    DelAtBegins(s, t);
  }

  lemma DelAtEnds(s: State, call: seq<Action>, t: nat)
    requires Inv(s) && Cursors(s) && IsCall(s, call, t, CallDelAt) && |call| > 1
    ensures EndsAt(StateAfter(s, call, |call|), t, s.threads[t].it.cur)
    ensures Prize(LastThread(s, call, t)) in [[], [s.threads[t].it.cur]]
  {
    var n := |call| - 1;
    ReachCursors(s, call, n);
    NextState(s, call, n);
    InvRunning(StateAfter(s, call, n), t);
    CallDeletesAt(s, call, t, n);
    DelAtStep(StateAfter(s, call, n), call[n], s.threads[t].it.cur);
  }

  /** A deletion at the cursor claims and reports no node but the one at the cursor as the call
      began, and reports it if and only if the call itself has claimed it; the cursor stays there.
      When the call returns that node is gone. */
  lemma DelAtAnswers(threads: nat, schedule: seq<Action>, call: seq<Action>, t: nat)
    requires IsCall(Exec(Start(threads), schedule), call, t, CallDelAt)
    ensures var s := Exec(Start(threads), schedule); var c, end := s.threads[t].it.cur, StateAfter(s, call, |call|);
      && Reports(s, call, t, if ClaimedBy(s, end, t, c) then [c] else [])
      && end.threads[t].it.cur == c && (c > 0 ==> !Live(end.h, c))
  {
    var s := Exec(Start(threads), schedule);
    ReachedCursors(threads, schedule);
    CallReports(s, call, t, CallDelAt);
    if |call| == 1 { DelAtEndsAtOnce(s, call, t); } else { DelAtEnds(s, call, t); }
  }

  // ---------- nblist_first and nblist_next ----------

  /** A cursor on its way from location `from`: no live node older than `bound` has been passed. */
  ghost predicate Skipping(h: Heap, th: Thread, from: nat, bound: nat) {
    && th.call.IterSkip? && th.it.prev == At(from) && th.it.cur < bound <= |h.links|
    && forall n :: th.it.cur < n < bound ==> !Live(h, n)
  }

  /** The newest live node older than `bound`, or NULL. */
  ghost predicate NewestBelow(h: Heap, n: nat, bound: nat) {
    && n < bound <= |h.links| && (n == 0 || Live(h, n))
    && forall m :: n < m < bound ==> !Live(h, m)
  }

  lemma SkippingLater(h: Heap, h': Heap, th: Thread, from: nat, bound: nat)
    requires Later(h, h') && Skipping(h, th, from, bound)
    ensures Skipping(h', th, from, bound)
  {
    forall n | th.it.cur < n < bound ensures !Live(h', n) { assert !Live(h, n); }
  }

  lemma SkippingStep(s: State, a: Action, from: nat, bound: nat)
    requires Running(s, a.tid) && Skipping(s.h, s.threads[a.tid], from, bound)
    ensures var s' := Step(s, a); var th' := s'.threads[a.tid];
      Skipping(s'.h, th', from, bound) ||
      (th'.call.Idle? && th'.it.prev == At(from) && NewestBelow(s'.h, th'.it.cur, bound))
  {
    var th := s.threads[a.tid];
    OwnStep(s, a);
    forall n: nat ensures Between(s.h, th.it.cur, n) ==> !Live(s.h, n) { NoLiveBetween(s.h, th.it.cur, n); }
  }

  // Where the two calls start from.
  function Bound(s: State, t: nat, cmd: Cmd): nat
    requires t < |s.threads|
  {
    if cmd.CallFirst? then |s.h.links| else s.threads[t].it.cur
  }

  function From(s: State, t: nat, cmd: Cmd): nat
    requires t < |s.threads|
  {
    if cmd.CallFirst? then 0 else s.threads[t].it.cur
  }

  lemma SkippingBegins(s: State, t: nat, cmd: Cmd)
    requires Running(s, t) && s.threads[t].call.Idle?
    requires cmd.CallFirst? || (cmd.CallNext? && s.threads[t].it.cur > 0)
    ensures Skipping(Step(s, Action(t, cmd)).h, Step(s, Action(t, cmd)).threads[t], From(s, t, cmd), Bound(s, t, cmd))
  {
    var from := From(s, t, cmd);
    OwnStep(s, Action(t, cmd));
    forall n: nat ensures Between(s.h, from, n) ==> !Live(s.h, n) { NoLiveBetween(s.h, from, n); }
  }

  lemma {:induction false} CallSkips(s: State, call: seq<Action>, t: nat, cmd: Cmd, j: nat)
    requires Inv(s) && IsCall(s, call, t, cmd) && (cmd.CallFirst? || (cmd.CallNext? && s.threads[t].it.cur > 0))
    requires 0 < j < |call|
    ensures var now := StateAfter(s, call, j); Skipping(now.h, now.threads[t], From(s, t, cmd), Bound(s, t, cmd))
  {
    var before := StateAfter(s, call, j - 1);
    NextState(s, call, j - 1);
    ReachInv(s, call, j - 1);
    InvRunning(s, t);
    if j == 1 {
      assert before == s;
      SkippingBegins(s, t, cmd);
    } else {
      CallSkips(s, call, t, cmd, j - 1);
      InvRunning(before, t);
      if call[j - 1].tid == t {
        SkippingStep(before, call[j - 1], From(s, t, cmd), Bound(s, t, cmd));
      } else {
        OthersStay(before, call[j - 1], t);
        InvStep(before, call[j - 1]);
        SkippingLater(before.h, StateAfter(s, call, j).h, before.threads[t], From(s, t, cmd), Bound(s, t, cmd));
      }
    }
  }

  lemma SkipTakesSteps(s: State, call: seq<Action>, t: nat, cmd: Cmd)
    requires Inv(s) && IsCall(s, call, t, cmd) && (cmd.CallFirst? || (cmd.CallNext? && s.threads[t].it.cur > 0))
    ensures |call| > 1
  {
    NextState(s, call, 0);
    assert StateAfter(s, call, 0) == s;
    InvRunning(s, t);
    SkippingBegins(s, t, cmd);
  }

  /** nblist_first and nblist_next put the cursor on the newest node that is alive as they return,
      among those published as the call began, or older than the cursor; at the end of the list
      there is none, and a cursor at its end stays there. */
  lemma CursorAnswers(threads: nat, schedule: seq<Action>, call: seq<Action>, t: nat, cmd: Cmd)
    requires (cmd.CallFirst? || cmd.CallNext?) && IsCall(Exec(Start(threads), schedule), call, t, cmd)
    ensures var s := Exec(Start(threads), schedule); var end := StateAfter(s, call, |call|);
      if cmd.CallNext? && s.threads[t].it.cur == 0 then end.threads[t].it == s.threads[t].it
      else end.threads[t].it.prev == At(From(s, t, cmd)) && NewestBelow(end.h, end.threads[t].it.cur, Bound(s, t, cmd))
  {
    var s, n := Exec(Start(threads), schedule), |call| - 1;
    ExecInv(threads, schedule);
    NextState(s, call, n);
    ReachInv(s, call, n);
    if cmd.CallNext? && s.threads[t].it.cur == 0 {
      NextAtEnd(s, call, t);
    } else {
      SkipTakesSteps(s, call, t, cmd);
      CallSkips(s, call, t, cmd, n);
      InvRunning(StateAfter(s, call, n), t);
      SkippingStep(StateAfter(s, call, n), call[n], From(s, t, cmd), Bound(s, t, cmd));
    }
  }

  lemma NextAtEnd(s: State, call: seq<Action>, t: nat)
    requires Inv(s) && IsCall(s, call, t, CallNext) && s.threads[t].it.cur == 0
    ensures StateAfter(s, call, |call|).threads[t].it == s.threads[t].it
  {
    NextState(s, call, 0);
    assert StateAfter(s, call, 0) == s;
    NextStaysAtEnd(s, t);
  }

  lemma NextStaysAtEnd(s: State, t: nat)
    requires Inv(s) && t < |s.threads| && s.threads[t].call.Idle? && s.threads[t].it.cur == 0
    ensures Step(s, Action(t, CallNext)).threads[t] == s.threads[t]
  {
  }
}
