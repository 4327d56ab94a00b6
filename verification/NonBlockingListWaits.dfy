/** The list is not quite non-blocking: which calls do not return when their thread runs alone. */
module NonBlockingListWaits {
  import opened ListHeap
  import opened NonBlockingList
  import opened NonBlockingListSafety
  import opened NonBlockingListResults
  import opened NonBlockingListCalls
  import opened NonBlockingListCursors
  import opened NonBlockingListProgress
  import opened NonBlockingListStalls

  // ---------- where a deletion looks from ----------

  /** A deletion looks for a node from a newer location, unless the node is dead. */
  predicate Newer(h: Heap, call: Call) {
    match call
    case DelRead(_, p, val) => p == 0 || val.to < p
    case DelUnlink(_, p, n, _) => p == 0 || n < p
    case _ => Flagging(call) ==> StillAhead(h, call, call.n)
  }

  lemma NewerLater(h: Heap, h': Heap, tid: nat, th: Thread)
    requires Later(h, h') && CallInv(h, tid, th) && Newer(h, th.call)
    ensures Newer(h', th.call)
  {
  }

  lemma NewerDel(h: Heap, th: Thread, tid: nat)
    requires HeapInv(h) && CallInv(h, tid, th) && CursorInv(h, th) && DelCall(th.call) && Newer(h, th.call)
    ensures HeapInv(DelStep(h, th).h) ==> Newer(DelStep(h, th).h, DelStep(h, th).th.call)
  {
  }

  lemma NewerFlag(h: Heap, th: Thread, tid: nat)
    requires HeapInv(h) && CallInv(h, tid, th) && th.frames == [] && Flagging(th.call) && Newer(h, th.call)
    ensures Newer(FlagStep(h, th, tid).h, FlagStep(h, th, tid).th.call)
  {
    FlagTarget(h, th, tid, th.call.n);
    if th.call.FlagCas? { FlagCasProgress(h, th, tid, th.call.n); } else { FlagWalkProgress(h, th, tid, th.call.n); }
  }

  lemma NewerOther(h: Heap, th: Thread, tid: nat, cmd: Cmd)
    requires HeapInv(h) && th.frames == [] && !DelCall(th.call) && !Flagging(th.call)
    ensures Newer(ThreadStep(h, th, tid, cmd).h, ThreadStep(h, th, tid, cmd).th.call)
  {
  }

  lemma NewerFrame(h: Heap, th: Thread, tid: nat)
    requires HeapInv(h) && ThreadInv(h, tid, th) && th.frames != [] && Newer(h, th.call)
    ensures Newer(FrameStep(h, th).h, FrameStep(h, th).th.call)
  {
    FrameSafe(h, th);
    NewerLater(h, FrameStep(h, th).h, tid, th);
  }

  lemma NewerCall(h: Heap, th: Thread, tid: nat, cmd: Cmd)
    requires HeapInv(h) && CallInv(h, tid, th) && CursorInv(h, th) && th.frames == [] && Newer(h, th.call)
    requires HeapInv(ThreadStep(h, th, tid, cmd).h)
    ensures var o := ThreadStep(h, th, tid, cmd); Newer(o.h, o.th.call)
  {
    if DelCall(th.call) { NewerDel(h, th, tid); }
    else if Flagging(th.call) { NewerFlag(h, th, tid); }
    else { NewerOther(h, th, tid, cmd); }
  }

  lemma NewerStep(h: Heap, th: Thread, tid: nat, cmd: Cmd)
    requires HeapInv(h) && ThreadInv(h, tid, th) && CursorInv(h, th) && Newer(h, th.call)
    ensures var o := ThreadStep(h, th, tid, cmd); Newer(o.h, o.th.call)
  {
    ThreadStepSafe(h, th, tid, cmd);
    if th.frames != [] { NewerFrame(h, th, tid); } else { NewerCall(h, th, tid, cmd); }
  }

  ghost predicate AllNewer(s: State) {
    forall t :: 0 <= t < |s.threads| ==> Newer(s.h, s.threads[t].call)
  }

  lemma NewersStep(s: State, a: Action)
    requires Inv(s) && Cursors(s) && AllNewer(s)
    ensures AllNewer(Step(s, a))
  {
    if a.tid < |s.threads| {
      var s' := Step(s, a);
      InvStep(s, a);
      InvRunning(s, a.tid);
      OwnStep(s, a);
      forall t | 0 <= t < |s'.threads| ensures Newer(s'.h, s'.threads[t].call) {
        InvRunning(s, t);
        if t == a.tid {
          NewerStep(s.h, s.threads[t], t, a.cmd);
        } else {
          NewerLater(s.h, s'.h, t, s.threads[t]);
        }
      }
    }
  }

  lemma {:induction false} ExecNewer(threads: nat, schedule: seq<Action>)
    ensures AllNewer(Exec(Start(threads), schedule))
    decreases |schedule|
  {
    if schedule != [] {
      var k := |schedule| - 1;
      ExecNewer(threads, schedule[..k]);
      ReachedCursors(threads, schedule[..k]);
      NewersStep(Exec(Start(threads), schedule[..k]), schedule[k]);
    }
  }

  // ---------- a deletion that looks for a stuck node ----------

  ghost predicate Circling(h: Heap, th: Thread) {
    && HeapInv(h) && th.frames == [] && Flagging(th.call) && th.call.p < |h.links|
    && Stuck(h, th.call.n) && (th.call.p == 0 || th.call.n < th.call.p)
    && (th.call.FlagBack? ==> h.links[th.call.p].mark)
  }

  lemma SettleCircles(h: Heap, th: Thread, p: nat, n: nat)
    requires HeapInv(h) && Stuck(h, n) && p < |h.links| && (p == 0 || n < p) && th.frames == []
    ensures var o := Settle(h, th, p, h.links[p], n); o.h == h && o.report == [] && Circling(h, o.th)
  {
    NoLiveBetween(h, p, n);
  }

  lemma FlagCircles(h: Heap, th: Thread, tid: nat)
    requires Circling(h, th)
    ensures var o := FlagStep(h, th, tid); o.h == h && o.report == [] && Circling(h, o.th)
  {
    var p, n := th.call.p, th.call.n;
    if th.call.FlagCas? || th.call.FlagReload? {
      SettleCircles(h, th, p, n);
    } else if th.call.FlagBack? {
      assert Claimed(h, p);
    } else {
      NoLiveBetween(h, p, n);
    }
  }

  ghost predicate CirclesAt(s: State, t: nat) {
    t < |s.threads| && Circling(s.h, s.threads[t])
  }

  lemma StaysCircling(s: State, t: nat)
    requires CirclesAt(s, t)
    ensures CirclesAt(Step(s, Action(t, Continue)), t)
  {
    FlagCircles(s.h, s.threads[t], t);
  }

  lemma {:induction false} CirclesForever(s: State, t: nat, n: nat)
    requires CirclesAt(s, t)
    ensures CirclesAt(Alone(s, t, n), t)
    decreases n
  {
    if n > 0 {
      StaysCircling(s, t);
      CirclesForever(Step(s, Action(t, Continue)), t, n - 1);
    }
  }

  lemma CirclesNeverReturns(s: State, t: nat)
    requires CirclesAt(s, t)
    ensures !ReturnsAlone(s, t)
  {
    forall n: nat ensures !ReturnsAt(s, t, n) { CirclesForever(s, t, n); }
  }

  // A call goes on for ever if it does so after its next step.
  lemma NeverEarlier(s: State, t: nat)
    requires t < |s.threads| && !s.threads[t].call.Idle?
    requires !ReturnsAlone(Step(s, Action(t, Continue)), t)
    ensures !ReturnsAlone(s, t)
  {
    var s' := Step(s, Action(t, Continue));
    forall n: nat ensures !ReturnsAt(s, t, n) {
      if n > 0 { assert !ReturnsAt(s', t, n - 1); }
    }
  }

  // ---------- calls in the middle ----------

  /** In every reachable state a thread in the middle of a call returns if it runs alone, unless the
      call is a deletion whose node is stuck.  One that is looking for the parent of its node returns
      if and only if the node is not stuck. */
  lemma ReturnsUnlessStuck(threads: nat, schedule: seq<Action>, t: nat)
    requires var s := Exec(Start(threads), schedule); t < |s.threads| && !s.threads[t].call.Idle?
    ensures var s := Exec(Start(threads), schedule); var th := s.threads[t];
      && (Good(s.h, th) ==> ReturnsAlone(s, t))
      && (Flagging(th.call) ==> (ReturnsAlone(s, t) <==> !Stuck(s.h, th.call.n)))
  {
    var s := Exec(Start(threads), schedule);
    ExecInv(threads, schedule);
    InvRunning(s, t);
    if Good(s.h, s.threads[t]) {
      var n := RunsDown(s, t, RankOf(s.h, s.threads[t]));
    } else if Flagging(s.threads[t].call) {
      ExecNewer(threads, schedule);
      assert Newer(s.h, s.threads[t].call);
      CirclesNeverReturns(s, t);
    }
  }

  // ---------- calls from their beginning ----------

  // The state after the command, and whether the call returns if nothing else runs.
  ghost predicate CallReturns(s: State, t: nat, cmd: Cmd) {
    ReturnsAlone(Step(s, Action(t, cmd)), t)
  }

  lemma CallsStartGood(s: State, t: nat, cmd: Cmd)
    requires Inv(s) && t < |s.threads| && s.threads[t].call.Idle?
    requires cmd.CallDelAt? && s.threads[t].it.prev.At? ==> !Stuck(s.h, s.threads[t].it.cur)
    ensures var s' := Step(s, Action(t, cmd)); Inv(s') && Running(s', t) && Good(s'.h, s'.threads[t])
    ensures !Flagging(Step(s, Action(t, cmd)).threads[t].call)
  {
    InvStep(s, Action(t, cmd));
    InvRunning(s, t);
    OwnStep(s, Action(t, cmd));
    InvRunning(Step(s, Action(t, cmd)), t);
  }

  lemma GoodCallReturns(s: State, t: nat, cmd: Cmd)
    requires Inv(s) && t < |s.threads| && s.threads[t].call.Idle?
    requires cmd.CallDelAt? && s.threads[t].it.prev.At? ==> !Stuck(s.h, s.threads[t].it.cur)
    ensures CallReturns(s, t, cmd)
  {
    var s' := Step(s, Action(t, cmd));
    CallsStartGood(s, t, cmd);
    if s'.threads[t].call.Idle? { IdleAlready(s', t); } else { var n := RunsDown(s', t, RankOf(s'.h, s'.threads[t])); }
  }

  // The two loads with which nblist_del_at begins.
  lemma StuckBegins(s: State, t: nat)
    requires HeapInv(s.h) && t < |s.threads| && s.threads[t].call.Idle? && s.threads[t].frames == []
    requires Stuck(s.h, s.threads[t].it.cur) && s.threads[t].it.prev.At?
    ensures var s1 := Step(s, Action(t, CallDelAt)); var s2 := Step(s1, Action(t, Continue));
      && t < |s1.threads| && s1.threads[t] == s.threads[t].(call := DelAtCur) && s1.h == s.h
      && t < |s2.threads| && s2.threads[t] == s.threads[t].(call := DelAtPrev) && s2.h == s.h
  {
  }

  // The node at a cursor is stuck, and is looked for from a newer location.
  ghost predicate StuckCursor(h: Heap, it: Iter) {
    Stuck(h, it.cur) && it.prev.At? && it.prev.loc < |h.links| && (it.prev.loc == 0 || it.cur < it.prev.loc)
  }

  lemma StuckCircles(s: State, t: nat)
    requires HeapInv(s.h) && t < |s.threads| && s.threads[t].call.DelAtPrev? && s.threads[t].frames == []
    requires StuckCursor(s.h, s.threads[t].it)
    ensures CirclesAt(Step(s, Action(t, Continue)), t)
  {
  }

  lemma StuckCallWaits(s: State, t: nat)
    requires HeapInv(s.h) && t < |s.threads| && s.threads[t].call.Idle? && s.threads[t].frames == []
    requires StuckCursor(s.h, s.threads[t].it)
    ensures !CallReturns(s, t, CallDelAt)
  {
    var s1 := Step(s, Action(t, CallDelAt));
    var s2 := Step(s1, Action(t, Continue));
    StuckBegins(s, t);
    StuckCircles(s2, t);
    CirclesNeverReturns(Step(s2, Action(t, Continue)), t);
    NeverEarlier(s2, t);
    NeverEarlier(s1, t);
  }

  /** From every reachable state, wherever the other threads have stopped, a call returns if its
      thread runs alone, except for exactly this one: nblist_del_at at a cursor whose node is stuck
      behind a dead one that another thread has not unlinked. */
  lemma CallsReturnExactly(threads: nat, schedule: seq<Action>, t: nat, cmd: Cmd)
    requires var s := Exec(Start(threads), schedule); t < |s.threads| && s.threads[t].call.Idle?
    ensures var s := Exec(Start(threads), schedule); var it := s.threads[t].it;
      CallReturns(s, t, cmd) <==> !(cmd.CallDelAt? && it.prev.At? && Stuck(s.h, it.cur))
  {
    var s := Exec(Start(threads), schedule);
    var it := s.threads[t].it;
    ReachedCursors(threads, schedule);
    InvRunning(s, t);
    if cmd.CallDelAt? && it.prev.At? && Stuck(s.h, it.cur) {
      assert CursorInv(s.h, s.threads[t]);
      StuckCallWaits(s, t);
    } else {
      GoodCallReturns(s, t, cmd);
    }
  }

  // ---------- a reachable call that waits ----------

  // After the run of NonBlockingListStalls the other thread starts an iteration.
  const WAITING: seq<Action> := STALLED + [Action(1, CallFirst), Do(1), Do(1)]

  function Iterates(it: Iter, call: Call): State { State(MARKED, [STALL, Thread(call, [], it)], []) }

  const AT_ONE: Iter := Iter(At(0), 1, {1}, 3)

  lemma IterationSteps()
    ensures Step(Both(MARKED, STALL), Action(1, CallFirst)) == Iterates(Iter(At(0), 2, {}, 3), IterSkip)
    ensures Step(Iterates(Iter(At(0), 2, {}, 3), IterSkip), Do(1)) == Iterates(Iter(At(0), 1, {}, 3), IterSkip)
    ensures Step(Iterates(Iter(At(0), 1, {}, 3), IterSkip), Do(1)) == Iterates(AT_ONE, Idle)
  {
    assert {} + {1} == {1};
  }

  lemma Iterated()
    ensures Exec(Start(2), WAITING) == Iterates(AT_ONE, Idle)
  {
    PopMarks();
    IterationSteps();
    GoesOn(Start(2), STALLED, [Action(1, CallFirst), Do(1), Do(1)],
      [Both(MARKED, STALL), Iterates(Iter(At(0), 2, {}, 3), IterSkip), Iterates(Iter(At(0), 1, {}, 3), IterSkip),
       Iterates(AT_ONE, Idle)]);
  }

  lemma WaitingReachable()
    ensures Reachable(Iterates(AT_ONE, Idle), 2) && HeapInv(MARKED)
  {
    Iterated();
    ExecInv(2, WAITING);
    RunReaches(Iterates(AT_ONE, Idle), 2, WAITING);
  }

  /** A reachable state in which nblist_del_at, called alone with the cursor on the one node of the
      list, does not return: it goes round between the head and a dead node. */
  lemma DelAtMayWait()
    ensures Reachable(Iterates(AT_ONE, Idle), 2) && Contents(MARKED) == [1]
    ensures !CallReturns(Iterates(AT_ONE, Idle), 1, CallDelAt)
  {
    WaitingReachable();
    OneListed();
    StuckCallWaits(Iterates(AT_ONE, Idle), 1);
  }
}
