/** What one call on the non-blocking list does for its caller, from the arguments of the call and
    whatever other threads do meanwhile. */
module NonBlockingListCalls {
  import opened ListHeap
  import opened NonBlockingList
  import opened NonBlockingListSafety
  import opened NonBlockingListResults

  // The state after the first `k` actions of `call`.
  function StateAfter(s: State, call: seq<Action>, k: nat): State
    requires k <= |call|
  {
    Exec(s, call[..k])
  }

  lemma NextState(s: State, call: seq<Action>, k: nat)
    requires k < |call|
    ensures StateAfter(s, call, k + 1) == Step(StateAfter(s, call, k), call[k])
  {
    assert call[..k + 1][..k] == call[..k];
  }

  lemma {:induction false} ReachInv(s: State, call: seq<Action>, k: nat)
    requires Inv(s) && k <= |call|
    ensures Inv(StateAfter(s, call, k))
  {
    if k > 0 {
      ReachInv(s, call, k - 1);
      NextState(s, call, k - 1);
      InvStep(StateAfter(s, call, k - 1), call[k - 1]);
    }
  }

  // A thread of a state that keeps the invariant.
  ghost predicate Running(s: State, t: nat) {
    HeapInv(s.h) && t < |s.threads| && ThreadInv(s.h, t, s.threads[t])
  }

  lemma InvRunning(s: State, t: nat)
    requires Inv(s) && t < |s.threads|
    ensures Running(s, t)
  {
  }

  lemma OthersStay(s: State, a: Action, t: nat)
    requires t < |s.threads| && a.tid != t
    ensures t < |Step(s, a).threads| && Step(s, a).threads[t] == s.threads[t]
  {
  }

  lemma OwnStep(s: State, a: Action)
    requires Running(s, a.tid)
    ensures var o := ThreadStep(s.h, s.threads[a.tid], a.tid, a.cmd);
      Step(s, a) == State(o.h, s.threads[a.tid := o.th], s.reports + o.report)
  {
  }

  /** `call` are the steps of all threads from the command `cmd`, given to thread `t` in state `s`,
      to the step in which that call returns. */
  ghost predicate IsCall(s: State, call: seq<Action>, t: nat, cmd: Cmd) {
    && t < |s.threads| && s.threads[t].call.Idle? && |call| > 0 && call[0] == Action(t, cmd)
    && (forall k :: 0 < k < |call| ==>
         t < |StateAfter(s, call, k).threads| && !StateAfter(s, call, k).threads[t].call.Idle?)
    && t < |StateAfter(s, call, |call|).threads| && StateAfter(s, call, |call|).threads[t].call.Idle?
    && call[|call| - 1].tid == t
  }

  // How far a walk along the links has to go from location `p`.
  function Distance(h: Heap, p: nat): nat {
    if p == 0 then |h.links| else p
  }

  lemma DeadClaimed(h: Heap)
    requires HeapInv(h)
    ensures forall n :: 0 <= n < |h.links| && h.links[n].mark ==> Claimed(h, n)
  {
  }

  // ---------- claims and reports ----------

  /** A step claims nothing, or one node of the list, on the way to clearing it. */
  ghost predicate NewClaims(h: Heap, tid: nat, th: Thread, o: Outcome) {
    if Won(o.th) && !th.call.Clearing? then
      && var n := o.th.call.n;
      && n !in h.claims && n in o.h.claims && o.h.claims[n].tid == tid
      && o.h.claims == h.claims[n := o.h.claims[n]] && 0 < n && Live(h, n)
    else o.h.claims == h.claims && (Won(o.th) ==> o.th.call == th.call)
  }

  lemma FlagClaimsLive(h: Heap, p: nat, tid: nat)
    requires HeapInv(h) && Live(h, p) && !h.links[p].flag && h.links[p].to != 0
    ensures h.links[p].to !in h.claims && Live(h, h.links[p].to)
  {
    NotYetClaimed(h, p);
  }

  lemma PopClaims(h: Heap, th: Thread, tid: nat)
    requires HeapInv(h) && ThreadInv(h, tid, th) && th.frames == [] && (th.call.PopRead? || th.call.PopCas?)
    ensures NewClaims(h, tid, th, PopStep(h, th, tid))
  {
    if th.call.PopCas? && h.links[th.call.p] == th.call.val { FlagClaimsLive(h, th.call.p, tid); }
  }

  predicate Flagging(call: Call) {
    call.FlagCas? || call.FlagBack? || call.FlagReload? || call.FlagForward?
  }

  lemma FlagCasClaims(h: Heap, th: Thread, tid: nat)
    requires HeapInv(h) && ThreadInv(h, tid, th) && th.frames == [] && th.call.FlagCas?
    ensures NewClaims(h, tid, th, FlagStep(h, th, tid))
  {
    if h.links[th.call.p] == Clean(th.call.n) { FlagClaimsLive(h, th.call.p, tid); }
  }

  lemma FlagWalkClaims(h: Heap, th: Thread, tid: nat)
    requires Flagging(th.call) && !th.call.FlagCas?
    ensures NewClaims(h, tid, th, FlagStep(h, th, tid))
  {
  }

  predicate DelCall(call: Call) {
    call.DelHead? || call.DelRead? || call.DelUnlink? || call.DelAtCur? || call.DelAtPrev?
  }

  lemma DelClaims(h: Heap, th: Thread, tid: nat)
    requires |h.links| > 0 && DelCall(th.call)
    ensures NewClaims(h, tid, th, DelStep(h, th))
  {
  }

  lemma FrameClaims(h: Heap, th: Thread, tid: nat)
    requires th.frames != [] && !th.call.Failed?
    ensures NewClaims(h, tid, th, FrameStep(h, th)) || FrameStep(h, th).th.call.Failed?
  {
  }

  lemma OtherClaims(h: Heap, th: Thread, tid: nat, cmd: Cmd)
    requires |h.links| > 0 && th.frames == []
    requires th.call.Idle? || th.call.PushRead? || th.call.PushCas? || th.call.IterSkip? || th.call.Clearing?
    ensures NewClaims(h, tid, th, ThreadStep(h, th, tid, cmd))
  {
  }

  lemma ClaimsStep(h: Heap, th: Thread, tid: nat, cmd: Cmd)
    requires HeapInv(h) && ThreadInv(h, tid, th)
    ensures NewClaims(h, tid, th, ThreadStep(h, th, tid, cmd))
  {
    if th.frames != [] {
      FrameClaims(h, th, tid);
      FrameSafe(h, th);
    } else if th.call.PopRead? || th.call.PopCas? {
      PopClaims(h, th, tid);
    } else if th.call.FlagCas? {
      FlagCasClaims(h, th, tid);
    } else if Flagging(th.call) {
      FlagWalkClaims(h, th, tid);
    } else if DelCall(th.call) {
      DelClaims(h, th, tid);
    } else {
      OtherClaims(h, th, tid, cmd);
    }
  }

  /** Thread `t` has claimed `n` since state `s`. */
  predicate ClaimedBy(s: State, now: State, t: nat, n: nat) {
    n !in s.h.claims && n in now.h.claims && now.h.claims[n].tid == t
  }

  // The node a thread has won and not reported yet.
  function Prize(th: Thread): seq<nat> {
    if Won(th) then [th.call.n] else []
  }

  // What thread `t` has claimed since state `s`.
  ghost predicate ClaimsAre(s: State, now: State, t: nat, prize: seq<nat>) {
    forall n :: ClaimedBy(s, now, t, n) <==> n in prize
  }

  lemma OthersClaim(s: State, now: State, a: Action, t: nat)
    requires Running(now, a.tid) && a.tid != t && Later(s.h, now.h)
    ensures forall n :: ClaimedBy(s, Step(now, a), t, n) <==> ClaimedBy(s, now, t, n)
  {
    ClaimsStep(now.h, now.threads[a.tid], a.tid, a.cmd);
  }

  lemma OwnClaims(s: State, now: State, a: Action)
    requires Running(now, a.tid) && Later(s.h, now.h) && ClaimsAre(s, now, a.tid, Prize(now.threads[a.tid]))
    ensures var th, th' := now.threads[a.tid], Step(now, a).threads[a.tid];
      ClaimsAre(s, Step(now, a), a.tid, if Won(th) then Prize(th) else Prize(th'))
  {
    ClaimsStep(now.h, now.threads[a.tid], a.tid, a.cmd);
  }

  // A winner goes on clearing its node until it reports it.
  lemma WonStays(s: State, a: Action)
    requires Running(s, a.tid)
    ensures var th, s' := s.threads[a.tid], Step(s, a); var th' := s'.threads[a.tid];
      && (Won(th) ==> th'.call == th.call || th'.call.Idle?)
      && s'.reports == s.reports + if th'.call.Idle? then Prize(th) else []
  {
    var th := s.threads[a.tid];
    ThreadStepSafe(s.h, th, a.tid, a.cmd);
    if th.frames != [] { FrameSafe(s.h, th); }
  }

  lemma {:induction false} ReachLater(s: State, call: seq<Action>, k: nat)
    requires Inv(s) && k <= |call|
    ensures Later(s.h, StateAfter(s, call, k).h)
  {
    if k == 0 {
      LaterRefl(s.h);
    } else {
      ReachLater(s, call, k - 1);
      ReachInv(s, call, k - 1);
      NextState(s, call, k - 1);
      InvStep(StateAfter(s, call, k - 1), call[k - 1]);
    }
  }

  lemma {:induction false} CallClaims(s: State, call: seq<Action>, t: nat, cmd: Cmd, j: nat)
    requires Inv(s) && IsCall(s, call, t, cmd) && j < |call|
    ensures var now := StateAfter(s, call, j); t < |now.threads| && ClaimsAre(s, now, t, Prize(now.threads[t]))
  {
    if j > 0 {
      var before := StateAfter(s, call, j - 1);
      CallClaims(s, call, t, cmd, j - 1);
      ReachInv(s, call, j - 1);
      ReachLater(s, call, j - 1);
      NextState(s, call, j - 1);
      if call[j - 1].tid < |before.threads| {
        InvRunning(before, call[j - 1].tid);
        if call[j - 1].tid == t {
          OwnClaims(s, before, call[j - 1]);
          WonStays(before, call[j - 1]);
        } else {
          OthersStay(before, call[j - 1], t);
          OthersClaim(s, before, call[j - 1], t);
        }
      }
    }
  }

  /** The call has claimed just the nodes of `prize`, and its thread reports them, as it returns. */
  ghost predicate Reports(s: State, call: seq<Action>, t: nat, prize: seq<nat>) {
    && |prize| <= 1 && ClaimsAre(s, StateAfter(s, call, |call|), t, prize)
    && forall j :: 0 <= j < |call| && call[j].tid == t ==>
         StateAfter(s, call, j + 1).reports ==
           StateAfter(s, call, j).reports + if j + 1 == |call| then prize else []
  }

  // The thread as it takes the last step of its call.
  function LastThread(s: State, call: seq<Action>, t: nat): Thread
    requires |call| > 0
  {
    var last := StateAfter(s, call, |call| - 1);
    if t < |last.threads| then last.threads[t] else NEW_THREAD
  }

  /** A call reports a node if and only if it has itself set the flag that removes the node: at most
      one, and in its last step. */
  lemma CallReports(s: State, call: seq<Action>, t: nat, cmd: Cmd)
    requires Inv(s) && IsCall(s, call, t, cmd)
    ensures Reports(s, call, t, Prize(LastThread(s, call, t)))
  {
    var n := |call| - 1;
    forall j | 0 <= j < |call| && call[j].tid == t
      ensures StateAfter(s, call, j + 1).reports ==
        StateAfter(s, call, j).reports + if j + 1 == |call| then Prize(LastThread(s, call, t)) else []
    {
      CallClaims(s, call, t, cmd, j);
      ReachInv(s, call, j);
      InvRunning(StateAfter(s, call, j), t);
      NextState(s, call, j);
      WonStays(StateAfter(s, call, j), call[j]);
    }
    CallClaims(s, call, t, cmd, n);
    ReachInv(s, call, n);
    ReachLater(s, call, n);
    InvRunning(StateAfter(s, call, n), t);
    NextState(s, call, n);
    OwnClaims(s, StateAfter(s, call, n), call[n]);
  }

  // ---------- the removal of one node ----------

  predicate Removing(call: Call, n: nat) {
    (Flagging(call) && call.n == n) || (call.Clearing? && call.n == n)
  }

  /** A thread in a deletion of `target`. */
  predicate Deleting(call: Call, target: nat) {
    match call
    case DelHead(m) => m == target
    case DelRead(m, _, _) => m == target
    case DelUnlink(m, _, _, _) => m == target
    case _ => Removing(call, target)
  }

  /** Unless node `n` is dead it is still ahead of the thread. */
  predicate StillAhead(h: Heap, call: Call, n: nat) {
    Live(h, n) ==>
      match call
      case DelRead(_, p, val) => n <= val.to && (p == 0 || val.to < p)
      case DelUnlink(_, p, m, _) => n <= m && (p == 0 || m < p)
      case FlagCas(p, _) => p == 0 || n < p
      case FlagBack(p, _) => p == 0 || n < p
      case FlagReload(p, _) => p == 0 || n < p
      case FlagForward(p, _) => p == 0 || n < p
      case _ => true
  }

  lemma AheadLater(h: Heap, h': Heap, call: Call, n: nat)
    requires Later(h, h') && n < |h.links| && StillAhead(h, call, n)
    ensures StillAhead(h', call, n)
  {
  }

  // A step of a deletion goes on with the same node.
  predicate SameTarget(o: Outcome, target: nat) {
    o.th.call.Idle? || o.th.call.Failed? || Deleting(o.th.call, target)
  }

  lemma DelTarget(h: Heap, th: Thread, target: nat)
    requires |h.links| > 0 && (th.call.DelHead? || th.call.DelRead? || th.call.DelUnlink?) && Deleting(th.call, target)
    ensures SameTarget(DelStep(h, th), target)
  {
  }

  lemma FlagTarget(h: Heap, th: Thread, tid: nat, target: nat)
    requires Removing(th.call, target) && !th.call.Clearing?
    ensures var call := FlagStep(h, th, tid).th.call; call.Idle? || call.Failed? || Removing(call, target)
  {
  }

  lemma CallTarget(h: Heap, th: Thread, tid: nat, cmd: Cmd, target: nat)
    requires HeapInv(h) && Deleting(th.call, target) && th.frames == []
    ensures SameTarget(ThreadStep(h, th, tid, cmd), target)
  {
    if Flagging(th.call) { FlagTarget(h, th, tid, target); }
    else if DelCall(th.call) { DelTarget(h, th, target); }
  }

  lemma TargetStays(s: State, a: Action, target: nat)
    requires Running(s, a.tid) && Deleting(s.threads[a.tid].call, target)
    ensures Step(s, a).threads[a.tid].call.Idle? || Deleting(Step(s, a).threads[a.tid].call, target)
  {
    var th := s.threads[a.tid];
    OwnStep(s, a);
    NeverFails(s.h, th, a.tid, a.cmd);
    if th.frames != [] { FrameSafe(s.h, th); } else { CallTarget(s.h, th, a.tid, a.cmd, target); }
  }

  lemma NeverFails(h: Heap, th: Thread, tid: nat, cmd: Cmd)
    requires HeapInv(h) && ThreadInv(h, tid, th)
    ensures !ThreadStep(h, th, tid, cmd).th.call.Failed?
  {
    ThreadStepSafe(h, th, tid, cmd);
  }

  // What a step of a deletion gives about a published node: it is dead when the call returns.
  predicate Progress(o: Outcome, n: nat) {
    if o.th.call.Idle? then !Live(o.h, n) else StillAhead(o.h, o.th.call, n)
  }

  lemma DelProgress(h: Heap, th: Thread, tid: nat, n: nat)
    requires HeapInv(h) && CallInv(h, tid, th) && 0 < n < |h.links| && (th.call.DelHead? || th.call.DelRead?)
    requires Deleting(th.call, n) && StillAhead(h, th.call, n)
    ensures Progress(DelStep(h, th), n)
  {
    if th.call.DelHead? { NoLiveBetween(h, 0, n); } else { NoLiveBetween(h, th.call.val.to, n); }
  }

  lemma UnlinkProgress(h: Heap, th: Thread, tid: nat, n: nat)
    requires HeapInv(h) && CallInv(h, tid, th) && 0 < n < |h.links| && th.call.DelUnlink?
    requires Deleting(th.call, n) && StillAhead(h, th.call, n)
    ensures Progress(DelStep(h, th), n)
  {
    NoLiveBetween(h, th.call.n, n);
  }

  lemma SettleProgress(h: Heap, th: Thread, p: nat, n: nat)
    requires HeapInv(h) && 0 < n < |h.links| && p < |h.links| && (Live(h, n) ==> p == 0 || n < p)
    ensures Progress(Settle(h, th, p, h.links[p], n), n)
  {
    NoLiveBetween(h, p, n);
  }

  lemma FlagCasProgress(h: Heap, th: Thread, tid: nat, n: nat)
    requires HeapInv(h) && CallInv(h, tid, th) && 0 < n < |h.links| && th.call.FlagCas?
    requires Removing(th.call, n) && StillAhead(h, th.call, n)
    ensures Progress(FlagStep(h, th, tid), n)
  {
    SettleProgress(h, th, th.call.p, n);
  }

  lemma FlagWalkProgress(h: Heap, th: Thread, tid: nat, n: nat)
    requires HeapInv(h) && CallInv(h, tid, th) && 0 < n < |h.links| && Flagging(th.call) && !th.call.FlagCas?
    requires Removing(th.call, n) && StillAhead(h, th.call, n)
    ensures Progress(FlagStep(h, th, tid), n)
  {
    if th.call.FlagBack? { assert Claimed(h, th.call.p); }
    else if th.call.FlagReload? { SettleProgress(h, th, th.call.p, n); }
    else { NoLiveBetween(h, th.call.p, n); }
  }

  lemma CallProgress(h: Heap, th: Thread, tid: nat, cmd: Cmd, n: nat)
    requires HeapInv(h) && CallInv(h, tid, th) && th.frames == [] && 0 < n < |h.links|
    requires Deleting(th.call, n) && StillAhead(h, th.call, n)
    ensures Progress(ThreadStep(h, th, tid, cmd), n)
  {
    if th.call.DelUnlink? { UnlinkProgress(h, th, tid, n); }
    else if DelCall(th.call) { DelProgress(h, th, tid, n); }
    else if th.call.FlagCas? { FlagCasProgress(h, th, tid, n); }
    else if Flagging(th.call) { FlagWalkProgress(h, th, tid, n); }
  }

  lemma FrameProgress(h: Heap, th: Thread, tid: nat, n: nat)
    requires HeapInv(h) && ThreadInv(h, tid, th) && th.frames != [] && n < |h.links| && StillAhead(h, th.call, n)
    ensures Progress(FrameStep(h, th), n)
  {
    FrameSafe(h, th);
    AheadLater(h, FrameStep(h, th).h, th.call, n);
  }

  lemma DeletionProgress(s: State, a: Action, n: nat)
    requires Running(s, a.tid) && 0 < n < |s.h.links|
    requires Deleting(s.threads[a.tid].call, n) && StillAhead(s.h, s.threads[a.tid].call, n)
    ensures Progress(Outcome(Step(s, a).h, Step(s, a).threads[a.tid], []), n)
  {
    var th := s.threads[a.tid];
    OwnStep(s, a);
    if th.frames != [] { FrameProgress(s.h, th, a.tid, n); } else { CallProgress(s.h, th, a.tid, a.cmd, n); }
  }

  // ---------- nblist_del ----------

  lemma DelBegins(s: State, t: nat, target: nat)
    requires Running(s, t) && s.threads[t].call.Idle?
    ensures var s' := Step(s, Action(t, CallDel(target))); s'.h == s.h && s'.threads[t].call == DelHead(target)
  {
  }

  lemma {:induction false} CallDeletes(s: State, call: seq<Action>, t: nat, target: nat, j: nat)
    requires Inv(s) && IsCall(s, call, t, CallDel(target)) && 0 < j < |call|
    ensures Deleting(StateAfter(s, call, j).threads[t].call, target)
  {
    var before := StateAfter(s, call, j - 1);
    NextState(s, call, j - 1);
    ReachInv(s, call, j - 1);
    if j == 1 {
      assert before == s;
      DelBegins(s, t, target);
    } else {
      CallDeletes(s, call, t, target, j - 1);
      if call[j - 1].tid == t { TargetStays(before, call[j - 1], target); } else { OthersStay(before, call[j - 1], t); }
    }
  }

  lemma AheadBesides(s: State, a: Action, t: nat, n: nat)
    requires Inv(s) && t < |s.threads| && a.tid != t && n < |s.h.links| && StillAhead(s.h, s.threads[t].call, n)
    ensures StillAhead(Step(s, a).h, Step(s, a).threads[t].call, n)
  {
    OthersStay(s, a, t);
    InvStep(s, a);
    AheadLater(s.h, Step(s, a).h, s.threads[t].call, n);
  }

  lemma AheadNext(s: State, a: Action, t: nat, n: nat)
    requires Inv(s) && t < |s.threads| && 0 < n < |s.h.links|
    requires Deleting(s.threads[t].call, n) && StillAhead(s.h, s.threads[t].call, n)
    ensures Step(s, a).threads[t].call.Idle? || StillAhead(Step(s, a).h, Step(s, a).threads[t].call, n)
  {
    if a.tid == t {
      InvRunning(s, t);
      DeletionProgress(s, a, n);
    } else {
      AheadBesides(s, a, t, n);
    }
  }

  lemma {:induction false} CallStaysAhead(s: State, call: seq<Action>, t: nat, target: nat, j: nat)
    requires Inv(s) && IsCall(s, call, t, CallDel(target)) && 0 < j < |call| && 0 < target < |s.h.links|
    ensures StillAhead(StateAfter(s, call, j).h, StateAfter(s, call, j).threads[t].call, target)
  {
    var before := StateAfter(s, call, j - 1);
    NextState(s, call, j - 1);
    ReachInv(s, call, j - 1);
    ReachLater(s, call, j - 1);
    if j == 1 {
      assert before == s;
      DelBegins(s, t, target);
    } else {
      CallStaysAhead(s, call, t, target, j - 1);
      CallDeletes(s, call, t, target, j - 1);
      AheadNext(before, call[j - 1], t, target);
    }
  }

  lemma DelTakesSteps(s: State, call: seq<Action>, t: nat, target: nat)
    requires Inv(s) && IsCall(s, call, t, CallDel(target))
    ensures |call| > 1
  {
    NextState(s, call, 0);
    assert StateAfter(s, call, 0) == s;
    DelBegins(s, t, target);
  }

  /** A deletion of `target` claims and reports no other node, and reports it if and only if the
      call itself has claimed it.  A target that was published is gone when the call returns. */
  lemma DelAnswers(threads: nat, schedule: seq<Action>, call: seq<Action>, t: nat, target: nat)
    requires IsCall(Exec(Start(threads), schedule), call, t, CallDel(target))
    ensures var s := Exec(Start(threads), schedule); var end := StateAfter(s, call, |call|);
      && Reports(s, call, t, if ClaimedBy(s, end, t, target) then [target] else [])
      && (0 < target < |s.h.links| ==> !Live(end.h, target))
  {
    var s, n := Exec(Start(threads), schedule), |call| - 1;
    ExecInv(threads, schedule);
    DelTakesSteps(s, call, t, target);
    CallReports(s, call, t, CallDel(target));
    CallDeletes(s, call, t, target, n);
    ReachInv(s, call, n);
    ReachLater(s, call, n);
    NextState(s, call, n);
    if 0 < target < |s.h.links| {
      CallStaysAhead(s, call, t, target, n);
      DeletionProgress(StateAfter(s, call, n), call[n], target);
    }
  }

  // ---------- nblist_pop ----------

  ghost predicate ListedSometime(s: State, call: seq<Action>, n: nat, j: nat)
    requires j <= |call|
  {
    exists i :: 0 <= i <= j && n in Contents(StateAfter(s, call, i).h)
  }

  lemma ListedLater(s: State, call: seq<Action>, n: nat, j: nat)
    requires j < |call|
    ensures ListedSometime(s, call, n, j) ==> ListedSometime(s, call, n, j + 1)
  {
  }

  lemma ClaimsListed(s: State, now: State, a: Action, n: nat)
    requires Running(now, a.tid)
    ensures ClaimedBy(s, Step(now, a), a.tid, n) && !ClaimedBy(s, now, a.tid, n) ==> n in Contents(now.h)
  {
    ClaimsStep(now.h, now.threads[a.tid], a.tid, a.cmd);
    OwnStep(now, a);
    LiveBelowMembers(now.h.links, |now.h.links|);
  }

  lemma {:induction false} ClaimedWhenListed(s: State, call: seq<Action>, t: nat, cmd: Cmd, n: nat, j: nat)
    requires Inv(s) && IsCall(s, call, t, cmd) && j <= |call|
    ensures ClaimedBy(s, StateAfter(s, call, j), t, n) ==> ListedSometime(s, call, n, j)
  {
    if j > 0 {
      var before := StateAfter(s, call, j - 1);
      ClaimedWhenListed(s, call, t, cmd, n, j - 1);
      ListedLater(s, call, n, j - 1);
      CallClaims(s, call, t, cmd, j - 1);
      ReachInv(s, call, j - 1);
      ReachLater(s, call, j - 1);
      NextState(s, call, j - 1);
      if call[j - 1].tid < |before.threads| {
        InvRunning(before, call[j - 1].tid);
        if call[j - 1].tid == t { ClaimsListed(s, before, call[j - 1], n); }
        else { OthersClaim(s, before, call[j - 1], t); }
      }
    }
  }

  ghost predicate AllListed(s: State, call: seq<Action>, prize: seq<nat>) {
    forall n :: n in prize ==> ListedSometime(s, call, n, |call|)
  }

  lemma PrizeListed(s: State, call: seq<Action>, t: nat, cmd: Cmd, prize: seq<nat>)
    requires Inv(s) && IsCall(s, call, t, cmd) && Reports(s, call, t, prize)
    ensures AllListed(s, call, prize)
  {
    forall n | n in prize ensures ListedSometime(s, call, n, |call|) {
      assert ClaimedBy(s, StateAfter(s, call, |call|), t, n);
      ClaimedWhenListed(s, call, t, cmd, n, |call|);
    }
  }

  // The call reports a node that was in the list, or nothing.
  ghost predicate ReportsListed(s: State, call: seq<Action>, t: nat) {
    exists prize :: Reports(s, call, t, prize) && AllListed(s, call, prize)
  }

  /** A pop claims and reports at most one node, and that node is in the list in the state of the
      call in which it is claimed. */
  lemma PopAnswers(threads: nat, schedule: seq<Action>, call: seq<Action>, t: nat)
    requires IsCall(Exec(Start(threads), schedule), call, t, CallPop)
    ensures ReportsListed(Exec(Start(threads), schedule), call, t)
  {
    var s := Exec(Start(threads), schedule);
    ExecInv(threads, schedule);
    CallReports(s, call, t, CallPop);
    PrizeListed(s, call, t, CallPop, Prize(LastThread(s, call, t)));
  }

  // ---------- nblist_push ----------

  predicate Pushing(call: Call, top: nat) {
    match call
    case PushRead(m) => m == top
    case PushCas(val) => val == Clean(top)
    case _ => false
  }

  // A step of a push goes on, or ends it: with the new node in front where `top` was, or with nothing.
  lemma PushingStep(s: State, a: Action, top: nat)
    requires Running(s, a.tid) && Pushing(s.threads[a.tid].call, top)
    ensures var s' := Step(s, a); var call' := s'.threads[a.tid].call;
      if Pushing(call', top) then !EventOf(s, a).Pushed?
      else call'.Idle? && EventOf(s, a) == (if s.h.links[0] == Clean(top) then Pushed(|s.h.links|) else Silent)
  {
    var th := s.threads[a.tid];
    OwnStep(s, a);
    NeverFails(s.h, th, a.tid, a.cmd);
    if th.frames != [] { FrameSafe(s.h, th); }
  }

  lemma PushBegins(s: State, t: nat, top: nat)
    requires Running(s, t) && s.threads[t].call.Idle?
    ensures Step(s, Action(t, CallPush(top))).threads[t].call == PushRead(top)
    ensures EventOf(s, Action(t, CallPush(top))) == Silent
  {
  }

  lemma {:induction false} CallPushes(s: State, call: seq<Action>, t: nat, top: nat, j: nat)
    requires Inv(s) && IsCall(s, call, t, CallPush(top)) && 0 < j < |call|
    ensures Pushing(StateAfter(s, call, j).threads[t].call, top)
    ensures call[j - 1].tid == t ==> !EventOf(StateAfter(s, call, j - 1), call[j - 1]).Pushed?
  {
    var before := StateAfter(s, call, j - 1);
    NextState(s, call, j - 1);
    ReachInv(s, call, j - 1);
    if j == 1 {
      assert before == s;
      PushBegins(s, t, top);
    } else {
      CallPushes(s, call, t, top, j - 1);
      if call[j - 1].tid == t { PushingStep(before, call[j - 1], top); } else { OthersStay(before, call[j - 1], t); }
    }
  }

  lemma PushTakesSteps(s: State, call: seq<Action>, t: nat, top: nat)
    requires Inv(s) && IsCall(s, call, t, CallPush(top))
    ensures |call| > 1
  {
    NextState(s, call, 0);
    assert StateAfter(s, call, 0) == s;
    PushBegins(s, t, top);
  }

  // The newest node of a list, or NULL.
  function Front(list: seq<nat>): nat {
    if list == [] then 0 else list[0]
  }

  // A clean link of the head leads to the newest node.
  lemma CleanFront(h: Heap)
    requires HeapInv(h) && h.links[0] == Clean(h.links[0].to)
    ensures Front(Contents(h)) == h.links[0].to
  {
    var to := h.links[0].to;
    WalkMeetsLive(h, 0);
    if to != 0 && h.links[to].mark {
      assert Claimed(h, to);
      if h.links[h.claims[to].pred] == Flagged(to) { OneLivePredecessor(h, 0, h.claims[to].pred); }
    }
  }

  /** A push publishes its node at most once, in its last step: in front of the list and just when
      the head points at `top` with no flag, which is then the newest node.  Otherwise that step
      leaves the list alone, and no other step of the call pushes. */
  lemma PushAnswers(threads: nat, schedule: seq<Action>, call: seq<Action>, t: nat, top: nat)
    requires IsCall(Exec(Start(threads), schedule), call, t, CallPush(top))
    ensures var s := Exec(Start(threads), schedule);
      var last, end := StateAfter(s, call, |call| - 1), StateAfter(s, call, |call|);
      && Reports(s, call, t, []) && |last.h.links| > 0
      && (if last.h.links[0] == Clean(top) then
            Front(Contents(last.h)) == top && Contents(end.h) == [|last.h.links|] + Contents(last.h)
          else Contents(end.h) == Contents(last.h))
      && forall j :: 0 <= j < |call| - 1 && call[j].tid == t ==> !EventOf(StateAfter(s, call, j), call[j]).Pushed?
  {
    var s, n := Exec(Start(threads), schedule), |call| - 1;
    ExecInv(threads, schedule);
    PushTakesSteps(s, call, t, top);
    CallReports(s, call, t, CallPush(top));
    CallPushes(s, call, t, top, n);
    ReachInv(s, call, n);
    NextState(s, call, n);
    PushingStep(StateAfter(s, call, n), call[n], top);
    StepRefines(StateAfter(s, call, n), call[n]);
    if StateAfter(s, call, n).h.links[0] == Clean(top) { CleanFront(StateAfter(s, call, n).h); }
    forall j | 0 <= j < |call| - 1 && call[j].tid == t ensures !EventOf(StateAfter(s, call, j), call[j]).Pushed? {
      CallPushes(s, call, t, top, j + 1);
    }
  }
}
