/** Deletions in flight: which threads have them, and what a pop makes of one that has stalled. */
module NonBlockingListStalls {
  import opened ListHeap
  import opened NonBlockingList
  import opened NonBlockingListSafety
  import opened NonBlockingListResults
  import opened NonBlockingListCalls
  import opened NonBlockingListAlone

  // ---------- who has a deletion in flight ----------

  // The thread that claimed `n` is still clearing it, or `n` is unlinked.
  predicate Attended(s: State, n: nat)
    requires n in s.h.claims
  {
    var t := s.h.claims[n].tid;
    t < |s.threads| && ((Won(s.threads[t]) && s.threads[t].call.n == n) || Cut(s.h, n))
  }

  ghost predicate ClaimsAttended(s: State) {
    forall n :: n in s.h.claims ==> Attended(s, n)
  }

  // A winner returns only when its node is unlinked.
  lemma WonEnds(s: State, a: Action)
    requires Running(s, a.tid) && Won(s.threads[a.tid])
    ensures var th, th' := s.threads[a.tid], Step(s, a).threads[a.tid];
      th'.call == th.call || Cut(s.h, th.call.n)
  {
    OwnStep(s, a);
    var th := s.threads[a.tid];
    if th.frames != [] { FrameSafe(s.h, th); }
  }

  lemma AttendedStep(s: State, a: Action)
    requires Inv(s) && ClaimsAttended(s)
    ensures ClaimsAttended(Step(s, a))
  {
    if a.tid < |s.threads| {
      var s' := Step(s, a);
      InvRunning(s, a.tid);
      InvStep(s, a);
      OwnStep(s, a);
      ClaimsStep(s.h, s.threads[a.tid], a.tid, a.cmd);
      forall n | n in s'.h.claims ensures Attended(s', n) {
        if n in s.h.claims {
          assert Attended(s, n);
          if Won(s.threads[a.tid]) { WonEnds(s, a); }
        }
      }
    }
  }

  lemma {:induction false} ExecAttended(threads: nat, schedule: seq<Action>)
    ensures ClaimsAttended(Exec(Start(threads), schedule))
    decreases |schedule|
  {
    if schedule != [] {
      var k := |schedule| - 1;
      ExecAttended(threads, schedule[..k]);
      ExecInv(threads, schedule[..k]);
      AttendedStep(Exec(Start(threads), schedule[..k]), schedule[k]);
    }
  }

  /** No deletion is in flight if and only if no thread is between the step that flags a node and the
      one that unlinks it; so it is when every thread is idle. */
  lemma CalmExactly(threads: nat, schedule: seq<Action>)
    ensures var s := Exec(Start(threads), schedule);
      Calm(s.h) <==> forall t :: 0 <= t < |s.threads| && Won(s.threads[t]) ==> Cut(s.h, s.threads[t].call.n)
  {
    var s := Exec(Start(threads), schedule);
    ExecInv(threads, schedule);
    ExecAttended(threads, schedule);
    if Calm(s.h) {
      forall t | 0 <= t < |s.threads| && Won(s.threads[t]) ensures Cut(s.h, s.threads[t].call.n) {
        InvRunning(s, t);
        assert Claimed(s.h, s.threads[t].call.n);
      }
    }
    forall p | 0 <= p < |s.h.links| && s.h.links[p].flag
      ensures exists t :: 0 <= t < |s.threads| && Won(s.threads[t]) && !Cut(s.h, s.threads[t].call.n)
    {
      assert Attended(s, s.h.links[p].to);
      assert Won(s.threads[s.h.claims[s.h.links[p].to].tid]);
    }
  }

  // ---------- a pop beside stalled deletions ----------

  /** The newest node of the list that no call has claimed. */
  ghost predicate NewestUnclaimed(h: Heap, u: nat) {
    && 0 < u && Live(h, u) && u !in h.claims
    && forall n :: u < n < |h.links| && Live(h, n) ==> n in h.claims
  }

  predicate LinkedFrom(h: Heap, p: nat, u: nat) {
    Live(h, p) && h.links[p].to == u
  }

  ghost predicate Takes(s: State, t: nat, u: nat) {
    exists k :: u in Alone(s, t, CallPop, k).h.claims
  }

  // The access of the walk of nblist_pop at `p`.
  lemma PopPasses(s: State, t: nat, k: nat, p: nat)
    requires Ready(s, t) && p < |s.h.links| && s.h.links[p].to < |s.h.links| && s.h.links[p].to != 0
    requires s.h.links[p].mark || s.h.links[p].flag
    requires Stands(s, t, CallPop, k, s.h, As(s, t, PopLoop(p, s.h.links[p])))
    ensures var n := s.h.links[p].to; Stands(s, t, CallPop, k + 1, s.h, As(s, t, PopLoop(n, s.h.links[n])))
  {
    Next(s, t, CallPop, k, s.h, As(s, t, PopLoop(p, s.h.links[p])));
  }

  lemma PopClaimsHere(s: State, t: nat, k: nat, p: nat)
    requires Ready(s, t) && p < |s.h.links| && s.h.links[p] == Clean(s.h.links[p].to) && s.h.links[p].to != 0
    requires Stands(s, t, CallPop, k, s.h, As(s, t, PopLoop(p, s.h.links[p])))
    ensures s.h.links[p].to in Alone(s, t, CallPop, k + 1).h.claims
  {
    Next(s, t, CallPop, k, s.h, As(s, t, PopLoop(p, s.h.links[p])));
  }

  // A clean link that is newer than the newest unclaimed node leads to a claimed one: there is none.
  lemma NewerLinks(h: Heap, p: nat, q: nat, u: nat)
    requires HeapInv(h) && NewestUnclaimed(h, u) && LinkedFrom(h, q, u) && p < |h.links| && (p == 0 || u < p)
    requires q != 0 && q != p && (p == 0 || q < p)
    ensures var n := h.links[p].to; q <= n && n < |h.links| && (h.links[p].mark || h.links[p].flag)
  {
    NoLiveBetween(h, p, q);
    DeadClaimed(h);
    if !h.links[p].mark && !h.links[p].flag { NotYetClaimed(h, p); }
  }

  lemma {:induction false} PopWalk(s: State, t: nat, k: nat, p: nat, q: nat, u: nat)
    requires HeapInv(s.h) && Ready(s, t) && NewestUnclaimed(s.h, u) && LinkedFrom(s.h, q, u)
    requires p < |s.h.links| && (p == 0 || u < p) && (q == p || (q != 0 && (p == 0 || q < p)))
    requires Stands(s, t, CallPop, k, s.h, As(s, t, PopLoop(p, s.h.links[p])))
    ensures Takes(s, t, u)
    decreases Distance(s.h, p)
  {
    if q == p {
      PopClaimsHere(s, t, k, p);
    } else {
      NewerLinks(s.h, p, q, u);
      PopPasses(s, t, k, p);
      PopWalk(s, t, k + 1, s.h.links[p].to, q, u);
    }
  }

  // A pop that has claimed nothing still sees the heap it began with, and has not claimed `u`.
  predicate Spares(s: State, now: State, t: nat, u: nat) {
    && t < |now.threads| && u !in now.h.claims
    && match now.threads[t].call
       case PopRead(_) => now.h == s.h
       case PopCas(_, _) => now.h == s.h
       case Clearing(_, _) => true
       case Idle => true
       case _ => false
  }

  lemma SparesPop(s: State, h: Heap, th: Thread, t: nat, u: nat)
    requires HeapInv(s.h) && u !in s.h.claims && h == s.h && (th.call.PopRead? || th.call.PopCas?)
    requires forall p :: 0 <= p < |h.links| ==> !LinkedFrom(h, p, u)
    requires ThreadInv(h, t, th)
    ensures var o := PopStep(h, th, t); u !in o.h.claims && match o.th.call
      case PopRead(_) => o.h == s.h
      case PopCas(_, _) => o.h == s.h
      case Clearing(_, _) => true
      case Idle => true
      case _ => false
  {
    if th.call.PopCas? { assert !LinkedFrom(h, th.call.p, u); }
  }

  lemma SparesStep(s: State, now: State, t: nat, u: nat)
    requires HeapInv(s.h) && u !in s.h.claims && Running(now, t) && Spares(s, now, t, u)
    requires forall p :: 0 <= p < |s.h.links| ==> !LinkedFrom(s.h, p, u)
    ensures Spares(s, Step(now, Action(t, Continue)), t, u)
  {
    var th := now.threads[t];
    OwnStep(now, Action(t, Continue));
    if th.frames != [] {
      FrameSafe(now.h, th);
      FrameClaims(now.h, th, t);
    } else if th.call.PopRead? || th.call.PopCas? {
      SparesPop(s, now.h, th, t, u);
    }
  }

  ghost predicate Sound(s: State, threads: nat) {
    Inv(s) && |s.threads| == threads
  }

  lemma SoundNext(s: State, a: Action, threads: nat)
    requires Sound(s, threads)
    ensures Sound(Step(s, a), threads)
  {
    InvStep(s, a);
  }

  lemma {:induction false} AloneSound(s: State, t: nat, cmd: Cmd, k: nat)
    requires Sound(s, |s.threads|)
    ensures Sound(Alone(s, t, cmd, k), |s.threads|)
  {
    if k == 0 {
      SoundNext(s, Action(t, cmd), |s.threads|);
    } else {
      AloneSound(s, t, cmd, k - 1);
      SoundNext(Alone(s, t, cmd, k - 1), Action(t, Continue), |s.threads|);
    }
  }

  lemma SparesBegins(s: State, t: nat, u: nat)
    requires Inv(s) && Ready(s, t) && u !in s.h.claims
    ensures Spares(s, Alone(s, t, CallPop, 0), t, u)
  {
    First(s, t, CallPop);
  }

  lemma SparesNext(s: State, t: nat, u: nat, k: nat)
    requires Inv(s) && t < |s.threads| && u !in s.h.claims && Spares(s, Alone(s, t, CallPop, k), t, u)
    requires forall p :: 0 <= p < |s.h.links| ==> !LinkedFrom(s.h, p, u)
    ensures Spares(s, Alone(s, t, CallPop, k + 1), t, u)
  {
    AloneSound(s, t, CallPop, k);
    InvRunning(Alone(s, t, CallPop, k), t);
    SparesStep(s, Alone(s, t, CallPop, k), t, u);
  }

  lemma {:induction false} NeverTaken(s: State, t: nat, u: nat, k: nat)
    requires Inv(s) && Ready(s, t) && u !in s.h.claims
    requires forall p :: 0 <= p < |s.h.links| ==> !LinkedFrom(s.h, p, u)
    ensures Spares(s, Alone(s, t, CallPop, k), t, u)
  {
    if k == 0 {
      SparesBegins(s, t, u);
    } else {
      NeverTaken(s, t, u, k - 1);
      SparesNext(s, t, u, k - 1);
    }
  }

  /** Whatever other threads have left behind, a pop that runs alone claims the newest unclaimed node
      of the list if and only if a live location still points at it: a node that a stalled deletion
      has left behind a dead one is passed over. */
  lemma PopTakesNewest(threads: nat, schedule: seq<Action>, t: nat, u: nat)
    requires var s := Exec(Start(threads), schedule);
      t < |s.threads| && s.threads[t].call.Idle? && NewestUnclaimed(s.h, u)
    ensures var s := Exec(Start(threads), schedule);
      Takes(s, t, u) <==> exists p :: 0 <= p < |s.h.links| && LinkedFrom(s.h, p, u)
  {
    var s := Exec(Start(threads), schedule);
    ExecInv(threads, schedule);
    IdleReady(s, t);
    if p :| 0 <= p < |s.h.links| && LinkedFrom(s.h, p, u) {
      First(s, t, CallPop);
      Next(s, t, CallPop, 0, s.h, As(s, t, PopRead(0)));
      PopWalk(s, t, 1, 0, p, u);
    } else {
      forall k: nat ensures u !in Alone(s, t, CallPop, k).h.claims { NeverTaken(s, t, u, k); }
    }
  }

  // ---------- a run in which a pop finds nothing in a list that is not empty ----------

  function Do(tid: nat): Action { Action(tid, Continue) }

  const ITER: Iter := Iter(NoRef, 0, {}, 0)
  const ONE: Heap := Heap([Clean(1), Clean(0)], [NoRef, NoRef], map[])
  const TWO: Heap := Heap([Clean(2), Clean(0), Clean(1)], [NoRef, NoRef, NoRef], map[])
  const FLAGGED: Heap := Heap([Flagged(2), Clean(0), Clean(1)], [NoRef, NoRef, NoRef], map[2 := Claim(0, 0)])
  const BACKED: Heap := Heap([Flagged(2), Clean(0), Clean(1)], [NoRef, NoRef, At(0)], map[2 := Claim(0, 0)])
  const MARKED: Heap :=
    Heap([Flagged(2), Clean(0), Link(1, true, false)], [NoRef, NoRef, At(0)], map[2 := Claim(0, 0)])

  function Stage(at: FrameAt): Thread { Thread(Clearing(2, true), [Frame(0, 2, at)], ITER) }

  const STALL: Thread := Stage(CasUnlink(Link(1, true, false)))

  // The two threads while the second is idle.
  function Both(h: Heap, th: Thread): State { State(h, [th, NEW_THREAD], []) }

  function Calls(h: Heap, call: Call): State { Both(h, Thread(call, [], ITER)) }

  // Two pushes, and a pop that stops when it has marked its node.
  const PUSHED: seq<Action> := [Action(0, CallPush(0)), Do(0), Do(0)]
  const PUSHED_TWICE: seq<Action> := PUSHED + [Action(0, CallPush(1)), Do(0), Do(0)]
  const POPPING: seq<Action> := PUSHED_TWICE + [Action(0, CallPop), Do(0), Do(0)]
  const STALLED: seq<Action> := POPPING + [Do(0), Do(0), Do(0)]

  lemma Goes(s: State, schedule: seq<Action>, a: Action, x: State, y: State)
    requires Exec(s, schedule) == x && Step(x, a) == y
    ensures Exec(s, schedule + [a]) == y
  {
    assert (schedule + [a])[..|schedule|] == schedule;
  }

  lemma GoesOn(s: State, schedule: seq<Action>, actions: seq<Action>, run: seq<State>)
    requires |actions| == 3 && |run| == 4 && Exec(s, schedule) == run[0]
    requires forall k :: 0 <= k < 3 ==> Step(run[k], actions[k]) == run[k + 1]
    ensures Exec(s, schedule + actions) == run[3]
  {
    Goes(s, schedule, actions[0], run[0], run[1]);
    Goes(s, schedule + [actions[0]], actions[1], run[1], run[2]);
    Goes(s, schedule + [actions[0]] + [actions[1]], actions[2], run[2], run[3]);
    assert schedule + [actions[0]] + [actions[1]] + [actions[2]] == schedule + actions;
  }

  lemma FirstPush()
    ensures Exec(Start(2), PUSHED) == Both(ONE, NEW_THREAD)
  {
    assert Start(2) == Both(EMPTY, NEW_THREAD);
    assert [] + PUSHED == PUSHED;
    GoesOn(Start(2), [], PUSHED,
      [Start(2), Calls(EMPTY, PushRead(0)), Calls(EMPTY, PushCas(Clean(0))), Both(ONE, NEW_THREAD)]);
  }

  lemma SecondPush()
    ensures Exec(Start(2), PUSHED_TWICE) == Both(TWO, NEW_THREAD)
  {
    FirstPush();
    GoesOn(Start(2), PUSHED, [Action(0, CallPush(1)), Do(0), Do(0)],
      [Both(ONE, NEW_THREAD), Calls(ONE, PushRead(1)), Calls(ONE, PushCas(Clean(1))), Both(TWO, NEW_THREAD)]);
  }

  lemma PopFlags()
    ensures Exec(Start(2), POPPING) == Both(FLAGGED, Stage(SetBacklink))
  {
    SecondPush();
    GoesOn(Start(2), PUSHED_TWICE, [Action(0, CallPop), Do(0), Do(0)],
      [Both(TWO, NEW_THREAD), Calls(TWO, PopRead(0)), Calls(TWO, PopCas(0, Clean(2))),
       Both(FLAGGED, Stage(SetBacklink))]);
  }

  lemma StageNext(at: FrameAt, at': FrameAt)
    ensures Replace(Stage(at).frames, at') == Stage(at').frames
  {
  }

  lemma PopMarks()
    ensures Exec(Start(2), STALLED) == Both(MARKED, STALL)
  {
    PopFlags();
    StageNext(SetBacklink, ReadNext);
    StageNext(ReadNext, CasMark(Clean(1)));
    StageNext(CasMark(Clean(1)), CasUnlink(Link(1, true, false)));
    assert SetBack(FLAGGED, 2, 0) == BACKED && SetMark(BACKED, 2) == MARKED;
    GoesOn(Start(2), POPPING, [Do(0), Do(0), Do(0)],
      [Both(FLAGGED, Stage(SetBacklink)), Both(BACKED, Stage(ReadNext)), Both(BACKED, Stage(CasMark(Clean(1)))),
       Both(MARKED, STALL)]);
  }

  function Other(call: Call): State { State(MARKED, [STALL, Thread(call, [], ITER)], []) }

  lemma OtherPops()
    ensures Alone(Other(Idle), 1, CallPop, 0) == Other(PopRead(0))
    ensures Alone(Other(Idle), 1, CallPop, 1) == Other(PopRead(2))
    ensures Alone(Other(Idle), 1, CallPop, 2) == Other(PopRead(1))
    ensures Alone(Other(Idle), 1, CallPop, 3) == Other(Idle)
  {
    assert Step(Other(Idle), Action(1, CallPop)) == Other(PopRead(0));
    assert Step(Other(PopRead(0)), Do(1)) == Other(PopRead(2));
    assert Step(Other(PopRead(2)), Do(1)) == Other(PopRead(1));
    assert Step(Other(PopRead(1)), Do(1)) == Other(Idle);
  }

  lemma OneListed()
    ensures NewestUnclaimed(MARKED, 1) && Contents(MARKED) == [1]
  {
    assert LiveBelow(MARKED.links, 2) == [1] + LiveBelow(MARKED.links, 1);
    assert LiveBelow(MARKED.links, 3) == LiveBelow(MARKED.links, 2);
  }

  ghost predicate Reachable(s: State, threads: nat) {
    exists schedule :: Exec(Start(threads), schedule) == s
  }

  lemma RunReaches(s: State, threads: nat, schedule: seq<Action>)
    requires Exec(Start(threads), schedule) == s
    ensures Reachable(s, threads)
  {
  }

  lemma StalledReachable()
    ensures Reachable(Other(Idle), 2)
  {
    PopMarks();
    assert Both(MARKED, STALL) == Other(Idle);
    RunReaches(Other(Idle), 2, STALLED);
  }

  /** A reachable state in which a pop that runs alone returns nothing, although the list holds an
      unclaimed node throughout. */
  lemma PopMissesNode()
    ensures Reachable(Other(Idle), 2) && Contents(MARKED) == [1] && NewestUnclaimed(MARKED, 1)
    ensures forall k :: 0 <= k <= 3 ==> Alone(Other(Idle), 1, CallPop, k).h == MARKED
    ensures Alone(Other(Idle), 1, CallPop, 3) == Other(Idle)
  {
    StalledReachable();
    OtherPops();
    OneListed();
  }
}
