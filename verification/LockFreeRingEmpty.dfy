/** When a dequeue that returns nothing met an empty ring, exactly. */
module LockFreeRingEmpty {
  import opened RingWords
  import opened LockFreeRing
  import opened LockFreeRingSafety
  import opened LockFreeRingPublished
  import Lag = LockFreeRingLag

  /** Everything written was taken, unpublished elements included. */
  predicate Empty(s: State) {
    s.head == |s.written|
  }

  /** `call` are the steps of all threads from state `s`, in which a dequeue of thread `t` is
      about to make its first access, to the step in which it returns nothing although it
      wanted something. */
  ghost predicate ReturnsNothing(c: Config, s: State, call: seq<Action>, t: nat) {
    && |call| > 0 && call[|call| - 1].tid == t
    && t < |s.threads| && s.threads[t].DeqHead?
    && (forall k :: 0 <= k < |call| ==>
         t < |StateAfter(c, s, call, k).threads| && Dequeues(StateAfter(c, s, call, k).threads[t]))
    && var before, after := StateAfter(c, s, call, |call| - 1), StateAfter(c, s, call, |call|);
    && |after.results| > |before.results|
    && after.results[|before.results|].Nothing? && after.results[|before.results|].want > 0
  }

  ghost predicate EmptySometime(c: Config, s: State, call: seq<Action>) {
    exists k :: 0 <= k <= |call| && Empty(StateAfter(c, s, call, k))
  }

  // ---------- what moves the head ----------

  predicate Commits(s: State, s': State, a: Action) {
    && a.tid < |s.threads| == |s'.threads| && s.threads[a.tid].DeqCommit? && s'.threads[a.tid].Idle?
    && |s'.results| == |s.results| + 1 && s'.results[|s.results|].Dequeued?
  }

  /** Only a dequeue that succeeds moves the head. */
  lemma OnlyCommitsMoveHead(c: Config, s: State, a: Action)
    requires Inv(c, s) && Step(c, s, a).head != s.head
    ensures Commits(s, Step(c, s, a), a)
  {
    var pc := s.threads[a.tid];
    if Dequeues(pc) && !pc.UpdateRead? && !pc.UpdateCas? { assert Step(c, s, a) == DeqStep(c, s, a.tid); }
  }

  // A single consumer is the only one to move the head.
  lemma OthersLeaveHead(c: Config, s: State, a: Action, t: nat)
    requires Inv(c, s) && c.sc && t < |s.threads| && Dequeues(s.threads[t]) && a.tid != t
    ensures Step(c, s, a).head == s.head
  {
    if Step(c, s, a).head != s.head { OnlyCommitsMoveHead(c, s, a); }
  }

  // The call returns only in its last step, and there it does not commit.
  lemma CallDoesNotCommit(c: Config, s: State, call: seq<Action>, t: nat, k: nat)
    requires Inv(c, s) && ReturnsNothing(c, s, call, t) && k < |call| && call[k].tid == t
    ensures StateAfter(c, s, call, k + 1).head == StateAfter(c, s, call, k).head
  {
    ReachInv(c, s, call, k);
    NextState(c, s, call, k);
    if StateAfter(c, s, call, k + 1).head != StateAfter(c, s, call, k).head {
      OnlyCommitsMoveHead(c, StateAfter(c, s, call, k), call[k]);
    }
  }

  lemma {:induction false} HeadStays(c: Config, s: State, call: seq<Action>, t: nat, k: nat)
    requires Inv(c, s) && c.sc && ReturnsNothing(c, s, call, t) && k <= |call|
    ensures StateAfter(c, s, call, k).head == s.head
  {
    if k > 0 {
      HeadStays(c, s, call, t, k - 1);
      ReachInv(c, s, call, k - 1);
      NextState(c, s, call, k - 1);
      if call[k - 1].tid == t {
        CallDoesNotCommit(c, s, call, t, k - 1);
      } else {
        OthersLeaveHead(c, StateAfter(c, s, call, k - 1), call[k - 1], t);
      }
    }
  }

  lemma {:induction false} TailGrows(c: Config, s: State, call: seq<Action>, k: nat)
    requires Inv(c, s) && k <= |call|
    ensures s.tail <= StateAfter(c, s, call, k).tail && s.written <= StateAfter(c, s, call, k).written
  {
    if k > 0 {
      TailGrows(c, s, call, k - 1);
      ReachInv(c, s, call, k - 1);
      NextState(c, s, call, k - 1);
      InvStep(c, StateAfter(c, s, call, k - 1), call[k - 1]);
    }
  }

  lemma EndsDrained(c: Config, s: State, call: seq<Action>, t: nat)
    requires Inv(c, s) && ReturnsNothing(c, s, call, t)
    ensures StateAfter(c, s, call, |call|).head == StateAfter(c, s, call, |call|).tail
  {
    var before, after := StateAfter(c, s, call, |call| - 1), StateAfter(c, s, call, |call|);
    ReachInv(c, s, call, |call| - 1);
    ReachInv(c, s, call, |call|);
    NextState(c, s, call, |call| - 1);
    assert ResultInv(c, after.written, after.results[|before.results|]);
    DrainedNow(c, before, call[|call| - 1]);
  }

  /** A single consumer that returns nothing met an empty ring at some instant of its call
      exactly when the ring was empty as the call began, which is exactly when no producer
      inside a call had then advanced past the published tail. */
  lemma SingleConsumerExactly(c: Config, threads: nat, schedule: seq<Action>, call: seq<Action>, t: nat)
    requires c.size > 0 && c.width.Unbounded? && c.sc
    requires ReturnsNothing(c, Exec(c, Start(c, threads), schedule), call, t)
    ensures var s := Exec(c, Start(c, threads), schedule);
      && (EmptySometime(c, s, call) <==> Empty(s))
      && (Empty(s) <==> !InFlight(s))
  {
    var s := Exec(c, Start(c, threads), schedule);
    ExecInv(c, threads, schedule);
    LagsWhileInFlight(c, threads, schedule);
    forall k | 0 <= k <= |call| && Empty(StateAfter(c, s, call, k)) ensures Empty(s) {
      HeadStays(c, s, call, t, k);
      TailGrows(c, s, call, k);
    }
    assert StateAfter(c, s, call, 0) == s;
    EndsDrained(c, s, call, t);
    HeadStays(c, s, call, t, |call|);
    TailGrows(c, s, call, |call|);
  }

  // ---------- any mode ----------

  /** A dequeue of another thread succeeds and takes the last element written. */
  predicate TakesLast(c: Config, s: State, a: Action) {
    Commits(s, Step(c, s, a), a) && !Empty(s) && Empty(Step(c, s, a))
  }

  ghost predicate EmptiedDuring(c: Config, s: State, call: seq<Action>, t: nat) {
    exists k :: 0 <= k < |call| && call[k].tid != t && TakesLast(c, StateAfter(c, s, call, k), call[k])
  }

  // The first empty state is the first of all, or follows a successful dequeue.
  lemma {:induction false} BecomesEmpty(c: Config, s: State, call: seq<Action>, t: nat, k: nat)
    requires Inv(c, s) && ReturnsNothing(c, s, call, t) && k <= |call| && Empty(StateAfter(c, s, call, k))
    ensures Empty(s) || EmptiedDuring(c, s, call, t)
  {
    if k == 0 {
      assert StateAfter(c, s, call, 0) == s;
    } else {
      var before := StateAfter(c, s, call, k - 1);
      ReachInv(c, s, call, k - 1);
      NextState(c, s, call, k - 1);
      if Empty(before) {
        BecomesEmpty(c, s, call, t, k - 1);
      } else {
        InvStep(c, before, call[k - 1]);
        if call[k - 1].tid == t { CallDoesNotCommit(c, s, call, t, k - 1); }
        OnlyCommitsMoveHead(c, before, call[k - 1]);
        assert TakesLast(c, before, call[k - 1]);
      }
    }
  }

  /** In every mode a dequeue that returns nothing met an empty ring at some instant of its
      call exactly when the ring was empty as the call began, or a dequeue of another thread
      took the last element during it. */
  lemma NothingExactlyWhen(c: Config, threads: nat, schedule: seq<Action>, call: seq<Action>, t: nat)
    requires c.size > 0 && c.width.Unbounded?
    requires ReturnsNothing(c, Exec(c, Start(c, threads), schedule), call, t)
    ensures var s := Exec(c, Start(c, threads), schedule);
      EmptySometime(c, s, call) <==> Empty(s) || EmptiedDuring(c, s, call, t)
  {
    var s := Exec(c, Start(c, threads), schedule);
    ExecInv(c, threads, schedule);
    assert StateAfter(c, s, call, 0) == s;
    forall k | 0 <= k <= |call| && Empty(StateAfter(c, s, call, k)) ensures Empty(s) || EmptiedDuring(c, s, call, t) {
      BecomesEmpty(c, s, call, t, k);
    }
    forall k | 0 <= k < |call| && TakesLast(c, StateAfter(c, s, call, k), call[k]) ensures EmptySometime(c, s, call) {
      NextState(c, s, call, k);
      assert Empty(StateAfter(c, s, call, k + 1));
    }
  }

  lemma {:induction false} CallState(c: Config, run: seq<State>, schedule: seq<Action>, k: nat)
    requires Lag.IsRun(c, run, schedule) && |schedule| > 0 && k <= |schedule| - 1
    ensures StateAfter(c, run[1], schedule[1..], k) == run[k + 1]
  {
    if k > 0 {
      CallState(c, run, schedule, k - 1);
      NextState(c, run[1], schedule[1..], k - 1);
      assert Lag.Follows(c, run, schedule, k);
    }
  }

  // The states of a run after its first action, as those of a call.
  lemma RunIsCall(c: Config, run: seq<State>, schedule: seq<Action>)
    requires Lag.IsRun(c, run, schedule) && |schedule| == 4 && schedule[3].tid == 1 && Lag.AlwaysHolding(run)
    requires forall k :: 1 <= k < 4 ==> Lag.Dequeuing(run, k)
    requires run[4].results == run[3].results + [Nothing(1, 0, 0, true, false)]
    ensures ReturnsNothing(c, run[1], schedule[1..], 1) && !EmptySometime(c, run[1], schedule[1..])
  {
    var call := schedule[1..];
    forall k: nat | k <= 3 ensures StateAfter(c, run[1], call, k) == run[k + 1] {
      CallState(c, run, schedule, k);
    }
    assert Lag.Dequeuing(run, 1);
    forall k | 0 <= k < |call|
      ensures 1 < |StateAfter(c, run[1], call, k).threads| && Dequeues(StateAfter(c, run[1], call, k).threads[1])
    {
      assert StateAfter(c, run[1], call, k) == run[k + 1] && Lag.Dequeuing(run, k + 1);
    }
  }

  /** There is a reachable call that returns nothing and meets no empty ring, with one producer
      and one consumer. */
  lemma MayMeetNoEmpty() returns (c: Config, prefix: seq<Action>, call: seq<Action>)
    ensures c.size > 0 && c.width.Unbounded? && c.sp && c.sc
    ensures var s := Exec(c, Start(c, 2), prefix); ReturnsNothing(c, s, call, 1) && !EmptySometime(c, s, call)
  {
    var before, run, schedule := Lag.UnpublishedUnseen();
    c, prefix, call := Lag.SPSC, before + schedule[..1], schedule[1..];
    assert prefix[..|prefix| - 1] == before && prefix[|prefix| - 1] == schedule[0];
    assert Lag.Follows(c, run, schedule, 0);
    RunIsCall(c, run, schedule);
  }
}
