/** Two runs that show where the ring's counts say less than one might expect. */
module LockFreeRingLag {
  import opened RingWords
  import opened LockFreeRing

  predicate Follows(c: Config, run: seq<State>, schedule: seq<Action>, k: nat)
    requires k < |schedule| && k + 1 < |run|
  {
    run[k + 1] == Step(c, run[k], schedule[k])
  }

  /** `run` are the states of a schedule, one more than its actions. */
  ghost predicate IsRun(c: Config, run: seq<State>, schedule: seq<Action>) {
    && |run| == |schedule| + 1
    && forall k: nat {:trigger Follows(c, run, schedule, k)} :: k < |schedule| ==> Follows(c, run, schedule, k)
  }

  lemma {:induction false} RunIsExec(c: Config, run: seq<State>, schedule: seq<Action>, k: nat)
    requires IsRun(c, run, schedule) && k <= |schedule|
    ensures run[k] == Exec(c, run[0], schedule[..k])
  {
    if k > 0 {
      RunIsExec(c, run, schedule, k - 1);
      assert Follows(c, run, schedule, k - 1);
      assert schedule[..k][..k - 1] == schedule[..k - 1];
    }
  }

  function Do(tid: nat): Action { Action(tid, Continue) }

  // The step `k` of one run is the step `l` of another.
  lemma SameStep(c: Config, run: seq<State>, schedule: seq<Action>, k: nat, other: seq<State>, actions: seq<Action>,
        l: nat)
    requires k < |schedule| && k + 1 < |run| && l < |actions| && l + 1 < |other|
    requires Follows(c, run, schedule, k)
    requires other[l] == run[k] && other[l + 1] == run[k + 1] && actions[l] == schedule[k]
    ensures Follows(c, other, actions, l)
  {
  }

  /** Runs that meet are joined. */
  lemma Join(c: Config, run: seq<State>, schedule: seq<Action>, run': seq<State>, schedule': seq<Action>)
    requires IsRun(c, run, schedule) && IsRun(c, run', schedule') && run[|run| - 1] == run'[0]
    ensures IsRun(c, run + run'[1..], schedule + schedule')
    ensures (run + run'[1..])[|run + run'[1..]| - 1] == run'[|run'| - 1]
  {
    var n := |schedule|;
    var joined, actions := run + run'[1..], schedule + schedule';
    forall k: nat | k < |actions| ensures Follows(c, joined, actions, k) {
      if k < n {
        SameStep(c, run, schedule, k, joined, actions, k);
      } else {
        SameStep(c, run', schedule', k - n, joined, actions, k);
      }
    }
  }

  lemma StartIs(c: Config, threads: nat, s: State)
    requires c.size == 2 && c.width.Unbounded?
    requires s == State(0, 0, [Slot(0, -2), Slot(0, -1)], seq(threads, _ => Idle), [], [], [])
    ensures Start(c, threads) == s
  {
    forall i: nat | i < c.size ensures Start(c, threads).ring[i] == s.ring[i] {
      assert Start(c, threads).ring[i] == Slot(0, Norm(c.width, i - c.size));
    }
    assert Start(c, threads).ring == s.ring;
  }

  // ---------- a single producer: a short count without a full ring ----------

  const NIL: seq<Elem> := []
  const SP: Config := Config(2, true, false, Unbounded)

  ghost predicate NeverFull(run: seq<State>) {
    forall k :: 0 <= k < |run| ==> |run[k].written| < run[k].head + 2
  }

  const S0: State := State(0, 0, [Slot(0, -2), Slot(0, -1)], [Idle, Idle], [], [], [])
  const S1: State := State(0, 0, [Slot(0, -2), Slot(0, -1)], [SpPtr([5], 0, 0, 1), Idle], [], [], [])
  const S2: State := State(0, 1, [Slot(5, 0), Slot(0, -1)], [Idle, Idle], [5], [], [Enqueued(1, 1, false)])
  const S3: State :=
    State(0, 1, [Slot(5, 0), Slot(0, -1)], [SpPtr([6, 7], 1, 0, 1), Idle], [5], [], [Enqueued(1, 1, false)])
  const S4: State :=
    State(0, 1, [Slot(5, 0), Slot(0, -1)], [SpPtr([6, 7], 1, 0, 1), Copy(1, 0, 1, 1, [])], [5], [],
      [Enqueued(1, 1, false)])
  const S5: State :=
    State(1, 1, [Slot(5, 0), Slot(0, -1)], [SpPtr([6, 7], 1, 0, 1), Idle], [5], [5],
      [Enqueued(1, 1, false), Dequeued(0, [5])])
  const S6: State :=
    State(1, 2, [Slot(5, 0), Slot(6, 1)], [Idle, Idle], [5, 6], [5],
      [Enqueued(1, 1, false), Dequeued(0, [5]), Enqueued(2, 1, false)])

  // Thread 0 enqueues
  lemma SpPart1() returns (run: seq<State>, schedule: seq<Action>)
    ensures IsRun(SP, run, schedule) && run[0] == S0 && run[|run| - 1] == S1 && NeverFull(run)
  {
    var s1 := Step(SP, S0, Action(0, CallEnqueue([5])));
    assert s1 == S0.Goto(0, EnqTail([5]));
    var s2 := Step(SP, s1, Do(0));
    assert s2 == s1.Goto(0, SpHead([5], 0));
    var s3 := Step(SP, s2, Do(0));
    assert s3 == S1;
    run := [S0, s1, s2, s3];
    schedule := [Action(0, CallEnqueue([5])), Do(0), Do(0)];
  }

  // one element.
  lemma SpPart2() returns (run: seq<State>, schedule: seq<Action>)
    ensures IsRun(SP, run, schedule) && run[0] == S1 && run[|run| - 1] == S2 && NeverFull(run)
  {
    var s1 := Step(SP, S1, Do(0));
    assert s1 == State(0, 0, [Slot(5, -2), Slot(0, -1)], [SpIdx([5], 0, 0, 1), Idle], [], [], []);
    var s2 := Step(SP, s1, Do(0));
    assert s2 == State(0, 0, [Slot(5, 0), Slot(0, -1)], [SpPublish([5], 1, 1), Idle], [5], [], []);
    var s3 := Step(SP, s2, Do(0));
    assert s3 == S2;
    run := [S1, s1, s2, s3];
    schedule := [Do(0), Do(0), Do(0)];
  }

  // Thread 0 starts to enqueue two; only one fits.
  lemma SpPart3() returns (run: seq<State>, schedule: seq<Action>)
    ensures IsRun(SP, run, schedule) && run[0] == S2 && run[|run| - 1] == S3 && NeverFull(run)
  {
    var s1 := Step(SP, S2, Action(0, CallEnqueue([6, 7])));
    assert s1 == S2.Goto(0, EnqTail([6, 7]));
    var s2 := Step(SP, s1, Do(0));
    assert s2 == s1.Goto(0, SpHead([6, 7], 1));
    var s3 := Step(SP, s2, Do(0));
    assert s3 == S3;
    run := [S2, s1, s2, s3];
    schedule := [Action(0, CallEnqueue([6, 7])), Do(0), Do(0)];
  }

  // Thread 1 dequeues
  lemma SpPart4() returns (run: seq<State>, schedule: seq<Action>)
    ensures IsRun(SP, run, schedule) && run[0] == S3 && run[|run| - 1] == S4 && NeverFull(run)
  {
    var s1 := Step(SP, S3, Action(1, CallDequeue(1)));
    assert s1 == S3.Goto(1, DeqHead(1));
    var s2 := Step(SP, s1, Do(1));
    assert s2 == s1.Goto(1, DeqTail(1, 0));
    var s3 := Step(SP, s2, Do(1));
    assert s3 == S4;
    run := [S3, s1, s2, s3];
    schedule := [Action(1, CallDequeue(1)), Do(1), Do(1)];
  }

  // the first element.
  lemma SpPart5() returns (run: seq<State>, schedule: seq<Action>)
    ensures IsRun(SP, run, schedule) && run[0] == S4 && run[|run| - 1] == S5 && NeverFull(run)
  {
    assert NIL + [5] == [5];
    var s1 := Step(SP, S4, Do(1));
    assert s1 == S4.Goto(1, DeqCommit(1, 0, 1, [5]));
    var s2 := Step(SP, s1, Do(1));
    assert s2 == S5;
    run := [S4, s1, s2];
    schedule := [Do(1), Do(1)];
  }

  // Thread 0 stores one element and returns a short count.
  lemma SpPart6() returns (run: seq<State>, schedule: seq<Action>)
    ensures IsRun(SP, run, schedule) && run[0] == S5 && run[|run| - 1] == S6 && NeverFull(run)
  {
    var s1 := Step(SP, S5, Do(0));
    assert s1 == State(1, 1, [Slot(5, 0), Slot(6, -1)], [SpIdx([6, 7], 1, 0, 1), Idle], [5], [5],
      [Enqueued(1, 1, false), Dequeued(0, [5])]);
    var s2 := Step(SP, s1, Do(0));
    assert s2 == State(1, 1, [Slot(5, 0), Slot(6, 1)], [SpPublish([6, 7], 2, 1), Idle], [5, 6], [5],
      [Enqueued(1, 1, false), Dequeued(0, [5])]);
    var s3 := Step(SP, s2, Do(0));
    assert s3 == S6;
    run := [S5, s1, s2, s3];
    schedule := [Do(0), Do(0), Do(0)];
  }

  /** With a single producer a short count does not mean that the ring was full during the
      call: here a consumer makes room between the load of the head and the stores. */
  lemma ShortWithoutFull() returns (run: seq<State>, schedule: seq<Action>)
    ensures IsRun(SP, run, schedule) && run[0] == Start(SP, 2)
    ensures run[|run| - 1].results == [Enqueued(1, 1, false), Dequeued(0, [5]), Enqueued(2, 1, false)]
    ensures NeverFull(run)
  {
    StartIs(SP, 2, S0);
    run, schedule := SpPart1();
    var r2, a2 := SpPart2();
    Join(SP, run, schedule, r2, a2);
    run, schedule := run + r2[1..], schedule + a2;
    var r3, a3 := SpPart3();
    Join(SP, run, schedule, r3, a3);
    run, schedule := run + r3[1..], schedule + a3;
    var r4, a4 := SpPart4();
    Join(SP, run, schedule, r4, a4);
    run, schedule := run + r4[1..], schedule + a4;
    var r5, a5 := SpPart5();
    Join(SP, run, schedule, r5, a5);
    run, schedule := run + r5[1..], schedule + a5;
    var r6, a6 := SpPart6();
    Join(SP, run, schedule, r6, a6);
    run, schedule := run + r6[1..], schedule + a6;
  }

  // ---------- a single producer and a single consumer: nothing returned ----------

  const SPSC: Config := Config(2, true, true, Unbounded)

  ghost predicate AlwaysHolding(run: seq<State>) {
    forall k :: 0 <= k < |run| ==> run[k].head < |run[k].written|
  }

  const Q0: State := State(0, 0, [Slot(0, -2), Slot(0, -1)], [Idle, Idle], [], [], [])
  const Q1: State := State(0, 0, [Slot(0, -2), Slot(0, -1)], [SpPtr([5], 0, 0, 1), Idle], [], [], [])
  const Q2: State := State(0, 0, [Slot(5, 0), Slot(0, -1)], [SpPublish([5], 1, 1), Idle], [5], [], [])

  // Thread 0 starts to enqueue one element,
  lemma SpscPart1() returns (run: seq<State>, schedule: seq<Action>)
    ensures IsRun(SPSC, run, schedule) && run[0] == Q0 && run[|run| - 1] == Q1
  {
    var s1 := Step(SPSC, Q0, Action(0, CallEnqueue([5])));
    assert s1 == Q0.Goto(0, EnqTail([5]));
    var s2 := Step(SPSC, s1, Do(0));
    assert s2 == s1.Goto(0, SpHead([5], 0));
    var s3 := Step(SPSC, s2, Do(0));
    assert s3 == Q1;
    run := [Q0, s1, s2, s3];
    schedule := [Action(0, CallEnqueue([5])), Do(0), Do(0)];
  }

  // and stores it, pointer and index, without publishing it.
  lemma SpscPart2() returns (run: seq<State>, schedule: seq<Action>)
    ensures IsRun(SPSC, run, schedule) && run[0] == Q1 && run[|run| - 1] == Q2
  {
    var s1 := Step(SPSC, Q1, Do(0));
    assert s1 == State(0, 0, [Slot(5, -2), Slot(0, -1)], [SpIdx([5], 0, 0, 1), Idle], [], [], []);
    var s2 := Step(SPSC, s1, Do(0));
    assert s2 == Q2;
    run := [Q1, s1, s2];
    schedule := [Do(0), Do(0)];
  }

  // Thread 1 is in a dequeue from the second state to the one before the last.
  predicate Dequeuing(run: seq<State>, k: int)
    requires 0 <= k < |run|
  {
    1 < |run[k].threads| && Dequeues(run[k].threads[1]) && (k == 1 ==> run[k].threads[1] == DeqHead(1))
  }

  // Thread 1 loads head and tail, loads the tail again, and returns nothing.
  lemma SpscPart3() returns (run: seq<State>, schedule: seq<Action>)
    ensures |run| == 5 && run[3].results == [] && schedule == [Action(1, CallDequeue(1)), Do(1), Do(1), Do(1)]
    ensures forall k :: 1 <= k < 4 ==> Dequeuing(run, k)
    ensures IsRun(SPSC, run, schedule) && run[0] == Q2 && AlwaysHolding(run)
    ensures run[|run| - 1].results == [Nothing(1, 0, 0, true, false)]
  {
    var s1 := Step(SPSC, Q2, Action(1, CallDequeue(1)));
    assert s1 == Q2.Goto(1, DeqHead(1));
    var s2 := Step(SPSC, s1, Do(1));
    assert s2 == s1.Goto(1, DeqTail(1, 0));
    var s3 := Step(SPSC, s2, Do(1));
    assert s3 == s2.Goto(1, FindSp(1, 0));
    var s4 := Step(SPSC, s3, Do(1));
    assert s4 == s3.Return(1, Nothing(1, 0, 0, true, false));
    run := [Q2, s1, s2, s3, s4];
    schedule := [Action(1, CallDequeue(1)), Do(1), Do(1), Do(1)];
  }

  /** With one producer and one consumer a dequeue can return nothing although the ring holds an
      element from before the call to after it: a single producer's elements are not looked for
      beyond the published tail.  No compare-and-swap is involved. */
  lemma UnpublishedUnseen() returns (prefix: seq<Action>, run: seq<State>, schedule: seq<Action>)
    ensures run != [] && run[0] == Exec(SPSC, Start(SPSC, 2), prefix) && |run[0].threads| == 2
      && run[0].threads[1] == Idle
    ensures IsRun(SPSC, run, schedule) && AlwaysHolding(run)
    ensures run[|run| - 1].results == run[0].results + [Nothing(1, 0, 0, true, false)]
    ensures |run| == 5 && run[3].results == run[0].results
      && schedule == [Action(1, CallDequeue(1)), Do(1), Do(1), Do(1)]
    ensures forall k :: 1 <= k < 4 ==> Dequeuing(run, k)
  {
    StartIs(SPSC, 2, Q0);
    run, schedule := SpscPart1();
    var r2, a2 := SpscPart2();
    Join(SPSC, run, schedule, r2, a2);
    run, prefix := run + r2[1..], schedule + a2;
    RunIsExec(SPSC, run, prefix, |prefix|);
    assert prefix[..|prefix|] == prefix;
    run, schedule := SpscPart3();
  }

  // ---------- several producers: nothing returned from a ring that is never empty ----------

  const MP: Config := Config(2, false, false, Unbounded)

  ghost predicate NeverEmpty(run: seq<State>) {
    forall k :: 0 < k < |run| ==> run[k].head < |run[k].written|
  }

  const M0: State := State(0, 0, [Slot(0, -2), Slot(0, -1)], [Idle, Idle, Idle], [], [], [])
  const M1: State := State(0, 0, [Slot(0, -2), Slot(0, -1)], [MpPtr([5], 0, 0), Idle, Idle], [], [], [])
  const M2: State :=
    State(0, 0, [Slot(5, 0), Slot(0, -1)], [UpdateRead(1, AfterEnqueue(1, 1, false)), Idle, Idle], [5], [], [])
  const M3: State := State(0, 1, [Slot(5, 0), Slot(0, -1)], [Idle, Idle, Idle], [5], [], [Enqueued(1, 1, false)])
  const M4: State :=
    State(0, 1, [Slot(5, 0), Slot(0, -1)], [MpPtr([6, 7, 8], 0, 1), Idle, Idle], [5], [], [Enqueued(1, 1, false)])
  const M5: State :=
    State(0, 1, [Slot(5, 0), Slot(6, 1)], [MpHead([6, 7, 8], 1, 2), Idle, Idle], [5, 6], [], [Enqueued(1, 1, false)])
  const M6: State :=
    State(0, 1, [Slot(5, 0), Slot(6, 1)], [MpHead([6, 7, 8], 1, 2), DeqTail(1, 0), Idle], [5, 6], [],
      [Enqueued(1, 1, false)])
  const M7: State :=
    State(0, 1, [Slot(5, 0), Slot(6, 1)], [MpHead([6, 7, 8], 1, 2), DeqCommit(1, 0, 1, [5]), Idle], [5, 6], [],
      [Enqueued(1, 1, false)])
  const M8: State :=
    State(0, 1, [Slot(5, 0), Slot(6, 1)], [MpHead([6, 7, 8], 1, 2), DeqCommit(1, 0, 1, [5]), DeqCommit(1, 0, 1, [5])],
      [5, 6], [], [Enqueued(1, 1, false)])
  const M9: State :=
    State(1, 1, [Slot(5, 0), Slot(6, 1)], [MpHead([6, 7, 8], 1, 2), DeqCommit(1, 0, 1, [5]), Idle], [5, 6], [5],
      [Enqueued(1, 1, false), Dequeued(0, [5])])
  const M10: State :=
    State(1, 1, [Slot(5, 0), Slot(6, 1)], [MpHead([6, 7, 8], 1, 2), DeqCommit(1, 0, 1, [5]), Scan(1, 1, 2)], [5, 6],
      [5], [Enqueued(1, 1, false), Dequeued(0, [5])])
  const M11: State :=
    State(1, 2, [Slot(5, 0), Slot(6, 1)], [MpHead([6, 7, 8], 1, 2), DeqCommit(1, 0, 1, [5]), DeqCommit(1, 1, 2, [6])],
      [5, 6], [5], [Enqueued(1, 1, false), Dequeued(0, [5])])
  const M12: State :=
    State(1, 2, [Slot(5, 0), Slot(6, 1)], [MpIdx([6, 7, 8], 1, 2, 5), DeqCommit(1, 0, 1, [5]), DeqCommit(1, 1, 2, [6])],
      [5, 6], [5], [Enqueued(1, 1, false), Dequeued(0, [5])])
  const M13: State :=
    State(2, 2, [Slot(7, 2), Slot(6, 1)], [MpHead([6, 7, 8], 2, 3), DeqCommit(1, 0, 1, [5]), Idle], [5, 6, 7], [5, 6],
      [Enqueued(1, 1, false), Dequeued(0, [5]), Dequeued(1, [6])])
  const M14: State :=
    State(2, 2, [Slot(7, 2), Slot(6, 1)], [MpIdx([6, 7, 8], 2, 3, 6), DeqCommit(1, 0, 1, [5]), Idle], [5, 6, 7], [5, 6],
      [Enqueued(1, 1, false), Dequeued(0, [5]), Dequeued(1, [6])])
  const M15: State :=
    State(2, 2, [Slot(7, 2), Slot(8, 3)], [UpdateRead(4, AfterEnqueue(3, 3, false)), DeqCommit(1, 0, 1, [5]), Idle],
      [5, 6, 7, 8], [5, 6], [Enqueued(1, 1, false), Dequeued(0, [5]), Dequeued(1, [6])])
  const M16: State :=
    State(2, 2, [Slot(7, 2), Slot(8, 3)], [UpdateRead(4, AfterEnqueue(3, 3, false)), Idle, Idle], [5, 6, 7, 8], [5, 6],
      [Enqueued(1, 1, false), Dequeued(0, [5]), Dequeued(1, [6]), Nothing(1, 2, 1, true, false)])

  // Thread 0 reserves a slot
  lemma MpPart1() returns (run: seq<State>, schedule: seq<Action>)
    ensures IsRun(MP, run, schedule) && run[0] == M0 && run[|run| - 1] == M1
  {
    var s1 := Step(MP, M0, Action(0, CallEnqueue([5])));
    assert s1 == M0.Goto(0, EnqTail([5]));
    var s2 := Step(MP, s1, Do(0));
    assert s2 == s1.Goto(0, MpHead([5], 0, 0));
    var s3 := Step(MP, s2, Do(0));
    assert s3 == M1;
    run := [M0, s1, s2, s3];
    schedule := [Action(0, CallEnqueue([5])), Do(0), Do(0)];
  }

  // and enqueues one element.
  lemma MpPart2() returns (run: seq<State>, schedule: seq<Action>)
    ensures IsRun(MP, run, schedule) && run[0] == M1 && run[|run| - 1] == M2
  {
    var s1 := Step(MP, M1, Do(0));
    assert s1 == M1.Goto(0, MpIdx([5], 0, 0, 0));
    var s2 := Step(MP, s1, Do(0));
    assert s2 == s1.Goto(0, MpCas([5], 0, 0, Slot(0, -2)));
    var s3 := Step(MP, s2, Do(0));
    assert s3 == M2;
    run := [M1, s1, s2, s3];
    schedule := [Do(0), Do(0), Do(0)];
  }

  // It publishes the element.
  lemma MpPart3() returns (run: seq<State>, schedule: seq<Action>)
    ensures IsRun(MP, run, schedule) && run[0] == M2 && run[|run| - 1] == M3
  {
    var s1 := Step(MP, M2, Do(0));
    assert s1 == M2.Goto(0, UpdateCas(1, 0, AfterEnqueue(1, 1, false)));
    var s2 := Step(MP, s1, Do(0));
    assert s2 == M3;
    run := [M2, s1, s2];
    schedule := [Do(0), Do(0)];
  }

  // Thread 0 starts a batch
  lemma MpPart4() returns (run: seq<State>, schedule: seq<Action>)
    ensures IsRun(MP, run, schedule) && run[0] == M3 && run[|run| - 1] == M4
  {
    var s1 := Step(MP, M3, Action(0, CallEnqueue([6, 7, 8])));
    assert s1 == M3.Goto(0, EnqTail([6, 7, 8]));
    var s2 := Step(MP, s1, Do(0));
    assert s2 == s1.Goto(0, MpHead([6, 7, 8], 0, 1));
    var s3 := Step(MP, s2, Do(0));
    assert s3 == M4;
    run := [M3, s1, s2, s3];
    schedule := [Action(0, CallEnqueue([6, 7, 8])), Do(0), Do(0)];
  }

  // and writes, but does not publish, its first element.
  lemma MpPart5() returns (run: seq<State>, schedule: seq<Action>)
    ensures IsRun(MP, run, schedule) && run[0] == M4 && run[|run| - 1] == M5
  {
    var s1 := Step(MP, M4, Do(0));
    assert s1 == M4.Goto(0, MpIdx([6, 7, 8], 0, 1, 0));
    var s2 := Step(MP, s1, Do(0));
    assert s2 == s1.Goto(0, MpCas([6, 7, 8], 0, 1, Slot(0, -1)));
    var s3 := Step(MP, s2, Do(0));
    assert s3 == M5;
    run := [M4, s1, s2, s3];
    schedule := [Do(0), Do(0), Do(0)];
  }

  // Thread 1 starts to dequeue
  lemma MpPart6() returns (run: seq<State>, schedule: seq<Action>)
    ensures IsRun(MP, run, schedule) && run[0] == M5 && run[|run| - 1] == M6 && NeverEmpty(run)
  {
    var s1 := Step(MP, M5, Action(1, CallDequeue(1)));
    assert s1 == M5.Goto(1, DeqHead(1));
    var s2 := Step(MP, s1, Do(1));
    assert s2 == M6;
    run := [M5, s1, s2];
    schedule := [Action(1, CallDequeue(1)), Do(1)];
  }

  // and copies the published element.
  lemma MpPart7() returns (run: seq<State>, schedule: seq<Action>)
    ensures IsRun(MP, run, schedule) && run[0] == M6 && run[|run| - 1] == M7 && NeverEmpty(run)
  {
    var s1 := Step(MP, M6, Do(1));
    assert s1 == M6.Goto(1, Copy(1, 0, 1, 1, []));
    assert NIL + [5] == [5];
    var s2 := Step(MP, s1, Do(1));
    assert s2 == M7;
    run := [M6, s1, s2];
    schedule := [Do(1), Do(1)];
  }

  // Thread 2 copies it too
  lemma MpPart8() returns (run: seq<State>, schedule: seq<Action>)
    ensures IsRun(MP, run, schedule) && run[0] == M7 && run[|run| - 1] == M8 && NeverEmpty(run)
  {
    var s1 := Step(MP, M7, Action(2, CallDequeue(1)));
    assert s1 == M7.Goto(2, DeqHead(1));
    var s2 := Step(MP, s1, Do(2));
    assert s2 == s1.Goto(2, DeqTail(1, 0));
    var s3 := Step(MP, s2, Do(2));
    assert s3 == s2.Goto(2, Copy(1, 0, 1, 1, []));
    assert NIL + [5] == [5];
    var s4 := Step(MP, s3, Do(2));
    assert s4 == M8;
    run := [M7, s1, s2, s3, s4];
    schedule := [Action(2, CallDequeue(1)), Do(2), Do(2), Do(2)];
  }

  // and takes it first.
  lemma MpPart9() returns (run: seq<State>, schedule: seq<Action>)
    ensures IsRun(MP, run, schedule) && run[0] == M8 && run[|run| - 1] == M9 && NeverEmpty(run)
  {
    var s1 := Step(MP, M8, Do(2));
    assert s1 == M9;
    run := [M8, s1];
    schedule := [Do(2)];
  }

  // Thread 2 dequeues again, and finds the unpublished element.
  lemma MpPart10() returns (run: seq<State>, schedule: seq<Action>)
    ensures IsRun(MP, run, schedule) && run[0] == M9 && run[|run| - 1] == M10 && NeverEmpty(run)
  {
    var s1 := Step(MP, M9, Action(2, CallDequeue(1)));
    assert s1 == M9.Goto(2, DeqHead(1));
    var s2 := Step(MP, s1, Do(2));
    assert s2 == s1.Goto(2, DeqTail(1, 1));
    var s3 := Step(MP, s2, Do(2));
    assert s3 == s2.Goto(2, Scan(1, 1, 1));
    var s4 := Step(MP, s3, Do(2));
    assert s4 == M10;
    run := [M9, s1, s2, s3, s4];
    schedule := [Action(2, CallDequeue(1)), Do(2), Do(2), Do(2)];
  }

  // It publishes and copies it.
  lemma MpPart11() returns (run: seq<State>, schedule: seq<Action>)
    ensures IsRun(MP, run, schedule) && run[0] == M10 && run[|run| - 1] == M11 && NeverEmpty(run)
  {
    var s1 := Step(MP, M10, Do(2));
    assert s1 == M10.Goto(2, UpdateRead(2, AfterScan(1, 1, 2, false)));
    var s2 := Step(MP, s1, Do(2));
    assert s2 == s1.Goto(2, UpdateCas(2, 1, AfterScan(1, 1, 2, false)));
    var s3 := Step(MP, s2, Do(2));
    assert s3 == State(1, 2, [Slot(5, 0), Slot(6, 1)],
      [MpHead([6, 7, 8], 1, 2), DeqCommit(1, 0, 1, [5]), Copy(1, 1, 2, 1, [])], [5, 6], [5],
        [Enqueued(1, 1, false), Dequeued(0, [5])]);
    assert NIL + [6] == [6];
    var s4 := Step(MP, s3, Do(2));
    assert s4 == M11;
    run := [M10, s1, s2, s3, s4];
    schedule := [Do(2), Do(2), Do(2), Do(2)];
  }

  // Thread 0 reserves the slot for the second element of its batch,
  lemma MpPart12() returns (run: seq<State>, schedule: seq<Action>)
    ensures IsRun(MP, run, schedule) && run[0] == M11 && run[|run| - 1] == M12 && NeverEmpty(run)
  {
    var s1 := Step(MP, M11, Do(0));
    assert s1 == M11.Goto(0, MpPtr([6, 7, 8], 1, 2));
    var s2 := Step(MP, s1, Do(0));
    assert s2 == M12;
    run := [M11, s1, s2];
    schedule := [Do(0), Do(0)];
  }

  // writes it, and thread 2 completes.
  lemma MpPart13() returns (run: seq<State>, schedule: seq<Action>)
    ensures IsRun(MP, run, schedule) && run[0] == M12 && run[|run| - 1] == M13 && NeverEmpty(run)
  {
    var s1 := Step(MP, M12, Do(0));
    assert s1 == M12.Goto(0, MpCas([6, 7, 8], 1, 2, Slot(5, 0)));
    var s2 := Step(MP, s1, Do(0));
    assert s2 == State(1, 2, [Slot(7, 2), Slot(6, 1)],
      [MpHead([6, 7, 8], 2, 3), DeqCommit(1, 0, 1, [5]), DeqCommit(1, 1, 2, [6])], [5, 6, 7], [5],
        [Enqueued(1, 1, false), Dequeued(0, [5])]);
    var s3 := Step(MP, s2, Do(2));
    assert s3 == M13;
    run := [M12, s1, s2, s3];
    schedule := [Do(0), Do(0), Do(2)];
  }

  // Thread 0 reserves the slot for the third element, the one thread 1 will look at,
  lemma MpPart14() returns (run: seq<State>, schedule: seq<Action>)
    ensures IsRun(MP, run, schedule) && run[0] == M13 && run[|run| - 1] == M14 && NeverEmpty(run)
  {
    var s1 := Step(MP, M13, Do(0));
    assert s1 == M13.Goto(0, MpPtr([6, 7, 8], 2, 3));
    var s2 := Step(MP, s1, Do(0));
    assert s2 == M14;
    run := [M13, s1, s2];
    schedule := [Do(0), Do(0)];
  }

  // and writes it.
  lemma MpPart15() returns (run: seq<State>, schedule: seq<Action>)
    ensures IsRun(MP, run, schedule) && run[0] == M14 && run[|run| - 1] == M15 && NeverEmpty(run)
  {
    var s1 := Step(MP, M14, Do(0));
    assert s1 == M14.Goto(0, MpCas([6, 7, 8], 2, 3, Slot(6, 1)));
    var s2 := Step(MP, s1, Do(0));
    assert s2 == M15;
    run := [M14, s1, s2];
    schedule := [Do(0), Do(0)];
  }

  // Thread 1 resumes with its old tail and returns nothing.
  lemma MpPart16() returns (run: seq<State>, schedule: seq<Action>)
    ensures IsRun(MP, run, schedule) && run[0] == M15 && run[|run| - 1] == M16 && NeverEmpty(run)
  {
    var s1 := Step(MP, M15, Do(1));
    assert s1 == M15.Goto(1, Scan(1, 2, 1));
    var s2 := Step(MP, s1, Do(1));
    assert s2 == s1.Goto(1, UpdateRead(1, AfterScan(1, 2, 1, false)));
    var s3 := Step(MP, s2, Do(1));
    assert s3 == M16;
    run := [M15, s1, s2, s3];
    schedule := [Do(1), Do(1), Do(1)];
  }

  /** With several producers a dequeue can return nothing although the ring holds elements
      during the whole call: its retry kept a tail older than the head it reloaded, and the
      scan from there stopped at a slot already reused.  The states from the first access of
      the call to its return are those of `run`. */
  lemma NothingWithoutEmpty() returns (prefix: seq<Action>, run: seq<State>, schedule: seq<Action>)
    ensures run != [] && run[0] == Exec(MP, Start(MP, 3), prefix) && |run[0].threads| == 3 && run[0].threads[1] == Idle
    ensures IsRun(MP, run, schedule) && NeverEmpty(run)
    ensures run[|run| - 1].results == run[0].results
      + [Dequeued(0, [5]), Dequeued(1, [6]), Nothing(1, 2, 1, true, false)]
  {
    StartIs(MP, 3, M0);
    run, schedule := Before();
    prefix := schedule;
    RunIsExec(MP, run, prefix, |prefix|);
    assert prefix[..|prefix|] == prefix;
    run, schedule := CallRun();
  }

  // The states before the call.
  lemma Before() returns (run: seq<State>, schedule: seq<Action>)
    ensures IsRun(MP, run, schedule) && run[0] == M0 && run[|run| - 1] == M5
  {
    run, schedule := MpPart1();
    var r2, a2 := MpPart2();
    Join(MP, run, schedule, r2, a2);
    run, schedule := run + r2[1..], schedule + a2;
    var r3, a3 := MpPart3();
    Join(MP, run, schedule, r3, a3);
    run, schedule := run + r3[1..], schedule + a3;
    var r4, a4 := MpPart4();
    Join(MP, run, schedule, r4, a4);
    run, schedule := run + r4[1..], schedule + a4;
    var r5, a5 := MpPart5();
    Join(MP, run, schedule, r5, a5);
    run, schedule := run + r5[1..], schedule + a5;
  }

  // The states during the call of thread 1.
  lemma CallRun() returns (run: seq<State>, schedule: seq<Action>)
    ensures IsRun(MP, run, schedule) && run[0] == M5 && run[|run| - 1] == M16 && NeverEmpty(run)
  {
    run, schedule := MpPart6();
    var r7, a7 := MpPart7();
    Join(MP, run, schedule, r7, a7);
    run, schedule := run + r7[1..], schedule + a7;
    var r8, a8 := MpPart8();
    Join(MP, run, schedule, r8, a8);
    run, schedule := run + r8[1..], schedule + a8;
    var r9, a9 := MpPart9();
    Join(MP, run, schedule, r9, a9);
    run, schedule := run + r9[1..], schedule + a9;
    var r10, a10 := MpPart10();
    Join(MP, run, schedule, r10, a10);
    run, schedule := run + r10[1..], schedule + a10;
    var r11, a11 := MpPart11();
    Join(MP, run, schedule, r11, a11);
    run, schedule := run + r11[1..], schedule + a11;
    var r12, a12 := MpPart12();
    Join(MP, run, schedule, r12, a12);
    run, schedule := run + r12[1..], schedule + a12;
    var r13, a13 := MpPart13();
    Join(MP, run, schedule, r13, a13);
    run, schedule := run + r13[1..], schedule + a13;
    var r14, a14 := MpPart14();
    Join(MP, run, schedule, r14, a14);
    run, schedule := run + r14[1..], schedule + a14;
    var r15, a15 := MpPart15();
    Join(MP, run, schedule, r15, a15);
    run, schedule := run + r15[1..], schedule + a15;
    var r16, a16 := MpPart16();
    Join(MP, run, schedule, r16, a16);
    run, schedule := run + r16[1..], schedule + a16;
  }
}
