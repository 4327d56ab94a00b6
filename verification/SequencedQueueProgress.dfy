/** No call on the queue waits for another thread: from any reachable state, in the middle of any call
    and wherever the other threads have stopped, a thread that runs alone returns. */
module SequencedQueueProgress {
  import opened RingWords
  import opened SequencedQueue
  import opened SequencedQueueSafety

  // A call that holds an outdated index may have to start over once.
  function Outdated(pos: int, index: int): nat {
    if pos == index then 0 else 10
  }

  /** How far a thread that runs alone is from returning. */
  function RankOf(s: State, pc: Pc): nat {
    match pc
    case Idle => 0
    case EnqIndex(_, _) => 5
    case EnqSequence(_, _, pos) => 4 + Outdated(pos, s.enqueueIndex)
    case EnqClaim(_, _, pos) => 3 + Outdated(pos, s.enqueueIndex)
    case EnqData(_, _) => 2
    case EnqPublish(_) => 1
    case DeqIndex(_) => 5
    case DeqSequence(_, pos) => 4 + Outdated(pos, s.dequeueIndex)
    case DeqClaim(_, pos) => 3 + Outdated(pos, s.dequeueIndex)
    case DeqData(_) => 2
    case DeqRelease(_, _) => 1
  }

  // A step of thread `t` returns a result or goes down.
  predicate Descends(s: State, s': State, t: nat) {
    && t < |s.threads| && t < |s'.threads|
    && (if s'.threads[t].Idle? then |s'.results| == |s.results| + 1
        else s'.results == s.results && RankOf(s', s'.threads[t]) < RankOf(s, s.threads[t]))
  }

  lemma EnqDescends(c: Config, s: State, t: nat)
    requires Inv(c, s) && t < |s.threads| && Produces(s.threads[t])
    ensures Descends(s, EnqStep(c, s, t, false), t)
  {
    FrontierSequence(c, s);
  }

  lemma DeqDescends(c: Config, s: State, t: nat)
    requires Inv(c, s) && t < |s.threads| && Consumes(s.threads[t])
    ensures Descends(s, DeqStep(c, s, t, false), t)
  {
    if s.dequeueIndex < s.enqueueIndex { assert PositionInv(c, s, s.dequeueIndex); } else { FrontierSequence(c, s); }
  }

  lemma StepDescends(c: Config, s: State, t: nat)
    requires Inv(c, s) && t < |s.threads| && !s.threads[t].Idle?
    ensures var s' := Step(c, s, Action(t, Continue)); Inv(c, s') && Descends(s, s', t)
  {
    StepInv(c, s, Action(t, Continue));
    if Produces(s.threads[t]) { EnqDescends(c, s, t); } else { DeqDescends(c, s, t); }
  }

  // The state after `n` steps of thread `t` alone, no compare-exchange of which fails spuriously.
  function Alone(c: Config, s: State, t: nat, n: nat): State
    decreases n
  {
    if n == 0 then s else Alone(c, Step(c, s, Action(t, Continue)), t, n - 1)
  }

  /** Thread `t`, alone from state `s`, has returned one result after `n` steps and is idle again. */
  predicate ReturnsAt(c: Config, s: State, t: nat, n: nat) {
    var end := Alone(c, s, t, n);
    t < |end.threads| && end.threads[t].Idle? && |end.results| == |s.results| + 1
  }

  lemma ReturnsEarlier(c: Config, s: State, s': State, t: nat, n: nat)
    requires s' == Step(c, s, Action(t, Continue)) && s'.results == s.results && ReturnsAt(c, s', t, n)
    ensures ReturnsAt(c, s, t, n + 1)
  {
  }

  lemma ReturnsNext(c: Config, s: State, s': State, t: nat)
    requires s' == Step(c, s, Action(t, Continue))
    requires t < |s'.threads| && s'.threads[t].Idle? && |s'.results| == |s.results| + 1
    ensures ReturnsAt(c, s, t, 1)
  {
    assert Alone(c, s', t, 0) == s';
  }

  lemma {:induction false} RunsDown(c: Config, s: State, t: nat, rank: nat) returns (n: nat)
    requires Inv(c, s) && t < |s.threads| && !s.threads[t].Idle? && rank == RankOf(s, s.threads[t])
    ensures ReturnsAt(c, s, t, n)
    decreases rank
  {
    var s' := Step(c, s, Action(t, Continue));
    StepDescends(c, s, t);
    if s'.threads[t].Idle? {
      ReturnsNext(c, s, s', t);
      n := 1;
    } else {
      n := RunsDown(c, s', t, RankOf(s', s'.threads[t]));
      ReturnsEarlier(c, s, s', t, n);
      n := n + 1;
    }
  }

  ghost predicate ReturnsAlone(c: Config, s: State, t: nat) {
    exists n :: ReturnsAt(c, s, t, n)
  }

  /** In every reachable state, wherever the other threads have stopped, a thread in the middle of an
      enqueue or a dequeue returns if it runs alone. */
  lemma NoneWaits(c: Config, threads: nat, schedule: seq<Action>, t: nat)
    requires c.count >= 2 && c.width.Unbounded?
    requires var s := Exec(c, Start(c, threads), schedule); t < |s.threads| && !s.threads[t].Idle?
    ensures ReturnsAlone(c, Exec(c, Start(c, threads), schedule), t)
  {
    var s := Exec(c, Start(c, threads), schedule);
    ExecInv(c, threads, schedule);
    var n := RunsDown(c, s, t, RankOf(s, s.threads[t]));
  }
}
