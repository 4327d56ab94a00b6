/** No call on the ring waits for another thread: from any reachable state, in the middle of any call
    and wherever the other threads have stopped, a thread that runs alone returns. */
module LockFreeRingProgress {
  import opened RingWords
  import opened LockFreeRing
  import opened LockFreeRingSafety

  /** What a thread that runs alone uses up, the most significant part first: the phase of its call,
      the elements left in it, the indices between its own and the frontier, and accesses. */
  datatype Rank = Rank(phase: nat, left: nat, ahead: nat, access: nat)

  predicate Below(r: Rank, q: Rank) {
    || r.phase < q.phase
    || (r.phase == q.phase && (r.left < q.left
        || (r.left == q.left && (r.ahead < q.ahead || (r.ahead == q.ahead && r.access < q.access)))))
  }

  function Nat(x: int): nat { if x < 0 then 0 else x }

  // A dequeue that compares against an outdated head has to start over once.
  function Outdated(s: State, head: int): nat {
    if head == s.head then 0 else 10
  }

  // The storing part of a multi-producer enqueue.
  function StoringRank(s: State, elems: seq<Elem>, actual: nat, tail: int, access: nat): Rank {
    Rank(7, Nat(|elems| - actual), Nat(|s.written| - tail), access)
  }

  function PublishingRank(s: State, after: After, access: nat): Rank {
    Rank(5 + if after.AfterScan? then Outdated(s, after.head) else 0, 0, 0, access)
  }

  function RankOf(c: Config, s: State, pc: Pc): Rank
    requires |s.ring| == c.size > 0
  {
    match pc
    case Idle => Rank(0, 0, 0, 0)
    case Failed => Rank(0, 0, 0, 0)
    case EnqTail(_) => Rank(9, 0, 0, 0)
    case SpHead(_, _) => Rank(8, 0, 0, 0)
    case SpPtr(_, _, i, actual) => Rank(7, Nat(actual - i), 0, 1)
    case SpIdx(_, _, i, actual) => Rank(7, Nat(actual - i), 0, 0)
    case SpPublish(_, _, _) => Rank(1, 0, 0, 0)
    case MpHead(elems, actual, tail) => StoringRank(s, elems, actual, tail, 5)
    case MpPtr(elems, actual, tail) => StoringRank(s, elems, actual, tail, 4)
    case MpIdx(elems, actual, tail, _) => StoringRank(s, elems, actual, tail, 3)
    case MpReload(elems, actual, tail) => StoringRank(s, elems, actual, tail, 1)
    case MpCas(elems, actual, tail, seen) =>
      StoringRank(s, elems, actual, tail, if At(c, s.ring, tail) == seen then 1 else 2)
    case UpdateRead(_, after) => PublishingRank(s, after, 2)
    case UpdateCas(_, was, after) => PublishingRank(s, after, if s.tail == was then 0 else 1)
    case DeqHead(_) => Rank(8, 0, 0, 0)
    case DeqTail(_, head) => Rank(7 + Outdated(s, head), 0, 0, 0)
    case Scan(_, head, tail) => Rank(6 + Outdated(s, head), 0, Nat(|s.written| - tail), 0)
    case FindSp(_, head) => Rank(4 + Outdated(s, head), 0, 0, 0)
    case Copy(_, head, _, actual, buf) => Rank(3 + Outdated(s, head), Nat(actual - |buf|), 0, 0)
    case DeqCommit(_, head, _, _) => Rank(2 + Outdated(s, head), 0, 0, 0)
  }

  // A step of thread `t` returns a result or goes down.
  ghost predicate Descends(c: Config, s: State, s': State, t: nat) {
    && t < |s.threads| && t < |s'.threads| && |s.ring| == |s'.ring| == c.size > 0
    && (if s'.threads[t].Idle? then |s'.results| == |s.results| + 1
        else s'.results == s.results && Below(RankOf(c, s', s'.threads[t]), RankOf(c, s, s.threads[t])))
  }

  lemma SpDescends(c: Config, s: State, t: nat)
    requires Ready(c, s, t)
    requires s.threads[t].SpHead? || s.threads[t].SpPtr? || s.threads[t].SpIdx? || s.threads[t].SpPublish?
    ensures Descends(c, s, SpStep(c, s, t), t)
  {
    if s.threads[t].SpPtr? { SlotIdx(c, s, s.threads[t].tail); }
  }

  lemma DecideDescends(c: Config, s: State, elems: seq<Elem>, actual: nat, tail: int, ptr: Elem)
    requires SharedInv(c, s) && tail <= |s.written| && actual < |elems|
    ensures var pc := MpDecide(c, elems, actual, tail, Slot(ptr, At(c, s.ring, tail).idx));
      Below(RankOf(c, s, pc), StoringRank(s, elems, actual, tail, 3))
    ensures ptr == At(c, s.ring, tail).ptr ==>
      var pc := MpDecide(c, elems, actual, tail, At(c, s.ring, tail));
      Below(RankOf(c, s, pc), StoringRank(s, elems, actual, tail, 2))
  {
    SlotIdx(c, s, tail);
  }

  lemma MpReadDescends(c: Config, s: State, t: nat)
    requires Ready(c, s, t)
    requires s.threads[t].MpHead? || s.threads[t].MpPtr? || s.threads[t].MpIdx? || s.threads[t].MpReload?
    ensures Descends(c, s, MpStep(c, s, t), t)
  {
    var pc := s.threads[t];
    if pc.MpIdx? { DecideDescends(c, s, pc.elems, pc.actual, pc.tail, pc.ptr); }
  }

  lemma MpCasDescends(c: Config, s: State, t: nat)
    requires Ready(c, s, t) && s.threads[t].MpCas?
    ensures Descends(c, s, MpStep(c, s, t), t)
  {
    var pc := s.threads[t];
    if At(c, s.ring, pc.tail) != pc.seen {
      DecideDescends(c, s, pc.elems, pc.actual, pc.tail, At(c, s.ring, pc.tail).ptr);
    }
  }

  lemma UpdateDescends(c: Config, s: State, t: nat)
    requires Ready(c, s, t) && (s.threads[t].UpdateRead? || s.threads[t].UpdateCas?)
    ensures Descends(c, s, UpdateStep(c, s, t), t)
  {
  }

  predicate Loads(pc: Pc) {
    pc.DeqHead? || pc.DeqTail? || pc.FindSp? || pc.Scan?
  }

  lemma LoadDescends(c: Config, s: State, t: nat)
    requires Ready(c, s, t) && Loads(s.threads[t])
    ensures Descends(c, s, DeqStep(c, s, t), t)
  {
    if s.threads[t].Scan? { SlotIdx(c, s, s.threads[t].tail); }
  }

  lemma TakeDescends(c: Config, s: State, t: nat)
    requires Ready(c, s, t) && (s.threads[t].Copy? || s.threads[t].DeqCommit?)
    ensures Descends(c, s, DeqStep(c, s, t), t)
  {
  }

  lemma StepDescends(c: Config, s: State, t: nat)
    requires Inv(c, s) && t < |s.threads| && !s.threads[t].Idle?
    ensures Inv(c, Step(c, s, Action(t, Continue))) && Descends(c, s, Step(c, s, Action(t, Continue)), t)
  {
    var pc := s.threads[t];
    InvStep(c, s, Action(t, Continue));
    ReadyInv(c, s, t);
    if pc.SpHead? || pc.SpPtr? || pc.SpIdx? || pc.SpPublish? { SpDescends(c, s, t); }
    else if pc.UpdateRead? || pc.UpdateCas? { UpdateDescends(c, s, t); }
    else if Loads(pc) { LoadDescends(c, s, t); }
    else if pc.Copy? || pc.DeqCommit? { TakeDescends(c, s, t); }
    else if pc.MpCas? { MpCasDescends(c, s, t); }
    else if !pc.EnqTail? { MpReadDescends(c, s, t); }
  }

  // ---------- runs of one thread ----------

  // The state after `n` steps of thread `t` alone.
  function Alone(c: Config, s: State, t: nat, n: nat): State
    decreases n
  {
    if n == 0 then s else Alone(c, Step(c, s, Action(t, Continue)), t, n - 1)
  }

  /** Thread `t`, alone from state `s`, has returned one result after `n` steps and is idle again. */
  predicate ReturnsAt(c: Config, s: State, t: nat, n: nat) {
    var end := Alone(c, s, t, n);
    t < |end.threads| && end.threads[t].Idle? && |end.results| == |s.results| + 1
  }

  lemma ReturnsEarlier(c: Config, s: State, s': State, t: nat, n: nat)
    requires s' == Step(c, s, Action(t, Continue)) && s'.results == s.results && ReturnsAt(c, s', t, n)
    ensures ReturnsAt(c, s, t, n + 1)
  {
  }

  lemma ReturnsNext(c: Config, s: State, s': State, t: nat)
    requires s' == Step(c, s, Action(t, Continue))
    requires t < |s'.threads| && s'.threads[t].Idle? && |s'.results| == |s.results| + 1
    ensures ReturnsAt(c, s, t, 1)
  {
    assert Alone(c, s', t, 0) == s';
  }

  lemma {:induction false} RunsDown(c: Config, s: State, t: nat, rank: Rank) returns (n: nat)
    requires Inv(c, s) && t < |s.threads| && !s.threads[t].Idle? && rank == RankOf(c, s, s.threads[t])
    ensures ReturnsAt(c, s, t, n)
    decreases rank.phase, rank.left, rank.ahead, rank.access
  {
    var s' := Step(c, s, Action(t, Continue));
    StepDescends(c, s, t);
    if s'.threads[t].Idle? {
      ReturnsNext(c, s, s', t);
      n := 1;
    } else {
      n := RunsDown(c, s', t, RankOf(c, s', s'.threads[t]));
      ReturnsEarlier(c, s, s', t, n);
      n := n + 1;
    }
  }

  ghost predicate ReturnsAlone(c: Config, s: State, t: nat) {
    exists n :: ReturnsAt(c, s, t, n)
  }

  /** In every reachable state, wherever the other threads have stopped, a thread in the middle of an
      enqueue or a dequeue returns if it runs alone. */
  lemma NoneWaits(c: Config, threads: nat, schedule: seq<Action>, t: nat)
    requires c.size > 0 && c.width.Unbounded?
    requires var s := Exec(c, Start(c, threads), schedule); t < |s.threads| && !s.threads[t].Idle?
    ensures ReturnsAlone(c, Exec(c, Start(c, threads), schedule), t)
  {
    var s := Exec(c, Start(c, threads), schedule);
    ExecInv(c, threads, schedule);
    var n := RunsDown(c, s, t, RankOf(c, s, s.threads[t]));
  }
}
