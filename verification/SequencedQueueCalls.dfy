/** What one call of the queue answers its caller, from the arguments of the call. */
module SequencedQueueCalls {
  import opened RingWords
  import opened SequencedQueue
  import opened SequencedQueueSafety
  import Results = SequencedQueueResults

  // The state after the first `k` actions of `call`.
  function StateAfter(c: Config, s: State, call: seq<Action>, k: nat): State
    requires k <= |call|
  {
    Exec(c, s, call[..k])
  }

  lemma NextState(c: Config, s: State, call: seq<Action>, k: nat)
    requires k < |call|
    ensures StateAfter(c, s, call, k + 1) == Step(c, StateAfter(c, s, call, k), call[k])
  {
    assert call[..k + 1][..k] == call[..k];
  }

  lemma {:induction false} ReachInv(c: Config, s: State, call: seq<Action>, k: nat)
    requires Inv(c, s) && k <= |call|
    ensures Inv(c, StateAfter(c, s, call, k)) && |StateAfter(c, s, call, k).threads| == |s.threads|
  {
    if k > 0 {
      ReachInv(c, s, call, k - 1);
      NextState(c, s, call, k - 1);
      StepInv(c, StateAfter(c, s, call, k - 1), call[k - 1]);
    }
  }

  /** `call` are the steps of all threads from the command `cmd`, given to the idle thread `t` in
      state `s`, to the step in which that call returns `r`. */
  ghost predicate Returns(c: Config, s: State, call: seq<Action>, t: nat, cmd: Cmd, r: Result) {
    && t < |s.threads| && s.threads[t].Idle? && |call| > 0 && call[0] == Action(t, cmd)
    && (forall k :: 0 < k < |call| ==>
         t < |StateAfter(c, s, call, k).threads| && !StateAfter(c, s, call, k).threads[t].Idle?)
    && call[|call| - 1].tid == t
    && StateAfter(c, s, call, |call|).results == StateAfter(c, s, call, |call| - 1).results + [r]
  }

  // ---------- one step ----------

  lemma HistoryGrows(c: Config, s: State, a: Action)
    requires Inv(c, s)
    ensures s.claimed <= Step(c, s, a).claimed && s.dequeueIndex <= Step(c, s, a).dequeueIndex
  {
    if a.tid < |s.threads| { assert ThreadInv(c, s, s.threads[a.tid]); }
  }

  lemma OthersStay(c: Config, s: State, a: Action, t: nat)
    requires t < |s.threads| && a.tid != t
    ensures t < |Step(c, s, a).threads| && Step(c, s, a).threads[t] == s.threads[t]
  {
  }

  // ---------- enqueue ----------

  /** Where a call that was given `data` stands; from `e` on, positions are claimed by it or later. */
  predicate Carrying(s: State, pc: Pc, data: Data, retry: bool, e: int) {
    match pc
    case EnqIndex(x, r) => x == data && r == retry
    case EnqSequence(x, r, p) => x == data && r == retry && e <= p
    case EnqClaim(x, r, p) => x == data && r == retry && e <= p
    case EnqData(x, p) => x == data && Claims(s, p, data, e)
    case EnqPublish(p) => Claims(s, p, data, e)
    case _ => false
  }

  predicate Claims(s: State, p: int, data: Data, e: int) {
    0 <= e <= p < |s.claimed| && s.claimed[p] == data
  }

  // What an enqueue may answer.
  predicate Answers(c: Config, s: State, s': State, fail: bool, r: Result, pc: Pc, data: Data, retry: bool, e: int) {
    match r
    case Enqueued(p) => Claims(s', p, data, e)
    case Full => true
    case Contention => !retry && c.mp && (pc.EnqSequence? || pc.EnqClaim?) && e <= pc.pos
      && (pc.pos < s.enqueueIndex || fail)
    case _ => false
  }

  lemma CarryingStep(c: Config, s: State, t: nat, fail: bool, data: Data, retry: bool, e: int)
    requires Inv(c, s) && t < |s.threads| && Carrying(s, s.threads[t], data, retry, e) && 0 <= e <= s.enqueueIndex
    ensures var s', pc := EnqStep(c, s, t, fail), s.threads[t];
      || (s'.results == s.results && Carrying(s', s'.threads[t], data, retry, e))
      || (exists r :: s'.results == s.results + [r] && Answers(c, s, s', fail, r, pc, data, retry, e))
  {
    var s', pc := EnqStep(c, s, t, fail), s.threads[t];
    assert ThreadInv(c, s, pc);
    FrontierSequence(c, s);
    if pc.EnqPublish? {
      assert s'.results == s.results + [Enqueued(pc.pos)];
    } else if pc.EnqSequence? {
      if s'.results == s.results + [Full] {}
      else if s'.results == s.results + [Contention] {}
    } else if pc.EnqClaim? && s'.results == s.results + [Contention] {
    }
  }

  // A thread that reports a result is idle.
  lemma OnlyReturnsIdle(c: Config, s: State, a: Action)
    requires a.tid < |s.threads|
    ensures Step(c, s, a).results != s.results ==>
      a.tid < |Step(c, s, a).threads| && Step(c, s, a).threads[a.tid].Idle?
  {
  }

  // One step of any thread, while the call goes on.
  lemma CarryingNext(c: Config, s: State, a: Action, t: nat, data: Data, retry: bool, e: int)
    requires Inv(c, s) && t < |s.threads| && Carrying(s, s.threads[t], data, retry, e) && 0 <= e <= s.enqueueIndex
    requires t < |Step(c, s, a).threads| && !Step(c, s, a).threads[t].Idle?
    ensures Carrying(Step(c, s, a), Step(c, s, a).threads[t], data, retry, e)
  {
    HistoryGrows(c, s, a);
    if a.tid == t {
      OnlyReturnsIdle(c, s, a);
      CarryingStep(c, s, t, a.cmd.Fail?, data, retry, e);
      assert Step(c, s, a) == EnqStep(c, s, t, a.cmd.Fail?);
    } else {
      OthersStay(c, s, a, t);
    }
  }

  lemma IndexGrows(c: Config, s: State, a: Action)
    requires Inv(c, s)
    ensures s.enqueueIndex <= Step(c, s, a).enqueueIndex
  {
    HistoryGrows(c, s, a);
    StepInv(c, s, a);
  }

  lemma {:induction false} CallCarries(c: Config, s: State, call: seq<Action>, t: nat, data: Data, retry: bool,
        r: Result, k: nat)
    requires Inv(c, s) && Returns(c, s, call, t, CallEnqueue(data, retry), r) && 0 < k < |call|
    ensures t < |StateAfter(c, s, call, k).threads| && s.enqueueIndex <= StateAfter(c, s, call, k).enqueueIndex
    ensures Carrying(StateAfter(c, s, call, k), StateAfter(c, s, call, k).threads[t], data, retry, s.enqueueIndex)
  {
    var before := StateAfter(c, s, call, k - 1);
    ReachInv(c, s, call, k - 1);
    NextState(c, s, call, k - 1);
    IndexGrows(c, before, call[k - 1]);
    if k == 1 {
      assert before == s;
    } else {
      CallCarries(c, s, call, t, data, retry, r, k - 1);
      CarryingNext(c, before, call[k - 1], t, data, retry, s.enqueueIndex);
    }
  }

  /** A call that was given `data` answers Enqueued(p) only if `data` is the value of position p,
      claimed during the call; answers Contention only if it was told not to retry and, at its last
      access, another producer had claimed its position during the call or the compare-exchange
      failed for no reason; and otherwise answers Full. */
  lemma EnqueueAnswers(c: Config, threads: nat, schedule: seq<Action>, call: seq<Action>, t: nat,
        data: Data, retry: bool, r: Result)
    requires c.count >= 2 && c.width.Unbounded?
    requires Returns(c, Results.Run(c, threads, schedule), call, t, CallEnqueue(data, retry), r)
    ensures var s := Results.Run(c, threads, schedule);
      var end, last := StateAfter(c, s, call, |call|), StateAfter(c, s, call, |call| - 1);
      match r
      case Enqueued(p) => s.enqueueIndex <= p < end.enqueueIndex && 0 <= p < |end.claimed| && end.claimed[p] == data
      case Full => true
      case Contention =>
        && !retry && c.mp && t < |last.threads|
        && (last.threads[t].EnqSequence? || last.threads[t].EnqClaim?) && s.enqueueIndex <= last.threads[t].pos
        && (last.threads[t].pos < last.enqueueIndex || call[|call| - 1].cmd.Fail?)
      case Empty => false
      case Dequeued(_, _) => false
  {
    var s := Results.Run(c, threads, schedule);
    ExecInv(c, threads, schedule);
    var n := |call| - 1;
    var last, end := StateAfter(c, s, call, n), StateAfter(c, s, call, |call|);
    NextState(c, s, call, n);
    ReachInv(c, s, call, n);
    ReachInv(c, s, call, |call|);
    TakesSteps(c, s, call, t, CallEnqueue(data, retry), r);
    CallCarries(c, s, call, t, data, retry, r, n);
    CarryingStep(c, last, t, call[n].cmd.Fail?, data, retry, s.enqueueIndex);
    OneResult(last.results, end.results, r);
  }

  lemma OneResult(before: seq<Result>, after: seq<Result>, r: Result)
    requires after == before + [r]
    ensures after != before && forall q :: after == before + [q] ==> q == r
  {
    assert |after| == |before| + 1;
    forall q | after == before + [q] ensures q == r {
      assert (before + [q])[|before|] == q && (before + [r])[|before|] == r;
    }
  }

  lemma BeginReturnsNothing(c: Config, s: State, t: nat, cmd: Cmd)
    requires t < |s.threads| && s.threads[t].Idle?
    ensures |Step(c, s, Action(t, cmd)).results| == |s.results|
  {
  }

  lemma TakesSteps(c: Config, s: State, call: seq<Action>, t: nat, cmd: Cmd, r: Result)
    requires Returns(c, s, call, t, cmd, r)
    ensures |call| > 1
  {
    assert StateAfter(c, s, call, 0) == s;
    NextState(c, s, call, 0);
    BeginReturnsNothing(c, s, t, cmd);
  }

  // ---------- dequeue ----------

  predicate Taking(s: State, pc: Pc, retry: bool, d: int) {
    match pc
    case DeqIndex(r) => r == retry
    case DeqSequence(r, p) => r == retry && d <= p
    case DeqClaim(r, p) => r == retry && d <= p
    case DeqData(p) => d <= p < s.dequeueIndex
    case DeqRelease(p, _) => d <= p < s.dequeueIndex
    case _ => false
  }

  predicate DeqAnswers(c: Config, s: State, s': State, fail: bool, r: Result, pc: Pc, retry: bool, d: int) {
    match r
    case Dequeued(p, _) => d <= p < s'.dequeueIndex
    case Empty => true
    case Contention => !retry && c.mc && (pc.DeqSequence? || pc.DeqClaim?) && d <= pc.pos
      && (pc.pos < s.dequeueIndex || fail)
    case _ => false
  }

  // The next position to take is at most published.
  lemma NotAhead(c: Config, s: State)
    requires SharedInv(c, s)
    ensures At(c, s.cells, s.dequeueIndex).sequence <= s.dequeueIndex + 1
  {
    if s.dequeueIndex == s.enqueueIndex { FrontierSequence(c, s); } else { assert PositionInv(c, s, s.dequeueIndex); }
  }

  lemma TakingStep(c: Config, s: State, t: nat, fail: bool, retry: bool, d: int)
    requires Inv(c, s) && t < |s.threads| && Taking(s, s.threads[t], retry, d) && d <= s.dequeueIndex
    ensures var s', pc := DeqStep(c, s, t, fail), s.threads[t];
      || (s'.results == s.results && Taking(s', s'.threads[t], retry, d))
      || (exists r :: s'.results == s.results + [r] && DeqAnswers(c, s, s', fail, r, pc, retry, d))
  {
    var s', pc := DeqStep(c, s, t, fail), s.threads[t];
    assert ThreadInv(c, s, pc);
    if pc.DeqRelease? {
      assert s'.results == s.results + [Dequeued(pc.pos, pc.data)];
    } else if pc.DeqSequence? {
      NotAhead(c, s);
      if s'.results == s.results + [Empty] {}
      else if s'.results == s.results + [Contention] {}
    } else if pc.DeqClaim? && s'.results == s.results + [Contention] {
    }
  }

  lemma TakingNext(c: Config, s: State, a: Action, t: nat, retry: bool, d: int)
    requires Inv(c, s) && t < |s.threads| && Taking(s, s.threads[t], retry, d) && d <= s.dequeueIndex
    requires t < |Step(c, s, a).threads| && !Step(c, s, a).threads[t].Idle?
    ensures Taking(Step(c, s, a), Step(c, s, a).threads[t], retry, d)
  {
    HistoryGrows(c, s, a);
    if a.tid == t {
      OnlyReturnsIdle(c, s, a);
      TakingStep(c, s, t, a.cmd.Fail?, retry, d);
      assert Step(c, s, a) == DeqStep(c, s, t, a.cmd.Fail?);
    } else {
      OthersStay(c, s, a, t);
    }
  }

  lemma {:induction false} CallTakes(c: Config, s: State, call: seq<Action>, t: nat, retry: bool, r: Result, k: nat)
    requires Inv(c, s) && Returns(c, s, call, t, CallDequeue(retry), r) && 0 < k < |call|
    ensures t < |StateAfter(c, s, call, k).threads| && s.dequeueIndex <= StateAfter(c, s, call, k).dequeueIndex
    ensures Taking(StateAfter(c, s, call, k), StateAfter(c, s, call, k).threads[t], retry, s.dequeueIndex)
  {
    var before := StateAfter(c, s, call, k - 1);
    ReachInv(c, s, call, k - 1);
    NextState(c, s, call, k - 1);
    HistoryGrows(c, before, call[k - 1]);
    if k == 1 {
      assert before == s;
    } else {
      CallTakes(c, s, call, t, retry, r, k - 1);
      TakingNext(c, before, call[k - 1], t, retry, s.dequeueIndex);
    }
  }

  /** A dequeue answers Dequeued(p, v) only for a position that it took during the call, with the
      value claimed there; answers Contention only if it was told not to retry and, at its last
      access, another consumer had taken its position during the call or the compare-exchange failed
      for no reason; and otherwise answers Empty. */
  lemma DequeueAnswers(c: Config, threads: nat, schedule: seq<Action>, call: seq<Action>, t: nat, retry: bool,
        r: Result)
    requires c.count >= 2 && c.width.Unbounded?
    requires Returns(c, Results.Run(c, threads, schedule), call, t, CallDequeue(retry), r)
    ensures var s := Results.Run(c, threads, schedule);
      var end, last := StateAfter(c, s, call, |call|), StateAfter(c, s, call, |call| - 1);
      match r
      case Dequeued(p, v) => s.dequeueIndex <= p < end.dequeueIndex && 0 <= p < |end.claimed| && v == end.claimed[p]
      case Empty => true
      case Contention =>
        && !retry && c.mc && t < |last.threads|
        && (last.threads[t].DeqSequence? || last.threads[t].DeqClaim?) && s.dequeueIndex <= last.threads[t].pos
        && (last.threads[t].pos < last.dequeueIndex || call[|call| - 1].cmd.Fail?)
      case Full => false
      case Enqueued(_) => false
  {
    var s := Results.Run(c, threads, schedule);
    ExecInv(c, threads, schedule);
    var n := |call| - 1;
    var last, end := StateAfter(c, s, call, n), StateAfter(c, s, call, |call|);
    NextState(c, s, call, n);
    ReachInv(c, s, call, n);
    ReachInv(c, s, call, |call|);
    TakesSteps(c, s, call, t, CallDequeue(retry), r);
    CallTakes(c, s, call, t, retry, r, n);
    TakingStep(c, last, t, call[n].cmd.Fail?, retry, s.dequeueIndex);
    OneResult(last.results, end.results, r);
    assert r in end.results && ResultInv(c, end, r);
  }

  // ---------- a call that runs alone ----------

  // The steps of thread `t` alone, `n` of them after its command.
  function Alone(c: Config, s: State, t: nat, cmd: Cmd, n: nat): State {
    if n == 0 then Step(c, s, Action(t, cmd)) else Step(c, Alone(c, s, t, cmd, n - 1), Action(t, Continue))
  }

  lemma AloneStarts(c: Config, s: State, t: nat, cmd: Cmd)
    requires Inv(c, s) && t < |s.threads| && s.threads[t].Idle? && MayBegin(c, s.threads, cmd)
    ensures cmd.CallEnqueue? ==>
      Alone(c, s, t, cmd, 1) == s.Goto(t, EnqSequence(cmd.data, cmd.retry, s.enqueueIndex))
    ensures cmd.CallDequeue? ==> Alone(c, s, t, cmd, 1) == s.Goto(t, DeqSequence(cmd.retry, s.dequeueIndex))
  {
    if cmd.CallEnqueue? {
      assert Alone(c, s, t, cmd, 0) == s.Goto(t, EnqIndex(cmd.data, cmd.retry));
    } else if cmd.CallDequeue? {
      assert Alone(c, s, t, cmd, 0) == s.Goto(t, DeqIndex(cmd.retry));
    }
  }

  /** An enqueue that runs without interference ends: where the position a lap before the next one
      to claim is released it stores its value at the next position, and otherwise it answers
      Full and changes nothing. */
  lemma EnqueueAlone(c: Config, s: State, t: nat, data: Data, retry: bool)
    requires Inv(c, s) && t < |s.threads| && s.threads[t].Idle? && MayBegin(c, s.threads, CallEnqueue(data, retry))
    ensures var e, cmd := s.enqueueIndex, CallEnqueue(data, retry);
      if Released(c, s, e - c.count) then
        Alone(c, s, t, cmd, 5) == s.(enqueueIndex := e + 1, claimed := s.claimed + [data],
          cells := s.cells[e % c.count := Cell(e + 1, data)], results := s.results + [Enqueued(e)])
      else Alone(c, s, t, cmd, 2) == s.(results := s.results + [Full])
  {
    var e, cmd := s.enqueueIndex, CallEnqueue(data, retry);
    AloneStarts(c, s, t, cmd);
    FrontierSequence(c, s);
    if Released(c, s, e - c.count) {
      var s2 := s.Goto(t, EnqClaim(data, retry, e));
      assert Alone(c, s, t, cmd, 2) == s2;
      var s3 := s.(enqueueIndex := e + 1, claimed := s.claimed + [data]).Goto(t, EnqData(data, e));
      assert Alone(c, s, t, cmd, 3) == s3;
      var s4 := s3.(cells := s.cells[e % c.count := Cell(e, data)]).Goto(t, EnqPublish(e));
      assert Alone(c, s, t, cmd, 4) == s4;
      var s5 := s4.(cells := s.cells[e % c.count := Cell(e + 1, data)]).Return(t, Enqueued(e));
      assert Alone(c, s, t, cmd, 5) == s5;
      assert s5.threads == s.threads;
    } else {
      assert Alone(c, s, t, cmd, 2) == s.Goto(t, EnqSequence(data, retry, e)).Return(t, Full);
      assert s.threads[t := EnqSequence(data, retry, e)][t := Idle] == s.threads;
    }
  }

  /** A dequeue that runs without interference ends: where the next position to take is published
      it takes it, with the value claimed there, and otherwise it answers Empty and changes
      nothing. */
  lemma DequeueAlone(c: Config, s: State, t: nat, retry: bool)
    requires Inv(c, s) && t < |s.threads| && s.threads[t].Idle? && MayBegin(c, s.threads, CallDequeue(retry))
    ensures var d, cmd := s.dequeueIndex, CallDequeue(retry);
      if d < s.enqueueIndex && Published(c, s, d) then
        && d < |s.claimed|
        && Alone(c, s, t, cmd, 5) == s.(dequeueIndex := d + 1,
             cells := s.cells[d % c.count := At(c, s.cells, d).(sequence := d + c.count)],
             results := s.results + [Dequeued(d, s.claimed[d])])
      else Alone(c, s, t, cmd, 2) == s.(results := s.results + [Empty])
  {
    var d, cmd := s.dequeueIndex, CallDequeue(retry);
    AloneStarts(c, s, t, cmd);
    if d < s.enqueueIndex && Published(c, s, d) {
      DequeueTakes(c, s, t, retry);
    } else {
      if d < s.enqueueIndex { assert PositionInv(c, s, d); } else { FrontierSequence(c, s); }
      assert Alone(c, s, t, cmd, 2) == s.Goto(t, DeqSequence(retry, d)).Return(t, Empty);
      assert s.threads[t := DeqSequence(retry, d)][t := Idle] == s.threads;
    }
  }

  lemma DequeueTakes(c: Config, s: State, t: nat, retry: bool)
    requires SharedInv(c, s) && t < |s.threads| && s.threads[t].Idle?
    requires s.dequeueIndex < s.enqueueIndex && Published(c, s, s.dequeueIndex)
    requires Alone(c, s, t, CallDequeue(retry), 1) == s.Goto(t, DeqSequence(retry, s.dequeueIndex))
    ensures var d := s.dequeueIndex;
      && d < |s.claimed|
      && Alone(c, s, t, CallDequeue(retry), 5) == s.(dequeueIndex := d + 1,
           cells := s.cells[d % c.count := At(c, s.cells, d).(sequence := d + c.count)],
           results := s.results + [Dequeued(d, s.claimed[d])])
  {
    var d, cmd := s.dequeueIndex, CallDequeue(retry);
    assert PositionInv(c, s, d);
    var s1, s2 := s.Goto(t, DeqSequence(retry, d)), s.Goto(t, DeqClaim(retry, d));
    SequenceStep(c, s1, t, retry, d);
    AloneNext(c, s, t, cmd, 2, s2);
    var s3 := s.(dequeueIndex := d + 1).Goto(t, DeqData(d));
    ClaimStep(c, s2, t, retry, d);
    AloneNext(c, s, t, cmd, 3, s3);
    var s4 := s3.Goto(t, DeqRelease(d, s.claimed[d]));
    DataStep(c, s3, t, d);
    AloneNext(c, s, t, cmd, 4, s4);
    var s5 := s4.(cells := s.cells[d % c.count := At(c, s.cells, d).(sequence := d + c.count)])
      .Return(t, Dequeued(d, s.claimed[d]));
    ReleaseStep(c, s4, t, d, s.claimed[d]);
    AloneNext(c, s, t, cmd, 5, s5);
    assert s5.threads == s.threads;
  }

  lemma AloneNext(c: Config, s: State, t: nat, cmd: Cmd, n: nat, x: State)
    requires n > 0 && Step(c, Alone(c, s, t, cmd, n - 1), Action(t, Continue)) == x
    ensures Alone(c, s, t, cmd, n) == x
  {
  }

  predicate Stands(c: Config, s: State, t: nat, pc: Pc) {
    c.width.Unbounded? && |s.cells| == c.count > 0 && t < |s.threads| && s.threads[t] == pc
  }

  lemma SequenceStep(c: Config, s: State, t: nat, retry: bool, p: int)
    requires Stands(c, s, t, DeqSequence(retry, p)) && Published(c, s, p)
    ensures Step(c, s, Action(t, Continue)) == s.Goto(t, DeqClaim(retry, p))
  {
  }

  lemma ClaimStep(c: Config, s: State, t: nat, retry: bool, p: int)
    requires Stands(c, s, t, DeqClaim(retry, p)) && s.dequeueIndex == p
    ensures Step(c, s, Action(t, Continue)) == s.(dequeueIndex := p + 1).Goto(t, DeqData(p))
  {
  }

  lemma DataStep(c: Config, s: State, t: nat, p: int)
    requires Stands(c, s, t, DeqData(p))
    ensures Step(c, s, Action(t, Continue)) == s.Goto(t, DeqRelease(p, At(c, s.cells, p).data))
  {
  }

  lemma ReleaseStep(c: Config, s: State, t: nat, p: int, data: Data)
    requires Stands(c, s, t, DeqRelease(p, data))
    ensures Step(c, s, Action(t, Continue)) ==
      s.(cells := s.cells[p % c.count := At(c, s.cells, p).(sequence := p + c.count)]).Return(t, Dequeued(p, data))
  {
  }

  // ---------- from caller to caller ----------

  lemma {:induction false} ClaimedGrows(c: Config, s: State, later: seq<Action>, k: nat)
    requires Inv(c, s) && k <= |later|
    ensures s.claimed <= StateAfter(c, s, later, k).claimed
  {
    if k > 0 {
      ClaimedGrows(c, s, later, k - 1);
      ReachInv(c, s, later, k - 1);
      NextState(c, s, later, k - 1);
      HistoryGrows(c, StateAfter(c, s, later, k - 1), later[k - 1]);
    }
  }

  /** The value that a caller enqueued at position p is the value that a dequeue of p returns,
      whenever that is: no step in between replaces, drops or duplicates it. */
  lemma ValueDelivered(c: Config, threads: nat, schedule: seq<Action>, call: seq<Action>, later: seq<Action>, t: nat,
        data: Data, retry: bool, p: int, v: Data)
    requires c.count >= 2 && c.width.Unbounded?
    requires Returns(c, Results.Run(c, threads, schedule), call, t, CallEnqueue(data, retry), Enqueued(p))
    requires Dequeued(p, v) in
      StateAfter(c, StateAfter(c, Results.Run(c, threads, schedule), call, |call|), later, |later|).results
    ensures v == data
  {
    var s := Results.Run(c, threads, schedule);
    ExecInv(c, threads, schedule);
    EnqueueAnswers(c, threads, schedule, call, t, data, retry, Enqueued(p));
    ReachInv(c, s, call, |call|);
    var mid := StateAfter(c, s, call, |call|);
    ReachInv(c, mid, later, |later|);
    ClaimedGrows(c, mid, later, |later|);
    var end := StateAfter(c, mid, later, |later|);
    assert ResultInv(c, end, Dequeued(p, v));
  }
}
