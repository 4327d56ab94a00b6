/** The queue on 64-bit positions takes the same steps as the queue on unbounded ones. */
module SequencedQueueWrap {
  import opened RingWords
  import opened SequencedQueue
  import opened SequencedQueueSafety

  function W(x: int): int { Norm(Word64, x) }

  function Wide(c: Config): Config { c.(width := Word64) }

  // ---------- the 64-bit image of a state ----------

  function WrapCell(cell: Cell): Cell { Cell(W(cell.sequence), cell.data) }

  function WrapPc(pc: Pc): Pc {
    match pc
    case Idle => pc
    case EnqIndex(_, _) => pc
    case EnqSequence(data, retry, pos) => EnqSequence(data, retry, W(pos))
    case EnqClaim(data, retry, pos) => EnqClaim(data, retry, W(pos))
    case EnqData(data, pos) => EnqData(data, W(pos))
    case EnqPublish(pos) => EnqPublish(W(pos))
    case DeqIndex(_) => pc
    case DeqSequence(retry, pos) => DeqSequence(retry, W(pos))
    case DeqClaim(retry, pos) => DeqClaim(retry, W(pos))
    case DeqData(pos) => DeqData(W(pos))
    case DeqRelease(pos, data) => DeqRelease(W(pos), data)
  }

  function WrapResult(r: Result): Result {
    match r
    case Enqueued(pos) => Enqueued(W(pos))
    case Dequeued(pos, data) => Dequeued(W(pos), data)
    case Full => r
    case Empty => r
    case Contention => r
  }

  function WrapState(s: State): State {
    State(W(s.enqueueIndex), W(s.dequeueIndex),
          seq(|s.cells|, i requires 0 <= i < |s.cells| => WrapCell(s.cells[i])),
          seq(|s.threads|, t requires 0 <= t < |s.threads| => WrapPc(s.threads[t])),
          s.claimed,
          seq(|s.results|, r requires 0 <= r < |s.results| => WrapResult(s.results[r])))
  }

  // ---------- the window ----------

  // `x` lies less than half the word range behind the end of the live range: no sequence number
  // reaches `enqueueIndex + count`.
  predicate Near(c: Config, s: State, x: int) {
    s.enqueueIndex + c.count - HALF < x
  }

  predicate PcNear(c: Config, s: State, pc: Pc) {
    (pc.EnqSequence? || pc.EnqClaim? || pc.DeqSequence? || pc.DeqClaim?) ==> Near(c, s, pc.pos)
  }

  /** The cell count is one make_queue accepts, and every position held by a thread is less
      than 2^63 behind the end of the live range. */
  ghost predicate Window(c: Config, s: State) {
    GoodCount(c.count) && forall t :: 0 <= t < |s.threads| ==> PcNear(c, s, s.threads[t])
  }

  // ---------- building blocks ----------

  lemma PlusWrap(c: Config, x: int, k: int)
    requires c.width.Unbounded?
    ensures Plus(Wide(c), W(x), k) == W(Plus(c, x, k))
  {
    NormShift(x, k);
  }

  lemma AtWrap(c: Config, s: State, x: int)
    requires |s.cells| == c.count && GoodCount(c.count)
    ensures At(Wide(c), WrapState(s).cells, W(x)) == WrapCell(At(c, s.cells, x))
    ensures W(x) % c.count == x % c.count
  {
    MaskExact(x, c.count);
  }

  lemma GotoWrap(s: State, t: nat, pc: Pc)
    requires t < |s.threads|
    ensures WrapState(s).Goto(t, WrapPc(pc)) == WrapState(s.Goto(t, pc))
  {
    assert WrapState(s).threads[t := WrapPc(pc)] == WrapState(s.Goto(t, pc)).threads;
  }

  lemma ReturnWrap(s: State, t: nat, r: Result)
    requires t < |s.threads|
    ensures WrapState(s).Return(t, WrapResult(r)) == WrapState(s.Return(t, r))
  {
    assert WrapState(s).threads[t := Idle] == WrapState(s.Return(t, r)).threads;
    assert WrapState(s).results + [WrapResult(r)] == WrapState(s.Return(t, r)).results;
  }

  lemma CellsWrap(c: Config, s: State, x: int, cell: Cell)
    requires |s.cells| == c.count && GoodCount(c.count)
    ensures WrapState(s).cells[W(x) % c.count := WrapCell(cell)]
      == WrapState(s.(cells := s.cells[x % c.count := cell])).cells
  {
    MaskExact(x, c.count);
  }

  // Every sequence number lies within one lap of the next position to claim.
  lemma SequenceNear(c: Config, s: State, x: int)
    requires SharedInv(c, s)
    ensures s.enqueueIndex - c.count <= At(c, s.cells, x).sequence < s.enqueueIndex + c.count
  {
    var p := Latest(c, s.enqueueIndex, x);
    assert Recent(c, s, p) && PositionInv(c, s, p);
  }

  // The recent position in the cell of `x`.
  lemma Latest(c: Config, e: int, x: int) returns (p: int)
    requires c.count > 0
    ensures e - c.count <= p < e && p % c.count == x % c.count
  {
    p := e - 1 - (e - 1 - x) % c.count;
    var q := (e - 1 - x) / c.count;
    assert e - 1 - x == q * c.count + (e - 1 - x) % c.count;
    ModUnique(p, c.count, x / c.count + q, x % c.count);
  }

  // ---------- each function takes the same step ----------

  ghost predicate Comparable(c: Config, s: State, t: nat) {
    && SharedInv(c, s) && GoodCount(c.count)
    && t < |s.threads| && ThreadInv(c, s, s.threads[t]) && PcNear(c, s, s.threads[t])
    && WrapState(s).threads[t] == WrapPc(s.threads[t])
  }

  lemma EnqSequenceWrap(c: Config, s: State, t: nat, fail: bool)
    requires Comparable(c, s, t) && s.threads[t].EnqSequence?
    ensures EnqStep(Wide(c), WrapState(s), t, fail) == WrapState(EnqStep(c, s, t, fail))
  {
    var pc := s.threads[t];
    AtWrap(c, s, pc.pos);
    SequenceNear(c, s, pc.pos);
    DiffExact(At(c, s.cells, pc.pos).sequence, pc.pos);
    GotoWrap(s, t, EnqClaim(pc.data, pc.retry, pc.pos));
    GotoWrap(s, t, EnqIndex(pc.data, true));
    ReturnWrap(s, t, Full);
    ReturnWrap(s, t, Contention);
  }

  lemma EnqClaimWrap(c: Config, s: State, t: nat, fail: bool)
    requires Comparable(c, s, t) && s.threads[t].EnqClaim?
    ensures EnqStep(Wide(c), WrapState(s), t, fail) == WrapState(EnqStep(c, s, t, fail))
  {
    var pc := s.threads[t];
    DiffExact(s.enqueueIndex, pc.pos);
    PlusWrap(c, pc.pos, 1);
    GotoWrap(s.(enqueueIndex := pc.pos + 1, claimed := s.claimed + [pc.data]), t, EnqData(pc.data, pc.pos));
    GotoWrap(s, t, EnqIndex(pc.data, true));
    ReturnWrap(s, t, Contention);
  }

  lemma EnqWriteWrap(c: Config, s: State, t: nat, fail: bool)
    requires Comparable(c, s, t) && Fills(s.threads[t])
    ensures EnqStep(Wide(c), WrapState(s), t, fail) == WrapState(EnqStep(c, s, t, fail))
  {
    var pc := s.threads[t];
    AtWrap(c, s, pc.pos);
    PlusWrap(c, pc.pos, 1);
    if pc.EnqData? {
      var cell := At(c, s.cells, pc.pos).(data := pc.data);
      CellsWrap(c, s, pc.pos, cell);
      GotoWrap(s.(cells := s.cells[pc.pos % c.count := cell]), t, EnqPublish(pc.pos));
    } else {
      var cell := At(c, s.cells, pc.pos).(sequence := pc.pos + 1);
      CellsWrap(c, s, pc.pos, cell);
      ReturnWrap(s.(cells := s.cells[pc.pos % c.count := cell]), t, Enqueued(pc.pos));
    }
  }

  lemma DeqSequenceWrap(c: Config, s: State, t: nat, fail: bool)
    requires Comparable(c, s, t) && s.threads[t].DeqSequence?
    ensures DeqStep(Wide(c), WrapState(s), t, fail) == WrapState(DeqStep(c, s, t, fail))
  {
    var pc := s.threads[t];
    AtWrap(c, s, pc.pos);
    SequenceNear(c, s, pc.pos);
    PlusWrap(c, pc.pos, 1);
    DiffExact(At(c, s.cells, pc.pos).sequence, pc.pos + 1);
    GotoWrap(s, t, DeqClaim(pc.retry, pc.pos));
    GotoWrap(s, t, DeqIndex(true));
    ReturnWrap(s, t, Empty);
    ReturnWrap(s, t, Contention);
  }

  lemma DeqClaimWrap(c: Config, s: State, t: nat, fail: bool)
    requires Comparable(c, s, t) && s.threads[t].DeqClaim?
    ensures DeqStep(Wide(c), WrapState(s), t, fail) == WrapState(DeqStep(c, s, t, fail))
  {
    var pc := s.threads[t];
    DiffExact(s.dequeueIndex, pc.pos);
    PlusWrap(c, pc.pos, 1);
    GotoWrap(s.(dequeueIndex := pc.pos + 1), t, DeqData(pc.pos));
    GotoWrap(s, t, DeqIndex(true));
    ReturnWrap(s, t, Contention);
  }

  lemma DeqReadWrap(c: Config, s: State, t: nat, fail: bool)
    requires Comparable(c, s, t) && Drains(s.threads[t])
    ensures DeqStep(Wide(c), WrapState(s), t, fail) == WrapState(DeqStep(c, s, t, fail))
  {
    var pc := s.threads[t];
    AtWrap(c, s, pc.pos);
    PlusWrap(c, pc.pos, c.count);
    if pc.DeqData? {
      GotoWrap(s, t, DeqRelease(pc.pos, At(c, s.cells, pc.pos).data));
    } else {
      var cell := At(c, s.cells, pc.pos).(sequence := pc.pos + c.count);
      CellsWrap(c, s, pc.pos, cell);
      ReturnWrap(s.(cells := s.cells[pc.pos % c.count := cell]), t, Dequeued(pc.pos, pc.data));
    }
  }

  lemma BeginWrap(c: Config, s: State, t: nat, cmd: Cmd)
    requires t < |s.threads| && s.threads[t].Idle?
    ensures Begin(Wide(c), WrapState(s), t, cmd) == WrapState(Begin(c, s, t, cmd))
  {
    assert forall u :: 0 <= u < |s.threads| ==>
      Produces(WrapState(s).threads[u]) == Produces(s.threads[u])
        && Consumes(WrapState(s).threads[u]) == Consumes(s.threads[u]);
    assert MayBegin(Wide(c), WrapState(s).threads, cmd) == MayBegin(c, s.threads, cmd);
    if cmd.CallEnqueue? { GotoWrap(s, t, EnqIndex(cmd.data, cmd.retry)); }
    if cmd.CallDequeue? { GotoWrap(s, t, DeqIndex(cmd.retry)); }
  }

  // ---------- the whole program ----------

  lemma EnqWrap(c: Config, s: State, t: nat, fail: bool)
    requires Comparable(c, s, t) && Produces(s.threads[t])
    ensures EnqStep(Wide(c), WrapState(s), t, fail) == WrapState(EnqStep(c, s, t, fail))
  {
    var pc := s.threads[t];
    if pc.EnqSequence? { EnqSequenceWrap(c, s, t, fail); }
    else if pc.EnqClaim? { EnqClaimWrap(c, s, t, fail); }
    else if Fills(pc) { EnqWriteWrap(c, s, t, fail); }
    else { GotoWrap(s, t, EnqSequence(pc.data, pc.retry, s.enqueueIndex)); }
  }

  lemma DeqWrap(c: Config, s: State, t: nat, fail: bool)
    requires Comparable(c, s, t) && Consumes(s.threads[t])
    ensures DeqStep(Wide(c), WrapState(s), t, fail) == WrapState(DeqStep(c, s, t, fail))
  {
    var pc := s.threads[t];
    if pc.DeqSequence? { DeqSequenceWrap(c, s, t, fail); }
    else if pc.DeqClaim? { DeqClaimWrap(c, s, t, fail); }
    else if Drains(pc) { DeqReadWrap(c, s, t, fail); }
    else { GotoWrap(s, t, DeqSequence(pc.retry, s.dequeueIndex)); }
  }

  lemma StepWrap(c: Config, s: State, a: Action)
    requires Inv(c, s) && Window(c, s)
    ensures Step(Wide(c), WrapState(s), a) == WrapState(Step(c, s, a))
  {
    var t := a.tid;
    if t < |s.threads| {
      assert WrapState(s).threads[t] == WrapPc(s.threads[t]);
      if s.threads[t].Idle? { BeginWrap(c, s, t, a.cmd); }
      else if Produces(s.threads[t]) { EnqWrap(c, s, t, a.cmd.Fail?); }
      else { DeqWrap(c, s, t, a.cmd.Fail?); }
    }
  }

  lemma StartWrap(c: Config, threads: nat)
    requires c.width.Unbounded? && GoodCount(c.count)
    ensures Start(Wide(c), threads) == WrapState(Start(c, threads))
  {
    var w, u := Start(Wide(c), threads), Start(c, threads);
    forall i: nat | i < c.count ensures w.cells[i] == WrapState(u).cells[i] {
      assert u.cells[i] == Cell(i, 0);
    }
    assert w.cells == WrapState(u).cells;
    assert w.threads == WrapState(u).threads;
  }

  /** Along any schedule in which every position held by a thread is less than 2^63 behind the end
      of the live range, the queue on 64-bit words and the queue on unbounded integers take the
      same steps. */
  lemma {:induction false} SameSteps(c: Config, threads: nat, schedule: seq<Action>)
    requires c.width.Unbounded? && GoodCount(c.count)
    requires forall k :: 0 <= k < |schedule| ==> Window(c, Exec(c, Start(c, threads), schedule[..k]))
    ensures Exec(Wide(c), Start(Wide(c), threads), schedule) == WrapState(Exec(c, Start(c, threads), schedule))
    decreases |schedule|
  {
    if schedule == [] {
      StartWrap(c, threads);
    } else {
      var before := schedule[..|schedule| - 1];
      forall k | 0 <= k < |before| ensures Window(c, Exec(c, Start(c, threads), before[..k])) {
        assert before[..k] == schedule[..k];
      }
      SameSteps(c, threads, before);
      ExecInv(c, threads, before);
      assert Window(c, Exec(c, Start(c, threads), schedule[..|schedule| - 1]));
      StepWrap(c, Exec(c, Start(c, threads), before), schedule[|schedule| - 1]);
    }
  }
}
