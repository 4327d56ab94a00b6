/** What every schedule of the queue on unbounded positions keeps. */
module SequencedQueueSafety {
  import opened RingWords
  import opened SequencedQueue

  // ---------- cells ----------

  /** The life of a position: claimed by a producer, published, released by a consumer; a
      position below zero counts as released. */
  predicate Unpublished(c: Config, s: State, p: int)
    requires |s.cells| == c.count > 0
  {
    At(c, s.cells, p).sequence == p
  }
  predicate Published(c: Config, s: State, p: int)
    requires |s.cells| == c.count > 0
  {
    At(c, s.cells, p).sequence == p + 1
  }
  predicate Released(c: Config, s: State, p: int)
    requires |s.cells| == c.count > 0
  {
    At(c, s.cells, p).sequence == p + c.count
  }

  predicate PositionInv(c: Config, s: State, p: int)
    requires |s.cells| == c.count > 0
  {
    || (Unpublished(c, s, p) && s.dequeueIndex <= p && 0 <= p)
    || (Published(c, s, p) && 0 <= p < |s.claimed| && At(c, s.cells, p).data == s.claimed[p])
    || (Released(c, s, p) && p < s.dequeueIndex)
  }

  predicate Recent(c: Config, s: State, p: int) {
    s.enqueueIndex - c.count <= p < s.enqueueIndex
  }

  /** The last `count` claimed positions own one cell each. */
  ghost predicate SharedInv(c: Config, s: State) {
    && |s.cells| == c.count >= 2 && c.width.Unbounded?
    && 0 <= s.dequeueIndex <= s.enqueueIndex == |s.claimed| && s.enqueueIndex - c.count <= s.dequeueIndex
    && forall p :: Recent(c, s, p) ==> PositionInv(c, s, p)
  }

  lemma SameCell(count: nat, p: int)
    requires count > 0
    ensures (p + count) % count == p % count
  {
    ModUnique(p + count, count, p / count + 1, p % count);
  }

  // ---------- threads ----------

  // The position whose cell a thread owns: a producer until it publishes, a consumer until it
  // releases.
  predicate Fills(pc: Pc) { pc.EnqData? || pc.EnqPublish? }
  predicate Drains(pc: Pc) { pc.DeqData? || pc.DeqRelease? }

  predicate ThreadInv(c: Config, s: State, pc: Pc)
    requires |s.cells| == c.count > 0
  {
    match pc
    case EnqSequence(_, _, pos) => 0 <= pos <= s.enqueueIndex && (!c.mp ==> pos == s.enqueueIndex)
    case EnqClaim(_, _, pos) =>
      && 0 <= pos <= s.enqueueIndex && (!c.mp ==> pos == s.enqueueIndex)
      && (pos == s.enqueueIndex ==> Unpublished(c, s, pos))
    case EnqData(data, pos) =>
      Recent(c, s, pos) && Unpublished(c, s, pos) && 0 <= pos < |s.claimed| && s.claimed[pos] == data
    case EnqPublish(pos) =>
      && Recent(c, s, pos) && Unpublished(c, s, pos)
      && 0 <= pos < |s.claimed| && At(c, s.cells, pos).data == s.claimed[pos]
    case DeqSequence(_, pos) => 0 <= pos <= s.dequeueIndex && (!c.mc ==> pos == s.dequeueIndex)
    case DeqClaim(_, pos) =>
      && 0 <= pos <= s.dequeueIndex && (!c.mc ==> pos == s.dequeueIndex)
      && (pos == s.dequeueIndex ==> pos < s.enqueueIndex && Published(c, s, pos))
    case DeqData(pos) => Recent(c, s, pos) && pos < s.dequeueIndex && Published(c, s, pos)
    case DeqRelease(pos, data) =>
      && Recent(c, s, pos) && pos < s.dequeueIndex && Published(c, s, pos)
      && 0 <= pos < |s.claimed| && data == s.claimed[pos]
    case _ => true
  }

  // No two threads fill, and no two drain, the same position; a single-producer
  // (single-consumer) queue has at most one call of that kind in flight.
  predicate Apart(c: Config, pc: Pc, other: Pc) {
    && (Fills(pc) && Fills(other) ==> pc.pos != other.pos)
    && (Drains(pc) && Drains(other) ==> pc.pos != other.pos)
    && (!c.mp ==> !(Produces(pc) && Produces(other)))
    && (!c.mc ==> !(Consumes(pc) && Consumes(other)))
  }

  ghost predicate ThreadsInv(c: Config, s: State)
    requires |s.cells| == c.count > 0
  {
    && (forall t :: 0 <= t < |s.threads| ==> ThreadInv(c, s, s.threads[t]))
    && forall t, u :: 0 <= t < u < |s.threads| ==> Apart(c, s.threads[t], s.threads[u])
  }

  // ---------- results ----------

  predicate ResultInv(c: Config, s: State, r: Result)
    requires |s.cells| == c.count > 0
  {
    match r
    case Enqueued(p) => 0 <= p < s.enqueueIndex && (Recent(c, s, p) ==> !Unpublished(c, s, p))
    case Dequeued(p, v) => 0 <= p < s.dequeueIndex && p < |s.claimed| && v == s.claimed[p]
      && (Recent(c, s, p) ==> Released(c, s, p))
    case _ => true
  }

  predicate DifferentPositions(r: Result, q: Result) {
    && (r.Enqueued? && q.Enqueued? ==> r.pos != q.pos)
    && (r.Dequeued? && q.Dequeued? ==> r.pos != q.pos)
  }

  ghost predicate ResultsInv(c: Config, s: State)
    requires |s.cells| == c.count > 0
  {
    && (forall r :: r in s.results ==> ResultInv(c, s, r))
    && forall i, j :: 0 <= i < j < |s.results| ==> DifferentPositions(s.results[i], s.results[j])
  }

  ghost predicate Inv(c: Config, s: State) {
    SharedInv(c, s) && ThreadsInv(c, s) && ResultsInv(c, s)
  }

  // ---------- steps that leave the shared state alone ----------

  lemma ThreadsKept(c: Config, s: State, s': State, t: nat, pc: Pc)
    requires |s.cells| == |s'.cells| == c.count > 0 && ThreadsInv(c, s) && t < |s.threads|
      && s'.threads == s.threads[t := pc]
    requires ThreadInv(c, s', pc)
    requires forall u :: 0 <= u < |s.threads| && u != t ==> ThreadInv(c, s', s.threads[u]) && Apart(c, pc, s.threads[u])
    ensures ThreadsInv(c, s')
  {
  }

  // A call in flight goes on without taking a new position.
  lemma StaysApart(c: Config, s: State, t: nat, pc: Pc)
    requires |s.cells| == c.count > 0 && ThreadsInv(c, s) && t < |s.threads|
    requires Fills(pc) ==> Fills(s.threads[t]) && pc.pos == s.threads[t].pos
    requires Drains(pc) ==> Drains(s.threads[t]) && pc.pos == s.threads[t].pos
    requires Produces(pc) ==> Produces(s.threads[t])
    requires Consumes(pc) ==> Consumes(s.threads[t])
    ensures forall u :: 0 <= u < |s.threads| && u != t ==> Apart(c, pc, s.threads[u])
  {
    forall u | 0 <= u < |s.threads| && u != t ensures Apart(c, pc, s.threads[u]) {
      assert if u < t then Apart(c, s.threads[u], s.threads[t]) else Apart(c, s.threads[t], s.threads[u]);
    }
  }

  // The shared fields are the same; `r`, if any, is returned.
  predicate SameShared(s: State, s': State) {
    && s'.enqueueIndex == s.enqueueIndex && s'.dequeueIndex == s.dequeueIndex
    && s'.cells == s.cells && s'.claimed == s.claimed
  }

  lemma SharedSame(c: Config, s: State, s': State)
    requires SharedInv(c, s) && SameShared(s, s')
    ensures SharedInv(c, s')
  {
    forall p | Recent(c, s', p) ensures PositionInv(c, s', p) { assert Recent(c, s, p) && PositionInv(c, s, p); }
  }

  lemma GotoInv(c: Config, s: State, t: nat, pc: Pc)
    requires Inv(c, s) && t < |s.threads| && ThreadInv(c, s, pc)
    requires forall u :: 0 <= u < |s.threads| && u != t ==> Apart(c, pc, s.threads[u])
    ensures Inv(c, s.Goto(t, pc))
  {
    var s' := s.Goto(t, pc);
    SharedSame(c, s, s');
    ThreadsKept(c, s, s', t, pc);
    assert forall r :: r in s'.results ==> ResultInv(c, s, r);
  }

  lemma ReturnInv(c: Config, s: State, t: nat, r: Result)
    requires Inv(c, s) && t < |s.threads| && (r.Full? || r.Empty? || r.Contention?)
    ensures Inv(c, s.Return(t, r))
  {
    var s' := s.Return(t, r);
    SharedSame(c, s, s');
    StaysApart(c, s, t, Idle);
    ThreadsKept(c, s, s', t, Idle);
    assert forall q :: q in s.results ==> ResultInv(c, s, q);
  }

  // ---------- a position changes hands ----------

  lemma RecentCells(c: Config, s: State, p: int, q: int)
    requires c.count > 0 && Recent(c, s, p) && Recent(c, s, q) && p != q
    ensures p % c.count != q % c.count
  {
    ModDistinct(p, q, c.count);
  }

  // A claim of `enqueueIndex`, whose cell was released one lap ago.
  lemma ClaimedShared(c: Config, s: State, s': State, data: Data)
    requires SharedInv(c, s) && Unpublished(c, s, s.enqueueIndex)
    requires s' == s.(enqueueIndex := s.enqueueIndex + 1, claimed := s.claimed + [data], threads := s'.threads)
    ensures SharedInv(c, s') && s.enqueueIndex - c.count < s.dequeueIndex
  {
    var e := s.enqueueIndex;
    SameCell(c.count, e - c.count);
    assert Recent(c, s, e - c.count) && PositionInv(c, s, e - c.count);
    forall p | Recent(c, s', p) ensures PositionInv(c, s', p) {
      if p < e { assert Recent(c, s, p) && PositionInv(c, s, p); }
    }
  }

  // What others rely on survives the claim.
  lemma ClaimedThread(c: Config, s: State, s': State, data: Data, pc: Pc)
    requires SharedInv(c, s) && Unpublished(c, s, s.enqueueIndex) && ThreadInv(c, s, pc) && (!c.mp ==> !Produces(pc))
    requires s' == s.(enqueueIndex := s.enqueueIndex + 1, claimed := s.claimed + [data], threads := s'.threads)
    ensures ThreadInv(c, s', pc)
  {
    SameCell(c.count, s.enqueueIndex - c.count);
  }

  lemma ClaimedResults(c: Config, s: State, s': State, data: Data)
    requires SharedInv(c, s) && Unpublished(c, s, s.enqueueIndex) && ResultsInv(c, s)
    requires s' == s.(enqueueIndex := s.enqueueIndex + 1, claimed := s.claimed + [data], threads := s'.threads)
    ensures ResultsInv(c, s')
  {
    forall r | r in s'.results ensures ResultInv(c, s', r) { assert ResultInv(c, s, r); }
  }

  lemma EnqClaimInv(c: Config, s: State, t: nat, fail: bool)
    requires Inv(c, s) && t < |s.threads| && s.threads[t].EnqClaim?
    ensures Inv(c, EnqStep(c, s, t, fail))
  {
    var pc := s.threads[t];
    assert ThreadInv(c, s, pc);
    var s' := EnqStep(c, s, t, fail);
    if !c.mp || (s.enqueueIndex == pc.pos && !fail) {
      var pc' := EnqData(pc.data, pc.pos);
      ClaimedShared(c, s, s', pc.data);
      ClaimedResults(c, s, s', pc.data);
      forall u | 0 <= u < |s.threads| && u != t ensures ThreadInv(c, s', s.threads[u]) && Apart(c, pc', s.threads[u]) {
        assert ThreadInv(c, s, s.threads[u]);
        assert if u < t then Apart(c, s.threads[u], pc) else Apart(c, pc, s.threads[u]);
        ClaimedThread(c, s, s', pc.data, s.threads[u]);
      }
      ThreadsKept(c, s, s', t, pc');
    } else if pc.retry {
      StaysApart(c, s, t, EnqIndex(pc.data, true));
      GotoInv(c, s, t, EnqIndex(pc.data, true));
    } else {
      ReturnInv(c, s, t, Contention);
    }
  }

  lemma DrainedShared(c: Config, s: State, s': State)
    requires SharedInv(c, s) && s.dequeueIndex < s.enqueueIndex && Published(c, s, s.dequeueIndex)
    requires s' == s.(dequeueIndex := s.dequeueIndex + 1, threads := s'.threads)
    ensures SharedInv(c, s')
  {
    forall p | Recent(c, s', p) ensures PositionInv(c, s', p) {
      assert Recent(c, s, p) && PositionInv(c, s, p);
    }
  }

  lemma DeqClaimInv(c: Config, s: State, t: nat, fail: bool)
    requires Inv(c, s) && t < |s.threads| && s.threads[t].DeqClaim?
    ensures Inv(c, DeqStep(c, s, t, fail))
  {
    var pc := s.threads[t];
    assert ThreadInv(c, s, pc);
    var s' := DeqStep(c, s, t, fail);
    if !c.mc || (s.dequeueIndex == pc.pos && !fail) {
      var pc' := DeqData(pc.pos);
      DrainedShared(c, s, s');
      forall u | 0 <= u < |s.threads| && u != t ensures ThreadInv(c, s', s.threads[u]) && Apart(c, pc', s.threads[u]) {
        assert ThreadInv(c, s, s.threads[u]);
        assert if u < t then Apart(c, s.threads[u], pc) else Apart(c, pc, s.threads[u]);
      }
      ThreadsKept(c, s, s', t, pc');
      forall r | r in s'.results ensures ResultInv(c, s', r) { assert ResultInv(c, s, r); }
    } else if pc.retry {
      StaysApart(c, s, t, DeqIndex(true));
      GotoInv(c, s, t, DeqIndex(true));
    } else {
      ReturnInv(c, s, t, Contention);
    }
  }

  // ---------- the owner of a position writes its cell ----------

  // `s'` differs from `s` in the cell of the recent position `p`, and in threads and results.
  predicate CellWritten(c: Config, s: State, s': State, p: int, cell: Cell)
    requires |s.cells| == c.count > 0
  {
    && Recent(c, s, p)
    && s' == s.(cells := s.cells[p % c.count := cell], threads := s'.threads, results := s'.results)
  }

  // The producer of `p` writes data or publishes.
  predicate Filling(c: Config, s: State, p: int, cell: Cell)
    requires |s.cells| == c.count > 0
  {
    && Unpublished(c, s, p) && 0 <= p < |s.claimed|
    && (cell.sequence == p || (cell.sequence == p + 1 && cell.data == s.claimed[p]))
  }

  // The consumer of `p` releases.
  predicate Draining(c: Config, s: State, p: int, cell: Cell)
    requires |s.cells| == c.count > 0
  {
    Published(c, s, p) && cell.sequence == p + c.count && p < s.dequeueIndex
  }

  lemma WrittenShared(c: Config, s: State, s': State, p: int, cell: Cell)
    requires SharedInv(c, s) && CellWritten(c, s, s', p, cell) && (Filling(c, s, p, cell) || Draining(c, s, p, cell))
    ensures SharedInv(c, s')
  {
    forall q | Recent(c, s', q) ensures PositionInv(c, s', q) {
      assert Recent(c, s, q) && PositionInv(c, s, q);
      if q != p { RecentCells(c, s, p, q); }
    }
  }

  // A thread that owns another position, or none, does not notice.
  lemma WrittenThread(c: Config, s: State, s': State, p: int, cell: Cell, pc: Pc)
    requires SharedInv(c, s) && CellWritten(c, s, s', p, cell) && (Filling(c, s, p, cell) || Draining(c, s, p, cell))
    requires ThreadInv(c, s, pc)
    requires Filling(c, s, p, cell) && Fills(pc) ==> pc.pos != p
    requires Draining(c, s, p, cell) && Drains(pc) ==> pc.pos != p
    ensures ThreadInv(c, s', pc)
  {
    assert PositionInv(c, s, p);
    if Fills(pc) || Drains(pc) {
      assert PositionInv(c, s, pc.pos);
      if pc.pos != p { RecentCells(c, s, p, pc.pos); }
    } else if pc.EnqClaim? && pc.pos == s.enqueueIndex {
      SameCell(c.count, pc.pos - c.count);
      if p != pc.pos - c.count { RecentCells(c, s, p, pc.pos - c.count); }
    } else if pc.DeqClaim? && pc.pos == s.dequeueIndex {
      if p != pc.pos { RecentCells(c, s, p, pc.pos); }
    }
  }

  lemma WrittenResult(c: Config, s: State, s': State, p: int, cell: Cell, r: Result)
    requires SharedInv(c, s) && CellWritten(c, s, s', p, cell) && (Filling(c, s, p, cell) || Draining(c, s, p, cell))
    requires ResultInv(c, s, r)
    ensures ResultInv(c, s', r)
  {
    if (r.Enqueued? || r.Dequeued?) && Recent(c, s, r.pos) && r.pos != p { RecentCells(c, s, p, r.pos); }
  }

  lemma WrittenInv(c: Config, s: State, s': State, t: nat, p: int, cell: Cell, pc: Pc)
    requires Inv(c, s) && CellWritten(c, s, s', p, cell)
    requires t < |s.threads| && s'.threads == s.threads[t := pc] && ThreadInv(c, s', pc)
    requires if Fills(s.threads[t]) then Filling(c, s, p, cell) else Drains(s.threads[t]) && Draining(c, s, p, cell)
    requires s.threads[t].pos == p
    requires pc.Idle? || (Fills(s.threads[t]) && Fills(pc) && pc.pos == p)
    requires s'.results == s.results || exists r :: s'.results == s.results + [r] && NewResult(c, s, s', p, r)
    ensures Inv(c, s')
  {
    WrittenShared(c, s, s', p, cell);
    StaysApart(c, s, t, s.threads[t]);
    StaysApart(c, s, t, pc);
    forall u | 0 <= u < |s.threads| && u != t ensures ThreadInv(c, s', s.threads[u]) {
      WrittenThread(c, s, s', p, cell, s.threads[u]);
    }
    ThreadsKept(c, s, s', t, pc);
    forall r | r in s.results ensures ResultInv(c, s', r) { WrittenResult(c, s, s', p, cell, r); }
    if s'.results != s.results {
      var r :| s'.results == s.results + [r] && NewResult(c, s, s', p, r);
      AddResult(c, s, s', p, r);
    }
  }

  predicate NewResult(c: Config, s: State, s': State, p: int, r: Result)
    requires |s.cells| == |s'.cells| == c.count > 0
  {
    && ResultInv(c, s', r) && Recent(c, s, p)
    && ((r.Enqueued? && r.pos == p && Unpublished(c, s, p)) || (r.Dequeued? && r.pos == p && Published(c, s, p)))
  }

  lemma AddResult(c: Config, s: State, s': State, p: int, r: Result)
    requires c.count >= 2 && |s.cells| == |s'.cells| == c.count && ResultsInv(c, s)
    requires s'.results == s.results + [r] && NewResult(c, s, s', p, r)
    requires forall q :: q in s.results ==> ResultInv(c, s', q)
    ensures ResultsInv(c, s')
  {
    forall i | 0 <= i < |s.results| ensures DifferentPositions(s.results[i], r) {
      assert ResultInv(c, s, s.results[i]);
    }
  }

  lemma EnqWriteInv(c: Config, s: State, t: nat, fail: bool)
    requires Inv(c, s) && t < |s.threads| && Fills(s.threads[t])
    ensures Inv(c, EnqStep(c, s, t, fail))
  {
    var pc := s.threads[t];
    assert ThreadInv(c, s, pc);
    var s' := EnqStep(c, s, t, fail);
    if pc.EnqData? {
      var cell := At(c, s.cells, pc.pos).(data := pc.data);
      assert CellWritten(c, s, s', pc.pos, cell);
      WrittenInv(c, s, s', t, pc.pos, cell, EnqPublish(pc.pos));
    } else {
      var cell := At(c, s.cells, pc.pos).(sequence := pc.pos + 1);
      assert CellWritten(c, s, s', pc.pos, cell);
      assert NewResult(c, s, s', pc.pos, Enqueued(pc.pos));
      WrittenInv(c, s, s', t, pc.pos, cell, Idle);
    }
  }

  lemma DeqReleaseInv(c: Config, s: State, t: nat, fail: bool)
    requires Inv(c, s) && t < |s.threads| && s.threads[t].DeqRelease?
    ensures Inv(c, DeqStep(c, s, t, fail))
  {
    var pc := s.threads[t];
    assert ThreadInv(c, s, pc);
    var s' := DeqStep(c, s, t, fail);
    var cell := At(c, s.cells, pc.pos).(sequence := pc.pos + c.count);
    assert CellWritten(c, s, s', pc.pos, cell);
    assert NewResult(c, s, s', pc.pos, Dequeued(pc.pos, pc.data));
    WrittenInv(c, s, s', t, pc.pos, cell, Idle);
  }

  // ---------- what a sequence number tells ----------

  // A position below `enqueueIndex` has been used: its cell is at or past it.
  lemma UsedSequence(c: Config, s: State, p: int)
    requires SharedInv(c, s) && p < s.enqueueIndex
    ensures At(c, s.cells, p).sequence >= p
    ensures p < s.dequeueIndex ==> At(c, s.cells, p).sequence > p
    decreases s.enqueueIndex - p
  {
    if Recent(c, s, p) {
      assert PositionInv(c, s, p);
    } else {
      SameCell(c.count, p);
      UsedSequence(c, s, p + c.count);
    }
  }

  // The next position to claim shares its cell with the one claimed a lap ago.
  lemma FrontierSequence(c: Config, s: State)
    requires SharedInv(c, s)
    ensures var e := s.enqueueIndex; var x := At(c, s.cells, e).sequence;
      x == At(c, s.cells, e - c.count).sequence && x <= e && (x == e <==> Released(c, s, e - c.count))
  {
    SameCell(c.count, s.enqueueIndex - c.count);
    assert PositionInv(c, s, s.enqueueIndex - c.count);
  }

  lemma EnqReadInv(c: Config, s: State, t: nat, fail: bool)
    requires Inv(c, s) && t < |s.threads| && (s.threads[t].EnqIndex? || s.threads[t].EnqSequence?)
    ensures Inv(c, EnqStep(c, s, t, fail))
  {
    var pc := s.threads[t];
    assert ThreadInv(c, s, pc);
    if pc.EnqIndex? {
      StaysApart(c, s, t, EnqSequence(pc.data, pc.retry, s.enqueueIndex));
      GotoInv(c, s, t, EnqSequence(pc.data, pc.retry, s.enqueueIndex));
    } else {
      var difference := At(c, s.cells, pc.pos).sequence - pc.pos;
      if difference == 0 {
        StaysApart(c, s, t, EnqClaim(pc.data, pc.retry, pc.pos));
        GotoInv(c, s, t, EnqClaim(pc.data, pc.retry, pc.pos));
      } else if difference < 0 {
        ReturnInv(c, s, t, Full);
      } else if pc.retry {
        StaysApart(c, s, t, EnqIndex(pc.data, true));
        GotoInv(c, s, t, EnqIndex(pc.data, true));
      } else {
        ReturnInv(c, s, t, Contention);
      }
    }
  }

  lemma DeqSequenceInv(c: Config, s: State, t: nat, fail: bool)
    requires Inv(c, s) && t < |s.threads| && s.threads[t].DeqSequence?
    ensures Inv(c, DeqStep(c, s, t, fail))
  {
    var pc := s.threads[t];
    assert ThreadInv(c, s, pc);
    var difference := At(c, s.cells, pc.pos).sequence - (pc.pos + 1);
    if difference == 0 {
      FrontierSequence(c, s);
      StaysApart(c, s, t, DeqClaim(pc.retry, pc.pos));
      GotoInv(c, s, t, DeqClaim(pc.retry, pc.pos));
    } else if difference < 0 {
      ReturnInv(c, s, t, Empty);
    } else if pc.retry {
      StaysApart(c, s, t, DeqIndex(true));
      GotoInv(c, s, t, DeqIndex(true));
    } else {
      ReturnInv(c, s, t, Contention);
    }
  }

  lemma DeqReadInv(c: Config, s: State, t: nat, fail: bool)
    requires Inv(c, s) && t < |s.threads| && (s.threads[t].DeqIndex? || s.threads[t].DeqData?)
    ensures Inv(c, DeqStep(c, s, t, fail))
  {
    var pc := s.threads[t];
    assert ThreadInv(c, s, pc);
    if pc.DeqIndex? {
      StaysApart(c, s, t, DeqSequence(pc.retry, s.dequeueIndex));
      GotoInv(c, s, t, DeqSequence(pc.retry, s.dequeueIndex));
    } else {
      assert PositionInv(c, s, pc.pos);
      StaysApart(c, s, t, DeqRelease(pc.pos, At(c, s.cells, pc.pos).data));
      GotoInv(c, s, t, DeqRelease(pc.pos, At(c, s.cells, pc.pos).data));
    }
  }

  // ---------- every schedule ----------

  lemma BeginInv(c: Config, s: State, t: nat, cmd: Cmd)
    requires Inv(c, s) && t < |s.threads| && s.threads[t].Idle?
    ensures Inv(c, Begin(c, s, t, cmd))
  {
    if MayBegin(c, s.threads, cmd) {
      if cmd.CallEnqueue? { GotoInv(c, s, t, EnqIndex(cmd.data, cmd.retry)); }
      if cmd.CallDequeue? { GotoInv(c, s, t, DeqIndex(cmd.retry)); }
    }
  }

  lemma StepInv(c: Config, s: State, a: Action)
    requires Inv(c, s)
    ensures Inv(c, Step(c, s, a)) && |Step(c, s, a).threads| == |s.threads|
  {
    if a.tid < |s.threads| {
      var pc := s.threads[a.tid];
      if pc.Idle? { BeginInv(c, s, a.tid, a.cmd); }
      else if Fills(pc) { EnqWriteInv(c, s, a.tid, a.cmd.Fail?); }
      else if pc.EnqClaim? { EnqClaimInv(c, s, a.tid, a.cmd.Fail?); }
      else if Produces(pc) { EnqReadInv(c, s, a.tid, a.cmd.Fail?); }
      else if pc.DeqClaim? { DeqClaimInv(c, s, a.tid, a.cmd.Fail?); }
      else if pc.DeqRelease? { DeqReleaseInv(c, s, a.tid, a.cmd.Fail?); }
      else if pc.DeqSequence? { DeqSequenceInv(c, s, a.tid, a.cmd.Fail?); }
      else { DeqReadInv(c, s, a.tid, a.cmd.Fail?); }
    }
  }

  lemma StartInv(c: Config, threads: nat)
    requires c.count >= 2 && c.width.Unbounded?
    ensures Inv(c, Start(c, threads))
  {
    var s := Start(c, threads);
    forall p | Recent(c, s, p) ensures PositionInv(c, s, p) {
      ModUnique(p, c.count, -1, p + c.count);
      assert s.cells[p + c.count] == Cell(p + c.count, 0);
    }
  }

  lemma {:induction false} ExecInv(c: Config, threads: nat, schedule: seq<Action>)
    requires c.count >= 2 && c.width.Unbounded?
    ensures Inv(c, Exec(c, Start(c, threads), schedule))
    ensures |Exec(c, Start(c, threads), schedule).threads| == threads
    decreases |schedule|
  {
    if schedule == [] {
      StartInv(c, threads);
    } else {
      ExecInv(c, threads, schedule[..|schedule| - 1]);
      StepInv(c, Exec(c, Start(c, threads), schedule[..|schedule| - 1]), schedule[|schedule| - 1]);
    }
  }
}
