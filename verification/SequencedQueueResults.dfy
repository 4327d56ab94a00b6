/** What callers of the queue may rely on, for every schedule of any number of threads. */
module SequencedQueueResults {
  import opened RingWords
  import opened SequencedQueue
  import opened SequencedQueueSafety

  function Run(c: Config, threads: nat, schedule: seq<Action>): State {
    Exec(c, Start(c, threads), schedule)
  }

  /** The values claimed by producers and not yet by consumers. */
  function Pending(s: State): seq<Data> {
    if 0 <= s.dequeueIndex <= |s.claimed| then s.claimed[s.dequeueIndex..] else []
  }

  /** Two threads that own a cell, to write or to read its data, never own the same one. */
  lemma OwnersApart(c: Config, threads: nat, schedule: seq<Action>, t: nat, u: nat)
    requires c.count >= 2 && c.width.Unbounded? && t < threads && u < threads && t != u
    ensures var s := Run(c, threads, schedule);
      |s.threads| == threads &&
      var p, q := s.threads[t], s.threads[u];
      (Fills(p) || Drains(p)) && (Fills(q) || Drains(q)) ==> p.pos % c.count != q.pos % c.count
  {
    ExecInv(c, threads, schedule);
    var s := Run(c, threads, schedule);
    var p, q := s.threads[t], s.threads[u];
    assert ThreadInv(c, s, p) && ThreadInv(c, s, q);
    assert if t < u then Apart(c, p, q) else Apart(c, q, p);
    if (Fills(p) || Drains(p)) && (Fills(q) || Drains(q)) {
      if p.pos != q.pos { RecentCells(c, s, p.pos, q.pos); }
    }
  }

  /** A dequeue that returns the value of position p returns what the producer of p enqueued,
      and no two calls report the same position. */
  lemma DequeuesWhatWasEnqueued(c: Config, threads: nat, schedule: seq<Action>, i: nat, j: nat)
    requires c.count >= 2 && c.width.Unbounded?
    ensures var s := Run(c, threads, schedule);
      i < |s.results| && s.results[i].Dequeued? ==>
        0 <= s.results[i].pos < s.dequeueIndex <= |s.claimed| && s.results[i].data == s.claimed[s.results[i].pos]
    ensures var s := Run(c, threads, schedule);
      i < j < |s.results| ==> DifferentPositions(s.results[i], s.results[j])
  {
    ExecInv(c, threads, schedule);
    var s := Run(c, threads, schedule);
    if i < |s.results| { assert ResultInv(c, s, s.results[i]); }
  }

  // ---------- the abstract queue ----------

  /** One step appends the value of a claiming producer, removes the oldest value for a
      claiming consumer, or leaves the abstract queue alone; it never holds more than
      `count` values. */
  lemma QueueRefines(c: Config, threads: nat, schedule: seq<Action>, a: Action)
    requires c.count >= 2 && c.width.Unbounded?
    ensures var s := Run(c, threads, schedule); var s' := Run(c, threads, schedule + [a]);
      && |Pending(s')| <= c.count
      && (if a.tid < |s.threads| && s.threads[a.tid].EnqClaim? && s'.threads[a.tid].EnqData? then
            Pending(s') == Pending(s) + [s.threads[a.tid].data] && s'.threads[a.tid].pos == s.enqueueIndex
          else if a.tid < |s.threads| && s.threads[a.tid].DeqClaim? && s'.threads[a.tid].DeqData? then
            Pending(s) != [] && Pending(s') == Pending(s)[1..] && s'.threads[a.tid].pos == s.dequeueIndex
          else
            Pending(s') == Pending(s))
  {
    var s := Run(c, threads, schedule);
    ExecInv(c, threads, schedule);
    ExecInv(c, threads, schedule + [a]);
    assert (schedule + [a])[..|schedule|] == schedule;
    var s' := Step(c, s, a);
    if a.tid < |s.threads| {
      assert ThreadInv(c, s, s.threads[a.tid]);
      PendingStep(c, s, a);
    }
  }

  lemma PendingStep(c: Config, s: State, a: Action)
    requires Inv(c, s) && a.tid < |s.threads| && ThreadInv(c, s, s.threads[a.tid])
    ensures var s' := Step(c, s, a); var pc := s.threads[a.tid];
      if pc.EnqClaim? && s'.threads[a.tid].EnqData? then
        Pending(s') == Pending(s) + [pc.data] && s'.threads[a.tid].pos == s.enqueueIndex
      else if pc.DeqClaim? && s'.threads[a.tid].DeqData? then
        Pending(s) != [] && Pending(s') == Pending(s)[1..] && s'.threads[a.tid].pos == s.dequeueIndex
      else
        Pending(s') == Pending(s)
  {
    var s' := Step(c, s, a);
    var pc := s.threads[a.tid];
    if pc.EnqClaim? && s'.threads[a.tid].EnqData? {
      assert s'.claimed == s.claimed + [pc.data];
      assert s'.claimed[s.dequeueIndex..] == s.claimed[s.dequeueIndex..] + [pc.data];
    } else if pc.DeqClaim? && s'.threads[a.tid].DeqData? {
      assert s.claimed[s.dequeueIndex..][1..] == s.claimed[s.dequeueIndex + 1..];
    } else {
      assert s'.claimed == s.claimed && s'.dequeueIndex == s.dequeueIndex;
    }
  }

  // ---------- full, empty, contention ----------

  /** try_enqueue answers Full exactly when, at its load of the sequence number, its position
      is still the next one to claim and the position a lap before is not released. */
  lemma FullExactly(c: Config, threads: nat, schedule: seq<Action>, a: Action)
    requires c.count >= 2 && c.width.Unbounded?
    ensures var s := Run(c, threads, schedule); var s' := Run(c, threads, schedule + [a]);
      a.tid < |s.threads| && s.threads[a.tid].EnqSequence? ==>
        |s.cells| == c.count &&
        var pos := s.threads[a.tid].pos;
        && (s'.results == s.results + [Full] <==> pos == s.enqueueIndex && !Released(c, s, pos - c.count))
        && (s'.threads[a.tid].EnqClaim? <==> At(c, s.cells, pos).sequence == pos)
  {
    ExecInv(c, threads, schedule);
    assert (schedule + [a])[..|schedule|] == schedule;
    var s := Run(c, threads, schedule);
    if a.tid < |s.threads| && s.threads[a.tid].EnqSequence? {
      assert ThreadInv(c, s, s.threads[a.tid]);
      var pos := s.threads[a.tid].pos;
      FrontierSequence(c, s);
      if pos < s.enqueueIndex { UsedSequence(c, s, pos); }
      assert s.results + [Full] != s.results + [Contention] by {
        assert (s.results + [Full])[|s.results|] == Full; assert (s.results + [Contention])[|s.results|] == Contention;
      }
      assert s.results != s.results + [Full] by { assert |s.results| != |s.results + [Full]|; }
    }
  }

  /** try_dequeue answers Empty exactly when, at its load of the sequence number, its position
      is still the next one to take and is not published. */
  lemma EmptyExactly(c: Config, threads: nat, schedule: seq<Action>, a: Action)
    requires c.count >= 2 && c.width.Unbounded?
    ensures var s := Run(c, threads, schedule); var s' := Run(c, threads, schedule + [a]);
      a.tid < |s.threads| && s.threads[a.tid].DeqSequence? ==>
        |s.cells| == c.count &&
        var pos := s.threads[a.tid].pos;
        && (s'.results == s.results + [Empty] <==>
             pos == s.dequeueIndex && !(pos < s.enqueueIndex && Published(c, s, pos)))
        && (s'.threads[a.tid].DeqClaim? <==> pos < s.enqueueIndex && Published(c, s, pos))
  {
    ExecInv(c, threads, schedule);
    assert (schedule + [a])[..|schedule|] == schedule;
    var s := Run(c, threads, schedule);
    if a.tid < |s.threads| && s.threads[a.tid].DeqSequence? {
      assert ThreadInv(c, s, s.threads[a.tid]);
      var pos := s.threads[a.tid].pos;
      FrontierSequence(c, s);
      if pos < s.dequeueIndex { UsedSequence(c, s, pos); }
      if Recent(c, s, pos) { assert PositionInv(c, s, pos); }
      assert s.results + [Empty] != s.results + [Contention] by {
        assert (s.results + [Empty])[|s.results|] == Empty;
        assert (s.results + [Contention])[|s.results|] == Contention;
      }
      assert s.results != s.results + [Empty] by { assert |s.results| != |s.results + [Empty]|; }
    }
  }

  // ---------- nothing lost ----------

  predicate FilledBy(s: State, p: int, t: nat) {
    t < |s.threads| && Fills(s.threads[t]) && s.threads[t].pos == p
  }

  predicate DrainedBy(s: State, p: int, t: nat) {
    t < |s.threads| && Drains(s.threads[t]) && s.threads[t].pos == p
  }

  predicate DeliveredAt(s: State, p: int, i: nat) {
    i < |s.results| && s.results[i].Dequeued? && s.results[i].pos == p
  }

  ghost predicate FillAccounted(s: State, p: int) {
    Enqueued(p) in s.results || exists t: nat :: FilledBy(s, p, t)
  }

  ghost predicate DrainAccounted(s: State, p: int) {
    (exists i: nat :: DeliveredAt(s, p, i)) || exists t: nat :: DrainedBy(s, p, t)
  }

  // Every claim is in progress or was reported.
  ghost predicate Accounted(s: State) {
    && (forall p :: 0 <= p < s.enqueueIndex ==> FillAccounted(s, p))
    && (forall p :: 0 <= p < s.dequeueIndex ==> DrainAccounted(s, p))
  }

  // What a step does to the claims: at most one thread's claim changes hands.
  predicate Carries(s: State, s': State, t: nat)
    requires t < |s.threads|
  {
    var pc := s.threads[t];
    && |s'.threads| == |s.threads| && s.results <= s'.results
    && (forall u: nat :: u < |s.threads| && u != t ==> s'.threads[u] == s.threads[u])
    && (Fills(pc) ==> FilledBy(s', pc.pos, t) || Enqueued(pc.pos) in s'.results)
    && (Drains(pc) ==> DrainedBy(s', pc.pos, t) || DeliveredAt(s', pc.pos, |s.results|))
    && (s'.enqueueIndex == s.enqueueIndex || (s'.enqueueIndex == s.enqueueIndex + 1 && FilledBy(s', s.enqueueIndex, t)))
    && (s'.dequeueIndex == s.dequeueIndex
      || (s'.dequeueIndex == s.dequeueIndex + 1 && DrainedBy(s', s.dequeueIndex, t)))
  }

  lemma EnqCarries(c: Config, s: State, t: nat, fail: bool)
    requires Inv(c, s) && t < |s.threads| && Produces(s.threads[t])
    ensures Carries(s, EnqStep(c, s, t, fail), t)
  {
    var pc, s' := s.threads[t], EnqStep(c, s, t, fail);
    assert ThreadInv(c, s, pc);
    if pc.EnqPublish? { assert s'.results[|s.results|] == Enqueued(pc.pos); }
  }

  lemma DeqCarries(c: Config, s: State, t: nat, fail: bool)
    requires Inv(c, s) && t < |s.threads| && Consumes(s.threads[t])
    ensures Carries(s, DeqStep(c, s, t, fail), t)
  {
    var pc, s' := s.threads[t], DeqStep(c, s, t, fail);
    assert ThreadInv(c, s, pc);
    if pc.DeqRelease? { assert s'.results[|s.results|] == Dequeued(pc.pos, pc.data); }
  }

  lemma StepCarries(c: Config, s: State, a: Action)
    requires Inv(c, s) && a.tid < |s.threads|
    ensures Carries(s, Step(c, s, a), a.tid)
  {
    var pc := s.threads[a.tid];
    if Produces(pc) { EnqCarries(c, s, a.tid, a.cmd.Fail?); }
    if Consumes(pc) { DeqCarries(c, s, a.tid, a.cmd.Fail?); }
  }

  lemma CarriedFill(s: State, s': State, t: nat, p: int)
    requires t < |s.threads| && Carries(s, s', t) && 0 <= p < s'.enqueueIndex && Accounted(s)
    ensures FillAccounted(s', p)
  {
    if p < s.enqueueIndex {
      assert FillAccounted(s, p);
      if Enqueued(p) !in s.results {
        var u: nat :| FilledBy(s, p, u);
        if u != t { assert FilledBy(s', p, u); }
      }
    }
  }

  lemma CarriedDrain(s: State, s': State, t: nat, p: int)
    requires t < |s.threads| && Carries(s, s', t) && 0 <= p < s'.dequeueIndex && Accounted(s)
    ensures DrainAccounted(s', p)
  {
    if p < s.dequeueIndex {
      assert DrainAccounted(s, p);
      if i: nat :| DeliveredAt(s, p, i) {
        assert DeliveredAt(s', p, i);
      } else {
        var u: nat :| DrainedBy(s, p, u);
        if u != t { assert DrainedBy(s', p, u); }
      }
    }
  }

  lemma StepAccounted(c: Config, s: State, a: Action)
    requires Inv(c, s) && Accounted(s)
    ensures Accounted(Step(c, s, a))
  {
    if a.tid < |s.threads| {
      var s' := Step(c, s, a);
      StepCarries(c, s, a);
      forall p | 0 <= p < s'.enqueueIndex ensures FillAccounted(s', p) { CarriedFill(s, s', a.tid, p); }
      forall p | 0 <= p < s'.dequeueIndex ensures DrainAccounted(s', p) { CarriedDrain(s, s', a.tid, p); }
    }
  }

  lemma {:induction false} RunAccounted(c: Config, threads: nat, schedule: seq<Action>)
    requires c.count >= 2 && c.width.Unbounded?
    ensures Accounted(Run(c, threads, schedule))
    decreases |schedule|
  {
    if schedule != [] {
      var before := schedule[..|schedule| - 1];
      RunAccounted(c, threads, before);
      ExecInv(c, threads, before);
      StepAccounted(c, Run(c, threads, before), schedule[|schedule| - 1]);
    }
  }

  lemma QuietAccounted(c: Config, s: State, p: int)
    requires Inv(c, s) && Accounted(s) && forall pc :: pc in s.threads ==> pc.Idle?
    ensures 0 <= p < s.enqueueIndex ==> Enqueued(p) in s.results
    ensures 0 <= p < s.dequeueIndex ==> p < |s.claimed| && Dequeued(p, s.claimed[p]) in s.results
  {
    assert forall t: nat :: t < |s.threads| ==> s.threads[t] in s.threads;
    assert forall t: nat :: !FilledBy(s, p, t) && !DrainedBy(s, p, t);
    if 0 <= p < s.enqueueIndex { assert FillAccounted(s, p); }
    if 0 <= p < s.dequeueIndex {
      assert DrainAccounted(s, p);
      var i: nat :| DeliveredAt(s, p, i);
      assert ResultInv(c, s, s.results[i]);
    }
  }

  /** When every call has returned, every position below the enqueue index was reported by an
      enqueue, and every one below the dequeue index was delivered with its own value. */
  lemma NothingLost(c: Config, threads: nat, schedule: seq<Action>, p: int)
    requires c.count >= 2 && c.width.Unbounded?
    requires forall pc :: pc in Run(c, threads, schedule).threads ==> pc.Idle?
    ensures var s := Run(c, threads, schedule);
      && (0 <= p < s.enqueueIndex ==> Enqueued(p) in s.results)
      && (0 <= p < s.dequeueIndex ==> p < |s.claimed| && Dequeued(p, s.claimed[p]) in s.results)
  {
    ExecInv(c, threads, schedule);
    RunAccounted(c, threads, schedule);
    QuietAccounted(c, Run(c, threads, schedule), p);
  }
}
