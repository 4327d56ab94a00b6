/** What a short enqueue and an empty-handed dequeue say about the ring, exactly. */
module LockFreeRingPublished {
  import opened RingWords
  import opened LockFreeRing
  import opened LockFreeRingSafety

  // ---------- who is ahead of the published tail ----------

  // A producer that has loaded or computed a tail of its own.
  predicate HasTail(pc: Pc) {
    Enqueues(pc) && !pc.EnqTail?
  }

  function OwnTail(pc: Pc): int
    requires HasTail(pc)
  {
    if pc.UpdateRead? || pc.UpdateCas? then pc.neu else pc.tail
  }

  predicate Holds(pc: Pc, frontier: int) {
    HasTail(pc) && OwnTail(pc) == frontier
  }

  /** Some producer inside a call has advanced past the published tail. */
  ghost predicate InFlight(s: State) {
    exists t :: 0 <= t < |s.threads| && Unpublished(s, s.threads[t])
  }

  predicate Unpublished(s: State, pc: Pc) {
    HasTail(pc) && s.tail < OwnTail(pc)
  }

  // The frontier is published, or held by a producer that is still inside its call.
  ghost predicate FrontierHeld(s: State) {
    s.tail == |s.written| || exists t :: 0 <= t < |s.threads| && Holds(s.threads[t], |s.written|)
  }

  // What a step of thread `t` does for the frontier.
  predicate Carries(s: State, s': State, t: nat) {
    && t < |s.threads| == |s'.threads|
    && (|s'.written| > |s.written| || Holds(s.threads[t], |s.written|) ==>
          s'.tail == |s'.written| || Holds(s'.threads[t], |s'.written|))
  }

  lemma SpCarries(c: Config, s: State, t: nat)
    requires Ready(c, s, t)
    requires s.threads[t].SpHead? || s.threads[t].SpPtr? || s.threads[t].SpIdx? || s.threads[t].SpPublish?
    ensures Carries(s, SpStep(c, s, t), t)
  {
    SpInv(c, s, t);
  }

  lemma MpCarries(c: Config, s: State, t: nat)
    requires Ready(c, s, t)
    requires s.threads[t].MpHead? || s.threads[t].MpPtr? || s.threads[t].MpIdx? || s.threads[t].MpReload?
      || s.threads[t].MpCas?
    ensures Carries(s, MpStep(c, s, t), t)
  {
    SlotIdx(c, s, s.threads[t].tail);
    if s.threads[t].MpCas? && At(c, s.ring, s.threads[t].tail) == s.threads[t].seen { WritesAtFrontier(c, s, t); }
  }

  lemma UpdateCarries(c: Config, s: State, t: nat)
    requires Ready(c, s, t) && (s.threads[t].UpdateRead? || s.threads[t].UpdateCas?)
    ensures Carries(s, UpdateStep(c, s, t), t)
  {
  }

  lemma DeqCarries(c: Config, s: State, t: nat)
    requires Ready(c, s, t) && Dequeues(s.threads[t]) && !s.threads[t].UpdateRead? && !s.threads[t].UpdateCas?
    ensures Carries(s, DeqStep(c, s, t), t)
  {
  }

  lemma StepCarries(c: Config, s: State, a: Action)
    requires Ready(c, s, a.tid)
    ensures Carries(s, Step(c, s, a), a.tid)
  {
    var pc := s.threads[a.tid];
    if pc.SpHead? || pc.SpPtr? || pc.SpIdx? || pc.SpPublish? {
      SpCarries(c, s, a.tid);
      assert Step(c, s, a) == SpStep(c, s, a.tid);
    } else if pc.UpdateRead? || pc.UpdateCas? {
      UpdateCarries(c, s, a.tid);
    } else if Dequeues(pc) {
      DeqCarries(c, s, a.tid);
    } else if pc.MpHead? || pc.MpPtr? || pc.MpIdx? || pc.MpReload? || pc.MpCas? {
      MpCarries(c, s, a.tid);
      assert Step(c, s, a) == MpStep(c, s, a.tid);
    }
  }

  lemma OthersStay(c: Config, s: State, a: Action, t: nat)
    requires Inv(c, s) && t < |s.threads| && t != a.tid
    ensures |Step(c, s, a).threads| == |s.threads| && Step(c, s, a).threads[t] == s.threads[t]
  {
    if a.tid < |s.threads| && !s.threads[a.tid].Idle? {
      ReadyInv(c, s, a.tid);
      ThreadStepInv(c, s, a);
    }
  }

  lemma FrontierHeldStep(c: Config, s: State, a: Action)
    requires Inv(c, s) && FrontierHeld(s)
    ensures FrontierHeld(Step(c, s, a))
  {
    var s' := Step(c, s, a);
    InvStep(c, s, a);
    if a.tid < |s.threads| {
      ReadyInv(c, s, a.tid);
      StepCarries(c, s, a);
      if |s'.written| == |s.written| && s.tail != |s.written| {
        var t :| 0 <= t < |s.threads| && Holds(s.threads[t], |s.written|);
        if t != a.tid { OthersStay(c, s, a, t); }
      }
    }
  }

  lemma {:induction false} ExecFrontierHeld(c: Config, threads: nat, schedule: seq<Action>)
    requires c.size > 0 && c.width.Unbounded?
    ensures FrontierHeld(Exec(c, Start(c, threads), schedule))
    decreases |schedule|
  {
    if schedule != [] {
      var before := schedule[..|schedule| - 1];
      ExecFrontierHeld(c, threads, before);
      ExecInv(c, threads, before);
      FrontierHeldStep(c, Exec(c, Start(c, threads), before), schedule[|schedule| - 1]);
    }
  }

  /** The published tail lags the write frontier exactly while some producer inside a call has
      advanced past it; so when no enqueue is in progress everything written is published. */
  lemma LagsWhileInFlight(c: Config, threads: nat, schedule: seq<Action>)
    requires c.size > 0 && c.width.Unbounded?
    ensures var s := Exec(c, Start(c, threads), schedule);
      && (s.tail < |s.written| <==> InFlight(s))
      && ((forall t :: 0 <= t < |s.threads| ==> !Enqueues(s.threads[t])) ==> s.tail == |s.written|)
  {
    var s := Exec(c, Start(c, threads), schedule);
    ExecInv(c, threads, schedule);
    ExecFrontierHeld(c, threads, schedule);
    forall t | 0 <= t < |s.threads| && HasTail(s.threads[t]) ensures OwnTail(s.threads[t]) <= |s.written| {
      assert PcInv(c, s, s.threads[t]);
    }
    if s.tail < |s.written| {
      var t :| 0 <= t < |s.threads| && Holds(s.threads[t], |s.written|);
      assert Unpublished(s, s.threads[t]);
    }
  }

  /** A dequeue that wanted something and returns nothing does so from a ring whose published
      elements are all taken; the ring is then empty, unpublished elements included, exactly
      when no producer inside a call has advanced past the published tail. */
  lemma NothingExactly(c: Config, threads: nat, schedule: seq<Action>, a: Action)
    requires c.size > 0 && c.width.Unbounded?
    requires var s := Exec(c, Start(c, threads), schedule); var s' := Step(c, s, a);
      |s'.results| > |s.results| && s'.results[|s.results|].Nothing? && s'.results[|s.results|].want > 0
    ensures var s' := Step(c, Exec(c, Start(c, threads), schedule), a);
      s'.head == s'.tail && (s'.head == |s'.written| <==> !InFlight(s'))
  {
    var s := Exec(c, Start(c, threads), schedule);
    var run := schedule + [a];
    assert run[..|run| - 1] == schedule;
    assert Exec(c, Start(c, threads), run) == Step(c, s, a);
    LagsWhileInFlight(c, threads, run);
    ExecInv(c, threads, run);
    ExecInv(c, threads, schedule);
    assert ResultInv(c, Step(c, s, a).written, Step(c, s, a).results[|s.results|]);
    DrainedNow(c, s, a);
  }

  // `drained` is recorded in the state that the call returns in.
  lemma DrainedNow(c: Config, s: State, a: Action)
    requires Inv(c, s) && |Step(c, s, a).results| > |s.results| && Step(c, s, a).results[|s.results|].Nothing?
    ensures Step(c, s, a).results[|s.results|].drained <==> Step(c, s, a).head == Step(c, s, a).tail
  {
    var pc := s.threads[a.tid];
    if pc.UpdateRead? || pc.UpdateCas? {
      assert Step(c, s, a) == UpdateStep(c, s, a.tid);
    } else if Dequeues(pc) {
      assert Step(c, s, a) == DeqStep(c, s, a.tid);
    }
  }

  // ---------- an empty-handed single consumer ----------

  // A single consumer never scans from below the head it knows.
  predicate Level(pc: Pc) {
    && (pc.Scan? ==> pc.head <= pc.tail)
    && ((pc.UpdateRead? || pc.UpdateCas?) && pc.after.AfterScan? ==> pc.after.head <= pc.after.stop)
  }

  predicate LevelResult(r: Result) {
    r.Nothing? ==> r.head <= r.stop
  }

  ghost predicate AllLevel(s: State) {
    && (forall t :: 0 <= t < |s.threads| ==> Level(s.threads[t]))
    && (forall r :: 0 <= r < |s.results| ==> LevelResult(s.results[r]))
  }

  lemma UpdateLevel(c: Config, s: State, t: nat)
    requires Ready(c, s, t) && Level(s.threads[t]) && (s.threads[t].UpdateRead? || s.threads[t].UpdateCas?)
    ensures var s' := UpdateStep(c, s, t);
      && s'.threads == s.threads[t := s'.threads[t]] && Level(s'.threads[t])
      && (s'.results == s.results || (exists r :: s'.results == s.results + [r] && LevelResult(r)))
  {
  }

  lemma DeqLevel(c: Config, s: State, t: nat)
    requires Ready(c, s, t) && c.sc && Level(s.threads[t])
    requires Dequeues(s.threads[t]) && !s.threads[t].UpdateRead? && !s.threads[t].UpdateCas?
    ensures var s' := DeqStep(c, s, t);
      && s'.threads == s.threads[t := s'.threads[t]] && Level(s'.threads[t])
      && (s'.results == s.results || (exists r :: s'.results == s.results + [r] && LevelResult(r)))
  {
  }

  lemma EnqLevel(c: Config, s: State, a: Action)
    requires Ready(c, s, a.tid) && Level(s.threads[a.tid]) && !Dequeues(s.threads[a.tid])
    requires !s.threads[a.tid].UpdateRead? && !s.threads[a.tid].UpdateCas?
    ensures var s' := Step(c, s, a);
      && s'.threads == s.threads[a.tid := s'.threads[a.tid]] && Level(s'.threads[a.tid])
      && (s'.results == s.results || (exists r :: s'.results == s.results + [r] && LevelResult(r)))
  {
  }

  lemma LevelStep(c: Config, s: State, a: Action)
    requires Inv(c, s) && c.sc && AllLevel(s)
    ensures AllLevel(Step(c, s, a))
  {
    if a.tid < |s.threads| {
      var pc := s.threads[a.tid];
      ReadyInv(c, s, a.tid);
      if pc.UpdateRead? || pc.UpdateCas? {
        UpdateLevel(c, s, a.tid);
        assert Step(c, s, a) == UpdateStep(c, s, a.tid);
      } else if Dequeues(pc) {
        DeqLevel(c, s, a.tid);
        assert Step(c, s, a) == DeqStep(c, s, a.tid);
      } else {
        EnqLevel(c, s, a);
      }
    }
  }

  lemma {:induction false} ExecLevel(c: Config, threads: nat, schedule: seq<Action>)
    requires c.size > 0 && c.width.Unbounded? && c.sc
    ensures AllLevel(Exec(c, Start(c, threads), schedule))
    decreases |schedule|
  {
    if schedule != [] {
      var before := schedule[..|schedule| - 1];
      ExecLevel(c, threads, before);
      ExecInv(c, threads, before);
      LevelStep(c, Exec(c, Start(c, threads), before), schedule[|schedule| - 1]);
    }
  }

  /** A single consumer that wanted something and got nothing, from a ring with several
      producers, did scan an empty ring: nothing was written and not taken when it stopped. */
  lemma SingleConsumerSawEmpty(c: Config, threads: nat, schedule: seq<Action>, r: nat)
    requires c.size > 0 && c.width.Unbounded? && c.sc && !c.sp
    requires r < |Exec(c, Start(c, threads), schedule).results|
    ensures var result := Exec(c, Start(c, threads), schedule).results[r];
      result.Nothing? && result.want > 0 ==> result.empty
  {
    ExecInv(c, threads, schedule);
    ExecLevel(c, threads, schedule);
    assert ResultInv(c, Exec(c, Start(c, threads), schedule).written, Exec(c, Start(c, threads), schedule).results[r]);
    assert LevelResult(Exec(c, Start(c, threads), schedule).results[r]);
  }

  // ---------- a short count from a single producer ----------

  predicate Full(c: Config, s: State) {
    |s.written| == s.head + c.size
  }

  // The state after the first `k` actions of `call`.
  function StateAfter(c: Config, s: State, call: seq<Action>, k: nat): State
    requires k <= |call|
  {
    Exec(c, s, call[..k])
  }

  lemma NextState(c: Config, s: State, call: seq<Action>, k: nat)
    requires k < |call|
    ensures StateAfter(c, s, call, k + 1) == Step(c, StateAfter(c, s, call, k), call[k])
  {
    assert call[..k + 1][..k] == call[..k];
  }

  lemma {:induction false} ReachInv(c: Config, s: State, call: seq<Action>, k: nat)
    requires Inv(c, s) && k <= |call|
    ensures Inv(c, StateAfter(c, s, call, k))
  {
    if k > 0 {
      ReachInv(c, s, call, k - 1);
      NextState(c, s, call, k - 1);
      InvStep(c, StateAfter(c, s, call, k - 1), call[k - 1]);
    }
  }

  lemma {:induction false} HeadGrows(c: Config, s: State, call: seq<Action>, j: nat, k: nat)
    requires Inv(c, s) && j <= k <= |call|
    ensures StateAfter(c, s, call, j).head <= StateAfter(c, s, call, k).head
  {
    if j < k {
      HeadGrows(c, s, call, j, k - 1);
      ReachInv(c, s, call, k - 1);
      NextState(c, s, call, k - 1);
      InvStep(c, StateAfter(c, s, call, k - 1), call[k - 1]);
    }
  }

  // Where a single producer is in its call: the head is loaded by the step after state
  // `load`, and state `stored` is the first with all slots stored.
  predicate Phase(pc: Pc, k: nat, load: nat, stored: nat) {
    if k < load then pc.EnqTail? || pc.SpHead?
    else if k == load then pc.SpHead?
    else if k < stored then pc.SpPtr? || pc.SpIdx?
    else pc.SpPublish?
  }

  /** The states of one call of thread `t` in a single-producer ring, from the state it begins
      in to the one before it publishes. */
  ghost predicate IsCall(c: Config, s: State, call: seq<Action>, t: nat, load: nat, stored: nat) {
    && c.sp && load < stored <= |call|
    && forall k :: 0 <= k <= |call| ==>
         && t < |StateAfter(c, s, call, k).threads|
         && Phase(StateAfter(c, s, call, k).threads[t], k, load, stored)
  }

  // How many slots are stored in phase `k`.
  function Stored(pc: Pc): nat {
    if pc.SpPtr? || pc.SpIdx? then pc.i else if pc.SpPublish? then pc.actual else 0
  }

  // What one step does to a producer's call; other threads leave the frontier alone.
  lemma CallStep(c: Config, s: State, a: Action, t: nat)
    requires Inv(c, s) && c.sp && t < |s.threads| && Enqueues(s.threads[t])
    requires t < |Step(c, s, a).threads| && Enqueues(Step(c, s, a).threads[t])
    ensures var pc, pc' := s.threads[t], Step(c, s, a).threads[t];
      && |Step(c, s, a).written| - Stored(pc') == |s.written| - Stored(pc)
      && (Writing(pc) && Writing(pc') ==> pc'.actual == pc.actual && pc'.elems == pc.elems)
      && (pc.SpHead? && Writing(pc') ==>
           pc'.elems == pc.elems && pc'.actual == Min(s.head + c.size - |s.written|, |pc.elems|))
  {
    if a.tid != t {
      OthersStay(c, s, a, t);
      OthersDoNotWrite(c, s, a, t);
    } else {
      assert PcInv(c, s, s.threads[t]);
    }
  }

  lemma OthersDoNotWrite(c: Config, s: State, a: Action, t: nat)
    requires Inv(c, s) && c.sp && t < |s.threads| && Enqueues(s.threads[t]) && a.tid != t
    ensures Step(c, s, a).written == s.written
  {
    if a.tid < |s.threads| && !s.threads[a.tid].Idle? {
      ReadyInv(c, s, a.tid);
      ThreadStepInv(c, s, a);
    }
  }

  // The frontier during a call: as it was, and ahead by the slots stored.
  lemma {:induction false} CallFrontier(c: Config, s: State, call: seq<Action>, t: nat, load: nat, stored: nat, k: nat)
    requires Inv(c, s) && IsCall(c, s, call, t, load, stored) && k <= |call|
    ensures |StateAfter(c, s, call, k).written| == |s.written| + Stored(StateAfter(c, s, call, k).threads[t])
  {
    if k > 0 {
      CallFrontier(c, s, call, t, load, stored, k - 1);
      ReachInv(c, s, call, k - 1);
      NextState(c, s, call, k - 1);
      CallStep(c, StateAfter(c, s, call, k - 1), call[k - 1], t);
    }
  }

  // The number of elements to store is fixed by the load of the head.
  lemma CallActualStep(c: Config, s: State, call: seq<Action>, t: nat, load: nat, stored: nat, k: nat)
    requires Inv(c, s) && IsCall(c, s, call, t, load, stored) && load < k < |call|
    ensures var pc, pc' := StateAfter(c, s, call, k).threads[t], StateAfter(c, s, call, k + 1).threads[t];
      Writing(pc) && Writing(pc') && pc'.elems == pc.elems && pc'.actual == pc.actual
  {
    ReachInv(c, s, call, k);
    NextState(c, s, call, k);
    CallStep(c, StateAfter(c, s, call, k), call[k], t);
  }

  lemma {:induction false} CallActual(c: Config, s: State, call: seq<Action>, t: nat, load: nat, stored: nat, k: nat)
    requires Inv(c, s) && IsCall(c, s, call, t, load, stored) && load < k <= |call|
    ensures var pc, pc1 := StateAfter(c, s, call, k).threads[t], StateAfter(c, s, call, load + 1).threads[t];
      Writing(pc) && Writing(pc1) && pc.elems == pc1.elems && pc.actual == pc1.actual
  {
    if k > load + 1 {
      CallActual(c, s, call, t, load, stored, k - 1);
      CallActualStep(c, s, call, t, load, stored, k - 1);
    }
  }

  lemma Loaded(c: Config, s: State, call: seq<Action>, t: nat, load: nat, stored: nat)
    requires Inv(c, s) && IsCall(c, s, call, t, load, stored)
    ensures var before, pc := StateAfter(c, s, call, load), StateAfter(c, s, call, load + 1).threads[t];
      Writing(pc) && pc.actual == Min(before.head + c.size - |s.written|, |pc.elems|)
  {
    CallFrontier(c, s, call, t, load, stored, load);
    ReachInv(c, s, call, load);
    NextState(c, s, call, load);
    CallStep(c, StateAfter(c, s, call, load), call[load], t);
  }

  ghost predicate Short(c: Config, s: State, call: seq<Action>, t: nat, load: nat, stored: nat)
    requires IsCall(c, s, call, t, load, stored)
  {
    var pc := StateAfter(c, s, call, stored).threads[t];
    pc.actual < |pc.elems|
  }

  // In a short call the stores stop where the ring would be full had the head stayed.
  lemma ShortFrontier(c: Config, s: State, call: seq<Action>, t: nat, load: nat, stored: nat, k: nat)
    requires Inv(c, s) && IsCall(c, s, call, t, load, stored) && Short(c, s, call, t, load, stored)
      && load < k <= |call|
    ensures var room := StateAfter(c, s, call, load).head + c.size;
      |StateAfter(c, s, call, k).written| <= room && (|StateAfter(c, s, call, k).written| == room <==> k >= stored)
  {
    Loaded(c, s, call, t, load, stored);
    CallActual(c, s, call, t, load, stored, stored);
    CallActual(c, s, call, t, load, stored, k);
    CallFrontier(c, s, call, t, load, stored, k);
    ReachInv(c, s, call, k);
    assert PcInv(c, StateAfter(c, s, call, k), StateAfter(c, s, call, k).threads[t]);
  }

  lemma FullWhen(c: Config, s: State, call: seq<Action>, t: nat, load: nat, stored: nat, k: nat)
    requires Inv(c, s) && IsCall(c, s, call, t, load, stored) && Short(c, s, call, t, load, stored)
    requires k <= |call| && Full(c, StateAfter(c, s, call, k))
    ensures Full(c, s) || StateAfter(c, s, call, stored).head == StateAfter(c, s, call, load).head
  {
    if k <= load {
      assert StateAfter(c, s, call, 0) == s;
      HeadGrows(c, s, call, 0, k);
      CallFrontier(c, s, call, t, load, stored, k);
    } else {
      HeadGrows(c, s, call, load, k);
      ShortFrontier(c, s, call, t, load, stored, k);
      HeadGrows(c, s, call, load, stored);
      HeadGrows(c, s, call, stored, k);
    }
  }

  /** When a single producer stores less than it was given, the ring was full at some instant
      of the call exactly when it was full as the call began, or no consumer moved the head
      between its load and the last store. */
  lemma ShortExactly(c: Config, threads: nat, schedule: seq<Action>, call: seq<Action>, t: nat, load: nat, stored: nat)
    requires c.size > 0 && c.width.Unbounded?
    requires IsCall(c, Exec(c, Start(c, threads), schedule), call, t, load, stored)
    requires Short(c, Exec(c, Start(c, threads), schedule), call, t, load, stored)
    ensures var s := Exec(c, Start(c, threads), schedule);
      (exists k :: 0 <= k <= |call| && Full(c, StateAfter(c, s, call, k)))
      <==> Full(c, s) || StateAfter(c, s, call, stored).head == StateAfter(c, s, call, load).head
  {
    var s := Exec(c, Start(c, threads), schedule);
    ExecInv(c, threads, schedule);
    assert StateAfter(c, s, call, 0) == s;
    forall k | 0 <= k <= |call| && Full(c, StateAfter(c, s, call, k))
      ensures Full(c, s) || StateAfter(c, s, call, stored).head == StateAfter(c, s, call, load).head
    {
      FullWhen(c, s, call, t, load, stored, k);
    }
    ShortFrontier(c, s, call, t, load, stored, stored);
    if StateAfter(c, s, call, stored).head == StateAfter(c, s, call, load).head {
      assert Full(c, StateAfter(c, s, call, stored));
    }
    if Full(c, s) { assert Full(c, StateAfter(c, s, call, 0)); }
  }
}
