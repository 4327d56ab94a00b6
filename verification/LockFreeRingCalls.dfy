/** What one call of the ring answers its caller, from the arguments of the call. */
module LockFreeRingCalls {
  import opened RingWords
  import opened LockFreeRing
  import opened LockFreeRingSafety
  import opened LockFreeRingPublished

  /** `call` are the steps of all threads from the command `cmd`, given to the idle thread `t` in
      state `s`, to the step in which that call returns `r`. */
  ghost predicate Returns(c: Config, s: State, call: seq<Action>, t: nat, cmd: Cmd, r: Result) {
    && t < |s.threads| && s.threads[t].Idle? && |call| > 0 && call[0] == Action(t, cmd)
    && (forall k :: 0 < k < |call| ==>
         t < |StateAfter(c, s, call, k).threads| && !StateAfter(c, s, call, k).threads[t].Idle?)
    && call[|call| - 1].tid == t
    && StateAfter(c, s, call, |call|).results == StateAfter(c, s, call, |call| - 1).results + [r]
  }

  lemma BeginReturnsNothing(c: Config, s: State, t: nat, cmd: Cmd)
    requires t < |s.threads| && s.threads[t].Idle?
    ensures |Step(c, s, Action(t, cmd)).results| == |s.results|
  {
  }

  lemma TakesSteps(c: Config, s: State, call: seq<Action>, t: nat, cmd: Cmd, r: Result)
    requires Returns(c, s, call, t, cmd, r)
    ensures |call| > 1
  {
    assert StateAfter(c, s, call, 0) == s;
    NextState(c, s, call, 0);
    BeginReturnsNothing(c, s, t, cmd);
  }

  // The state after the command.
  lemma Begun(c: Config, s: State, call: seq<Action>, t: nat, cmd: Cmd, r: Result)
    requires Inv(c, s) && Returns(c, s, call, t, cmd, r)
    ensures |call| > 1 && t < |StateAfter(c, s, call, 1).threads|
    ensures StateAfter(c, s, call, 1) == s.(threads := StateAfter(c, s, call, 1).threads)
    ensures cmd.CallEnqueue? ==> StateAfter(c, s, call, 1).threads[t] == EnqTail(cmd.elems)
    ensures cmd.CallDequeue? ==> StateAfter(c, s, call, 1).threads[t] == DeqHead(cmd.want)
  {
    TakesSteps(c, s, call, t, cmd, r);
    assert StateAfter(c, s, call, 0) == s;
    NextState(c, s, call, 0);
  }

  lemma OneResult(before: seq<Result>, after: seq<Result>, r: Result, q: Result)
    requires after == before + [r] && after == before + [q]
    ensures q == r
  {
    assert (before + [q])[|before|] == q && (before + [r])[|before|] == r;
  }

  // ---------- enqueue: which indices a call writes ----------

  /** The indices that thread `t` writes in the first `k` steps of `call`. */
  ghost function Wrote(c: Config, s: State, call: seq<Action>, t: nat, k: nat): (w: seq<int>)
    requires k <= |call|
  {
    if k == 0 then [] else
      var before := StateAfter(c, s, call, k - 1);
      Wrote(c, s, call, t, k - 1) +
      if call[k - 1].tid == t && |StateAfter(c, s, call, k).written| > |before.written| then [|before.written|] else []
  }

  /** Where a call that was given `elems` stands after storing `n` of them. */
  predicate Storing(pc: Pc, elems: seq<Elem>, n: nat) {
    match pc
    case EnqTail(x) => x == elems && n == 0
    case SpHead(x, _) => x == elems && n == 0
    case SpPtr(x, _, i, _) => x == elems && i == n
    case SpIdx(x, _, i, _) => x == elems && i == n
    case SpPublish(x, _, actual) => x == elems && actual == n
    case MpHead(x, actual, _) => x == elems && actual == n
    case MpPtr(x, actual, _) => x == elems && actual == n
    case MpIdx(x, actual, _, _) => x == elems && actual == n
    case MpReload(x, actual, _) => x == elems && actual == n
    case MpCas(x, actual, _, _) => x == elems && actual == n
    case UpdateRead(_, after) => after.AfterEnqueue? && after.want == |elems| && after.count == n
    case UpdateCas(_, _, after) => after.AfterEnqueue? && after.want == |elems| && after.count == n
    case _ => false
  }

  // One more result: a count of `n` out of `want`.
  predicate Counted(results: seq<Result>, results': seq<Result>, want: nat, n: nat) {
    && |results'| == |results| + 1 && results'[|results|].Enqueued? && results' == results + [results'[|results|]]
    && results'[|results|].want == want && results'[|results|].count == n
  }

  // What a step does: it stores the next element, or returns the count, or goes on.
  ghost predicate Stores(s: State, s': State, t: nat, elems: seq<Elem>, n: nat) {
    && t < |s'.threads| &&
    if s'.written != s.written then
      n < |elems| && s'.written == s.written + [elems[n]] && s'.results == s.results
        && Storing(s'.threads[t], elems, n + 1)
    else if s'.results != s.results then
      Counted(s.results, s'.results, |elems|, n)
    else Storing(s'.threads[t], elems, n)
  }

  lemma SpStores(c: Config, s: State, t: nat, elems: seq<Elem>, n: nat)
    requires Ready(c, s, t) && Storing(s.threads[t], elems, n)
    requires s.threads[t].SpHead? || s.threads[t].SpPtr? || s.threads[t].SpIdx? || s.threads[t].SpPublish?
    ensures Stores(s, SpStep(c, s, t), t, elems, n)
  {
    var s' := SpStep(c, s, t);
    if s.threads[t].SpPtr? { SlotIdx(c, s, s.threads[t].tail); }
    if s.threads[t].SpIdx? { assert |s'.written| == |s.written| + 1; }
    if s.threads[t].SpPublish? { assert s'.results == s.results + [Enqueued(|elems|, n, false)]; }
    if s.threads[t].SpHead? && |s'.results| > |s.results| {
      assert s'.results == s.results + [Enqueued(|elems|, n, |s.written| == s.head + c.size)];
    }
  }

  lemma MpStores(c: Config, s: State, t: nat, elems: seq<Elem>, n: nat)
    requires Ready(c, s, t) && Storing(s.threads[t], elems, n)
    requires s.threads[t].MpHead? || s.threads[t].MpPtr? || s.threads[t].MpIdx? || s.threads[t].MpReload?
      || s.threads[t].MpCas?
    ensures Stores(s, MpStep(c, s, t), t, elems, n)
  {
    var pc, s' := s.threads[t], MpStep(c, s, t);
    if pc.MpCas? && At(c, s.ring, pc.tail) == pc.seen { assert |s'.written| == |s.written| + 1; }
  }

  lemma UpdateStores(c: Config, s: State, t: nat, elems: seq<Elem>, n: nat)
    requires Ready(c, s, t) && Storing(s.threads[t], elems, n) && (s.threads[t].UpdateRead? || s.threads[t].UpdateCas?)
    ensures Stores(s, UpdateStep(c, s, t), t, elems, n)
  {
    var s' := UpdateStep(c, s, t);
    if |s'.results| > |s.results| {
      assert s'.results == s.results + [Enqueued(|elems|, n, s.threads[t].after.full)];
    }
  }

  lemma StoresStep(c: Config, s: State, a: Action, elems: seq<Elem>, n: nat)
    requires Ready(c, s, a.tid) && Storing(s.threads[a.tid], elems, n)
    ensures Stores(s, Step(c, s, a), a.tid, elems, n)
  {
    var t, pc := a.tid, s.threads[a.tid];
    if pc.SpHead? || pc.SpPtr? || pc.SpIdx? || pc.SpPublish? {
      SpStores(c, s, t, elems, n);
      assert Step(c, s, a) == SpStep(c, s, t);
    } else if pc.UpdateRead? || pc.UpdateCas? {
      UpdateStores(c, s, t, elems, n);
      assert Step(c, s, a) == UpdateStep(c, s, t);
    } else if !pc.EnqTail? {
      MpStores(c, s, t, elems, n);
      assert Step(c, s, a) == MpStep(c, s, t);
    }
  }

  /** `wrote` are increasing indices, written since the frontier was `from`, of the first elements
      of `elems`. */
  predicate HoldsFirst(written: seq<Elem>, from: int, wrote: seq<int>, elems: seq<Elem>) {
    && |wrote| <= |elems|
    && (forall j :: 0 <= j < |wrote| ==> 0 <= from <= wrote[j] < |written| && written[wrote[j]] == elems[j])
    && (forall i, j :: 0 <= i < j < |wrote| ==> wrote[i] < wrote[j])
  }

  lemma HoldsMore(written: seq<Elem>, written': seq<Elem>, from: int, wrote: seq<int>, elems: seq<Elem>)
    requires HoldsFirst(written, from, wrote, elems) && written <= written'
    ensures HoldsFirst(written', from, wrote, elems)
  {
    forall j | 0 <= j < |wrote| ensures 0 <= from <= wrote[j] < |written'| && written'[wrote[j]] == elems[j] {
      assert written'[wrote[j]] == written[wrote[j]];
    }
  }

  lemma HoldsNext(written: seq<Elem>, from: int, wrote: seq<int>, elems: seq<Elem>)
    requires HoldsFirst(written, from, wrote, elems) && |wrote| < |elems| && 0 <= from <= |written|
    ensures HoldsFirst(written + [elems[|wrote|]], from, wrote + [|written|], elems)
  {
    var w, more := written + [elems[|wrote|]], wrote + [|written|];
    forall j | 0 <= j < |more| ensures 0 <= from <= more[j] < |w| && w[more[j]] == elems[j] {
      if j < |wrote| { assert more[j] == wrote[j] && w[wrote[j]] == written[wrote[j]]; }
    }
    forall i, j | 0 <= i < j < |more| ensures more[i] < more[j] {
      assert more[i] == wrote[i] && (j < |wrote| ==> more[j] == wrote[j]);
    }
  }

  // The state of the call after `k` steps.
  ghost predicate Stored(c: Config, s: State, call: seq<Action>, t: nat, elems: seq<Elem>, k: nat)
    requires k <= |call|
  {
    && t < |StateAfter(c, s, call, k).threads| && |s.written| <= |StateAfter(c, s, call, k).written|
    && Storing(StateAfter(c, s, call, k).threads[t], elems, |Wrote(c, s, call, t, k)|)
    && HoldsFirst(StateAfter(c, s, call, k).written, |s.written|, Wrote(c, s, call, t, k), elems)
  }

  lemma StoredByOther(c: Config, s: State, call: seq<Action>, t: nat, elems: seq<Elem>, k: nat)
    requires Inv(c, s) && k < |call| && Stored(c, s, call, t, elems, k) && call[k].tid != t
    ensures Stored(c, s, call, t, elems, k + 1)
  {
    var before := StateAfter(c, s, call, k);
    ReachInv(c, s, call, k);
    NextState(c, s, call, k);
    InvStep(c, before, call[k]);
    OthersStay(c, before, call[k], t);
    HoldsMore(before.written, StateAfter(c, s, call, k + 1).written, |s.written|, Wrote(c, s, call, t, k), elems);
  }

  // The same for a step of the call itself, as far as it does not return.
  lemma StoredByCall(c: Config, s: State, call: seq<Action>, t: nat, elems: seq<Elem>, k: nat)
    requires Inv(c, s) && k < |call| && Stored(c, s, call, t, elems, k) && call[k].tid == t
    ensures var before, after := StateAfter(c, s, call, k), StateAfter(c, s, call, k + 1);
      && |s.written| <= |after.written|
      && HoldsFirst(after.written, |s.written|, Wrote(c, s, call, t, k + 1), elems)
      && if after.results == before.results then Stored(c, s, call, t, elems, k + 1)
         else Counted(before.results, after.results, |elems|, |Wrote(c, s, call, t, k + 1)|)
  {
    var before, after := StateAfter(c, s, call, k), StateAfter(c, s, call, k + 1);
    var wrote := Wrote(c, s, call, t, k);
    ReachInv(c, s, call, k);
    NextState(c, s, call, k);
    ReadyInv(c, before, t);
    StoresStep(c, before, call[k], elems, |wrote|);
    if after.written != before.written {
      assert |after.written| == |before.written| + 1;
      HoldsNext(before.written, |s.written|, wrote, elems);
      assert Wrote(c, s, call, t, k + 1) == wrote + [|before.written|];
    } else {
      assert Wrote(c, s, call, t, k + 1) == wrote;
    }
  }

  // A thread that returns is idle.
  lemma ReturnsIdle(c: Config, s: State, a: Action)
    requires Inv(c, s) && a.tid < |s.threads|
    ensures Step(c, s, a).results != s.results ==> a.tid < |Step(c, s, a).threads| && Step(c, s, a).threads[a.tid].Idle?
  {
    var pc := s.threads[a.tid];
    if pc.UpdateRead? || pc.UpdateCas? {
      assert Step(c, s, a) == UpdateStep(c, s, a.tid);
    } else if Dequeues(pc) {
      assert Step(c, s, a) == DeqStep(c, s, a.tid);
    }
  }

  lemma {:induction false} CallStored(c: Config, s: State, call: seq<Action>, t: nat, elems: seq<Elem>, r: Result,
        k: nat)
    requires Inv(c, s) && Returns(c, s, call, t, CallEnqueue(elems), r) && 0 < k < |call|
    ensures Stored(c, s, call, t, elems, k)
  {
    if k == 1 {
      Begun(c, s, call, t, CallEnqueue(elems), r);
      assert StateAfter(c, s, call, 0) == s;
      assert Wrote(c, s, call, t, 1) == [];
    } else {
      CallStored(c, s, call, t, elems, r, k - 1);
      if call[k - 1].tid == t {
        ReachInv(c, s, call, k - 1);
        NextState(c, s, call, k - 1);
        ReturnsIdle(c, StateAfter(c, s, call, k - 1), call[k - 1]);
        StoredByCall(c, s, call, t, elems, k - 1);
      } else {
        StoredByOther(c, s, call, t, elems, k - 1);
      }
    }
  }

  /** The count that an enqueue of `elems` returns is the number of indices it wrote, and those hold
      the first so many of `elems`, in order; in both producer modes. */
  lemma EnqueueStores(c: Config, threads: nat, schedule: seq<Action>, call: seq<Action>, t: nat, elems: seq<Elem>,
        r: Result)
    requires c.size > 0 && c.width.Unbounded?
    requires Returns(c, Exec(c, Start(c, threads), schedule), call, t, CallEnqueue(elems), r)
    ensures var s := Exec(c, Start(c, threads), schedule);
      var wrote := Wrote(c, s, call, t, |call|);
      && r.Enqueued? && r.want == |elems| && r.count == |wrote|
      && HoldsFirst(StateAfter(c, s, call, |call|).written, |s.written|, wrote, elems)
  {
    var s := Exec(c, Start(c, threads), schedule);
    var n := |call| - 1;
    ExecInv(c, threads, schedule);
    TakesSteps(c, s, call, t, CallEnqueue(elems), r);
    CallStored(c, s, call, t, elems, r, n);
    StoredByCall(c, s, call, t, elems, n);
    var before, after := StateAfter(c, s, call, n), StateAfter(c, s, call, |call|);
    assert after.results[|before.results|] == r;
  }

  // ---------- enqueue: how many ----------

  // A producer that gave up because the ring was full.
  predicate GaveUp(pc: Pc) {
    (pc.UpdateRead? || pc.UpdateCas?) && pc.after.AfterEnqueue? && pc.after.full
  }

  // A step gives up, or reports a full ring, only in a full ring or having given up before.
  predicate GivesUpWhenFull(c: Config, s: State, s': State, t: nat) {
    && t < |s.threads| == |s'.threads| && |s'.results| <= |s.results| + 1
    && (GaveUp(s'.threads[t]) || ReportsFull(s, s') ==> GaveUp(s.threads[t]) || Full(c, s))
  }

  predicate ReportsFull(s: State, s': State) {
    |s'.results| > |s.results| && s'.results[|s.results|].Enqueued? && s'.results[|s.results|].full
  }

  lemma GivesUpStep(c: Config, s: State, a: Action, elems: seq<Elem>, n: nat)
    requires Ready(c, s, a.tid) && Storing(s.threads[a.tid], elems, n)
    ensures GivesUpWhenFull(c, s, Step(c, s, a), a.tid)
  {
    var t, pc := a.tid, s.threads[a.tid];
    if pc.SpHead? || pc.SpPtr? || pc.SpIdx? || pc.SpPublish? {
      SpInv(c, s, t);
      assert Step(c, s, a) == SpStep(c, s, t);
    } else if pc.UpdateRead? || pc.UpdateCas? {
      assert Step(c, s, a) == UpdateStep(c, s, t);
    } else if !pc.EnqTail? {
      assert Step(c, s, a) == MpStep(c, s, t);
    }
  }

  ghost predicate FullSometime(c: Config, s: State, call: seq<Action>, k: nat)
    requires k <= |call|
  {
    exists j :: 0 <= j <= k && Full(c, StateAfter(c, s, call, j))
  }

  lemma FullEarlier(c: Config, s: State, call: seq<Action>, j: nat, k: nat)
    requires j <= k <= |call| && FullSometime(c, s, call, j)
    ensures FullSometime(c, s, call, k)
  {
  }

  lemma {:induction false} CallGivesUp(c: Config, s: State, call: seq<Action>, t: nat, elems: seq<Elem>, r: Result,
        k: nat)
    requires Inv(c, s) && Returns(c, s, call, t, CallEnqueue(elems), r) && 0 < k < |call|
    requires t < |StateAfter(c, s, call, k).threads| && GaveUp(StateAfter(c, s, call, k).threads[t])
    ensures FullSometime(c, s, call, k)
  {
    Begun(c, s, call, t, CallEnqueue(elems), r);
    if k > 1 {
      var before := StateAfter(c, s, call, k - 1);
      ReachInv(c, s, call, k - 1);
      NextState(c, s, call, k - 1);
      CallStored(c, s, call, t, elems, r, k - 1);
      if call[k - 1].tid == t {
        ReadyInv(c, before, t);
        GivesUpStep(c, before, call[k - 1], elems, |Wrote(c, s, call, t, k - 1)|);
      } else {
        OthersStay(c, before, call[k - 1], t);
      }
      if GaveUp(before.threads[t]) {
        CallGivesUp(c, s, call, t, elems, r, k - 1);
        FullEarlier(c, s, call, k - 1, k);
      }
    }
  }

  // What fits is fixed by a load of the head.
  predicate Fits(c: Config, s: State, wanted: nat, count: nat) {
    count == Min(s.head + c.size - |s.written|, wanted)
  }

  ghost predicate FitsSometime(c: Config, s: State, call: seq<Action>, k: nat, wanted: nat, count: nat)
    requires k <= |call|
  {
    exists j :: 0 <= j <= k && Fits(c, StateAfter(c, s, call, j), wanted, count)
  }

  predicate Loads(c: Config, s: State, s': State, t: nat, elems: seq<Elem>) {
    && t < |s.threads| == |s'.threads| && |s'.results| <= |s.results| + 1
    && (Writing(s'.threads[t]) ==>
         if Writing(s.threads[t]) then s'.threads[t].actual == s.threads[t].actual
         else Fits(c, s, |elems|, s'.threads[t].actual))
    && (|s'.results| > |s.results| && s'.results[|s.results|].Enqueued? ==>
         if Writing(s.threads[t]) then s'.results[|s.results|].count == s.threads[t].actual
         else Fits(c, s, |elems|, s'.results[|s.results|].count))
  }

  lemma LoadsStep(c: Config, s: State, a: Action, elems: seq<Elem>, n: nat)
    requires Ready(c, s, a.tid) && Storing(s.threads[a.tid], elems, n) && c.sp
    ensures Loads(c, s, Step(c, s, a), a.tid, elems)
  {
    var t, pc := a.tid, s.threads[a.tid];
    if !pc.EnqTail? {
      SpInv(c, s, t);
      assert Step(c, s, a) == SpStep(c, s, t);
    }
  }

  lemma {:induction false} CallFits(c: Config, s: State, call: seq<Action>, t: nat, elems: seq<Elem>, r: Result, k: nat)
    requires Inv(c, s) && c.sp && Returns(c, s, call, t, CallEnqueue(elems), r) && 0 < k < |call|
    requires t < |StateAfter(c, s, call, k).threads| && Writing(StateAfter(c, s, call, k).threads[t])
    ensures FitsSometime(c, s, call, k, |elems|, StateAfter(c, s, call, k).threads[t].actual)
  {
    Begun(c, s, call, t, CallEnqueue(elems), r);
    if k > 1 {
      var before := StateAfter(c, s, call, k - 1);
      ReachInv(c, s, call, k - 1);
      NextState(c, s, call, k - 1);
      CallStored(c, s, call, t, elems, r, k - 1);
      if call[k - 1].tid == t {
        ReadyInv(c, before, t);
        LoadsStep(c, before, call[k - 1], elems, |Wrote(c, s, call, t, k - 1)|);
      } else {
        OthersStay(c, before, call[k - 1], t);
      }
      if Writing(before.threads[t]) {
        CallFits(c, s, call, t, elems, r, k - 1);
      }
    }
  }

  /** With several producers an enqueue stores fewer elements than it was given only if the ring was
      full in some state of the call; a single producer stores the smaller of what it was given and
      what fitted in some state of the call. */
  lemma EnqueueCount(c: Config, threads: nat, schedule: seq<Action>, call: seq<Action>, t: nat, elems: seq<Elem>,
        r: Result)
    requires c.size > 0 && c.width.Unbounded?
    requires Returns(c, Exec(c, Start(c, threads), schedule), call, t, CallEnqueue(elems), r)
    ensures var s := Exec(c, Start(c, threads), schedule);
      && r.Enqueued? && r.count <= |elems|
      && (!c.sp && r.count < |elems| ==> FullSometime(c, s, call, |call|))
      && (c.sp ==> FitsSometime(c, s, call, |call|, |elems|, r.count))
  {
    var s := Exec(c, Start(c, threads), schedule);
    var n := |call| - 1;
    ExecInv(c, threads, schedule);
    EnqueueStores(c, threads, schedule, call, t, elems, r);
    TakesSteps(c, s, call, t, CallEnqueue(elems), r);
    CallStored(c, s, call, t, elems, r, n);
    var before, after := StateAfter(c, s, call, n), StateAfter(c, s, call, |call|);
    ReachInv(c, s, call, n);
    ReachInv(c, s, call, |call|);
    NextState(c, s, call, n);
    ReadyInv(c, before, t);
    assert after.results[|before.results|] == r;
    assert ResultInv(c, after.written, r);
    if c.sp {
      LoadsStep(c, before, call[n], elems, |Wrote(c, s, call, t, n)|);
      if Writing(before.threads[t]) { CallFits(c, s, call, t, elems, r, n); }
    } else if r.count < |elems| {
      GivesUpStep(c, before, call[n], elems, |Wrote(c, s, call, t, n)|);
      if GaveUp(before.threads[t]) {
        CallGivesUp(c, s, call, t, elems, r, n);
        FullEarlier(c, s, call, n, |call|);
      }
    }
  }

  // ---------- enqueue: what is stored is published ----------

  // A producer's own tail passes what it writes, and the published tail passes it at the end.
  predicate Passes(s: State, s': State, t: nat) {
    && t < |s.threads| == |s'.threads| && HasTail(s.threads[t])
    && if |s'.results| > |s.results| then OwnTail(s.threads[t]) <= s'.tail && s'.written == s.written
       else
         && HasTail(s'.threads[t]) && OwnTail(s.threads[t]) <= OwnTail(s'.threads[t])
         && (s'.written != s.written ==> |s.written| < OwnTail(s'.threads[t]))
  }

  lemma SpPasses(c: Config, s: State, t: nat, elems: seq<Elem>, n: nat)
    requires Ready(c, s, t) && Storing(s.threads[t], elems, n)
    requires s.threads[t].SpHead? || s.threads[t].SpPtr? || s.threads[t].SpIdx? || s.threads[t].SpPublish?
    ensures Passes(s, SpStep(c, s, t), t)
  {
    SpInv(c, s, t);
  }

  lemma MpPasses(c: Config, s: State, t: nat, elems: seq<Elem>, n: nat)
    requires Ready(c, s, t) && Storing(s.threads[t], elems, n)
    requires s.threads[t].MpHead? || s.threads[t].MpPtr? || s.threads[t].MpIdx?
      || s.threads[t].MpReload? || s.threads[t].MpCas?
    ensures Passes(s, MpStep(c, s, t), t)
  {
    var pc := s.threads[t];
    if pc.MpCas? && At(c, s.ring, pc.tail) == pc.seen { WritesAtFrontier(c, s, t); }
  }

  lemma UpdatePasses(c: Config, s: State, t: nat, elems: seq<Elem>, n: nat)
    requires Ready(c, s, t) && Storing(s.threads[t], elems, n) && (s.threads[t].UpdateRead? || s.threads[t].UpdateCas?)
    ensures Passes(s, UpdateStep(c, s, t), t)
  {
  }

  lemma PassesStep(c: Config, s: State, a: Action, elems: seq<Elem>, n: nat)
    requires Ready(c, s, a.tid) && Storing(s.threads[a.tid], elems, n) && !s.threads[a.tid].EnqTail?
    ensures Passes(s, Step(c, s, a), a.tid)
  {
    var t, pc := a.tid, s.threads[a.tid];
    if pc.SpHead? || pc.SpPtr? || pc.SpIdx? || pc.SpPublish? {
      SpPasses(c, s, t, elems, n);
      assert Step(c, s, a) == SpStep(c, s, t);
    } else if pc.UpdateRead? || pc.UpdateCas? {
      UpdatePasses(c, s, t, elems, n);
      assert Step(c, s, a) == UpdateStep(c, s, t);
    } else {
      MpPasses(c, s, t, elems, n);
      assert Step(c, s, a) == MpStep(c, s, t);
    }
  }

  predicate AllBelow(wrote: seq<int>, bound: int) {
    forall j :: 0 <= j < |wrote| ==> wrote[j] < bound
  }

  // What the call wrote so far lies below its own tail.
  predicate Passed(pc: Pc, wrote: seq<int>) {
    if HasTail(pc) then AllBelow(wrote, OwnTail(pc)) else pc.EnqTail? && wrote == []
  }

  lemma PassedNext(c: Config, s: State, a: Action, elems: seq<Elem>, wrote: seq<int>)
    requires Ready(c, s, a.tid) && Storing(s.threads[a.tid], elems, |wrote|) && Passed(s.threads[a.tid], wrote)
    requires Step(c, s, a).results == s.results && a.tid < |Step(c, s, a).threads|
    requires s.threads[a.tid].EnqTail? ==> HasTail(Step(c, s, a).threads[a.tid])
    ensures Passed(Step(c, s, a).threads[a.tid],
      if Step(c, s, a).written != s.written then wrote + [|s.written|] else wrote)
  {
    if s.threads[a.tid].EnqTail? { TailLoaded(c, s, a); } else { PassesStep(c, s, a, elems, |wrote|); }
  }

  // One step of the call that does not return.
  lemma CallPassesNext(c: Config, s: State, call: seq<Action>, t: nat, elems: seq<Elem>, k: nat)
    requires Inv(c, s) && k < |call| && call[k].tid == t
    requires Stored(c, s, call, t, elems, k) && Stored(c, s, call, t, elems, k + 1)
    requires StateAfter(c, s, call, k + 1).results == StateAfter(c, s, call, k).results
    requires Passed(StateAfter(c, s, call, k).threads[t], Wrote(c, s, call, t, k))
    ensures Passed(StateAfter(c, s, call, k + 1).threads[t], Wrote(c, s, call, t, k + 1))
  {
    var before, after := StateAfter(c, s, call, k), StateAfter(c, s, call, k + 1);
    ReachInv(c, s, call, k);
    NextState(c, s, call, k);
    ReadyInv(c, before, t);
    var wrote := Wrote(c, s, call, t, k);
    InvStep(c, before, call[k]);
    if before.threads[t].EnqTail? { TailNext(c, before, call[k]); }
    PassedNext(c, before, call[k], elems, wrote);
    assert Wrote(c, s, call, t, k + 1) == if after.written != before.written then wrote + [|before.written|] else wrote;
  }

  lemma TailNext(c: Config, s: State, a: Action)
    requires Inv(c, s) && a.tid < |s.threads| && s.threads[a.tid].EnqTail?
    ensures a.tid < |Step(c, s, a).threads| && HasTail(Step(c, s, a).threads[a.tid])
  {
  }

  lemma {:induction false} CallPasses(c: Config, s: State, call: seq<Action>, t: nat, elems: seq<Elem>, r: Result,
        k: nat)
    requires Inv(c, s) && Returns(c, s, call, t, CallEnqueue(elems), r) && 0 < k < |call|
    ensures t < |StateAfter(c, s, call, k).threads|
    ensures Passed(StateAfter(c, s, call, k).threads[t], Wrote(c, s, call, t, k))
  {
    CallStored(c, s, call, t, elems, r, k);
    if k == 1 {
      Begun(c, s, call, t, CallEnqueue(elems), r);
    } else {
      CallPasses(c, s, call, t, elems, r, k - 1);
      CallStored(c, s, call, t, elems, r, k - 1);
      ReachInv(c, s, call, k - 1);
      NextState(c, s, call, k - 1);
      if call[k - 1].tid != t {
        OthersStay(c, StateAfter(c, s, call, k - 1), call[k - 1], t);
      } else {
        ReturnsIdle(c, StateAfter(c, s, call, k - 1), call[k - 1]);
        CallPassesNext(c, s, call, t, elems, k - 1);
      }
    }
  }

  lemma TailLoaded(c: Config, s: State, a: Action)
    requires a.tid < |s.threads|
    ensures s.threads[a.tid].EnqTail? ==>
      Step(c, s, a).written == s.written && Step(c, s, a).results == s.results
  {
  }

  /** Everything an enqueue stored is published when the call returns. */
  lemma EnqueuePublishes(c: Config, threads: nat, schedule: seq<Action>, call: seq<Action>, t: nat, elems: seq<Elem>,
        r: Result)
    requires c.size > 0 && c.width.Unbounded?
    requires Returns(c, Exec(c, Start(c, threads), schedule), call, t, CallEnqueue(elems), r)
    ensures var s := Exec(c, Start(c, threads), schedule);
      AllBelow(Wrote(c, s, call, t, |call|), StateAfter(c, s, call, |call|).tail)
  {
    var s := Exec(c, Start(c, threads), schedule);
    var n := |call| - 1;
    ExecInv(c, threads, schedule);
    TakesSteps(c, s, call, t, CallEnqueue(elems), r);
    CallPasses(c, s, call, t, elems, r, n);
    CallStored(c, s, call, t, elems, r, n);
    var before := StateAfter(c, s, call, n);
    ReachInv(c, s, call, n);
    NextState(c, s, call, n);
    ReadyInv(c, before, t);
    TailLoaded(c, before, call[n]);
    PassesStep(c, before, call[n], elems, |Wrote(c, s, call, t, n)|);
    assert Wrote(c, s, call, t, |call|) == Wrote(c, s, call, t, n);
  }

  // ---------- dequeue ----------

  // The values of the published tail in the first `k` + 1 states.
  ghost function Tails(c: Config, s: State, call: seq<Action>, k: nat): set<int>
    requires k <= |call|
  {
    set j: nat | 0 <= j <= k :: StateAfter(c, s, call, j).tail
  }

  /** Where a call that was asked for `n` elements stands; `tails` are the published tails so far. */
  predicate Taking(pc: Pc, n: nat, tails: set<int>) {
    match pc
    case DeqHead(want) => want == n
    case DeqTail(want, _) => want == n
    case FindSp(want, _) => want == n
    case Scan(want, _, _) => want == n
    case UpdateRead(_, after) => after.AfterScan? && after.want == n
    case UpdateCas(_, _, after) => after.AfterScan? && after.want == n
    case Copy(want, head, tail, actual, _) => want == n && tail in tails && actual == Min(tail - head, n)
    case DeqCommit(want, head, tail, buf) => want == n && tail in tails && |buf| == Min(tail - head, n)
    case _ => false
  }

  predicate DeqAnswers(r: Result, n: nat, tails: set<int>) {
    match r
    case Dequeued(index, elems) => |elems| <= n && (|elems| < n ==> index + |elems| in tails)
    case Nothing(want, _, _, _, _) => want == n
    case Enqueued(_, _, _) => false
  }

  ghost predicate Takes(s: State, s': State, t: nat, n: nat, tails: set<int>) {
    && t < |s'.threads|
    && if |s'.results| > |s.results| then DeqAnswers(s'.results[|s.results|], n, tails + {s.tail, s'.tail})
       else Taking(s'.threads[t], n, tails + {s.tail, s'.tail})
  }

  lemma UpdateTakes(c: Config, s: State, t: nat, n: nat, tails: set<int>)
    requires Ready(c, s, t) && Taking(s.threads[t], n, tails) && (s.threads[t].UpdateRead? || s.threads[t].UpdateCas?)
    ensures Takes(s, UpdateStep(c, s, t), t, n, tails)
  {
  }

  lemma DeqTakes(c: Config, s: State, t: nat, n: nat, tails: set<int>)
    requires Ready(c, s, t) && Taking(s.threads[t], n, tails) && !s.threads[t].UpdateRead? && !s.threads[t].UpdateCas?
    ensures Takes(s, DeqStep(c, s, t), t, n, tails)
  {
  }

  lemma TakesStep(c: Config, s: State, a: Action, n: nat, tails: set<int>)
    requires Ready(c, s, a.tid) && Taking(s.threads[a.tid], n, tails)
    ensures Takes(s, Step(c, s, a), a.tid, n, tails)
  {
    var pc := s.threads[a.tid];
    if pc.UpdateRead? || pc.UpdateCas? {
      UpdateTakes(c, s, a.tid, n, tails);
      assert Step(c, s, a) == UpdateStep(c, s, a.tid);
    } else {
      DeqTakes(c, s, a.tid, n, tails);
      assert Step(c, s, a) == DeqStep(c, s, a.tid);
    }
  }

  lemma TakingMore(pc: Pc, n: nat, tails: set<int>, tails': set<int>)
    requires Taking(pc, n, tails) && tails <= tails'
    ensures Taking(pc, n, tails')
  {
  }

  lemma TailsNext(c: Config, s: State, call: seq<Action>, k: nat)
    requires k < |call|
    ensures Tails(c, s, call, k + 1) == Tails(c, s, call, k)
      + {StateAfter(c, s, call, k).tail, StateAfter(c, s, call, k + 1).tail}
  {
    var a, b := Tails(c, s, call, k), Tails(c, s, call, k + 1);
    assert StateAfter(c, s, call, k).tail in a && StateAfter(c, s, call, k + 1).tail in b;
    forall x | x in b ensures x in a + {StateAfter(c, s, call, k + 1).tail} {
      var j: nat :| 0 <= j <= k + 1 && StateAfter(c, s, call, j).tail == x;
    }
  }

  lemma {:induction false} CallTakes(c: Config, s: State, call: seq<Action>, t: nat, n: nat, r: Result, k: nat)
    requires Inv(c, s) && Returns(c, s, call, t, CallDequeue(n), r) && 0 < k < |call|
    ensures t < |StateAfter(c, s, call, k).threads|
    ensures Taking(StateAfter(c, s, call, k).threads[t], n, Tails(c, s, call, k))
  {
    if k == 1 {
      Begun(c, s, call, t, CallDequeue(n), r);
    } else {
      var before := StateAfter(c, s, call, k - 1);
      CallTakes(c, s, call, t, n, r, k - 1);
      ReachInv(c, s, call, k - 1);
      NextState(c, s, call, k - 1);
      TailsNext(c, s, call, k - 1);
      InvStep(c, before, call[k - 1]);
      if call[k - 1].tid == t {
        ReadyInv(c, before, t);
        ReturnsIdle(c, before, call[k - 1]);
        TakesStep(c, before, call[k - 1], n, Tails(c, s, call, k - 1));
      } else {
        OthersStay(c, before, call[k - 1], t);
        TakingMore(before.threads[t], n, Tails(c, s, call, k - 1), Tails(c, s, call, k));
      }
    }
  }

  /** A dequeue of up to `n` elements returns at least one and at most `n`, and fewer than `n` only
      when they reach up to the published tail of some state of the call; or it returns nothing. */
  lemma DequeueCount(c: Config, threads: nat, schedule: seq<Action>, call: seq<Action>, t: nat, n: nat, r: Result)
    requires c.size > 0 && c.width.Unbounded?
    requires Returns(c, Exec(c, Start(c, threads), schedule), call, t, CallDequeue(n), r)
    ensures var s := Exec(c, Start(c, threads), schedule);
      match r
      case Dequeued(index, elems) =>
        && 0 < |elems| <= n && s.head <= index && index + |elems| == StateAfter(c, s, call, |call|).head
        && (|elems| < n ==> exists k :: 0 <= k <= |call| && StateAfter(c, s, call, k).tail == index + |elems|)
      case Nothing(want, _, _, _, _) => want == n
      case Enqueued(_, _, _) => false
  {
    var s := Exec(c, Start(c, threads), schedule);
    var m := |call| - 1;
    ExecInv(c, threads, schedule);
    TakesSteps(c, s, call, t, CallDequeue(n), r);
    CallTakes(c, s, call, t, n, r, m);
    var before, after := StateAfter(c, s, call, m), StateAfter(c, s, call, |call|);
    ReachInv(c, s, call, m);
    ReachInv(c, s, call, |call|);
    NextState(c, s, call, m);
    ReadyInv(c, before, t);
    TakesStep(c, before, call[m], n, Tails(c, s, call, m));
    TailsNext(c, s, call, m);
    assert after.results[|before.results|] == r;
    assert ResultInv(c, after.written, r);
    InvStep(c, before, call[m]);
    HeadGrows(c, s, call, 0, m);
    assert StateAfter(c, s, call, 0) == s;
    if r.Dequeued? {
      assert |before.read| == before.head && |after.read| == after.head;
    }
  }
}
