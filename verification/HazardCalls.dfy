/** What one call of the hazard-pointer domain does for its caller, from the arguments of the call. */
module HazardCalls {
  import opened HazardDomain
  import opened HazardSafety

  // The state after the first `k` actions of `call`.
  function StateAfter(s: State, call: seq<Action>, k: nat): State
    requires k <= |call|
  {
    Exec(s, call[..k])
  }

  lemma NextState(s: State, call: seq<Action>, k: nat)
    requires k < |call|
    ensures StateAfter(s, call, k + 1) == Step(StateAfter(s, call, k), call[k])
  {
    assert call[..k + 1][..k] == call[..k];
  }

  lemma {:induction false} ReachInv(s: State, call: seq<Action>, k: nat)
    requires Inv(s) && k <= |call|
    ensures Inv(StateAfter(s, call, k))
  {
    if k > 0 {
      ReachInv(s, call, k - 1);
      NextState(s, call, k - 1);
      InvStep(StateAfter(s, call, k - 1), call[k - 1]);
    }
  }

  lemma OthersStay(s: State, a: Action, t: nat)
    requires t < |s.threads| && a.tid != t
    ensures t < |Step(s, a).threads| && Step(s, a).threads[t] == s.threads[t]
  {
  }

  // Between the two ends of a call its thread neither rests nor holds a pointer.
  predicate Rests(pc: Pc) {
    pc.Idle? || pc.Holding?
  }

  /** `call` are the steps of all threads from the command `cmd`, given to thread `t` in state `s`,
      to the step in which that call ends. */
  ghost predicate IsCall(s: State, call: seq<Action>, t: nat, cmd: Cmd) {
    && t < |s.threads| && Rests(s.threads[t]) && |call| > 0 && call[0] == Action(t, cmd)
    && (forall k :: 0 < k < |call| ==>
         t < |StateAfter(s, call, k).threads| && !Rests(StateAfter(s, call, k).threads[t]))
    && t < |StateAfter(s, call, |call|).threads| && Rests(StateAfter(s, call, |call|).threads[t])
    && call[|call| - 1].tid == t
  }

  // ---------- load ----------

  /** A thread that loads shared pointer `k`. */
  predicate Loading(pc: Pc, k: nat) {
    match pc
    case ReadShared(source) => source == k
    case Insert(_, ins, _) => ins.ForLoad? && ins.source == k
    case Validate(_, _, source) => source == k
    case Undo(_, _, source) => source == k
    case Remove(_, rem, _) => rem.ForUndo? && rem.source == k
    case _ => false
  }

  // A step of a load goes on, or ends with the value that shared pointer `k` has now.
  predicate LoadsFrom(s: State, s': State, t: nat, k: nat) {
    && t < |s.threads| == |s'.threads|
    && (Loading(s'.threads[t], k)
        || (s.threads[t].Validate? && s'.threads[t].Holding? && k < |s.shared| && s.shared[k] == s'.threads[t].val))
  }

  lemma LoadingStep(s: State, a: Action, k: nat)
    requires Inv(s) && a.tid < |s.threads| && Loading(s.threads[a.tid], k)
    ensures LoadsFrom(s, Step(s, a), a.tid, k)
  {
    assert WellPlaced(s, s.threads[a.tid]);
  }

  lemma {:induction false} CallLoads(s: State, call: seq<Action>, t: nat, k: nat, j: nat)
    requires Inv(s) && k < |s.shared| && s.threads != [] && IsCall(s, call, t, Load(k)) && s.threads[t].Idle?
    requires 0 < j < |call|
    ensures Loading(StateAfter(s, call, j).threads[t], k)
  {
    var before := StateAfter(s, call, j - 1);
    NextState(s, call, j - 1);
    if j == 1 {
      assert before == s;
    } else {
      CallLoads(s, call, t, k, j - 1);
      ReachInv(s, call, j - 1);
      if call[j - 1].tid == t { LoadingStep(before, call[j - 1], k); } else { OthersStay(before, call[j - 1], t); }
    }
  }

  /** A load of shared pointer `k` ends holding the value that this pointer has in the state of its
      validating read, the last but one of the call. */
  lemma LoadAnswers(s0: State, schedule: seq<Action>, call: seq<Action>, t: nat, k: nat)
    requires Init(s0)
    requires var s := Exec(s0, schedule); k < |s.shared| && IsCall(s, call, t, Load(k)) && s.threads[t].Idle?
    ensures var s := Exec(s0, schedule);
      var last, end := StateAfter(s, call, |call| - 1), StateAfter(s, call, |call|);
      && |call| > 1 && end.threads[t].Holding?
      && k < |last.shared| && last.shared[k] == end.threads[t].val && last.threads[t].Validate?
  {
    var s := Exec(s0, schedule);
    ExecInv(s0, schedule);
    var n := |call| - 1;
    var last := StateAfter(s, call, n);
    NextState(s, call, n);
    LoadTakesSteps(s, call, t, k);
    CallLoads(s, call, t, k, n);
    ReachInv(s, call, n);
    LoadingStep(last, call[n], k);
  }

  lemma LoadTakesSteps(s: State, call: seq<Action>, t: nat, k: nat)
    requires k < |s.shared| && IsCall(s, call, t, Load(k)) && s.threads[t].Idle?
    ensures |call| > 1
  {
    NextState(s, call, 0);
    assert StateAfter(s, call, 0) == s;
    LoadBegins(s, t, k);
  }

  lemma LoadBegins(s: State, t: nat, k: nat)
    requires t < |s.threads| && s.threads[t].Idle? && k < |s.shared|
    ensures Step(s, Action(t, Load(k))) == s.Goto(t, ReadShared(k))
  {
  }

  // ---------- drop ----------

  predicate Dropping(pc: Pc, v: Ptr) {
    pc.Remove? && pc.rem.ForDrop? && pc.val == v
  }

  // `s'` is `s` with one slot that held `v` cleared and, as in every step, another place for `t`.
  predicate ClearsOne(s: State, s': State, t: nat, v: Ptr) {
    && t < |s.threads| == |s'.threads|
    && exists i :: 0 <= i < |s.hazards| && s.hazards[i] == v && SlotCleared(s, s', t, i)
  }

  predicate SlotCleared(s: State, s': State, t: nat, i: nat) {
    && t < |s.threads| == |s'.threads| && i < |s.hazards|
    && s' == s.(hazards := s.hazards[i := 0], threads := s.threads[t := s'.threads[t]])
  }

  predicate OnlyMoves(s: State, s': State, t: nat) {
    && t < |s.threads| == |s'.threads| && s' == s.(threads := s.threads[t := s'.threads[t]])
  }

  lemma DroppingStep(s: State, a: Action, v: Ptr)
    requires Inv(s) && Inv(Step(s, a)) && a.tid < |s.threads| && Dropping(s.threads[a.tid], v)
    ensures var s' := Step(s, a);
      && a.tid < |s'.threads|
      && if Dropping(s'.threads[a.tid], v) then OnlyMoves(s, s', a.tid)
         else s'.threads[a.tid].Idle? && ClearsOne(s, s', a.tid, v)
  {
    var s', pc := Step(s, a), s.threads[a.tid];
    assert WellPlaced(s, pc);
    assert WellPlaced(s', s'.threads[a.tid]);
    if pc.walk.VisitCas? && s.hazards[pc.walk.i] == v {
      assert SlotCleared(s, s', a.tid, pc.walk.i);
    }
  }

  lemma {:induction false} CallDrops(s: State, call: seq<Action>, t: nat, v: Ptr, j: nat)
    requires Inv(s) && IsCall(s, call, t, Drop) && s.threads[t] == Holding(v) && 0 < j < |call|
    ensures Dropping(StateAfter(s, call, j).threads[t], v)
    ensures call[j - 1].tid == t ==> OnlyMoves(StateAfter(s, call, j - 1), StateAfter(s, call, j), t)
  {
    var before := StateAfter(s, call, j - 1);
    NextState(s, call, j - 1);
    if j == 1 {
      assert before == s;
    } else {
      CallDrops(s, call, t, v, j - 1);
      ReachInv(s, call, j - 1);
      ReachInv(s, call, j);
      if call[j - 1].tid == t { DroppingStep(before, call[j - 1], v); } else { OthersStay(before, call[j - 1], t); }
    }
  }

  /** A drop of `v` writes once: its last step clears one slot that holds `v`.  It always ends so. */
  lemma DropAnswers(s0: State, schedule: seq<Action>, call: seq<Action>, t: nat, v: Ptr)
    requires Init(s0)
    requires var s := Exec(s0, schedule); IsCall(s, call, t, Drop) && s.threads[t] == Holding(v)
    ensures var s := Exec(s0, schedule);
      && |call| > 1 && StateAfter(s, call, |call|).threads[t].Idle?
      && ClearsOne(StateAfter(s, call, |call| - 1), StateAfter(s, call, |call|), t, v)
      && forall j :: 0 < j < |call| && call[j - 1].tid == t ==>
           OnlyMoves(StateAfter(s, call, j - 1), StateAfter(s, call, j), t)
  {
    var s := Exec(s0, schedule);
    ExecInv(s0, schedule);
    var n := |call| - 1;
    NextState(s, call, n);
    DropTakesSteps(s, call, t, v);
    CallDrops(s, call, t, v, n);
    ReachInv(s, call, n);
    ReachInv(s, call, |call|);
    DroppingStep(StateAfter(s, call, n), call[n], v);
    forall j | 0 < j < |call| && call[j - 1].tid == t
      ensures OnlyMoves(StateAfter(s, call, j - 1), StateAfter(s, call, j), t)
    {
      CallDrops(s, call, t, v, j);
    }
  }

  lemma DropTakesSteps(s: State, call: seq<Action>, t: nat, v: Ptr)
    requires IsCall(s, call, t, Drop) && s.threads[t] == Holding(v)
    ensures |call| > 1
  {
    NextState(s, call, 0);
    assert StateAfter(s, call, 0) == s;
    DropBegins(s, t, v);
  }

  lemma DropBegins(s: State, t: nat, v: Ptr)
    requires t < |s.threads| && s.threads[t] == Holding(v)
    ensures Step(s, Action(t, Drop)) == s.Goto(t, Remove(v, ForDrop, WalkHead))
  {
  }

  // ---------- swap ----------

  /** A thread that has exchanged `out` out. */
  predicate Swapping(pc: Pc, out: Ptr, defer: bool) {
    match pc
    case Contains(val, scan, _) =>
      val == out && ((scan.SwapFirst? && scan.defer == defer) || (scan.SwapSpin? && !defer))
    case Insert(val, ins, _) => val == out && ins.ForRetire? && defer
    case Free(val, free) => val == out && free.FreeInSwap?
    case _ => false
  }

  predicate Frees(s: State, s': State, t: nat, v: Ptr) {
    && t < |s.threads| == |s'.threads|
    && s' == s.(freed := s.freed + multiset{v}, threads := s.threads[t := s'.threads[t]])
  }

  predicate Keeps(s: State, s': State, t: nat, v: Ptr) {
    && t < |s.threads| == |s'.threads|
    && s' == s.(retired := s'.retired, threads := s.threads[t := s'.threads[t]])
    && ((exists i :: 0 <= i < |s.retired| && s.retired[i] == 0 && s'.retired == s.retired[i := v])
        || s'.retired == s.retired + [v])
  }

  // A step of a swap goes on, or deallocates, or retires; it retires only what a scan has met.
  lemma SwappingStep(s: State, a: Action, out: Ptr, defer: bool)
    requires Inv(s) && a.tid < |s.threads| && Swapping(s.threads[a.tid], out, defer)
    ensures var s', pc := Step(s, a), s.threads[a.tid]; a.tid < |s'.threads| && var pc' := s'.threads[a.tid];
      && (pc'.Insert? && !pc.Insert? ==> out in s.hazards)
      && if Swapping(pc', out, defer) then OnlyMoves(s, s', a.tid)
         else pc'.Idle? && if pc.Insert? then Keeps(s, s', a.tid, out) else Frees(s, s', a.tid, out)
  {
    var s', pc := Step(s, a), s.threads[a.tid];
    assert WellPlaced(s, pc);
    if pc.Insert? && pc.at.FindCas? && s.retired[pc.at.i] == 0 { assert s'.retired == s.retired[pc.at.i := out]; }
  }

  ghost predicate MetSometime(s: State, call: seq<Action>, v: Ptr, j: nat)
    requires j <= |call|
  {
    exists i :: 0 <= i <= j && v in StateAfter(s, call, i).hazards
  }

  lemma MetLater(s: State, call: seq<Action>, v: Ptr, j: nat)
    requires j < |call|
    ensures MetSometime(s, call, v, j) || v in StateAfter(s, call, j).hazards ==> MetSometime(s, call, v, j + 1)
  {
  }

  predicate Enabled(s: State, source: nat, neu: Ptr) {
    source < |s.shared| && neu != 0 && neu !in s.installed
  }

  lemma {:induction false} CallSwaps(s: State, call: seq<Action>, t: nat, source: nat, neu: Ptr, defer: bool, j: nat)
    requires Inv(s) && Enabled(s, source, neu) && IsCall(s, call, t, Swap(source, neu, defer)) && s.threads[t].Idle?
    requires 0 < j < |call|
    ensures Swapping(StateAfter(s, call, j).threads[t], s.shared[source], defer)
    ensures StateAfter(s, call, j).threads[t].Insert? ==> MetSometime(s, call, s.shared[source], j)
  {
    var before, out := StateAfter(s, call, j - 1), s.shared[source];
    NextState(s, call, j - 1);
    if j == 1 {
      assert before == s;
    } else {
      CallSwaps(s, call, t, source, neu, defer, j - 1);
      ReachInv(s, call, j - 1);
      if call[j - 1].tid == t {
        SwappingStep(before, call[j - 1], out, defer);
      } else {
        OthersStay(before, call[j - 1], t);
      }
    }
  }

  /** A swap puts the new value in the place of the old one in its first step.  It ends by
      deallocating the old value; only when told to defer, and when some slot held the old value
      in a state of the call, may it put it on the retired list instead. */
  lemma SwapAnswers(s0: State, schedule: seq<Action>, call: seq<Action>, t: nat, source: nat, neu: Ptr, defer: bool)
    requires Init(s0)
    requires var s := Exec(s0, schedule);
      Enabled(s, source, neu) && IsCall(s, call, t, Swap(source, neu, defer)) && s.threads[t].Idle?
    ensures var s := Exec(s0, schedule);
      var out, last, end := s.shared[source], StateAfter(s, call, |call| - 1), StateAfter(s, call, |call|);
      && |call| > 1 && StateAfter(s, call, 1).shared == s.shared[source := neu]
      && end.threads[t].Idle?
      && (Frees(last, end, t, out)
          || (Keeps(last, end, t, out) && defer && MetSometime(s, call, out, |call|)))
  {
    var s := Exec(s0, schedule);
    ExecInv(s0, schedule);
    var n := |call| - 1;
    NextState(s, call, n);
    SwapTakesSteps(s, call, t, source, neu, defer);
    CallSwaps(s, call, t, source, neu, defer, n);
    ReachInv(s, call, n);
    SwappingStep(StateAfter(s, call, n), call[n], s.shared[source], defer);
  }

  lemma SwapTakesSteps(s: State, call: seq<Action>, t: nat, source: nat, neu: Ptr, defer: bool)
    requires Enabled(s, source, neu) && IsCall(s, call, t, Swap(source, neu, defer)) && s.threads[t].Idle?
    ensures |call| > 1 && StateAfter(s, call, 1).shared == s.shared[source := neu]
  {
    NextState(s, call, 0);
    assert StateAfter(s, call, 0) == s;
    SwapBegins(s, t, source, neu, defer);
  }

  lemma SwapBegins(s: State, t: nat, source: nat, neu: Ptr, defer: bool)
    requires t < |s.threads| && s.threads[t].Idle? && Enabled(s, source, neu)
    ensures var s' := Step(s, Action(t, Swap(source, neu, defer)));
      s'.shared == s.shared[source := neu] && t < |s'.threads| && !Rests(s'.threads[t])
  {
  }

  // ---------- cleanup ----------

  // A thread that may still put `v` on the retired list.
  predicate MayRetire(pc: Pc, v: Ptr) {
    (pc.Contains? && (pc.scan.SwapFirst? || pc.scan.SwapSpin?) && pc.val == v)
    || (pc.Insert? && pc.ins.ForRetire? && pc.val == v)
  }

  /** `v` was retired into slot `r`: it is there or gone from the list, and never comes back. */
  ghost predicate RetiredAt(s: State, v: Ptr, r: nat) {
    && v != 0 && v in s.installed && v !in s.shared && r < |s.retired|
    && (forall t :: 0 <= t < |s.threads| ==> !MayRetire(s.threads[t], v))
    && (forall i :: 0 <= i < |s.retired| && s.retired[i] == v ==> i == r)
  }

  lemma CountOne(list: seq<Ptr>, v: Ptr, i: nat, j: nat)
    requires i < j < |list| && list[i] == list[j] == v
    ensures Count(list, v) >= 2
  {
    CountMonotone(list, v, i, j);
    CountMonotone(list, v, j, |list|);
  }

  lemma CountIn(list: seq<Ptr>, v: Ptr)
    ensures v in list ==> Count(list, v) >= 1
  {
    if v in list {
      var i :| 0 <= i < |list| && list[i] == v;
      CountMonotone(list, v, i, |list|);
    }
  }

  lemma FoundRetired(s: State, v: Ptr, r: nat)
    requires Inv(s) && v != 0 && r < |s.retired| && s.retired[r] == v
    ensures RetiredAt(s, v, r)
  {
    assert LedgerAt(s, v);
    CountMonotone(s.retired, v, r, |s.retired|);
    forall i | 0 <= i < |s.retired| && s.retired[i] == v ensures i == r {
      if i < r { CountOne(s.retired, v, i, r); }
      if r < i { CountOne(s.retired, v, r, i); }
    }
    CountIn(s.shared, v);
    forall t | 0 <= t < |s.threads| ensures !MayRetire(s.threads[t], v) {
      if MayRetire(s.threads[t], v) { SumUpdate(s.threads, t, Idle, Custodians(v)); }
    }
  }

  // What a step of thread `t` does about a value that was retired.
  predicate NoReturn(s: State, s': State, t: nat, v: Ptr) {
    && t < |s.threads| == |s'.threads| && s'.threads == s.threads[t := s'.threads[t]] && !MayRetire(s'.threads[t], v)
    && s.installed <= s'.installed && v !in s'.shared && |s.retired| <= |s'.retired|
    && forall i :: 0 <= i < |s'.retired| && s'.retired[i] == v ==> i < |s.retired| && s.retired[i] == v
  }

  predicate Settled(s: State, t: nat, v: Ptr) {
    && t < |s.threads| && !MayRetire(s.threads[t], v) && v != 0 && v in s.installed && v !in s.shared
    && InBounds(s, s.threads[t])
  }

  lemma InsertNoReturn(s: State, t: nat, v: Ptr)
    requires Settled(s, t, v) && s.threads[t].Insert?
    ensures var pc := s.threads[t]; NoReturn(s, InsertStep(s, t, pc.val, pc.ins, pc.at), t, v)
  {
  }

  lemma RemoveNoReturn(s: State, t: nat, v: Ptr)
    requires Settled(s, t, v) && s.threads[t].Remove?
    ensures var pc := s.threads[t]; NoReturn(s, RemoveStep(s, t, pc.val, pc.rem, pc.walk), t, v)
  {
  }

  lemma LoadNoReturn(s: State, t: nat, v: Ptr)
    requires Settled(s, t, v) && (s.threads[t].ReadShared? || s.threads[t].Validate? || s.threads[t].Undo?)
    ensures NoReturn(s, LoadStep(s, t), t, v)
  {
  }

  lemma ReclaimNoReturn(s: State, t: nat, v: Ptr)
    requires Settled(s, t, v) && (s.threads[t].Free? || s.threads[t].CleanStart? || s.threads[t].CleanAt?)
    ensures NoReturn(s, ReclaimStep(s, t), t, v)
  {
  }

  lemma ContainsNoReturn(s: State, t: nat, v: Ptr)
    requires Settled(s, t, v) && s.threads[t].Contains?
    ensures var pc := s.threads[t]; NoReturn(s, ContainsStep(s, t, pc.val, pc.scan, pc.walk), t, v)
  {
  }

  lemma BeginNoReturn(s: State, t: nat, cmd: Cmd, v: Ptr)
    requires Settled(s, t, v) && s.threads[t].Idle?
    ensures NoReturn(s, Begin(s, t, cmd), t, v)
  {
  }

  lemma StepNoReturn(s: State, a: Action, v: Ptr)
    requires Settled(s, a.tid, v)
    ensures NoReturn(s, Step(s, a), a.tid, v)
  {
    var pc := s.threads[a.tid];
    if pc.Idle? { BeginNoReturn(s, a.tid, a.cmd, v); }
    else if pc.Insert? { InsertNoReturn(s, a.tid, v); }
    else if pc.Remove? { RemoveNoReturn(s, a.tid, v); }
    else if pc.Contains? { ContainsNoReturn(s, a.tid, v); }
    else if pc.ReadShared? || pc.Validate? || pc.Undo? { LoadNoReturn(s, a.tid, v); }
    else if pc.Free? || pc.CleanStart? || pc.CleanAt? { ReclaimNoReturn(s, a.tid, v); }
  }

  lemma RetiredStays(s: State, a: Action, v: Ptr, r: nat)
    requires Inv(s) && RetiredAt(s, v, r)
    ensures RetiredAt(Step(s, a), v, r)
    ensures s.retired[r] != v ==> Step(s, a).retired[r] != v
  {
    if a.tid < |s.threads| {
      assert WellPlaced(s, s.threads[a.tid]);
      StepNoReturn(s, a, v);
    }
  }

  /** A cleanup that has not passed retired slot `r`, where `v` is. */
  predicate Ahead(pc: Pc, v: Ptr, r: nat, defer: bool) {
    match pc
    case CleanStart(d) => d == defer
    case CleanAt(i, d) => d == defer && r <= i
    case Contains(val, scan, _) =>
      match scan {
        case CleanFirst(i, d) => d == defer && (r < i || (r == i && val == v))
        case CleanSpin(i) => !defer && (r < i || (r == i && val == v))
        case _ => false
      }
    case Remove(val, rem, walk) =>
      && rem.ForClean? && rem.defer == defer
      && (r < rem.r || (r == rem.r && val == v && (walk.WalkHead? || r <= walk.i)))
    case Free(_, free) => free.FreeInCleanup? && free.defer == defer && r < free.r
    case _ => false
  }

  // A step of the cleanup does not pass the slot, unless it met the value and may defer.
  predicate StaysAhead(s: State, s': State, t: nat, v: Ptr, r: nat, defer: bool) {
    t < |s'.threads| && (Ahead(s'.threads[t], v, r, defer) || (defer && v in s.hazards))
  }

  predicate Attending(s: State, t: nat, v: Ptr, r: nat, defer: bool) {
    && t < |s.threads| && InBounds(s, s.threads[t]) && Ahead(s.threads[t], v, r, defer)
    && v != 0 && r < |s.retired| && s.retired[r] == v
    && forall i :: 0 <= i < |s.retired| && s.retired[i] == v ==> i == r
  }

  lemma ReclaimAhead(s: State, t: nat, v: Ptr, r: nat, defer: bool)
    requires Attending(s, t, v, r, defer) && (s.threads[t].Free? || s.threads[t].CleanStart? || s.threads[t].CleanAt?)
    ensures StaysAhead(s, ReclaimStep(s, t), t, v, r, defer)
  {
  }

  lemma ContainsAhead(s: State, t: nat, v: Ptr, r: nat, defer: bool)
    requires Attending(s, t, v, r, defer) && s.threads[t].Contains?
    ensures var pc := s.threads[t]; StaysAhead(s, ContainsStep(s, t, pc.val, pc.scan, pc.walk), t, v, r, defer)
  {
  }

  lemma RemoveAhead(s: State, t: nat, v: Ptr, r: nat, defer: bool)
    requires Attending(s, t, v, r, defer) && s.threads[t].Remove?
    requires var pc := s.threads[t]; var s' := RemoveStep(s, t, pc.val, pc.rem, pc.walk);
      r < |s'.retired| && s'.retired[r] == v
    ensures var pc := s.threads[t]; StaysAhead(s, RemoveStep(s, t, pc.val, pc.rem, pc.walk), t, v, r, defer)
  {
    var pc := s.threads[t];
    var s' := RemoveStep(s, t, pc.val, pc.rem, pc.walk);
    assert s.List(!pc.rem.ForClean?) == s.retired;
    if pc.walk.VisitCas? && s.retired[pc.walk.i] == pc.val {
      assert s'.retired == s.retired[pc.walk.i := 0];
      assert s'.threads[t] == Free(pc.val, FreeInCleanup(pc.rem.r, pc.rem.defer));
    }
  }

  lemma AheadStep(s: State, a: Action, v: Ptr, r: nat, defer: bool)
    requires Attending(s, a.tid, v, r, defer) && r < |Step(s, a).retired| && Step(s, a).retired[r] == v
    ensures StaysAhead(s, Step(s, a), a.tid, v, r, defer)
  {
    var pc := s.threads[a.tid];
    if pc.Remove? { RemoveAhead(s, a.tid, v, r, defer); }
    else if pc.Contains? { ContainsAhead(s, a.tid, v, r, defer); }
    else { ReclaimAhead(s, a.tid, v, r, defer); }
  }

  // Where a cleanup stands with respect to a value that was retired as it began.
  ghost predicate Attends(s: State, call: seq<Action>, t: nat, v: Ptr, r: nat, defer: bool, j: nat)
    requires j <= |call|
  {
    var now := StateAfter(s, call, j);
    && RetiredAt(now, v, r) && t < |now.threads|
    && (now.retired[r] == v ==> Ahead(now.threads[t], v, r, defer) || (defer && MetSometime(s, call, v, j)))
  }

  lemma AttendsNext(s: State, call: seq<Action>, t: nat, v: Ptr, r: nat, defer: bool, j: nat)
    requires Inv(s) && j < |call| && Attends(s, call, t, v, r, defer, j)
    ensures Attends(s, call, t, v, r, defer, j + 1)
  {
    var now, next := StateAfter(s, call, j), StateAfter(s, call, j + 1);
    ReachInv(s, call, j);
    NextState(s, call, j);
    RetiredStays(now, call[j], v, r);
    ThreadsStay(now, call[j]);
    MetLater(s, call, v, j);
    if call[j].tid != t {
      OthersStay(now, call[j], t);
    } else if next.retired[r] == v && Ahead(now.threads[t], v, r, defer) {
      assert WellPlaced(now, now.threads[t]);
      AheadStep(now, call[j], v, r, defer);
    }
  }

  lemma ThreadsStay(s: State, a: Action)
    ensures |Step(s, a).threads| == |s.threads|
  {
  }

  lemma {:induction false} CallAttends(s: State, call: seq<Action>, t: nat, v: Ptr, r: nat, defer: bool, j: nat)
    requires Inv(s) && IsCall(s, call, t, Cleanup(defer)) && s.threads[t].Idle?
    requires v != 0 && r < |s.retired| && s.retired[r] == v && 0 < j <= |call|
    ensures Attends(s, call, t, v, r, defer, j)
  {
    if j == 1 {
      FoundRetired(s, v, r);
      NextState(s, call, 0);
      assert StateAfter(s, call, 0) == s;
      RetiredStays(s, call[0], v, r);
    } else {
      CallAttends(s, call, t, v, r, defer, j - 1);
      AttendsNext(s, call, t, v, r, defer, j - 1);
    }
  }

  /** A cleanup visits every retired slot: when it returns, no value that was on the retired list as
      it began is still there, unless it was told to defer and some slot held that value in a
      state of the call. */
  lemma CleanupAnswers(s0: State, schedule: seq<Action>, call: seq<Action>, t: nat, defer: bool, v: Ptr)
    requires Init(s0)
    requires var s := Exec(s0, schedule);
      IsCall(s, call, t, Cleanup(defer)) && s.threads[t].Idle? && v != 0 && v in s.retired
    ensures var s := Exec(s0, schedule);
      v in StateAfter(s, call, |call|).retired ==> defer && MetSometime(s, call, v, |call|)
  {
    var s := Exec(s0, schedule);
    ExecInv(s0, schedule);
    var r :| 0 <= r < |s.retired| && s.retired[r] == v;
    CallAttends(s, call, t, v, r, defer, |call|);
  }
}
