/** Which calls of the hazard-pointer domain wait for other threads: those that were told not to defer,
    while a slot holds the value they want to deallocate.  Every other call returns, from wherever
    it and the other threads have stopped, if its thread runs alone. */
module HazardProgress {
  import opened HazardDomain
  import opened HazardSafety
  import opened HazardCalls

  // ---------- sources ----------

  // A load names a shared pointer that exists.
  predicate SourceIn(pc: Pc, n: nat) {
    match pc
    case ReadShared(source) => source < n
    case Insert(_, ins, _) => ins.ForLoad? ==> ins.source < n
    case Validate(_, _, source) => source < n
    case Undo(_, _, source) => source < n
    case Remove(_, rem, _) => rem.ForUndo? ==> rem.source < n
    case _ => true
  }

  predicate Sources(s: State) {
    forall t :: 0 <= t < |s.threads| ==> SourceIn(s.threads[t], |s.shared|)
  }

  predicate KeepsSource(s: State, s': State, t: nat) {
    && t < |s.threads| && |s'.threads| == |s.threads| && |s'.shared| == |s.shared|
    && SourceIn(s'.threads[t], |s.shared|)
  }

  lemma ListsKeepSource(s: State, t: nat)
    requires t < |s.threads| && SourceIn(s.threads[t], |s.shared|)
    ensures var pc := s.threads[t];
      && (pc.Insert? ==> KeepsSource(s, InsertStep(s, t, pc.val, pc.ins, pc.at), t))
      && (pc.Remove? ==> KeepsSource(s, RemoveStep(s, t, pc.val, pc.rem, pc.walk), t))
      && (pc.Contains? ==> KeepsSource(s, ContainsStep(s, t, pc.val, pc.scan, pc.walk), t))
  {
  }

  lemma SourceStep(s: State, a: Action)
    requires a.tid < |s.threads| && SourceIn(s.threads[a.tid], |s.shared|)
    ensures KeepsSource(s, Step(s, a), a.tid)
  {
    var pc := s.threads[a.tid];
    if pc.Insert? || pc.Remove? || pc.Contains? { ListsKeepSource(s, a.tid); }
  }

  lemma SourcesStep(s: State, a: Action)
    requires Sources(s)
    ensures Sources(Step(s, a))
  {
    if a.tid < |s.threads| {
      SourceStep(s, a);
      ThreadsStay(s, a);
      forall t | 0 <= t < |s.threads| ensures SourceIn(Step(s, a).threads[t], |s.shared|) {
        if t != a.tid { OthersStay(s, a, t); }
      }
    }
  }

  lemma {:induction false} ExecSources(s: State, schedule: seq<Action>)
    requires Init(s)
    ensures Inv(Exec(s, schedule)) && Sources(Exec(s, schedule))
    decreases |schedule|
  {
    ExecInv(s, schedule);
    if schedule != [] {
      ExecSources(s, schedule[..|schedule| - 1]);
      SourcesStep(Exec(s, schedule[..|schedule| - 1]), schedule[|schedule| - 1]);
    }
  }

  // ---------- what a thread that runs alone uses up ----------

  /** The most significant part first: retired slots to visit, or a shared pointer to read again; the
      stage of the call; slots ahead of the walk; accesses. */
  datatype Rank = Rank(left: nat, stage: nat, slots: nat, access: nat)

  predicate Below(r: Rank, q: Rank) {
    || r.left < q.left
    || (r.left == q.left && (r.stage < q.stage
        || (r.stage == q.stage && (r.slots < q.slots || (r.slots == q.slots && r.access < q.access)))))
  }

  function InsertRank(list: seq<Ptr>, left: nat, stage: nat, at: InsertAt): Rank {
    match at
    case FindHead => Rank(left, stage, |list| + 1, 0)
    case Find(i) => Rank(left, stage, i + 1, 1)
    case FindCas(i) => Rank(left, stage, i + 1, 0)
    case AppendRead => Rank(left, stage, 0, 2)
    case AppendCas(seen) => Rank(left, stage, 0, if seen == |list| then 0 else 1)
  }

  function WalkRank(list: seq<Ptr>, left: nat, stage: nat, walk: WalkAt): Rank {
    match walk
    case WalkHead => Rank(left, stage, |list| + 1, 0)
    case Visit(i) => Rank(left, stage, i + 1, 1)
    case VisitCas(i) => Rank(left, stage, i + 1, 0)
  }

  // A load whose value is outdated has to read the shared pointer again.
  function Outdated(s: State, val: Ptr, source: nat): nat {
    if source < |s.shared| && s.shared[source] == val then 0 else 1
  }

  function RankOf(s: State, pc: Pc): Rank {
    match pc
    case Idle => Rank(0, 0, 0, 0)
    case Holding(_) => Rank(0, 0, 0, 0)
    case DropFailed(_) => Rank(0, 0, 0, 0)
    case ReadShared(_) => Rank(0, 9, 0, 0)
    case Insert(val, ins, at) =>
      if ins.ForLoad? then InsertRank(s.hazards, Outdated(s, val, ins.source), 8, at)
      else InsertRank(s.retired, 0, 6, at)
    case Validate(val, _, source) => Rank(Outdated(s, val, source), 7, 0, 0)
    case Undo(_, _, _) => Rank(1, 6, 0, 0)
    case Remove(_, rem, walk) =>
      (match rem
       case ForUndo(_) => WalkRank(s.hazards, 1, 5, walk)
       case ForDrop => WalkRank(s.hazards, 0, 5, walk)
       case ForClean(r, _) => WalkRank(s.retired, r + 1, 5, walk))
    case Contains(_, scan, walk) =>
      (match scan
       case SwapFirst(_) => WalkRank(s.hazards, 0, 8, walk)
       case SwapSpin => WalkRank(s.hazards, 0, 7, walk)
       case CleanFirst(r, _) => WalkRank(s.hazards, r + 1, 8, walk)
       case CleanSpin(r) => WalkRank(s.hazards, r + 1, 7, walk))
    case Free(_, free) => if free.FreeInCleanup? then Rank(free.r + 1, 4, 0, 0) else Rank(0, 4, 0, 0)
    case CleanStart(_) => Rank(|s.retired| + 1, 9, 0, 0)
    case CleanAt(r, _) => Rank(r + 1, 9, 0, 0)
  }

  // ---------- which calls wait ----------

  /** A slot that the scan has still to visit holds `val`. */
  predicate Meets(s: State, val: Ptr, walk: WalkAt) {
    exists k :: 0 <= k < |s.hazards| && s.hazards[k] == val && Reaches(walk, k)
  }

  // A cleanup that was told not to defer.
  predicate Insists(pc: Pc) {
    match pc
    case CleanStart(defer) => !defer
    case CleanAt(_, defer) => !defer
    case Contains(_, scan, _) => scan.CleanSpin? || (scan.CleanFirst? && !scan.defer)
    case Remove(_, rem, _) => rem.ForClean? && !rem.defer
    case Free(_, free) => free.FreeInCleanup? && !free.defer
    case _ => false
  }

  // A swap that was told not to defer, before it deallocates.
  predicate Scans(pc: Pc) {
    pc.Contains? && (pc.scan.SwapSpin? || (pc.scan.SwapFirst? && !pc.scan.defer))
  }

  // The retired slots that a cleanup has still to come to are those below this one.
  function SlotsLeft(s: State, pc: Pc): nat {
    match pc
    case CleanStart(_) => |s.retired|
    case CleanAt(r, _) => r + 1
    case Contains(_, scan, _) => if scan.CleanFirst? || scan.CleanSpin? then scan.r else 0
    case Remove(_, rem, _) => if rem.ForClean? then rem.r else 0
    case Free(_, free) => if free.FreeInCleanup? then free.r else 0
    case _ => 0
  }

  // Retired slot `r` holds a value that some slot protects.
  predicate Protected(s: State, r: nat)
    requires r < |s.retired|
  {
    s.retired[r] != 0 && s.retired[r] in s.hazards
  }

  /** Nothing is in the way of the call: its scan will not meet the value it is about, and no retired
      slot that it has still to come to holds a protected value. */
  predicate Unhindered(s: State, pc: Pc) {
    && (Scans(pc) || (Insists(pc) && pc.Contains?) ==> !Meets(s, pc.val, pc.walk))
    && (Insists(pc) ==> forall r :: 0 <= r < SlotsLeft(s, pc) && r < |s.retired| ==> !Protected(s, r))
  }

  // A step of thread `t` ends its call, or goes down and still has nothing in its way.
  ghost predicate Descends(s: State, s': State, t: nat) {
    && t < |s.threads| && t < |s'.threads|
    && var pc, pc' := s.threads[t], s'.threads[t];
       Rests(pc') || (!pc'.DropFailed? ==> Below(RankOf(s', pc'), RankOf(s, pc)) && Unhindered(s', pc'))
  }

  // The retired slots left stay free of protected values.
  lemma StaysFree(s: State, s': State, pc: Pc, pc': Pc)
    requires Unhindered(s, pc) && (Insists(pc') ==> Insists(pc)) && s'.hazards == s.hazards
    requires SlotsLeft(s', pc') <= SlotsLeft(s, pc) && |s'.retired| == |s.retired|
    requires forall r :: 0 <= r < |s.retired| ==> s'.retired[r] == s.retired[r] || s'.retired[r] == 0
    ensures Insists(pc') ==> forall r :: 0 <= r < SlotsLeft(s', pc') && r < |s'.retired| ==> !Protected(s', r)
  {
    forall r | Insists(pc') && 0 <= r < SlotsLeft(s', pc') && r < |s'.retired| ensures !Protected(s', r) {
      assert !Protected(s, r);
    }
  }

  // What is known of a thread in a call.
  predicate Going(s: State, t: nat) {
    t < |s.threads| && InBounds(s, s.threads[t]) && SourceIn(s.threads[t], |s.shared|) && Unhindered(s, s.threads[t])
  }

  lemma LoadDescends(s: State, t: nat)
    requires Going(s, t) && (s.threads[t].ReadShared? || s.threads[t].Validate? || s.threads[t].Undo?)
    ensures Descends(s, LoadStep(s, t), t)
  {
  }

  lemma InsertDescends(s: State, t: nat)
    requires Going(s, t) && s.threads[t].Insert?
    ensures var pc := s.threads[t]; Descends(s, InsertStep(s, t, pc.val, pc.ins, pc.at), t)
  {
  }

  lemma RemoveDescends(s: State, t: nat)
    requires Going(s, t) && s.threads[t].Remove?
    ensures var pc := s.threads[t]; Descends(s, RemoveStep(s, t, pc.val, pc.rem, pc.walk), t)
  {
    var pc := s.threads[t];
    var s' := RemoveStep(s, t, pc.val, pc.rem, pc.walk);
    if pc.rem.ForClean? { StaysFree(s, s', pc, s'.threads[t]); }
  }

  lemma ContainsDescends(s: State, t: nat)
    requires Going(s, t) && s.threads[t].Contains?
    ensures var pc := s.threads[t]; Descends(s, ContainsStep(s, t, pc.val, pc.scan, pc.walk), t)
  {
    var pc := s.threads[t];
    var s' := ContainsStep(s, t, pc.val, pc.scan, pc.walk);
    StaysFree(s, s', pc, s'.threads[t]);
  }

  lemma ReclaimDescends(s: State, t: nat)
    requires Going(s, t) && (s.threads[t].Free? || s.threads[t].CleanStart? || s.threads[t].CleanAt?)
    ensures Descends(s, ReclaimStep(s, t), t)
  {
    var pc, s' := s.threads[t], ReclaimStep(s, t);
    StaysFree(s, s', pc, s'.threads[t]);
    if pc.CleanAt? && !pc.defer { assert !Protected(s, pc.r); }
  }

  lemma StepDescends(s: State, t: nat)
    requires Inv(s) && Sources(s) && t < |s.threads| && !Rests(s.threads[t]) && Unhindered(s, s.threads[t])
    ensures var s' := Step(s, Action(t, Continue)); Inv(s') && Sources(s') && t < |s'.threads|
    ensures var s' := Step(s, Action(t, Continue)); var pc, pc' := s.threads[t], s'.threads[t];
      Rests(pc') || (Below(RankOf(s', pc'), RankOf(s, pc)) && Unhindered(s', pc'))
  {
    var pc := s.threads[t];
    InvStep(s, Action(t, Continue));
    SourcesStep(s, Action(t, Continue));
    ThreadsStay(s, Action(t, Continue));
    assert WellPlaced(s, pc);
    assert WellPlaced(Step(s, Action(t, Continue)), Step(s, Action(t, Continue)).threads[t]);
    if pc.Insert? { InsertDescends(s, t); }
    else if pc.Remove? { RemoveDescends(s, t); }
    else if pc.Contains? { ContainsDescends(s, t); }
    else if pc.Free? || pc.CleanStart? || pc.CleanAt? { ReclaimDescends(s, t); }
    else { LoadDescends(s, t); }
  }

  // ---------- runs of one thread ----------

  // The state after `n` steps of thread `t` alone.
  function Alone(s: State, t: nat, n: nat): State
    decreases n
  {
    if n == 0 then s else Alone(Step(s, Action(t, Continue)), t, n - 1)
  }

  predicate ReturnsAt(s: State, t: nat, n: nat) {
    t < |Alone(s, t, n).threads| && Rests(Alone(s, t, n).threads[t])
  }

  ghost predicate ReturnsAlone(s: State, t: nat) {
    exists n :: ReturnsAt(s, t, n)
  }

  lemma RestsAlready(s: State, t: nat)
    requires t < |s.threads| && Rests(s.threads[t])
    ensures ReturnsAt(s, t, 0)
  {
    assert Alone(s, t, 0) == s;
  }

  lemma ReturnsEarlier(s: State, t: nat, n: nat)
    requires ReturnsAt(Step(s, Action(t, Continue)), t, n)
    ensures ReturnsAt(s, t, n + 1)
  {
  }

  // A thread in a call that nothing hinders, and what it has left.
  ghost predicate Running(s: State, t: nat, rank: Rank) {
    && Inv(s) && Sources(s) && t < |s.threads| && !Rests(s.threads[t]) && Unhindered(s, s.threads[t])
    && rank == RankOf(s, s.threads[t])
  }

  // Its next state and what it has left then.
  lemma Onward(s: State, t: nat, rank: Rank) returns (s': State, rank': Rank)
    requires Running(s, t, rank)
    ensures forall n: nat :: ReturnsAt(s', t, n) ==> ReturnsAt(s, t, n + 1)
    ensures t < |s'.threads| && (Rests(s'.threads[t]) || (Running(s', t, rank') && Below(rank', rank)))
  {
    s' := Step(s, Action(t, Continue));
    StepDescends(s, t);
    rank' := RankOf(s', s'.threads[t]);
    forall n: nat | ReturnsAt(s', t, n) ensures ReturnsAt(s, t, n + 1) { ReturnsEarlier(s, t, n); }
  }

  lemma {:induction false} RunsDown(s: State, t: nat, rank: Rank) returns (n: nat)
    requires Running(s, t, rank)
    ensures ReturnsAt(s, t, n)
    decreases rank.left, rank.stage, rank.slots, rank.access
  {
    var s', rank' := Onward(s, t, rank);
    if Rests(s'.threads[t]) {
      RestsAlready(s', t);
      n := 0;
    } else {
      n := RunsDown(s', t, rank');
    }
    n := n + 1;
  }

  // ---------- calls that wait ----------

  // A swap whose scan will meet its value starts over and meets it again.
  predicate Spins(s: State, pc: Pc) {
    (Scans(pc) || (Insists(pc) && pc.Contains?)) && Meets(s, pc.val, pc.walk)
  }

  // A cleanup that will come to a protected value.
  predicate WillSpin(s: State, pc: Pc, r: nat) {
    Insists(pc) && r < SlotsLeft(s, pc) && r < |s.retired| && Protected(s, r)
  }

  predicate Spinning(s: State, t: nat) {
    && t < |s.threads| && InBounds(s, s.threads[t])
    && var pc := s.threads[t]; Spins(s, pc) || exists r :: 0 <= r < |s.retired| && WillSpin(s, pc, r)
  }

  // Where a cleanup found the value it is about.
  predicate About(pc: Pc, v: Ptr, r: nat) {
    match pc
    case Contains(val, scan, _) => val == v && (scan.CleanFirst? || scan.CleanSpin?) && scan.r == r
    case Remove(val, rem, _) => val == v && rem.ForClean? && rem.r == r
    case Free(val, free) => val == v && free.FreeInCleanup? && free.r == r
    case _ => false
  }

  ghost predicate Found(s: State, t: nat) {
    t < |s.threads| && forall v: Ptr, r: nat :: About(s.threads[t], v, r) ==> RetiredAt(s, v, r)
  }

  lemma AboutStep(s: State, a: Action, v: Ptr, r: nat)
    requires a.tid < |s.threads| && InBounds(s, s.threads[a.tid])
    requires About(Step(s, a).threads[a.tid], v, r) && !About(s.threads[a.tid], v, r)
    ensures v != 0 && r < |s.retired| && s.retired[r] == v
  {
  }

  lemma FoundStep(s: State, a: Action, t: nat)
    requires Inv(s) && Found(s, t)
    ensures Found(Step(s, a), t)
  {
    ThreadsStay(s, a);
    if a.tid != t { OthersStay(s, a, t); }
    assert WellPlaced(s, s.threads[t]);
    forall v: Ptr, r: nat | About(Step(s, a).threads[t], v, r) ensures RetiredAt(Step(s, a), v, r) {
      if !About(s.threads[t], v, r) {
        AboutStep(s, a, v, r);
        FoundRetired(s, v, r);
      }
      RetiredStays(s, a, v, r);
    }
  }

  lemma {:induction false} ExecFound(s: State, schedule: seq<Action>, t: nat)
    requires Init(s) && t < |s.threads|
    ensures Found(Exec(s, schedule), t)
    decreases |schedule|
  {
    if schedule != [] {
      var k := |schedule| - 1;
      ExecFound(s, schedule[..k], t);
      ExecInv(s, schedule[..k]);
      FoundStep(Exec(s, schedule[..k]), schedule[k], t);
    }
  }

  lemma ScanSpins(s: State, t: nat)
    requires t < |s.threads| && InBounds(s, s.threads[t]) && Spins(s, s.threads[t])
    ensures var s' := Step(s, Action(t, Continue)); t < |s'.threads| && Spins(s', s'.threads[t])
  {
    var pc := s.threads[t];
    var k :| 0 <= k < |s.hazards| && s.hazards[k] == pc.val && Reaches(pc.walk, k);
    var s' := Step(s, Action(t, Continue));
    assert s' == ContainsStep(s, t, pc.val, pc.scan, pc.walk);
    assert s'.hazards[k] == pc.val && Reaches(s'.threads[t].walk, k);
  }

  // A cleanup before a protected slot, and its next step.
  predicate Keeps(s: State, s': State, t: nat, r: nat) {
    t < |s'.threads| && (WillSpin(s', s'.threads[t], r) || Spins(s', s'.threads[t]))
  }

  lemma RemoveKeeps(s: State, t: nat, r: nat)
    requires t < |s.threads| && InBounds(s, s.threads[t]) && Found(s, t) && WillSpin(s, s.threads[t], r)
    requires s.threads[t].Remove?
    ensures var pc := s.threads[t]; Keeps(s, RemoveStep(s, t, pc.val, pc.rem, pc.walk), t, r)
  {
    var pc := s.threads[t];
    assert About(pc, pc.val, pc.rem.r);
  }

  lemma ContainsKeeps(s: State, t: nat, r: nat)
    requires t < |s.threads| && InBounds(s, s.threads[t]) && WillSpin(s, s.threads[t], r) && s.threads[t].Contains?
    ensures var pc := s.threads[t]; Keeps(s, ContainsStep(s, t, pc.val, pc.scan, pc.walk), t, r)
  {
  }

  lemma ReclaimKeeps(s: State, t: nat, r: nat)
    requires t < |s.threads| && InBounds(s, s.threads[t]) && WillSpin(s, s.threads[t], r)
    requires s.threads[t].Free? || s.threads[t].CleanStart? || s.threads[t].CleanAt?
    ensures Keeps(s, ReclaimStep(s, t), t, r)
  {
    var s' := ReclaimStep(s, t);
    if s.threads[t].CleanAt? && s.threads[t].r == r {
      var k :| 0 <= k < |s.hazards| && s.hazards[k] == s.retired[r];
      assert s'.hazards[k] == s'.threads[t].val && Reaches(s'.threads[t].walk, k);
    }
  }

  lemma StaysSpinning(s: State, t: nat)
    requires Inv(s) && Found(s, t) && Spinning(s, t)
    ensures Spinning(Step(s, Action(t, Continue)), t)
  {
    var pc, s' := s.threads[t], Step(s, Action(t, Continue));
    InvStep(s, Action(t, Continue));
    ThreadsStay(s, Action(t, Continue));
    assert WellPlaced(s', s'.threads[t]);
    if Spins(s, pc) {
      ScanSpins(s, t);
    } else {
      var r :| 0 <= r < |s.retired| && WillSpin(s, pc, r);
      if pc.Remove? { RemoveKeeps(s, t, r); }
      else if pc.Contains? { ContainsKeeps(s, t, r); }
      else { ReclaimKeeps(s, t, r); }
    }
  }

  lemma {:induction false} NeverReturns(s: State, t: nat, n: nat)
    requires Inv(s) && Found(s, t) && Spinning(s, t)
    ensures Spinning(Alone(s, t, n), t)
    decreases n
  {
    if n > 0 {
      StaysSpinning(s, t);
      InvStep(s, Action(t, Continue));
      FoundStep(s, Action(t, Continue), t);
      NeverReturns(Step(s, Action(t, Continue)), t, n - 1);
    }
  }

  lemma {:induction false} ThreadsKept(s: State, schedule: seq<Action>)
    ensures |Exec(s, schedule).threads| == |s.threads|
    decreases |schedule|
  {
    if schedule != [] {
      ThreadsKept(s, schedule[..|schedule| - 1]);
      ThreadsStay(Exec(s, schedule[..|schedule| - 1]), schedule[|schedule| - 1]);
    }
  }

  lemma HinderedSpins(s: State, t: nat)
    requires t < |s.threads| && InBounds(s, s.threads[t]) && !Unhindered(s, s.threads[t])
    ensures Spinning(s, t)
  {
    var pc := s.threads[t];
    if !Spins(s, pc) {
      var r :| 0 <= r < SlotsLeft(s, pc) && r < |s.retired| && Protected(s, r);
      assert WillSpin(s, pc, r);
    }
  }

  lemma SpinsForever(s: State, t: nat)
    requires Inv(s) && Found(s, t) && Spinning(s, t)
    ensures !ReturnsAlone(s, t)
  {
    forall n: nat ensures !ReturnsAt(s, t, n) { NeverReturns(s, t, n); }
  }

  /** In every reachable state a thread in the middle of a call returns if it runs alone, unless the
      call is a swap or a cleanup that was told not to defer; and that one returns if and only if its
      scan will not meet the value it is about, and no retired slot that it has still to come to
      holds a protected value. */
  lemma WaitsExactly(s0: State, schedule: seq<Action>, t: nat)
    requires Init(s0)
    requires var s := Exec(s0, schedule); t < |s.threads| && !Rests(s.threads[t])
    ensures var s := Exec(s0, schedule); var pc := s.threads[t];
      && (ReturnsAlone(s, t) <==> Unhindered(s, pc))
      && (!Scans(pc) && !Insists(pc) ==> Unhindered(s, pc))
  {
    var s := Exec(s0, schedule);
    ExecSources(s0, schedule);
    if Unhindered(s, s.threads[t]) {
      var n := RunsDown(s, t, RankOf(s, s.threads[t]));
    } else {
      assert WellPlaced(s, s.threads[t]);
      ThreadsKept(s0, schedule);
      ExecFound(s0, schedule, t);
      HinderedSpins(s, t);
      SpinsForever(s, t);
    }
  }
}
