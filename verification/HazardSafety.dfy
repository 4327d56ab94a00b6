/** Safety of the hazard-pointer domain over every schedule of any number of threads. */
module HazardSafety {
  import opened HazardDomain

  // ---------- the inductive invariant ----------

  predicate Gone(s: State, v: Ptr) {
    v != 0 && v in s.installed && v !in s.shared
  }

  // Threads past the scan that found no reader.
  predicate Claims(pc: Pc) {
    pc.Free? || (pc.Remove? && pc.rem.ForClean?)
  }

  // Threads that treat `val` as a retired object.
  predicate Retires(pc: Pc) {
    pc.Contains? || (pc.Insert? && pc.ins.ForRetire?) || Claims(pc)
  }

  predicate HasVal(pc: Pc) {
    !(pc.Idle? || pc.ReadShared? || pc.CleanStart? || pc.CleanAt?)
  }

  predicate InBounds(s: State, pc: Pc) {
    match pc
    case Insert(_, ins, at) => at.Find? || at.FindCas? ==> at.i < |s.List(ins.ForLoad?)|
    case Validate(_, i, _) => i < |s.hazards|
    case Undo(_, i, _) => i < |s.hazards|
    case Remove(_, rem, walk) =>
      && (!walk.WalkHead? ==> walk.i < |s.List(!rem.ForClean?)|)
      && (rem.ForClean? ==> rem.r < |s.retired|)
    case Contains(_, scan, walk) =>
      && !walk.VisitCas? && (walk.Visit? ==> walk.i < |s.hazards|)
      && (scan.CleanFirst? || scan.CleanSpin? ==> scan.r < |s.retired|)
    case Free(_, free) => free.FreeInCleanup? ==> free.r < |s.retired|
    case CleanAt(r, _) => r < |s.retired|
    case _ => true
  }

  ghost predicate WellPlaced(s: State, pc: Pc) {
    && InBounds(s, pc)
    && (HasVal(pc) ==> pc.val != 0)
    && !pc.DropFailed?
    && (Retires(pc) ==> Gone(s, pc.val))
  }

  ghost predicate Placed(s: State) {
    && (forall k :: 0 <= k < |s.shared| ==> s.shared[k] != 0 && s.shared[k] in s.installed)
    && (forall t :: 0 <= t < |s.threads| ==> WellPlaced(s, s.threads[t]))
    && (forall r :: 0 <= r < |s.retired| && s.retired[r] != 0 ==> Gone(s, s.retired[r]))
  }

  /** Conservation: an installed value is in exactly one of: a shared pointer, the hands of
      one deallocating thread, one retired slot, or the record of deallocations. */
  ghost predicate Ledger(s: State) {
    && s.freed[0] == 0
    && forall v: Ptr :: v != 0 ==> LedgerAt(s, v)
  }

  predicate LedgerAt(s: State, v: Ptr) {
    Count(s.shared, v) + Sum(s.threads, Custodians(v)) + Count(s.retired, v) + s.freed[v]
    == if v in s.installed then 1 else 0
  }

  /** Slots are anonymous, but as many hold `v` as readers owe a removal of `v`. */
  ghost predicate Owed(s: State) {
    forall v: Ptr :: v != 0 ==> Count(s.hazards, v) == Sum(s.threads, Owers(v))
  }

  // The slots up to `j` outnumber by `h` the readers that will clear one of them.
  predicate Bound(s: State, v: Ptr, j: nat, h: nat)
    requires j < |s.hazards|
  {
    CountUpTo(s.hazards, v, j + 1) >= Sum(s.threads, Ahead(v, j)) + h
  }

  /** Every walk has at least as many matching slots ahead of it as walkers needing one. */
  ghost predicate Covered(s: State) {
    forall v: Ptr, j: nat :: v != 0 && j < |s.hazards| ==> Bound(s, v, j, 0)
  }

  /** A scan for `v` standing at slot `i` still has all protecting slots ahead of it. */
  ghost predicate Guarded(s: State) {
    forall t, j: nat {:trigger GuardedAt(s, t, j)} :: 0 <= t < |s.threads| ==> GuardedAt(s, t, j)
  }

  predicate Scanning(pc: Pc, j: nat) {
    pc.Contains? && pc.walk.Visit? && pc.walk.i <= j
  }

  predicate GuardedAt(s: State, t: nat, j: nat)
    requires t < |s.threads|
  {
    var pc := s.threads[t];
    Scanning(pc, j) && j < |s.hazards| ==> Bound(s, pc.val, j, Sum(s.threads, Holders(pc.val)))
  }

  ghost predicate Unprotected(s: State) {
    && (forall t :: 0 <= t < |s.threads| && Claims(s.threads[t]) ==> Sum(s.threads, Holders(s.threads[t].val)) == 0)
    && (forall v: Ptr :: s.freed[v] > 0 ==> Sum(s.threads, Holders(v)) == 0)
  }

  ghost predicate Inv(s: State) {
    Placed(s) && Ledger(s) && Owed(s) && Covered(s) && Guarded(s) && Unprotected(s)
  }

  // ---------- what a step does, without the counts ----------

  /** The write a step makes to one of the two lists. */
  datatype Edit = Keep | Set(i: nat, x: Ptr) | Add(x: Ptr)

  ghost predicate Edited(list: seq<Ptr>, list': seq<Ptr>, e: Edit) {
    match e
    case Keep => list' == list
    case Set(i, x) => i < |list| && list' == list[i := x]
    case Add(x) => list' == list + [x]
  }

  function EditOf(s: State, pc: Pc, inHazards: bool): (e: Edit)
    ensures e.Set? ==> e.i < |s.List(inHazards)|
  {
    var list := s.List(inHazards);
    match pc
    case Insert(x, ins, at) =>
      if ins.ForLoad? != inHazards then Keep
      else if at.FindCas? && at.i < |list| && list[at.i] == 0 then Set(at.i, x)
      else if at.AppendCas? && |list| == at.seen then Add(x) else Keep
    case Undo(x, i, _) => if inHazards && i < |list| && list[i] == x then Set(i, 0) else Keep
    case Remove(x, rem, walk) =>
      if !rem.ForClean? == inHazards && walk.VisitCas? && walk.i < |list| && list[walk.i] == x then Set(walk.i, 0)
        else Keep
    case _ => Keep
  }

  // `s'` differs from `s` in thread `t` and by the edits of its access.
  ghost predicate Moved(s: State, s': State, t: nat) {
    && t < |s.threads| && |s'.threads| == |s.threads|
    && s'.threads == s.threads[t := s'.threads[t]]
    && Edited(s.hazards, s'.hazards, EditOf(s, s.threads[t], true))
    && Edited(s.retired, s'.retired, EditOf(s, s.threads[t], false))
  }

  function If(b: bool): nat { if b then 1 else 0 }

  // The owers and the slots of `v` change together.
  predicate OwersKeepUp(pc: Pc, pc': Pc, list: seq<Ptr>, e: Edit, v: Ptr)
    requires e.Set? ==> e.i < |list|
  {
    Weight(pc', Owers(v)) + If(e.Set? && list[e.i] == v) == Weight(pc, Owers(v)) + If(!e.Keep? && e.x == v)
  }

  // Either walkers ahead of `j` and slots up to `j` change together, or a walker steps over
  // slot `j + 1` because it does not hold `v`.
  predicate AheadKeepsUp(pc: Pc, pc': Pc, list: seq<Ptr>, e: Edit, v: Ptr, j: nat)
    requires e.Set? ==> e.i < |list|
  {
    || Weight(pc', Ahead(v, j)) + If(e.Set? && e.i <= j && list[e.i] == v)
       <= Weight(pc, Ahead(v, j)) + If(e.Set? && e.i <= j && e.x == v)
    || (e.Keep? && j + 1 < |list| && list[j + 1] != v && Counts(pc, Ahead(v, j + 1)) && !Counts(pc, Ahead(v, j)))
  }

  ghost predicate Served(s: State, pc: Pc) {
    && (HasVal(pc) ==> pc.val != 0)
    && (pc.Remove? && !pc.rem.ForClean? ==>
         |s.hazards| > 0 && (!pc.walk.WalkHead? && pc.walk.i == 0 ==> s.hazards[0] == pc.val))
  }

  // The four facts of `Local` below, by the function the step belongs to.
  ghost predicate LocalFacts(s: State, s': State, t: nat, v: Ptr, j: nat) {
    && Moved(s, s', t)
    && var e := EditOf(s, s.threads[t], true);
    && OwersKeepUp(s.threads[t], s'.threads[t], s.hazards, e, v)
    && (j + 1 < |s'.hazards| ==> AheadKeepsUp(s.threads[t], s'.threads[t], s.hazards, e, v, j))
  }

  lemma InsertLocal(s: State, t: nat, v: Ptr, j: nat)
    requires t < |s.threads| && s.threads[t].Insert? && InBounds(s, s.threads[t]) && v != 0
    ensures var pc := s.threads[t]; LocalFacts(s, InsertStep(s, t, pc.val, pc.ins, pc.at), t, v, j)
  {
  }

  lemma RemoveLocal(s: State, t: nat, v: Ptr, j: nat)
    requires t < |s.threads| && s.threads[t].Remove? && InBounds(s, s.threads[t]) && v != 0
    requires Served(s, s.threads[t])
    ensures var pc := s.threads[t]; LocalFacts(s, RemoveStep(s, t, pc.val, pc.rem, pc.walk), t, v, j)
  {
  }

  lemma LoadLocal(s: State, t: nat, v: Ptr, j: nat)
    requires t < |s.threads| && InBounds(s, s.threads[t]) && v != 0
    requires s.threads[t].ReadShared? || s.threads[t].Validate? || s.threads[t].Undo?
    ensures LocalFacts(s, LoadStep(s, t), t, v, j)
  {
  }

  lemma ReclaimLocal(s: State, t: nat, v: Ptr, j: nat)
    requires t < |s.threads| && InBounds(s, s.threads[t]) && v != 0
    requires s.threads[t].Free? || s.threads[t].CleanStart? || s.threads[t].CleanAt?
    ensures LocalFacts(s, ReclaimStep(s, t), t, v, j)
  {
  }

  lemma ContainsLocal(s: State, t: nat, v: Ptr, j: nat)
    requires t < |s.threads| && s.threads[t].Contains? && InBounds(s, s.threads[t]) && v != 0
    ensures var pc := s.threads[t]; LocalFacts(s, ContainsStep(s, t, pc.val, pc.scan, pc.walk), t, v, j)
  {
  }

  lemma Local(s: State, a: Action, v: Ptr, j: nat)
    requires a.tid < |s.threads| && InBounds(s, s.threads[a.tid]) && v != 0
    requires Served(s, s.threads[a.tid])
    ensures LocalFacts(s, Step(s, a), a.tid, v, j)
  {
    match s.threads[a.tid]
    case Insert(_, _, _) => InsertLocal(s, a.tid, v, j);
    case Remove(_, _, _) => RemoveLocal(s, a.tid, v, j);
    case ReadShared(_) => LoadLocal(s, a.tid, v, j);
    case Validate(_, _, _) => LoadLocal(s, a.tid, v, j);
    case Undo(_, _, _) => LoadLocal(s, a.tid, v, j);
    case Contains(_, _, _) => ContainsLocal(s, a.tid, v, j);
    case Free(_, _) => ReclaimLocal(s, a.tid, v, j);
    case CleanStart(_) => ReclaimLocal(s, a.tid, v, j);
    case CleanAt(_, _) => ReclaimLocal(s, a.tid, v, j);
    case _ =>
  }

  // ---------- counts ----------

  lemma {:induction false} CountEdit(list: seq<Ptr>, list': seq<Ptr>, e: Edit, v: Ptr, k: nat)
    requires Edited(list, list', e) && k <= |list|
    ensures CountUpTo(list', v, k) + If(e.Set? && e.i < k && list[e.i] == v)
         == CountUpTo(list, v, k) + If(e.Set? && e.i < k && e.x == v)
    ensures k == |list| ==>
      Count(list', v) + If(e.Set? && list[e.i] == v) == Count(list, v) + If(!e.Keep? && e.x == v)
  {
    match e
    case Keep =>
    case Set(i, x) => CountSet(list, i, x, v, k);
    case Add(x) =>
      CountAppend(list, x, v, k);
      CountAppend(list, x, v, |list|);
  }

  lemma OwedAt(s: State, s': State, t: nat, v: Ptr, j: nat)
    requires v != 0 && LocalFacts(s, s', t, v, j)
    requires Count(s.hazards, v) == Sum(s.threads, Owers(v))
    ensures Count(s'.hazards, v) == Sum(s'.threads, Owers(v))
  {
    SumUpdate(s.threads, t, s'.threads[t], Owers(v));
    CountEdit(s.hazards, s'.hazards, EditOf(s, s.threads[t], true), v, |s.hazards|);
  }

  // A bound below the newest slot survives a step if the extra `h` does not grow.
  lemma BoundStep(s: State, s': State, t: nat, v: Ptr, j: nat, h: nat, h': nat)
    requires v != 0 && LocalFacts(s, s', t, v, j) && j + 1 < |s'.hazards| && j < |s.hazards| && h' <= h
    requires Bound(s, v, j, h)
    requires j + 1 < |s.hazards| ==> Bound(s, v, j + 1, h)
    ensures Bound(s', v, j, h')
  {
    var e := EditOf(s, s.threads[t], true);
    SumUpdate(s.threads, t, s'.threads[t], Ahead(v, j));
    CountEdit(s.hazards, s'.hazards, e, v, j + 1);
    if !(Weight(s'.threads[t], Ahead(v, j)) + If(e.Set? && e.i <= j && s.hazards[e.i] == v)
         <= Weight(s.threads[t], Ahead(v, j)) + If(e.Set? && e.i <= j && e.x == v)) {
      AheadShift(s.threads, t, v, j);
    }
  }

  // A walker at slot j + 1 is counted at j + 1 and not at j.
  lemma AheadShift(threads: seq<Pc>, t: nat, v: Ptr, j: nat)
    requires t < |threads| && Counts(threads[t], Ahead(v, j + 1)) && !Counts(threads[t], Ahead(v, j))
    ensures Sum(threads, Ahead(v, j)) + 1 <= Sum(threads, Ahead(v, j + 1))
  {
    SumUpdate(threads, t, Idle, Ahead(v, j));
    SumUpdate(threads, t, Idle, Ahead(v, j + 1));
    SumLe(threads[t := Idle], Ahead(v, j), Ahead(v, j + 1));
  }

  // At the newest slot every bound follows from the total.
  lemma {:induction false} TotalBound(threads: seq<Pc>, v: Ptr, j: nat)
    ensures Sum(threads, Ahead(v, j)) + Sum(threads, Holders(v)) <= Sum(threads, Owers(v))
  {
    if threads != [] { TotalBound(threads[1..], v, j); }
  }

  lemma NewestBound(s: State, v: Ptr)
    requires |s.hazards| > 0 && Count(s.hazards, v) == Sum(s.threads, Owers(v))
    ensures Bound(s, v, |s.hazards| - 1, Sum(s.threads, Holders(v)))
  {
    TotalBound(s.threads, v, |s.hazards| - 1);
  }

  predicate Reaches(walk: WalkAt, k: nat) {
    walk.WalkHead? || k <= walk.i
  }

  /** A `list_remove` walk by a reader always has a matching slot at or beyond its position,
      and one exists when it starts: it cannot reach the end of the list. */
  lemma RemoveFinds(s: State, t: nat)
    requires t < |s.threads| && InBounds(s, s.threads[t]) && Owed(s) && Covered(s)
    requires s.threads[t].Remove? && !s.threads[t].rem.ForClean? && s.threads[t].val != 0
    ensures exists k :: 0 <= k < |s.hazards| && s.hazards[k] == s.threads[t].val && Reaches(s.threads[t].walk, k)
  {
    var pc := s.threads[t];
    if pc.walk.WalkHead? {
      SumUpdate(s.threads, t, pc, Owers(pc.val));
      var k := CountSome(s.hazards, pc.val, |s.hazards|);
    } else {
      assert Bound(s, pc.val, pc.walk.i, 0);
      SumUpdate(s.threads, t, pc, Ahead(pc.val, pc.walk.i));
      var k := CountSome(s.hazards, pc.val, pc.walk.i + 1);
    }
  }

  lemma ServedInv(s: State, t: nat)
    requires Inv(s) && t < |s.threads|
    ensures InBounds(s, s.threads[t]) && Served(s, s.threads[t])
  {
    assert WellPlaced(s, s.threads[t]);
    if s.threads[t].Remove? && !s.threads[t].rem.ForClean? { RemoveFinds(s, t); }
  }

  lemma OwedStep(s: State, a: Action)
    requires Inv(s) && a.tid < |s.threads|
    ensures Owed(Step(s, a))
  {
    ServedInv(s, a.tid);
    forall v: Ptr | v != 0 ensures Count(Step(s, a).hazards, v) == Sum(Step(s, a).threads, Owers(v)) {
      Local(s, a, v, 0);
      OwedAt(s, Step(s, a), a.tid, v, 0);
    }
  }

  lemma CoveredStep(s: State, a: Action)
    requires Inv(s) && a.tid < |s.threads| && Owed(Step(s, a))
    ensures Covered(Step(s, a))
  {
    var s' := Step(s, a);
    ServedInv(s, a.tid);
    forall v: Ptr, j: nat | v != 0 && j < |s'.hazards| ensures Bound(s', v, j, 0) {
      if j + 1 == |s'.hazards| {
        NewestBound(s', v);
      } else {
        Local(s, a, v, j);
        BoundStep(s, s', a.tid, v, j, 0, 0);
      }
    }
  }

  // No thread starts to hold a pointer that has been exchanged out.
  lemma HoldersShrink(s: State, a: Action, v: Ptr)
    requires a.tid < |s.threads| && InBounds(s, s.threads[a.tid]) && Served(s, s.threads[a.tid])
    requires Gone(s, v)
    ensures Sum(Step(s, a).threads, Holders(v)) <= Sum(s.threads, Holders(v))
  {
    Local(s, a, v, 0);
    SumUpdate(s.threads, a.tid, Step(s, a).threads[a.tid], Holders(v));
  }

  lemma GuardedStep(s: State, a: Action)
    requires Inv(s) && a.tid < |s.threads| && Owed(Step(s, a)) && Placed(Step(s, a))
    ensures Guarded(Step(s, a))
  {
    var s' := Step(s, a);
    ServedInv(s, a.tid);
    Local(s, a, 1, 0);
    forall q, j: nat | 0 <= q < |s'.threads| && Scanning(s'.threads[q], j) && j < |s'.hazards|
      ensures GuardedAt(s', q, j)
    {
      assert WellPlaced(s', s'.threads[q]);
      GuardedStepAt(s, a, q, j);
    }
  }

  // Where a scan stood one step earlier.
  lemma ScanOrigin(s: State, a: Action, q: nat, j: nat)
    requires Placed(s) && a.tid < |s.threads| && q < |s.threads|
    requires Moved(s, Step(s, a), a.tid)
    requires Scanning(Step(s, a).threads[q], j) && j + 1 < |Step(s, a).hazards|
    ensures var pc, v := s.threads[q], Step(s, a).threads[q].val;
      pc.Contains? && pc.val == v && pc.walk.Visit?
      && (Scanning(pc, j) || (pc.walk.i == j + 1 && s.hazards == Step(s, a).hazards && s.hazards[j + 1] != v))
  {
    assert WellPlaced(s, s.threads[q]);
    if q == a.tid { assert WellPlaced(s, s.threads[a.tid]); }
  }

  lemma GuardedStepAt(s: State, a: Action, q: nat, j: nat)
    requires Inv(s) && a.tid < |s.threads| && Owed(Step(s, a)) && Moved(s, Step(s, a), a.tid)
    requires InBounds(s, s.threads[a.tid]) && Served(s, s.threads[a.tid])
    requires q < |s.threads|
    requires Scanning(Step(s, a).threads[q], j) && j < |Step(s, a).hazards|
    requires Step(s, a).threads[q].val != 0
    ensures GuardedAt(Step(s, a), q, j)
  {
    var s' := Step(s, a);
    var v := s'.threads[q].val;
    if j + 1 == |s'.hazards| {
      NewestBound(s', v);
    } else {
      ScanOrigin(s, a, q, j);
      assert WellPlaced(s, s.threads[q]);
      Local(s, a, v, j);
      HoldersShrink(s, a, v);
      var h := Sum(s.threads, Holders(v));
      assert GuardedAt(s, q, j + 1);
      if Scanning(s.threads[q], j) {
        assert GuardedAt(s, q, j);
      } else {
        SumLe(s.threads, Ahead(v, j), Ahead(v, j + 1));
      }
      BoundStep(s, s', a.tid, v, j, h, Sum(s'.threads, Holders(v)));
    }
  }

  // ---------- placement and custody ----------

  // Only an exchange touches the shared pointers.
  lemma SharedFrame(s: State, a: Action)
    requires a.tid < |s.threads|
    ensures if s.threads[a.tid].Idle? && a.cmd.Swap? && a.cmd.source < |s.shared| && a.cmd.neu != 0
      && a.cmd.neu !in s.installed
      then && Step(s, a).shared == s.shared[a.cmd.source := a.cmd.neu]
           && Step(s, a).installed == s.installed + {a.cmd.neu}
           && Step(s, a).threads[a.tid] == Contains(s.shared[a.cmd.source], SwapFirst(a.cmd.defer), WalkHead)
      else Step(s, a).shared == s.shared && Step(s, a).installed == s.installed
  {
  }

  lemma GoneForever(s: State, a: Action, v: Ptr)
    requires a.tid < |s.threads| && Gone(s, v)
    ensures Gone(Step(s, a), v)
  {
    SharedFrame(s, a);
  }

  // Between exchanges, custody, retired slots and deallocations of `v` balance.
  predicate CustodyMoves(pc: Pc, pc': Pc, retired: seq<Ptr>, e: Edit, v: Ptr, before: nat, after: nat)
    requires e.Set? ==> e.i < |retired|
  {
    Weight(pc', Custodians(v)) + If(!e.Keep? && e.x == v) + after
    == Weight(pc, Custodians(v)) + If(e.Set? && retired[e.i] == v) + before
  }

  // What a step other than a call gives: balanced custody and a well-placed thread.
  ghost predicate SafeFacts(s: State, s': State, t: nat, v: Ptr)
    requires t < |s.threads| == |s'.threads|
  {
    var pc, pc' := s.threads[t], s'.threads[t];
    && CustodyMoves(pc, pc', s.retired, EditOf(s, pc, false), v, s.freed[v], s'.freed[v])
    && (s.freed[v] != s'.freed[v] ==> pc.Free? && pc.val == v)
    && InBounds(s', pc') && (HasVal(pc') ==> pc'.val != 0) && !pc'.DropFailed?
    && (Retires(pc') ==> Gone(s, pc'.val))
    && (Claims(pc') ==> (Claims(pc) && pc.val == pc'.val) || ScanEnds(s, pc, pc'.val))
  }

  // A scan about to end without having met `v`.
  predicate ScanEnds(s: State, pc: Pc, v: Ptr) {
    && pc.Contains? && pc.val == v
    && (if pc.walk.Visit? then pc.walk.i == 0 && |s.hazards| > 0 && s.hazards[0] != v else |s.hazards| == 0)
  }

  lemma InsertSafe(s: State, t: nat, v: Ptr)
    requires t < |s.threads| && s.threads[t].Insert? && WellPlaced(s, s.threads[t]) && v != 0
    ensures var pc := s.threads[t]; SafeFacts(s, InsertStep(s, t, pc.val, pc.ins, pc.at), t, v)
  {
  }

  lemma RemoveSafe(s: State, t: nat, v: Ptr)
    requires t < |s.threads| && s.threads[t].Remove? && WellPlaced(s, s.threads[t]) && v != 0
    requires Served(s, s.threads[t])
    ensures var pc := s.threads[t]; SafeFacts(s, RemoveStep(s, t, pc.val, pc.rem, pc.walk), t, v)
  {
  }

  lemma LoadSafe(s: State, t: nat, v: Ptr)
    requires t < |s.threads| && WellPlaced(s, s.threads[t]) && v != 0
    requires forall k :: 0 <= k < |s.shared| ==> s.shared[k] != 0
    requires s.threads[t].ReadShared? || s.threads[t].Validate? || s.threads[t].Undo?
    ensures SafeFacts(s, LoadStep(s, t), t, v)
  {
  }

  lemma ReclaimSafe(s: State, t: nat, v: Ptr)
    requires t < |s.threads| && WellPlaced(s, s.threads[t]) && v != 0
    requires forall r :: 0 <= r < |s.retired| && s.retired[r] != 0 ==> Gone(s, s.retired[r])
    requires s.threads[t].Free? || s.threads[t].CleanStart? || s.threads[t].CleanAt?
    ensures SafeFacts(s, ReclaimStep(s, t), t, v)
  {
  }

  lemma ContainsSafe(s: State, t: nat, v: Ptr)
    requires t < |s.threads| && s.threads[t].Contains? && WellPlaced(s, s.threads[t]) && v != 0
    ensures var pc := s.threads[t]; SafeFacts(s, ContainsStep(s, t, pc.val, pc.scan, pc.walk), t, v)
  {
  }

  lemma HoldSafe(s: State, a: Action, v: Ptr)
    requires a.tid < |s.threads| && WellPlaced(s, s.threads[a.tid]) && v != 0
    requires s.threads[a.tid].Holding?
    ensures |Step(s, a).threads| == |s.threads|
    ensures SafeFacts(s, Step(s, a), a.tid, v)
  {
  }

  lemma Safe(s: State, a: Action, v: Ptr)
    requires a.tid < |s.threads| && Placed(s) && Served(s, s.threads[a.tid]) && v != 0
    requires !s.threads[a.tid].Idle?
    ensures |Step(s, a).threads| == |s.threads|
    ensures SafeFacts(s, Step(s, a), a.tid, v)
  {
    var t := a.tid;
    assert WellPlaced(s, s.threads[t]);
    match s.threads[t]
    case Insert(x, ins, at) => InsertSafe(s, t, v); assert Step(s, a) == InsertStep(s, t, x, ins, at);
    case Remove(x, rem, walk) => RemoveSafe(s, t, v); assert Step(s, a) == RemoveStep(s, t, x, rem, walk);
    case ReadShared(_) => LoadSafe(s, t, v); assert Step(s, a) == LoadStep(s, t);
    case Validate(_, _, _) => LoadSafe(s, t, v); assert Step(s, a) == LoadStep(s, t);
    case Undo(_, _, _) => LoadSafe(s, t, v); assert Step(s, a) == LoadStep(s, t);
    case Contains(x, scan, walk) => ContainsSafe(s, t, v); assert Step(s, a) == ContainsStep(s, t, x, scan, walk);
    case Free(_, _) => ReclaimSafe(s, t, v); assert Step(s, a) == ReclaimStep(s, t);
    case CleanStart(_) => ReclaimSafe(s, t, v); assert Step(s, a) == ReclaimStep(s, t);
    case CleanAt(_, _) => ReclaimSafe(s, t, v); assert Step(s, a) == ReclaimStep(s, t);
    case Holding(_) => HoldSafe(s, a, v);
  }

  lemma BeginPlaced(s: State, a: Action)
    requires a.tid < |s.threads| && Inv(s) && s.threads[a.tid].Idle?
    ensures |Step(s, a).threads| == |s.threads| && Placed(Step(s, a))
  {
    var s' := Step(s, a);
    SharedFrame(s, a);
    if a.cmd.Swap? && s'.shared != s.shared { ExchangedOnce(s, a.cmd.source, a.cmd.neu); }
    forall t | 0 <= t < |s'.threads| ensures WellPlaced(s', s'.threads[t]) {
      if t != a.tid {
        assert WellPlaced(s, s.threads[t]);
        if Retires(s.threads[t]) { GoneForever(s, a, s.threads[t].val); }
      }
    }
    forall r | 0 <= r < |s'.retired| && s'.retired[r] != 0 ensures Gone(s', s'.retired[r]) {
      GoneForever(s, a, s.retired[r]);
    }
  }

  // An installed value sits in at most one shared pointer.
  lemma ExchangedOnce(s: State, source: nat, neu: Ptr)
    requires Placed(s) && Ledger(s) && source < |s.shared| && neu != s.shared[source]
    ensures s.shared[source] !in s.shared[source := neu]
  {
    var v := s.shared[source];
    assert LedgerAt(s, v);
    CountSet(s.shared, source, neu, v, |s.shared|);
    if v in s.shared[source := neu] {
      var k :| 0 <= k < |s.shared| && s.shared[source := neu][k] == v;
      CountMonotone(s.shared[source := neu], v, k, |s.shared|);
    }
  }

  lemma PlacedStep(s: State, a: Action)
    requires a.tid < |s.threads| && Inv(s)
    ensures Placed(Step(s, a))
  {
    var s' := Step(s, a);
    ServedInv(s, a.tid);
    if s.threads[a.tid].Idle? {
      BeginPlaced(s, a);
    } else {
      Safe(s, a, 1);
      Local(s, a, 1, 0);
      SharedFrame(s, a);
      forall t | 0 <= t < |s'.threads| ensures WellPlaced(s', s'.threads[t]) {
        if t != a.tid { assert WellPlaced(s, s.threads[t]); }
      }
      assert WellPlaced(s, s.threads[a.tid]);
    }
  }

  lemma LedgerStep(s: State, a: Action)
    requires a.tid < |s.threads| && Inv(s)
    ensures Ledger(Step(s, a))
  {
    var s' := Step(s, a);
    ServedInv(s, a.tid);
    SharedFrame(s, a);
    forall v: Ptr | v != 0 ensures LedgerAt(s', v) {
      assert LedgerAt(s, v);
      Local(s, a, v, 0);
      SumUpdate(s.threads, a.tid, s'.threads[a.tid], Custodians(v));
      CountEdit(s.retired, s'.retired, EditOf(s, s.threads[a.tid], false), v, |s.retired|);
      if s.threads[a.tid].Idle? {
        BeginLedger(s, a, v);
      } else {
        Safe(s, a, v);
      }
    }
    FreedNonzero(s, a);
  }

  lemma FreedNonzero(s: State, a: Action)
    requires a.tid < |s.threads| && WellPlaced(s, s.threads[a.tid]) && s.freed[0] == 0
    ensures Step(s, a).freed[0] == 0
  {
  }

  lemma BeginLedger(s: State, a: Action, v: Ptr)
    requires a.tid < |s.threads| && s.threads[a.tid].Idle? && v != 0 && LedgerAt(s, v)
    requires |Step(s, a).threads| == |s.threads| && Step(s, a).retired == s.retired
    requires Sum(Step(s, a).threads, Custodians(v)) == Sum(s.threads, Custodians(v))
      + Weight(Step(s, a).threads[a.tid], Custodians(v))
    ensures LedgerAt(Step(s, a), v)
  {
    SharedFrame(s, a);
    if a.cmd.Swap? && a.cmd.source < |s.shared| {
      CountSet(s.shared, a.cmd.source, a.cmd.neu, v, |s.shared|);
    }
  }

  /** A scan that ends without meeting `v` proves that no reader holds `v`. */
  lemma ScanEndClears(s: State, t: nat, v: Ptr)
    requires Inv(s) && t < |s.threads| && v != 0 && ScanEnds(s, s.threads[t], v)
    ensures Sum(s.threads, Holders(v)) == 0
  {
    if |s.hazards| == 0 {
      TotalBound(s.threads, v, 0);
      assert Count(s.hazards, v) == 0;
    } else {
      assert GuardedAt(s, t, 0);
      assert CountUpTo(s.hazards, v, 1) == CountUpTo(s.hazards, v, 0);
    }
  }

  lemma UnprotectedStep(s: State, a: Action)
    requires a.tid < |s.threads| && Inv(s)
    ensures Unprotected(Step(s, a))
  {
    var s' := Step(s, a);
    ServedInv(s, a.tid);
    Local(s, a, 1, 0);
    forall t | 0 <= t < |s'.threads| && Claims(s'.threads[t]) ensures Sum(s'.threads, Holders(s'.threads[t].val)) == 0 {
      var v := s'.threads[t].val;
      assert WellPlaced(s, s.threads[t]);
      if t == a.tid {
        if s.threads[t].Idle? { BeginNoClaim(s, a); } else { Safe(s, a, 1); }
        if ScanEnds(s, s.threads[t], v) { ScanEndClears(s, t, v); }
      }
      HoldersShrink(s, a, v);
    }
    forall v: Ptr | s'.freed[v] > 0 ensures Sum(s'.threads, Holders(v)) == 0 {
      FreedClear(s, a, v);
    }
  }

  lemma BeginNoClaim(s: State, a: Action)
    requires a.tid < |s.threads| && s.threads[a.tid].Idle?
    ensures |Step(s, a).threads| == |s.threads|
    ensures !Claims(Step(s, a).threads[a.tid]) && Step(s, a).freed == s.freed
  {
  }

  lemma FreedClear(s: State, a: Action, v: Ptr)
    requires a.tid < |s.threads| && Inv(s) && Step(s, a).freed[v] > 0
    ensures Sum(Step(s, a).threads, Holders(v)) == 0
  {
    ServedInv(s, a.tid);
    assert WellPlaced(s, s.threads[a.tid]);
    FreedNonzero(s, a);
    if s.threads[a.tid].Idle? { BeginNoClaim(s, a); } else { Safe(s, a, v); }
    if s.freed[v] > 0 { FreedGone(s, v); }
    HoldersShrink(s, a, v);
  }

  lemma FreedGone(s: State, v: Ptr)
    requires Ledger(s) && s.freed[v] > 0
    ensures Gone(s, v)
  {
    assert LedgerAt(s, v);
    if v in s.shared {
      var k :| 0 <= k < |s.shared| && s.shared[k] == v;
      CountMonotone(s.shared, v, k, |s.shared|);
    }
  }

  // ---------- every schedule ----------

  lemma InvStep(s: State, a: Action)
    requires Inv(s)
    ensures Inv(Step(s, a))
  {
    if a.tid < |s.threads| {
      OwedStep(s, a);
      CoveredStep(s, a);
      PlacedStep(s, a);
      GuardedStep(s, a);
      LedgerStep(s, a);
      UnprotectedStep(s, a);
    }
  }

  lemma InitInv(s: State)
    requires Init(s)
    ensures Inv(s)
  {
    forall q: Query ensures Sum(s.threads, q) == 0 { SumZero(s.threads, q); }
    forall v: Ptr | v != 0 ensures LedgerAt(s, v) { CountDistinct(s.shared, v, |s.shared|); }
  }

  lemma {:induction false} CountDistinct(list: seq<Ptr>, v: Ptr, k: nat)
    requires k <= |list| && forall i, j :: 0 <= i < j < |list| ==> list[i] != list[j]
    ensures CountUpTo(list, v, k) == if v in list[..k] then 1 else 0
  {
    if k > 0 { CountDistinct(list, v, k - 1); }
  }

  lemma {:induction false} ExecInv(s: State, schedule: seq<Action>)
    requires Init(s)
    ensures Inv(Exec(s, schedule))
    decreases |schedule|
  {
    if schedule == [] {
      InitInv(s);
    } else {
      ExecInv(s, schedule[..|schedule| - 1]);
      InvStep(Exec(s, schedule[..|schedule| - 1]), schedule[|schedule| - 1]);
    }
  }

  /** No object is deallocated while a reader is between a successful `load` of it and its
      `drop`, no thread is about to deallocate it, and no object is deallocated twice. */
  lemma NoUseAfterFree(s: State, schedule: seq<Action>)
    requires Init(s)
    ensures var e := Exec(s, schedule);
      && (forall v: Ptr :: e.freed[v] <= 1)
      && (forall t :: 0 <= t < |e.threads| && e.threads[t].Holding? ==>
           e.freed[e.threads[t].val] == 0
           && forall u :: 0 <= u < |e.threads| && e.threads[u].Free? ==> e.threads[u].val != e.threads[t].val)
  {
    var e := Exec(s, schedule);
    ExecInv(s, schedule);
    forall v: Ptr ensures e.freed[v] <= 1 { assert v != 0 ==> LedgerAt(e, v); }
    forall t | 0 <= t < |e.threads| && e.threads[t].Holding? ensures Sum(e.threads, Holders(e.threads[t].val)) >= 1 {
      SumUpdate(e.threads, t, Idle, Holders(e.threads[t].val));
    }
  }

  /** Slots holding a value are as many as the readers owing a removal of it, every removal
      walk meets a slot of its value at or beyond its position, and `drop` never fails. */
  lemma DropNeverFails(s: State, schedule: seq<Action>)
    requires Init(s)
    ensures var e := Exec(s, schedule);
      && (forall v: Ptr :: v != 0 ==> Count(e.hazards, v) == Sum(e.threads, Owers(v)))
      && (forall t :: 0 <= t < |e.threads| ==> !e.threads[t].DropFailed?)
      && (forall t :: 0 <= t < |e.threads| && e.threads[t].Remove? && !e.threads[t].rem.ForClean? ==>
           exists k :: 0 <= k < |e.hazards| && e.hazards[k] == e.threads[t].val && Reaches(e.threads[t].walk, k))
  {
    var e := Exec(s, schedule);
    ExecInv(s, schedule);
    forall t | 0 <= t < |e.threads| ensures WellPlaced(e, e.threads[t]) {}
    forall t | 0 <= t < |e.threads| && e.threads[t].Remove? && !e.threads[t].rem.ForClean?
      ensures exists k :: 0 <= k < |e.hazards| && e.hazards[k] == e.threads[t].val && Reaches(e.threads[t].walk, k)
    {
      assert WellPlaced(e, e.threads[t]);
      RemoveFinds(e, t);
    }
  }

  /** Every value ever installed is in exactly one place: still shared, with one
      deallocating thread, in one retired slot, or deallocated once. */
  lemma NothingLost(s: State, schedule: seq<Action>, v: Ptr)
    requires Init(s) && v != 0
    ensures var e := Exec(s, schedule);
      Count(e.shared, v) + Sum(e.threads, Custodians(v)) + Count(e.retired, v) + e.freed[v]
      == if v in e.installed then 1 else 0
  {
    ExecInv(s, schedule);
    assert LedgerAt(Exec(s, schedule), v);
  }
}
