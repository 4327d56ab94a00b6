/** Hazard-pointer domain: linux-2022/quiz5/problem2/domain.c and hp.c.

    Any number of threads run `load`, `drop`, `swap` and `cleanup` against one domain.
    Each step of the machine performs one sequentially consistent access.  A list of
    `hp_t` nodes only ever grows at its head and its `next` fields never change once a node
    is published, so a list is a sequence indexed by age: index 0 is the oldest node, the
    node at the head has the largest index, and a walk visits decreasing indices. */
module HazardDomain {
  // A pointer value; 0 is NULL.  A pointer value names one object and is never reused.
  type Ptr = nat

  // Who called `list_insert_or_append`, `list_remove` and `list_contains`.
  datatype InsertFor = ForLoad(source: nat) | ForRetire
  datatype RemoveFor = ForUndo(source: nat) | ForDrop | ForClean(r: nat, defer: bool)
  datatype ScanFor = SwapFirst(defer: bool) | SwapSpin | CleanFirst(r: nat, defer: bool) | CleanSpin(r: nat)
  datatype FreeFor = FreeInSwap | FreeInCleanup(r: nat, defer: bool)

  // Where a call of `list_insert_or_append`, `list_remove` or `list_contains` stands.
  datatype InsertAt = FindHead | Find(i: nat) | FindCas(i: nat) | AppendRead | AppendCas(seen: nat)
  datatype WalkAt = WalkHead | Visit(i: nat) | VisitCas(i: nat)

  // The next access of a thread.  `Holding` is the window between a `load` and its `drop`.
  datatype Pc =
    | Idle
    | ReadShared(source: nat)
    | Insert(val: Ptr, ins: InsertFor, at: InsertAt)
    | Validate(val: Ptr, i: nat, source: nat)
    | Undo(val: Ptr, i: nat, source: nat)
    | Remove(val: Ptr, rem: RemoveFor, walk: WalkAt)
    | Holding(val: Ptr)
    | DropFailed(val: Ptr)
    | Contains(val: Ptr, scan: ScanFor, walk: WalkAt)
    | Free(val: Ptr, free: FreeFor)
    | CleanStart(defer: bool)
    | CleanAt(r: nat, defer: bool)

  // What an idle thread calls next; `Drop` is for a thread that holds a pointer.
  datatype Cmd = Load(source: nat) | Swap(source: nat, neu: Ptr, defer: bool) | Cleanup(defer: bool) | Drop | Continue
  datatype Action = Action(tid: nat, cmd: Cmd)

  /** `shared` are the protected pointers, `hazards` and `retired` the two lists, `installed`
      every value ever stored in a shared pointer and `freed` the deallocations so far. */
  datatype State = State(
    shared: seq<Ptr>, hazards: seq<Ptr>, retired: seq<Ptr>, threads: seq<Pc>,
    installed: set<Ptr>, freed: multiset<Ptr>)
  {
    function Goto(t: nat, pc: Pc): State
      requires t < |threads|
    {
      this.(threads := threads[t := pc])
    }

    function List(inHazards: bool): seq<Ptr> {
      if inHazards then hazards else retired
    }

    function SetList(inHazards: bool, list: seq<Ptr>): State {
      if inHazards then this.(hazards := list) else this.(retired := list)
    }
  }

  // ---------- the program ----------

  // list_insert_or_append, hp.c:5-45, on the list that `ins` selects.
  function InsertStep(s: State, t: nat, val: Ptr, ins: InsertFor, at: InsertAt): State
    requires t < |s.threads|
  {
    var list := s.List(ins.ForLoad?);
    match at
    case FindHead => s.Goto(t, FindNext(val, ins, |list|))
    case Find(i) =>
      if i < |list| && list[i] == 0 then s.Goto(t, Insert(val, ins, FindCas(i))) else s.Goto(t, FindNext(val, ins, i))
    case FindCas(i) =>
      if i < |list| && list[i] == 0 then s.SetList(ins.ForLoad?, list[i := val]).Goto(t, Inserted(val, ins, i))
      else s.Goto(t, FindNext(val, ins, i))
    case AppendRead => s.Goto(t, Insert(val, ins, AppendCas(|list|)))
    case AppendCas(seen) =>
      if |list| == seen then s.SetList(ins.ForLoad?, list + [val]).Goto(t, Inserted(val, ins, seen))
      else s.Goto(t, Insert(val, ins, AppendCas(|list|)))
  }

  function FindNext(val: Ptr, ins: InsertFor, i: nat): Pc {
    Insert(val, ins, if i > 0 then Find(i - 1) else AppendRead)
  }

  function Inserted(val: Ptr, ins: InsertFor, i: nat): Pc {
    match ins
    case ForLoad(source) => Validate(val, i, source)
    case ForRetire => Idle
  }

  // list_remove, hp.c:48-61.
  function RemoveStep(s: State, t: nat, val: Ptr, rem: RemoveFor, walk: WalkAt): State
    requires t < |s.threads|
  {
    var list := s.List(!rem.ForClean?);
    match walk
    case WalkHead => s.Goto(t, RemoveNext(val, rem, |list|))
    case Visit(i) =>
      if i < |list| && list[i] == val then s.Goto(t, Remove(val, rem, VisitCas(i)))
        else s.Goto(t, RemoveNext(val, rem, i))
    case VisitCas(i) =>
      if i < |list| && list[i] == val then s.SetList(!rem.ForClean?, list[i := 0]).Goto(t, Removed(val, rem))
      else s.Goto(t, RemoveNext(val, rem, i))
  }

  function RemoveNext(val: Ptr, rem: RemoveFor, i: nat): Pc {
    if i > 0 then Remove(val, rem, Visit(i - 1)) else NotRemoved(val, rem)
  }

  // The caller's reaction to `list_remove`: domain.c:58-59 ignores the result, 68 treats
  // failure as unreachable, 116 and 122 deallocate only on success.
  function Removed(val: Ptr, rem: RemoveFor): Pc {
    match rem
    case ForUndo(source) => ReadShared(source)
    case ForDrop => Idle
    case ForClean(r, defer) => Free(val, FreeInCleanup(r, defer))
  }

  function NotRemoved(val: Ptr, rem: RemoveFor): Pc {
    match rem
    case ForUndo(source) => ReadShared(source)
    case ForDrop => DropFailed(val)
    case ForClean(r, defer) => CleanNext(r, defer)
  }

  function CleanNext(r: nat, defer: bool): Pc {
    if r > 0 then CleanAt(r - 1, defer) else Idle
  }

  // list_contains, hp.c:64-74, on the hazard pointers.
  function ContainsStep(s: State, t: nat, val: Ptr, scan: ScanFor, walk: WalkAt): State
    requires t < |s.threads|
  {
    match walk
    case WalkHead => s.Goto(t, ScanNext(val, scan, |s.hazards|))
    case Visit(i) =>
      if i < |s.hazards| && s.hazards[i] == val then s.Goto(t, ScanHit(val, scan))
        else s.Goto(t, ScanNext(val, scan, i))
    case VisitCas(_) => s
  }

  function ScanNext(val: Ptr, scan: ScanFor, i: nat): Pc {
    if i > 0 then Contains(val, scan, Visit(i - 1)) else ScanMiss(val, scan)
  }

  // The caller's reaction to `list_contains`, domain.c:74-82 and 114-124.
  function ScanHit(val: Ptr, scan: ScanFor): Pc {
    match scan
    case SwapFirst(defer) => if defer then Insert(val, ForRetire, FindHead) else Contains(val, SwapSpin, WalkHead)
    case SwapSpin => Contains(val, SwapSpin, WalkHead)
    case CleanFirst(r, defer) => if defer then CleanNext(r, defer) else Contains(val, CleanSpin(r), WalkHead)
    case CleanSpin(r) => Contains(val, CleanSpin(r), WalkHead)
  }

  function ScanMiss(val: Ptr, scan: ScanFor): Pc {
    match scan
    case SwapFirst(_) => Free(val, FreeInSwap)
    case SwapSpin => Free(val, FreeInSwap)
    case CleanFirst(r, defer) => Remove(val, ForClean(r, defer), WalkHead)
    case CleanSpin(r) => Remove(val, ForClean(r, false), WalkHead)
  }

  // A call made by an idle thread.
  function Begin(s: State, t: nat, cmd: Cmd): State
    requires t < |s.threads|
  {
    match cmd
    case Load(source) =>
      if source < |s.shared| then s.Goto(t, ReadShared(source)) else s
    case Swap(source, neu, defer) =>
      // the exchange of domain.c:96; every installed value is nonzero and new
      if source < |s.shared| && neu != 0 && neu !in s.installed then
        s.(shared := s.shared[source := neu], installed := s.installed + {neu})
        .Goto(t, Contains(s.shared[source], SwapFirst(defer), WalkHead))
      else s
    case Cleanup(defer) => s.Goto(t, CleanStart(defer))
    case Drop => s
    case Continue => s
  }

  // load outside its list operations, domain.c:40, 47 and 57.
  function LoadStep(s: State, t: nat): State
    requires t < |s.threads|
  {
    match s.threads[t]
    case ReadShared(source) =>
      if source < |s.shared| then s.Goto(t, Insert(s.shared[source], ForLoad(source), FindHead)) else s
    case Validate(val, i, source) =>
      if source < |s.shared| && s.shared[source] == val then s.Goto(t, Holding(val))
        else s.Goto(t, Undo(val, i, source))
    case Undo(val, i, source) =>
      if i < |s.hazards| && s.hazards[i] == val then
        s.(hazards := s.hazards[i := 0]).Goto(t, ReadShared(source))
      else s.Goto(t, Remove(val, ForUndo(source), WalkHead))
    case _ => s
  }

  // The deallocation and the walk of `cleanup` over the retired list, domain.c:105-126.
  function ReclaimStep(s: State, t: nat): State
    requires t < |s.threads|
  {
    match s.threads[t]
    case Free(val, free) =>
      s.(freed := s.freed + multiset{val})
      .Goto(t, match free case FreeInSwap => Idle case FreeInCleanup(r, defer) => CleanNext(r, defer))
    case CleanStart(defer) => s.Goto(t, CleanNext(|s.retired|, defer))
    case CleanAt(r, defer) =>
      if r < |s.retired| && s.retired[r] != 0 then s.Goto(t, Contains(s.retired[r], CleanFirst(r, defer), WalkHead))
      else s.Goto(t, CleanNext(r, defer))
    case _ => s
  }

  /** One access by thread `a.tid`; an action that is not enabled leaves the state alone. */
  function Step(s: State, a: Action): State {
    var t := a.tid;
    if t >= |s.threads| then s else
      match s.threads[t]
      case Idle => Begin(s, t, a.cmd)
      case ReadShared(_) => LoadStep(s, t)
      case Validate(_, _, _) => LoadStep(s, t)
      case Undo(_, _, _) => LoadStep(s, t)
      case Insert(val, ins, at) => InsertStep(s, t, val, ins, at)
      case Remove(val, rem, walk) => RemoveStep(s, t, val, rem, walk)
      case Holding(val) => if a.cmd.Drop? then s.Goto(t, Remove(val, ForDrop, WalkHead)) else s
      case DropFailed(_) => s
      case Contains(val, scan, walk) => ContainsStep(s, t, val, scan, walk)
      case Free(_, _) => ReclaimStep(s, t)
      case CleanStart(_) => ReclaimStep(s, t)
      case CleanAt(_, _) => ReclaimStep(s, t)
  }

  /** The state after a schedule, oldest action first. */
  function Exec(s: State, schedule: seq<Action>): State
    decreases |schedule|
  {
    if schedule == [] then s
    else Step(Exec(s, schedule[..|schedule| - 1]), schedule[|schedule| - 1])
  }

  ghost predicate Init(s: State) {
    && s.hazards == [] && s.retired == [] && s.freed == multiset{}
    && (forall t :: 0 <= t < |s.threads| ==> s.threads[t] == Idle)
    && (forall k :: 0 <= k < |s.shared| ==> s.shared[k] != 0)
    && (forall k, l :: 0 <= k < l < |s.shared| ==> s.shared[k] != s.shared[l])
    && s.installed == set k | 0 <= k < |s.shared| :: s.shared[k]
  }

  // ---------- counting ----------

  /** How many of the `k` oldest slots hold `v`. */
  function CountUpTo(list: seq<Ptr>, v: Ptr, k: nat): nat
    requires k <= |list|
  {
    if k == 0 then 0 else CountUpTo(list, v, k - 1) + if list[k - 1] == v then 1 else 0
  }

  function Count(list: seq<Ptr>, v: Ptr): nat {
    CountUpTo(list, v, |list|)
  }

  /** What is counted over threads: readers that will clear a slot no newer than `j`
      (`Ahead`), readers in the protected window (`Holders`), readers that have inserted `v`
      and not yet removed a slot (`Owers`), and threads responsible for deallocating `v`. */
  datatype Query = Ahead(v: Ptr, j: nat) | Holders(v: Ptr) | Owers(v: Ptr) | Custodians(v: Ptr)

  predicate Counts(pc: Pc, q: Query) {
    match q
    case Ahead(v, j) =>
      || ((pc.Validate? || pc.Undo?) && pc.val == v && pc.i <= j)
      || (pc.Remove? && !pc.rem.ForClean? && !pc.walk.WalkHead? && pc.val == v && pc.walk.i <= j)
    case Holders(v) => pc.Holding? && pc.val == v
    case Owers(v) =>
      (pc.Validate? || pc.Undo? || pc.Holding? || (pc.Remove? && !pc.rem.ForClean?)) && pc.val == v
    case Custodians(v) =>
      && (pc.Free? || (pc.Contains? && (pc.scan.SwapFirst? || pc.scan.SwapSpin?)) || (pc.Insert? && pc.ins.ForRetire?))
      && pc.val == v
  }

  function Weight(pc: Pc, q: Query): nat {
    if Counts(pc, q) then 1 else 0
  }

  function Sum(threads: seq<Pc>, q: Query): nat {
    if threads == [] then 0 else Weight(threads[0], q) + Sum(threads[1..], q)
  }

  lemma {:induction false} SumUpdate(threads: seq<Pc>, t: nat, pc: Pc, q: Query)
    requires t < |threads|
    ensures Sum(threads[t := pc], q) == Sum(threads, q) - Weight(threads[t], q) + Weight(pc, q)
    ensures Sum(threads, q) >= Weight(threads[t], q)
  {
    if t == 0 {
      assert threads[t := pc][1..] == threads[1..];
    } else {
      assert threads[t := pc][1..] == threads[1..][t - 1 := pc];
      SumUpdate(threads[1..], t - 1, pc, q);
    }
  }

  lemma {:induction false} SumZero(threads: seq<Pc>, q: Query)
    requires forall t :: 0 <= t < |threads| ==> Weight(threads[t], q) == 0
    ensures Sum(threads, q) == 0
  {
    if threads != [] {
      forall t | 0 <= t < |threads[1..]| ensures Weight(threads[1..][t], q) == 0 {
        assert threads[1..][t] == threads[t + 1];
      }
      SumZero(threads[1..], q);
    }
  }

  lemma {:induction false} SumLe(threads: seq<Pc>, q: Query, r: Query)
    requires forall t :: 0 <= t < |threads| ==> Weight(threads[t], q) <= Weight(threads[t], r)
    ensures Sum(threads, q) <= Sum(threads, r)
  {
    if threads != [] {
      forall t | 0 <= t < |threads[1..]| ensures Weight(threads[1..][t], q) <= Weight(threads[1..][t], r) {
        assert threads[1..][t] == threads[t + 1];
      }
      SumLe(threads[1..], q, r);
    }
  }

  lemma {:induction false} CountSet(list: seq<Ptr>, i: nat, x: Ptr, v: Ptr, k: nat)
    requires i < |list| && k <= |list|
    ensures CountUpTo(list[i := x], v, k) + (if i < k && list[i] == v then 1 else 0)
         == CountUpTo(list, v, k) + (if i < k && x == v then 1 else 0)
  {
    if k > 0 { CountSet(list, i, x, v, k - 1); }
  }

  lemma {:induction false} CountAppend(list: seq<Ptr>, x: Ptr, v: Ptr, k: nat)
    requires k <= |list|
    ensures CountUpTo(list + [x], v, k) == CountUpTo(list, v, k)
    ensures CountUpTo(list + [x], v, |list| + 1) == CountUpTo(list + [x], v, |list|) + if x == v then 1 else 0
  {
    if k > 0 { CountAppend(list, x, v, k - 1); }
  }

  lemma {:induction false} CountSome(list: seq<Ptr>, v: Ptr, k: nat) returns (i: nat)
    requires k <= |list| && CountUpTo(list, v, k) > 0
    ensures i < k && list[i] == v
  {
    if list[k - 1] == v { i := k - 1; } else { i := CountSome(list, v, k - 1); }
  }

  lemma {:induction false} CountMonotone(list: seq<Ptr>, v: Ptr, i: nat, k: nat)
    requires i < k <= |list|
    ensures CountUpTo(list, v, i) + (if list[i] == v then 1 else 0) <= CountUpTo(list, v, k)
  {
    if i < k - 1 { CountMonotone(list, v, i, k - 1); }
  }
}
