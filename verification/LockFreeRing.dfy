/** The lock-free ring, linux-2022/quiz8/problem2/lfring.c: any number of threads enqueue and
    dequeue batches, with one atomic access per step.  The same program runs on unbounded
    indices and on 64-bit words (`Config.width`). */
module LockFreeRing {
  import opened RingWords

  type Elem = int

  datatype Slot = Slot(ptr: Elem, idx: int)
  datatype Config = Config(size: nat, sp: bool, sc: bool, width: Width)

  // What follows a cond_update: the end of an enqueue, or a dequeue that scanned for
  // unpublished elements.  `full` and `empty` are history: whether the ring was full when
  // the enqueue gave up, and empty when the scan stopped; `stop` is where it stopped.
  datatype After =
    | AfterEnqueue(want: nat, count: nat, full: bool)
    | AfterScan(want: nat, head: int, stop: int, empty: bool)

  datatype Pc =
    | Idle
    | Failed
    | EnqTail(elems: seq<Elem>)
    | SpHead(elems: seq<Elem>, tail: int)
    | SpPtr(elems: seq<Elem>, tail: int, i: nat, actual: nat)
    | SpIdx(elems: seq<Elem>, tail: int, i: nat, actual: nat)
    | SpPublish(elems: seq<Elem>, tail: int, actual: nat)
    | MpHead(elems: seq<Elem>, actual: nat, tail: int)
    | MpPtr(elems: seq<Elem>, actual: nat, tail: int)
    | MpIdx(elems: seq<Elem>, actual: nat, tail: int, ptr: Elem)
    | MpReload(elems: seq<Elem>, actual: nat, tail: int)
    | MpCas(elems: seq<Elem>, actual: nat, tail: int, seen: Slot)
    | UpdateRead(neu: int, after: After)
    | UpdateCas(neu: int, was: int, after: After)
    | DeqHead(want: nat)
    | DeqTail(want: nat, head: int)
    | FindSp(want: nat, head: int)
    | Scan(want: nat, head: int, tail: int)
    | Copy(want: nat, head: int, tail: int, actual: nat, buf: seq<Elem>)
    | DeqCommit(want: nat, head: int, tail: int, buf: seq<Elem>)

  /** What a call returned.  `drained` says that no published element was left at the moment
      a dequeue found none. */
  datatype Result =
    | Enqueued(want: nat, count: nat, full: bool)
    | Dequeued(index: int, elems: seq<Elem>)
    | Nothing(want: nat, head: int, stop: int, drained: bool, empty: bool)

  /** `written[i]` is the element enqueued at index `i`, so `|written|` is the write frontier;
      `read` are the elements dequeued so far; both, and `results`, are history. */
  datatype State = State(
    head: int, tail: int, ring: seq<Slot>, threads: seq<Pc>,
    written: seq<Elem>, read: seq<Elem>, results: seq<Result>)
  {
    function Goto(t: nat, pc: Pc): State
      requires t < |threads|
    {
      this.(threads := threads[t := pc])
    }

    function Return(t: nat, result: Result): State
      requires t < |threads|
    {
      this.(threads := threads[t := Idle], results := results + [result])
    }
  }

  datatype Cmd = CallEnqueue(elems: seq<Elem>) | CallDequeue(want: nat) | Continue
  datatype Action = Action(tid: nat, cmd: Cmd)

  function Min(a: int, b: int): int { if a < b then a else b }

  // The slot for an index: `ring[index & mask]`.
  function At(c: Config, ring: seq<Slot>, index: int): Slot
    requires |ring| == c.size > 0
  {
    ring[index % c.size]
  }

  function Plus(c: Config, index: int, k: int): int {
    Norm(c.width, index + k)
  }

  // The index that used the same slot one lap back.
  function Lap(c: Config, index: int): int {
    Norm(c.width, index - c.size)
  }

  predicate Enqueues(pc: Pc) {
    || pc.EnqTail? || pc.SpHead? || pc.SpPtr? || pc.SpIdx? || pc.SpPublish?
    || pc.MpHead? || pc.MpPtr? || pc.MpIdx? || pc.MpReload? || pc.MpCas?
    || ((pc.UpdateRead? || pc.UpdateCas?) && pc.after.AfterEnqueue?)
  }

  predicate Dequeues(pc: Pc) {
    || pc.DeqHead? || pc.DeqTail? || pc.FindSp? || pc.Scan? || pc.Copy? || pc.DeqCommit?
    || ((pc.UpdateRead? || pc.UpdateCas?) && pc.after.AfterScan?)
  }

  // A single-producer (single-consumer) ring is used by one producer (consumer) at a time.
  predicate MayBegin(c: Config, threads: seq<Pc>, cmd: Cmd) {
    && (cmd.CallEnqueue? && c.sp ==> forall t :: 0 <= t < |threads| ==> !Enqueues(threads[t]))
    && (cmd.CallDequeue? && c.sc ==> forall t :: 0 <= t < |threads| ==> !Dequeues(threads[t]))
  }

  // ---------- single-producer enqueue, lfring.c:116-133 ----------

  function SpStep(c: Config, s: State, t: nat): State
    requires t < |s.threads| && |s.ring| == c.size > 0
  {
    match s.threads[t]
    case SpHead(elems, tail) =>
      var actual := Min(Diff(c.width, Plus(c, s.head, c.size), tail), |elems|);
      if actual <= 0 then s.Return(t, Enqueued(|elems|, 0, Norm(c.width, |s.written|) == Plus(c, s.head, c.size)))
      else s.Goto(t, SpPtr(elems, tail, 0, actual))
    case SpPtr(elems, tail, i, actual) =>
      if At(c, s.ring, tail).idx != Lap(c, tail) || i >= |elems| then s.Goto(t, Failed)
      else
        s.(ring := s.ring[tail % c.size := At(c, s.ring, tail).(ptr := elems[i])])
        .Goto(t, SpIdx(elems, tail, i, actual))
    case SpIdx(elems, tail, i, actual) =>
      if i >= |elems| then s.Goto(t, Failed) else
        var tail' := Plus(c, tail, 1);
        s.(ring := s.ring[tail % c.size := At(c, s.ring, tail).(idx := tail)], written := s.written + [elems[i]])
        .Goto(t, if i + 1 < actual then SpPtr(elems, tail', i + 1, actual) else SpPublish(elems, tail', actual))
    case SpPublish(elems, tail, actual) => s.(tail := tail).Return(t, Enqueued(|elems|, actual, false))
    case _ => s
  }

  // ---------- multi-producer enqueue, lfring.c:135-179 ----------

  // The loop condition of line 138; the second operand is only evaluated while elements remain.
  function MpLoop(elems: seq<Elem>, actual: nat, tail: int): Pc {
    if actual < |elems| then MpHead(elems, actual, tail) else UpdateRead(tail, AfterEnqueue(|elems|, actual, false))
  }

  // Lines 150-159, with `seen` read from the slot for `tail`.
  function MpDecide(c: Config, elems: seq<Elem>, actual: nat, tail: int, seen: Slot): Pc {
    if seen.idx == Lap(c, tail) then MpCas(elems, actual, tail, seen)
    else if seen.idx != tail then MpReload(elems, actual, tail)
    else MpLoop(elems, actual, Plus(c, tail, 1))
  }

  function MpStep(c: Config, s: State, t: nat): State
    requires t < |s.threads| && |s.ring| == c.size > 0
  {
    match s.threads[t]
    case MpHead(elems, actual, tail) =>
      if Before(c.width, tail, Plus(c, s.head, c.size)) then s.Goto(t, MpPtr(elems, actual, tail))
      else
        var full := Norm(c.width, |s.written|) == Plus(c, s.head, c.size);
        s.Goto(t, UpdateRead(tail, AfterEnqueue(|elems|, actual, full)))
    case MpPtr(elems, actual, tail) => s.Goto(t, MpIdx(elems, actual, tail, At(c, s.ring, tail).ptr))
    case MpIdx(elems, actual, tail, ptr) =>
      s.Goto(t, MpDecide(c, elems, actual, tail, Slot(ptr, At(c, s.ring, tail).idx)))
    case MpReload(elems, actual, tail) =>
      s.Goto(t, MpLoop(elems, actual, if Before(c.width, tail, s.tail) then s.tail else Plus(c, tail, 1)))
    case MpCas(elems, actual, tail, seen) =>
      if actual >= |elems| then s.Goto(t, Failed)
      else if At(c, s.ring, tail) == seen then
        s.(ring := s.ring[tail % c.size := Slot(elems[actual], tail)], written := s.written + [elems[actual]])
        .Goto(t, MpLoop(elems, actual + 1, Plus(c, tail, 1)))
      else s.Goto(t, MpDecide(c, elems, actual, tail, At(c, s.ring, tail)))
    case _ => s
  }

  // ---------- cond_update, lfring.c:81-93 ----------

  // `s` is the state after the access that ends the call with `value`.
  function Updated(c: Config, s: State, t: nat, value: int, after: After): State
    requires t < |s.threads|
  {
    match after
    case AfterEnqueue(want, count, full) => s.Return(t, Enqueued(want, count, full))
    case AfterScan(want, head, stop, empty) => Found(c, s, t, want, head, value, stop, empty)
  }

  // Lines 214-218: the second check of a dequeue, with the tail that find_tail returned.
  function Found(c: Config, s: State, t: nat, want: nat, head: int, tail: int, stop: int, empty: bool): State
    requires t < |s.threads|
  {
    var actual := Min(Diff(c.width, tail, head), want);
    if actual <= 0 then s.Return(t, Nothing(want, head, stop, s.tail == s.head, empty))
    else s.Goto(t, Copy(want, head, tail, actual, []))
  }

  function UpdateDecide(c: Config, s: State, t: nat, neu: int, was: int, after: After): State
    requires t < |s.threads|
  {
    if Before(c.width, neu, was) then Updated(c, s, t, was, after) else s.Goto(t, UpdateCas(neu, was, after))
  }

  function UpdateStep(c: Config, s: State, t: nat): State
    requires t < |s.threads|
  {
    match s.threads[t]
    case UpdateRead(neu, after) => UpdateDecide(c, s, t, neu, s.tail, after)
    case UpdateCas(neu, was, after) =>
      if s.tail == was then Updated(c, s.(tail := neu), t, neu, after) else UpdateDecide(c, s, t, neu, s.tail, after)
    case _ => s
  }

  // ---------- dequeue and find_tail, lfring.c:181-243 ----------

  // Lines 211-218 with `head` and `tail` just loaded.
  function DeqLoop(c: Config, want: nat, head: int, tail: int): Pc {
    var actual := Min(Diff(c.width, tail, head), want);
    if actual > 0 then Copy(want, head, tail, actual, [])
    else if c.sp then FindSp(want, head)
    else ScanLoop(c, want, head, tail)
  }

  // The loop condition of line 191, before its load.
  function ScanLoop(c: Config, want: nat, head: int, tail: int): Pc {
    if Before(c.width, tail, Plus(c, head, c.size)) then Scan(want, head, tail)
    else UpdateRead(tail, AfterScan(want, head, tail, false))
  }

  function DeqStep(c: Config, s: State, t: nat): State
    requires t < |s.threads| && |s.ring| == c.size > 0
  {
    match s.threads[t]
    case DeqHead(want) => s.Goto(t, DeqTail(want, s.head))
    case DeqTail(want, head) => s.Goto(t, DeqLoop(c, want, head, s.tail))
    case FindSp(want, head) => Found(c, s, t, want, head, s.tail, s.tail, false)
    case Scan(want, head, tail) =>
      if At(c, s.ring, tail).idx == tail then s.Goto(t, ScanLoop(c, want, head, Plus(c, tail, 1)))
      else s.Goto(t, UpdateRead(tail, AfterScan(want, head, tail, Norm(c.width, |s.written|) == s.head)))
    case Copy(want, head, tail, actual, buf) =>
      var buf' := buf + [At(c, s.ring, Plus(c, head, |buf|)).ptr];
      s.Goto(t, if |buf'| < actual then Copy(want, head, tail, actual, buf') else DeqCommit(want, head, tail, buf'))
    case DeqCommit(want, head, tail, buf) =>
      if c.sc || s.head == head then
        s.(head := Plus(c, head, |buf|), read := s.read + buf).Return(t, Dequeued(head, buf))
      else s.Goto(t, DeqLoop(c, want, s.head, tail))
    case _ => s
  }

  function Begin(c: Config, s: State, t: nat, cmd: Cmd): State
    requires t < |s.threads|
  {
    if !MayBegin(c, s.threads, cmd) then s
    else match cmd
      case CallEnqueue(elems) => s.Goto(t, EnqTail(elems))
      case CallDequeue(want) => s.Goto(t, DeqHead(want))
      case Continue => s
  }

  function Step(c: Config, s: State, a: Action): State {
    var t := a.tid;
    if t >= |s.threads| || |s.ring| != c.size || c.size == 0 then s else
      var pc := s.threads[t];
      if pc.Idle? then Begin(c, s, t, a.cmd)
      else if pc.Failed? then s
      else if pc.EnqTail? then s.Goto(t, if c.sp then SpHead(pc.elems, s.tail) else MpLoop(pc.elems, 0, s.tail))
      else if pc.SpHead? || pc.SpPtr? || pc.SpIdx? || pc.SpPublish? then SpStep(c, s, t)
      else if pc.UpdateRead? || pc.UpdateCas? then UpdateStep(c, s, t)
      else if Dequeues(pc) then DeqStep(c, s, t)
      else MpStep(c, s, t)
  }

  /** The state after a schedule, oldest action first. */
  function Exec(c: Config, s: State, schedule: seq<Action>): State
    decreases |schedule|
  {
    if schedule == [] then s
    else Step(c, Exec(c, s, schedule[..|schedule| - 1]), schedule[|schedule| - 1])
  }

  /** lfring_alloc, lfring.c:53-60, and any number of idle threads. */
  function Start(c: Config, threads: nat): State {
    State(0, 0, seq(c.size, i => Slot(0, Norm(c.width, i - c.size))), seq(threads, _ => Idle), [], [], [])
  }
}
