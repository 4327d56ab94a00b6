/** The bounded queue with a sequence number per cell, linux-2022/quiz9/problem2/queues.h, in
    its SP/MP x SC/MC variants, run by any number of threads with one access per step.  The
    same program runs on unbounded positions and on 64-bit words (`Config.width`). */
module SequencedQueue {
  import opened RingWords

  type Data = int

  datatype Cell = Cell(sequence: int, data: Data)

  /** `count` cells; `mp`, `mc` say whether several producers, consumers are allowed. */
  datatype Config = Config(count: nat, mp: bool, mc: bool, width: Width)

  // `retry` distinguishes enqueue and dequeue, which repeat on contention, from try_enqueue
  // and try_dequeue.
  datatype Pc =
    | Idle
    | EnqIndex(data: Data, retry: bool)
    | EnqSequence(data: Data, retry: bool, pos: int)
    | EnqClaim(data: Data, retry: bool, pos: int)
    | EnqData(data: Data, pos: int)
    | EnqPublish(pos: int)
    | DeqIndex(retry: bool)
    | DeqSequence(retry: bool, pos: int)
    | DeqClaim(retry: bool, pos: int)
    | DeqData(pos: int)
    | DeqRelease(pos: int, data: Data)

  datatype Result = Enqueued(pos: int) | Dequeued(pos: int, data: Data) | Full | Empty | Contention

  /** `claimed[p]` is the value of the producer that claimed position p; it and `results` are
      history. */
  datatype State = State(
    enqueueIndex: int, dequeueIndex: int, cells: seq<Cell>, threads: seq<Pc>,
    claimed: seq<Data>, results: seq<Result>)
  {
    function Goto(t: nat, pc: Pc): State
      requires t < |threads|
    {
      this.(threads := threads[t := pc])
    }

    function Return(t: nat, result: Result): State
      requires t < |threads|
    {
      this.(threads := threads[t := Idle], results := results + [result])
    }
  }

  // `Fail` makes a weak compare-exchange fail spuriously.
  datatype Cmd = CallEnqueue(data: Data, retry: bool) | CallDequeue(retry: bool) | Continue | Fail
  datatype Action = Action(tid: nat, cmd: Cmd)

  // The cell of a position: `cells[pos & cell_mask]`.
  function At(c: Config, cells: seq<Cell>, pos: int): Cell
    requires |cells| == c.count > 0
  {
    cells[pos % c.count]
  }

  function Plus(c: Config, pos: int, k: int): int {
    Norm(c.width, pos + k)
  }

  predicate Produces(pc: Pc) {
    pc.EnqIndex? || pc.EnqSequence? || pc.EnqClaim? || pc.EnqData? || pc.EnqPublish?
  }

  predicate Consumes(pc: Pc) {
    pc.DeqIndex? || pc.DeqSequence? || pc.DeqClaim? || pc.DeqData? || pc.DeqRelease?
  }

  // A single-producer (single-consumer) queue has one call of that kind at a time.
  predicate MayBegin(c: Config, threads: seq<Pc>, cmd: Cmd) {
    && (cmd.CallEnqueue? && !c.mp ==> forall t :: 0 <= t < |threads| ==> !Produces(threads[t]))
    && (cmd.CallDequeue? && !c.mc ==> forall t :: 0 <= t < |threads| ==> !Consumes(threads[t]))
  }

  // ---------- try_enqueue, queues.h:198-225 ----------

  // Lines 208-224 with the sequence number just loaded.
  function EnqDecide(c: Config, s: State, t: nat, data: Data, retry: bool, pos: int, sequence: int): State
    requires t < |s.threads|
  {
    var difference := Diff(c.width, sequence, pos);
    if difference == 0 then s.Goto(t, EnqClaim(data, retry, pos))
    else if difference < 0 then s.Return(t, Full)
    else EnqContends(s, t, data, retry)
  }

  function EnqContends(s: State, t: nat, data: Data, retry: bool): State
    requires t < |s.threads|
  {
    if retry then s.Goto(t, EnqIndex(data, true)) else s.Return(t, Contention)
  }

  function EnqStep(c: Config, s: State, t: nat, fail: bool): State
    requires t < |s.threads| && |s.cells| == c.count > 0
  {
    match s.threads[t]
    case EnqIndex(data, retry) => s.Goto(t, EnqSequence(data, retry, s.enqueueIndex))
    case EnqSequence(data, retry, pos) => EnqDecide(c, s, t, data, retry, pos, At(c, s.cells, pos).sequence)
    case EnqClaim(data, retry, pos) =>
      if !c.mp || (s.enqueueIndex == pos && !fail) then
        s.(enqueueIndex := Plus(c, pos, 1), claimed := s.claimed + [data]).Goto(t, EnqData(data, pos))
      else EnqContends(s, t, data, retry)
    case EnqData(data, pos) =>
      s.(cells := s.cells[pos % c.count := At(c, s.cells, pos).(data := data)]).Goto(t, EnqPublish(pos))
    case EnqPublish(pos) =>
      s.(cells := s.cells[pos % c.count := At(c, s.cells, pos).(sequence := Plus(c, pos, 1))]).Return(t, Enqueued(pos))
    case _ => s
  }

  // ---------- try_dequeue, queues.h:227-255 ----------

  function DeqDecide(c: Config, s: State, t: nat, retry: bool, pos: int, sequence: int): State
    requires t < |s.threads|
  {
    var difference := Diff(c.width, sequence, Plus(c, pos, 1));
    if difference == 0 then s.Goto(t, DeqClaim(retry, pos))
    else if difference < 0 then s.Return(t, Empty)
    else DeqContends(s, t, retry)
  }

  function DeqContends(s: State, t: nat, retry: bool): State
    requires t < |s.threads|
  {
    if retry then s.Goto(t, DeqIndex(true)) else s.Return(t, Contention)
  }

  function DeqStep(c: Config, s: State, t: nat, fail: bool): State
    requires t < |s.threads| && |s.cells| == c.count > 0
  {
    match s.threads[t]
    case DeqIndex(retry) => s.Goto(t, DeqSequence(retry, s.dequeueIndex))
    case DeqSequence(retry, pos) => DeqDecide(c, s, t, retry, pos, At(c, s.cells, pos).sequence)
    case DeqClaim(retry, pos) =>
      if !c.mc || (s.dequeueIndex == pos && !fail) then
        s.(dequeueIndex := Plus(c, pos, 1)).Goto(t, DeqData(pos))
      else DeqContends(s, t, retry)
    case DeqData(pos) => s.Goto(t, DeqRelease(pos, At(c, s.cells, pos).data))
    case DeqRelease(pos, data) =>
      s.(cells := s.cells[pos % c.count := At(c, s.cells, pos).(sequence := Plus(c, pos, c.count))])
      .Return(t, Dequeued(pos, data))
    case _ => s
  }

  function Begin(c: Config, s: State, t: nat, cmd: Cmd): State
    requires t < |s.threads|
  {
    if !MayBegin(c, s.threads, cmd) then s
    else match cmd
      case CallEnqueue(data, retry) => s.Goto(t, EnqIndex(data, retry))
      case CallDequeue(retry) => s.Goto(t, DeqIndex(retry))
      case Continue => s
      case Fail => s
  }

  function Step(c: Config, s: State, a: Action): State {
    if a.tid >= |s.threads| || |s.cells| != c.count || c.count == 0 then s else
      var pc := s.threads[a.tid];
      if pc.Idle? then Begin(c, s, a.tid, a.cmd)
      else if Produces(pc) then EnqStep(c, s, a.tid, a.cmd.Fail?)
      else DeqStep(c, s, a.tid, a.cmd.Fail?)
  }

  /** The state after a schedule, oldest action first. */
  function Exec(c: Config, s: State, schedule: seq<Action>): State
    decreases |schedule|
  {
    if schedule == [] then s
    else Step(c, Exec(c, s, schedule[..|schedule| - 1]), schedule[|schedule| - 1])
  }

  /** make_queue accepts a power of two of at least 2 cells, queues.h:148-162. */
  predicate GoodCount(count: nat) {
    2 <= count <= 0x1000_0000 && WORD % count == 0
  }

  /** make_queue, queues.h:184-195, and any number of idle threads. */
  function Start(c: Config, threads: nat): State {
    State(0, 0, seq(c.count, i => Cell(i, 0)), seq(threads, _ => Idle), [], [])
  }
}
