/** The main results about the ring, for every schedule of any number of threads. */
module LockFreeRingResults {
  import opened RingWords
  import opened LockFreeRing
  import opened LockFreeRingSafety

  /** Written indices form one gap-free prefix; head, published tail and frontier stay in
      order within one lap; the elements dequeued are, in order, the oldest elements written. */
  lemma RingIsFifo(c: Config, threads: nat, schedule: seq<Action>)
    requires c.size > 0 && c.width.Unbounded?
    ensures var s := Exec(c, Start(c, threads), schedule);
      && |s.ring| == c.size
      && 0 <= s.head <= s.tail <= |s.written| <= s.head + c.size
      && s.read == s.written[..s.head]
      && (forall i :: |s.written| - c.size <= i < |s.written| ==> At(c, s.ring, i).idx == i)
      && (forall i :: s.head <= i < |s.written| ==> At(c, s.ring, i).ptr == s.written[i])
      && (forall t :: 0 <= t < |s.threads| ==> s.threads[t] != Failed)
  {
    ExecInv(c, threads, schedule);
    var s := Exec(c, Start(c, threads), schedule);
    forall t | 0 <= t < |s.threads| ensures s.threads[t] != Failed { assert PcInv(c, s, s.threads[t]); }
  }

  /** The elements handed out by successful dequeues, in the order of their returns. */
  function HandedOut(results: seq<Result>): seq<Elem> {
    if results == [] then [] else
      var last := results[|results| - 1];
      HandedOut(results[..|results| - 1]) + if last.Dequeued? then last.elems else []
  }

  // Each successful dequeue starts where those before it ended.
  ghost predicate InOrder(results: seq<Result>) {
    forall r {:trigger results[r]} :: 0 <= r < |results| && results[r].Dequeued? ==>
      results[r].index == |HandedOut(results[..r])|
  }

  lemma StepInOrder(s: State, s': State)
    requires s.results <= s'.results && |s'.results| <= |s.results| + 1 && Reads(s, s')
    requires InOrder(s.results) && HandedOut(s.results) == s.read
    ensures InOrder(s'.results) && HandedOut(s'.results) == s'.read
  {
    var n := |s.results|;
    assert s'.results[..n] == s.results;
    if |s'.results| == n { assert s'.results == s.results; }
    forall r | 0 <= r < |s'.results| && s'.results[r].Dequeued?
      ensures s'.results[r].index == |HandedOut(s'.results[..r])|
    {
      if r < n { assert s'.results[r] == s.results[r] && s'.results[..r] == s.results[..r]; }
    }
  }

  lemma {:induction false} ExecInOrder(c: Config, threads: nat, schedule: seq<Action>)
    requires c.size > 0 && c.width.Unbounded?
    ensures var s := Exec(c, Start(c, threads), schedule); InOrder(s.results) && HandedOut(s.results) == s.read
    decreases |schedule|
  {
    if schedule != [] {
      var before := schedule[..|schedule| - 1];
      var s := Exec(c, Start(c, threads), before);
      ExecInOrder(c, threads, before);
      ExecInv(c, threads, before);
      InvStep(c, s, schedule[|schedule| - 1]);
      StepInOrder(s, Step(c, s, schedule[|schedule| - 1]));
    }
  }

  /** A successful dequeue returns exactly the elements written at the indices it claims, and
      the claims of successive dequeues abut: nothing is handed out twice or skipped. */
  lemma DequeuesExact(c: Config, threads: nat, schedule: seq<Action>)
    requires c.size > 0 && c.width.Unbounded?
    ensures var s := Exec(c, Start(c, threads), schedule);
      && HandedOut(s.results) == s.read
      && forall r :: 0 <= r < |s.results| && s.results[r].Dequeued? ==>
           && s.results[r].index == |HandedOut(s.results[..r])|
           && 0 <= s.results[r].index && s.results[r].index + |s.results[r].elems| <= |s.written|
           && s.results[r].elems == s.written[s.results[r].index..s.results[r].index + |s.results[r].elems|]
  {
    var s := Exec(c, Start(c, threads), schedule);
    ExecInv(c, threads, schedule);
    ExecInOrder(c, threads, schedule);
    forall r | 0 <= r < |s.results| ensures ResultInv(c, s.written, s.results[r]) {}
  }

  /** With several producers a short enqueue count means that the ring was full when the call
      gave up (`full` is recorded at that load of the head). */
  lemma ShortEnqueueSawFull(c: Config, threads: nat, schedule: seq<Action>, r: nat)
    requires c.size > 0 && c.width.Unbounded? && !c.sp
    requires r < |Exec(c, Start(c, threads), schedule).results|
    ensures var result := Exec(c, Start(c, threads), schedule).results[r];
      result.Enqueued? ==> result.count <= result.want && (result.count < result.want ==> result.full)
  {
    ExecInv(c, threads, schedule);
    assert ResultInv(c, Exec(c, Start(c, threads), schedule).written, Exec(c, Start(c, threads), schedule).results[r]);
  }

  // What the step that loads the head gives.
  predicate TakesWhatFits(c: Config, s: State, s': State, t: nat) {
    && t < |s.threads| && s.threads[t].SpHead? &&
    var wanted, fits := |s.threads[t].elems|, s.head + c.size - |s.written|;
    && fits >= 0 && |s'.threads| == |s.threads|
    && if Min(fits, wanted) == 0 then s'.results == s.results + [Enqueued(wanted, 0, fits == 0)]
       else s'.threads[t] == SpPtr(s.threads[t].elems, |s.written|, 0, Min(fits, wanted))
  }

  lemma HeadLoaded(c: Config, s: State, t: nat)
    requires SharedInv(c, s) && t < |s.threads| && PcInv(c, s, s.threads[t]) && s.threads[t].SpHead?
    ensures TakesWhatFits(c, s, SpStep(c, s, t), t)
  {
  }

  lemma HeadStep(c: Config, s: State, t: nat)
    requires SharedInv(c, s) && t < |s.threads| && s.threads[t].SpHead?
    ensures Step(c, s, Action(t, Continue)) == SpStep(c, s, t)
  {
  }

  /** A single producer takes exactly what fits at its load of the head. */
  lemma SingleProducerTakesWhatFits(c: Config, threads: nat, schedule: seq<Action>, t: nat)
    requires c.size > 0 && c.width.Unbounded?
    requires t < |Exec(c, Start(c, threads), schedule).threads|
    requires Exec(c, Start(c, threads), schedule).threads[t].SpHead?
    ensures var s := Exec(c, Start(c, threads), schedule); TakesWhatFits(c, s, Step(c, s, Action(t, Continue)), t)
  {
    ExecInv(c, threads, schedule);
    var s := Exec(c, Start(c, threads), schedule);
    assert PcInv(c, s, s.threads[t]);
    HeadLoaded(c, s, t);
    HeadStep(c, s, t);
  }

  /** A dequeue that wanted something and returned nothing saw, at its last access, every
      published element already taken; and if its scan stopped at or past the head it knew,
      the ring was empty when the scan stopped, unpublished elements included. */
  lemma NothingMeansDrained(c: Config, threads: nat, schedule: seq<Action>, r: nat)
    requires c.size > 0 && c.width.Unbounded?
    requires r < |Exec(c, Start(c, threads), schedule).results|
    ensures var result := Exec(c, Start(c, threads), schedule).results[r];
      result.Nothing? && result.want > 0 ==> result.drained && (!c.sp && result.stop >= result.head ==> result.empty)
  {
    ExecInv(c, threads, schedule);
    assert ResultInv(c, Exec(c, Start(c, threads), schedule).written, Exec(c, Start(c, threads), schedule).results[r]);
  }

  /** The published tail, the head and the frontier only move forward, and what is written stays. */
  lemma OnlyForward(c: Config, threads: nat, schedule: seq<Action>, a: Action)
    requires c.size > 0 && c.width.Unbounded?
    ensures var s := Exec(c, Start(c, threads), schedule); var s' := Step(c, s, a);
      s.head <= s'.head && s.tail <= s'.tail && s.written <= s'.written
  {
    ExecInv(c, threads, schedule);
    InvStep(c, Exec(c, Start(c, threads), schedule), a);
  }
}
