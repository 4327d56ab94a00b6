/** Calls on the non-blocking list that run without interference: they end, and this is what they
    have done then. */
module NonBlockingListAlone {
  import opened ListHeap
  import opened NonBlockingList
  import opened NonBlockingListSafety
  import opened NonBlockingListResults
  import opened NonBlockingListCalls
  import opened NonBlockingListCursors

  // The steps of thread `t` alone, `n` of them after its command.
  function Alone(s: State, t: nat, cmd: Cmd, n: nat): State {
    if n == 0 then Step(s, Action(t, cmd)) else Step(Alone(s, t, cmd, n - 1), Action(t, Continue))
  }

  /** No deletion is in flight: no link is flagged. */
  predicate Calm(h: Heap) {
    forall p :: 0 <= p < |h.links| ==> !h.links[p].flag
  }

  // After `k` steps the heap is `h`, thread `t` is at `th`, and nothing is reported.
  predicate Stands(s: State, t: nat, cmd: Cmd, k: nat, h: Heap, th: Thread) {
    t < |s.threads| && Alone(s, t, cmd, k) == State(h, s.threads[t := th], s.reports)
  }

  lemma Next(s: State, t: nat, cmd: Cmd, k: nat, h: Heap, th: Thread)
    requires Stands(s, t, cmd, k, h, th) && |h.links| > 0 && ThreadStep(h, th, t, Continue).report == []
    ensures Stands(s, t, cmd, k + 1, ThreadStep(h, th, t, Continue).h, ThreadStep(h, th, t, Continue).th)
  {
    var o := ThreadStep(h, th, t, Continue);
    assert s.threads[t := th][t := o.th] == s.threads[t := o.th];
    assert s.reports + o.report == s.reports;
  }

  lemma First(s: State, t: nat, cmd: Cmd)
    requires Inv(s) && t < |s.threads| && s.threads[t].call.Idle?
    ensures Stands(s, t, cmd, 0, s.h, Begin(s.h, s.threads[t], cmd).th)
  {
    InvRunning(s, t);
    BeginSafe(s.h, s.threads[t], t, cmd);
    OwnStep(s, Action(t, cmd));
  }

  // In a calm heap live locations are linked to live nodes.
  lemma CalmNext(h: Heap, p: nat)
    requires HeapInv(h) && Calm(h) && Live(h, p)
    ensures h.links[p] == Clean(h.links[p].to) && h.links[p].to < |h.links|
    ensures h.links[p].to != 0 ==> Live(h, h.links[p].to) && (p == 0 || h.links[p].to < p)
  {
    DeadClaimed(h);
  }

  // ---------- the removal of one node ----------

  // The heap once `n` is flagged at `p`, marked and unlinked by thread `tid`.
  function Cleared(h: Heap, p: nat, n: nat, tid: nat): Heap
    requires p < |h.links| == |h.backs| && n < |h.links| && h.links[p] == Clean(n)
  {
    ListHeap.Unlink(SetMark(SetBack(SetFlag(h, p, tid), n, p), n), p, n, h.links[n].to)
  }

  /** The link from live `p` to live `n`, neither of them in the way of the removal. */
  ghost predicate Removable(h: Heap, p: nat, n: nat) {
    HeapInv(h) && Calm(h) && Live(h, p) && Live(h, n) && 0 < n && h.links[p] == Clean(n) && n !in h.claims && p != n
  }

  lemma LinkRemovable(h: Heap, p: nat)
    requires HeapInv(h) && Calm(h) && Live(h, p) && h.links[p].to != 0
    ensures Removable(h, p, h.links[p].to)
  {
    CalmNext(h, p);
    NotYetClaimed(h, p);
  }

  lemma ClearedCalm(h: Heap, p: nat, n: nat, tid: nat)
    requires Removable(h, p, n)
    ensures Calm(Cleared(h, p, n, tid)) && |Cleared(h, p, n, tid).links| == |h.links|
    ensures Contents(Cleared(h, p, n, tid)) == Without(Contents(h), n)
  {
    var h' := Cleared(h, p, n, tid);
    CalmNext(h, n);
    assert SameMarks(SetMark(h, n), h');
    SameMarksSameList(SetMark(h, n).links, h'.links, |h.links|);
    MarkRemoves(h.links, n, |h.links|);
  }

  // A thread that is about to flag `p` for the removal of `n`.
  predicate AboutToFlag(th: Thread, p: nat, n: nat) {
    th.frames == [] && (th.call == FlagCas(p, n) || th.call == PopCas(p, Clean(n)))
  }

  function Clearer(th: Thread, p: nat, n: nat, at: FrameAt): Thread {
    th.(call := Clearing(n, true), frames := [Frame(p, n, at)])
  }

  // The five accesses of a removal; `h` is the heap before them.
  lemma FlagAlone(s: State, t: nat, cmd: Cmd, k: nat, th: Thread, h: Heap, p: nat, n: nat)
    requires Removable(h, p, n) && AboutToFlag(th, p, n) && Stands(s, t, cmd, k, h, th)
    ensures Stands(s, t, cmd, k + 1, SetFlag(h, p, t), Clearer(th, p, n, SetBacklink))
  {
    Next(s, t, cmd, k, h, th);
  }

  lemma BacklinkAlone(s: State, t: nat, cmd: Cmd, k: nat, th: Thread, h: Heap, p: nat, n: nat)
    requires Removable(h, p, n) && Stands(s, t, cmd, k, SetFlag(h, p, t), Clearer(th, p, n, SetBacklink))
    ensures Stands(s, t, cmd, k + 1, SetBack(SetFlag(h, p, t), n, p), Clearer(th, p, n, ReadNext))
  {
    assert Replace([Frame(p, n, SetBacklink)], ReadNext) == [Frame(p, n, ReadNext)];
    Next(s, t, cmd, k, SetFlag(h, p, t), Clearer(th, p, n, SetBacklink));
  }

  lemma ReadNextAlone(s: State, t: nat, cmd: Cmd, k: nat, th: Thread, h: Heap, p: nat, n: nat)
    requires Removable(h, p, n)
    requires Stands(s, t, cmd, k, SetBack(SetFlag(h, p, t), n, p), Clearer(th, p, n, ReadNext))
    ensures Stands(s, t, cmd, k + 1, SetBack(SetFlag(h, p, t), n, p), Clearer(th, p, n, CasMark(h.links[n])))
  {
    assert Replace([Frame(p, n, ReadNext)], CasMark(h.links[n])) == [Frame(p, n, CasMark(h.links[n]))];
    Next(s, t, cmd, k, SetBack(SetFlag(h, p, t), n, p), Clearer(th, p, n, ReadNext));
  }

  lemma MarkAlone(s: State, t: nat, cmd: Cmd, k: nat, th: Thread, h: Heap, p: nat, n: nat)
    requires Removable(h, p, n)
    requires Stands(s, t, cmd, k, SetBack(SetFlag(h, p, t), n, p), Clearer(th, p, n, CasMark(h.links[n])))
    ensures Stands(s, t, cmd, k + 1, SetMark(SetBack(SetFlag(h, p, t), n, p), n),
      Clearer(th, p, n, CasUnlink(h.links[n].(mark := true))))
  {
    var next := h.links[n];
    assert Replace([Frame(p, n, CasMark(next))], CasUnlink(next.(mark := true)))
      == [Frame(p, n, CasUnlink(next.(mark := true)))];
    Next(s, t, cmd, k, SetBack(SetFlag(h, p, t), n, p), Clearer(th, p, n, CasMark(next)));
  }

  lemma UnlinkAlone(s: State, t: nat, cmd: Cmd, k: nat, th: Thread, h: Heap, p: nat, n: nat)
    requires Removable(h, p, n)
    requires Stands(s, t, cmd, k, SetMark(SetBack(SetFlag(h, p, t), n, p), n),
      Clearer(th, p, n, CasUnlink(h.links[n].(mark := true))))
    ensures Stands(s, t, cmd, k + 1, Cleared(h, p, n, t), th.(call := Clearing(n, true), frames := []))
  {
    Next(s, t, cmd, k, SetMark(SetBack(SetFlag(h, p, t), n, p), n),
      Clearer(th, p, n, CasUnlink(h.links[n].(mark := true))));
  }

  // After `k` steps the call has returned, with `n` reported.
  predicate Ended(s: State, t: nat, cmd: Cmd, k: nat, h: Heap, th: Thread, n: nat) {
    t < |s.threads| && Alone(s, t, cmd, k) == State(h, s.threads[t := th], s.reports + [n])
  }

  lemma ReportAlone(s: State, t: nat, cmd: Cmd, k: nat, th: Thread, h: Heap, p: nat, n: nat)
    requires Removable(h, p, n)
    requires Stands(s, t, cmd, k, Cleared(h, p, n, t), th.(call := Clearing(n, true), frames := []))
    ensures Ended(s, t, cmd, k + 1, Cleared(h, p, n, t), th.(call := Idle, frames := []), n)
  {
    var done := th.(call := Idle, frames := []);
    assert s.threads[t := th.(call := Clearing(n, true), frames := [])][t := done] == s.threads[t := done];
  }

  lemma MarkingAlone(s: State, t: nat, cmd: Cmd, k: nat, th: Thread, h: Heap, p: nat, n: nat)
    requires Removable(h, p, n) && AboutToFlag(th, p, n) && Stands(s, t, cmd, k, h, th)
    ensures Stands(s, t, cmd, k + 3, SetBack(SetFlag(h, p, t), n, p), Clearer(th, p, n, CasMark(h.links[n])))
  {
    FlagAlone(s, t, cmd, k, th, h, p, n);
    BacklinkAlone(s, t, cmd, k + 1, th, h, p, n);
    ReadNextAlone(s, t, cmd, k + 2, th, h, p, n);
  }

  lemma UnlinkingAlone(s: State, t: nat, cmd: Cmd, k: nat, th: Thread, h: Heap, p: nat, n: nat)
    requires Removable(h, p, n)
    requires Stands(s, t, cmd, k, SetBack(SetFlag(h, p, t), n, p), Clearer(th, p, n, CasMark(h.links[n])))
    ensures Stands(s, t, cmd, k + 2, Cleared(h, p, n, t), th.(call := Clearing(n, true), frames := []))
  {
    MarkAlone(s, t, cmd, k, th, h, p, n);
    UnlinkAlone(s, t, cmd, k + 1, th, h, p, n);
  }

  lemma ClearingAlone(s: State, t: nat, cmd: Cmd, k: nat, th: Thread, h: Heap, p: nat, n: nat)
    requires Removable(h, p, n) && AboutToFlag(th, p, n) && Stands(s, t, cmd, k, h, th)
    ensures Stands(s, t, cmd, k + 5, Cleared(h, p, n, t), th.(call := Clearing(n, true), frames := []))
  {
    MarkingAlone(s, t, cmd, k, th, h, p, n);
    UnlinkingAlone(s, t, cmd, k + 3, th, h, p, n);
  }

  lemma RemovalAlone(s: State, t: nat, cmd: Cmd, k: nat, th: Thread, h: Heap, p: nat, n: nat)
    requires Removable(h, p, n) && AboutToFlag(th, p, n) && Stands(s, t, cmd, k, h, th)
    ensures Ended(s, t, cmd, k + 6, Cleared(h, p, n, t), th.(call := Idle, frames := []), n)
  {
    ClearingAlone(s, t, cmd, k, th, h, p, n);
    ReportAlone(s, t, cmd, k + 5, th, h, p, n);
  }

  // ---------- nblist_del ----------

  // Thread `t` with another call.
  function As(s: State, t: nat, call: Call): Thread
    requires t < |s.threads|
  {
    s.threads[t].(call := call)
  }

  predicate Ready(s: State, t: nat) {
    t < |s.threads| && s.threads[t].call.Idle? && s.threads[t].frames == []
  }

  lemma IdleReady(s: State, t: nat)
    requires Inv(s) && t < |s.threads| && s.threads[t].call.Idle?
    ensures Ready(s, t)
  {
  }

  /** The deletion has removed `n` and reported it, and nothing else has changed but a cursor. */
  ghost predicate Removed(s: State, s': State, n: nat) {
    && Calm(s'.h) && |s'.h.links| == |s.h.links| && Contents(s'.h) == Without(Contents(s.h), n)
    && s'.reports == s.reports + [n]
  }

  ghost predicate EndsRemoving(s: State, t: nat, cmd: Cmd, n: nat) {
    exists k :: Removed(s, Alone(s, t, cmd, k), n) && Alone(s, t, cmd, k).threads == s.threads
  }

  ghost predicate EndsUnchanged(s: State, t: nat, cmd: Cmd) {
    exists k :: Alone(s, t, cmd, k) == s
  }

  lemma RemovalEnds(s: State, t: nat, cmd: Cmd, k: nat, call: Call, p: nat, n: nat)
    requires Ready(s, t) && Removable(s.h, p, n) && (call == FlagCas(p, n) || call == PopCas(p, Clean(n)))
    requires Stands(s, t, cmd, k, s.h, As(s, t, call))
    ensures EndsRemoving(s, t, cmd, n)
  {
    RemovalAlone(s, t, cmd, k, As(s, t, call), s.h, p, n);
    ClearedCalm(s.h, p, n, t);
    assert s.threads[t := As(s, t, call).(call := Idle, frames := [])] == s.threads;
    assert Removed(s, Alone(s, t, cmd, k + 6), n);
  }

  lemma IdleEnds(s: State, t: nat, cmd: Cmd, k: nat)
    requires Ready(s, t) && Stands(s, t, cmd, k, s.h, As(s, t, Idle))
    ensures EndsUnchanged(s, t, cmd)
  {
    assert s.threads[t := As(s, t, Idle)] == s.threads;
    assert Alone(s, t, cmd, k) == s;
  }

  // One access of the walk of nblist_del, which has not reached its target.
  lemma DelPasses(s: State, t: nat, cmd: Cmd, k: nat, target: nat, p: nat)
    requires HeapInv(s.h) && Calm(s.h) && Ready(s, t) && Live(s.h, p) && s.h.links[p].to !in {0, target}
    requires Stands(s, t, cmd, k, s.h, As(s, t, DelRead(target, p, s.h.links[p])))
    ensures var n := s.h.links[p].to;
      Live(s.h, n) && (p == 0 || n < p) && Stands(s, t, cmd, k + 1, s.h, As(s, t, DelLoop(target, n, s.h.links[n])))
  {
    CalmNext(s.h, p);
    Next(s, t, cmd, k, s.h, As(s, t, DelRead(target, p, s.h.links[p])));
  }

  lemma DelArrives(s: State, t: nat, cmd: Cmd, k: nat, target: nat, p: nat)
    requires HeapInv(s.h) && Calm(s.h) && Ready(s, t) && Live(s.h, p) && s.h.links[p].to == target != 0
    requires Stands(s, t, cmd, k, s.h, As(s, t, DelRead(target, p, s.h.links[p])))
    ensures EndsRemoving(s, t, cmd, target)
  {
    LinkRemovable(s.h, p);
    DelFlags(s, t, cmd, k, target, p);
    RemovalEnds(s, t, cmd, k + 1, FlagCas(p, target), p, target);
  }

  lemma DelFlags(s: State, t: nat, cmd: Cmd, k: nat, target: nat, p: nat)
    requires Removable(s.h, p, target) && Ready(s, t)
    requires Stands(s, t, cmd, k, s.h, As(s, t, DelRead(target, p, s.h.links[p])))
    ensures Stands(s, t, cmd, k + 1, s.h, As(s, t, FlagCas(p, target)))
  {
    Next(s, t, cmd, k, s.h, As(s, t, DelRead(target, p, s.h.links[p])));
  }

  lemma {:induction false} DelWalk(s: State, t: nat, cmd: Cmd, k: nat, target: nat, p: nat)
    requires HeapInv(s.h) && Calm(s.h) && Ready(s, t) && Live(s.h, p)
    requires 0 < target && Live(s.h, target) && (p == 0 || target < p)
    requires Stands(s, t, cmd, k, s.h, As(s, t, DelLoop(target, p, s.h.links[p])))
    ensures EndsRemoving(s, t, cmd, target)
    decreases Distance(s.h, p)
  {
    NoLiveBetween(s.h, p, target);
    if s.h.links[p].to == target {
      DelArrives(s, t, cmd, k, target, p);
    } else {
      DelPasses(s, t, cmd, k, target, p);
      DelWalk(s, t, cmd, k + 1, target, s.h.links[p].to);
    }
  }

  lemma {:induction false} DelMisses(s: State, t: nat, cmd: Cmd, k: nat, target: nat, p: nat)
    requires HeapInv(s.h) && Calm(s.h) && Ready(s, t) && Live(s.h, p) && (!Live(s.h, target) || target == 0)
    requires Stands(s, t, cmd, k, s.h, As(s, t, DelLoop(target, p, s.h.links[p])))
    ensures EndsUnchanged(s, t, cmd)
    decreases Distance(s.h, p)
  {
    CalmNext(s.h, p);
    if s.h.links[p].to == 0 {
      IdleEnds(s, t, cmd, k);
    } else {
      DelPasses(s, t, cmd, k, target, p);
      DelMisses(s, t, cmd, k + 1, target, s.h.links[p].to);
    }
  }

  lemma Listed(h: Heap, n: nat)
    ensures n in Contents(h) <==> 0 < n && Live(h, n)
  {
    LiveBelowMembers(h.links, |h.links|);
  }

  /** A deletion that runs alone while no deletion is in flight ends: with its target removed from
      the list and reported, or, if the target is not in the list, with nothing changed. */
  lemma DelAlone(threads: nat, schedule: seq<Action>, t: nat, target: nat)
    requires var s := Exec(Start(threads), schedule); t < |s.threads| && s.threads[t].call.Idle? && Calm(s.h)
    ensures var s := Exec(Start(threads), schedule);
      if target in Contents(s.h) then EndsRemoving(s, t, CallDel(target), target)
      else EndsUnchanged(s, t, CallDel(target))
  {
    var s, cmd := Exec(Start(threads), schedule), CallDel(target);
    ExecInv(threads, schedule);
    IdleReady(s, t);
    First(s, t, cmd);
    Listed(s.h, target);
    Next(s, t, cmd, 0, s.h, As(s, t, DelHead(target)));
    if target in Contents(s.h) { DelWalk(s, t, cmd, 1, target, 0); } else { DelMisses(s, t, cmd, 1, target, 0); }
  }

  // ---------- nblist_pop ----------

  /** A pop that runs alone while no deletion is in flight ends: with the newest node of the list
      removed and reported, or, if the list is empty, with nothing changed. */
  lemma PopAlone(threads: nat, schedule: seq<Action>, t: nat)
    requires var s := Exec(Start(threads), schedule); t < |s.threads| && s.threads[t].call.Idle? && Calm(s.h)
    ensures var s := Exec(Start(threads), schedule);
      if Contents(s.h) == [] then EndsUnchanged(s, t, CallPop) else EndsRemoving(s, t, CallPop, Contents(s.h)[0])
  {
    var s := Exec(Start(threads), schedule);
    ExecInv(threads, schedule);
    IdleReady(s, t);
    First(s, t, CallPop);
    CalmNext(s.h, 0);
    CleanFront(s.h);
    PopReads(s, t);
    if s.h.links[0].to == 0 {
      NothingListed(s.h);
      IdleEnds(s, t, CallPop, 1);
    } else {
      LinkRemovable(s.h, 0);
      RemovalEnds(s, t, CallPop, 1, PopCas(0, s.h.links[0]), 0, s.h.links[0].to);
    }
  }

  lemma PopReads(s: State, t: nat)
    requires HeapInv(s.h) && Ready(s, t) && s.h.links[0] == Clean(s.h.links[0].to)
    requires Stands(s, t, CallPop, 0, s.h, As(s, t, PopRead(0)))
    ensures Stands(s, t, CallPop, 1, s.h,
      As(s, t, if s.h.links[0].to == 0 then Idle else PopCas(0, s.h.links[0])))
  {
    Next(s, t, CallPop, 0, s.h, As(s, t, PopRead(0)));
  }

  lemma NothingListed(h: Heap)
    requires Front(Contents(h)) == 0
    ensures Contents(h) == []
  {
    if Contents(h) != [] { Listed(h, Contents(h)[0]); }
  }

  // ---------- nblist_push ----------

  ghost predicate EndsPushing(s: State, t: nat, cmd: Cmd) {
    exists k :: PushedOne(s, Alone(s, t, cmd, k))
  }

  predicate PushedOne(s: State, s': State) {
    && Contents(s'.h) == [|s.h.links|] + Contents(s.h) && |s'.h.links| == |s.h.links| + 1
    && s'.threads == s.threads && s'.reports == s.reports
  }

  /** A push that runs alone while no deletion is in flight ends: with its node in front of the list
      if `top` is the newest node, or NULL and the list empty, and otherwise with nothing changed. */
  lemma PushAlone(threads: nat, schedule: seq<Action>, t: nat, top: nat)
    requires var s := Exec(Start(threads), schedule); t < |s.threads| && s.threads[t].call.Idle? && Calm(s.h)
    ensures var s := Exec(Start(threads), schedule);
      if top == Front(Contents(s.h)) then EndsPushing(s, t, CallPush(top)) else EndsUnchanged(s, t, CallPush(top))
  {
    var s := Exec(Start(threads), schedule);
    ExecInv(threads, schedule);
    IdleReady(s, t);
    First(s, t, CallPush(top));
    CalmNext(s.h, 0);
    CleanFront(s.h);
    PushReads(s, t, top);
    if s.h.links[0].to == top { PushEnds(s, t, top); } else { IdleEnds(s, t, CallPush(top), 1); }
  }

  lemma PushReads(s: State, t: nat, top: nat)
    requires HeapInv(s.h) && Ready(s, t) && s.h.links[0] == Clean(s.h.links[0].to)
    requires Stands(s, t, CallPush(top), 0, s.h, As(s, t, PushRead(top)))
    ensures Stands(s, t, CallPush(top), 1, s.h,
      As(s, t, if s.h.links[0].to == top then PushCas(s.h.links[0]) else Idle))
  {
    Next(s, t, CallPush(top), 0, s.h, As(s, t, PushRead(top)));
  }

  lemma PushEnds(s: State, t: nat, top: nat)
    requires HeapInv(s.h) && Ready(s, t) && s.h.links[0] == Clean(top)
    requires Stands(s, t, CallPush(top), 1, s.h, As(s, t, PushCas(Clean(top))))
    ensures EndsPushing(s, t, CallPush(top))
  {
    Next(s, t, CallPush(top), 1, s.h, As(s, t, PushCas(Clean(top))));
    EffectApplies(s.h, Push(s.h), Pushed(|s.h.links|));
    assert s.threads[t := As(s, t, Idle)] == s.threads;
    assert PushedOne(s, Alone(s, t, CallPush(top), 2));
  }

  // ---------- nblist_del_at ----------

  // Thread `t` in a deletion at its cursor, once `it->prev` has been read.
  function AtCursor(s: State, t: nat, call: Call): Thread
    requires t < |s.threads|
  {
    s.threads[t].(call := call, it := s.threads[t].it.(prev := NoRef))
  }

  ghost predicate EndsRemovingAt(s: State, t: nat, n: nat) {
    exists k :: EndedAt(s, t, Alone(s, t, CallDelAt, k), n)
  }

  ghost predicate EndedAt(s: State, t: nat, s': State, n: nat) {
    t < |s.threads| && Removed(s, s', n) && s'.threads == s.threads[t := AtCursor(s, t, Idle)]
  }

  lemma FoundEnds(s: State, t: nat, k: nat, p: nat, n: nat)
    requires Ready(s, t) && Removable(s.h, p, n)
    requires Stands(s, t, CallDelAt, k, s.h, AtCursor(s, t, FlagCas(p, n)))
    ensures EndsRemovingAt(s, t, n)
  {
    RemovalAlone(s, t, CallDelAt, k, AtCursor(s, t, FlagCas(p, n)), s.h, p, n);
    ClearedCalm(s.h, p, n, t);
    assert AtCursor(s, t, FlagCas(p, n)).(call := Idle, frames := []) == AtCursor(s, t, Idle);
    assert EndedAt(s, t, Alone(s, t, CallDelAt, k + 6), n);
  }

  // A live node that a location newer than it has to lead to.
  ghost predicate Sought(s: State, t: nat, p: nat, n: nat) {
    && HeapInv(s.h) && Calm(s.h) && Ready(s, t) && p < |s.h.links|
    && 0 < n && Live(s.h, n) && (p == 0 || n < p)
  }

  // Walking forward from `p`, as line 60 of nblist.c does.
  lemma {:induction false} ForwardAlone(s: State, t: nat, k: nat, p: nat, n: nat)
    requires Sought(s, t, p, n) && Live(s.h, p) && p != 0
    requires Stands(s, t, CallDelAt, k, s.h, AtCursor(s, t, FlagForward(p, n)))
    ensures EndsRemovingAt(s, t, n)
    decreases p
  {
    var to := s.h.links[p].to;
    NoLiveBetween(s.h, p, n);
    LinkRemovable(s.h, p);
    CalmNext(s.h, p);
    ForwardStep(s, t, k, p, n);
    if to == n { FoundEnds(s, t, k + 1, p, n); } else { ForwardAlone(s, t, k + 1, to, n); }
  }

  lemma ForwardStep(s: State, t: nat, k: nat, p: nat, n: nat)
    requires Sought(s, t, p, n) && s.h.links[p] == Clean(s.h.links[p].to) && s.h.links[p].to != 0
    requires Stands(s, t, CallDelAt, k, s.h, AtCursor(s, t, FlagForward(p, n)))
    ensures Stands(s, t, CallDelAt, k + 1, s.h,
      AtCursor(s, t, if s.h.links[p].to == n then FlagCas(p, n) else FlagForward(s.h.links[p].to, n)))
  {
    Next(s, t, CallDelAt, k, s.h, AtCursor(s, t, FlagForward(p, n)));
  }

  // Where the loop of try_flag goes from a link of `p` that does not lead to `n`, or is dead.
  function Settled(h: Heap, p: nat, n: nat): Call
    requires p < |h.links|
  {
    if h.links[p].mark then FlagBack(p, n)
    else if h.links[p].to == n then FlagCas(p, n) else FlagForward(h.links[p].to, n)
  }

  lemma BackStep(s: State, t: nat, k: nat, p: nat, n: nat)
    requires Sought(s, t, p, n) && s.h.links[p].mark
    requires Stands(s, t, CallDelAt, k, s.h, AtCursor(s, t, FlagBack(p, n)))
    ensures s.h.backs[p].At? && var q := s.h.backs[p].loc;
      q < |s.h.links| && (q == 0 || p < q) && Stands(s, t, CallDelAt, k + 1, s.h, AtCursor(s, t, FlagReload(q, n)))
  {
    DeadClaimed(s.h);
    Next(s, t, CallDelAt, k, s.h, AtCursor(s, t, FlagBack(p, n)));
  }

  lemma ReloadStep(s: State, t: nat, k: nat, p: nat, n: nat)
    requires Sought(s, t, p, n) && (!s.h.links[p].mark ==> s.h.links[p].to != 0)
    requires Stands(s, t, CallDelAt, k, s.h, AtCursor(s, t, FlagReload(p, n)))
    ensures Stands(s, t, CallDelAt, k + 1, s.h, AtCursor(s, t, Settled(s.h, p, n)))
  {
    Next(s, t, CallDelAt, k, s.h, AtCursor(s, t, FlagReload(p, n)));
  }

  // Following backlinks from `p`, then walking forward.
  lemma {:induction false} SettledAlone(s: State, t: nat, k: nat, p: nat, n: nat)
    requires Sought(s, t, p, n) && Stands(s, t, CallDelAt, k, s.h, AtCursor(s, t, Settled(s.h, p, n)))
    ensures EndsRemovingAt(s, t, n)
    decreases if p == 0 then 0 else |s.h.links| - p
  {
    if s.h.links[p].mark {
      BackStep(s, t, k, p, n);
      var q := s.h.backs[p].loc;
      NoLiveBetween(s.h, q, n);
      ReloadStep(s, t, k + 1, q, n);
      SettledAlone(s, t, k + 2, q, n);
    } else {
      NoLiveBetween(s.h, p, n);
      LinkRemovable(s.h, p);
      CalmNext(s.h, p);
      if s.h.links[p].to == n { FoundEnds(s, t, k, p, n); } else { ForwardAlone(s, t, k, s.h.links[p].to, n); }
    }
  }

  lemma TryStep(s: State, t: nat, k: nat, p: nat, n: nat)
    requires Sought(s, t, p, n) && s.h.links[p] != Clean(n) && (!s.h.links[p].mark ==> s.h.links[p].to != 0)
    requires Stands(s, t, CallDelAt, k, s.h, AtCursor(s, t, FlagCas(p, n)))
    ensures Stands(s, t, CallDelAt, k + 1, s.h, AtCursor(s, t, Settled(s.h, p, n)))
  {
    Next(s, t, CallDelAt, k, s.h, AtCursor(s, t, FlagCas(p, n)));
  }

  lemma TryAlone(s: State, t: nat, k: nat, p: nat, n: nat)
    requires Sought(s, t, p, n) && Stands(s, t, CallDelAt, k, s.h, AtCursor(s, t, FlagCas(p, n)))
    ensures EndsRemovingAt(s, t, n)
  {
    NoLiveBetween(s.h, p, n);
    if s.h.links[p] == Clean(n) {
      LinkRemovable(s.h, p);
      FoundEnds(s, t, k, p, n);
    } else {
      TryStep(s, t, k, p, n);
      SettledAlone(s, t, k + 1, p, n);
    }
  }

  lemma CursorReads(s: State, t: nat)
    requires Inv(s) && Ready(s, t) && s.threads[t].it.cur > 0 && s.threads[t].it.prev.At?
    requires Stands(s, t, CallDelAt, 0, s.h, As(s, t, DelAtCur))
    ensures s.threads[t].it.cur < |s.h.links|
    ensures Stands(s, t, CallDelAt, 1, s.h,
      As(s, t, if Live(s.h, s.threads[t].it.cur) then DelAtPrev else Idle))
  {
    InvRunning(s, t);
    Next(s, t, CallDelAt, 0, s.h, As(s, t, DelAtCur));
  }

  lemma PrevReads(s: State, t: nat)
    requires Inv(s) && Calm(s.h) && Ready(s, t) && s.threads[t].it.cur > 0 && s.threads[t].it.prev.At?
    requires Stands(s, t, CallDelAt, 1, s.h, As(s, t, DelAtPrev))
    ensures var it := s.threads[t].it;
      it.prev.loc < |s.h.links| && Stands(s, t, CallDelAt, 2, s.h, AtCursor(s, t, FlagCas(it.prev.loc, it.cur)))
  {
    InvRunning(s, t);
    Next(s, t, CallDelAt, 1, s.h, As(s, t, DelAtPrev));
  }

  /** A deletion at the cursor that runs alone while no deletion is in flight ends: with the node at
      the cursor removed from the list and reported, or, if that node is not in the list or the
      cursor is at the end, with nothing changed. */
  lemma DelAtAlone(threads: nat, schedule: seq<Action>, t: nat)
    requires var s := Exec(Start(threads), schedule); t < |s.threads| && s.threads[t].call.Idle? && Calm(s.h)
    ensures var s := Exec(Start(threads), schedule); var c := s.threads[t].it.cur;
      if c in Contents(s.h) then EndsRemovingAt(s, t, c) else EndsUnchanged(s, t, CallDelAt)
  {
    var s := Exec(Start(threads), schedule);
    var it := s.threads[t].it;
    ReachedCursors(threads, schedule);
    IdleReady(s, t);
    First(s, t, CallDelAt);
    Listed(s.h, it.cur);
    assert CursorInv(s.h, s.threads[t]);
    if it.cur == 0 || it.prev == NoRef {
      IdleEnds(s, t, CallDelAt, 0);
    } else {
      CursorReads(s, t);
      if Live(s.h, it.cur) {
        PrevReads(s, t);
        TryAlone(s, t, 2, it.prev.loc, it.cur);
      } else {
        IdleEnds(s, t, CallDelAt, 1);
      }
    }
  }
}
