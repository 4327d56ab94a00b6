/** The non-blocking list as an abstract sequence, and its main results. */
module NonBlockingListResults {
  import opened ListHeap
  import opened NonBlockingList
  import opened NonBlockingListSafety

  // ---------- the abstract list ----------

  /** The live nodes numbered below `k`, newest first. */
  function LiveBelow(links: seq<Link>, k: nat): (list: seq<nat>)
    requires k <= |links|
  {
    if k <= 1 then [] else if links[k - 1].mark then LiveBelow(links, k - 1) else [k - 1] + LiveBelow(links, k - 1)
  }

  lemma {:induction false} LiveBelowMembers(links: seq<Link>, k: nat)
    requires k <= |links|
    ensures forall n :: n in LiveBelow(links, k) <==> 0 < n < k && !links[n].mark
  {
    if k > 1 { LiveBelowMembers(links, k - 1); }
  }

  function Contents(h: Heap): seq<nat> {
    LiveBelow(h.links, |h.links|)
  }

  /** The live nodes met by following `next` from `p`. */
  function Walk(h: Heap, p: nat): seq<nat>
    requires Shaped(h) && p < |h.links|
    decreases if p == 0 then |h.links| else p
  {
    var to := h.links[p].to;
    if to == 0 then [] else if h.links[to].mark then Walk(h, to) else [to] + Walk(h, to)
  }

  lemma {:induction false} SkipDead(h: Heap, p: nat, k: nat)
    requires Shaped(h) && SkipsDead(h) && p < |h.links|
    requires h.links[p].to < k <= (if p == 0 then |h.links| else p)
    ensures LiveBelow(h.links, k) == LiveBelow(h.links, h.links[p].to + 1)
  {
    if k > h.links[p].to + 1 {
      assert Between(h, p, k - 1);
      SkipDead(h, p, k - 1);
    }
  }

  /** Following `next` from any published node, dead or alive, meets exactly the live nodes
      older than it, newest first; from the head this is the whole list. */
  lemma {:induction false} WalkMeetsLive(h: Heap, p: nat)
    requires Shaped(h) && SkipsDead(h) && p < |h.links|
    ensures Walk(h, p) == LiveBelow(h.links, if p == 0 then |h.links| else p)
    decreases if p == 0 then |h.links| else p
  {
    var to := h.links[p].to;
    SkipDead(h, p, if p == 0 then |h.links| else p);
    if to != 0 { WalkMeetsLive(h, to); }
  }

  /** The sequence of live nodes changes at two kinds of step only. */
  datatype Event = Silent | Pushed(n: nat) | Removed(n: nat)

  function EventOf(s: State, a: Action): Event {
    if a.tid >= |s.threads| || |s.h.links| == 0 || s.threads[a.tid].call == Failed then Silent else
      var th := s.threads[a.tid];
      if th.frames != [] then
        var f := th.frames[|th.frames| - 1];
        if f.at.CasMark? && f.n < |s.h.links| && s.h.links[f.n] == f.at.next && !f.at.next.mark then Removed(f.n)
          else Silent
      else if th.call.PushCas? && s.h.links[0] == th.call.val then Pushed(|s.h.links|)
      else Silent
  }

  function Without(list: seq<nat>, n: nat): seq<nat> {
    if list == [] then [] else if list[0] == n then Without(list[1..], n) else [list[0]] + Without(list[1..], n)
  }

  function Apply(list: seq<nat>, e: Event): seq<nat> {
    match e
    case Silent => list
    case Pushed(n) => [n] + list
    case Removed(n) => Without(list, n)
  }

  predicate SameMarks(h: Heap, h': Heap) {
    |h'.links| == |h.links| && forall p :: 0 <= p < |h.links| ==> h'.links[p].mark == h.links[p].mark
  }

  lemma {:induction false} SameMarksSameList(links: seq<Link>, links': seq<Link>, k: nat)
    requires k <= |links| && k <= |links'| && forall p :: 0 < p < k ==> links'[p].mark == links[p].mark
    ensures LiveBelow(links', k) == LiveBelow(links, k)
  {
    if k > 1 { SameMarksSameList(links, links', k - 1); }
  }

  lemma {:induction false} MarkRemoves(links: seq<Link>, n: nat, k: nat)
    requires n < |links| && k <= |links|
    ensures LiveBelow(links[n := links[n].(mark := true)], k) == Without(LiveBelow(links, k), n)
  {
    if k > 1 {
      var rest := LiveBelow(links, k - 1);
      MarkRemoves(links, n, k - 1);
      assert ([k - 1] + rest)[1..] == rest;
    }
  }

  // ---------- the effect of a step on the marks ----------

  ghost predicate Effect(h: Heap, h': Heap, e: Event) {
    match e
    case Silent => SameMarks(h, h')
    case Pushed(n) => |h.links| > 0 && n == |h.links| && h' == Push(h)
    case Removed(n) => n < |h.links| && h' == SetMark(h, n)
  }

  lemma FrameEffect(s: State, t: nat)
    requires Inv(s) && t < |s.threads| && s.threads[t].frames != []
    ensures Effect(s.h, FrameStep(s.h, s.threads[t]).h, EventOf(s, Action(t, Continue)))
  {
    assert ThreadInv(s.h, t, s.threads[t]);
    var f := s.threads[t].frames[|s.threads[t].frames| - 1];
    assert FrameInv(s.h, f);
  }

  lemma CallEffect(h: Heap, th: Thread, tid: nat, cmd: Cmd)
    requires HeapInv(h) && CallInv(h, tid, th) && th.frames == []
    requires !(th.call.PushCas? && h.links[0] == th.call.val)
    ensures SameMarks(h, ThreadStep(h, th, tid, cmd).h)
  {
  }

  lemma EffectApplies(h: Heap, h': Heap, e: Event)
    requires Shaped(h) && Effect(h, h', e)
    ensures Contents(h') == Apply(Contents(h), e)
  {
    match e
    case Silent => SameMarksSameList(h.links, h'.links, |h.links|);
    case Pushed(n) => SameMarksSameList(h.links, h'.links, n);
    case Removed(n) => MarkRemoves(h.links, n, |h.links|);
  }

  lemma StepEffect(s: State, a: Action)
    requires Inv(s)
    ensures Effect(s.h, Step(s, a).h, EventOf(s, a))
    ensures EventOf(s, a).Removed? ==> EventOf(s, a).n in s.h.claims && Live(s.h, EventOf(s, a).n)
  {
    if a.tid < |s.threads| {
      var th := s.threads[a.tid];
      assert ThreadInv(s.h, a.tid, th);
      if th.frames != [] {
        FrameEffect(s, a.tid);
        assert FrameInv(s.h, th.frames[|th.frames| - 1]);
      } else if EventOf(s, a).Silent? {
        CallEffect(s.h, th, a.tid, a.cmd);
      }
    }
  }

  /** Every step pushes a node at the front, removes one node, or leaves the list alone. */
  lemma StepRefines(s: State, a: Action)
    requires Inv(s)
    ensures Contents(Step(s, a).h) == Apply(Contents(s.h), EventOf(s, a))
    ensures EventOf(s, a).Removed? ==> EventOf(s, a).n in Contents(s.h) && EventOf(s, a).n in s.h.claims
  {
    StepEffect(s, a);
    EffectApplies(s.h, Step(s, a).h, EventOf(s, a));
    LiveBelowMembers(s.h.links, |s.h.links|);
    if EventOf(s, a).Removed? { assert Claimed(s.h, EventOf(s, a).n); }
  }

  // ---------- every schedule ----------

  /** The abstract list after a schedule: the pushes and removals of the run, in order. */
  function Replay(threads: nat, schedule: seq<Action>): seq<nat>
    decreases |schedule|
  {
    if schedule == [] then [] else
      var before := schedule[..|schedule| - 1];
      Apply(Replay(threads, before), EventOf(Exec(Start(threads), before), schedule[|schedule| - 1]))
  }

  /** Following `next` from the head, skipping dead nodes, yields at every moment the
      sequence obtained from the empty one by the run's push-fronts and remove-ones. */
  lemma {:induction false} ListRefinesSequence(threads: nat, schedule: seq<Action>)
    ensures Shaped(Exec(Start(threads), schedule).h)
    ensures Walk(Exec(Start(threads), schedule).h, 0) == Replay(threads, schedule)
    decreases |schedule|
  {
    var s := Exec(Start(threads), schedule);
    ExecInv(threads, schedule);
    WalkMeetsLive(s.h, 0);
    if schedule != [] {
      var before := Exec(Start(threads), schedule[..|schedule| - 1]);
      ExecInv(threads, schedule[..|schedule| - 1]);
      ListRefinesSequence(threads, schedule[..|schedule| - 1]);
      WalkMeetsLive(before.h, 0);
      StepRefines(before, schedule[|schedule| - 1]);
    }
  }

  /** The asserts of clear_flag, rend_the_marked, nblist_push, nblist_pop and the backlink
      walk hold in every run, and clear_flag recurses through strictly older nodes only. */
  lemma AssertsHold(threads: nat, schedule: seq<Action>, t: nat)
    requires t < |Exec(Start(threads), schedule).threads|
    ensures var th := Exec(Start(threads), schedule).threads[t];
      && th.call != Failed
      && forall i, k :: 0 <= i < k < |th.frames| && k == i + 1 ==> th.frames[k].n < th.frames[i].n
  {
    ExecInv(threads, schedule);
    assert ThreadInv(Exec(Start(threads), schedule).h, t, Exec(Start(threads), schedule).threads[t]);
  }

  predicate SharedTarget(h: Heap, p: nat, q: nat)
    requires p < |h.links| && q < |h.links|
  {
    Live(h, p) && Live(h, q) && h.links[p].to == h.links[q].to != 0
  }

  predicate LinkedByBacklink(h: Heap, n: nat)
    requires n < |h.links| == |h.backs|
  {
    h.backs[n].At? && h.backs[n].loc < |h.links| && h.links[h.backs[n].loc] == Flagged(n)
  }

  /** The link structure of every reachable state. */
  lemma LinksKeepTheirShape(threads: nat, schedule: seq<Action>)
    ensures var h := Exec(Start(threads), schedule).h;
      && |h.backs| == |h.links| > 0 && !h.links[0].mark
      && (forall p :: 0 <= p < |h.links| ==> !(h.links[p].mark && h.links[p].flag))
      && (forall p :: 0 < p < |h.links| ==> h.links[p].to < p)
      && (forall n :: 0 <= n < |h.links| && h.backs[n].At? ==> h.backs[n].loc == 0 || h.backs[n].loc > n)
      && (forall p, q :: 0 <= p < |h.links| && 0 <= q < |h.links| && SharedTarget(h, p, q) ==> p == q)
      && (forall n :: 0 < n < |h.links| && h.links[n].mark ==> Cut(h, n) || LinkedByBacklink(h, n))
  {
    var h := Exec(Start(threads), schedule).h;
    ExecInv(threads, schedule);
    forall p, q | 0 <= p < |h.links| && 0 <= q < |h.links| && SharedTarget(h, p, q) ensures p == q {
      OneLivePredecessor(h, p, q);
    }
    forall n | 0 <= n < |h.links| && h.backs[n].At? ensures Claimed(h, n) {}
  }

  /** A dead node's `next`, a backlink and a claim never change again. */
  lemma DeadStayFrozen(threads: nat, schedule: seq<Action>, a: Action)
    ensures Later(Exec(Start(threads), schedule).h, Step(Exec(Start(threads), schedule), a).h)
  {
    ExecInv(threads, schedule);
    InvStep(Exec(Start(threads), schedule), a);
  }

  predicate SameWin(th: Thread, other: Thread) {
    Won(th) && Won(other) && th.call.n == other.call.n
  }

  /** Among all calls of nblist_pop, nblist_del and nblist_del_at at most one reports removing
      a given node, and a reported node is dead and unlinked. */
  lemma RemovedOnce(threads: nat, schedule: seq<Action>)
    ensures var s := Exec(Start(threads), schedule);
      && (forall k, l :: 0 <= k < l < |s.reports| ==> s.reports[k] != s.reports[l])
      && (forall k :: 0 <= k < |s.reports| ==> Cut(s.h, s.reports[k]))
      && (forall t, u :: 0 <= t < |s.threads| && 0 <= u < |s.threads| && SameWin(s.threads[t], s.threads[u]) ==> t == u)
  {
    var s := Exec(Start(threads), schedule);
    ExecInv(threads, schedule);
    forall t | 0 <= t < |s.threads| && Won(s.threads[t])
      ensures s.threads[t].call.n in s.h.claims && s.h.claims[s.threads[t].call.n].tid == t
    {
      WinnerNamed(s, t);
    }
  }

  /** From any published node, even a dead one, `next` still leads to every older live node. */
  lemma {:induction false} OlderLiveReachable(h: Heap, x: nat, y: nat)
    requires HeapInv(h) && x < |h.links| && 0 < y && Live(h, y) && (x == 0 || y < x)
    ensures Reaches(h, x, y)
    decreases if x == 0 then |h.links| else x
  {
    NoLiveBetween(h, x, y);
    if h.links[x].to != y { OlderLiveReachable(h, h.links[x].to, y); }
  }

  predicate Reaches(h: Heap, x: nat, y: nat)
    requires Shaped(h) && x < |h.links|
    decreases if x == 0 then |h.links| else x
  {
    x == y || (h.links[x].to != 0 && Reaches(h, h.links[x].to, y))
  }

  /** An iteration that has ended has returned every node that was in the list when it began
      and is still alive. */
  lemma IterationComplete(threads: nat, schedule: seq<Action>, t: nat, n: nat)
    requires t < |Exec(Start(threads), schedule).threads|
    requires var s := Exec(Start(threads), schedule); var th := s.threads[t];
      th.it.cur == 0 && 0 < n < th.it.since && Live(s.h, n)
    ensures n in Exec(Start(threads), schedule).threads[t].it.seen
  {
    ExecInv(threads, schedule);
    assert ThreadInv(Exec(Start(threads), schedule).h, t, Exec(Start(threads), schedule).threads[t]);
  }
}
