# Concurrent and classic algorithms in C, modelled and proved in Dafny

The repository is a collection of small, self-contained C programs. This project models the ones
whose correctness is not visible from any one function, and proves what they promise.
`dafny verify dfyconfig.toml` covers every file.

## How the model is built

**Four lock-free structures** are state machines. Each access of a thread to shared memory is one
step; a program counter (`Pc`, or `Frame` and `Call`) stands for the place in the C function and the
values in its locals; `Step` is the program and `Exec` runs a schedule, a sequence of (thread,
command) pairs. Every theorem is about all schedules and any number of threads. Fields called
`written`, `claimed`, `installed`, `freed`, `results` and so on are history: no step reads them to
decide what to do next.

| files | source | what runs |
|---|---|---|
| `HazardDomain`, `HazardSafety`, `HazardCalls`, `HazardProgress` | `domain.c`, `hp.c` | readers `load` and `drop`, writers `swap` and `cleanup`, over two anonymous slot lists |
| `ListHeap`, `NonBlockingList`, `NonBlockingListSafety`, `NonBlockingListResults`, `NonBlockingListCalls`, `NonBlockingListCursors`, `NonBlockingListAlone`, `NonBlockingListStalls`, `NonBlockingListProgress`, `NonBlockingListWaits` | `nblist.c` | `push`, `pop`, `del`, `del_at` and the iterator over flag, mark and backlink |
| `LockFreeRing`, `LockFreeRingSafety`, `LockFreeRingResults`, `LockFreeRingPublished`, `LockFreeRingEmpty`, `LockFreeRingLag`, `LockFreeRingCalls`, `LockFreeRingProgress`, `LockFreeRingWrap`, `RingWords`, `RingSizes` | `lfring.c` | batch enqueue and dequeue in all four producer/consumer modes |
| `SequencedQueue`, `SequencedQueueSafety`, `SequencedQueueResults`, `SequencedQueueCalls`, `SequencedQueueProgress`, `SequencedQueueWrap` | `queues.h` | `enqueue` and `dequeue` in all four producer/consumer modes |

Three kinds of theorem are proved of each structure. What every schedule keeps is in the modules
`...Safety` and `...Results`. What one call answers its caller is in `...Calls` (for the list also `...Cursors`, `...Alone` and
`...Stalls`): a call is the stretch
of a schedule from a command given to an idle thread to the step in which that call returns, with
the steps of all other threads in between, and the laws speak of the arguments in the command.
Whether a call waits for other threads is in `...Progress`: from any reachable state, in the middle
of any call and with the other threads stopped anywhere, does the thread return if it runs alone?

The ring and the queue take the width of their indices as a parameter. They are proved correct on
unbounded integers, and a refinement theorem says that the same program on 64-bit words that wrap
around takes the same steps while every index a thread holds is less than 2^63 behind the end of the
live range: `head + size` in the ring, `enqueue_index + cell_count` in the queue.

**Structures on the heap** are classes and methods that rewrite fields. Their specifications are
pure functions on a snapshot of the links (a `map` from node to fields), and the methods are proved
to do exactly what the snapshot function says: `STreeShape`, `STreeEdit`, `STreeRemove`, `STreeHints`,
`STree` and `TreeInt` for the S-Tree; `IntrusiveList`, `LruSpec`, `LruRetention`, `LruShape`, `LruUpdates`
and `LruCache` for the LRU cache; `MessageQueue` for the byte queue.

**Algorithms on arrays and words** are methods with loops: `Sorting`, `Partitioning` and `QuickSort`
for `qsort_algo`, `IntegerSqrt` on `Powers`, `Memchr` and `LongestRun`.

## What the code does not promise

Four natural readings are false of the code, and the code is modelled as it is.

* *A dequeue that returns nothing met an empty ring at some instant of its call.* It fails in two
  ways. A single producer's elements are looked for only up to the published tail, so an element
  stored and not yet published is missed; no compare-and-swap is involved
  (`LockFreeRingLag.UnpublishedUnseen`, one producer and one consumer). And with several consumers,
  when a compare-and-swap on `head` fails the loop keeps its old local tail, and `find_tail` may scan
  from below the new head and stop at a slot that a later lap has reused
  (`LockFreeRingLag.NothingWithoutEmpty`). In both runs the ring holds an element in every state of
  the call. When the reading is true is settled by `LockFreeRingEmpty`. With a single consumer,
  whatever the producers: exactly when the ring was empty as the call began, which is exactly when no
  producer inside a call had then advanced past the published tail (`SingleConsumerExactly`); with
  several producers that always holds (`LockFreeRingPublished.SingleConsumerSawEmpty`). In every
  mode: exactly when the ring was empty as the call began or a dequeue of another thread took the
  last element during it (`NothingExactlyWhen`). What holds without condition is that every
  *published* element was taken as the call returned; whether the ring is empty outright in that
  state is settled by `LockFreeRingPublished.NothingExactly`.
* *A short count means that the ring was full.* It does with several producers
  (`ShortEnqueueSawFull`). A single producer loads the head once, and consumers may make room while
  it stores; `LockFreeRingLag.ShortWithoutFull` is such a run. `LockFreeRingPublished.ShortExactly`
  says when the reading is true: exactly when the ring was full as the call began, or no consumer
  moved the head between its load and the last store.
* *The list is non-blocking*, as the first line of `nblist.h` has it. It is, but for one call. When
  another thread stops between marking a node and unlinking it, `try_flag` does not unlink that node:
  looking for the parent of the next one it follows the dead node's backlink, walks forward to the
  dead node again, and so on (`NonBlockingListWaits.DelAtMayWait`). `nblist_del` unlinks such nodes on
  its way. So from every reachable state every call returns when its thread runs alone, except for
  exactly `nblist_del_at` at a live node that no live location points at (`CallsReturnExactly`); a
  call already inside `try_flag` returns exactly if its node is not so stuck (`ReturnsUnlessStuck`).
* *A pop takes the first node of the list.* It follows the link of a dead node without taking what is
  behind it, so it may return NULL while the list holds a node nobody has claimed
  (`NonBlockingListStalls.PopMissesNode`). A pop that runs alone takes the newest unclaimed node
  exactly when a live location points at it (`PopTakesNewest`).

Two comments in the source differ from its code. `queue.h` calls `tail_seq` the number of the last
message written; the code makes it the number of the next one, and so does the model. `problem1.c`
of the S-Tree says that a removal looks for the *first* node of the left subtree; the code takes the
last one.

## Model

| member | source | states |
|---|---|---|
| HazardSafety.NoUseAfterFree | linux-2022/quiz5/problem2/domain.c:35-126 | In every run no object is deallocated, or about to be, while a reader is between a successful `load` of it and its `drop`, and none is deallocated twice |
| HazardSafety.DropNeverFails | linux-2022/quiz5/problem2/domain.c:66-70 | As many slots hold a value as readers owe a removal of it, and the unreachable branch of `drop` is unreachable, although slots are anonymous and readers clear each other's |
| HazardSafety.NothingLost | linux-2022/quiz5/problem2/domain.c:72-126 | Conservation: every value ever installed is in exactly one place, a shared pointer, one deallocating thread, one retired slot, or deallocated once |
| HazardSafety.RemoveFinds | linux-2022/quiz5/problem2/hp.c:48-61 | A removal walk always has a matching slot at or ahead of it, whatever is inserted behind it or removed ahead of it |
| HazardSafety.ScanEndClears | linux-2022/quiz5/problem2/hp.c:64-74 | A `list_contains` scan that ends without a hit proves that no reader holds the value |
| HazardSafety.InvStep | linux-2022/quiz5/problem2/hp.c:5-74 | Every atomic step of any thread keeps the counting invariant over slot positions, the ledger and the protection of readers |
| HazardSafety.ExecInv | linux-2022/quiz5/problem2/domain.c:35-126 | The invariant holds after every schedule from a domain with empty lists |
| HazardCalls.LoadAnswers | linux-2022/quiz5/problem2/domain.c:35-60 | A call `load` of shared pointer k returns the value that pointer k itself has in the state of the validating read, the last but one of the call, through any number of retries |
| HazardCalls.DropAnswers | linux-2022/quiz5/problem2/domain.c:66-70 | A `drop` of the value its thread holds writes once: its last step clears one slot that holds that value, and no other step of the call changes anything shared |
| HazardCalls.SwapAnswers | linux-2022/quiz5/problem2/domain.c:72-98 | A `swap` puts the new value into the pointer it was given and ends by deallocating the old one; it retires it instead only if told to defer and only if a slot held it in some state of the call |
| HazardCalls.CleanupAnswers | linux-2022/quiz5/problem2/domain.c:105-126 | A `cleanup` passes over no retired slot: a value on the retired list as it began is gone from it when it returns, unless it was told to defer and a slot held the value in some state of the call |
| HazardProgress.WaitsExactly | linux-2022/quiz5/problem2/domain.c:35-126 | From every reachable state a thread in a call returns if it runs alone, if and only if the call is not a swap or cleanup told not to defer whose scan will meet its value, or that will come to a retired value some slot holds; `load`, `drop` and every deferring call always return |
| ListHeap.OneLivePredecessor | linux-2022/quiz11/problem2/nblist.c:75-109 | A published node has at most one unmarked predecessor |
| ListHeap.NotYetClaimed | linux-2022/quiz11/problem2/nblist.c:25-72 | A live node can be flagged at most once: the target of an unflagged live link was never claimed before |
| NonBlockingListSafety.InvStep | linux-2022/quiz11/problem2/nblist.c:25-237 | Every step keeps the link invariant, the frames of recursive `clear_flag` calls and the claims, and only moves the heap forward (`Later`) |
| NonBlockingListSafety.ExecInv | linux-2022/quiz11/problem2/nblist.c:25-237 | The invariant holds after every schedule |
| NonBlockingListResults.LinksKeepTheirShape | linux-2022/quiz11/problem2/nblist.c:25-125 | Head never marked, no node both marked and flagged, `next` leads to older and backlinks to newer nodes, one live predecessor, and a marked node still linked has a flagged predecessor that is its backlink |
| NonBlockingListResults.AssertsHold | linux-2022/quiz11/problem2/nblist.c:75-131 | The asserts of `rend_the_marked`, `clear_flag`, push and pop hold in every run, as does that of the backlink walk (line 52), and `clear_flag` recurses through strictly older nodes |
| NonBlockingListResults.DeadStayFrozen | linux-2022/quiz11/problem2/nblist.c:87-109 | A marked node's `next`, a set backlink and a claim never change again |
| NonBlockingListResults.StepRefines | linux-2022/quiz11/problem2/nblist.c:87-152 | Each step pushes one node at the front of the abstract list, removes one claimed node from it, or leaves it alone |
| NonBlockingListResults.ListRefinesSequence | linux-2022/quiz11/problem2/nblist.c:87-188 | Following `next` from the head past dead nodes yields, at every moment, the sequence that the run's pushes and removals give |
| NonBlockingListResults.WalkMeetsLive | linux-2022/quiz11/problem2/nblist.c:190-216 | From any published node, dead or alive, `next` meets exactly the older live nodes, newest first |
| NonBlockingListResults.RemovedOnce | linux-2022/quiz11/problem2/nblist.c:127-188 | Among all pops, deletions and deletions at a cursor at most one reports removing a given node, and a reported node is dead and unlinked |
| NonBlockingListResults.OlderLiveReachable | linux-2022/quiz11/problem2/nblist.c:47-67 | Every node ever published, even a dead one, still reaches every older live node |
| NonBlockingListResults.IterationComplete | linux-2022/quiz11/problem2/nblist.c:190-216 | An iteration that has ended has returned every node that was in the list when it began and is still alive |
| NonBlockingListCalls.CallReports | linux-2022/quiz11/problem2/nblist.c:127-237 | Whatever the call and whatever runs beside it, it reports removing a node if and only if it set the flag that removes it itself: at most one node, and in its last step |
| NonBlockingListCalls.DelAnswers | linux-2022/quiz11/problem2/nblist.c:159-188 | A call `nblist_del(target)` claims and reports no node but `target`, reports it if and only if the call itself claimed it, and a target published before the call is out of the list when the call returns |
| NonBlockingListCalls.PopAnswers | linux-2022/quiz11/problem2/nblist.c:127-152 | A pop reports exactly what it claimed, at most one node, and that node is in the list in some state of the call |
| NonBlockingListCalls.PushAnswers | linux-2022/quiz11/problem2/nblist.c:111-125 | A push publishes its node in its last step if and only if the head then points at `top` unflagged, in front of the list whose newest node `top` is; no other step of the call pushes |
| NonBlockingListCursors.DelAtAnswers | linux-2022/quiz11/problem2/nblist.c:218-237 | A deletion at a cursor claims and reports no node but the one the cursor was on as the call began, and reports it if and only if the call itself claimed it; that node is out of the list when the call returns, and the cursor stays |
| NonBlockingListCursors.CursorAnswers | linux-2022/quiz11/problem2/nblist.c:190-216 | First and next put the cursor on the newest node, among those published or older than the cursor, that is alive as they return, and on NULL if there is none |
| NonBlockingListAlone.DelAlone | linux-2022/quiz11/problem2/nblist.c:159-188 | Run alone with no deletion in flight, `nblist_del(target)` ends with exactly `target` out of the list and reported, or, if it was not in the list, with nothing changed at all |
| NonBlockingListAlone.DelAtAlone | linux-2022/quiz11/problem2/nblist.c:218-237 | The same of a deletion at a cursor and the node there, wherever the location before the cursor has ended up: it follows backlinks out of dead nodes and walks forward to the real parent |
| NonBlockingListAlone.PopAlone | linux-2022/quiz11/problem2/nblist.c:127-152 | Run alone with no deletion in flight, a pop ends with the first node of the list removed and reported, or, if the list is empty, with nothing changed |
| NonBlockingListAlone.PushAlone | linux-2022/quiz11/problem2/nblist.c:111-125 | Run alone with no deletion in flight, a push ends with its node in front if `top` is the first node (NULL for the empty list), and with nothing changed otherwise |
| NonBlockingListStalls.CalmExactly | linux-2022/quiz11/problem2/nblist.c:25-109 | No deletion is in flight if and only if every thread that has set a flag has its node unlinked already; every flag has one thread that set it and is still clearing it |
| NonBlockingListStalls.PopTakesNewest | linux-2022/quiz11/problem2/nblist.c:127-152 | Wherever other threads have stopped, a pop that runs alone claims the newest unclaimed node if and only if a live location points at that node |
| NonBlockingListStalls.PopMissesNode | linux-2022/quiz11/problem2/nblist.c:137-148 | A reachable state in which a pop that runs alone returns NULL while the list holds an unclaimed node in every state of the call |
| NonBlockingListProgress.FrameWork | linux-2022/quiz11/problem2/nblist.c:75-109 | Every access of `clear_flag`, nested to any depth, leaves less work when no other thread runs, although a recursive call adds a frame |
| NonBlockingListWaits.ReturnsUnlessStuck | linux-2022/quiz11/problem2/nblist.c:25-188 | From every reachable state a thread in the middle of a call returns if it runs alone, unless the call is a deletion whose node is stuck behind a dead one; inside `try_flag`, if and only if the node is not |
| NonBlockingListWaits.CallsReturnExactly | linux-2022/quiz11/problem2/nblist.c:25-237 | From every reachable state a call returns if its thread runs alone, if and only if it is not `nblist_del_at` at a live node that no live location points at |
| NonBlockingListWaits.DelAtMayWait | linux-2022/quiz11/problem2/nblist.c:33-68 | Such a state is reachable: `nblist_del_at`, called alone on the one node of a list, goes round for ever |
| LockFreeRingSafety.WritesAtFrontier | linux-2022/quiz8/problem2/lfring.c:147-168 | A producer whose slot compare-and-swap succeeds stands exactly at the write frontier, with room left |
| LockFreeRingSafety.InvStep | linux-2022/quiz8/problem2/lfring.c:81-243 | Every step keeps the ring invariant; head, published tail and the written prefix only grow |
| LockFreeRingSafety.ExecInv | linux-2022/quiz8/problem2/lfring.c:53-243 | The invariant holds after every schedule, in all four producer/consumer modes |
| LockFreeRingResults.RingIsFifo | linux-2022/quiz8/problem2/lfring.c:107-243 | Written indices form one gap-free prefix, head <= published tail <= frontier <= head + size, the live slots hold what was written, and what was dequeued is the oldest prefix of it; the assert of line 122 never fails |
| LockFreeRingResults.DequeuesExact | linux-2022/quiz8/problem2/lfring.c:200-243 | A successful dequeue returns exactly the elements of the indices it claims, although it copies before its compare-and-swap, and successive claims abut |
| LockFreeRingResults.OnlyForward | linux-2022/quiz8/problem2/lfring.c:81-104 | `cond_update` and every other step only move the tail, the head and the frontier forward |
| LockFreeRingResults.ShortEnqueueSawFull | linux-2022/quiz8/problem2/lfring.c:135-179 | With several producers a short count means that the ring was full when the call gave up |
| LockFreeRingResults.SingleProducerTakesWhatFits | linux-2022/quiz8/problem2/lfring.c:116-120 | A single producer takes exactly the smaller of what it was given and what fits at its load of the head |
| LockFreeRingPublished.ShortExactly | linux-2022/quiz8/problem2/lfring.c:116-133 | A single producer's short count saw a full ring if and only if it was full as the call began or no consumer moved the head between its load and the last store |
| LockFreeRingLag.ShortWithoutFull | linux-2022/quiz8/problem2/lfring.c:116-133 | A run with a short single-producer count in which the ring is never full |
| LockFreeRingResults.NothingMeansDrained | linux-2022/quiz8/problem2/lfring.c:181-217 | An empty-handed dequeue saw every published element taken; if its scan stopped at or past the head it knew, nothing unpublished was left either |
| LockFreeRingPublished.LagsWhileInFlight | linux-2022/quiz8/problem2/lfring.c:135-179 | The published tail lags the frontier if and only if a producer inside a call has advanced past it; with no enqueue in progress everything written is published |
| LockFreeRingPublished.NothingExactly | linux-2022/quiz8/problem2/lfring.c:211-217 | In the state in which a dequeue returns nothing head equals published tail, and the ring is then empty outright if and only if no producer inside a call is ahead of the published tail |
| LockFreeRingEmpty.SingleConsumerExactly | linux-2022/quiz8/problem2/lfring.c:200-243 | With a single consumer, in both producer modes, a dequeue that returns nothing met an empty ring at some instant of its call if and only if the ring was empty as the call began, and that if and only if no producer was then ahead of the published tail |
| LockFreeRingEmpty.NothingExactlyWhen | linux-2022/quiz8/problem2/lfring.c:200-243 | In every mode, a dequeue that returns nothing met an empty ring at some instant of its call if and only if the ring was empty as the call began or a dequeue of another thread took the last element during it |
| LockFreeRingEmpty.MayMeetNoEmpty | linux-2022/quiz8/problem2/lfring.c:183-184 | The reading is false of reachable calls: one with a single producer and a single consumer returns nothing and meets no empty ring |
| LockFreeRingEmpty.OnlyCommitsMoveHead | linux-2022/quiz8/problem2/lfring.c:225-234 | Whatever step moves the head is the last step of a dequeue that returns elements |
| LockFreeRingPublished.SingleConsumerSawEmpty | linux-2022/quiz8/problem2/lfring.c:181-217 | With a single consumer and several producers an empty-handed dequeue did scan an empty ring |
| LockFreeRingLag.UnpublishedUnseen | linux-2022/quiz8/problem2/lfring.c:183-184 | A run with one producer and one consumer in which a dequeue returns nothing from a ring that holds an element in every state of the call |
| LockFreeRingLag.NothingWithoutEmpty | linux-2022/quiz8/problem2/lfring.c:209-243 | A run in which a dequeue returns nothing from a ring that is not empty in any state of the call |
| LockFreeRingCalls.EnqueueStores | linux-2022/quiz8/problem2/lfring.c:107-179 | In both producer modes the count that an enqueue of `elems` returns is the number of indices it wrote, and those indices, in increasing order, hold the first so many of `elems` |
| LockFreeRingCalls.EnqueueCount | linux-2022/quiz8/problem2/lfring.c:116-179 | A multi-producer count short of what was asked means a full ring in a state of the call; a single producer's count is the smaller of the request and the room in some state of the call |
| LockFreeRingCalls.EnqueuePublishes | linux-2022/quiz8/problem2/lfring.c:132-178 | Everything an enqueue stored is below the published tail when it returns |
| LockFreeRingCalls.DequeueCount | linux-2022/quiz8/problem2/lfring.c:200-243 | A dequeue of n returns between one and n elements, from where it moved the head to, and fewer than n only if they reach the published tail of some state of the call; or it returns nothing |
| LockFreeRingProgress.NoneWaits | linux-2022/quiz8/problem2/lfring.c:75-243 | From every reachable state, in all four modes, a thread in the middle of any enqueue or dequeue returns if it runs alone, wherever the other producers and consumers have stopped |
| RingWords.DiffExact | linux-2022/quiz8/problem2/lfring.c:75-79 | Serial-number comparison (section 3.2 of RFC 1982) and wrapped differences are exact for indices less than 2^63 apart |
| RingWords.SameWord | linux-2022/quiz8/problem2/lfring.c:150-151 | Equality of wrapped indices is exact for indices less than 2^64 apart |
| RingWords.MaskExact | linux-2022/quiz8/problem2/lfring.c:142-147 | Masking by a size that divides 2^64 picks the same slot on wrapped and unbounded indices |
| LockFreeRingWrap.StepWrap | linux-2022/quiz8/problem2/lfring.c:75-243 | One step of the 64-bit ring on the wrapped state is the wrapped image of the unbounded step |
| LockFreeRingWrap.SameSteps | linux-2022/quiz8/problem2/lfring.c:53-243 | From `idx = i - ringsz` on, the 64-bit ring and the unbounded ring take the same steps along every schedule in which every index held by a thread is less than 2^63 behind `head + size` |
| RingSizes.RoundsUp | linux-2022/quiz8/problem2/common.h:16-22 | `ROUNDUP_POW2` is the least power of two at or above its argument |
| RingSizes.AllocExact | linux-2022/quiz8/problem2/lfring.c:35-46 | Exactly 1 to 2^31 elements with supported flags are accepted; the ring has room for all, in less than twice as many slots, and its size divides 2^64 |
| RingSizes.AcceptedCounts | linux-2022/quiz9/problem2/queues.h:152-162 | `make_queue` accepts exactly the numbers Pow2(k) with 1 <= k <= 28, and they divide 2^64 |
| SequencedQueueSafety.StepInv | linux-2022/quiz9/problem2/queues.h:198-255 | Every step keeps the invariant that ties each cell's sequence number to its position's stage: free, claimed, published, being read, released |
| SequencedQueueSafety.ExecInv | linux-2022/quiz9/problem2/queues.h:144-277 | The invariant holds after every schedule, in all four producer/consumer modes |
| SequencedQueueResults.OwnersApart | linux-2022/quiz9/problem2/queues.h:209-243 | Two threads that write or read cell data never do so in the same cell |
| SequencedQueueResults.DequeuesWhatWasEnqueued | linux-2022/quiz9/problem2/queues.h:227-255 | The value dequeued at position p is the one enqueued at p, and no two calls report the same position |
| SequencedQueueResults.QueueRefines | linux-2022/quiz9/problem2/queues.h:198-255 | A producer's claim appends to the abstract queue, a consumer's claim removes its oldest value, every other step leaves it alone, and it never exceeds the cell count |
| SequencedQueueResults.FullExactly | linux-2022/quiz9/problem2/queues.h:198-225 | Full is returned if and only if, at the sequence load, the position is the next to claim and the one a lap before is unreleased |
| SequencedQueueResults.EmptyExactly | linux-2022/quiz9/problem2/queues.h:227-255 | Empty is returned if and only if, at the sequence load, the position is the next to take and is unpublished |
| SequencedQueueResults.NothingLost | linux-2022/quiz9/problem2/queues.h:198-277 | When all calls have returned, every claimed position was reported by an enqueue and every taken one was delivered with its own value |
| SequencedQueueCalls.EnqueueAnswers | linux-2022/quiz9/problem2/queues.h:198-225 | A call that was given a value answers with position p only if that value is claimed at p during the call, through any number of retries; it answers Contention only if it may not retry and another producer claimed its position during the call or the compare-exchange failed for no reason |
| SequencedQueueCalls.DequeueAnswers | linux-2022/quiz9/problem2/queues.h:227-255 | A dequeue answers with a position only if it took it during the call, with the value claimed there; Contention only as for enqueue |
| SequencedQueueCalls.ValueDelivered | linux-2022/quiz9/problem2/queues.h:198-277 | The value that a caller enqueued at position p is the value that the dequeue of p returns, whatever happens in between |
| SequencedQueueCalls.EnqueueAlone | linux-2022/quiz9/problem2/queues.h:198-225 | From any reachable state an enqueue that runs alone stores its value at the next position if the cell is released, and otherwise answers Full and changes nothing; the whole final state is given |
| SequencedQueueCalls.DequeueAlone | linux-2022/quiz9/problem2/queues.h:227-255 | A dequeue that runs alone takes the next position if it is published, and otherwise answers Empty and changes nothing |
| SequencedQueueProgress.NoneWaits | linux-2022/quiz9/problem2/queues.h:198-277 | From every reachable state, in all four modes, a thread in the middle of any call returns if it runs alone, wherever the other threads have stopped |
| SequencedQueueWrap.StepWrap | linux-2022/quiz9/problem2/queues.h:198-255 | One step of the 64-bit queue on the wrapped state is the wrapped image of the unbounded step |
| SequencedQueueWrap.SameSteps | linux-2022/quiz9/problem2/queues.h:144-277 | The 64-bit queue and the unbounded queue take the same steps along every schedule in which every position held by a thread is less than 2^63 behind `enqueue_index + cell_count` |
| STreeShape.RotatedLeftShape | linux-2023-summer/quiz1/problem1.c:75-91 | A rotation at a node with a left child keeps the in-order sequence and parent/child agreement; at the root the child becomes the only parentless node |
| STreeShape.RotatedRightShape | linux-2023-summer/quiz1/problem1.c:93-109 | The same for the rotation at a node with a right child |
| STreeShape.RotationsUndo | linux-2023-summer/quiz1/problem1.c:75-109 | Rotating back at the child that came up restores every field |
| STreeShape.InOrderIsAll | linux-2023-summer/quiz1/problem1.c:59-73 | Reading a well-formed tree left, node, right yields the sequence that all the results are about |
| STreeShape.LeansOnAChild | linux-2023-summer/quiz1/problem1.c:111-158 | Because reachable hints are not negative, a lean beyond one means that the child to rotate on exists |
| STreeShape.AdjustedShape | linux-2023-summer/quiz1/problem1.c:142-160 | One round of `st_update` keeps shape, hints, nodes and values |
| STreeShape.AdjustedEffect | linux-2023-summer/quiz1/problem1.c:146-160 | What a round does: a node leaning beyond one goes down under the child it leans on, and its hint becomes one more than the greatest of its children's |
| STreeShape.Updated | linux-2023-summer/quiz1/problem1.c:137-163 | The whole climb, which ends because the pre-rotation parent is strictly less deep, keeps the in-order sequence, the hints and the values |
| STreeEdit.InsertedShape | linux-2023-summer/quiz1/problem1.c:170-182 | Hanging a new node into a free slot puts it next to its parent in the in-order sequence and changes nothing else |
| STreeHints.ExactMeansHeights | linux-2023-summer/quiz1/problem1.c:124-135 | Every hint agrees with its children's hints if and only if every hint is the height of its subtree |
| STreeHints.ClimbRepairs | linux-2023-summer/quiz1/problem1.c:137-163 | A climb that meets no node leaning beyond one repairs the one hint that may be wrong and all that become wrong on the way: its stopping rule never stops early |
| STreeHints.InsertKeepsHeights | linux-2023-summer/quiz1/problem1.c:170-182 | If every hint is a height and the climb after an insertion does not rotate, every hint is a height again |
| STreeRemove.RightHeirFits | linux-2023-summer/quiz1/problem1.c:262-267 | The first node of the right subtree is one `st_replace_right` can take: no left child, and either the child itself or a left child below it |
| STreeRemove.LeftHeirFits | linux-2023-summer/quiz1/problem1.c:272-277 | The mirror image for the last node of the left subtree |
| STreeRemove.TakenRightShape | linux-2023-summer/quiz1/problem1.c:184-212 | Replacing a node by its right neighbour deletes exactly that node from the sequence |
| STreeRemove.TakenLeftShape | linux-2023-summer/quiz1/problem1.c:214-242 | Replacing a node by its left neighbour deletes exactly that node from the sequence |
| STreeRemove.DroppedShape | linux-2023-summer/quiz1/problem1.c:287-295 | Cutting off a childless node deletes exactly it |
| STreeRemove.CutShape | linux-2023-summer/quiz1/problem1.c:260-296 | In every branch `st_remove` deletes exactly `del` from the in-order sequence and keeps every other value |
| STree.RotateLeft | linux-2023-summer/quiz1/problem1.c:75-91 | The field writes produce the rotated snapshot |
| STree.RotateRight | linux-2023-summer/quiz1/problem1.c:93-109 | The field writes produce the rotated snapshot |
| STree.First | linux-2023-summer/quiz1/problem1.c:59-65 | Returns the node that comes first among the subtree in the sequence |
| STree.Last | linux-2023-summer/quiz1/problem1.c:67-73 | Returns the node that comes last among the subtree in the sequence |
| STree.Update | linux-2023-summer/quiz1/problem1.c:137-163 | The recursive climb does what `Updated` says to every field and to the root |
| STree.ReplaceRight | linux-2023-summer/quiz1/problem1.c:184-212 | The field writes produce the snapshot of the replacement |
| STree.ReplaceLeft | linux-2023-summer/quiz1/problem1.c:214-242 | The field writes produce the snapshot of the replacement |
| STree.Insert | linux-2023-summer/quiz1/problem1.c:170-182 | The insertion and the climb after it, on every field |
| STree.Remove | linux-2023-summer/quiz1/problem1.c:260-296 | The removal and the climb after it, on every field |
| TreeInt.GrownShape | linux-2023-summer/quiz1/problem1.c:367-374 | `st_insert`, with the value stored after it, keeps a search tree and adds exactly the new value |
| TreeInt.ShrunkShape | linux-2023-summer/quiz1/problem1.c:394-403 | `st_remove` keeps a search tree and takes out exactly the node's value |
| TreeInt.HintBound | linux-2023-summer/quiz1/problem1.c:124-163 | A hint is below the number of insertions so far, so a 16-bit `short` holds it for the first 2^15 |
| TreeInt.TreeInt.Insert | linux-2023-summer/quiz1/problem1.c:347-375 | The set gains `a`; an existing value changes nothing, a new one gets a fresh node |
| TreeInt.TreeInt.Find | linux-2023-summer/quiz1/problem1.c:377-392 | Returns a node with value `a` if and only if `a` is in the set |
| TreeInt.TreeInt.Remove | linux-2023-summer/quiz1/problem1.c:394-403 | The set loses `a`; -1 if and only if it was not there |
| Partitioning.Med3IsMedian | linux-2023-summer/quiz1/problem3.c:67-72 | `med3` picks a median of three for every total preorder |
| Partitioning.PivotIsMedian | linux-2023-summer/quiz1/problem3.c:249-260 | The pivot is the median of first, middle and last, or beyond 40 elements of the medians of three triples |
| Partitioning.LeftBlock | linux-2023-summer/quiz1/problem3.c:290-292 | The left block swap moves the elements equal to the pivot from the left end behind the lesser ones |
| Partitioning.RightBlock | linux-2023-summer/quiz1/problem3.c:293-294 | The right block swap completes the zones: less, equal, greater |
| Sorting.ZonesSorted | linux-2023-summer/quiz1/problem3.c:308-328 | Sorting the outer zones sorts the whole |
| Sorting.SwappedZones | linux-2023-summer/quiz1/problem3.c:299-304 | A swap of neighbours that are out of order never carries an element across a zone boundary |
| QuickSort.InsertionSort | linux-2023-summer/quiz1/problem3.c:242-248 | Sorts the range, keeping its elements and everything outside |
| QuickSort.Scan | linux-2023-summer/quiz1/problem3.c:262-288 | The two-sided scan leaves equal, less, greater, equal; no swap counted means no equal element moved |
| QuickSort.VecSwap | linux-2023-summer/quiz1/problem3.c:59-63 | Exchanges two blocks of the same length and nothing else |
| QuickSort.Partition | linux-2023-summer/quiz1/problem3.c:249-294 | Leaves the three zones around the chosen pivot, and both parts together are shorter than the range |
| QuickSort.TryInsertion | linux-2023-summer/quiz1/problem3.c:296-306 | The speculative insertion sort, abandoned or not, keeps the zones; if it finishes the range is sorted |
| QuickSort.Conquer | linux-2023-summer/quiz1/problem3.c:308-328 | Sorting the left part before or after the right part sorts the whole either way |
| QuickSort.OrderIrrelevant | linux-2023-summer/quiz1/problem3.c:312-328 | Sub-sorts of the two ranges are given the same elements in the same order whichever goes first, and if each leaves its range the same the two final arrays are equal |
| QuickSort.QsortAlgo | linux-2023-summer/quiz1/problem3.c:221-329 | For every total preorder it ends, and leaves the range sorted with the same elements and everything else alone |
| QuickSort.SortedPermutation | linux-2023-summer/quiz1/problem3.c:221-329 | The same in the usual words: equal multisets, untouched outside, ordered pairwise |
| IntegerSqrt.TabIsSqrt | linux-2022/quiz5/problem1/problem1.c:55-70 | All 192 entries are the square root that the comment states |
| IntegerSqrt.NewtonStep | linux-2022/quiz5/problem1/problem1.c:81-82 | A step from a start off by at most d, with d * d <= 2b, is off by less than one |
| IntegerSqrt.Step1Close | linux-2022/quiz5/problem1/problem1.c:80-81 | After the first step y is within one of the root of x / 2^32 |
| IntegerSqrt.Step2Close | linux-2022/quiz5/problem1/problem1.c:82 | After the second step y is within one of the root of x |
| IntegerSqrt.Step2Fits | linux-2022/quiz5/problem1/problem1.c:82 | y fits 32 bits after the second step, even where the root is 2^32 - 1 |
| IntegerSqrt.NoneTruncated | linux-2022/quiz5/problem1/problem1.c:80-82 | No 32-bit or 64-bit truncation in either step loses anything |
| IntegerSqrt.ShiftBack | linux-2022/quiz5/problem1/problem1.c:78-84 | Halving the normalising shift undoes it, rounding down |
| IntegerSqrt.ISqrt | linux-2022/quiz5/problem1/problem1.c:73-85 | For every 64-bit x the result is the integer square root, with all truncations of the C types |
| IntegerSqrt.RootIsUnique | linux-2022/quiz5/problem1/problem1.c:72-85 | The integer square root is unique, so the contract of `ISqrt` determines what it returns |
| Memchr.MemchrOrigin | linux-2022/quiz8/problem1/memchr.h:21-30 | Finds the first occurrence, or none (section 7.24.5.1 of C11) |
| Memchr.DetectsFirst | linux-2022/quiz8/problem1/opt.h:28 | Borrows mark bytes above the first zero byte only: the lowest mark is exact, and there is one if and only if there is a zero byte |
| Memchr.CtzByte | linux-2022/quiz8/problem1/opt.h:76 | Trailing zeros divided by eight give the lowest nonzero byte |
| Memchr.WordFirst | linux-2022/quiz8/problem1/opt.h:65-78 | On a little-endian word `DETECT_CHAR` and the shift give the first matching byte, or zero if none matches |
| Memchr.WordStep | linux-2022/quiz8/problem1/opt.h:70-84 | One word either carries the search on by eight bytes or ends it at the first match |
| Memchr.MemchrOpt | linux-2022/quiz8/problem1/opt.h:37-99 | Meets the same specification as `memchr_origin` for every buffer, start alignment, byte and length |
| Memchr.FirstIsUnique | linux-2022/quiz8/problem1/memchr.h:12-30 | The specification determines the result, so the two functions agree |
| IntrusiveList.AddRing | linux-2022/include/list.h:93-101 | `list_add` puts a link right behind the head of a ring and touches that ring only |
| IntrusiveList.DelRing | linux-2022/include/list.h:134-146 | `list_del` takes a link out of its ring and touches that ring only |
| IntrusiveList.AddDel | linux-2022/include/list.h:93-146 | Deleting a link just added restores the ring field by field |
| IntrusiveList.Add | linux-2022/include/list.h:93-101 | The four field writes produce that snapshot, in this order |
| IntrusiveList.Del | linux-2022/include/list.h:134-146 | The two field writes produce that snapshot |
| LruShape.MoveLinks | linux-2022/include/list.h:317-321 | `list_move` brings a link of a ring to its front |
| LruCache.Move | linux-2022/include/list.h:317-321 | The method does so on the fields |
| LruShape.TouchedShape | linux-2022/quiz1/problem3.c:124-128 | A hit moves the entry to the front, with its new value, and keeps every bucket |
| LruUpdates.EvictedShape | linux-2022/quiz1/problem3.c:131-135 | Eviction takes exactly the last entry out of the recency list and out of its bucket, and frees its node for reuse |
| LruUpdates.InsertedShape | linux-2022/quiz1/problem3.c:141-146 | Insertion puts the entry in front of the recency list and into bucket key % capacity |
| LruCache.Lookup | linux-2022/quiz1/problem3.c:81-91 | Walking one bucket finds the node of the key, or proves that the key is not cached |
| LruCache.LruCache.constructor | linux-2022/quiz1/problem3.c:34-43 | An empty cache with one bucket per unit of capacity |
| LruCache.LruCache.Get | linux-2022/quiz1/problem3.c:79-94 | Answers and reorders as the most-recent-first list does |
| LruCache.LruCache.Put | linux-2022/quiz1/problem3.c:116-147 | Updates, inserts or evicts as the most-recent-first list of at most `capacity` entries does |
| LruSpec.LeastRecentlyUsed | linux-2022/quiz1/problem3.c:79-147 | After any operations the list holds distinct keys ordered by their last use, each with the value last put, at most `capacity` of them |
| LruRetention.CachedExactly | linux-2022/quiz1/problem3.c:79-147 | After any operations a key is cached if and only if it was put and fewer than `capacity` other keys were used since it was |
| LruSpec.PutEvictsLast | linux-2022/quiz1/problem3.c:131-146 | A put drops an entry if and only if the key is new and the cache full, and then exactly the last one |
| LruSpec.GetFinds | linux-2022/quiz1/problem3.c:85-93 | A get answers the value of a cached key and -1 otherwise, and drops nothing |
| MessageQueue.HeaderRoundTrip | linux-2022/quiz12/problem2/queue.h:40-43 | Length and number read back from the 16 header bytes are those written |
| MessageQueue.PutWorks | linux-2022/quiz12/problem2/queue.h:155-163 | Appending a header with `tail_seq` and a body appends one message to the encoded queue |
| MessageQueue.ConsumeWorks | linux-2022/quiz12/problem2/queue.h:205-213 | Consuming the front message, and moving both indices back a lap when the head crosses `size`, leaves the encoding of the remaining messages |
| MessageQueue.MessageQueue.TryPut | linux-2022/quiz12/problem2/queue.h:147-167 | Appends the exact body if and only if it fits with its header; otherwise nothing changes and the caller waits; what callers see takes the step of `Fifo` |
| MessageQueue.MessageQueue.TryGet | linux-2022/quiz12/problem2/queue.h:176-219 | Returns exactly the oldest body if it is short enough, read from the buffer; otherwise nothing changes and the caller waits; what callers see takes the step of `Fifo` |
| MessageQueue.Fifo | linux-2022/quiz12/problem2/queue.h:147-219 | Over any sequence of the steps that `TryPut` and `TryGet` take, bodies come out whole, in order and none lost, within the buffer; `head_seq` advances by the number delivered |
| MessageQueue.DifferenceCounts | linux-2022/quiz12/problem2/queue.h:19-22 | `tail_seq` - `head_seq` on 64 bits is the number of queued messages |
| MessageQueue.WaiterSeesProgress | linux-2022/quiz12/problem2/queue.h:191-196 | A getter waiting on a long message sees `head_seq` unchanged if and only if no message was consumed meanwhile, for fewer than 2^64 of them |
| LongestRun.Find | linux-2022/quiz1/problem4.c:26-39 | Finds a number in its bucket if and only if it is in the hash set |
| LongestRun.BuildTable | linux-2022/quiz1/problem4.c:57-72 | The table holds each distinct input once, in the bucket of its hash |
| LongestRun.StaysWhole | linux-2022/quiz1/problem4.c:86-101 | Taking out the run between two absent ends leaves a union of whole maximal runs of the original set |
| LongestRun.RunTaken | linux-2022/quiz1/problem4.c:89-103 | After each outer iteration `length` is the longest run taken so far and what is left are whole runs |
| LongestRun.TakeRun | linux-2022/quiz1/problem4.c:76-104 | One outer iteration on the table |
| LongestRun.LongestConsecutive | linux-2022/quiz1/problem4.c:53-108 | Returns the length of the longest run of consecutive integers in the input |

## Left out

- Weak memory orders, fences and the assembly of the 16-byte compare-and-swap: every access is sequentially consistent and the slot compare-and-swap of the ring is one step. A weak compare-and-swap that fails for no reason only repeats a test.
- Reuse of addresses: in the domain every installed pointer value is new and not NULL (a slot holding NULL is a free one, so a scan for a retired NULL would take any free slot for a reader), and in the non-blocking list a node is pushed at most once, so `next`, `top` and backlink comparisons are comparisons of identities.
- Failure of allocation, and the functions that only release memory: `domain_free`, `list_free`, `lfring_free`, `queue_destroy`, `treeint_destroy`, `lRUCacheFree`; likewise printing, timing and the command lines.
- NonBlockingListResults.AssertsHold: leaves out the assert at linux-2022/quiz11/problem2/nblist.c:59: after a failed compare-and-swap the parent may already be the last node; the model treats that case as "the target is no longer linked".
- Progress of several threads at once: the theorems about returning are about a thread that runs alone from where it is; how often a loop repeats while other threads keep running, and fairness, are not modelled.
- NonBlockingListWaits.ReturnsUnlessStuck: is an if-and-only-if for a thread inside `try_flag`, and for calls from their beginning in CallsReturnExactly; for a walk of `nblist_del` that has stopped between two loads it is one direction.
- LockFreeRingResults.NothingMeansDrained: is one direction; the exact conditions are in LockFreeRingEmpty and LockFreeRingPublished.
- LockFreeRingResults.ShortEnqueueSawFull: is for several producers only; a single producer's exact condition is LockFreeRingPublished.ShortExactly.
- LockFreeRingWrap.SameSteps: beyond the stated window serial-number comparison is not meaningful, and nothing is said.
- SequencedQueueWrap.SameSteps: the same.
- The 32-bit `index` out-parameter of `lfring_dequeue`; the model reports the whole index.
- The checks of `make_queue` on null pointers, byte counts and alignment.
- TreeInt.HintBound: the hint is modelled as an unbounded integer; beyond 2^15 insertions the `short` of the source could wrap around, and no height bound is claimed because hints are approximate by design.
- STreeHints.InsertKeepsHeights: is about climbs without rotations; the node that a rotation brings up keeps its old hint, so hints need not be heights after one.
- The thread pool of linux-2023-summer/quiz1/problem3.c:74-218 and its threads: a launched sub-sort is a call on its own range, before or after the right part. Element sizes, swap types and byte counts kept in an `int` (which truncates beyond 2 GB) are left out; elements are values.
- Memchr.MemchrOpt: a 64-bit `long` only; the buffer's address matters for alignment only.
- LruCache.LruCache.Put: capacity is positive and keys are not negative, because the source indexes an array with `key % capacity`; `container_of` is a field from link to node.
- MessageQueue.MessageQueue.TryPut: one critical section between waits, so mutex, condition variables and wake-ups are left out; the two mappings are one buffer read and written modulo its size; sizes whose sum with the header exceeds 2^64 are excluded.
- MessageQueue.MessageQueue.TryGet: the same; a caller that gets `Empty` or `TooLong` waits and tries again.
- LongestRun.LongestConsecutive: the numbers lie strictly between INT_MIN + 1 and INT_MAX, since `-num`, `--left` and `++right` overflow otherwise; a bucket is a sequence here, and the link surgery of `list_add` and `list_del` is proved in IntrusiveList.
- `isprime`, `getnextpalin` and the sieve in linux-2022/quiz5/problem1/problem1.c, the hash map of linux-2022/quiz6, files with unfilled blanks, kernel modules, mmap and ELF tools, and the small arithmetic exercises: they would only add easy members or have no finished behaviour to state.
