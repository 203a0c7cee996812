# Verified model of the storage engine's runtime core

A Dafny model of the concurrency core under `src/runtime`: the lock-free queues, the sleep/wake protocols, the
coroutine signalling, the tiered memory pool, the scheduling policies, the busy-poll loop and the histograms.

**Concurrent code** is a transition system. A state holds the shared words and, for every thread, a program counter with
its local variables. One step is one atomic load, store, compare-exchange or exchange, or one section under a mutex.
`Exec` applies an arbitrary list of steps, so a statement about `Exec` or `Reachable` covers every interleaving of any
number of threads. A call is undisturbed if its steps follow each other. Fields called history record what happened. They
never decide what a step of the program does; two of them constrain the clients only: `owner` says which nodes a client
may push or overwrite, and `slots` supplies the size and alignment with which a client frees.

**Sequential code** that updates fields or arrays is a class whose methods have the source's loops. Each method is proved
against a function of the old state or an invariant of the object, and the properties are proved about those.

| file | source | subject |
|---|---|---|
| `MpmcRing.dfy`, `MpmcRingAlone.dfy` | `mpmc_ring.h` | ticket ring, unbounded tickets and 64-bit words; undisturbed calls |
| `ReturnRing.dfy`, `ReturnRingCalls.dfy` | `memory_pool.cc` | sequence-number ring of the pool; what its calls return |
| `ChaseLev.dfy`, `ChaseLevCalls.dfy`, `ChaseLevGrowth.dfy` | `chase_lev_deque.h` | work-stealing deque with growth, its calls, and reads of replaced arrays |
| `AdaptiveIdle.dfy`, `ParkReturns.dfy`, `StopHandshake.dfy` | `adaptive_idle.cc`, `scheduler.cc` | parking and notifying, stopping |
| `WorkStealing.dfy`, `WorkLedger.dfy` | `work_stealing_executor.cc` | workers that sleep, and what becomes of their work |
| `Baton.dfy`, `BatonCalls.dfy`, `WhenAll.dfy`, `WhenAllEnds.dfy` | `affinity_baton.h`, `worker.cc`, `coro_api.h` | baton word and its calls, N-way join and its end |
| `Timers.dfy` | `timer.h`, `timer.cc` | timer heap and timer thread |
| `CentralFreeList.dfy`, `SharedFreeList.dfy`, `SharedFreeListCalls.dfy` | `memory_pool.cc` | list surgery in place, and the same list under concurrency |
| `ClassStack.dfy`, `ClassStackCalls.dfy` | `memory_pool.cc` | the per-class stack under concurrency |
| `SizeClass.dfy`, `Rounding.dfy`, `MemoryPool.dfy` | `memory_pool.cc` | what allocate and deallocate compute |
| `PoolPartition.dfy`, `PoolReuse.dfy`, `PoolObject.dfy`, `PoolAlignment.dfy`, `PoolMisalignment.dfy` | `memory_pool.cc` | who owns which memory, what comes back, the pool as an object, alignment |
| `Policies.dfy`, `StrictStarvation.dfy`, `WeightedFair.dfy`, `BusyPoll.dfy` | the three policies, `scheduler.cc` | which queue is served and how long one can wait |
| `Histograms.dfy` | `perf_histogram.h`, `metric_histogram.h` | percentiles against sorted samples |
| `Words.dfy`, `Common.dfy` | | 64-bit words, masks and powers of two; shared definitions |

## Where the code does not do what one would expect

- Mixing the store-only `dequeue_bulk` with `dequeue_bulk_mc` delivers an item twice, for every capacity and every number
  of threads above one. Delivery in order, each item once, holds in all runs exactly when all consumers use
  the compare-exchange path, or one thread consumes, or there is at most one thread (`InOrderIffDisciplined`).
- The ring's constructor returns exactly for capacities up to 2^63 (`RoundUpEndsIff`).
- The pool's ring template admits a capacity of one, which loses pointers. It stays within its capacity in all runs
  exactly from two cells on (`WithinCapacityIff`).
- The deque deletes the array it outgrows while a thief may still read it. No run, however long, in which every push finds
  fewer than m items ends that way exactly when m is at most the initial capacity (`NeverStaleIff`). Whenever the array is
  full, one steal and one push suffice (`FullIsDangerous`).
- `SizeClassFreeList::pop` reads the link of a node it does not own. The stack is sound in all runs exactly when at most
  one thread pops (`SoundIff`).
- `allocate` and `deallocate` each declare their own thread-local cache. The one `allocate` reads is always empty. An
  idle small object can be handed out again exactly when it is not in the other, which keeps up to 65 objects per class
  for good (`ReusableIff`, `GiveCacheIsForGood`). Whether a small object comes back is decided when it is freed: exactly if
  65 are cached already and the ring has room (`FreedComesBackIff`).
- One notification can end three parks: the one that was asleep, the next because of the flag, and the one after that
  because of the event. More than three it cannot (`AtMostThreeEach`, `ThreeFromOne`). An event found while spinning or
  yielding does not reset the idle level: the loop stores the active level, and `enter_idle` overwrites it (`PollEnds`).
- An address is guaranteed to have the requested alignment exactly up to 16 bytes (`AlignedIff`), also on the small path
  (`SmallAlignedIff`); there, addresses cut from a block have it exactly up to 64 (`FreshAlignedIff`).
- The comment at `memory_pool.cc:15` promises objects aligned to their class size. That holds in all reachable states
  exactly for the classes of 8 and 16 bytes (`ClassAlignedIff`).
- The rounded allocation size is smaller than the request exactly when the rounding overflows 64 bits
  (`SizeCoversRequest`).
- Strict priority can starve a queue of a level that is served again and again (`StrictStarves`). A queue with work at every
  decision is sure to be served within n decisions at its level exactly when no queue is more urgent or it is the first of
  its level in the order 1, ..., n-1, 0 (`PromptIff`). Within consecutive decisions at its level every queue is
  (`StrictBoundedWait`).
- A timer thread that went to sleep on an empty heap waits without a limit, and a timer with the last deadline there is does
  not wake it. Timers of a deadline are attended to in all runs exactly when it is before the last (`WatchedIff`).
- Both histograms round the rank down. If count * p is below one, they report 1 and 0 whatever the samples are; the reported
  value belongs to some sample exactly when count * p is at least one or the samples reach that low
  (`WithinFactorTwoIff`, `InSomeBucketIff`).
- `MetricLatency::percentile` returns the excluded upper end of the sample's bucket exactly when the rank is the last one
  of that bucket (`LatencyPercentileBucket`, `LatencyAboveItsBucket`).
- The comment at `strict_priority_policy.cc:30` promises that a change of level starts from the first queue; the code starts
  from the second. The model follows the code.

## Model

| member | source | states |
|---|---|---|
| MpmcRing.RoundUp | src/runtime/mpmc_ring.h:19-24 | the capacity is the least power of two not below the request |
| MpmcRing.RoundUpEndsIff | src/runtime/mpmc_ring.h:20-21 | the 64-bit shift loop reaches a value that ends it if and only if the request is at most 2^63 |
| MpmcRing.StepKept | src/runtime/mpmc_ring.h:36-112 | every atomic step of every call, stale local reads included, keeps the global invariant of counters, slots, reservations and claims |
| MpmcRing.FifoExactlyOnce | src/runtime/mpmc_ring.h:36-112 | in every run cons.tail <= cons.head <= prod.tail <= prod.head <= cons.tail + capacity, and what the dequeue calls returned, in order of return, is the beginning of what the enqueue calls took from their arguments, in order of return |
| MpmcRing.DequeueReturns | src/runtime/mpmc_ring.h:67-112 | every dequeue returns as many items as it says, exactly those of the next tickets in order |
| MpmcRing.BatchIsPrefix | src/runtime/mpmc_ring.h:36-63 | in every run what an enqueue works on is a prefix of the argument of its call |
| MpmcRing.ClaimsAreExclusive | src/runtime/mpmc_ring.h:88-112 | consumers inside a call hold disjoint ticket ranges not yet delivered, and their buffers hold what was accepted under those tickets |
| MpmcRing.NoOverwrite | src/runtime/mpmc_ring.h:51-53 | a producer's slot write never hits the slot of another reserved ticket that has not been released |
| MpmcRing.EnqueueRefusalHonest | src/runtime/mpmc_ring.h:41-49 | a non-empty enqueue returns 0 exactly when, at the instant of its second load, all slots are reserved or unreleased and the head it read first is still current |
| MpmcRing.DequeueRefusalHonest | src/runtime/mpmc_ring.h:92-99 | a dequeue returns 0 exactly when, at the instant of its second load, nothing published is unclaimed and the head it read first is still current |
| MpmcRing.TailWaitsResolve | src/runtime/mpmc_ring.h:55-58 | the tail-waiting loops cannot deadlock: the holder of the oldest unpublished or unreleased ticket can always move |
| MpmcRing.ActsAsQueue | src/runtime/mpmc_ring.h:36-112 | seen as the queue of published, unclaimed items, every step of every run either changes nothing, or appends the whole batch of an enqueue that returns with it, or removes from the front the n items whose tickets a dequeue now holds |
| MpmcRing.StoreOnlyBesideCasDeliversTwice | src/runtime/mpmc_ring.h:67-80 | from an empty ring of any capacity with at least two threads, a run with one store-only and one compare-exchange consumer returns the one accepted item to both |
| MpmcRing.InOrderIffDisciplined | src/runtime/mpmc_ring.h:67-112 | what the dequeue calls returned is a prefix of what was accepted in all runs if and only if all consumers use the compare-exchange path, or one thread consumes, or there are fewer than two threads |
| MpmcRing.WordsRefineTickets | src/runtime/mpmc_ring.h:43-53 | the 64-bit arithmetic and masking computes, on every run, the unbounded-ticket run reduced modulo 2^64, as long as no thread is overtaken by 2^64 tickets less the capacity between a load and its compare-exchange |
| MpmcRingAlone.GrantIsMin | src/runtime/mpmc_ring.h:43-46 | with a current head an enqueue is granted the smaller of its request and the number of free slots, for the first items of its argument |
| MpmcRingAlone.ReservesIffCurrent | src/runtime/mpmc_ring.h:46-49 | in every run the compare-exchange of an enqueue reserves its batch if and only if it does not fail spuriously and its head is current |
| MpmcRingAlone.EnqueueAlone | src/runtime/mpmc_ring.h:36-63 | from every reachable state without a half-done enqueue, an undisturbed one takes the first min(request, free) items, puts them at the end of the queue and returns their number |
| MpmcRingAlone.DequeueAlone | src/runtime/mpmc_ring.h:67-112 | from every reachable state without a half-done dequeue, an undisturbed one of either kind returns the first min(request, waiting) items and leaves the rest |
| ChaseLev.GrowArray | src/runtime/chase_lev_deque.h:37-43 | the copy loop on arrays yields the specified larger ring |
| ChaseLev.CopyRangeLoads | src/runtime/chase_lev_deque.h:37-43 | after growth every index in [top, bottom) loads the item it loaded before |
| ChaseLev.StepKept | src/runtime/chase_lev_deque.h:83-156 | every step of the owner and of every thief keeps the deque invariant, growth included |
| ChaseLev.ReturnedAtMostOnce | src/runtime/chase_lev_deque.h:83-156 | in every run each push occurs exactly once among popped, stolen and live items |
| ChaseLev.StealsInPushOrder | src/runtime/chase_lev_deque.h:138-156 | successful steals return items in the order of their pushes |
| ChaseLev.EmptyMeansAllReturned | src/runtime/chase_lev_deque.h:104-134 | an empty deque with the owner between calls has returned every push exactly once |
| ChaseLev.FailuresAreHonest | src/runtime/chase_lev_deque.h:112-145 | a failing pop left nothing behind; a thief that sees an empty deque misses at most the one item the owner is popping |
| ChaseLevCalls.ActsAsDeque | src/runtime/chase_lev_deque.h:83-156 | every step of every run leaves items and results alone, or appends the item of a push, or removes the last item for a pop, or the first for a steal |
| ChaseLevCalls.StealOutcome | src/runtime/chase_lev_deque.h:147-155 | a steal at its compare-exchange gets the oldest live item, or somebody else has taken that index since its load |
| ChaseLevCalls.PushAlone | src/runtime/chase_lev_deque.h:83-99 | from every reachable state an undisturbed push appends its item, growth included |
| ChaseLevCalls.PopAlone | src/runtime/chase_lev_deque.h:104-134 | from every reachable state an undisturbed pop removes and returns the newest item, or finds none |
| ChaseLevCalls.StealAlone | src/runtime/chase_lev_deque.h:138-156 | from every reachable state with the owner between calls an undisturbed steal removes and returns the oldest item, or finds none |
| ChaseLevGrowth.GrowsIff | src/runtime/chase_lev_deque.h:88-95 | a push replaces the array if and only if it finds as many items as the array has slots |
| ChaseLevGrowth.FullIsDangerous | src/runtime/chase_lev_deque.h:88-95 | from any state with a full array and with owner and thief between calls, some run leaves the thief about to read a deleted array |
| ChaseLevGrowth.StaleAfterGrowth | src/runtime/chase_lev_deque.h:88-95 | for every capacity, and from the initial state, such a run exists in which no push finds more items than that capacity |
| ChaseLevGrowth.NeverStaleIff | src/runtime/chase_lev_deque.h:88-95 | no run of any length in which every push finds fewer than m items leaves a thief about to read a deleted array, if and only if m is at most the initial capacity |
| AdaptiveIdle.StepKept | src/runtime/adaptive_idle.cc:16-105 | owner and notifier steps keep: a newer generation than the captured one is always accompanied by a notifier that has yet to call notify_one |
| AdaptiveIdle.NoLostWakeup | src/runtime/adaptive_idle.cc:68-105 | an owner in the condition wait either has no pending notification or is still owed a notify_one |
| AdaptiveIdle.NotifyEndsPark | src/runtime/adaptive_idle.cc:68-105 | while a notify is unanswered the current or next park returns |
| AdaptiveIdle.ParkReturnsNotified | src/runtime/adaptive_idle.cc:68-85 | in every run a park returns only while a notify is pending or unanswered or an event is unread |
| AdaptiveIdle.NoNotifyNoReturn | src/runtime/adaptive_idle.cc:68-85 | in every run without a notify no park ever returns |
| AdaptiveIdle.PollEnds | src/runtime/adaptive_idle.cc:16-66 | a polling loop ends out of rounds or on an event, which it consumes, and either way the level moves on |
| AdaptiveIdle.IdleEscalates | src/runtime/adaptive_idle.cc:16-36 | consecutive calls spin, yield and park; a park that returns starts this over |
| AdaptiveIdle.NotifyAlone | src/runtime/adaptive_idle.cc:87-105 | from any state an undisturbed notify is pending, counts once, leaves one event and wakes a sleeping owner |
| ParkReturns.AtMostThreeEach | src/runtime/adaptive_idle.cc:68-105 | in every run at most three parks return for each notification |
| ParkReturns.ThreeFromOne | src/runtime/adaptive_idle.cc:68-105 | a run in which one notification ends three parks |
| WorkStealing.StepKept | src/runtime/work_stealing_executor.cc:233-354 | every step of workers and submissions keeps: whatever a worker past its scan still has in its queues is covered by a notify to come or already visible |
| WorkStealing.SleeperMissesNothing | src/runtime/work_stealing_executor.cc:271-354 | a sleeping worker has an empty yield queue, and work in its ring or in the global ring aimed at it belongs to a submission that has not finished notifying |
| WorkStealing.NoStrandedWork | src/runtime/work_stealing_executor.cc:233-354 | if all workers sleep and no submission is in flight, all queues are empty |
| WorkLedger.NothingLostOrRepeated | src/runtime/work_stealing_executor.cc:233-354 | in every run each queue hands out its items in the order it accepted them, and each accepted item is executed, being executed, or waiting, exactly once |
| WorkLedger.AllWorkDone | src/runtime/work_stealing_executor.cc:233-354 | if all workers sleep and no submission is in flight, the executed items are exactly the accepted ones, each as often |
| WorkLedger.SubmittedOnce | src/runtime/work_stealing_executor.cc:233-258 | in every run a submission is accepted at most once, by the queue it is meant for |
| WorkLedger.SubActs | src/runtime/work_stealing_executor.cc:233-258 | a submission changes a queue only with its enqueue, and puts its item at the end exactly if its destination exists and admits it |
| WorkLedger.ScanFindsNext | src/runtime/work_stealing_executor.cc:271-322 | from any state an undisturbed worker takes and executes the first item of its yield queue, else of its ring, else of the global ring, else turns to its peers |
| WorkLedger.StealTakesFront | src/runtime/work_stealing_executor.cc:324-349 | a worker that looks at a peer with work takes the front of the peer's ring |
| StopHandshake.StepKept | src/runtime/scheduler.cc:73-176 | every step of start-up, loop, restart, stop and reset keeps the handshake invariant |
| StopHandshake.StopIsFinal | src/runtime/scheduler.cc:160-176 | after any request_stop has returned, no later step of any run without a reset_stop starts an iteration, restarts included, or finds the loop asleep in park |
| StopHandshake.NextTestExits | src/runtime/scheduler.cc:73-88 | then the next test of the loop or of start-up leaves, and a park in progress returns |
| StopHandshake.ExitMeansStopped | src/runtime/scheduler.cc:73-176 | in every run the runner leaves its loop only after some request_stop has begun |
| StopHandshake.BusyNeverIdles | src/runtime/scheduler.cc:166-236 | in every run of run_busy the runner never idles |
| StopHandshake.StartsUnlessStopped | src/runtime/scheduler.cc:73-88 | an undisturbed start comes to its first iteration, also after a reset_stop, unless a stop is requested, and then it leaves |
| StopHandshake.IteratesOn | src/runtime/scheduler.cc:166-236 | while it is to run, an undisturbed runner goes on for any number of iterations |
| ReturnRing.StepKept | src/runtime/memory_pool.cc:76-123 | every step keeps: each cell's sequence number identifies the one ticket that may use it |
| ReturnRing.CellIsExclusive | src/runtime/memory_pool.cc:90-121 | two threads writing or reading cell data at the same time use different cells |
| ReturnRing.EachTicketOnce | src/runtime/memory_pool.cc:76-123 | each accepted pointer is read exactly once, by the consumer of the same ticket, and until it is claimed it is in its cell or being written there |
| ReturnRing.FullIsHonest | src/runtime/memory_pool.cc:79-83 | full is reported exactly while the ticket one capacity earlier is unreleased, and then for the current tail |
| ReturnRing.EmptyIsHonest | src/runtime/memory_pool.cc:105-109 | empty is reported exactly when the ticket tried is the current head and it is untaken or its enqueuer is still writing |
| ReturnRingCalls.ActsAsQueue | src/runtime/memory_pool.cc:76-123 | every step of every run leaves the waiting pointers alone, or appends the argument of an enqueue, or takes the first for a dequeue |
| ReturnRingCalls.CallReturns | src/runtime/memory_pool.cc:76-123 | in every run a successful dequeue returns the pointer accepted under its ticket, a successful enqueue was accepted with its own |
| ReturnRingCalls.EnqueueAlone | src/runtime/memory_pool.cc:76-99 | on a quiet ring an undisturbed enqueue succeeds if and only if fewer pointers wait than there are cells, and is then the last |
| ReturnRingCalls.DequeueAlone | src/runtime/memory_pool.cc:101-123 | on a quiet ring an undisturbed dequeue returns the first waiting pointer, or reports empty if and only if none waits |
| ReturnRing.WordsRefineTickets | src/runtime/memory_pool.cc:76-123 | the 64-bit ring with its masked index and signed difference does on every run what the ring on unbounded tickets does, for every power-of-two capacity from two to 2^62, as long as no thread is overtaken by 2^63 tickets less the capacity between a load and its compare-exchange |
| ReturnRing.OneCellOverwrites | src/runtime/memory_pool.cc:53-99 | with capacity one, a second enqueue is accepted and overwrites an undelivered pointer |
| ReturnRing.WithinCapacityIff | src/runtime/memory_pool.cc:53-124 | no run accepts more unclaimed pointers than there are cells if and only if there are at least two cells or no threads |
| Baton.StepKept | src/runtime/affinity_baton.h:59-157 | every step of awaiters that may await again with the same node, of posters, resetters and the destructor keeps the baton invariant |
| Baton.WordIsStackOrPosted | src/runtime/affinity_baton.h:100-157 | the word is posted with no chain, or heads an acyclic chain of exactly the suspended waiters no exchange has collected |
| Baton.HandedOverOnce | src/runtime/worker.cc:44-72 | over any number of awaits with the same node, hand-overs equal pushes, or one less while suspended, and the latest was by the first exchange after the latest push |
| Baton.PostLeavesNobody | src/runtime/worker.cc:44-72 | once the word is empty or posted and the walks are finished, nobody is left suspended |
| Baton.NoSuspendUntilReset | src/runtime/affinity_baton.h:136-157 | after a post no waiter is pushed in any run, however often it awaits, until a reset takes effect |
| BatonCalls.PassedOnlyIfPosted | src/runtime/affinity_baton.h:132-156 | an await goes on without suspending only at a step that finds the baton posted |
| BatonCalls.NobodyPassesUnposted | src/runtime/affinity_baton.h:89-156 | in every run without a post or the destructor nobody gets past an await |
| BatonCalls.AwaitSuspends | src/runtime/affinity_baton.h:132-156 | from every reachable unposted state an undisturbed await suspends, on top of those who wait |
| BatonCalls.PostAlone | src/runtime/worker.cc:44-72 | from every reachable state an undisturbed post leaves the baton posted and resumes exactly those who waited on it |
| BatonCalls.ResetAlone | src/runtime/affinity_baton.h:100-116 | an undisturbed reset of a posted baton makes it unposted and touches nobody |
| WhenAll.RunKept | src/runtime/coro_api.h:517-629 | every run keeps the join invariant: the countdown equals the number of tasks that have yet to decrement |
| WhenAll.JoinIsSafe | src/runtime/coro_api.h:526-607 | for any N at most one post and one resumption, the latter only after all N results are stored and with exactly those results, and no access to the shared state after its frame is gone |
| WhenAll.JoinCompletes | src/runtime/coro_api.h:571-607 | when all tasks are done there was exactly one post and the awaiter is not suspended; a task that may still touch the state keeps the awaiter from resuming |
| WhenAllEnds.StepsCount | src/runtime/coro_api.h:517-629 | in every run each step that changes anything, spurious failures aside, brings the end closer |
| WhenAllEnds.JoinFinishes | src/runtime/coro_api.h:517-629 | every run can be continued until all tasks are done and the awaiter has gone on with exactly the results |
| Timers.TimerHeap.Expire | src/runtime/timer.h:43-50 | returns exactly the due timers, earliest first, and keeps exactly the others |
| Timers.TimerHeap.NextDeadline | src/runtime/timer.h:53-56 | the least pending deadline, or the maximum when none is pending |
| Timers.SplitIsUnique | src/runtime/timer.h:43-50 | a division of the pending timers by deadline is determined as multisets |
| Timers.StepKept | src/runtime/timer.h:77-113 | every step of inserters and timer thread keeps the sleep invariant and the ledger of timers |
| Timers.NeverOversleeps | src/runtime/timer.h:77-113 | a sleeping timer thread wakes no later than any pending deadline before the last there is, or an insert still owes it a notify; a sleep with a limit also minds the last |
| Timers.WatchedIff | src/runtime/timer.h:77-113 | pending timers of a deadline are minded by the sleeping thread in all runs if and only if it is before the last deadline there is |
| Timers.EachTimerOnce | src/runtime/timer.cc:38-53 | each inserted timer is either pending or returned, exactly once, and never early |
| Timers.DueIsReturned | src/runtime/timer.cc:38-53 | an expire hands back every timer inserted before it whose deadline has come |
| Timers.RoundReturnsDue | src/runtime/timer.cc:38-53 | a timer whose deadline has come when the thread begins a round is handed back by that round, whatever others do in between |
| Timers.SleepsUntilEarliest | src/runtime/timer.h:104-113 | the thread sleeps until the least pending deadline, without a limit if and only if none is pending |
| Timers.InsertAlone | src/runtime/timer.h:77-88 | an undisturbed insert makes its timer pending and wakes a sleeping thread if and only if its deadline is before all others |
| Timers.BatchIsDue | src/runtime/timer.h:90-98 | a batch contains a timer if and only if it was pending and due |
| Timers.ExpiryExists | src/runtime/timer.h:90-98 | expire has a legal answer for every heap and time |
| CentralFreeList.Scan | src/runtime/memory_pool.cc:186-203 | the loop finds the first node that fits, links its predecessor (or the start) past it, and changes no other link |
| CentralFreeList.TakeFirstFit | src/runtime/memory_pool.cc:186-203 | what is left is a well-formed chain of the other nodes in their order |
| CentralFreeList.Tail | src/runtime/memory_pool.cc:208-209 | finds the last node of the chain |
| CentralFreeList.List.Push | src/runtime/memory_pool.cc:169-178 | the list is the node followed by the old list |
| CentralFreeList.List.PutBack | src/runtime/memory_pool.cc:205-217 | the list is the chain put back followed by whatever it held |
| CentralFreeList.List.Pop | src/runtime/memory_pool.cc:182-220 | returns the first node of sufficient size, or null if none, and leaves all others in their original order |
| SharedFreeList.StepKept | src/runtime/memory_pool.cc:169-220 | every step of concurrent pushes and pops, the private ones following the links in memory, keeps: list and private chains are disjoint, acyclic and account for every node |
| SharedFreeList.ListStaysAList | src/runtime/memory_pool.cc:169-220 | in every run following the links from the head visits distinct nodes, exactly those on the list, and ends in null |
| SharedFreeList.NoNodeLostOrDoubled | src/runtime/memory_pool.cc:169-220 | at any time a node is on the list, with a thread, or with a client, never two of these, and with no two threads; so when all calls have returned each is on the list or with a client |
| SharedFreeListCalls.PopFindsFirstFit | src/runtime/memory_pool.cc:186-203 | in every run a pop that has taken the list keeps the first node that is large enough, none if and only if all are too small, and the others in their order |
| SharedFreeListCalls.PushAlone | src/runtime/memory_pool.cc:169-178 | from every reachable state an undisturbed push puts its node in front |
| SharedFreeListCalls.PopAlone | src/runtime/memory_pool.cc:182-220 | from every reachable state an undisturbed pop removes and returns the first listed node that is large enough, none if and only if all are too small |
| SharedFreeList.WalkIsChain | src/runtime/memory_pool.cc:190-209 | following the links of a chain that ends in null meets exactly its recorded nodes |
| ClassStack.StepKept | src/runtime/memory_pool.cc:133-156 | with one popping thread every step of pushes and pops keeps: the links from the head visit exactly the nodes nobody has |
| ClassStackCalls.ActsAsStack | src/runtime/memory_pool.cc:133-156 | with one popping thread every step of every run leaves the stack alone, or puts the node of a push on top, or removes the top for a pop |
| ClassStackCalls.EmptyIsHonest | src/runtime/memory_pool.cc:144-156 | a pop comes back without a node only at a step that finds the stack empty |
| ClassStackCalls.PushAlone | src/runtime/memory_pool.cc:133-142 | from every reachable state an undisturbed push puts its node on top |
| ClassStackCalls.PopAlone | src/runtime/memory_pool.cc:144-156 | from every reachable state an undisturbed pop removes and returns the top, or finds none |
| ClassStack.TwoPoppersBreak | src/runtime/memory_pool.cc:144-156 | with two popping threads a run hands out a node that is still the top of the stack |
| ClassStack.SoundIff | src/runtime/memory_pool.cc:133-156 | the top of the stack is never a node somebody has, in all runs, if and only if at most one thread pops or there is no node |
| SizeClass.FoldsFill | src/runtime/memory_pool.cc:36-44 | the shift-or cascade fills all bits below the leading one |
| SizeClass.IndexIsLeastFit | src/runtime/memory_pool.cc:33-48 | the index is the least class that holds the size, and the out-of-range value exactly above 256 bytes |
| Rounding.AlignUpExact | src/runtime/memory_pool.cc:435-437 | without overflow the masking expression is the least multiple not below its argument |
| Rounding.SizeCoversRequest | src/runtime/memory_pool.cc:312-317 | the rounded size is at least the request if and only if the rounding does not overflow 64 bits |
| PoolObject.PoolImpl.DrainRing | src/runtime/memory_pool.cc:334-340 | the first sixteen returned pointers, or all if fewer, are now on the central stack, last on top |
| PoolObject.PoolImpl.Allocate | src/runtime/memory_pool.cc:310-376 | keeps the ownership invariant; the memory returned was not in use, is long enough and 16-byte aligned, is apart from every other piece, and no other piece changes hands; a medium request gets system memory if and only if all freed medium objects are too small |
| PoolObject.PoolImpl.Deallocate | src/runtime/memory_pool.cc:378-409 | keeps the ownership invariant; the object is no longer in use and no other piece changes hands |
| PoolPartition.StepKept | src/runtime/memory_pool.cc:310-466 | every allocation, matching deallocation and warm-up keeps geometry and ownership books |
| PoolPartition.LiveObjectsApart | src/runtime/memory_pool.cc:310-409 | in every reachable state a live object is long enough, 16-byte aligned, and disjoint from all other live, cached or dropped objects and from all unbumped memory |
| PoolPartition.SmallInsideOneBlock | src/runtime/memory_pool.cc:433-466 | a small object lies inside one 1 MB block, any other outside all blocks |
| PoolPartition.HeldExactlyOnce | src/runtime/memory_pool.cc:310-409 | stack, ring and caches of a class together hold each idle object of the class exactly once and nothing else; likewise the medium list |
| PoolPartition.AllocationIsFresh | src/runtime/memory_pool.cc:310-376 | what allocate returns is not live and overlaps no live object |
| PoolPartition.GiveCacheIsForGood | src/runtime/memory_pool.cc:326-396 | the cache allocate reads is always empty; the cache deallocate fills has at most 65 objects, which stay there and are never live again, in every further run |
| PoolPartition.ReusableIff | src/runtime/memory_pool.cc:326-396 | an idle small object is live again in some run if and only if it is not in the cache deallocate fills, that is, it is on the stack or in the ring |
| PoolReuse.MediumIsFirstFit | src/runtime/memory_pool.cc:355-366 | a medium request gets system memory if and only if every freed medium object is recorded as too small, and otherwise the first that is large enough |
| PoolReuse.MediumReusable | src/runtime/memory_pool.cc:355-403 | every idle medium object is live again in some run |
| PoolReuse.FreedSmallGoes | src/runtime/memory_pool.cc:387-397 | the first 65 freed objects of a class are cached, the next go to the ring while it has room, the rest are dropped |
| PoolReuse.FreedComesBackIff | src/runtime/memory_pool.cc:322-397 | a small object is live again in some run after it is freed if and only if 65 of its class are cached and the ring has room |
| PoolReuse.FreedMediumComesBack | src/runtime/memory_pool.cc:355-403 | a medium object is live again in some run after it is freed |
| PoolReuse.NewBlockIff | src/runtime/memory_pool.cc:433-466 | a small request makes the pool get a block if and only if stack and ring of its class are empty, it does not fit into the current block, and that is the last |
| PoolReuse.WarmupSavesBlock | src/runtime/memory_pool.cc:411-417 | a warm-up adds a block at the end, so that the next small request gets none |
| PoolAlignment.AlignedIff | src/runtime/memory_pool.cc:310-376 | every address returned is a multiple of 2^e in every reachable state if and only if 2^e is at most 16 |
| PoolAlignment.FreshSmallAligned | src/runtime/memory_pool.cc:433-466 | a small object cut from a block is aligned as requested if and only if the block is, hence always up to 64 |
| PoolMisalignment.ClassAlignedIff | src/runtime/memory_pool.cc:13-16 | live objects of a class lie at multiples of the class size in all reachable states if and only if the class is that of 8 or of 16 bytes |
| PoolMisalignment.SmallAlignedIff | src/runtime/memory_pool.cc:310-349 | small requests get addresses aligned as requested in all reachable states if and only if the alignment is at most 16, or above 256, where no request is small |
| PoolMisalignment.FreshAlignedIff | src/runtime/memory_pool.cc:433-466 | small requests served from a block get addresses aligned as requested in all reachable states if and only if the alignment is at most 64, or above 256 |
| Policies.RoundRobinPolicy.Decide | src/runtime/round_robin_policy.cc:9-33 | decision and remembered index are those of the specification function |
| Policies.RoundRobinServes | src/runtime/round_robin_policy.cc:17-32 | idles if and only if all queues are empty, otherwise picks a non-empty one |
| Policies.RoundRobinBoundedWait | src/runtime/round_robin_policy.cc:17-32 | a queue non-empty at every decision is picked within as many decisions as it is places away, at most n |
| Policies.RoundRobinIdleKeepsTurn | src/runtime/round_robin_policy.cc:17-33 | an idle decision changes nothing for the decisions after it |
| Policies.StrictPriorityPolicy.CountReady | src/runtime/strict_priority_policy.cc:20-26 | the count is positive if and only if the level has a non-empty queue |
| Policies.StrictPriorityPolicy.Decide | src/runtime/strict_priority_policy.cc:9-54 | decision and remembered state are those of the specification function |
| Policies.StrictServesBest | src/runtime/strict_priority_policy.cc:17-53 | picks a non-empty queue of the best priority that has work, and idles if and only if all are empty |
| Policies.StrictBoundedWait | src/runtime/strict_priority_policy.cc:29-47 | a queue non-empty throughout is picked within n consecutive decisions served at its own priority |
| Policies.StrictIdleForgets | src/runtime/strict_priority_policy.cc:49-53 | after an idle decision the decisions do not depend on what was served before, unless there were no queues at all |
| StrictStarvation.StrictStarves | src/runtime/strict_priority_policy.cc:17-47 | for any priorities, a queue with a more urgent queue and with another one of its level before it has, for every length, a run from the start in which it has work at every decision, every second decision is at its level, and none takes it |
| StrictStarvation.PromptIff | src/runtime/strict_priority_policy.cc:17-47 | a queue with work at every decision has been picked once its level has been served as often as there are queues, in all runs from the start (and from any remembered state), if and only if no queue is more urgent or it is the first of its level |
| WeightedFair.WeightedFairPolicy.FindBest | src/runtime/weighted_fair_policy.cc:23-33 | finds the first non-empty queue of least virtual time, if there is a non-empty one |
| WeightedFair.WeightedFairPolicy.Decide | src/runtime/weighted_fair_policy.cc:10-46 | decision, weights and virtual times are those of the specification function, sizes adjusted to the queue count |
| WeightedFair.ServesLeastServed | src/runtime/weighted_fair_policy.cc:23-45 | idles if and only if all queues are empty, otherwise serves the first of least virtual time |
| WeightedFair.VirtualTimeIsService | src/runtime/weighted_fair_policy.cc:42-43 | over any run each virtual time equals service divided by weight |
| WeightedFair.VirtualTimeGap | src/runtime/weighted_fair_policy.cc:16-45 | over any run a queue is never ahead of an always non-empty one by more than one full batch of virtual time |
| WeightedFair.FairnessBound | src/runtime/weighted_fair_policy.cc:16-45 | served_i/w_i - served_j/w_j <= max_batch/w_i in any run in which queue j is non-empty at every decision |
| BusyPoll.BusyScheduler.TakeBatch | src/runtime/scheduler.cc:185-205 | executes the first 64 items of the queue, or all, in order, whatever arrives meanwhile, and no queue loses, repeats or reorders an item |
| BusyPoll.BusyScheduler.DrainAffine | src/runtime/scheduler.cc:42-71 | executes nothing from the other queues, and leaves the affine queue empty if it ends, and has executed an item per batch if it is cut off |
| BusyPoll.BusyScheduler.Iteration | src/runtime/scheduler.cc:176-236 | every non-affine queue has at least its first 64 waiting items executed; what waited in the affine queue is executed before anything else and the queue is empty at the end, if the two drains end; no queue loses, repeats or reorders an item |
| BusyPoll.BusyScheduler.Loop | src/runtime/scheduler.cc:176-236 | after n iterations every non-affine queue has at least its first 64 n waiting items executed, and the affine queue is empty if the last drain ends; no queue loses, repeats or reorders an item |
| BusyPoll.BoundedWait | src/runtime/scheduler.cc:176-236 | an item with k items ahead of it in a non-affine queue is executed, in its place, by the end of iteration k/64 + 1 |
| Histograms.Histogram.Record | src/runtime/perf_histogram.h:15-21 | each bucket holds the number of samples between its powers of two, zero counting as one |
| Histograms.Histogram.Percentile | src/runtime/perf_histogram.h:24-35 | the scan computes the specified percentile of the recorded samples |
| Histograms.PerfPercentileError | src/runtime/perf_histogram.h:24-35 | for the k-th smallest sample x the result r satisfies r <= x < 2r |
| Histograms.WithinFactorTwoIff | src/runtime/perf_histogram.h:24-35 | the percentile is within a factor of two of some sample if and only if count * p is at least one or a sample of at most one was recorded; otherwise it is one |
| Histograms.BucketIndex | src/runtime/metric_histogram.h:103-112 | the bucket whose ends enclose the latency, the last one being open |
| Histograms.MetricLatency.Record | src/runtime/metric_histogram.h:26-31 | each bucket holds the number of samples between its ends and the total is their number |
| Histograms.MetricLatency.Percentile | src/runtime/metric_histogram.h:34-64 | the scan with interpolation computes the specified percentile of the recorded samples |
| Histograms.LatencyBucketOfKth | src/runtime/metric_histogram.h:40-43 | the scan stops in the bucket of the k-th smallest sample |
| Histograms.LatencyPercentileBucket | src/runtime/metric_histogram.h:43-55 | the result lies in the closed range of that bucket, as far into it as k is into the samples of the bucket, and strictly below its upper end if and only if k is not the last rank of the bucket |
| Histograms.InSomeBucketIff | src/runtime/metric_histogram.h:34-64 | the percentile lies in the range of some sample's bucket if and only if count * p is at least one or a sample is below a microsecond; otherwise it is zero |
| Histograms.LatencyAboveItsBucket | src/runtime/metric_histogram.h:43-55 | one sample of 500 ns at p = 1.0 is reported as 1000 ns |

## Left out

- Memory orders: every atomic access is sequentially consistent; the weaker orders of the source are not modelled.
- Exceptions, and the move of a `when_all` awaiter after its tasks were spawned.
- ChaseLev.StepKept: items are copied, indices do not wrap at 2^63, and an array replaced by growth stays readable; `NeverStaleIff` and `FullIsDangerous` say exactly when a thief can come to read a deleted one.
- AdaptiveIdle.StepKept: `park_generation_` does not wrap, and the eventfd read of the park section is one step with the section, which nothing else can tell apart.
- WorkStealing.StepKept: a ring's enqueue and dequeue are single steps (`ActsAsQueue` shows that each takes effect in one step), and workers are already in the loop; the race of `stop` with thread start-up and the `running` flag are not modelled.
- ReturnRing.WordsRefineTickets: a signed difference that overflows is taken to wrap, which the language leaves undefined. A ring of 2^63 cells is excluded: its sequence numbers span half of all words, so that the sign of the difference no longer tells them apart.
- Timers.StepKept: the stop of the timer thread and the dispatch of expired timers are not modelled; the heap's internal layout is not, only that its top has the least deadline.
- PoolPartition.StepKept: one worker thread, requests of at least one byte whose rounding does not overflow, and deallocation with the original size and alignment.
- PoolObject.PoolImpl.Allocate: the per-class stack and the medium list are sequences (`ClassStack`, `CentralFreeList` and `SharedFreeList` have their links). What the system allocator returns is a parameter. Statistics and the destructor are not modelled.
- SizeClass.IndexIsLeastFit: sizes above 2^63, for which the source counts the trailing zeros of zero, are excluded; `allocate` calls it only up to 256.
- WeightedFair.FairnessBound: doubles are reals and weights positive.
- Histograms.PerfPercentileError: percentile ranks are taken over reals; counters do not wrap. Concurrent recording into `MetricLatency` is not modelled.
- BusyPoll.BusyScheduler.DrainAffine: the number of batches after which the drain ends is a parameter, since executed items may enqueue more.
- `AffinityMutex`, `AffinitySemaphore` and the timed baton wait.
- `Task` frames, `blockingRun`, `coro_detach` and `coro_create`.
- `MPMCRing::count`, `LocalQueue`, `BatchedSPSCQueue`: approximate by design, or an easy ring.
- The decision loop of `Scheduler::run` around the policies, topology and pinning, I/O backends, metric export, the feedback loop and the registry.
