# Threads, paged heaps and a small file system: a verified model

A Dafny model of the operating-system coursework: the user-level thread library with its
scheduler and mutex, two programs that run on it, the page manager and allocator that give
every thread a heap at the same addresses, and the on-disk formats of the file system.

The models keep what the code does, including where that is less than its comments
promise. Where a promised property fails, a lemma says exactly when it holds.

**Threads.** `SchedulerSpec` and `MutexSpec` are the scheduler and the library calls as
functions on values: five FIFO run queues, the current thread, one control block per thread,
the maintenance counter. `RunQueues` is the maintenance pass over one queue. `ThreadQueue`,
`Scheduler` and `Library` are the same on the heap, with linked queues, thread fields and
globals updated in place; each method is proved equal to its function. `ScheduleEffects` says field
by field what one call of schedule does, to the thread that leaves, the one that comes and all
others, and `CallEffects` what the library calls leave behind, and which value a join delivers over
whole runs. `ThreadSystem` lets
any threads make any calls in any order, as long as each takes mutexes in ascending order and
exits holding none, with timer ticks anywhere between calls, and proves mutual exclusion, no
lost wake-up, that each thread is in exactly one place, and that the end is reported only when
all have exited. `Starvation` bounds when an aged thread gets the processor. `Counter`
(mcounter.c) runs on that system. `ParallelSort` (mtsort.c) runs on an abstract blocking
mutex: it never deadlocks, what it prints is sorted, and it can always finish; `Inversions`
counts what its exchanges remove.

**Memory.** `PageTable` is the page manager on values; `PagingMoves` says what each operation
does to the map from (thread, page) to contents and to the counters of free frames;
`PagingRuns` proves isolation and the survival of pages over whole runs, `PagingCases` gives
runs that end where the code has no answer, and `AddressSpace` shows why the frame that an
address names holds the right page whenever it is open. `PageManager` is the page manager on
arrays, with the scanning loops and the faulting loads and stores. `BlockList` is the block list
of the allocator, `Allocator` its calls on that list and when a request succeeds, and `Headers`
the list as it lies in memory, 24 bytes a header. `ThreadSpace` is the memory of a thread as a
string of bytes, whatever frames its pages are in; `HeapCalls` says what myallocate and
mydeallocate do to it, and `Heap` is the two calls in place: they find their way by loading
header fields through the page manager, and every load and store may fault. `SharedHeaps` puts
many threads on one memory, `SharedRuns` proves over whole runs that what was handed out holds
what its thread stored there last, `Progress` that no thread gets stuck, and `Adoption` what the
first create does to a heap made before it. `Machine` runs the thread library and the heaps
together: schedule decides who owns the memory next.

**Files.** `Directory` is the record format and its operations on bytes and lists,
`DirectoryBlock` the loops over the buffer. `FileBlocks` is the read and write loops,
`FileGrowth` the allocation step before a write and what becomes of a file over many writes,
`Bitmap` the number allocator on 32-bit words, `InodeTable` inode placement. `Disk` holds
bytes and blocks.

Where the code and its own words disagree, the model follows the code:

- paging.c:248 says getHead returns NULL to mydeallocate for a thread without pages; the flag
  passed is 2 and the test is for 0, so the call allocates a page (`FreeFlagAllocates`).
- paging.c:163-167 means to exchange two table entries and exchanges one with itself. `SwapPage`
  is that code, `SwapPageMended` the exchange that was meant; runs use the mended one.
  `SwapLosesPage` is a loss by the code as written.
- paging.c:265 looks for a thread's first page in memory only; once it has been driven into the
  swap file (`HeadGetsIntoSwap`) getHead makes a second one.
- paging.c:220-226 closes the pages of a thread that schedule dispatches again right after it
  left (`SwitchOpensIff`), so that getHead faults on its own copy (`HeadCanBeCopied`);
  `RedispatchedIff` says when schedule does, `YieldCanComeBack` is one such call, and
  `StepKeepsMachineIff` shows that nothing else breaks the heaps.
- myallocate.c:334-395 frees only the last live block (`FreesLastLiveIff`). The backward merge of
  lines 397-401 has nothing to merge when prev is NULL or names a block in front
  (`BackwardMergeIsDead`, `PrevInFrontIsHarmless`). But only growth sets prev: initMem and
  organizeMem leave it as old memory (`SplitLeavesPrev`), which may name anything. When the bytes
  it names read like a free header, a free that takes effect stores through NULL
  (`FreedBlockIsLast`).
- my_pthread.c:29 makes the caller of the first create thread 1 without a call of
  mprotect_setter. mtsort.c:150-170 and mcounter.c:36-45 allocate before that, as thread 0: their
  pages stay open to every thread, and the next malloc hides the first one from its owner
  (`AdoptKeepsInvIffEmpty`, `AdoptionBreaksIsolation`, `AdoptionLosesBlocks`).
- bitmap.c:12 means to search every word; the bit counter is never reset
  (`FindFirstFreeEffect`), and block.c:90-99 searches three bitmaps without a base
  (`FindFreeBlockIsFreshIff`, `BlockGivenTwice`).
- sfs.c:436 subtracts the running total (`ReadFullIff`, `ThreeBlocksFallShort`), and sfs.c:381
  cuts a read to the file size whatever its offset (`ReadStaysInFileIff`, `ReadsPastTheEnd`).
- sfs.c:496-502 lets some writes past the ten direct pointers through (`CheckMissesIff`,
  `EleventhBlockIsMissed`).
- sfs.c:565 adds the length of every write to the size (`SizeIsEndIff`), and sfs.c:506 counts
  blocks by a number that falls behind (`PlacedIff`, `NewFilePlacedIff`,
  `FirstWriteMissesBlock`); a block without a pointer is data block 0. An empty write returns -1.
- my_pthread.c:356 marks a case that should not happen; it does not (`DispatchedThreadRuns`).

Conventions: addresses and pointers are kept relative to a thread's HEAD, so that 0 stands for
NULL (no next is HEAD, and a prev that is HEAD names a block in use, which the code treats like
NULL); ghost parameters carry the abstract value a method works on; a lemma named
`...Iff` gives the exact condition of a property that the code does not always have. The
arguments named `now` are clock readings; the thread library reads the clock several times
in a call of schedule, and the model uses one reading per call.

Check everything with `dafny verify dfyconfig.toml` (Dafny 4.11).

## Model

| member | source | states |
|---|---|---|
| `ParallelSort.InitInv` | scheduler+virtualMemoryManager/mtsort.c:150-175 | the machine that main sets up satisfies the protocol invariant, for any non-empty list |
| `ParallelSort.StepKeepsInv` | scheduler+virtualMemoryManager/mtsort.c:34-121 | every step of a sorter, the checker or main's join keeps the protocol invariant: lock ownership matches every program counter, and what each thread has read is still true |
| `ParallelSort.RunKeepsInv` | scheduler+virtualMemoryManager/mtsort.c:34-121 | every interleaving of sorters, checker and main keeps the protocol invariant, for any list length |
| `ParallelSort.NobodyInside` | scheduler+virtualMemoryManager/mtsort.c:92-108 | while the checker holds every mutex no sorter is in its critical section |
| `ParallelSort.NeighboursExclude` | scheduler+virtualMemoryManager/mtsort.c:47-64 | two sorters that share a mutex are never both inside |
| `ParallelSort.QuittingFreezes` | scheduler+virtualMemoryManager/mtsort.c:45-67 | with `quitting` set no step changes the list or clears the flag |
| `ParallelSort.QuittingMeansSorted` | scheduler+virtualMemoryManager/mtsort.c:95-104 | with `quitting` set the list is a sorted permutation of the one main built |
| `ParallelSort.QuittingFreezesRun` | scheduler+virtualMemoryManager/mtsort.c:45-121 | the rest of any run leaves the list alone |
| `ParallelSort.PrintedListIsSorted` | scheduler+virtualMemoryManager/mtsort.c:192-200 | on every run, what main prints after its joins is the sorted permutation of its list |
| `ParallelSort.PutLowExchanges` | scheduler+virtualMemoryManager/mtsort.c:56-61 | the last store of an exchange is exactly one neighbour exchange of the settled list, of an inverted pair |
| `ParallelSort.OtherStepsSettle` | scheduler+virtualMemoryManager/mtsort.c:45-67 | no other step changes the settled list |
| `ParallelSort.ExchangesPayInversions` | scheduler+virtualMemoryManager/mtsort.c:56-61 | along any run, exchanges made plus inversions left equals the inversions at the start |
| `ParallelSort.ExchangeBound` | scheduler+virtualMemoryManager/mtsort.c:56-61 | no run makes more than n(n-1)/2 exchanges |
| `ParallelSort.ExchangesAreInversions` | scheduler+virtualMemoryManager/mtsort.c:95-104 | a run that reaches `quitting` made exactly as many exchanges as the list had inversions |
| `ParallelSort.NoDeadlock` | scheduler+virtualMemoryManager/mtsort.c:47-64 | until main has joined everyone, some thread can take a step; the lemma constructs it |
| `ParallelSort.ClimbToEnabled` | scheduler+virtualMemoryManager/mtsort.c:47-48 | locks are taken in ascending index, so the chain of waiting sorters ends at a thread that can move |
| `ParallelSort.CheckerLeadsToEnabled` | scheduler+virtualMemoryManager/mtsort.c:92-93 | a checker that cannot take its next lock leads to a sorter that can move |
| `ParallelSort.CanExchange` | scheduler+virtualMemoryManager/mtsort.c:56-61 | from any reachable state with an unsorted list some schedule makes another exchange: the critical sections drain, then the sorter of an inverted pair runs; the lemma constructs the schedule |
| `ParallelSort.CanFinish` | scheduler+virtualMemoryManager/mtsort.c:45-121 | from any reachable state some schedule lets main join every thread; the lemma constructs it |
| `ParallelSort.QuittingTerminates` | scheduler+virtualMemoryManager/mtsort.c:45-121 | once `quitting` is set every further step lowers a rank, so no run goes on for ever |
| `ParallelSort.ExchangeIfInverted` | scheduler+virtualMemoryManager/mtsort.c:56-61 | the critical section on the shared array is one conditional exchange |
| `ParallelSort.CheckSorted` | scheduler+virtualMemoryManager/mtsort.c:95-104 | the value stored in `quitting` is true exactly for a sorted list |
| `ParallelSort.SoloSectionMatches` | scheduler+virtualMemoryManager/mtsort.c:56-61 | the machine's separate load and store steps, run alone, do what the array method does |
| `Inversions.ExchangeRemovesOneInversion` | scheduler+virtualMemoryManager/mtsort.c:56-61 | exchanging an inverted neighbouring pair removes exactly one inversion |
| `Inversions.NoInversionsIffSorted` | scheduler+virtualMemoryManager/mtsort.c:96-100 | no inversions exactly when sorted |
| `Inversions.CountBound` | scheduler+virtualMemoryManager/mtsort.c:56-61 | a list of n elements has at most n(n-1)/2 inversions |
| `Inversions.ExchangeKeepsElements` | scheduler+virtualMemoryManager/mtsort.c:58-60 | an exchange permutes the list |
| `RunQueues.PassPartitions` | scheduler+virtualMemoryManager/submission/my_pthread.c:247-297 | a maintenance pass over a queue loses and duplicates no thread |
| `RunQueues.PassKeepsOrder` | scheduler+virtualMemoryManager/submission/my_pthread.c:247-297 | kept and promoted threads keep their order |
| `RunQueues.FirstAgedIsPromoted` | scheduler+virtualMemoryManager/submission/my_pthread.c:259-290 | the aged thread nearest the front is always promoted, first |
| `RunQueues.PromotedIff` | scheduler+virtualMemoryManager/submission/my_pthread.c:284-295 | exactly who is promoted: an aged thread, unless the thread right in front of it was |
| `RunQueues.LeftBehindBound` | scheduler+virtualMemoryManager/submission/my_pthread.c:284-295 | at most as many aged threads stay behind as are promoted, although the thread after each promoted one is skipped |
| `RunQueues.LeftBehindMovesForward` | scheduler+virtualMemoryManager/submission/my_pthread.c:284-295 | a thread that stays never falls back; an aged one moves strictly forward |
| `RunQueues.PassMembers` | scheduler+virtualMemoryManager/submission/my_pthread.c:247-297 | exactly the threads of the queue are kept or promoted, and only aged ones are promoted |
| `RunQueues.PassKeepsDistinct` | scheduler+virtualMemoryManager/submission/my_pthread.c:247-297 | no thread ends up in both parts, or twice in one |
| `ThreadQueue.Queue.Enqueue` | scheduler+virtualMemoryManager/submission/my_pthread.c:142-153 | the linked queue gains the thread at its rear |
| `ThreadQueue.Queue.Dequeue` | scheduler+virtualMemoryManager/submission/my_pthread.c:156-171 | the front thread leaves with a NULL link; an empty queue gives NULL |
| `ThreadQueue.Queue.Unlink` | scheduler+virtualMemoryManager/submission/my_pthread.c:262-279 | the pointer surgery of maintenance takes exactly the k-th thread out, rear included |
| `SchedulerSpec.SweepIsMaintainQueue` | scheduler+virtualMemoryManager/submission/my_pthread.c:247-297 | the scanning loop over a queue that shrinks under it equals the pass that splits the queue in one go |
| `SchedulerSpec.MaintainQueueKeepsQueues` | scheduler+virtualMemoryManager/submission/my_pthread.c:247-297 | after a pass every queued thread is QUEUED, in the queue of its priority, once; other threads are untouched |
| `SchedulerSpec.PromoteKeepsQueues` | scheduler+virtualMemoryManager/submission/my_pthread.c:261-290 | after each single promotion within a pass every queued thread is QUEUED, in the queue of its priority, once |
| `SchedulerSpec.TendKeepsWellFormed` | scheduler+virtualMemoryManager/submission/my_pthread.c:306-312 | the maintenance counter and its pass keep the scheduler well formed and change nothing but priorities |
| `SchedulerSpec.LeaveKeepsQueues` | scheduler+virtualMemoryManager/submission/my_pthread.c:355-402 | giving up the processor keeps the queues well formed and not empty |
| `SchedulerSpec.DispatchKeepsWellFormed` | scheduler+virtualMemoryManager/submission/my_pthread.c:427-434 | there is a thread to dispatch, it was QUEUED, and it runs; schedule never dispatches NULL |
| `SchedulerSpec.SwapsIff` | scheduler+virtualMemoryManager/submission/my_pthread.c:327-422 | a call changes threads exactly when somebody is queued and the current thread is not RUNNING or has used up the slice of its priority |
| `SchedulerSpec.RedispatchedIff` | scheduler+virtualMemoryManager/submission/my_pthread.c:355-434 | the thread that gives up the processor is the very one dispatched exactly when it is queued again and the queues up to its own were empty |
| `SchedulerSpec.ScheduleEffect` | scheduler+virtualMemoryManager/submission/my_pthread.c:301-457 | a call to schedule either hands the processor over, changing two states at most, or changes no state; birth times and exit values survive |
| `SchedulerSpec.NoneQueuedIffNoState` | scheduler+virtualMemoryManager/submission/my_pthread.c:195-211 | the run queues are empty exactly when no thread is QUEUED |
| `SchedulerSpec.FirstQueue` | scheduler+virtualMemoryManager/submission/my_pthread.c:175-191 | the queue that is dequeued is the first that is not empty |
| `ScheduleEffects.SwapRequeues` | scheduler+virtualMemoryManager/submission/my_pthread.c:321-434 | a swap, field by field: a RUNNING thread goes one queue down but not below the last, one that yields or joins back to its own, to the rear and with timeRun 0; who blocks or exits keeps its charged account and is in no queue; the dispatched thread runs, its slice starting now |
| `ScheduleEffects.StayerGoesOn` | scheduler+virtualMemoryManager/submission/my_pthread.c:321-456 | without a swap the thread goes on, charged, with its slice starting now unless it has exited as the last one |
| `ScheduleEffects.OthersKeepTcb` | scheduler+virtualMemoryManager/submission/my_pthread.c:237-434 | a thread that neither leaves nor is dispatched keeps its control block, but for a promotion to the top queue that only every twentieth call makes, of a thread born a second ago or earlier |
| `ScheduleEffects.SwapQueues` | scheduler+virtualMemoryManager/submission/my_pthread.c:355-434 | the run queues after a swap: the leaver at the rear of its queue if it can run, then one thread less at the front of the first queue that is not empty |
| `MutexSpec.BlockedLeavesIff` | scheduler+virtualMemoryManager/submission/my_pthread.c:473-483 | a thread that finds the mutex taken gives up the processor exactly when another thread is queued |
| `MutexSpec.RelockWaitsTwice` | scheduler+virtualMemoryManager/submission/my_pthread.c:473-483 | a holder that locks again with nobody queued puts itself on the wait queue twice: the reason for the rule that holders do not relock |
| `MutexSpec.LonelyYieldKeepsState` | scheduler+virtualMemoryManager/submission/my_pthread.c:328-353 | a thread that yields goes on in state YIELD exactly when nobody is queued |
| `MutexSpec.YieldCanComeBack` | scheduler+virtualMemoryManager/submission/my_pthread.c:328-434 | a thread of the top queue yields while another is queued one level below, and is dispatched again itself |
| `MutexSpec.ScheduleKeepsBlocked` | scheduler+virtualMemoryManager/submission/my_pthread.c:301-457 | no call to schedule wakes a thread that waits on a mutex |
| `Scheduler.Scheduler.constructor` | scheduler+virtualMemoryManager/submission/my_pthread.c:214-234 | empty queues, the calling thread adopted as the running main thread |
| `Scheduler.Scheduler.GetNextThread` | scheduler+virtualMemoryManager/submission/my_pthread.c:175-191 | the front of the first non-empty linked queue leaves it; NULL when all are empty |
| `Scheduler.Scheduler.CheckNextThread` | scheduler+virtualMemoryManager/submission/my_pthread.c:195-211 | whether any queue has a front |
| `Scheduler.Scheduler.SweepLoop` | scheduler+virtualMemoryManager/submission/my_pthread.c:249-296 | the loop over the links does what the loop over the sequence does |
| `Scheduler.Scheduler.SweepQueue` | scheduler+virtualMemoryManager/submission/my_pthread.c:249-296 | the whole loop on one linked queue does what the pass that splits the queue in one go does |
| `Scheduler.Scheduler.Maintenance` | scheduler+virtualMemoryManager/submission/my_pthread.c:237-298 | maintenance on the heap is the pass over queues 1 to 4 |
| `Scheduler.Scheduler.PromoteThread` | scheduler+virtualMemoryManager/submission/my_pthread.c:261-290 | one promotion: out of its links, priority 0, rear of queue 0 |
| `Scheduler.Scheduler.Charge` | scheduler+virtualMemoryManager/submission/my_pthread.c:321-325 | the time accounting of the running thread |
| `Scheduler.Scheduler.SwitchOnState` | scheduler+virtualMemoryManager/submission/my_pthread.c:355-402 | the switch on the state of the running thread, with demotion when the slice is used up |
| `Scheduler.Scheduler.Dispatch` | scheduler+virtualMemoryManager/submission/my_pthread.c:427-434 | the next thread becomes current and starts its slice |
| `Scheduler.Scheduler.Schedule` | scheduler+virtualMemoryManager/submission/my_pthread.c:301-457 | schedule on linked queues and thread fields refines the value function; it returns the thread swapped out, exactly when there is one; links of waiting threads are outside its frame |
| `Scheduler.SettledIsSchedule` | scheduler+virtualMemoryManager/submission/my_pthread.c:327-456 | the branches after the accounting, put together, are one call of schedule |
| `Library.CreateThread` | scheduler+virtualMemoryManager/submission/my_pthread.c:55-81 | a new thread is QUEUED at priority 0 at the rear of queue 0 |
| `Library.YieldThread` | scheduler+virtualMemoryManager/submission/my_pthread.c:97-102 | yield refines its value function and returns the thread swapped out, if there is one |
| `Library.ExitThread` | scheduler+virtualMemoryManager/submission/my_pthread.c:104-113 | exit refines its value function, a NULL value keeping the old one, and returns the thread swapped out; CallEffects says what becomes of the value |
| `Library.JoinRound` | scheduler+virtualMemoryManager/submission/my_pthread.c:120-128 | one test of join's loop: return the exit value, or call schedule |
| `Library.JoinThread` | scheduler+virtualMemoryManager/submission/my_pthread.c:115-129 | join marks the caller JOINING first; when it returns, it delivers the retval of the thread |
| `Library.TimerHandler` | scheduler+virtualMemoryManager/submission/my_pthread.c:132-139 | a tick calls schedule unless the scheduler is busy |
| `Library.Mutex.constructor` | scheduler+virtualMemoryManager/submission/my_pthread.c:459-471 | a free mutex nobody waits for |
| `Library.Mutex.LockRound` | scheduler+virtualMemoryManager/submission/my_pthread.c:473-483 | one round of lock's loop: test-and-set, or rear of the linked wait queue and schedule; the wait queue stays well linked although run queues use the same link field |
| `Library.Mutex.Unlock` | scheduler+virtualMemoryManager/submission/my_pthread.c:485-500 | the longest waiting thread goes to the run queue of its priority, then the flag is cleared |
| `Library.DestroyMutex` | scheduler+virtualMemoryManager/submission/my_pthread.c:502-513 | destroy on the heap is its value function, with -1 for NULL; it changes nothing |
| `ThreadSystem.InitInv` | scheduler+virtualMemoryManager/submission/my_pthread.c:10-48 | the system with only the main thread, RUNNING at priority 0 in a slice that starts now, empty queues and free mutexes, satisfies the invariant |
| `ThreadSystem.StepKeepsInv` | scheduler+virtualMemoryManager/submission/my_pthread.c:97-139 | create, yield, exit, join, lock, unlock, a resumed round and a tick keep the system invariant, for any threads and mutexes taken in ascending order |
| `ThreadSystem.CallRuns` | scheduler+virtualMemoryManager/submission/my_pthread.c:97-139 | which calls get as far as schedule, and that the scheduler after them is what schedule makes of the one they hand it |
| `ThreadSystem.MutualExclusion` | scheduler+virtualMemoryManager/submission/my_pthread.c:473-500 | the flag is 1 exactly when some thread is between lock's return and unlock, and at most one is |
| `ThreadSystem.NoLostWakeup` | scheduler+virtualMemoryManager/submission/my_pthread.c:473-500 | a non-empty wait queue means a live holder, or a runnable thread about to test the flag again, barging included |
| `ThreadSystem.DestroyRefusedIffHeld` | scheduler+virtualMemoryManager/submission/my_pthread.c:502-513 | destroy refuses a mutex exactly while a thread that has not exited is between lock's return and unlock; a mutex it lets go with threads waiting has one that is runnable and about to take it |
| `ThreadSystem.BlockedOnce` | scheduler+virtualMemoryManager/submission/my_pthread.c:475-480 | a thread that finds the mutex taken is put on the wait queue once and another thread gets the processor |
| `ThreadSystem.BlockingFindsQueued` | scheduler+virtualMemoryManager/submission/my_pthread.c:327-353 | a blocking thread always finds a non-empty run queue |
| `ThreadSystem.LeadsToQueued` | scheduler+virtualMemoryManager/submission/my_pthread.c:473-483 | following held mutexes upwards from any waiting thread leads to a queued one |
| `ThreadSystem.FinishedMeansAllExited` | scheduler+virtualMemoryManager/submission/my_pthread.c:330-335 | when schedule reports the end, every created thread has exited |
| `ThreadSystem.Partition` | scheduler+virtualMemoryManager/submission/my_pthread.c:55-81 | every created thread is in exactly one of: processor, one run queue, one wait queue, exited |
| `ThreadSystem.DispatchedThreadRuns` | scheduler+virtualMemoryManager/submission/my_pthread.c:355-359 | the current thread is never QUEUED when schedule looks, never blocked, and in no run queue |
| `ThreadSystem.ExitedIsFrozen` | scheduler+virtualMemoryManager/submission/my_pthread.c:104-113 | an exited thread stays exited and keeps its value |
| `ThreadSystem.ExitValueSurvives` | scheduler+virtualMemoryManager/submission/my_pthread.c:124-126 | over any run, so a late join finds it |
| `CallEffects.CreateStarts` | scheduler+virtualMemoryManager/submission/my_pthread.c:55-81 | a new thread is QUEUED behind the others of queue 0 with priority 0, no value, an empty account and its birth time; nothing else changes |
| `CallEffects.UnlockWakesFirst` | scheduler+virtualMemoryManager/submission/my_pthread.c:485-500 | unlock moves the thread that has waited longest to the rear of the queue of its priority, QUEUED, and clears the flag; nothing else changes |
| `CallEffects.StepGives` | scheduler+virtualMemoryManager/submission/my_pthread.c:104-113 | the only step that changes a thread's value is its own exit with one that is not NULL |
| `CallEffects.ExitLeavesValue` | scheduler+virtualMemoryManager/submission/my_pthread.c:104-113 | after exit(v) the thread is EXITED and has v, or for NULL what it had before |
| `CallEffects.RunGives` | scheduler+virtualMemoryManager/submission/my_pthread.c:104-113 | over any run a thread's value is that of its last exit with one that is not NULL, or what it was at the start |
| `CallEffects.ExitValueStays` | scheduler+virtualMemoryManager/submission/my_pthread.c:104-129 | from its exit with v on, in every later state of any run, a thread is EXITED and has v, or for NULL what it had before |
| `CallEffects.JoinReturns` | scheduler+virtualMemoryManager/submission/my_pthread.c:115-129 | a join, or a later round of its loop, returns exactly when the thread it waits for has exited, with that thread's value |
| `CallEffects.JoinDeliversExitValue` | scheduler+virtualMemoryManager/submission/my_pthread.c:104-129 | over any run from exit(v), however late: a join of that thread returns and delivers v, or for NULL what the thread had before |
| `CallEffects.ValueWasPassed` | scheduler+virtualMemoryManager/submission/my_pthread.c:104-129 | conversely a thread that has exited by the end of a run called exit in it, with a value that is the one it has, or NULL; the lemma finds it |
| `Starvation.StepRank` | scheduler+virtualMemoryManager/submission/my_pthread.c:237-298 | no step moves an aged queued thread back; a pass moves it forward below the top, a change of threads does at the top |
| `Starvation.LowerBound` | scheduler+virtualMemoryManager/submission/my_pthread.c:237-298 | a run that does not dispatch an aged thread brings it to the top queue after more passes than it had threads before it |
| `Starvation.TopBound` | scheduler+virtualMemoryManager/submission/my_pthread.c:405-454 | a thread of the top queue, aged or not, gains a place with every change of threads that passes it over |
| `Starvation.StepCycle` | scheduler+virtualMemoryManager/submission/my_pthread.c:306-312 | the maintenance counter goes up by one with each call of schedule, round to zero at twenty, and with nothing else |
| `Starvation.PassEveryTwentyCalls` | scheduler+virtualMemoryManager/submission/my_pthread.c:306-312 | on every run the maintenance passes are its schedule calls divided by twenty, exactly |
| `Starvation.NoStarvationBelowTop` | scheduler+virtualMemoryManager/submission/my_pthread.c:237-312 | 20(position + 1) calls of schedule dispatch an aged queued thread or bring it to the top queue |
| `Starvation.NoStarvationAtTop` | scheduler+virtualMemoryManager/submission/my_pthread.c:405-454 | more changes of threads than threads before it include a dispatch of a thread of queue 0 |
| `Starvation.NoStarvation` | scheduler+virtualMemoryManager/submission/my_pthread.c:237-454 | an aged queued thread gets the processor within 20(position + 1) calls of schedule followed by as many changes of threads as there are threads |
| `Counter.InitInv` | scheduler+virtualMemoryManager/mcounter.c:26-42 | the program before main creates a thread satisfies the program invariant |
| `Counter.NextKeepsInv` | scheduler+virtualMemoryManager/mcounter.c:12-24 | every step of main, a counter thread or a tick keeps the program invariant: at most one thread is inside, its temp is not stale, and c is the sum of finished additions |
| `Counter.PrintedCountIsExact` | scheduler+virtualMemoryManager/mcounter.c:50-54 | for any number of threads and iterations and any interleaving, main prints iterations times threads |
| `Counter.NeverStuck` | scheduler+virtualMemoryManager/mcounter.c:44-52 | until main prints, the thread on the processor has a permitted step |
| `Counter.OneInside` | scheduler+virtualMemoryManager/mcounter.c:15-19 | at most one counter thread is between lock's return and unlock |
| `PageTable.FirstFree` | scheduler+virtualMemoryManager/submission/paging.c:103-129 | the scans find the lowest frame that is not in use |
| `PageTable.FindFrame` | scheduler+virtualMemoryManager/submission/paging.c:154-155 | the scan finds the lowest frame tagged with the page |
| `PageTable.RelocationKeepsView` | scheduler+virtualMemoryManager/submission/paging.c:136-147 | exchanging two frames, entries and contents, keeps the map from (thread, page) to contents and its uniqueness |
| `PageTable.ViewAt` | scheduler+virtualMemoryManager/submission/paging.c:263-265 | with unique entries, the map holds for a page what its frame holds |
| `PagingMoves.AssignAddsOne` | scheduler+virtualMemoryManager/submission/paging.c:320-325 | giving an unused frame to a page adds exactly that entry, exactly when the thread had none of that number |
| `PagingMoves.GivenAddsOne` | scheduler+virtualMemoryManager/submission/paging.c:336-351 | giving a frame whose page first moves out to an unused one adds exactly that entry, exactly when the thread had none of that number, also when the frame was itself unused |
| `PagingMoves.HeadComesBack` | scheduler+virtualMemoryManager/submission/paging.c:263-305 | a thread that has its first page gets it at the first user frame; the map is unchanged |
| `PagingMoves.NewHeadAddsOne` | scheduler+virtualMemoryManager/submission/paging.c:308-388 | a thread without pages gets a first page with a fresh header and nothing else changes, or NULL when all frames are used; entries stay unique exactly when no first page of it lies in the swap file |
| `PagingMoves.FreeFlagAllocates` | scheduler+virtualMemoryManager/submission/paging.c:247-250 | the comment promises NULL to mydeallocate for a thread without pages, but FREE_FLAG is 2 and the test is for 0: freeing allocates |
| `PagingMoves.GrowAddsOne` | scheduler+virtualMemoryManager/submission/myallocate.c:181-233 | growth adds one page and changes no other, exactly when the thread has no page of that number yet |
| `PagingMoves.SwapKeepsViewIff` | scheduler+virtualMemoryManager/submission/paging.c:149-191 | swapPage as written keeps the map exactly when the two frames hold the same bytes |
| `PagingMoves.MendedSwapKeepsView` | scheduler+virtualMemoryManager/submission/paging.c:163-181 | with the evicted frame's index in place of the second one it always does, and the page lands on the frame that faulted |
| `PagingMoves.SwapFindsIff` | scheduler+virtualMemoryManager/submission/paging.c:154-196 | swapPage ends the program exactly when no frame holds the page |
| `PagingMoves.UnusedUpdate` | scheduler+virtualMemoryManager/submission/paging.c:52-53 | how one changed entry changes the number of unused frames |
| `PagingMoves.ExchangeKeepsAccount` | scheduler+virtualMemoryManager/submission/paging.c:277-282 | an exchange within memory, or of two used frames, keeps both counters exact |
| `PagingMoves.GetHeadKeepsAccount` | scheduler+virtualMemoryManager/submission/paging.c:313-387 | getHead keeps both counters equal to the numbers of unused frames |
| `PagingMoves.GrowKeepsAccountIff` | scheduler+virtualMemoryManager/submission/myallocate.c:181-233 | growth keeps them exact unless it takes an unused swap frame while memory has room |
| `PagingRuns.InitAllInv` | scheduler+virtualMemoryManager/submission/paging.c:46-80 | the table initAll builds satisfies the invariant and holds no page |
| `PagingRuns.StepKeepsInv` | scheduler+virtualMemoryManager/submission/paging.c:97-387 | first pages, growth, page faults, stores, context switches and a new number for a thread without open frames keep unique entries, exact counters and isolation, and do to the map exactly what their abstract counterpart does |
| `PagingRuns.Run` | scheduler+virtualMemoryManager/submission/paging.c:97-387 | every run of these steps ends in a state with unique entries, exact counters and isolation |
| `PagingRuns.StoreStep` | scheduler+virtualMemoryManager/submission/paging.c:212-229 | a store to an open frame changes a page of the running thread or none: isolation at work |
| `PagingRuns.PagesSurvive` | scheduler+virtualMemoryManager/submission/paging.c:136-387 | over any run no page is lost, and a page changes only by stores of its own thread |
| `PagingRuns.SwitchKeepsSeals` | scheduler+virtualMemoryManager/submission/paging.c:212-229 | after a context switch every used frame of another thread is closed, in memory and in the swap file |
| `PagingRuns.SwitchProtects` | scheduler+virtualMemoryManager/submission/paging.c:212-229 | frame by frame: the switch closes the frames in memory of the thread that ran, opens those of the next one, and changes no other protection and no page |
| `PagingRuns.SwitchOpensIff` | scheduler+virtualMemoryManager/submission/paging.c:212-229 | the switch opens the next thread's frames exactly when it is not the thread that was running, or has none: otherwise it closes them |
| `PagingRuns.ExtendKeepsInvIff` | scheduler+virtualMemoryManager/submission/myallocate.c:181-233 | a round of growth keeps the invariant exactly when the frame it gives away is below the swap file |
| `PagingRuns.SwapIsolatesIff` | scheduler+virtualMemoryManager/submission/paging.c:158-185 | swapPage as written leaves isolation intact exactly when the evicted frame is not another thread's |
| `PagingRuns.AdoptKeepsInvIff` | scheduler+virtualMemoryManager/submission/my_pthread.c:29 | a new number for the running thread without mprotect_setter keeps the invariant exactly when no frame of it is open |
| `PagingRuns.RoomFindsHead` | scheduler+virtualMemoryManager/submission/paging.c:263-265 | while a frame of memory is free, no first page is in the swap file, so getHead finds it |
| `PagingRuns.GrowthIsContiguous` | scheduler+virtualMemoryManager/submission/myallocate.c:190-233 | growing a heap that is contiguous and open from the first user frame keeps it so |
| `PagingRuns.FaultBringsPage` | scheduler+virtualMemoryManager/submission/paging.c:21-35 | a fault brings the page to the frame its address names, and opens it unless it was there already |
| `PagingCases.HeadGetsIntoSwap` | scheduler+virtualMemoryManager/submission/paging.c:308-388 | a run from initAll after which the thread's first page lies in the swap file: getHead would make it a second one |
| `PagingCases.SwapLosesPage` | scheduler+virtualMemoryManager/submission/paging.c:149-191 | on two threads with one page each, swapPage as written loses the first one's bytes and opens the second one's frame to it |
| `PagingCases.PagesAreDisplaced` | scheduler+virtualMemoryManager/submission/paging.c:308-351 | the run from initAll that leads to that state |
| `PagingCases.AdoptionBreaksIsolation` | scheduler+virtualMemoryManager/mcounter.c:36-45 | malloc before the first create, from initAll: the page is open to thread 1, and its next malloc moves it to frame 1001, closed, and takes frame 1000 |
| `AddressSpace.ExchangeKeepsLayers` | scheduler+virtualMemoryManager/submission/paging.c:163-181 | bringing a page to the frame its number names exchanges two pages of that number |
| `AddressSpace.OpenMeansInPlace` | scheduler+virtualMemoryManager/submission/paging.c:21-35 | a frame at the running thread's addresses that is open holds the page the address names |
| `AddressSpace.TouchReaches` | scheduler+virtualMemoryManager/submission/paging.c:21-35 | every access to a page of the running thread finds it in place and open after at most one fault, and displaces no other page of it that is in place |
| `AddressSpace.StoreReaches` | scheduler+virtualMemoryManager/submission/paging.c:21-35 | a store at an address of page n changes page n of the running thread and no other page |
| `AddressSpace.GrowKeepsAddressable` | scheduler+virtualMemoryManager/submission/myallocate.c:181-233 | growing a heap by its next page keeps addresses meaning what they should, for all threads |
| `AddressSpace.HeadKeepsAddressable` | scheduler+virtualMemoryManager/submission/paging.c:256-387 | getHead, moving or making a first page while none lies in the swap file, keeps addresses meaning what they should, for all threads |
| `AddressSpace.SwitchKeepsAddressableIff` | scheduler+virtualMemoryManager/submission/paging.c:212-229 | a context switch leaves the next thread's pages in place, and its first page, open exactly when it is not the thread that was running, or that thread has none of them |
| `AddressSpace.HeadCanBeCopied` | scheduler+virtualMemoryManager/submission/paging.c:286-291 | the frame that getHead copies the first page from is open, and would not be after a switch from a thread to itself |
| `PageManager.PageManager.constructor` | scheduler+virtualMemoryManager/submission/paging.c:46-80 | the table, protections and counters of initAll |
| `PageManager.PageManager.RequestPage` | scheduler+virtualMemoryManager/submission/paging.c:97-133 | the two scanning loops refine the value function |
| `PageManager.PageManager.SwapEmptyPage` | scheduler+virtualMemoryManager/submission/paging.c:136-147 | the page moves and leaves zeros |
| `PageManager.PageManager.GetHead` | scheduler+virtualMemoryManager/submission/paging.c:256-400 | getHead in place refines the value function, counters and protections included |
| `PageManager.PageManager.NewHead` | scheduler+virtualMemoryManager/submission/paging.c:313-387 | its part for a thread without pages |
| `PageManager.PageManager.Grow` | scheduler+virtualMemoryManager/submission/myallocate.c:181-233 | one growth round in place refines the value function |
| `PageManager.PageManager.MprotectSetter` | scheduler+virtualMemoryManager/submission/paging.c:212-229 | the loop sets each memory frame's protection from its tid, the previous thread last |
| `PageManager.PageManager.SwapPage` | scheduler+virtualMemoryManager/submission/paging.c:149-197 | swapPage as written, in place |
| `PageManager.PageManager.Fault` | scheduler+virtualMemoryManager/submission/paging.c:149-197 | the mended exchange for a fault of the running thread, in place |
| `PageManager.PageManager.Load` | scheduler+virtualMemoryManager/submission/paging.c:21-35 | a load: a fault first if the frame is closed, then the byte of the frame |
| `PageManager.PageManager.Store` | scheduler+virtualMemoryManager/submission/paging.c:21-35 | a store, likewise |
| `BlockList.TiledIsOrdered` | scheduler+virtualMemoryManager/submission/myallocate.c:51-62 | blocks that tile a region are in address order and do not overlap |
| `BlockList.FirstFit` | scheduler+virtualMemoryManager/submission/myallocate.c:102-110 | where the traversal stops: the first fitting block, never past the last |
| `BlockList.OrganizeMemTiles` | scheduler+virtualMemoryManager/submission/myallocate.c:51-62 | splitting a block keeps the tiling |
| `BlockList.TakeBlockAddsOne` | scheduler+virtualMemoryManager/submission/myallocate.c:120-137 | taking a free block adds one live block at its address, exactly as large as asked with the rest a free block behind it, or whole when the rest cannot hold a header and more; the others stay |
| `BlockList.DeallocateTiles` | scheduler+virtualMemoryManager/submission/myallocate.c:345-395 | freeing keeps the tiling, whatever the pointer |
| `BlockList.DeallocateFreesIff` | scheduler+virtualMemoryManager/submission/myallocate.c:334-395 | freeing removes exactly that live block when its successor is free or absent and the pointer is within the limit, else changes nothing |
| `BlockList.DeallocateElsewhere` | scheduler+virtualMemoryManager/submission/myallocate.c:362-411 | freeing anything but the payload of a live block changes nothing |
| `BlockList.DeallocateUndoesSplit` | scheduler+virtualMemoryManager/submission/myallocate.c:376-390 | freeing right after an allocation that split a block restores the list |
| `BlockList.FirstFitIsLast` | scheduler+virtualMemoryManager/submission/myallocate.c:102-110 | when only the last block is free the traversal always goes to the end of the list |
| `BlockList.FreesLastLiveIff` | scheduler+virtualMemoryManager/submission/myallocate.c:334-395 | a free takes effect exactly for the last live block, within the limit; every other one changes nothing, without an error |
| `BlockList.BackwardMergeIsDead` | scheduler+virtualMemoryManager/submission/myallocate.c:366-401 | for a prev that is NULL or names a block in front, mydeallocate with its backward merge does what it does without: no block in front of a used one is ever free |
| `BlockList.HeaderInLastPageIff` | scheduler+virtualMemoryManager/submission/myallocate.c:191-199 | the last header is in the last page exactly when the last block is no larger than a page |
| `BlockList.AddPageTilesIff` | scheduler+virtualMemoryManager/submission/myallocate.c:237-248 | the first new page keeps the tiling behind a used block exactly then |
| `BlockList.MoreRoomTiles` | scheduler+virtualMemoryManager/submission/myallocate.c:250-276 | each further page, and each page for a free last block, keeps the tiling of a longer region |
| `BlockList.GrowthCanOverlap` | scheduler+virtualMemoryManager/submission/myallocate.c:191-248 | allocate 8168 bytes, then 1: the new header lies inside the first payload and no tiling is left |
| `Headers.SplitStores` | scheduler+virtualMemoryManager/submission/myallocate.c:51-62 | the bytes that organizeMem stores make the headers in memory the split list, and touch no payload |
| `Headers.TakeStores` | scheduler+virtualMemoryManager/submission/myallocate.c:120-137 | handing out a block, whole or split, on the bytes: the headers are the list of TakeBlock, every payload keeps its bytes |
| `Headers.RoomStores` | scheduler+virtualMemoryManager/submission/myallocate.c:236-276 | the stores of a growth round in a memory that is a page longer make the headers the longer list, and touch no payload |
| `Headers.MergeStores` | scheduler+virtualMemoryManager/submission/myallocate.c:374-389 | the stores of the forward merge make the headers the merged list, and touch no payload |
| `Allocator.GrowSucceedsIff` | scheduler+virtualMemoryManager/submission/myallocate.c:172-295 | growth succeeds exactly when the frames not in use cover the rounds it still needs, and takes no more; otherwise it takes them all and fails |
| `Allocator.AllocateSucceedsIff` | scheduler+virtualMemoryManager/submission/myallocate.c:112-295 | from the checks, the counters and the rounds needed: when a request succeeds and how many pages it takes |
| `Allocator.AllocateSucceedsWhen` | scheduler+virtualMemoryManager/submission/myallocate.c:112-295 | in arithmetic, for a list of which only the last block may be free: a request succeeds exactly when the last block fits, or it does not lie in the last page of memory and the free frames of memory, or those of the swap file, cover what is missing on their own; it takes just as many pages as that, a refused one none, and the pointer is behind the header of the last block or of the first new page |
| `Allocator.RefusedIff` | scheduler+virtualMemoryManager/submission/myallocate.c:141-163 | what the checks for insufficient memory decide, as one comparison |
| `Allocator.GrowPointer` | scheduler+virtualMemoryManager/submission/myallocate.c:166-294 | growth hands out the last block, grown, or the first new page behind it |
| `Allocator.LiveDisjoint` | scheduler+virtualMemoryManager/submission/myallocate.c:120-137 | live blocks of a tiled heap are disjoint and inside it |
| `Allocator.GrowLoopKeepsList` | scheduler+virtualMemoryManager/submission/myallocate.c:172-294 | the growth loop keeps the list a tiling of the pages owned by then, with only its last block free, and hands out one new block or none |
| `Allocator.AllocateKeepsList` | scheduler+virtualMemoryManager/submission/myallocate.c:64-303 | so does the whole call, for any list and any counters |
| `Allocator.PayloadIsFresh` | scheduler+virtualMemoryManager/submission/myallocate.c:120-137 | the payload handed out lies inside the heap and overlaps no live payload |
| `ThreadSpace.LoadReads` | scheduler+virtualMemoryManager/submission/paging.c:21-35 | a load through an address, with its fault if the frame is closed, reads the byte of the thread's own memory, moves pages at most, and leaves other threads' pages and counters as they were |
| `ThreadSpace.PokeBytesDid` | scheduler+virtualMemoryManager/submission/paging.c:21-35 | a store of several bytes, with its faults, changes exactly these bytes of the running thread's memory |
| `ThreadSpace.HeadStays` | scheduler+virtualMemoryManager/submission/paging.c:263-305 | getHead leaves the memory of a thread that has a first page as it is, and puts that page in place |
| `ThreadSpace.HeadStarts` | scheduler+virtualMemoryManager/submission/paging.c:313-388 | a thread without a page gets one whose bytes read as one free header, exactly when a frame is not in use |
| `ThreadSpace.GrowDid` | scheduler+virtualMemoryManager/submission/myallocate.c:181-233 | a round of growth adds one page behind the thread's memory, in place, one frame less is free, and nobody else's memory changes |
| `HeapCalls.HeadStored` | scheduler+virtualMemoryManager/submission/paging.c:256-388 | after getHead the headers in memory are the same list, or one free block for a thread that had none |
| `HeapCalls.RoundLeads` | scheduler+virtualMemoryManager/submission/myallocate.c:191-294 | one growth round on the bytes: the headers are the longer list, no payload and no other thread's page changed, and the loop is one round nearer its end |
| `HeapCalls.MallocKeeps` | scheduler+virtualMemoryManager/submission/myallocate.c:64-303 | after myallocate the list tiles exactly the pages the thread owns, only its last block is free, and one block more is live, or none |
| `HeapCalls.FreeKeeps` | scheduler+virtualMemoryManager/submission/myallocate.c:306-412 | after mydeallocate the list still tiles exactly the pages the thread owns, whatever the pointer |
| `HeapCalls.FreeStores` | scheduler+virtualMemoryManager/submission/myallocate.c:362-395 | the stores of mydeallocate make the headers what the operation on the list makes it, and touch no payload |
| `HeapCalls.FirstRoundKeepsHeapIff` | scheduler+virtualMemoryManager/submission/myallocate.c:191-233 | the first new page keeps the heap exactly when the last block is no larger than a page; else a page number is used twice |
| `HeapCalls.PrevInFrontIsHarmless` | scheduler+virtualMemoryManager/submission/myallocate.c:397-401 | a prev that names a block in front of the freed one never starts the backward merge |
| `HeapCalls.SplitLeavesPrev` | scheduler+virtualMemoryManager/submission/myallocate.c:51-62 | organizeMem leaves in prev of the new header whatever bytes lay there |
| `HeapCalls.GrowthSetsPrev` | scheduler+virtualMemoryManager/submission/myallocate.c:236-246 | growth sets prev of the header it writes to the block in front |
| `HeapCalls.FreedBlockIsLast` | scheduler+virtualMemoryManager/submission/myallocate.c:397-401 | a free that takes effect leaves a header whose next is NULL, so a backward merge, from a prev that happens to name bytes like a free header, would store through NULL |
| `Heap.Load` | scheduler+virtualMemoryManager/submission/paging.c:21-35 | loading the bytes of a field through the page manager, each access faulting first when its frame is closed |
| `Heap.Store` | scheduler+virtualMemoryManager/submission/paging.c:21-35 | storing the bytes of a field, the same way |
| `Heap.OrganizeMem` | scheduler+virtualMemoryManager/submission/myallocate.c:51-62 | the split by loads and stores in the thread's memory, with their faults: the memory is the split one |
| `Heap.FindBlock` | scheduler+virtualMemoryManager/submission/myallocate.c:98-110 | the traversal along the next fields that are loaded stops at the first fit or the last header, and leaves that header's page in place |
| `Heap.CheckMemory` | scheduler+virtualMemoryManager/submission/myallocate.c:141-163 | the three checks for insufficient memory, on loaded fields and the two counters; RefusedIff says what they decide |
| `Heap.GrowLoop` | scheduler+virtualMemoryManager/submission/myallocate.c:168-295 | the growth loop on the page manager and the bytes: list, pointer and pages are those of the value function, and the headers in memory are that list |
| `Heap.AllocateIn` | scheduler+virtualMemoryManager/submission/myallocate.c:95-303 | myallocate behind getHead, in place |
| `Heap.FindHeader` | scheduler+virtualMemoryManager/submission/myallocate.c:346-359 | the search along the next fields for the header in front of the pointer |
| `Heap.FreeBlock` | scheduler+virtualMemoryManager/submission/myallocate.c:362-402 | the consolidation by loads and stores; the load through prev included |
| `Heap.Heap.Malloc` | scheduler+virtualMemoryManager/submission/myallocate.c:64-303 | myallocate in place: afterwards the headers in the thread's pages are the value function's list, every payload byte that was live is as it was, and no byte of another thread changed |
| `Heap.Heap.Free` | scheduler+virtualMemoryManager/submission/myallocate.c:306-412 | mydeallocate in place, likewise |
| `SharedHeaps.InitWorldOk` | scheduler+virtualMemoryManager/submission/paging.c:46-80 | after initAll no thread has a page or a block, which satisfies the invariant of many heaps |
| `SharedHeaps.StepKeepsWorld` | scheduler+virtualMemoryManager/submission/myallocate.c:64-412 | any call, read, write to a payload, switch or new number keeps, for every thread at once, the headers in its pages being its list, the list tiling exactly these pages, only the last block free, and addresses meaning what they should |
| `SharedRuns.RunKeepsWorld` | scheduler+virtualMemoryManager/submission/myallocate.c:64-412 | so does any interleaving of these steps, of any number of threads |
| `SharedRuns.StepSpares` | scheduler+virtualMemoryManager/submission/paging.c:136-387 | no step changes the list, the pages or a byte of a thread that is not running, wherever its pages are moved |
| `SharedRuns.StepKeepsByte` | scheduler+virtualMemoryManager/submission/myallocate.c:64-412 | a block stays handed out in each step but its own thread's free of it, and a byte of it changes only by its own thread's store to that byte |
| `SharedRuns.PayloadHoldsLastStore` | scheduler+virtualMemoryManager/submission/myallocate.c:64-412 | over any interleaving of allocations, frees, reads, writes, faults and switches of any threads, each byte that was handed out holds what its own thread stored there last, until that thread frees the block |
| `SharedRuns.LiveBytesReached` | scheduler+virtualMemoryManager/submission/paging.c:21-35 | every byte of a live block of the running thread is at its address, with at most one fault |
| `Progress.MallocCan` | scheduler+virtualMemoryManager/submission/myallocate.c:64-303 | from every heap on which myallocate may be called there is an outcome: the lemma constructs the memory, round by round |
| `Progress.FreeCan` | scheduler+virtualMemoryManager/submission/myallocate.c:306-412 | and so for mydeallocate |
| `Progress.StepCan` | scheduler+virtualMemoryManager/submission/myallocate.c:64-412 | every step that is allowed leads to a world that satisfies the invariant again |
| `Adoption.AdoptKeepsInvIffEmpty` | scheduler+virtualMemoryManager/submission/my_pthread.c:29 | giving the running thread its number at the first create, without mprotect_setter, keeps isolation exactly when it has no page yet |
| `Adoption.AdoptKeepsWorldIff` | scheduler+virtualMemoryManager/submission/my_pthread.c:29 | and keeps all heaps in order exactly then |
| `Adoption.AdoptedHeadCovers` | scheduler+virtualMemoryManager/submission/paging.c:340-388 | the next getHead puts a new first page where the old one was, and moves the old one away, closed, under the old number |
| `Adoption.AdoptionLosesBlocks` | scheduler+virtualMemoryManager/mcounter.c:36-45 | after the first create a byte of the first page that was handed out before reads as 0 at its address, and no free under the new number gives the block back |
| `Machine.InitMachineOk` | scheduler+virtualMemoryManager/submission/my_pthread.c:10-48 | the thread library after the first create, on the memory of initAll, satisfies the joint invariant |
| `Machine.StepKeepsMachineIff` | scheduler+virtualMemoryManager/submission/my_pthread.c:301-457 | whatever the threads call and whomever schedule picks, a step keeps the scheduler's invariant, all heaps and their agreement on who runs exactly when it is not a swap from a thread with pages to itself |
| `Machine.SelfSwapIff` | scheduler+virtualMemoryManager/submission/my_pthread.c:355-454 | a call swaps a thread to itself exactly when it swaps, the thread is queued again, and the queues up to its own are empty after maintenance |
| `Machine.RunKeepsMachineIff` | scheduler+virtualMemoryManager/submission/my_pthread.c:301-457 | a run keeps all that throughout exactly when it has no such swap |
| `Machine.PayloadHoldsLastStore` | scheduler+virtualMemoryManager/submission/my_pthread.c:301-457 | under any such schedule, each byte that was handed out holds what its own thread stored there last, until that thread frees the block |
| `Directory.ParsePacked` | filesystemFUSE/submission/dirent.c:5-31 | parsing a packed block gives back the list of records that was written |
| `Directory.EncodedBytes` | filesystemFUSE/submission/dirent.c:10-24 | a record byte by byte: inode number and length little endian, file type, name and NUL |
| `Directory.CreateAppends` | filesystemFUSE/submission/dirent.c:55-79 | createDEntry appends one record exactly when at least one byte stays free behind it; otherwise it leaves the block alone |
| `Directory.DeleteRemovesFirst` | filesystemFUSE/submission/inode.c:402-430 | deleteInodeEntry removes exactly the first record with the inode number, zero-fills the tail, and the block stays packed |
| `Directory.FindLooksUp` | filesystemFUSE/submission/inode.c:169-191 | findInode agrees with lookup in the list |
| `Directory.LookupIsFirst` | filesystemFUSE/submission/inode.c:169-191 | lookup gives the number of the first record with the name, or -1 when there is none |
| `Directory.InitialNames` | filesystemFUSE/submission/dirent.c:13-24 | in a new directory findInode finds "." as the directory and ".." as its parent, and no other name |
| `Directory.OperationAgrees` | filesystemFUSE/submission/dirent.c:55-79 | each operation on bytes does to the list what its abstract counterpart does |
| `Directory.HistoryAgrees` | filesystemFUSE/submission/inode.c:395-437 | over any sequence of operations the block is the packed form of the list, and findInode sees that list |
| `Directory.DeleteUndoesCreate` | filesystemFUSE/submission/inode.c:414-424 | deleting a record just created restores the block byte for byte |
| `DirectoryBlock.InitializeDEntries` | filesystemFUSE/submission/dirent.c:5-31 | the records ".", found as the directory, and "..", found as its parent, both of type d, and zeros |
| `DirectoryBlock.CreateDEntry` | filesystemFUSE/submission/dirent.c:59-79 | the scan and append in the buffer refine the byte function |
| `DirectoryBlock.FindInode` | filesystemFUSE/submission/inode.c:172-196 | the scan in the buffer returns what lookup in the list returns |
| `DirectoryBlock.DeleteInodeEntry` | filesystemFUSE/submission/inode.c:406-436 | the scan and the shift in the buffer refine the byte function |
| `DirectoryBlock.CloseGap` | filesystemFUSE/submission/inode.c:416-418 | the copy and the zero fill close the gap of a record |
| `FileBlocks.SpliceStep` | filesystemFUSE/submission/sfs.c:546-626 | one block of the write loop extends the splice |
| `FileBlocks.Write` | filesystemFUSE/submission/sfs.c:525-626 | the write loop ends, returns the size, puts the buffer at the offset where the touched blocks have pointers of their own, and changes no other byte of any block in any case; the file size grows by the number of bytes and numBlocks by one per block left |
| `FileBlocks.SplicedFile` | filesystemFUSE/submission/sfs.c:527-627 | after a write, the bytes of the file in the range are the buffer's |
| `FileBlocks.SplicedElsewhere` | filesystemFUSE/submission/sfs.c:527-627 | the other bytes of the file are unchanged, if no pointer is used twice |
| `FileBlocks.EndBlockIsLast` | filesystemFUSE/submission/sfs.c:482-486 | the start and end block it computes bound exactly the touched blocks |
| `FileBlocks.Read` | filesystemFUSE/submission/sfs.c:381-448 | the read loop delivers bytes of the file's blocks from the offset on, in order, never more than asked or than the file has, and the smaller of the two exactly when that range touches at most two blocks |
| `FileBlocks.ReadFullIff` | filesystemFUSE/submission/sfs.c:407-441 | it delivers everything exactly when the range touches at most two blocks: later blocks subtract the running total |
| `FileBlocks.DeliveredIs` | filesystemFUSE/submission/sfs.c:407-441 | how much a longer read delivers, in closed form: the blocks it reads whole, and what its arithmetic leaves for the last one |
| `FileBlocks.ThreeBlocksFallShort` | filesystemFUSE/submission/sfs.c:430-441 | a read of three whole blocks delivers two |
| `FileBlocks.ReadStaysInFileIff` | filesystemFUSE/submission/sfs.c:381 | the bytes asked for are cut to the file size without regard to the offset: a read of at most two blocks stays in the file exactly when offset and the cut length do, and any read does if they do |
| `FileBlocks.ReadsPastTheEnd` | filesystemFUSE/submission/sfs.c:381 | 600 bytes from offset 512 of a file of 600 bytes: all 600 are delivered, 512 of them from behind the end |
| `FileBlocks.WriteThenRead` | filesystemFUSE/submission/sfs.c:480-634 | reading back a range gives a prefix of what was written, and all of it exactly for at most two blocks |
| `FileGrowth.Allocate` | filesystemFUSE/submission/sfs.c:504-522 | the loop that fills in pointers before a write refines its function, call by call of findFreeBlock; AllocatedGives says what that is |
| `FileGrowth.AllocatedGives` | filesystemFUSE/submission/sfs.c:504-522 | the step keeps every pointer in front of the block in which the file ends and behind its range, and that block's own if it has one; the others become the results of findFreeBlock, in order |
| `FileGrowth.OldPointersStay` | filesystemFUSE/submission/sfs.c:504-522 | no pointer of a block in which the file has bytes is ever replaced |
| `FileGrowth.OldBytesSurvive` | filesystemFUSE/submission/sfs.c:504-626 | after allocation and loop, every byte in front of the old end, in a block that had a pointer and outside the written range, is what it was; only the pointers that were given need be distinct |
| `FileGrowth.SfsWrite` | filesystemFUSE/submission/sfs.c:460-634 | refusal, allocation and loop together: the inode after the call is the write step's, the buffer is at the offset, and the bytes the file had outside the range are still its bytes |
| `FileGrowth.CheckMissesIff` | filesystemFUSE/submission/sfs.c:496-502 | the check lets a write past the ten direct pointers through exactly when it ends in the block behind them, or at the end of any block farther on |
| `FileGrowth.EleventhBlockIsMissed` | filesystemFUSE/submission/sfs.c:496-502 | one byte appended to a file of ten full blocks is let through |
| `FileGrowth.PlacedIff` | filesystemFUSE/submission/sfs.c:504-522 | for every inode: each touched block gets a pointer exactly when each had one or lies in the range that the step fills |
| `FileGrowth.SizeIsEndIff` | filesystemFUSE/submission/sfs.c:565 | the size after a write is the end of the written range, or the old size, exactly for an append |
| `FileGrowth.SizeIsExtentIff` | filesystemFUSE/submission/sfs.c:565 | over a run the size is the end of what has been written, after each write, exactly when all writes are appends |
| `FileGrowth.RunCounts` | filesystemFUSE/submission/sfs.c:546-626 | over any run the size is the sum of the lengths written and numBlocks grows by the blocks left behind |
| `FileGrowth.NumBlocksOfAppends` | filesystemFUSE/submission/sfs.c:546-626 | on a new file that only grew, numBlocks is the number of its blocks less one for each append that started a block |
| `FileGrowth.AppendKeepsGrown` | filesystemFUSE/submission/sfs.c:504-626 | how pointers, size and numBlocks of such a file hang together |
| `FileGrowth.AppendPlacedIff` | filesystemFUSE/submission/sfs.c:504-522 | an append to it gets a pointer for every block exactly when numBlocks is no more than size / 512, or it stays in block 0 |
| `FileGrowth.NewFilePlacedIff` | filesystemFUSE/submission/sfs.c:504-626 | a new file written by appends has a pointer for every byte exactly when it stays within block 0 or one append ends exactly where block 0 ends |
| `FileGrowth.FirstWriteMissesBlock` | filesystemFUSE/submission/sfs.c:504-522 | a first write of 513 bytes goes to a block without a pointer |
| `Bitmap.SetBit` | filesystemFUSE/submission/bitmap.c:14-15 | or-ing in 1 << l sets bit l of a 32-bit word and no other |
| `Bitmap.ClearBit` | filesystemFUSE/submission/bitmap.c:33-37 | and-ing with the complement of 1 << l clears bit l and no other |
| `Bitmap.BitIsShifted` | filesystemFUSE/submission/bitmap.c:39-45 | shift and mask find the bit, for every position of a word |
| `Bitmap.FindFirstFreeEffect` | filesystemFUSE/submission/bitmap.c:7-21 | the least free number from 1 to 31 is handed out and marked; it fails, changing nothing, exactly when these are in use, because the bit counter is not reset |
| `Bitmap.ClearBitEffect` | filesystemFUSE/submission/bitmap.c:33-37 | exactly the cleared number leaves the set in use |
| `Bitmap.NotGivenTwice` | filesystemFUSE/submission/bitmap.c:7-37 | over any run of one bitmap no number is handed out twice without a clear in between, and 0 never is |
| `Bitmap.FindFreeBlockIsFreshIff` | filesystemFUSE/submission/block.c:85-103 | a block number is fresh exactly while the first bitmap block has one: the others add no base |
| `Bitmap.FindFreeBlockEffect` | filesystemFUSE/submission/block.c:85-103 | the first of the three bitmaps with room loses its least free number from 1 to 31, which is returned as it is; no other bitmap changes, and without room nothing does |
| `Bitmap.BlockGivenTwice` | filesystemFUSE/submission/block.c:85-103 | on a new disk the first 31 calls of findFreeBlock give 1 to 31, and the 32nd gives 1 again while it is in use |
| `Bitmap.FindFirstFreeIn` | filesystemFUSE/submission/bitmap.c:7-21 | the loops over 32-bit words in place refine the function on the set in use |
| `Bitmap.ClearBitIn` | filesystemFUSE/submission/bitmap.c:33-37 | clearing a bit of the 32-bit words in place |
| `Bitmap.TestBitIn` | filesystemFUSE/submission/bitmap.c:39-45 | testBit reports exactly the set in use |
| `InodeTable.PlacesAreUnique` | filesystemFUSE/submission/inode.c:352-358 | block and index determine the inode number, and every place has a number |
| `InodeTable.UpdateInode` | filesystemFUSE/submission/inode.c:286-308 | only the entry of the inode's own number changes |
| `InodeTable.GetInode` | filesystemFUSE/submission/inode.c:141-155 | the entry of the number |
| `InodeTable.RemoveInode` | filesystemFUSE/submission/inode.c:360-393 | refused for an inode not in use or of the other kind; otherwise that entry is cleared and marked free, so that removing it again is refused |

## Left out

- SchedulerSpec.Schedule: one clock reading serves a whole call; the code reads the clock up to once per queued thread and three times more.
- ThreadSystem.StepKeepsInv: covers callers that take mutexes in ascending order, unlock only what they hold, never lock again what they hold, and exit holding nothing; `MutexSpec.RelockWaitsTwice` shows what the third rule is for.
- Library.Mutex.LockRound: for a taken mutex, requires that the caller is not already on its wait queue; `RelockWaitsTwice` shows the one way to get there, a holder that locks again with nobody queued.
- PagingRuns.StepKeepsInv: page faults are handled by the mended swapPage, first pages are asked for only when no first page lies in the swap file, and growth starts from the thread's last page and stays below frame 2048; `SwapKeepsViewIff`, `NewHeadAddsOne`, `GrowAddsOne` and `ExtendKeepsInvIff` say what happens otherwise. A thread gets a new number only while none of its frames is open (`AdoptKeepsInvIff`).
- PagingMoves.HeadComesBack: after a switch from a thread to itself the frame that getHead copies from is closed, and the copy would fault in the middle; the model exchanges the pages all the same. `HeadCanBeCopied` shows that this is the only case; runs of `SharedHeaps` and `Machine` stop before it.
- Heap.Heap.Malloc: growth starts behind a last block no larger than a page and stays below frame 2048, and no first page lies in the swap file; `FirstRoundKeepsHeapIff`, `ExtendKeepsInvIff` and `NewHeadAddsOne` say what happens otherwise.
- Heap.Heap.Free: the bytes that prev of the freed header names, if it is not NULL, do not read like a free header; `FreedBlockIsLast` says what happens otherwise when the free takes effect; one that does not would then write into what prev names. A prev outside the thread's memory, whose load faults for good, is not modelled.
- SharedHeaps.StepKeepsWorld: the same two conditions on calls; writes go to bytes that were handed out, because a write over a header makes the list whatever the bytes say; a thread gets a new number only while it has no page (`AdoptKeepsWorldIff`), and no switch is from a thread to itself (`StepKeepsMachineIff`).
- Directory.Create: a directory of one block; growth to a second block (dirent.c:85-118) reads the block at the wrong index and is not part of this model. The scans stop when fewer than a header's bytes are left, where the code reads past the buffer.
- FileBlocks.Write: every touched block has a pointer within the disk; when two share one, the contract only says that no byte outside the range changes, not which of the two is left in the block. A failing block_read or block_write ends the program or the call and is not modelled.
- FileGrowth.SfsWrite: the blocks the allocation step looks at are within the direct pointers, which the check of sfs.c:496-502 does not see to (`CheckMissesIff`): what lies behind the ten pointers of an inode is not part of this model; results of findFreeBlock are a parameter and not 0. An empty write at offset 0, whose end block wraps around, is not modelled.
- Bitmap.TestBitIn: negative bit numbers, whose shift C leaves undefined.
- setBit (bitmap.c:24-31) has no effect and has no member.
- Context switching, stacks, signals and the timer: a switch is a change of the current thread, and a tick comes only between library calls, because lock and unlock do not set inScheduler. A loop that calls schedule goes on in its next round when its thread is dispatched again.
- Freeing of an exited thread's stack, and every LIBRARYREQ path of getHead, myallocate and mydeallocate: the region of the library is not paged, and growth past it is not meaningful.
- DirectoryBlock.CloseGap: gives the result of memmove where inode.c:416 uses memcpy on overlapping ranges, whose result C leaves undefined.
- The first mprotect of the fault handler (paging.c:32), which leaves out the factor PAGE_SIZE and so opens another frame or none; the one inside swapPage opens the right one.
- The buffer page, entryNum, isOsRegion, memalign and the mprotect system call: an exchange goes through a local value, protection is one flag per frame, and frame 0 is never a user frame.
- The wrap-around of unsigned clock values; times are unbounded integers. Header fields hold numbers below 2^32, which no heap reaches.
- inodeFromPath, createInode, getChild, removal of directory trees, indirect blocks, permissions, times, and the FUSE interface; the superblock.
- The other programs and the earlier copies of the sources.
