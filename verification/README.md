# Verified model of the RFIT scheduler and its wasm runtime support

RFIT runs user functions on task threads. A function `F` belongs to a resource set `R`; a request
for it is dispatched to a task `T` from `F`'s own list, to an idle task taken from another
function, or to a new task. A task works off its request queue: native functions run in its own
thread, wasm functions on its bounded pool of worker threads, which report back through a done
queue. A wasm module lives in a linear memory with a 32-bit break, can be snapshotted and
restored, and can load further modules into its memory and function table.

The project has five parts; `dafny verify dfyconfig.toml` checks all of them.

**Scheduling.** `Scheduler` is a state machine whose steps are the locked sections of the code,
and the stretches of a thread between two of them, so dispatching threads, task threads and
workers interleave freely. `SchedulerInv`, `SchedulerTaskSteps`, `SchedulerHandSteps` and
`SchedulerRuns` prove its invariant for every step; `SchedulerTheorems`, `SchedulerLiveness` and
`SchedulerTermination` draw the consequences for every run. `PoolSizing` and `CrashRuns` settle
for which configurations the worker pool's assertions hold. The steps use the same functions
(`TListSpec`, `Pools`, `Tasks`, `LruSpec`) that the imperative classes are proved to compute:
`TSortLists` (linked nodes, index, cursor), `Lrus`, `WorkerPools`, `TaskThreads`, `TaskPools`.
`SchedulerAnswers` ties a run's answers to the executions that ended in it.
`SchedulerHistory` proves, for every run, which looks came before a task was taken or created,
while returns and accesses of other threads interleave; `SoloDispatch` proves that the interleaved
dispatch and the one of `TaskPools` are the same where nothing comes between. `TaskRounds` says
what whole rounds of a task's loops do. `Lists`, `KeyIndex` and `Sequences` are the linked list
and the sequence lemmas underneath; `SortLists` is the ascending sorted list.

**Memory.** `MemorySpec` has the break allocator with every 32-bit and 64-bit conversion written
out, `MemoryRuns` the regions granted over a run, `SnapshotSpec` snapshots and restores,
`WasmModules` the classes.

**Dynamic loading.** `DynamicLayout` (memory layout and its check), `LinkSpec` (function table and
global offset table), `DynamicLinkers` (the class, and handles), `ModuleLoads` (runs of loads mixed
with memory calls).

**Directory reading.** `DirentSpec` and `FileDescriptors` implement `fd_readdir` of WASI
snapshot_preview1; `DirectoryReads` is a caller that lists a directory with it.

**Arguments and environment.** `StringArrays` and `WasmEnvironments`, for `args_get`, `environ_get`
and their size calls of WASI snapshot_preview1. `Bytes` has machine words and byte copying.

## Findings

Where the code does not keep what it is meant to keep, the model follows the code, and a lemma
gives the exact condition under which it does:

- The pool assertions (a worker can be had for every request; a pool is fully populated when it
  is resized) fail in some run for every configuration in which a wasm function allows more
  requests at a time than another function of its R, or in which there are several Rs and some
  function is native or allows more than one request at a time (`NeverCrashesIffCompatible`).
- A task reports itself `BAD!` while completions are pending (`GoodIffNothingPending`,
  `BadWhilePending`).
- A memory request whose 32-bit sum with the break, or whose rounding, wraps around is granted
  without the bytes asked for (`GrantIffNoWrap`, `MappingIffNoWrap`); unmapping a region that wraps
  around to end at the break is refused only as shrinking too far (`UnmapTakesTop`).
- A restore to a module with less committed memory than the snapshot ends with the break above
  the snapshot unless the break was at the end of the memory (`RestoreExactIff`); a snapshot that
  cannot be restored is refused only after the break has moved (`RefusedTooLate`).
- The layout check of a loaded module accepts data that overruns its grant (`ValidateAccepts`,
  `OverrunExample`).
- A load that fails before its module is recorded shares its handle with the next one
  (`HandlesUniqueIff`), and a path gets the main module's handle 999 once 998 modules are
  recorded, or 997 and the next number was handed out (`MainHandleIff`, `MainHandleExample`).
- A path whose load threw keeps the handle it took, and later loads of it return that handle as if
  the module were loaded; if the load failed early it may be no module's (`HandleAfterThrow`).
- A name that needs a placeholder and is imported twice, or was left missing by an earlier link
  that failed, gets a slot that is never filled (`LinkedIffImportedOnce`, `TwoPlaceholdersExample`,
  `LeftOverExample`).
- Every element segment of a dynamic module is taken to start at the module's first slot, so two
  segments' exported elements can share a GOT slot (`SlotsOfSegments`, `SegmentsExample`).
- Listing a directory never ends if its first entry fits the buffer and another one does not
  (`ReadingNeverEndsIff`, `StuckExample`); it is rejected on the second call if the first entry
  does not fit, and throws on the first if the listing is empty (`ReadingEnds`, `RejectedExample`).
- Strings are written without terminators (`ReadBackIff`, `UnzeroedExample`), and looking up an
  environment variable adds it (`GetEnv`).

## Model

| member | source | states |
|---|---|---|
| CrashRuns.NeverCrashesIffCompatible | src/RFIT/T/workerPool.cpp:58-90 | for every valid configuration: no run of the scheduler crashes, by any assertion or exception, if and only if functions are compatible (same R: no wasm function's concurrency above another function's; several Rs: all wasm with concurrency 1) |
| CrashRuns.WithinR | src/RFIT/T/task.cpp:113-118 | if a wasm function shares its R with one of lower concurrency, some run reaches the invoke assertion with no worker left |
| CrashRuns.AcrossRs | src/RFIT/T/workerPool.cpp:79-90 | with two Rs and a function that is native or has concurrency other than 1, some run reaches the resize assertion with a pool not fully populated |
| PoolSizing.CompatibleNeverCrashes | src/RFIT/T/task.cpp:113-140 | with compatible functions every run keeps the scheduler invariant and every task's pool sized for a function of its R, and ends in no crash |
| PoolSizing.WorkerForEveryRequest | src/RFIT/T/workerPool.cpp:58-70 | in every reachable state a pool at least as large as the served function's concurrency has a worker for the request at hand, whatever the configuration |
| PoolSizing.RoomForOneMore | src/RFIT/T/task.cpp:71-79 | with a request at hand fewer workers are busy than the function allows requests: the bound comes from the list's cap |
| SchedulerTheorems.OnlyPoolAssertionsFail | src/RFIT/T/task.cpp:129-140 | in no interleaving is a task asked to serve two functions, a pool resized busy or above the limit, a finished request unknown, or a returned task missing from its list |
| SchedulerTheorems.Conservation | src/RFIT/T/task.cpp:65-110 | in every reachable state a task's count in its list equals reserved + queued + ICount + one being given back, equals the number of requests assigned to the task, all of them for the list's function, between 0 and its concurrency |
| SchedulerTheorems.InOneList | src/RFIT/TaskPool/TaskPool.cpp:24-44 | in every reachable state a task is in exactly one function's list, unless the dispatch-lock holder has it in hand: then it is in none and has no request |
| SchedulerTheorems.PoolBooks | src/RFIT/T/workerPool.cpp:58-77 | in every reachable state ICount = busy + done + at hand; waiting + busy within the size and disjoint; each busy worker has one request that no other has |
| SchedulerTheorems.GoodIffNothingPending | include/RFIT/core.h:385-391 | the health predicate holds exactly when the task has no request at hand and its done queue is empty |
| CrashRuns.BadWhilePending | include/RFIT/core.h:385-391 | for every configuration with a wasm function some reachable state has a task that reports itself bad |
| SchedulerTheorems.EntriesHeld | src/RFIT/T/task.cpp:83-90 | the keys of invokeEntryMap are exactly the wasm request at hand, those of busy workers and those in the done queue |
| SchedulerLiveness.AnsweredAtMostOnce | src/RFIT/T/task.cpp:91-106 | no request is answered twice, and only requests that arrived are answered |
| SchedulerAnswers.AnswersAreTrue | src/RFIT/T/task.cpp:91-106 | in every run each answer carries the status with which the execution of its request ended in that run: as the worker that was executing it reported, or in the thread of the task that had it at hand |
| SchedulerAnswers.ReportsInOrder | src/RFIT/T/task.cpp:83-110 | in every run a task answers its workers' reports in the order in which they were made, with their statuses, and those not answered yet are in its done queue |
| SchedulerAnswers.RequestsInOrder | src/RFIT/T/task.cpp:65-68 | in every run a task takes its requests up in the order in which they were pushed, and those not taken up yet are in its queue |
| SchedulerLiveness.Progress | src/RFIT/TaskPool/TaskPool.cpp:24-44 | while any request is unfinished some thread can step without another arrival: no deadlock |
| SchedulerLiveness.Quiescent | src/RFIT/T/task.cpp:174-177 | when nothing can step every request has been answered exactly once, no lock is held, every task is idle in a list with count 0, and all queues and pools are empty |
| SchedulerTermination.ComesToRest | src/RFIT/T/task.cpp:21-35 | without arrivals at most (requests so far) x (a square of the number of functions) steps can follow, in any interleaving |
| SchedulerTermination.StepAdvances | src/RFIT/TaskPool/TaskPool.cpp:46-70 | every step but an arrival lowers the rank of one request and leaves all others' |
| SchedulerRuns.RunOk | src/RFIT/T/task.cpp:65-177 | every run keeps the scheduler invariant, and can end only in one of the two pool assertions |
| SchedulerRuns.StepOk | src/RFIT/T/task.cpp:65-177 | each of the steps keeps the invariant |
| SchedulerTaskSteps.PopOk | src/RFIT/T/task.cpp:65-81 | popping a request keeps the invariant; the only crash possible is a partly populated pool |
| SchedulerTaskSteps.InvokeWOk | src/RFIT/T/task.cpp:165-168 | handing a request to a worker keeps the invariant; the only crash possible is a missing worker |
| SchedulerTaskSteps.ExecuteOk | src/RFIT/T/task.cpp:148-163 | running a native function answers the request, keeps the invariant and cannot crash |
| SchedulerTaskSteps.CollectOk | src/RFIT/T/task.cpp:83-110 | taking a finished request answers it, keeps the invariant, and its lookup cannot fail (with which status it is answered: AnswersAreTrue) |
| SchedulerTaskSteps.ReturnOk | src/RFIT/T/task.cpp:174-177 | giving a request back keeps the invariant and its assertions hold |
| SchedulerTaskSteps.FinishWOk | src/RFIT/T/workerPool.cpp:72-77 | a worker's report keeps the invariant |
| SchedulerHandSteps.StolenOk | src/RFIT/T/task.cpp:293-307 | taking an idle task away from a list keeps the invariant: a task with count 0 has nothing in progress anywhere |
| SchedulerHandSteps.AddTOk | src/RFIT/T/task.cpp:287-291 | adding the held task to the function's list keeps the invariant and its assertions hold |
| SchedulerHandSteps.GetTOk | src/RFIT/T/task.cpp:309-317 | taking an own task keeps the invariant |
| TListSpec.TakeOneMeaning | src/RFIT/T/task.cpp:309-317 | takeOne adds one to a task of maximal count among those not full, changes no other count, keeps the list well formed |
| TListSpec.NoneToTake | src/RFIT/T/task.cpp:309-313 | takeOne fails exactly when every listed task is full |
| TListSpec.TakeIdleMeaning | src/RFIT/T/task.cpp:293-307 | the back of the list is idle exactly when some listed task is |
| TListSpec.TakeIdleOk | src/RFIT/T/task.cpp:297-304 | takeIdleOne removes one task, of count 0, and no other |
| TListSpec.ReturnOneMeaning | src/RFIT/T/task.cpp:319-324 | returnOne takes one request from exactly the named task and keeps the list well formed |
| TListSpec.PassesCursorIffWasFull | src/RFIT/T/task.cpp:266-282 | a task away from the cursor that gives one back takes the branch count >= nextT's count exactly if it was full |
| TListSpec.NewOk | src/RFIT/T/task.cpp:199-230 | a new task is listed with its count in sorted place, and no other count changes |
| TListSpec.DropOk | src/RFIT/T/task.cpp:232-285 | lowering a task's count keeps the list well formed and changes no other count |
| TListSpec.NewPlace | src/RFIT/T/task.cpp:199-230 | a new idle task goes to the back, any other in front of the tasks with as many requests or fewer, but behind the first task that is not full if that has as many |
| TListSpec.DropPlace | src/RFIT/T/task.cpp:232-285 | a task that gives requests back goes in front of the tasks with as many or fewer, or, if it was the first not full and becomes idle, to the back; the others stay in their order |
| TListSpec.TakeOnePlace | src/RFIT/T/task.cpp:309-317 | the first task that is not full is taken, and the order stays |
| TSortLists.TSortList.NewT | src/RFIT/T/task.cpp:199-230 | on linked nodes, index and cursor: keeps the representation invariant and computes New of the old contents |
| TSortLists.TSortList.UpdateT | src/RFIT/T/task.cpp:232-285 | keeps the representation invariant and computes Update of the old contents, in every branch |
| TSortLists.TSortList.PutOrUpdate | src/RFIT/T/task.cpp:179-197 | keeps the representation invariant and computes Adjust of the old contents |
| TSortLists.TSortList.NewOne | src/RFIT/T/task.cpp:287-291 | lists a task with one request or none, or raises the cursor's task: computes Adjust of the old contents |
| TSortLists.TSortList.TakeIdleOne | src/RFIT/T/task.cpp:293-307 | succeeds exactly if the back is idle, removes it, never reads the end node, leaves the cursor right |
| TSortLists.TSortList.TakeOne | src/RFIT/T/task.cpp:309-317 | succeeds exactly if the cursor is not at the end and computes TakeOne of the old contents; its assertion holds |
| TSortLists.TSortList.ReturnOne | src/RFIT/T/task.cpp:319-324 | computes ReturnOne of the old contents; its assertions hold |
| SchedulerHistory.ListsFollowAccesses | src/RFIT/TaskPool/TaskPool.cpp:28-29 | in every run the R list is the accesses to it with last occurrences kept, oldest first, and so is each R's F list |
| SchedulerHistory.OwnTakenIsFullest | src/RFIT/TaskPool/TaskPool.cpp:32-33 | in every run a dispatch takes a task of its own function with the most requests among those not full, and looks elsewhere exactly if all are full |
| SchedulerHistory.CreatedAfterLooking | src/RFIT/TaskPool/TaskPool.cpp:32-39 | in every run, before a dispatch creates a task: all tasks of its function were full when it asked; each other function of its R, as then listed, had no idle task when looked at; and for each other R, as then listed, so had each function then listed for it |
| SchedulerHistory.StolenFromOldest | src/RFIT/TaskPool/TaskPool.cpp:46-70 | in every run, when a dispatch takes a task from another function: that task has count 0, all own tasks were full, and every function of the list (own R first) accessed less recently had no idle task when looked at; from another R only after all of the own R, and all of every other R accessed less recently, had none |
| SchedulerHistory.Logged | src/RFIT/TaskPool/TaskPool.cpp:46-70 | the same for every dispatch still on its way: what it has looked at so far, against what it has left to look at |
| TaskPools.VictimIsOldest | src/RFIT/TaskPool/TaskPool.cpp:46-70 | where nothing interleaves: a task is taken from the least recently dispatched function of the same R that has an idle one, else from such a function of the least recently dispatched other R that has one |
| TaskPools.CreatedIffNoneToHave | src/RFIT/TaskPool/TaskPool.cpp:32-39 | where nothing interleaves: a task is created exactly when all tasks of the function are full and no other listed function has an idle one |
| TaskPools.GetTaskOk | src/RFIT/TaskPool/TaskPool.cpp:32-39 | every way of getting a task keeps every list in order and each task in one list, and counts the request for a task of the function |
| TaskPools.GetTaskTakesFullest | src/RFIT/TaskPool/TaskPool.cpp:32-39 | an own task that is taken has the most requests among those not full; no other task's count in any list changes |
| TaskPools.OwnIffRoom | src/RFIT/TaskPool/TaskPool.cpp:32-33 | an own task is taken exactly if some own task is not full |
| SoloDispatch.DispatchIsGetTask | src/RFIT/TaskPool/TaskPool.cpp:31-41 | from any reachable state with the dispatch lock held, the scheduler's dispatch steps, if no other thread comes between, choose exactly the task GetTask says and leave exactly its lists |
| TaskPools.TaskPool.Dispatch | src/RFIT/TaskPool/TaskPool.cpp:24-44 | as one atomic step: accesses both LRU lists, gets the task GetTask says, pushes the request to its queue, and changes nothing else |
| TaskPools.TaskPool.GetTFromOtherFInSameR | src/RFIT/TaskPool/TaskPool.cpp:46-56 | takes the idle task of the first eligible function of the R, or changes nothing |
| TaskPools.TaskPool.GetTFromOtherR | src/RFIT/TaskPool/TaskPool.cpp:58-70 | takes the idle task of the first eligible function of the first other R that has one, or changes nothing |
| LruSpec.AccessKeepsLast | include/utils/lru.h:19-26 | one access to the de-duplicated history is the de-duplication of the extended history |
| LruSpec.OldestFirst | include/utils/lru.h:28-35 | the list has every key once, and an earlier key was last used earlier |
| Lrus.LRU.Access | include/utils/lru.h:19-50 | on linked nodes and index: the key leaves its place and goes to the back, the list stays the history with last occurrences kept, the index stays exact |
| Lrus.LRU.GetSortedItem | include/utils/lru.h:28-35 | returns the items in list order |
| SortLists.UpdatedMaps | include/utils/SortList.h:61-72 | putOrUpdate refines a map update: key u gets the new count, keeping its item, every other key keeps its entry; the list stays ascending with one node a key |
| SortLists.UpdatedPlace | include/utils/SortList.h:21-72 | a key whose count changes goes in front of all with as high a count, the others stay in their order; an unchanged count moves nothing |
| SortLists.SortList.PutOrUpdate | include/utils/SortList.h:61-72 | on linked nodes and index: computes the updated contents |
| SortLists.SortList.ScanForward | include/utils/SortList.h:30-38 | finds the first node from the given one with at least the count |
| SortLists.SortList.ScanBackward | include/utils/SortList.h:40-50 | finds, going back, the place behind the last node with a smaller count |
| WorkerPools.WorkerPool.Invoke | src/RFIT/T/workerPool.cpp:58-70 | reports whether the assertion holds, and gives the request to the longest waiting worker or a new one |
| WorkerPools.WorkerPool.InvokeDone | src/RFIT/T/workerPool.cpp:72-77 | the worker is no longer busy, waits behind the others, and its report is behind the others |
| WorkerPools.WorkerPool.Resize | src/RFIT/T/workerPool.cpp:79-90 | says which assertion fails, in their order; otherwise keeps the workers that wait least long |
| WorkerPools.WorkerPool.HandleIQueue | src/RFIT/T/workerPool.cpp:34-55 | a worker with a queued request empties its queue: it executes and reports exactly that one |
| Pools.InvokeOk | src/RFIT/T/workerPool.cpp:58-70 | handing out a request keeps the pool's books and makes exactly one more worker busy, with that request: the one that waits longest, or a new one when none waits |
| Pools.FinishOk | src/RFIT/T/workerPool.cpp:72-77 | a report keeps the books, frees exactly the one worker, which waits behind all others, and appends its request with its status to the done queue |
| Pools.ResizeOk | src/RFIT/T/workerPool.cpp:79-90 | resizing keeps the workers that wait least long, at most the new size, and no others |
| Pools.BusyCanProceed | src/RFIT/T/workerPool.cpp:34-55 | a busy worker can start or finish its request |
| Tasks.ServeIff | src/RFIT/T/task.cpp:112-140 | exactly when a task may turn to a function, with which exception or assertion it may not, and what it then serves, with which R and pool size |
| TaskThreads.TaskThread.CheckI | src/RFIT/T/task.cpp:129-140 | turns to the function, or throws exactly if another one is served with requests in progress |
| TaskThreads.TaskThread.AdjustResource | src/RFIT/T/task.cpp:113-120 | takes the step Serve: resizes the pool only when the task newly serves a function of another R |
| TaskThreads.TaskThread.HandleIQueue | src/RFIT/T/task.cpp:65-81 | empties the queue, one request after the other |
| TaskThreads.TaskThread.HandleInvokeDoneMsgQueue | src/RFIT/T/task.cpp:83-110 | empties the done queue, one entry after the other |
| TaskThreads.TaskThread.DoExecuteWasm | src/RFIT/T/task.cpp:165-168 | records the entry and hands the request to the pool |
| TaskThreads.TaskThread.DoExecute | src/RFIT/T/task.cpp:148-163 | answers the request and ends it |
| TaskThreads.TaskThread.DoChangeICount | src/RFIT/T/task.cpp:174-177 | lowers ICount and gives the request back to the list of the served function |
| TaskRounds.CollectsEverything | src/RFIT/T/task.cpp:83-110 | a round over the done queue answers every finished request in completion order, forgets exactly their entries, lowers ICount and the list's count by their number |
| TaskRounds.CollectsIff | src/RFIT/T/task.cpp:83-110 | collecting a report fails exactly if its request is unknown to the task or none is counted for it in the list |
| TaskRounds.HandlesIff | src/RFIT/T/task.cpp:65-81 | taking up a request fails exactly if the task may not turn to its function, no worker can be had for a wasm function, or none is counted for the task for a native one |
| TaskRounds.HandlesNative | src/RFIT/T/task.cpp:65-81 | a round over a queue for a native function, from any task: if the task may turn to the function, all requests are answered in queue order and given back, and nothing is left in progress; else the round ends there |
| TaskRounds.HandlesWasm | src/RFIT/T/task.cpp:65-81 | a round over a queue for a wasm function, from any task: if the task may turn to it, all requests go to workers, or it fails: exactly if busy workers and requests exceed the pool size it then has |
| MemorySpec.GrowKeeps | src/wavm/WAVMWasmModule.cpp:898-1009 | growing keeps the break page-aligned within committed memory within the maximum, only extends memory by zeros, throws without effect, and neither discrepancy exception can fire |
| MemorySpec.GrowsIff | src/wavm/WAVMWasmModule.cpp:911-960 | growing by some bytes succeeds exactly if the 32-bit sum with the break is page-aligned and is within the committed memory, or the runtime answers with success and the pages stay within the maximum and below 4 GiB |
| MemorySpec.GrowThrows | src/wavm/WAVMWasmModule.cpp:915-977 | which exception it is otherwise |
| MemorySpec.MapsIff | src/wavm/WAVMWasmModule.cpp:1072-1076 | the same condition for mappings, counted in pages; one of no bytes or that rounds up to 4 GiB always succeeds |
| MemorySpec.GrantIffNoWrap | src/wavm/WAVMWasmModule.cpp:911-931 | a grant starts at or above the old break and ends at the new one exactly unless the 32-bit sum wraps |
| MemorySpec.WrappingGrantExample | src/wavm/WAVMWasmModule.cpp:911-931 | a request that wraps is granted and the break falls to 0 |
| MemorySpec.MappingIffNoWrap | src/wavm/WAVMWasmModule.cpp:1072-1076 | a mapping has room for the bytes asked for exactly if neither the rounding nor the sum wraps |
| MemorySpec.RealGrowth | src/wavm/WAVMWasmModule.cpp:933-1008 | the path that asks the runtime grants exactly at the old end of memory, or fails with nothing changed, also where the page count wraps |
| MemorySpec.ShrinkKeeps | src/wavm/WAVMWasmModule.cpp:1011-1035 | shrinking lowers the break alone and returns the old one, or throws without effect, exactly for a size not in whole pages or above the break |
| MemorySpec.UnmapTakesTop | src/wavm/WAVMWasmModule.cpp:1037-1070 | unmapping lowers the break to the region's start exactly if the rounded region ends at the break, and changes nothing else; exactly when it throws, and what |
| MemorySpec.RoundUpIs | src/wasm/WasmModule.cpp:48-59 | rounding up gives the next page boundary, and 0 for sizes above 4 GiB less a page |
| MemoryRuns.RegionsApart | src/wavm/WAVMWasmModule.cpp:898-1076 | over any run of grows, mappings and whole-region unmaps within 32 bits the live regions are whole pages below the break and pairwise disjoint |
| MemoryRuns.UnmapLive | src/wavm/WAVMWasmModule.cpp:1037-1070 | unmapping a live region never throws and reclaims its space exactly if it is topmost |
| SnapshotSpec.RoundTrip | src/wasm/WasmModule.cpp:81-132 | whatever grows, shrinks, mappings, unmaps, writes, other snapshots and restores come between, restoring a restorable snapshot on the same module returns the break and all bytes below it |
| SnapshotSpec.RestoreExactIff | src/wasm/WasmModule.cpp:104-132 | on any module a restore that returns puts the bytes back, and the break exactly if the snapshot fits the committed memory or the break was at its end |
| SnapshotSpec.RestoresIff | src/wasm/WasmModule.cpp:104-132 | on any module a restore succeeds exactly for a stored, restorable snapshot of a break above zero that is within the committed memory, or for which the runtime grants pages within the limits |
| SnapshotSpec.NeverRestored | src/snapshot/SnapshotRegistry.cpp:34-37 | a snapshot taken as not restorable is never restored |
| SnapshotSpec.AbsentThrows | src/snapshot/SnapshotRegistry.cpp:8-17 | restoring throws for want of the snapshot exactly if the key is not there, without effect |
| SnapshotSpec.OvershootExample | src/wasm/WasmModule.cpp:115-121 | with less memory the break ends a page above the snapshot |
| SnapshotSpec.RefusedTooLate | src/snapshot/SnapshotRegistry.cpp:22-45 | a restore that fits throws exactly for a snapshot without a file or of size 0, and has moved the break by then |
| WasmModules.WasmModule.GrowMemory | src/wavm/WAVMWasmModule.cpp:898-931 | the method computes Grow: same results, errors and memory |
| WasmModules.WasmModule.CommitMemory | src/wavm/WAVMWasmModule.cpp:933-1008 | the method computes Commit: same results, errors and memory |
| WasmModules.WasmModule.ShrinkMemory | src/wavm/WAVMWasmModule.cpp:1011-1035 | the method computes Shrink |
| WasmModules.WasmModule.UnmapMemory | src/wavm/WAVMWasmModule.cpp:1037-1070 | the method computes Unmap |
| WasmModules.WasmModule.MmapMemory | src/wavm/WAVMWasmModule.cpp:1072-1076 | the method computes Mmap |
| WasmModules.WasmModule.Snapshot | src/wasm/WasmModule.cpp:81-102 | records the memory up to the break under the key and no other key |
| WasmModules.WasmModule.RestoreSnapshot | src/wasm/WasmModule.cpp:104-132 | the method computes Restore |
| WasmModules.WasmModule.MapSnapshotAt | src/snapshot/SnapshotRegistry.cpp:22-45 | overwrites exactly the snapshot's bytes, or refuses |
| WasmModules.SnapshotRegistry.TakeSnapshot | src/snapshot/SnapshotRegistry.cpp:47-59 | stores size and, if restorable, bytes under the key and changes no other key |
| WasmModules.SnapshotRegistry.WriteSnapshotToFd | src/snapshot/SnapshotRegistry.cpp:100-125 | gives the stored snapshot its bytes |
| WasmModules.SnapshotRegistry.DeleteSnapshot | src/snapshot/SnapshotRegistry.cpp:61-78 | removes exactly the key |
| DynamicLayout.TilesIffDataFits | src/wavm/WAVMWasmModule.cpp:526-553 | guard, stack, data, heap and guard tile the grant exactly if the data fits above the stack |
| DynamicLayout.LayoutExample | src/wavm/WAVMWasmModule.cpp:526-553 | the addresses of a layout in numbers: 86 pages, of which 34 for data and heap |
| DynamicLayout.ValidateIff | src/wavm/LoadedDynamicModule.cpp:30-77 | the check passes exactly if the heap room, cut to a signed 32-bit number, is below the module size |
| DynamicLayout.ValidateMeans | src/wavm/LoadedDynamicModule.cpp:30-77 | for any layout with its heap in the module's memory the check passes exactly if stack, data and heap follow one another, the stack pointer is the stack's last byte, stack and space below the heap are not empty, the table range is in order and the module is linked |
| DynamicLayout.ValidateAccepts | src/wavm/LoadedDynamicModule.cpp:30-77 | the check passes for all data that fits, and for all overruns up to 2 GiB |
| DynamicLayout.OverrunExample | src/wavm/LoadedDynamicModule.cpp:48-75 | a layout whose data runs past the grant is accepted |
| ModuleLoads.LoadsApart | src/wavm/WAVMWasmModule.cpp:505-624 | over any run of loads, good or failing, mixed with grows, mappings, unmappings and lookups, with fitting data and within 32 bits: each recorded module's ranges fill its own grant below the break, it is accepted if it linked, and no two share a byte, guards included, or a table slot |
| ModuleLoads.MappingsApart | src/wavm/WAVMWasmModule.cpp:898-931 | in such a run no live mapping shares a byte with a module, guards included |
| ModuleLoads.HandlesOfRunUniqueIff | src/wavm/WAVMWasmModule.cpp:647-695 | in such a run paths have distinct handles exactly if no load takes one after a load that failed early |
| ModuleLoads.RunKeeps | src/wavm/WAVMWasmModule.cpp:505-624 | the invariant behind this holds along every such run |
| DynamicLinkers.HandlesUniqueIff | src/wavm/WAVMWasmModule.cpp:647-695 | after any run of loads paths have distinct handles exactly if no load takes a handle after one that failed before its module was recorded |
| DynamicLinkers.ReturnedIs | src/wavm/WAVMWasmModule.cpp:656-695 | what each load of a run returns and leaves: 999 for the empty path, the handle there is, nothing for an absent file, an exception, or the number of the module it records |
| DynamicLinkers.SameHandleAgain | src/wavm/WAVMWasmModule.cpp:656-661 | after any run a load that returned a handle has left it to the path, and every later load of the path returns the same and changes nothing |
| DynamicLinkers.HandleAfterThrow | src/wavm/WAVMWasmModule.cpp:656-683 | a load of a path whose load threw returns a handle, which has a recorded module exactly if that load failed late or another module was recorded since |
| DynamicLinkers.SharedHandleExample | src/wavm/WAVMWasmModule.cpp:676-683 | a failed load and the next one share a handle |
| DynamicLinkers.MainHandleIff | src/wavm/WAVMWasmModule.cpp:664-679 | after any run of loads handles are at least 2, and some path has the main module's exactly if more than 997 modules are recorded, or 997 are and a path has the next number |
| DynamicLinkers.MainHandleExample | src/wavm/WAVMWasmModule.cpp:664-679 | the 998th path loaded has the main module's handle |
| DynamicLinkers.Linker.DynamicLoadModule | src/wavm/WAVMWasmModule.cpp:647-695 | cached handle, main module, refusal, early and late failure, or a new handle: the whole new state of each |
| DynamicLinkers.Linker.AddFunctionToTable | src/wavm/WAVMWasmModule.cpp:754-771 | appends the function and returns its slot |
| DynamicLinkers.Linker.AddModuleToGOT | src/wavm/WAVMWasmModule.cpp:267-291 | enters the exported elements of all segments: a new name gets the slot of its first occurrence, counted from its segment's own offset in a main module and from the module's first slot in a dynamic one; no other name enters, and no entry changes |
| LinkSpec.SlotsOfSegments | src/wavm/WAVMWasmModule.cpp:267-290 | a dynamic module's newly exported elements get different GOT slots exactly if no two segments have one at the same place |
| LinkSpec.SegmentsExample | src/wavm/WAVMWasmModule.cpp:267-290 | two segments with one exported element each get the same slot |
| DynamicLinkers.Linker.ResolveFunc | src/wavm/WAVMWasmModule.cpp:1154-1211 | returns the GOT's slot, a new slot for an exported function, or a placeholder |
| DynamicLinkers.Linker.FillGaps | src/wavm/WAVMWasmModule.cpp:587-611 | fails exactly if a placeholder is not exported; if not, fills all placeholders and no other slot, enters them in the GOT and forgets them; if so, has filled those walked through before, and forgets none |
| LinkSpec.FillMeans | src/wavm/WAVMWasmModule.cpp:587-611 | the same said of the table, for every order in which the placeholders are walked through |
| LinkSpec.AlwaysOk | src/wavm/WAVMWasmModule.cpp:587-611 | over any sequence of loads, lookups, imports and ends of links, good or bad, every placeholder there is has a slot of its own |
| LinkSpec.SlotsTakenOnce | src/wavm/WAVMWasmModule.cpp:511-521 | over any sequence of loads, lookups, imports and ends of links, good or bad, no slot is handed out twice |
| LinkSpec.EntriesStay | src/wavm/WAVMWasmModule.cpp:1157-1190 | over any such sequence no GOT entry changes or goes, and the table does not shrink |
| LinkSpec.SlotsShared | src/wavm/WAVMWasmModule.cpp:1154-1211 | two new imports of a link share a slot exactly if they are the same function of a loaded module, whatever earlier links left missing |
| LinkSpec.LinkedIffImportedOnce | src/wavm/WAVMWasmModule.cpp:584-611 | after a successful link, whatever earlier ones left missing, no placeholder is left and all imports are in the GOT; every slot handed out is filled and the GOT's exactly if no name that needs a placeholder is imported twice or is still missing from an earlier link |
| LinkSpec.TwoPlaceholdersExample | src/wavm/WAVMWasmModule.cpp:1193-1211 | a name imported twice gets two placeholders |
| LinkSpec.LeftOverExample | src/wavm/WAVMWasmModule.cpp:587-611 | after a link that failed for want of a name, the next link of that name hands out a slot that stays empty |
| LinkSpec.AddElementsFirst | src/wavm/WAVMWasmModule.cpp:280-290 | a new exported name gets the slot of its first occurrence |
| LinkSpec.AddElementsKeeps | src/wavm/WAVMWasmModule.cpp:280-290 | names already in the GOT keep their entry, and only exported elements enter |
| DirentSpec.DecodePage | src/storage/FileDescriptor.cpp:263-329 | the caller decodes exactly the complete entries of a page, whatever the rest of the buffer holds |
| DirentSpec.FittingIsMost | src/storage/FileDescriptor.cpp:297-317 | a page holds as many whole entries as have room, one behind the other |
| DirentSpec.ImageSize | src/storage/FileDescriptor.cpp:282-317 | entries take 24 bytes each and their names |
| DirectoryReads.ReadingEnds | src/wavm/io.cpp:172-211 | a caller that goes on with the cookie of the last decoded entry ends with the whole listing exactly if the directory can be opened, is not empty and every entry fits the buffer by itself (after at most one call more than entries), fails exactly if it cannot be opened or is empty, and is rejected exactly if the first entry does not fit |
| DirectoryReads.ReadingNeverEndsIff | src/storage/FileDescriptor.cpp:263-329 | it goes on for ever exactly if the first entry fits and some other does not |
| DirectoryReads.ReadDirectory | src/wavm/io.cpp:172-211 | the loop over FdReaddir and Decode computes Calls: entries decoded, outcome and iterator after n calls; the entries are the listing's first, with inode, type, name and position, and all of them when it stops as complete |
| DirectoryReads.ReadingIsComplete | src/storage/FileDescriptor.cpp:275-327 | when a call returns less than the buffer length the decoded entries together are the whole listing in order, each entry once |
| DirectoryReads.ListedInOrder | src/storage/FileDescriptor.cpp:288-327 | after any number of calls the decoded entries together are the listing up to where the iterator is |
| DirectoryReads.Stuck | src/storage/FileDescriptor.cpp:309-325 | an entry that does not fit is never passed, and the caller does not stop before it |
| DirectoryReads.StuckExample | src/storage/FileDescriptor.cpp:309-325 | room for the first entry but not for the second: no call is ever the last |
| DirectoryReads.RejectedExample | src/wavm/io.cpp:192-200 | room for the header of the only entry but not for its name: the second call is rejected |
| DirentSpec.HeaderRoundTrip | src/storage/FileDescriptor.cpp:291-307 | reading a written header back gives cookie, inode, name length and type |
| FileDescriptors.FileDescriptor.CopyDirentsToWasiBuffer | src/storage/FileDescriptor.cpp:278-329 | fills the buffer with the entries that fit, and the next header if that fits, and changes no other byte; returns the length exactly if one is left over and steps back to it; throws exactly if the directory cannot be opened or on the first call for an empty listing |
| FileDescriptors.FileDescriptor.FdReaddir | src/wavm/io.cpp:192-211 | rejects a start cookie after the start and throws on another one before it, on a directory that cannot be opened and on the first call for an empty one; otherwise one page; the iterator's state after each |
| FileDescriptors.CallerReads | src/storage/FileDescriptor.cpp:278-329 | decoding what a call returned gives the entries the iterator passed, with their cookies |
| FileDescriptors.FileDescriptor.IterNext | src/storage/FileDescriptor.cpp:241-261 | loads on first use, returns the next entry and passes it, or throws at the end or if the directory cannot be opened |
| FileDescriptors.FileDescriptor.IterBack | src/storage/FileDescriptor.cpp:221-231 | steps back one entry, or throws before the start |
| FileDescriptors.FileDescriptor.IterReset | src/storage/FileDescriptor.cpp:172-177 | starts over |
| FileDescriptors.FileDescriptor.LoadDirContents | src/storage/FileDescriptor.cpp:179-219 | the listing in order, cookies counted from one, or the exception if the directory cannot be opened, with nothing changed |
| StringArrays.WriteStringArrayToMemory | src/wavm/WAVMWasmModule.cpp:449-472 | writes each string and then its pointer in turn, also where the arrays overlap; where they do not, every string is at its place with its pointer in the array, and every other byte, terminators included, is as before |
| StringArrays.SizeIs | src/wavm/WAVMWasmModule.cpp:465-470 | strings are laid out with one byte more each than they have |
| StringArrays.ReadBackIff | src/wavm/WAVMWasmModule.cpp:449-480 | following a pointer gives the string exactly if it has no zero byte and the byte behind it was zero before |
| StringArrays.ZeroedBufferReadsBack | src/wavm/WAVMWasmModule.cpp:474-480 | from a zeroed buffer all strings without zero bytes read back |
| StringArrays.UnzeroedExample | src/wavm/WAVMWasmModule.cpp:467-469 | the string AB written over a buffer with a byte C behind it reads back as ABC |
| WasmEnvironments.WasmEnvironment.GetEnvBufferSize | src/wasm/WasmEnvironment.cpp:44-51 | the announced size is, in 32 bits, the bytes the strings of GetVars span, and key, value and two bytes for each variable |
| WasmEnvironments.WasmEnvironment.GetVars | src/wasm/WasmEnvironment.cpp:21-30 | one string for each variable, in iteration order: its key, an equals sign, its value |
| WasmEnvironments.SplitsBack | src/wasm/WasmEnvironment.cpp:25-27 | splitting such a string at its first equals sign gives key and value back if the key has none |
| WasmEnvironments.WasmEnvironment.GetEnvCount | src/wasm/WasmEnvironment.cpp:40-42 | the number of variables |
| WasmEnvironments.WasmEnvironment.AddEnv | src/wasm/WasmEnvironment.cpp:36-38 | sets the variable and no other, keys stay distinct |
| WasmEnvironments.WasmEnvironment.GetEnv | src/wasm/WasmEnvironment.cpp:32-34 | returns the value; an absent key is added with an empty one |
| WasmEnvironments.PrepareArgcArgv | src/wasm/WasmModule.cpp:212-226 | the argument list is `function.wasm` alone, and argc and the announced size agree with it |

## Left out

- Shutdown and flush of tasks, lists and pools, and killing workers: terminal paths; `flush` leaves the cursor of a task list behind.
- Passing the task to `updateT` by a reference into the node it erases: the model passes its id by value.
- Function names that repeat within one R: functions are identified by an id, and each R's list is keyed by it.
- Building without assertions: they are modelled as checked, as the build files leave them on.
- HTTP, promises, polling, logging, timing, cgroups, wasm compilation and execution: a request ends with an arbitrary status, and a response is a recorded answer.
- Fairness: the scheduler comes to rest in a bounded number of steps, but nothing says when a thread is scheduled.
- The counters workCount and dispatchCount, which nothing reads but the log.
- TaskThreads.TaskThread.HandleIQueue: workers do not report while the loop runs; their interleaving is in the scheduler. A crash ends the process, so what it leaves behind is not stated.
- TaskThreads.TaskThread.HandleInvokeDoneMsgQueue: as for the other loop, no report arrives while it runs, and what a crash leaves behind is not stated, as it ends the process.
- TaskThreads and TaskPools keep the task lists as sequences; that the linked lists compute the same is proved for each list by itself, in `TSortLists` and `Lrus`.
- TaskPools.TaskPool.Dispatch: one atomic step; what holds when others give requests back or access the lists in between is proved of the scheduler's runs, in `SchedulerHistory`.
- WorkerPools.WorkerPool.HandleIQueue: stated for a worker in a pool that keeps its books, which every reachable state does.
- Host page protection of guard regions, and that mapping a snapshot makes them writable again.
- Mapping of host files into memory, and the pointer arithmetic of native addresses.
- SnapshotSpec: file creation and writing cannot fail; the runtime's answers to growth are a parameter, and it appends zeroed pages.
- GOT.mem entries, and the filling of a module's own table elements by the runtime.
- DynamicLinkers.Linker.FillGaps: the order in which the placeholders are walked through, a hash map's, is a parameter.
- FileDescriptors: a directory is listed once, so changes to it while it is read are not seen; whether it can be opened is a parameter.
- DirentSpec.HeaderRoundTrip: the three padding bytes of the header are modelled as zero.
- StringArrays.WriteStringArrayToMemory: requires room for both arrays within the memory, which the caller of the WASI function guarantees; a write past it is left to the runtime.
- The hard-coded environment variables; the constructor takes a list.
- Resource hashing: Rs are opaque ids.
