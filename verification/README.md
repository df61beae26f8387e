# Memory management and scheduling of the DRM stack, verified

This project models, in Dafny, five stateful cores of a GPU driver stack, and proves what their comments and
callers rely on.

* **The buddy allocator** (`drm_buddy.c`). A device is a forest of power-of-two blocks with a cleared/dirty mark
  each, with sorted free lists per order and two counters. Blocks are nodes of an inductive tree and block
  pointers are paths in it; the class `Buddy` has the fields of the C structure and its methods follow the C
  functions loop by loop. Each is proved against functions on the tree (`FreeAt`, `Take`, `Pick`), and the laws
  are proved about those. The central one: a tree without mergeable buddies is a function of its roots and of the
  state of every chunk. Sizes are in chunks, except at the public entry points, where they are in bytes.
* **Backup and restore of page vectors** (`ttm/ttm_pool.c`). The page vector, the page allocator and the backup
  store are values; the class `Tt` is the object. What fails is a parameter of the operations, so that
  contracts speak of any sequence of failures, and runs with given failures can be written down.
* **The GPU scheduler** (`scheduler/sched_main.c`, `scheduler/sched_entity.c`). One scheduler with its run queues,
  entities and jobs; every step of its workers, its driver and its clients is a method of the class `Scheduler`.
* **The lock collector** (`drm_exec.c`), with its array, its reference counts and its retry loop.
* **LRU lists** (`ttm/ttm_resource.c`): the lists of a resource manager, the cursors on them and the ranges that
  bulk moves keep.

Files are named after what they hold: `BuddyTree`, `BuddyLists`, `BuddyCanon`, `BuddyRange`, `BuddyWork`, `BuddyBias`,
`BuddyState`, `BuddyMerge`, `BuddyRoots`, `BuddyHeld`, `BuddyTrim`, `BuddyRoom`, `BuddySpare` and `BuddyChoice` hold
the functions and laws behind `Buddy`; `BuddyRuns` has whole runs and `BuddyCases` single ones; `TtmPages` and
`SchedState` hold the values and laws behind `TtmPool` and `Sched`, and `Lru` holds one list of those in `LruManager`.
`dafny verify dfyconfig.toml` checks everything.

## Model

| member | source | states |
|---|---|---|
| BuddyTree.NaturalAlignment | src-tree/drm_buddy.c:236-317 | every block, however it came about, starts at a multiple of its own size |
| BuddyLists.InFrees | src-tree/drm_buddy.c:43-60 | the free list of an order holds exactly the free blocks of that order |
| BuddyLists.FreesAscend | src-tree/drm_buddy.c:43-60 | free lists are strictly ascending in offset |
| BuddyCanon.Canonical | src-tree/drm_buddy.c:122-164 | two canonical trees with the same roots and the same state of every chunk are the same tree |
| BuddyCanon.FreeAtMaximal | src-tree/drm_buddy.c:122-164 | freeing a block, with all the merging it causes, leaves no mergeable pair of buddies behind |
| BuddyCanon.FreeAtChunks | src-tree/drm_buddy.c:122-164 | freeing changes exactly the chunks of the block, to free with its mark |
| BuddyCanon.MergeStep | src-tree/drm_buddy.c:131-152 | one round of the merging loop leaves the final result of freeing the same |
| BuddyCanon.MergeStop | src-tree/drm_buddy.c:131-164 | the loop stops exactly where nothing can be merged |
| BuddyCanon.ForceKeepsUse | src-tree/drm_buddy.c:122-222 | merging by force keeps used chunks as they are and free chunks free |
| BuddyCanon.RollbackRestores | src-tree/drm_buddy.c:445-454 | releasing blocks that were taken from a canonical tree brings that tree back, node for node |
| BuddyRange.TakeMaximal | src-tree/drm_buddy.c:690-783 | a traversal for an exact range, complete or stopped, leaves no mergeable pair behind |
| BuddyRange.TakeTiles | src-tree/drm_buddy.c:690-783 | the blocks it takes are a gap-free ascending run from the start of the range, all of it if it is complete |
| BuddyRange.TakeChunk | src-tree/drm_buddy.c:690-783 | exactly the chunks of that run go from free to used, with their marks |
| BuddyRange.TakeUndone | src-tree/drm_buddy.c:774-783 | releasing what was taken before a failure restores the tree |
| BuddyRange.TakeSucceeds | src-tree/drm_buddy.c:690-783 | an exact range can be taken if and only if all of it is free; giving up on a contained split block once no clear chunk is left never rejects a free range |
| BuddyWork.TakeAllRoots | src-tree/drm_buddy.c:690-767 | the loop with its work list does what the recursion over the forest does |
| BuddyBias.SlotFits | src-tree/drm_buddy.c:523-530 | the rounding test passes exactly for blocks that hold an aligned sub-block of the wanted order in the range |
| BuddyBias.PickLaw | src-tree/drm_buddy.c:480-550 | with fallback, a search finds a block if and only if some free block has room; a failed one changes nothing |
| BuddyBias.PickAllRoots | src-tree/drm_buddy.c:480-550 | the search loop with its work list does what the recursion over the forest does |
| BuddyBias.OfferedIff | src-tree/drm_buddy.c:572-588 | room in the tree is room in one of its free blocks |
| BuddyMerge.MergeProgress | src-tree/drm_buddy.c:180-219 | a forced merge creates no pair on the levels that are done, and no new one on the current list |
| BuddyMerge.HighListsStay | src-tree/drm_buddy.c:336-345 | merging does not touch the free lists of larger orders, which still name roots already released |
| BuddyRoots.FreshDevice | src-tree/drm_buddy.c:283-307 | the roots partition the device, one for each bit of its size, and all of it is free and dirty |
| BuddyRoots.FallingBounds | src-tree/drm_buddy.c:336-349 | what is left from a root on is smaller than twice that root |
| BuddyRoots.RootPlace | src-tree/drm_buddy.c:336-349 | root i is the largest power of two in what is left of the device, and starts where the roots before it end |
| BuddyRoots.MergedIsFree | src-tree/drm_buddy.c:336-342 | a root without used chunks and with nothing left to merge is one free block |
| BuddyRoots.FreeSizeFull | src-tree/drm_buddy.c:350-350 | the counter of free memory equals the size exactly when no chunk is in use |
| BuddyHeld.TakenTrans | src-tree/drm_buddy.c:1034-1086 | taking blocks one after the other is taking them all; blocks taken earlier stay where they are |
| BuddyHeld.TakenReleased | src-tree/drm_buddy.c:1122-1125 | giving blocks back restores the tree, or, if merging by force was tried, which chunks are free |
| BuddyHeld.RunsMeet | src-tree/drm_buddy.c:821-848 | a run taken to the left of another run forms one run with it |
| BuddyHeld.TakeFirst | src-tree/drm_buddy.c:821-826 | the block an attempt starts with is taken, whatever follows it |
| BuddyRoom.RoomSplit | src-tree/drm_buddy.c:674-681 | splitting a block above some order keeps the room for blocks of that order, in every range |
| BuddyRoom.PickSameRoom | src-tree/drm_buddy.c:480-550 | so does the search in a range, whatever it splits |
| BuddyRoom.RoomTaken | src-tree/drm_buddy.c:1079-1085 | taking a block of the range takes exactly its size of the room |
| BuddyRoom.NoRoomLeft | src-tree/drm_buddy.c:1039-1077 | when no free block holds an aligned block of the order in the range, the room is zero |
| BuddySpare.SpareTaken | src-tree/drm_buddy.c:1079-1085 | taking a block takes exactly its size of the memory in aligned free runs of a smaller order |
| BuddySpare.FreeRunBlock | src-tree/drm_buddy.c:166-222 | once nothing is left to merge, an aligned free run lies in a free block |
| BuddySpare.DirtyIsMerged | src-tree/drm_buddy.c:1063-1064 | without cleared memory nothing is left to merge by force |
| BuddyChoice.PickLowest | src-tree/drm_buddy.c:480-550 | a search in a range ends at the lowest slot among the blocks it looks at, and finds one if and only if there is one; without fallback these are the blocks with the wanted mark, and for cleared memory only roots |
| BuddyChoice.SearchRanged | src-tree/drm_buddy.c:572-588 | with falling back, the slot has the wanted mark if the first search sees one, and else is the lowest of all |
| BuddyChoice.NoRoomStays | src-tree/drm_buddy.c:1034-1086 | room that was not there does not come back while blocks are taken |
| BuddyChoice.PicksAdded | src-tree/drm_buddy.c:1034-1086 | every block of a request was selected from the device with the blocks before it taken, and no larger one fitted |
| BuddyTrim.TrimmedTaken | src-tree/drm_buddy.c:922-943 | cutting a block down keeps the allocation it belongs to accounted for |
| BuddyTrim.TailPlaced | src-tree/drm_buddy.c:1092-1118 | trimming the last block keeps the allocation aligned and in range, less the part that is given back |
| BuddyAllocator.Buddy.ListInsertSorted | src-tree/drm_buddy.c:43-60 | inserts the block between the blocks below it and those above it |
| BuddyAllocator.Buddy.SplitBlock | src-tree/drm_buddy.c:356-388 | the block gives way to two free halves with its mark; lists and counters follow |
| BuddyAllocator.Buddy.TakeBlock | src-tree/drm_buddy.c:72-78 | the block is in use, its list and the counters follow |
| BuddyAllocator.Buddy.MergeAndFree | src-tree/drm_buddy.c:122-164 | the loop computes `FreeAt`, and a forced merge ends below a buddy that is not free |
| BuddyAllocator.Buddy.FreeBlock | src-tree/drm_buddy.c:413-422 | a freed block goes back as `FreeAt` says, and all lists and counters stay consistent |
| BuddyAllocator.Buddy.FreeBlocks | src-tree/drm_buddy.c:425-443 | a freed list goes back in turn; the counter grows by exactly its size |
| BuddyAllocator.Buddy.FreeList | src-tree/drm_buddy.c:463-470 | exactly the chunks of the blocks become free, all cleared or all dirty as the flag says; the counter of cleared memory grows by their total, or not at all |
| BuddyAllocator.Buddy.TakeRange | src-tree/drm_buddy.c:690-783 | the loop takes what `TakeAll` takes, keeps a prefix on request and gives back the rest on failure |
| BuddyAllocator.Buddy.AllocRange | src-tree/drm_buddy.c:785-799 | succeeds if and only if the range exists and is free; then ascending blocks cover exactly the range, else all is as before |
| BuddyAllocator.Buddy.SearchRange | src-tree/drm_buddy.c:572-588 | finds a free block of the order in the range exactly when some free block holds an aligned one, at the place and with the mark of `SearchRanged`; a failure leaves no split behind |
| BuddyAllocator.Buddy.MaxBlock | src-tree/drm_buddy.c:590-623 | the eligible block at the highest offset |
| BuddyAllocator.Buddy.BestFit | src-tree/drm_buddy.c:640-670 | the smallest block that is large enough, the last one among equals |
| BuddyAllocator.Buddy.PickFromLists | src-tree/drm_buddy.c:626-688 | fails only if no free block is large enough; else returns the upper end of the chosen block, and no chunk and no room is lost |
| BuddyAllocator.Buddy.ForceMerge | src-tree/drm_buddy.c:166-222 | a success yields a free block of the order overlapping the range, a failure leaves no pair below it in the range and no larger block than before; if a pair makes a block of the order, exactly the one at the highest offset is merged; use of chunks is kept |
| BuddyAllocator.Buddy.MergeAndFind | src-tree/drm_buddy.c:1063-1074 | on the whole device the last resort fails only if no aligned run of the order is free; in a range the first pair decides |
| BuddyAllocator.Buddy.Init | src-tree/drm_buddy.c:236-317 | refuses bad arguments exactly; else a valid device of all free, dirty memory, with at most 52 orders and a root per bit |
| BuddyAllocator.Buddy.MergeRoot | src-tree/drm_buddy.c:336-342 | after the forced merge the root is free if and only if none of its chunks is in use |
| BuddyAllocator.Buddy.Fini | src-tree/drm_buddy.c:327-353 | no root is stuck and no memory missing if and only if everything was given back |
| BuddyAllocator.Buddy.TryHarder | src-tree/drm_buddy.c:801-853 | a success is one gap-free interval of at least the size, less than `min_block_size` more, aligned as far as promised, around the topmost free block of the order tried that has one; a failure leaves everything as it was, and then neither side of any such block has enough |
| BuddyAllocator.Buddy.BlockTrim | src-tree/drm_buddy.c:874-944 | refuses bad arguments exactly; else blocks cover exactly the part kept, the rest is free, and the error path is dead |
| BuddyAllocator.Buddy.FillBlocks | src-tree/drm_buddy.c:1034-1086 | with or without a range, the loop completes without merging by force if and only if the free blocks have room for the request in aligned blocks of the smallest order there; on the whole device it completes if and only if aligned free runs of that order add up to the request, whatever their marks; each block is the largest that fits, with the mark and in the place the flags ask for |
| BuddyAllocator.Buddy.AllocBlocks | src-tree/drm_buddy.c:982-1125 | error codes exactly; blocks handed out are disjoint, free before, in range, aligned and of the size; requests succeed exactly as for `FillBlocks`, with blocks of the mark asked for unless no free block of the size has it, from the top or the best fitting block as the flag says, the last one cut down; a block in a range that only merging by force can make is found if and only if the first pair makes it; a failure restores the tree unless merging by force ran, and then which chunks are free |
| BuddyRuns.Run | src-tree/drm_buddy.c:236-1125 | over any run of requests the live allocations are disjoint, and they and the free memory add up to the device |
| BuddyRuns.Close | src-tree/drm_buddy.c:327-353 | after any run, freeing what is live leaves nothing for tear-down to complain about |
| BuddyCases.Alignment | src-tree/drm_buddy.c:1024-1027 | for every size and every alignment, a device on which a contiguous request succeeds, and starts at a multiple of `min_block_size` if and only if it is not smaller than that |
| BuddyCases.WrapsAround | src-tree/drm_buddy.c:494-494 | on every device, a chunk asked for from a range that ends at zero, and so has no chunk in it, is found wherever one is free behind the start |
| BuddyCases.Stops | src-tree/drm_buddy.c:1039-1039 | on every device that is all free, a contiguous request for less than the device and more than its largest power of two stops the kernel |
| BuddyCases.MarbledMerge | src-tree/drm_buddy.c:180-219 | a tree where the first pair of the range merges into a block outside it, and makes no room |
| BuddyCases.PassedOver | src-tree/drm_buddy.c:1063-1074 | a request, on such a device, for two aligned chunks of a range that fails although two are free |
| BuddyCases.DirtyFirst | src-tree/drm_buddy.c:532-533 | a request for cleared memory in a range that gets dirty memory although the range has cleared memory |
| TtmPages.StepHandle | src-tree/ttm/ttm_pool.c:526-547 | reading a handle back keeps all content and all ownership |
| TtmPages.StepSplit | src-tree/ttm/ttm_pool.c:417-429 | splitting an old page does, too |
| TtmPages.StepPage | src-tree/ttm/ttm_pool.c:548-560 | copying and freeing an old page does, too |
| TtmPages.CommitPage | src-tree/ttm/ttm_pool.c:488-507 | a filled page that is committed restores its slots, whatever the orders of the old pages were |
| TtmPages.AllRestored | src-tree/ttm/ttm_pool.c:777-784 | with all slots committed, everything is back |
| TtmPages.BackupStep | src-tree/ttm/ttm_pool.c:1036-1051 | backing up a page keeps its content, in the store |
| TtmPages.FreeRun | src-tree/ttm/ttm_pool.c:658-682 | freeing a page frees whole units, each once |
| TtmPool.Tt.RestoreCommit | src-tree/ttm/ttm_pool.c:513-582 | fills a page slot by slot and commits it, or leaves a state to go on from; a page of which nothing is filled is freed |
| TtmPool.Tt.GetPage | src-tree/ttm/ttm_pool.c:609-643 | a page that cannot be mapped is freed, any other is owned by the restore state |
| TtmPool.OrderFor | src-tree/ttm/ttm_pool.c:698-702 | the largest order up to the one given that fits what is left |
| TtmPool.Tt.AllocPages | src-tree/ttm/ttm_pool.c:704-799 | success restores all content and clears the restore state, an error keeps all content and all progress; it succeeds if the smallest pages can be had; the pages asked for are the largest that fit, and smaller ones only after a refusal |
| TtmPool.Tt.RestoreAndAlloc | src-tree/ttm/ttm_pool.c:840-877 | after any failures, the first success leaves every populated slot with its content, and a call in which nothing fails succeeds, from whatever state; no call loses progress; the restore state is cleared if and only if something was left to allocate; a call with a finished state does nothing and succeeds |
| TtmPool.Tt.FreeRange | src-tree/ttm/ttm_pool.c:658-682 | every unit and handle in the range is released, once |
| TtmPool.Tt.DropBackedUp | src-tree/ttm/ttm_pool.c:903-945 | from any state of a backup or restore, even one that began with the restore state of an earlier cycle, everything owned is released once and nothing of others is touched |
| TtmPool.Tt.Backup | src-tree/ttm/ttm_pool.c:968-1057 | exactly the pages up to the first one there is no room for are backed up, and their number is returned; all content is in a page or in the store; refused exactly if the object is backed up |
| TtmPool.Tt.TtBackup | src-tree/ttm/ttm_tt.c:284-299 | the same, and the object is backed up if anything was |
| TtmPool.Tt.TtRestore | src-tree/ttm/ttm_tt.c:301-312 | the same as for the pool, and the mark goes with success |
| TtmPool.Tt.Cycle | src-tree/ttm/ttm_pool.c:840-1057 | backup and any number of restores end with all content back, or with nothing left behind; with all content back if nothing fails in one restore, but for the caching attributes if another one follows |
| TtmPool.Tt.NextCycle | src-tree/ttm/ttm_pool.c:872-873 | a later restore that succeeds has brought the content back if and only if the earlier cycle cleared the restore state |
| TtmPool.EndsUncleared | src-tree/ttm/ttm_pool.c:872-873 | a cycle that does not clear it |
| TtmPool.Loses | src-tree/ttm/ttm_pool.c:872-873 | after that cycle, a restore that succeeds with a slot still naming the backup |
| TtmPool.NoSecondTry | src-tree/ttm/ttm_pool.c:980-981 | a backup that has taken anything is refused when tried again |
| SchedState.ChargeUpdate | src-tree/scheduler/sched_main.c:396-410 | the sum of credits follows a change of one job |
| SchedState.OrderLaunched | src-tree/scheduler/sched_entity.c:592-604 | a job that goes to the hardware is the newest of its entity to do so, since queues are in the order of pushing |
| SchedState.OrderCondemned | src-tree/scheduler/sched_entity.c:245-262 | a killed job is linked to the newest job on the hardware or to a killed one before it |
| SchedState.KilledAfterNewest | src-tree/scheduler/sched_entity.c:245-262 | in every state no killed job has signalled before the newest job of its entity that went to the hardware has |
| SchedState.TreeUpdated | src-tree/scheduler/sched_main.c:159-177 | moving an entity keeps its run queue sorted by submit time, with every entity on it once |
| Sched.Scheduler.JobDone | src-tree/scheduler/sched_main.c:396-410 | the finished fence signals, the credits leave the count, all invariants hold |
| Sched.Scheduler.FreeWorker | src-tree/scheduler/sched_main.c:1184-1196 | frees the first pending job if and only if it has finished, which was never freed before |
| Sched.Scheduler.TimeoutBegin | src-tree/scheduler/sched_main.c:539-560 | takes the first pending job off the list and keeps it for the handler |
| Sched.Scheduler.TimeoutEnd | src-tree/scheduler/sched_main.c:562-576 | frees that job exactly if stopping left it to the handler, after it has finished |
| Sched.Scheduler.Stop | src-tree/scheduler/sched_main.c:594-664 | the pending list keeps exactly the unfinished jobs in order, without callbacks and credits; the others are freed, but for the job named; nothing else changes |
| Sched.Scheduler.Resubmit | src-tree/scheduler/sched_main.c:724-757 | pending jobs get the new fences, without callbacks, and nothing else changes |
| Sched.Scheduler.Start | src-tree/scheduler/sched_main.c:678-704 | every pending job gets its callback and credits back or is done, with the error the code gives it; the limit holds even half way |
| Sched.Scheduler.PassDependencies | src-tree/scheduler/sched_entity.c:565-586 | ends waiting because of a dependency that has not signalled, or with every dependency signalled, of the same entity, or of a scheduled job |
| Sched.Scheduler.DependencySignals | src-tree/scheduler/sched_entity.c:451-473 | the entity waits no more |
| Sched.Scheduler.CanQueue | src-tree/scheduler/sched_main.c:120-139 | a job above the limit is cut down to it; fits exactly if the count stays within the limit |
| Sched.Scheduler.SelectEntity | src-tree/scheduler/sched_main.c:1080-1096 | the oldest ready head job of the highest priority that has one, or nothing if that one does not fit |
| Sched.Scheduler.UpdateFifo | src-tree/scheduler/sched_main.c:159-177 | the entity is in its tree under the new time |
| Sched.Scheduler.RunWorker | src-tree/scheduler/sched_main.c:1203-1252 | a job goes to the hardware only if its entity comes first, its credits fit and its dependencies allow it; if none does, the first entity lacks credits or has a dependency that has not signalled, or there is none; the entity remembers the job, and no other changes |
| Sched.Scheduler.Push | src-tree/scheduler/sched_entity.c:685-731 | the job is last in its queue; a first job puts the entity into its tree under its submit time |
| Sched.Scheduler.Kill | src-tree/scheduler/sched_entity.c:228-265 | the queued jobs are chained up in push order, the first behind the newest job of the entity that went to the hardware; no other job and no other entity changes |
| Sched.Scheduler.KillStep | src-tree/scheduler/sched_entity.c:187-225 | goes on to the first dependency that has not signalled |
| Sched.Scheduler.KillWork | src-tree/scheduler/sched_entity.c:175-183 | the finished fence signals -ESRCH after that of the job before and all dependencies; the job is freed, for the first time |
| Sched.Scheduler.RunAll | src-tree/scheduler/sched_main.c:396-1252 | in every reachable state credits are the sum over running jobs and within the limit, jobs are freed at most once and only when finished, finished implies scheduled, jobs of an entity go to the hardware in push order, and trees and kill chains are in order |
| SchedDeps.AddDependency | src-tree/scheduler/sched_main.c:867-900 | one fence per context, never an earlier one than before; fails if and only if the table has to grow and cannot |
| SchedDeps.AddAll | src-tree/scheduler/sched_main.c:867-900 | whatever is added in whatever order, waiting for the stored fences is waiting for all; succeeds if memory does not run out |
| Exec.Collector.constructor | src-tree/drm_exec.c:83-96 | nothing held, and the dummy that makes the loop start |
| Exec.Collector.Track | src-tree/drm_exec.c:145-163 | a reference and an entry, or no change at all |
| Exec.Collector.Cleanup | src-tree/drm_exec.c:125-141 | whether to loop again; after a contention nothing is held but the reference on the contended object |
| Exec.Collector.Fini | src-tree/drm_exec.c:106-114 | no reference and no lock is left |
| Exec.Collector.LockContended | src-tree/drm_exec.c:166-198 | the contended object is locked first, and what was locked at that time is logged: nothing |
| Exec.Collector.LockObject | src-tree/drm_exec.c:211-252 | after a success the object is locked if and only if it was not the prelocked one or was still locked; every error has exactly its cause, and what is locked, prelocked and contended afterwards is given for each |
| Exec.Collector.UnlockObject | src-tree/drm_exec.c:264-279 | the object leaves the array, all others stay in order; the prelocked object is out of step exactly if it was this one |
| Exec.Collector.PrepareObject | src-tree/drm_exec.c:293-309 | with slots, the same as locking; without, it fails, and an object that was locked for it is unlocked again while all others stay |
| Exec.LockAll | src-tree/drm_exec.c:28-49 | the documented retry loop ends with exactly the wanted objects locked, or with an error; contention alone only delays it: without errors it ends as soon as one pass meets none |
| Exec.Perform | src-tree/drm_exec.c:106-309 | every operation keeps the books: references are entries plus contended plus prelocked, locks are the entries, no slow path was taken with a lock held |
| Exec.Run | src-tree/drm_exec.c:58-309 | the collector that any run leaves has its books in order, so that `Fini` gives everything back |
| Exec.Unlocked | src-tree/drm_exec.c:219-223 | a collector whose prelocked object is not locked, ready for a request that succeeds without locking it |
| Lru.List.RangeTail | src-tree/ttm/ttm_resource.c:213-222 | the resource becomes the last of its range; all ranges stay what they should be, nothing else moves |
| Lru.List.Add | src-tree/ttm/ttm_resource.c:225-237 | the resource joins the range at its end |
| Lru.List.Delete | src-tree/ttm/ttm_resource.c:240-256 | the resource leaves its range, which stays contiguous: one inside goes behind the range, nothing else moves |
| Lru.List.MoveToTail | src-tree/ttm/ttm_resource.c:295-316 | to the end of its range, or of the list if it has none |
| Lru.List.MoveBulkTail | src-tree/ttm/ttm_resource.c:50-66 | a cursor of a range goes right behind it, if it is not empty, and is detached |
| Lru.SegmentAll | src-tree/ttm/ttm_resource.c:174-175 | moving a range without cursors inside keeps all ranges |
| LruManager.Manager.CursorNext | src-tree/ttm/ttm_resource.c:670-695 | the next resource behind the cursor on its list and all later ones; without one the cursor stays on the last list, attached as it was, with a priority that names no list |
| LruManager.Manager.CursorFirst | src-tree/ttm/ttm_resource.c:649-660 | the first resource of the lists from the cursor's priority on |
| LruManager.Manager.CursorInit | src-tree/ttm/ttm_resource.c:93-101 | the cursor starts at priority zero |
| LruManager.Manager.CursorFini | src-tree/ttm/ttm_resource.c:111-116 | the cursor is on no list and attached to nothing |
| LruManager.Manager.AdjustCursors | src-tree/ttm/ttm_resource.c:69-75 | every cursor of the bulk move goes right behind its range, and only these are detached; works if and only if none has gone past the last list |
| LruManager.Manager.BulkTail | src-tree/ttm/ttm_resource.c:156-178 | under that condition, on every list its resources go last in their order, everything else keeps its order, and a cursor of the bulk move is left behind exactly what was before the end of the range and is not part of it |
| LruManager.Run | src-tree/ttm/ttm_resource.c:40-695 | over any run ranges are contiguous and hold exactly their members, cursors inside are attached, and an attached cursor is on the list its priority names if and only if the priority names one |
| LruManager.PastTheEnd | src-tree/ttm/ttm_resource.c:687-690 | a cursor that has gone past the last list and a bulk move that fails on it, for any number of lists |

## Findings

Where the code does not do what its comments say, or what a caller would expect, the model does what the code does.

* **A restore that is resumed can leave its state behind** (`ttm_pool.c:872-873`). A call that finds nothing left to
  allocate returns without clearing `tt->restore`. This happens if and only if the call before it had committed all
  slots, or all but the page being filled (`RestoreAndAlloc`). The next cycle then backs pages up, and its restore
  returns 0 with slots still naming the backup (`NextCycle`, an if-and-only-if; `EndsUncleared` and `Loses` get there).
* **A partial backup cannot be retried** (`ttm_pool.c:980-981`), although the comment of `ttm_pool_backup` says so:
  `ttm_tt_backup` has set the mark that makes the next call return -EINVAL (`NoSecondTry`).
* **A cursor that has passed the last list stays attached** (`ttm_resource.c:687-690`), with
  `priority == TTM_MAX_BO_PRIORITY`. A bulk move that adjusts it looks up a range that does not exist. It works if and
  only if no attached cursor is in that state (`BulkTail`); `PastTheEnd` gets there. `ttm_bo_lru_cursor_next` gives up
  the lock in that state; `ttm_resource_cursor_fini` ends it.
* **Unlocking the prelocked object by hand** (`drm_exec.c:219-223`, `264-279`) makes a later `drm_exec_lock_obj` of it
  return 0 without the lock. That is the only way to get there (`LockObject`, an if-and-only-if; `Unlocked`).
* **A request may stop the kernel** (`drm_buddy.c:1039`): rounding a contiguous request up, or to `min_block_size`, can
  exceed the largest order of a device whose size is not a power of two. This happens if and only if the logarithm of
  the rounded size is above it (`AllocBlocks`); `Stops` gives the whole family of contiguous ones.
* **Contiguous requests replace `min_block_size`** (`drm_buddy.c:1024-1027`), documented as the alignment. The start is
  a multiple of it on every device and in every state if and only if it is not larger than the request: `AllocBlocks`
  promises the smaller one of `min_block_size` and the largest power of two in the request, and for every larger
  `min_block_size` `Alignment` gives a device and a request that is not aligned to it.
* **A range that ends at zero** (`drm_buddy.c:494`) is the whole device behind its start, since the end is decremented.
  A ranged allocation lies in its range if and only if the end is not zero (`AllocBlocks`; `WrapsAround`).
* **Merging by force for a range gives up early** (`drm_buddy.c:180-219`, `1063-1074`). It stops at the first pair that
  makes a block of the order, although its buddy may lie outside the range. If there is such a pair, the request for a
  block succeeds if and only if merging that one makes room in the range (`AllocBlocks`). `PassedOver` fails
  although the range has the memory. Without a range, on the whole device, no request fails for this reason.
* **Cleared memory in a range** (`drm_buddy.c:532-533`). The search for a marked block skips split blocks, which count
  as dirty, so a ranged request for cleared memory sees only roots that are cleared as a whole. It gets cleared memory
  if and only if there is such a root or the lowest slot of all happens to be cleared (`AllocBlocks`, `PickLowest`);
  `DirtyFirst` gets dirty memory although the range has cleared memory.
* Three checks are proved never to fire: the one about buddies with the same mark (`drm_buddy.c:200`), the one about an
  order that is too small (`drm_buddy.c:1040`), and the one about a parent fence of a killed job
  (`sched_entity.c:181`). The error path of trimming (`drm_buddy.c:934-940`) is dead.

## Left out

- Failing allocations of block nodes and the undo paths they lead to in `drm_buddy.c`; the packed block header; 64-bit wrap-around, but for the range that ends at zero; printing.
- BuddyAllocator.Buddy.AllocBlocks: what merging by force adds is not characterised for several blocks in a range, for a range without a pair that makes a block of the order in one step, or for a `start` and `end` short of the device without the range flag.
- BuddyAllocator.Buddy.TryHarder: how much of the right side an attempt has filled when it turns to the left is given between the size of the block and the run it belongs to, not exactly.
- The caller's list of blocks is empty on entry to `drm_buddy_alloc_blocks`; the model returns the blocks instead of appending them.
- Caching attributes, DMA mapping, the pools and the shrinker of `ttm_pool.c`, and purging; `ttm_pool_alloc` without a restore. Frame numbers are not used twice, and a handle is its index plus one.
- TtmPool.Tt.AllocPages: while restoring; without a restore state it fills an empty vector, with nothing to keep.
- TtmPool.Tt.Backup: without purging, which frees the pages and has no content to keep.
- Several schedulers, moving entities between them, the round-robin policy, scores, timers, karma and error marks of entities. Dependencies on other schedulers are external fences.
- Sched.Scheduler.RunAll: the run worker is one step. In the code a kill can come between its choice of an entity and `sched_entity.c:612-623`, which puts an entity with more jobs back into its tree without looking at `stopped`; the tree then names an entity that was killed, and "stopped means not in a tree" does not hold. Kills that overlap the run worker like this are not among the steps.
- Sched.Scheduler.Stop: stopping and starting alternate: a second stop would wait for fences of pending jobs that nobody signals any more (`sched_main.c:643`). Also, the handler passes the job it took at most once, as drivers do; timeouts do not start while stopped, since starting is what arms the timer again.
- SchedDeps.AddDependency: sequence numbers do not wrap around.
- Memory barriers and locks: operations are atomic steps under the locks the code takes. Arming and pushing a job are one step.
- Reference counts of fences and jobs; `drm_sched_job_add_resv_dependencies`.
- `drm_exec_prepare_array`, which is a loop over `drm_exec_prepare_obj`.
- Lru.List.Add: a resource that joins an empty range is on the list, as for `LruManager.Manager.AddTo`.
- LruManager.Run: one resource manager. Lists of other managers are independent, and a bulk move treats them alike.
- LruManager.Manager.AddTo: a resource that joins an empty range is on its list. Unpinning can add one that is not; it then stays where it is until the next bulk move.
- LruManager.Manager.CursorFirst: for a cursor whose priority names a list; the code does not reset the priority.
- `ttm_lru_bulk_move_fini`, usage counters, and the rest of `ttm_resource.c`; the other files of `ttm/`; everything under `amd/`.
