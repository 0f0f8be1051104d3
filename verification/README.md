# Verified models of the file collector's core

Four parts of the program keep state that everything else leans on: the region
allocator, two readers/writer locks, and the list of tasks that is kept in step with a
database table. This project models each of them in Dafny, as the code is written, and
proves what it keeps over every run.

**Region allocator** (`src/memmanager.c`; `Pool*.dfy`). Blocks come from malloc once and
then wander between pools' chains and one first-fit free list; pools form a tree; each
pool's header is in its own first block. `PoolModel` gives every routine on values, with
clear and destroy in closed form; `PoolInv` to `PoolRuns` carry the invariant over all runs;
`PoolReplay`, `PoolLayout`, `PoolAccounting` and `PoolBytes` draw the consequences.
`PoolBlocks`, `PoolAllocator` and `PoolStrings` are the routines themselves: linked block
headers and pool headers updated in place, loops, the mutual recursion of clear and
destroy, each proved to leave in memory what the value model says. An address is a block
(the number of mallocs before it) and an offset behind its header; a pool's address is its
first block. The click and the two headers may have any positive size, as long as a header
takes whole clicks.

**Monitor lock** (`CThRWLock` in `src/thread.c`; `MonitorLock*.dfy`). Every stretch of code
under the mutex is one step. A thread that has been signalled but does not run yet still
counts as waiting. Barging callers and spurious wake-ups are steps like any other; both
priority modes and every reader limit are covered.

**Spinning lock** (`tAtomicRWLock` in `src/frame_utils.h` over the generic counters of
`src/myatomic_1.h`; `SpinLock*.dfy`). Every `atomic_inc` and `atomic_dec_and_test` is one
step of one thread, the counters wrap at 2^32, and a failed try is visible to everybody
until it is taken back. Both locks refine `AbstractRWLock`. Progress is claimed exactly where
there is some: a thread waiting to write can get in if and only if the lock is not doomed,
that is, unless one thread keeps a read until it gets the lock for an upgrade while another
keeps the lock, or will, until that read has gone; a thread waiting to read, if and only if
no such other thread has the lock already. Even where it can get in nothing makes it: a lock
that nobody holds can be kept from everybody, by a fair schedule too, exactly when one
thread has a failed try standing and another spins beside it.

**Task list** (`src/dbprocess.pc`; `TaskList*.dfy`, `TaskCache.dfy`). A cursor is a sequence
of rows and then an end code. `TaskList` says what the two routines make of a list,
`TaskListClass` is their code over linked nodes, and `TaskCache` puts list, watermark, table
and clock together. There the list is read as the program reads it, by looking an id up
(`src/taskitem.c:212-228`), which finds the first task with the id; ids may come twice. List
and table stay able to agree over a run exactly when every poll and load in it, complete or
broken off, is of the harmless kind, and what that is can be told before the event.

Where the code and what is said about it part, the code is followed:

- `atomic_readlock_release` reports "decrementing read count more often than incrementing
  it" for correct callers too (`src/frame_utils.h:133-136`): `SpinLockProgress.FalseReport`
  is such a run, and `SpinLockSafety.Diagnostic` says exactly when.
- The watermark of a refresh moves with every row (`src/dbprocess.pc:214`), not at the end
  of the cursor, so an error in between can hide a change for good;
  `TaskCache.InterruptedPoll` has the exact condition and `TaskCache.ErrorCanLoseAChange` a
  concrete case.
- The first load (`src/dbprocess.pc:261`, `308-309`) is also what a reload message calls
  (`src/schedule.c:268-270`), with tasks in the list, in the process that also polls
  (`src/schedule.c:350`). `TaskList.LoadAgain` says which tasks that cuts off and when an
  id comes to stand twice. For lookups by id a reload that reaches the end loses a change
  exactly when the first task's row had changed before this very tick and had not been
  polled yet (`TaskCache.CompleteReload`); whether that task is loaded again makes no
  difference. A scan of the whole list, such as the scheduler's (`src/schedule.c:484`), also
  meets a second copy of it, which stays as it was (`TaskCache.SecondCopyIsFrozen`).

## Model

| member | source | states |
|---|---|---|
| AbstractRWLock.AllowedKeepsExclusive | src/frame_utils.h:110-172 | every step allowed to a readers/writer lock leaves it with a set of readers or a single writer |
| MonitorLock.StepInv | src/thread.c:172-237 | each region of ReadLock, WriteLock and Unlock, and each spurious wake-up, keeps the counters exact (woken threads still counted as waiting) and every sleeper with something that will wake it |
| MonitorLock.RunInv | src/thread.c:172-237 | the same over every run of well-bracketed callers |
| MonitorLockRuns.ReachableInv | src/thread.c:156-237 | so in every reachable state |
| MonitorLockRuns.Safety | src/thread.c:156-237 | in every state that keeps the invariant m_iHoldingLock is -1 exactly with one writer and no reader and is else the number of readers, never above a positive limit; the waiting counters are the asleep and woken threads; Unlock's throw is reached exactly when nobody owns the lock |
| MonitorLockRuns.NoLostWakeups | src/thread.c:172-237 | a sleeping writer: the lock is held or some writer is woken; a sleeping reader: a writer holds, the limit is reached or a writer waits |
| MonitorLockRuns.ReaderGetsIn | src/thread.c:172-186 | a reader that starts or has been woken gets its read exactly when nobody writes, a positive limit is above the number of readers and, in writer-first mode, no thread waits to write; otherwise it sleeps; no other thread is touched |
| MonitorLockRuns.WriterGetsIn | src/thread.c:189-202 | a writer that starts or has been woken gets the lock exactly when nobody owns it; otherwise it sleeps |
| MonitorLockRuns.UnlockWakes | src/thread.c:205-237 | the last owner out wakes one sleeping writer, if there is one, when some thread waits to write; in writer-first mode an owner that is not the last wakes nobody while a writer waits; in all other cases every sleeping reader is woken and no writer |
| MonitorLockRuns.WriterFirst | src/thread.c:174-176 | writer-first mode: from a state with a waiting writer on, no reader acquires, barging or woken, in a run in which no writer does |
| MonitorLockRuns.ReadersOvertakeWithoutWriterFirst | src/thread.c:174-233 | without that mode the promise fails, whatever the reader limit: a reachable state in which a reader passes a waiting writer |
| MonitorLockRuns.WriterFirstIsExact | src/thread.c:174-233 | no reader passes a waiting writer in any reachable state exactly in writer-first mode |
| MonitorLockRuns.DrainIsFinite | src/thread.c:172-237 | a run without new callers and spurious wake-ups is no longer than a rank of its first state |
| MonitorLockRuns.WaitersAreServed | src/thread.c:172-202 | a waiting thread that is idle at the end of a run has owned the lock in the mode it asked for |
| MonitorLockRuns.Drain | src/thread.c:172-237 | every such run is finite, and where it can go no further the lock is free, nobody waits and every waiter has been served; both modes, every limit |
| MonitorLockRuns.StepRefines | src/thread.c:172-237 | every step is a step of the abstract lock or changes no owner |
| MonitorLockClass.CThRWLock.constructor | src/thread.c:156-162 | the three counters are zero and every thread is idle |
| MonitorLockClass.CThRWLock.ReadLockRegion | src/thread.c:172-186 | from entry or wake-up to the next wait or the return: the reader step of the state machine; from a state that keeps the invariant the read is got exactly when no thread writes, the limit allows it and in writer-first mode none waits to write |
| MonitorLockClass.CThRWLock.WriteLockRegion | src/thread.c:189-202 | the same for a writer, which gets the lock exactly when no thread owns it |
| MonitorLockClass.CThRWLock.Unlock | src/thread.c:205-237 | throws exactly when nobody holds the lock, then leaves the counters alone and the mutex locked; otherwise counts down; an owner never sees the throw, and wakes whom UnlockWakes says |
| MonitorLockClass.CThRWLock.Busy | src/thread.c:165-169 | for well-bracketed callers the destructor's check throws exactly when some thread is in the lock or waits for it |
| MonitorLockClass.DestructorThrowsIffUsed | src/thread.c:165-169 | in every state that keeps the invariant, so in every reachable one, one of the three counters is not zero exactly when some thread is not idle |
| SpinLock.LockTest | src/frame_utils.h:92-102 | the test on the lock counter succeeds exactly when nobody holds it and nobody is taking back a failed try, whatever has wrapped |
| SpinLock.CountTest | src/frame_utils.h:141-147 | the test on readcount succeeds exactly when the standing reads equal the temporary decrements |
| SpinLockSafety.StepInv | src/frame_utils.h:92-172 | every atomic operation of every thread keeps the invariant on the two counters |
| SpinLockSafety.RunInv | src/frame_utils.h:92-172 | the same over runs |
| SpinLockSafety.ReachableInv | src/frame_utils.h:92-172 | it holds in every state that fewer than 2^32 threads can reach |
| SpinLockSafety.Exclusion | src/frame_utils.h:92-153 | with fewer than 2^32 threads both counters tell modulo 2^32 what the threads do; one write section at most and never another thread's read beside it |
| SpinLockSafety.FailedTry | src/frame_utils.h:92-102 | a try on the lock fails exactly when another thread holds it or is taking back a failed try |
| SpinLockSafety.Diagnostic | src/frame_utils.h:133-165 | the release diagnostic appears exactly when the last reader leaves while a writer's failed try on readcount stands; never from an upgrade; the lock's invariant holds on |
| SpinLockSafety.CallGetsWhatItAsks | src/frame_utils.h:121-172 | from a call on, whatever the other threads do, its thread owns only what the call lets it own until it has what the call is for: a read call ends in a read, a write call in a write with no read before, an upgrade keeps its read until it writes, a downgrade its write until that is a read, a release leaves nothing |
| SpinLockSafety.VersionCounts | src/frame_utils.h:141-147 | the history counts the write sections that begin, in every run |
| SpinLockSafety.NoWriteUnderARead | src/frame_utils.h:121-172 | while a thread owns a read, also in an upgrade or after a downgrade, no write section is open and none has begun since it got the read |
| SpinLockSafety.UpgradeIsContinuous | src/frame_utils.h:157-165 | over any run from a moment the thread owned its read to the upgrade's success, the write section it begins is the very next one |
| SpinLockSafety.VersionFrozen | src/frame_utils.h:121-172 | over a run in which a thread owns its read throughout no write section begins |
| SpinLockSafety.StepRefines | src/frame_utils.h:121-172 | every atomic operation is a step of the abstract lock, upgrade and downgrade included, or changes no owner |
| SpinLockProgress.DeadlockIsPermanent | src/frame_utils.h:141-165 | a thread that has the lock and waits for readers, or is about to, and a reader waiting to upgrade stay so whatever all threads do |
| SpinLockProgress.DeadlockIsReachable | src/frame_utils.h:157-165 | with two threads or more that state is reachable |
| SpinLockLivelock.FreeLockLivelock | src/frame_utils.h:92-102 | a lock nobody holds can be kept from everybody by the calls already made exactly when one thread has a failed try standing and another spins beside it; then by a run that comes back to its first state and gives every spinner its turn; else somebody has it after at most two operations |
| SpinLockLivelock.JamIsReachable | src/frame_utils.h:92-102 | such a state is reached with two threads or more, and only then |
| SpinLockProgress.FalseReport | src/frame_utils.h:133-147 | with two threads or more, a reachable state of correct callers in which the release diagnostic appears |
| SpinLockProgress.DoomIsPermanent | src/frame_utils.h:141-165 | once one thread keeps a read until it gets the lock for an upgrade and another needs that read gone, now or when it has the lock, no thread ever writes again |
| SpinLockProgress.WriterCanEnter | src/frame_utils.h:141-165 | in every state that keeps the invariant, a thread waiting to write, upgraders included, has a run that lets it in exactly when the lock is not doomed; then one of bounded length that begins no new call |
| SpinLockProgress.ReaderCanEnter | src/frame_utils.h:121-165 | a thread waiting to read has a run that lets it in exactly when no thread keeps its read until it gets the lock for an upgrade while another has the lock and waits for that read to go; then one of bounded length that begins no new call |
| SpinLockClass.AtomicCounter.Set | src/myatomic_1.h:82-86 | the counter has the value |
| SpinLockClass.AtomicCounter.Increment | src/myatomic_1.h:87-91 | adds one modulo 2^32 |
| SpinLockClass.AtomicCounter.DecrementAndTest | src/myatomic_1.h:97-105 | subtracts one modulo 2^32 and tells whether the result is zero |
| SpinLockClass.AtomicRWLock.constructor | src/frame_utils.h:113-116 | both counters are 1 and no thread is inside |
| SpinLockClass.AtomicRWLock.EnterLock | src/frame_utils.h:121-160 | a read, write or upgrade call goes to the lock loop for that purpose and touches no counter yet |
| SpinLockClass.AtomicRWLock.SpinOnLock | src/frame_utils.h:92-102 | one turn of the loop on the lock counter is one step of the state machine |
| SpinLockClass.AtomicRWLock.SpinOnCount | src/frame_utils.h:145-146 | the same for the loop on readcount |
| SpinLockClass.AtomicRWLock.CountReaderIn | src/frame_utils.h:121-128 | the reader is counted in while it holds the lock |
| SpinLockClass.AtomicRWLock.ReleaseLock | src/frame_utils.h:106-108 | the lock is given back at the end of an acquire, a downgrade or a write section |
| SpinLockClass.AtomicRWLock.ReleaseRead | src/frame_utils.h:133-136 | the read is given back, and the diagnostic appears when the state machine says so |
| SpinLockClass.AtomicRWLock.BeginWriteSection | src/frame_utils.h:146-147 | readcount is restored and the write section begins |
| SpinLockClass.AtomicRWLock.Downgrade | src/frame_utils.h:169-172 | the writer becomes a counted reader before it gives the lock back |
| PoolInv.RoundUpIsLeast | src/memmanager.c:243-247 | palloc's size is the least multiple of a click that is at least the request |
| PoolAccounting.NoOverflow | src/memmanager.c:41-58 | for a positive request and headers below 64 KiB, palloc's 32-bit value is the mathematical one exactly when it fits in an int, and all that palloc, new_block and malloc_block compute, exactly when size, spare bytes and block header do |
| PoolSteps.NewBlockTakesFirstFit | src/memmanager.c:96-121 | new_block unlinks the first free block with room and leaves the others in order; when none has room, and only then, it takes a block of the right size from malloc |
| PoolSteps.NewBlockFacts | src/memmanager.c:96-121 | the block is empty, on no other list, and has BLOCK_MINFREE bytes to spare |
| PoolSteps.PallocInv | src/memmanager.c:240-276 | palloc keeps the invariant: one list for every block, a forest of pools, every pool filled as its own requests filled it |
| PoolBytes.LastAsked | src/memmanager.c:240-276 | palloc adds its request, as asked, and the address it returns to what the pool has served, and changes nothing of that before |
| PoolTree.ClearStep | src/memmanager.c:200-201 | destroying the first sub-pool changes nothing about what clearing the pool comes to, order of the free list included |
| PoolTree.DestroyFromClear | src/memmanager.c:210-223 | destroying in closed form is clearing, unlinking and freeing the last block |
| PoolRuns.MakeSubInv | src/memmanager.c:168-190 | make_sub_pool keeps the invariant |
| PoolRuns.ClearInv | src/memmanager.c:198-208 | clear_pool keeps it |
| PoolRuns.DestroyInv | src/memmanager.c:210-223 | destroy_pool keeps it |
| PoolRuns.NewPoolIsNew | src/memmanager.c:168-190 | a new pool never gets the address of a live one |
| PoolRuns.RunInv | src/memmanager.c:168-276 | the invariant over every run of make, palloc, clear and destroy |
| PoolRuns.ReachableInv | src/memmanager.c:35-276 | it holds in every state reachable from the start |
| PoolReplay.ReplayAfterClear | src/memmanager.c:198-276 | in every state that keeps the invariant: clear a pool and repeat its requests, and they get the same addresses in the same order, the pool its old blocks, malloc no call; whatever other pools and sub-pools did in between |
| PoolReplay.ReplayAfterDestroy | src/memmanager.c:168-276 | the same for destroying the pool and making one under any live parent or none, which gets the old pool's address |
| PoolLayout.AllocInside | src/memmanager.c:240-276 | every live allocation is click-aligned, ends inside its block's used part, and starts behind the header that block may hold |
| PoolLayout.AllocsApart | src/memmanager.c:240-276 | no two live allocations overlap, across all pools |
| PoolLayout.PoolWaste | src/memmanager.c:240-276 | the unused bytes of all blocks but the last of a pool of two or more sum to less than the rounded size of its live allocations |
| PoolAccounting.EveryBlockHasOnePlace | src/memmanager.c:62-121 | every block ever obtained is at exactly one position of exactly one list, and a free one has first_avail at its start |
| PoolAccounting.Conservation | src/memmanager.c:126-136 | the bytes of the free list and of all live pools sum to all that malloc ever gave |
| PoolAccounting.TotalChangesByMallocOnly | src/memmanager.c:41-58 | no call changes that sum but by the one block it may get from malloc |
| PoolBytes.LiveIffSpared | src/memmanager.c:168-276 | a call ends the life of an allocation exactly when it clears or destroys its pool or an ancestor; else the allocation stays where it is |
| PoolBytes.Survives | src/memmanager.c:168-276 | over any run of calls and of other clients' writes that spares it, a live allocation keeps its address and every byte |
| PoolBytes.CopySurvives | src/memmanager.c:278-346 | what was written into fresh memory is there after any such run |
| PoolBlocks.BlockStore.MallocBlock | src/memmanager.c:41-58 | a block nobody has had, empty, of the size asked for |
| PoolBlocks.BlockStore.FreeBlocks | src/memmanager.c:62-89 | the whole chain stands in front of the old free list, in its order, every block of it empty; no other link moves |
| PoolBlocks.BlockStore.NewBlock | src/memmanager.c:96-121 | the loop over the linked list finds the first fit and unlinks it alone, or calls malloc |
| PoolBlocks.BlockStore.BytesInList | src/memmanager.c:126-136 | the sum of the usable bytes of a chain |
| PoolAllocator.Allocator.MakeSubPool | src/memmanager.c:168-190 | memory afterwards is the model's, and the new pool is its parent's first sub-pool, the old first one its next sibling and linked back to it |
| PoolAllocator.Allocator.Palloc | src/memmanager.c:240-276 | NULL and nothing else for a size that is not positive; otherwise the model's state and the model's address |
| PoolAllocator.Allocator.ClearPool | src/memmanager.c:198-208 | terminates, and memory is that of the closed form: exactly the descendants gone, one block left with the original free pointer; handles of remaining pools unchanged |
| PoolAllocator.Allocator.DestroyPool | src/memmanager.c:210-223 | terminates, and memory is that of the closed form, with the sibling links closed over the gap |
| PoolAllocator.Allocator.BytesInPool | src/memmanager.c:225-228 | the bytes of the pool's chain |
| PoolAllocator.Allocator.BytesInFreeBlocks | src/memmanager.c:229-232 | the bytes of the free list |
| PoolStrings.PutText | src/memmanager.c:336-339 | strcpy onto the terminator of what is there appends |
| PoolStrings.PutAt | src/memmanager.c:282-339 | storing puts each byte in its place and touches no other |
| PoolStrings.ConcatAt | src/memmanager.c:322-339 | in the joined text each argument's characters stand where the earlier ones end |
| PoolStrings.CopyIsARun | src/memmanager.c:278-346 | a palloc and bytes stored where it said are a call and a write of PoolBytes |
| PoolStrings.PoolHeap.Pcalloc | src/memmanager.c:278-283 | as many bytes as asked for in fresh memory, each of them zero; NULL for none |
| PoolStrings.PoolHeap.Pstrdup | src/memmanager.c:285-296 | byte k of what is returned is byte k of the string up to and including its first NUL, as many are asked for, in fresh memory; NULL for NULL |
| PoolStrings.PoolHeap.Pstrndup | src/memmanager.c:298-308 | the first n bytes, NUL among them or not, and a NUL behind them, in fresh memory; NULL for NULL |
| PoolStrings.PoolHeap.Pstrcat | src/memmanager.c:310-346 | byte k of argument i, if before its first NUL, stands at the sum of the earlier lengths plus k, a NUL behind the last, as many bytes are asked for, in fresh memory; in two passes |
| TaskList.UpsertIsMapUpdate | src/dbprocess.pc:144-222 | from a proper list any rows leave a proper list, the old ids first and in order, new ids at the end in the order they came, and as a map the old one updated row by row, id 0 ignored |
| TaskList.UpsertLookup | src/dbprocess.pc:144-222 | from any list, any rows: an id finds the last row that names it, or what it found before; rows of id 0 only blank a schedule |
| TaskList.UpsertFields | src/dbprocess.pc:164-213 | after a refresh of any list, the id of a row that names a task finds the schedule, settings and flag of the last row with that id, each in its own field |
| TaskList.UpsertLeaves | src/dbprocess.pc:153-167 | an id no row has finds what it found before; rows of id 0 list nothing and of a task of id 0 only blank the schedule |
| TaskList.WatermarkIs | src/dbprocess.pc:214 | the new watermark is the time of the last row that names a task; without one it stays |
| TaskList.LoadedFields | src/dbprocess.pc:261-313 | a load leaves the first task and behind it the rows that name a task, in their order, each field in its place |
| TaskList.LoadedNothing | src/dbprocess.pc:261-313 | a load that finds no row of a task leaves the list as it was |
| TaskList.UpsertPlace | src/dbprocess.pc:153-162 | no task moves, and one that has another with its id before it is not touched |
| TaskList.UpsertTwice | src/dbprocess.pc:144-222 | refreshing again with the same rows changes nothing, whatever the list and the rows |
| TaskList.LookupIsMap | src/taskitem.c:212-228 | on a list with distinct ids a lookup is the map's |
| TaskList.LoadIntoEmpty | src/dbprocess.pc:265-315 | the first load of an empty list is what a refresh would make of it, and proper |
| TaskList.LoadAgain | src/dbprocess.pc:261-313 | a load into a list with tasks cuts off every task behind the first that is not loaded anew, and leaves ids distinct exactly when the first task's id is not loaded |
| TaskList.ShadowedStays | src/dbprocess.pc:153-162 | a task behind another with its id is out of a refresh's reach, whatever the rows |
| TaskListClass.TaskStore.FindTail | src/dbprocess.pc:134-140 | the last node, or nothing for an empty list |
| TaskListClass.TaskStore.FindItem | src/dbprocess.pc:153-162 | the first node with the id, or none |
| TaskListClass.TaskStore.ApplyFetched | src/dbprocess.pc:153-221 | one row of a refresh: overwritten in place or appended at the true end, watermark moved, and the first node with its id carries it field by field; id 0 only blanks a node of that id |
| TaskListClass.TaskStore.Refresh | src/dbprocess.pc:104-227 | the list, the watermark and the count after the whole cursor; for every id the first node that has it carries the fields of the last row that has it; old nodes stay in place; logged exactly for a code other than 1403 |
| TaskListClass.TaskStore.Load | src/dbprocess.pc:231-320 | the same for the first load, whatever is in the list: behind the first node there was, the nodes carry the rows that name a task, in order and field by field |
| TaskCache.CompletePoll | src/dbprocess.pc:141-226 | a poll that reaches the end makes every row of the table agree with what its id finds exactly when each agreed before or was due |
| TaskCache.InterruptedPoll | src/dbprocess.pc:141-214 | a poll that stops after n rows leaves everything to the next one exactly when n is 0 or every row it did not get agreed already or changed at this very tick |
| TaskCache.StaleStays | src/dbprocess.pc:141-214 | a missed row stays missed through time, other changes and all polls |
| TaskCache.MissedForGood | src/dbprocess.pc:141-214 | the same over runs without a reload |
| TaskCache.ErrorCanLoseAChange | src/dbprocess.pc:147-152 | a legal poll with an error that misses a change |
| TaskCache.InterruptedLoad | src/dbprocess.pc:263-307 | a first load that stops after n rows leaves everything to the polls exactly when n is not 0 and every row in use it did not get changed at this very tick |
| TaskCache.FirstLoad | src/dbprocess.pc:263-307 | a first load that finds a row and reaches the end brings list and table into agreement |
| TaskCache.InterruptedReload | src/dbprocess.pc:261-313 | a reload that got rows leaves everything to the polls exactly when the first task agreed or its row changed at this very tick, and every other row in use that it did not get changed at this very tick |
| TaskCache.CompleteReload | src/dbprocess.pc:261-313 | a reload that reaches the end and finds rows leaves everything to the polls exactly when the first task agreed or its row changed at this very tick, in use or not |
| TaskCache.ReloadMends | src/dbprocess.pc:261-313 | such a reload makes every row agree but the first task's, which agrees exactly if it did before |
| TaskCache.SecondCopyIsFrozen | src/dbprocess.pc:153-162 | when a reload loads the first task again, its second copy stays as the table had it then through all changes and polls until the next reload |
| TaskCache.PollingKeepsUp | src/dbprocess.pc:141-313 | over every run of changes, polls and reloads, complete or not, each row agrees with what its id finds or is due in every state exactly when every event met the condition of InterruptedPoll or InterruptedReload at its time; and then right after a poll that reaches the end all agree |

## Left out

- malloc failure and the exit it causes (`src/memmanager.c:48-52`): malloc always gives a new block.
- PoolAllocator.Allocator.Palloc: requests whose rounded size overflows an int or which need a block for which new_block's sum does; `PoolAccounting.NoOverflow` says which those are.
- PoolStrings.PoolHeap.Pcalloc: a negative size, for which the code calls memset on NULL; requests that overflow, as for palloc.
- PoolStrings.PoolHeap.Pstrndup: a negative n, for which the code calls memcpy with it; requests that overflow, as for palloc.
- PoolStrings.PoolHeap.Pstrdup: a string so long that its request overflows, as for palloc.
- PoolStrings.PoolHeap.Pstrcat: texts so long that their request overflows, as for palloc; the variable argument list is a sequence.
- The bytes of a pool's header and of a block's header are object fields, not bytes; `PoolBytes` lets every call change header bytes in any way.
- init_alloc and the permanent pool: make_sub_pool without a parent.
- Calls of the allocator from several threads at once: the code has no lock around them.
- int of another width than 32 bits, and a header that does not take whole clicks.
- Waking and waiting inside CThCond and CThMutex, and their error codes (`src/thread.c:1-153`): only what a monitor promises.
- Callers of CThRWLock that unlock what they do not own: `CThRWLock.Unlock` states what happens in one call, runs are of well-bracketed callers.
- MonitorLockClass.CThRWLock.ReadLockRegion: one pass of the wait loop, not the loop, which ends only if others let it; so too WriteLockRegion.
- SpinLockClass.AtomicRWLock.SpinOnLock: one turn of the loop of atomic_lock, not the loop, which need not end (`SpinLockLivelock.FreeLockLivelock`); so too SpinOnCount.
- Fairness of the scheduler: neither lock is claimed to let a given thread in within some time.
- Weak memory: every atomic operation is under the counters' mutex in the version the makefile selects (`src/makefile:1`); the other versions in `src/myatomic_1.h` are not modelled.
- sched_yield and its error message in atomic_lock.
- Connecting, SQL text, commit and rollback, and the mapping of SQL codes to results (`src/dbprocess.pc:14-101`).
- trim, the field widths of a task, and overlong strings: the settings of a task are opaque.
- TaskListClass.TaskStore.Refresh: an empty list and a row that names a task, where the code uses an unassigned pointer (`src/dbprocess.pc:134-140`, `217`).
- TaskListClass.TaskStore.ApplyFetched: the same for its one row.
- That task nodes are pcalloc'ed from the permanent pool: in `TaskListClass` they are new objects, which the survival theorem of `PoolBytes` justifies as long as that pool is never cleared.
- Deleted rows of the table, which neither routine can see; rows of id 0 in the table, which both skip.
- A query that does not read one snapshot: in `TaskCache` all rows of an answer are those of the table at one moment, stamped with that moment.
- The scheduler's own copy of the list, the ini-file loader, FTP and SFTP transfers, logging and regular expressions.
