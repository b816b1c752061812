# A verified model of the temple-os kernel core

temple-os is an x86-64 multiprocessor kernel written in C. This project models the parts of it
whose correctness is hardest to see from the code, and proves what they promise:

- the **kernel buddy allocator**: in-page free lists, the shadow byte per page and the mask of
  non-empty lists, against a pool of blocks on values;
- the **four-level page tables** (Intel SDM Vol. 3A, section 4.5): mapping, unmapping, lookup, the
  deep copy of fork and its teardown, against a flat translation; and the **TLB shootdown**
  protocol (section 4.10.5) over all interleavings;
- the **scheduler, mutexes and the exit/wait handshake** as one state machine over all
  interleavings on any number of CPUs, with the linked queues underneath;
- the **ext2 block index** (direct, single, double and triple indirect): lookup, growth, truncation;
- the **block cache**: recency list, hash chains and write-back, against a plain array of blocks;
- the **slab allocator**: bitmaps, counters and the three slab lists;
- **pipes**, **getdents** and **byte I/O on disk views**: buffered forms against plain sequences.

Where the code changes things in place the model is a class whose methods carry loops and
invariants, and each method is tied to a function on values; the theorems are about those
functions. Concurrent protocols are state machines whose steps are the regions under one lock, or
one access to shared memory. `dafny verify dfyconfig.toml` checks the whole project.

Modules follow the kernel's components: `Words`, `Sequences`, `Options` and `LinkedLists` are
shared; `Buddy*` and `InlineLists`; `PageTables`, `AddressSpace`, `PageMap`, `PageViews`, `Spaces`
and `Tlb*`; `Scheduler`, `TaskLists`, `Sleepers`, `SleepLists`, `Mutexes`, `Waiting`,
`Reaping` and `Kernel*`; `Ext2*`; `Cache*` and `BlockCache`; `SlabSpec`,
`SlabHeap`, `SlabRuns` and `SlabClients`; `Pipe*`; `Getdents` and `GetdentsCall`; `DiskView`.

Some properties one would expect turn out to hold only under a condition. Each has a lemma that
shows the failure and one that gives the exact condition:

- an exit wakes its parent whenever the parent is BLOCKED with a matching wait target, wherever it
  is parked. In a mutex queue this loses mutual exclusion (`KernelLimits.ExclusionLost`), on a sleep
  list it links the parent twice (`KernelLimits.TaskLinkedTwice`; exactly then: `PublishExact`);
- a wait frees the child it claims although the child may still be on its CPU
  (`KernelFrees.FreedOnCpu`; exactly then: `KernelLimits.FreeChildExact`);
- a reschedule frees a dead task without a parent although it may be on the zombie list, namely if
  its parent exited between its listing and its leaving the CPU (`KernelFrees.FreedWhileListed`;
  exactly then: `KernelFrees.SlotExact`). With these three steps excluded every step and every run
  of the modelled kernel is safe, and with any of them it is not (`KernelLimits.StepExact`, `RunExact`);
- a listed task whose parent exits is never freed if it has left its CPU before (`KernelFrees.StrayForever`);
- an exiting child reads its parent again after testing it, and loses it exactly if the parent exits
  in between (`KernelLimits.ParentVanishesExact`, `ParentGone`);
- two CPUs that unmap a page each with interrupts off may wait for each other for good
  (`TlbProgress.DeadLock`; exactly then: `TlbProgress.EndsExact`);
- mapping over an absent directory slot that still carries a page-size bit reports failure but
  creates a 2 MB mapping (`PageMap.RevivesBigPage`);
- a slab with a single slot breaks the slab lists (`SlabSpec.TakeEmptyKeeps`), and so does giving
  back a slot that is not in use (`SlabSpec.GiveBackExact`);
- a double indirect lookup without a root block does not see the hole, and a lookup past the largest
  file reads beyond the triple root (`Ext2Inode.MissingDoubleRoot`, `PastTripleRoot`, `LookupExact`);
- a new file never gets more than twelve blocks, because nothing allocates an indirect root, while
  its sector counter goes on growing (`Ext2Runs.Inode.AddBlocks`); and the counter is right after
  shrinking on devices with 512-byte sectors only (`Ext2Runs.CounterExact`);
- adding a block to a file is silently without effect on the file's map if the indirect root is
  missing or the free blocks do not suffice for the index path; in the second case, and with a
  missing double root, block 0 is written instead, or a block named by a word found there
  (`Ext2Grow.PlacedExact`, `LostInBlockZero`, `WildWrite`, `AppendedExact`);
- a read that finds the block cache full of pinned buffers keeps the cache lock (`BlockCache.Buffers.Bread`);
- releasing the last pin on a changed buffer that is not marked dirty loses the change with the
  buffer (`CacheRuns.ChangeLost`; exactly then: `CacheSpec.EvictedExact`);
- with two readers parked on a pipe, one write may leave one of them asleep over a byte
  (`PipeSpec.ReaderLeft`; exactly then: `PipeSpec.PromptExact`);
- a record length of 65536 or more does not fit its field (`Getdents.LengthFieldExact`);
- an offset and length whose 64-bit sum wraps to an end inside a disk view escape its clamp (`DiskView.ClampExact`);
- a shadow table whose base lies deeper in its page than the pool's end misses the last page (`Buddy.ShadowCovers`).

## Model

| member | source | states |
|---|---|---|
| `BuddySpec.SplitKeepsInv` | allocaters/buddy_alloc.c:330-337 | halving a detached block down to the wanted order keeps every pool invariant: blocks aligned and disjoint, the range tiled, lists equal to the free blocks, no two free buddies of one order |
| `BuddySpec.MergeKeepsInv` | allocaters/buddy_alloc.c:361-381 | coalescing ends in a pool with no free buddy pair left, whatever the chain of merges, and only free space changed |
| `BuddySpec.RequestKeepsInv` | allocaters/buddy_alloc.c:310-342 | a request keeps the pool invariant and hands out one aligned block of exactly the requested order that was wholly free before |
| `BuddySpec.ReleaseKeepsInv` | allocaters/buddy_alloc.c:344-385 | a free keeps the pool invariant for every address; only an allocated head address changes anything |
| `BuddySpec.TopOrderHasNoBuddy` | allocaters/buddy_alloc.c:362-367 | a block of the largest order has no buddy in a 64-bit range, so stopping the merge loop there loses no merge |
| `BuddyTheorems.CarvingStep` | allocaters/buddy_alloc.c:108-131 | one carving step at a page boundary keeps the finished part canonical although nothing tests for buddies: no block ahead can be a buddy of one behind |
| `BuddyTheorems.SkipStep` | allocaters/buddy_alloc.c:111-117 | before the first page boundary each step advances by the lowest set bit and never past the boundary |
| `BuddyTheorems.BootInvariant` | allocaters/buddy_alloc.c:103-132 | carving any range, page aligned or not, yields free blocks that tile exactly its whole pages, in canonical form, with nothing allocated |
| `BuddyTheorems.FreeRegionInBlock` | allocaters/buddy_alloc.c:310-385 | in canonical form every wholly free, naturally aligned region lies inside a single free block |
| `BuddyTheorems.RequestComplete` | allocaters/buddy_alloc.c:310-342 | a request fails if and only if no naturally aligned, wholly free region of that order exists |
| `BuddySpec.OrderFits` | allocaters/buddy_alloc.c:310-314 | the order a size is rounded to is the least, from a page up, whose blocks hold that many bytes |
| `BuddyTheorems.RequestServes` | allocaters/buddy_alloc.c:310-342 | a request for a size hands out a block that was not in use and holds that many bytes, or nothing if and only if no aligned free region could hold them |
| `BuddyTheorems.AllocExact` | allocaters/buddy_alloc.c:310-342 | over runs: a request becomes live, at an address not live before, if and only if some aligned free region could hold its size |
| `BuddyTheorems.MergeUndoesSplit` | allocaters/buddy_alloc.c:330-381 | merging after splitting, through any number of levels, gives the pool of merging without having split |
| `BuddyTheorems.RequestThenRelease` | allocaters/buddy_alloc.c:310-385 | freeing a block just handed out restores the pool exactly, list order included |
| `BuddyTheorems.FreePagesCountsFrames` | allocaters/buddy_alloc.c:543-557 | the sum of list lengths weighted by block size is the number of free page frames |
| `BuddyTheorems.GainsMovesPages` | allocaters/buddy_alloc.c:310-385 | a request moves exactly the pages of its block from the free count, a free moves them back |
| `BuddyTheorems.FreeOrUsed` | allocaters/buddy_alloc.c:103-132 | every frame of the managed range belongs to a free or to an allocated block, never both |
| `BuddyTheorems.EveryRunIsSafe` | allocaters/buddy_alloc.c:103-385 | over every run of requests and frees from boot, at any start, the bytes asked for by live requests are page aligned, inside the pool and shared with no other live request, and each block is aligned to its order |
| `InlineLists.FreeLists.Push` | allocaters/buddy_alloc.c:61-65 | pushing through the page's own first word prepends to exactly one list, sets its mask bit and leaves the other lists |
| `InlineLists.FreeLists.Pop` | allocaters/buddy_alloc.c:67-76 | popping removes the first address of one list and clears the mask bit exactly when the list becomes empty |
| `InlineLists.FreeLists.Unlink` | allocaters/buddy_alloc.c:78-93 | the walk unlinks the address from the middle of its list, or reports that it is absent, and the mask follows |
| `Buddy.TagMeaning` | allocaters/buddy_alloc.c:26-41 | a shadow byte tells free from used and gives the order back |
| `Buddy.MaskSearch` | allocaters/buddy_alloc.c:320-328 | masking off the low orders and counting trailing zeros finds the lowest non-empty list of sufficient order |
| `Buddy.ShadowCovers` | allocaters/buddy_alloc.c:592-604 | a shadow made for [base, end) has a byte for each page carved from [start, end) if and only if base lies no deeper in its page than end |
| `Buddy.KernelBuddy.constructor` | allocaters/buddy_alloc.c:592-604 | boot, with a shadow that starts below the pool, leaves lists, mask, in-page links and shadow bytes agreeing on the carved pool |
| `Buddy.KernelBuddy.AddToBuddyAlloc` | allocaters/buddy_alloc.c:103-132 | the loop over any range, its skip branch included, builds the carved pool; each block is on its list and marked free in the shadow |
| `Buddy.KernelBuddy.KernelRequest` | allocaters/buddy_alloc.c:310-342 | the in-place request returns a block not in use that holds the size asked for, or NULL if and only if no aligned free region could hold it; it leaves what the value-level request does, with list k holding exactly the blocks tagged k|FREE and non-head pages tagged 0 |
| `Buddy.KernelBuddy.KernelFree` | allocaters/buddy_alloc.c:344-385 | the in-place free leaves what the value-level free does, for every address but one strictly inside the first page of a block in use |
| `Buddy.KernelBuddy.PutBack` | allocaters/buddy_alloc.c:361-381 | the merge loop driven by shadow bytes finds every free buddy, merges with each and pushes the result: the value-level merge |
| `BuddyAudit.CountFreePages` | allocaters/buddy_alloc.c:543-557 | the walk over all lists returns the number of free frames |
| `BuddyAudit.VerifyShadow` | allocaters/buddy_alloc.c:606-647 | whatever the shadow holds, the kernel's own check succeeds if and only if lists and free flags name the same blocks with the same orders |
| `BuddyAudit.ReachableConsistent` | allocaters/buddy_alloc.c:606-647 | which they do in every reachable state |
| `AddressSpace.CopiedWalk` | paging/pml4_clone.c:35-106 | a copied tree translates every virtual page as the original does: same domain, same flags, device pages aliased, other pages with equal bytes |
| `AddressSpace.Memory.CloneKernelRoot` | paging/pml4_clone.c:16-29 | a new root shares the kernel half and maps nothing in the user half; failure changes nothing |
| `AddressSpace.Memory.CloneEntries` | paging/pml4_clone.c:45-103 | the nested loops copy a whole forest into frames that were all free before, at any depth; a copy takes exactly as many frames as the original owns, lack of memory means that there were fewer, and a refusal that a big page is mapped below |
| `AddressSpace.Memory.CloneUser` | paging/pml4_clone.c:35-112 | success gives a child whose owned frames are fresh and disjoint and whose tree is a copy; every failure releases each frame it took exactly once and no other, and touches nothing else; it fails for lack of memory only if there is no frame for each of the parent's, and is refused only if the parent maps a big page |
| `AddressSpace.Memory.FreeEntries` | paging/pml4_clone.c:116-160 | teardown releases each owned leaf and table frame exactly once and no device frame |
| `AddressSpace.Memory.FreeUser` | paging/pml4_clone.c:114-161 | the user half becomes empty and exactly its owned frames are released, once each |
| `AddressSpace.Memory.DiscardSpace` | paging/pml4_clone.c:108-112 | the failure path releases the partial copy and its root, once each |
| `AddressSpace.Memory.ForkThenExit` | paging/pml4_clone.c:31-161 | a fork followed by the child's teardown leaves the set of free frames and every table in use as it was, each frame taken having been released exactly once |
| `PageMap.MapIn` | paging/paging.c:225-338 | mapping a 4 KB page changes the flat translation at that page only; running out of memory and meeting a big page leave every target unchanged, and the tables stay an unshared tree over the old frames, all the tables taken and the new page; the rights along the path are those asked for, and no other page loses one |
| `PageMap.HitsBigPage` | paging/paging.c:303-323 | meeting a present 2 MB page reports that it exists and changes no target |
| `PageMap.RevivesBigPage` | paging/paging.c:303-323 | the exception: an absent slot whose stale page-size bit is set comes back as a 2 MB page although the call reports failure |
| `PageMap.AscendTree` | paging/paging.c:225-338 | a mapping made below an entry keeps the whole tree unshared and well formed |
| `PageMap.RightsLifted` | paging/paging.c:240-316 | one level up, a table entry made sure of takes no right away that the page below was given: its user bit is set for a user page, it is writable if new, and no page next to it loses a right or, unless a user page is mapped, gains one |
| `PageViews.PathInjective` | paging/paging.c:225-240 | the four 9-bit indices of a user address determine its page |
| `PageViews.PageFromPath` | paging/paging.c:225-240 | the indices are the base-512 digits of the page number |
| `PageViews.LookupIsWalk` | paging/pml4_clone.c:163-175 | the lookup that ignores page-size bits computes the hardware translation at every address whose walk does not end in a big page |
| `PageViews.UnmapIn` | paging/paging.c:344-376 | unmapping removes exactly one page from the translation, or reports that it was absent and changes nothing; the tables stay an unshared tree |
| `Spaces.MapPage` | paging/paging.c:225-338 | by virtual address: the page shows the frame and flags given, an access to it has exactly the user, write and execute rights asked for, through all four levels, and lookup finds it; every other user address shows what it did, with the rights it had; it fails only for lack of memory, and then shows what it did |
| `Spaces.UnmapPage` | paging/paging.c:344-376 | by virtual address: succeeds exactly if a 4 KB page is mapped there; then that page shows nothing, to the hardware and to lookup, and every other address what it did, with the rights it had |
| `Spaces.NewSpace` | paging/pml4_clone.c:16-29 | a new space shows nothing at any user address, and its tables will take no right away |
| `Spaces.SpaceSees` | paging/pml4_clone.c:35-106 | whoever writes only outside a space's frames changes neither its translation nor its bytes |
| `Spaces.GrewApart` | paging/pml4_clone.c:35-106 | a space that grows over its own or free frames stays disjoint from another one, which sees nothing of it |
| `Spaces.RunIn` | paging/pml4_clone.c:35-106 | any run of mapping, unmapping and storing in one space does there what each operation says and leaves what a disjoint one sees, translation and bytes, at every address |
| `Spaces.Fork` | paging/pml4_clone.c:35-112 | succeeds if and only if there is a free frame for every frame of the parent, and fails for lack of memory otherwise; it makes two disjoint spaces, the child showing at every user address the page the parent showed, with the same rights, in another frame unless it is a device page |
| `Spaces.ForkThenRun` | paging/pml4_clone.c:35-112 | after a fork, whatever runs in the child leaves the parent seeing what it saw, and whatever runs in the parent leaves the child showing what the parent showed at the fork |
| `TlbShootdown.TargetBits` | paging/paging.c:11-17 | the target mask has exactly the bits of the other online CPUs |
| `TlbShootdown.HandlerRound` | paging/paging.c:45-54 | an interrupt or handler under way always belongs to the current round, whose initiator is waiting for it |
| `TlbShootdown.ReturnKeeps` | paging/paging.c:35-43 | when the initiator sees no pending bit, no handler and no interrupt of its round is left |
| `TlbShootdown.StepKeeps` | paging/paging.c:19-54 | every step of initiators, handlers and TLB fills keeps the protocol invariant |
| `TlbShootdown.EveryRunKeeps` | paging/paging.c:19-54 | so does every interleaving, on any number of CPUs up to 64 |
| `TlbShootdown.NoStaleTranslation` | paging/paging.c:19-43 | whenever a call may return, no online CPU holds a translation covered by the flush that is older than the call |
| `TlbShootdown.NoStaleAck` | paging/paging.c:35-54 | when a round publishes its mask, nothing from an earlier round can clear one of its bits |
| `TlbProgress.EndsExact` | paging/paging.c:19-54 | a round can be brought to its end if and only if no CPU that still owes its acknowledgement is itself inside a call with interrupts off |
| `TlbProgress.Finish` | paging/paging.c:19-54 | and then within four steps for each CPU, five more, and one for each CPU that has to turn its interrupts on |
| `TlbProgress.JammedForever` | paging/paging.c:19-54 | otherwise it never ends |
| `TlbProgress.DeadLock` | paging/paging.c:344-376 | a run of two CPUs that unmap a page each, with interrupts off, to such a round |
| `TlbProgress.DropsOnlyCovered` | paging/paging.c:19-54 | no CPU loses a translation but in a call for its page or for all pages |
| `Scheduler.SpawnKeeps` | multi/scheduler.c:237-256 | creating a task keeps every task in exactly the place its state names |
| `Scheduler.WakeKeeps` | multi/mutex.c:53-57 | a wake is sound even if the task has marked itself BLOCKED and is still on its CPU |
| `Scheduler.EnqueueKeeps` | multi/scheduler.c:145-153 | linking a woken task in its home queue links it once |
| `Scheduler.ScheduleKeeps` | multi/scheduler.c:329-420 | a reschedule takes the queue head, requeues a preempted task at home, and keeps every task in one place |
| `Scheduler.ScheduleSplits` | multi/scheduler.c:334-400 | dequeuing and then requeuing the preempted task equals preempting first and then dispatching |
| `TaskLists.TaskQueues.Enqueue` | multi/scheduler.c:127-133 | the shared next and prev fields then spell the old queues with the task appended to one of them |
| `TaskLists.TaskQueues.Dequeue` | multi/scheduler.c:135-143 | the first task comes off one queue, every other queue reads as before, an empty queue gives nothing |
| `SleepLists.SleepList.Insert` | multi/scheduler.c:178-187 | the singly linked list stays ordered by deadline and equal deadlines keep their order of arrival |
| `SleepLists.SleepList.WakeExpired` | multi/scheduler.c:189-201 | exactly the sleepers whose deadline has passed are unlinked and woken, in deadline order |
| `Sleepers.SleepInserts` | multi/scheduler.c:178-187 | going to sleep keeps each sleeper on one list, its home CPU's |
| `Sleepers.SleepPops` | multi/scheduler.c:189-201 | waking the head of a list keeps each sleeper on one list |
| `Mutexes.LockWaits` | multi/mutex.c:27-36 | a contended lock call joins the queue's end and keeps the mutex invariant, the order of arrival included |
| `Mutexes.LockReturnKeeps` | multi/mutex.c:36-39 | a lock call that resumes may return unconditionally: it has become the owner |
| `Mutexes.UnlockHandsOver` | multi/mutex.c:46-57 | unlocking passes ownership to the longest waiter before it can run, and nobody can slip in between |
| `Mutexes.MutualExclusion` | multi/mutex.c:14-65 | two tasks between lock and unlock are the same task, which is the owner and not in the queue |
| `Waiting.FirstMatchMeaning` | multi/scheduler.c:63-78 | the scan finds a zombie of this parent whose pid is the one asked for, or any if 0 was asked for, if and only if one is listed |
| `Waiting.TakeLocked` | multi/scheduler.c:63-78 | the walk returns that zombie and unlinks only it |
| `Waiting.ClaimKeeps` | multi/waitpid.c:20-27 | a claim takes a zombie no earlier wait has claimed and returns its own pid and exit code |
| `Waiting.WaitParkKeeps` | multi/waitpid.c:41-55 | a parent parks only when no listed zombie matches, under the lock that listing takes |
| `Waiting.ExitPublishKeeps` | multi/scheduler.c:446-456 | listing a zombie wakes a matching parked parent in the same region, so none is left waiting for a listed child |
| `KernelRuns.StepKeeps` | multi/scheduler.c:316-462 | every atomic step of scheduling, locking, sleeping, forking, exiting, waiting and freeing dead tasks keeps the joint invariant, but for the three kinds of step that StepExact names |
| `KernelRuns.EveryRunKeeps` | multi/scheduler.c:316-462 | so does every interleaving on any number of CPUs in which no such step happens |
| `KernelRuns.TasksInOnePlace` | multi/scheduler.c:107-420 | in every run no task is current twice or linked twice, each runs at home only, and the times it was made ready equal the times it was dispatched, plus one while it is ready, and each queue is first in, first out: no wake is lost, duplicated or overtaken |
| `KernelRuns.OneHolder` | multi/mutex.c:14-65 | in every run at most one task holds a mutex, a locked mutex has an owner that holds it or is returning from the lock call that got it, waiters exist only while it is locked, the owner does not wait, and acquisitions follow arrivals |
| `KernelRuns.NoMissedChild` | multi/waitpid.c:18-62 | in every run no parent is parked while a child of its is listed that it waits for, by pid or for any; every claim is of a different child, of the pid asked for unless any would do, and carries that child's code and original parent |
| `KernelRuns.BootSafe` | multi/scheduler.c:258-274 | the state after the bootstrap tasks are attached satisfies the joint invariant |
| `Reaping.HeldKeeps` | multi/waitpid.c:20-27 | a wait that claims a zombie is the only one to hold it until it has freed it |
| `Reaping.SwitchReap` | multi/scheduler.c:402-414 | a switch leaves a dead task without a parent in the slot of the CPU it left, and every dead task accounted for |
| `Reaping.FreeClaimedExact` | multi/waitpid.c:20-27 | freeing a claimed task leaves freed tasks referred to by nothing if and only if the task has left its CPU |
| `Reaping.DrainFrees` | multi/scheduler.c:316-327 | the drain frees what is in the slot always: its test for a living parent never spares anything |
| `Reaping.DrainExact` | multi/scheduler.c:316-327 | a drain leaves freed tasks referred to by nothing if and only if what it frees is not on the zombie list |
| `KernelSteps.StepDoes` | multi/scheduler.c:108-462 | what every kernel step does for its caller, stated without the functions that compute it: who runs, who is queued last, who parks where, who is woken, who owns a mutex, which child is claimed, what is freed |
| `KernelTurns.MovesUp` | multi/scheduler.c:127-153 | over any run, the task at place i of a run queue moves up one place with each reschedule of that CPU and otherwise stays |
| `KernelTurns.RunsInTurn` | multi/scheduler.c:329-420 | it runs at exactly the (i + 1)st reschedule of that CPU |
| `KernelTurns.CpuGoesOn` | multi/scheduler.c:329-462 | a CPU with a queued task can reschedule, or its current task can go on with its exit, unless that task's parent has vanished |
| `KernelTurns.WakersGoOn` | multi/scheduler.c:151-201 | whoever was woken can be linked, and an expired sleeper at a head can be woken |
| `KernelTurns.CallersGoOn` | multi/scheduler.c:329-462 | a running task outside any blocking call may sleep, wait, exit, lock a mutex it does not own and unlock one it holds |
| `KernelTurns.WaiterMovesUp` | multi/mutex.c:43-65 | over any run, the waiter at place i of a mutex moves up one place with each unlock |
| `KernelTurns.OwnsInTurn` | multi/mutex.c:43-65 | it owns the mutex after exactly the (i + 1)st unlock |
| `KernelTurns.ListedOrClaimed` | multi/scheduler.c:58-90 | a listed task stays listed until a wait claims it |
| `KernelQueues.QueuesApart` | multi/scheduler.c:127-143 | the joint invariant gives what the shared next and prev fields need: no task is on two queues |
| `KernelQueues.LinkedIsUnlinked` | multi/scheduler.c:127-153 | whenever a step links a task in a run queue or a mutex queue, the task is on none |
| `KernelLimits.PublishExact` | multi/scheduler.c:446-456 | an exit that lists itself keeps the joint invariant if and only if it wakes nobody or a parent parked in its wait call |
| `KernelLimits.FreeChildExact` | multi/waitpid.c:18-62 | a wait may free the child it claimed if and only if no CPU runs that child any more |
| `KernelLimits.DrainsExact` | multi/scheduler.c:329-420 | a reschedule keeps the kernel consistent if and only if the task in its reap slot is not listed |
| `KernelLimits.StepExact` | multi/scheduler.c:316-462 | of all steps from a consistent state exactly these break it: an exit that wakes a parent parked elsewhere than in its wait call, a wait that frees a child still on its CPU, and a reschedule that frees a listed task |
| `KernelLimits.RunExact` | multi/scheduler.c:316-462 | a run passes through consistent states only if and only if it takes none of these steps |
| `KernelLimits.ExitWakeBreaksExclusion` | multi/scheduler.c:449-454 | a mutex waiter woken by its child's exit returns from lock beside the owner, from every such state |
| `KernelLimits.ExitWakeLinksTwice` | multi/scheduler.c:189-201 | a sleeper woken by its child's exit is woken again by its deadline and linked twice in its run queue |
| `KernelLimits.ParentVanishesExact` | multi/scheduler.c:432-450 | a child between the test of its parent and the second read loses the parent if and only if the parent exits |
| `KernelLimits.VanishedStaysStuck` | multi/scheduler.c:446-450 | a child that lost its parent so can never read it again |
| `KernelLimits.ExclusionLost` | multi/scheduler.c:449-454 | a run from boot after which two tasks hold one mutex |
| `KernelLimits.TaskLinkedTwice` | multi/scheduler.c:189-201 | a run from boot after which one task is linked twice in a run queue |
| `KernelLimits.ParentGone` | multi/scheduler.c:432-450 | a run from boot to a child whose parent is gone between its two reads |
| `KernelFrees.FreedOnCpu` | multi/waitpid.c:18-62 | a run from boot after which a task is freed and still current on its CPU |
| `KernelFrees.FreedWhileListed` | multi/scheduler.c:316-327 | a run from boot after which a task is freed and still on the zombie list |
| `KernelFrees.StrayExact` | multi/scheduler.c:428-439 | a listed task can no longer be claimed if and only if its parent has exited since |
| `KernelFrees.DoomedExact` | multi/scheduler.c:402-414 | a task becomes one that a reschedule will free while listed exactly by its parent's exit between its listing and its leaving the CPU |
| `KernelFrees.DoomedRun` | multi/scheduler.c:316-462 | the same over any run |
| `KernelFrees.SlotExact` | multi/scheduler.c:316-414 | after any run from a state without listed tasks, what a reap slot holds is listed if and only if its parent exited between its listing and its leaving the CPU |
| `KernelFrees.StrayForever` | multi/scheduler.c:63-78 | in every run without those steps a listed task whose parent has exited stays listed for good and no wait returns it |
| `KernelFrees.FreedIsGone` | multi/scheduler.c:276-304 | in every run without those steps, what was freed was freed once and is current, queued, parked, listed, claimed and a parent nowhere |
| `KernelFrees.DeadAccounted` | multi/scheduler.c:276-462 | and every dead task is on the way out, listed, claimed, in a reap slot or freed |
| `Ext2Inode.LookupReadsMap` | file_system/ext2_helpers.c:72-163 | the direct, single, double and triple lookups read the one map from logical index to block, unless they pass a missing double root or the end of the triple root |
| `Ext2Inode.LookupExact` | file_system/ext2_helpers.c:72-163 | the lookup reads the map whatever the blocks and the memory behind them hold if and only if the index lies neither below a missing double root nor past the largest file with a triple root present |
| `Ext2Inode.MiddleDigit` | file_system/ext2_helpers.c:118-163 | the two index decompositions in the code agree on every digit |
| `Ext2Inode.MissingDoubleRoot` | file_system/ext2_helpers.c:90-112 | without a double root the lookup reads block 0 as a table and may answer where the map has a hole |
| `Ext2Inode.PastTripleRoot` | file_system/ext2_helpers.c:114-124 | past the largest file the lookup reads beyond the root block and may answer where there is no block |
| `Ext2Truncate.File.CutPointer` | file_system/ext2_helpers.c:331-410 | cutting below a pointer keeps the map before the cut, empties it after, releases exactly the blocks that left the tree, once each, counts exactly the data blocks among them, and leaves no empty index block along the cut |
| `Ext2Truncate.File.CutTable` | file_system/ext2_helpers.c:331-410 | the loop over a table does so slot by slot and reports whether the table became empty |
| `Ext2Count.CountSlot` | file_system/ext2_helpers.c:331-410 | the data blocks of a table are those of its pointers: the count goes up slot by slot |
| `Ext2Inode.FreeBlocksFrom` | file_system/ext2_helpers.c:412-470 | after truncation at k every index below k maps as before and every index from k on is a hole; the released blocks are exactly those no longer reachable and the data blocks counted are the mapped indices from k on; every index block visited and kept is non-empty, and none is empty anywhere if none was before |
| `Ext2Grow.Volume.AllocBlock` | file_system/ext2_helpers.c:165-203 | the next free block, zeroed, no other block changed; 0 and nothing changed when none is left |
| `Ext2Grow.PlacedExact` | file_system/ext2_helpers.c:224-293 | adding below an index block maps that offset if and only if the free blocks suffice for the missing index blocks, and otherwise leaves a hole; no other offset moves and the tree stays unshared, as long as no word of block 0 is followed as a pointer |
| `Ext2Grow.PlacedTakes` | file_system/ext2_helpers.c:224-293 | with enough free blocks growth takes exactly the index blocks that are missing on the path |
| `Ext2Grow.LostInBlockZero` | file_system/ext2_helpers.c:224-250 | with no free block left the block is lost and its number is written into block 0 |
| `Ext2Grow.WildWrite` | file_system/ext2_helpers.c:224-250 | without a double root a non-zero word of block 0 is taken for an index block, which is overwritten |
| `Ext2Grow.WildOverwrites` | file_system/ext2_helpers.c:224-250 | such a write changes another index of the same file |
| `Ext2Grow.Volume.AddIn` | file_system/ext2_helpers.c:205-293 | the code on the path, failed allocations included, does what the value-level growth does on any blocks |
| `Ext2Grow.AddBlock` | file_system/ext2_helpers.c:295-329 | with a root and enough free blocks the index maps to the block, every other index as before, over unshared trees, and exactly the missing index blocks are taken; without, the map stays as it was unless the path follows a word of block 0; with a missing single or triple root nothing changes at all |
| `Ext2Grow.AppendedExact` | file_system/ext2_helpers.c:295-329 | so the index reads the block afterwards if and only if there was room or it read it before |
| `Ext2Grow.StillUnowned` | file_system/ext2_helpers.c:165-203 | what is left to hand out belongs to nobody, so the file can grow again |
| `Ext2Grow.GrowThenTruncate` | file_system/ext2_helpers.c:295-470 | a file grown by a new block and truncated at k has the cut of the grown map, over unshared trees, and at k = 0 owns nothing |
| `Ext2Runs.CounterExact` | file_system/ext2_helpers.c:301-345 | adding u sectors for a block and taking w off for a freed one keeps the counter right for every file if and only if u is w, that is, on devices with 512-byte sectors |
| `Ext2Runs.DenseExact` | file_system/ext2_helpers.c:295-329 | after an append at its end the file has one block more if and only if there was room |
| `Ext2Runs.Inode.Append` | file_system/ext2_file_ops.c:58-62 | the block goes where the sector counter says the file ends, and file and counter agree afterwards if and only if there was room; the counter goes up either way |
| `Ext2Runs.Inode.AddBlocks` | file_system/ext2_file_ops.c:49-64 | an inode without indirect roots, as every new one is and stays, grows to twelve blocks at most, which are the next free ones in order: file and counter agree afterwards if and only if the new size is at most twelve |
| `Ext2Runs.Inode.Truncate` | file_system/ext2_helpers.c:412-470 | the file ends at the cut, every index before it reads as before, and the counter is lowered once for each data block freed |
| `Ext2Runs.Run` | file_system/ext2_file_ops.c:49-64 | over any run of growing and shrinking within twelve blocks, growing appends free blocks in order, shrinking cuts, the blocks of the file are exactly these and the counter says how many |
| `Ext2Runs.NewFile` | file_system/ext2_helpers.c:295-329 | a new inode is a file of no blocks, with the counter at 0, from which such runs start |
| `CacheSpec.ViewIs` | file_system/blocks_buffer.c:102-171 | what clients see of a block is its buffer if cached and the disk otherwise, whichever order buffers are searched in |
| `CacheSpec.EvictKeeps` | file_system/blocks_buffer.c:133-148 | the evicted buffer was unpinned, its change is on disk, and no client sees a difference |
| `CacheSpec.ReadKeeps` | file_system/blocks_buffer.c:102-171 | reading pins the block and keeps the view, all pinned buffers and all unwritten changes; it fails if and only if the cache is full, the block is not in it and every buffer is pinned |
| `CacheSpec.MarkKeeps` | file_system/blocks_buffer.c:193-211 | after the dirty mark the client's change is written back before its buffer goes |
| `CacheSpec.ReleaseExact` | file_system/blocks_buffer.c:173-191 | a release never changes the view, and keeps every change safe from eviction if and only if it is not the last pin on a buffer that is clean and differs from the disk |
| `CacheSpec.EvictedExact` | file_system/blocks_buffer.c:133-191 | once the last pin is given up, eviction leaves clients seeing what they saw if and only if the release was allowed; otherwise the block shows the old disk contents |
| `CacheSpec.FlushKeeps` | file_system/blocks_buffer.c:213-233 | flushing one block puts what clients see on disk |
| `CacheSpec.FlushAllKeeps` | file_system/blocks_buffer.c:235-250 | the walk leaves every buffer clean and the view unchanged |
| `CacheSpec.FlushAllSettles` | file_system/blocks_buffer.c:235-250 | with every buffer clean the disk shows what clients see of a block if and only if no buffer of it holds an unsaved change |
| `CacheSpec.InvalidateReverts` | file_system/blocks_buffer.c:252-277 | discarding a buffer shows the disk contents of that block again and moves no other block |
| `CacheSpec.PokeKeeps` | file_system/blocks_buffer.c:102-171 | a store through a pinned buffer changes the view at that block only |
| `CacheRuns.EveryRunAgrees` | file_system/blocks_buffer.c:102-277 | over every client run with careful releases the cache shows exactly a plain array of blocks; a discarded block shows anything until the next store |
| `CacheRuns.StepExact` | file_system/blocks_buffer.c:102-277 | of all client steps exactly the release of the last pin on an unsaved change breaks the promise |
| `CacheRuns.RunExact` | file_system/blocks_buffer.c:102-277 | the promise holds throughout a run if and only if every release in it is careful |
| `CacheRuns.SettledMayRelease` | file_system/blocks_buffer.c:173-211 | a block not stored to since its last bwrite may always be released |
| `CacheRuns.ChangeLost` | file_system/blocks_buffer.c:102-191 | a run from the empty cache after which the client no longer sees what it stored |
| `CacheRuns.Transparent` | file_system/blocks_buffer.c:102-277 | after any such run from an empty cache, a read returns the array's contents and flushing everything makes the disk the array, but for changes not yet handed over and discarded blocks |
| `CacheRecency.RunsRecent` | file_system/blocks_buffer.c:95-250 | in every disciplined run the recency list is ordered by the last use of each buffer |
| `CacheRecency.EvictsOldest` | file_system/blocks_buffer.c:133-138 | so a buffer that a read gives up is the unpinned one unused for longest |
| `CachePins.ReadExact` | file_system/blocks_buffer.c:102-171 | a read pins the cached buffer once more and changes nothing else; or takes in one clean buffer with the disk contents, giving up none while there is room and otherwise one unpinned, written back if dirty |
| `CachePins.PinsExact` | file_system/blocks_buffer.c:102-191 | over any careful run a block is pinned exactly as often as it was read and not released since |
| `CachePins.DiskMoves` | file_system/blocks_buffer.c:133-250 | the disk changes only where a dirty buffer is written back: the one evicted, the one flushed, or any in a flush of all |
| `BlockCache.Buffers.constructor` | file_system/blocks_buffer.c:3-11 | the empty cache has empty chains, an empty recency list and the disk as its view |
| `BlockCache.Buffers.DeleteFromLru` | file_system/blocks_buffer.c:39-55 | unlinking a node from any place of the doubly linked list removes it and keeps the order of the rest |
| `BlockCache.Buffers.DeleteFromHash` | file_system/blocks_buffer.c:57-76 | the walk unlinks the node from its chain; all other chains and nodes stay |
| `BlockCache.Buffers.AddToLruHead` | file_system/blocks_buffer.c:78-93 | the node becomes the most recent one |
| `BlockCache.Buffers.SwitchToLruHead` | file_system/blocks_buffer.c:95-100 | a listed node becomes the most recent one and the others keep their order |
| `BlockCache.Buffers.Lookup` | file_system/blocks_buffer.c:106-124 | the walk along one hash chain finds the buffer of a block if and only if the cache has one |
| `BlockCache.Buffers.PickVictim` | file_system/blocks_buffer.c:134-138 | the walk from the old end stops at the least recent unpinned buffer |
| `BlockCache.Buffers.Bread` | file_system/blocks_buffer.c:102-171 | bread does what the value-level read does on chains, list and counter, and returns the contents of the view; the lock stays held if and only if memory was had, the block is not cached and the cache is full of pinned buffers |
| `BlockCache.Buffers.Brelse` | file_system/blocks_buffer.c:173-191 | one pin less, never below zero, on the block's buffer only; every change stays safe if and only if this is not the last pin on an unsaved one |
| `BlockCache.Buffers.Bwrite` | file_system/blocks_buffer.c:193-211 | the block's buffer becomes dirty and most recent, nothing if it is not cached |
| `BlockCache.Buffers.Bflush` | file_system/blocks_buffer.c:213-233 | the block's buffer is written back and becomes clean |
| `BlockCache.Buffers.BflushAll` | file_system/blocks_buffer.c:235-250 | the walk over the recency list writes back every dirty buffer |
| `BlockCache.Buffers.Binvalidate` | file_system/blocks_buffer.c:252-277 | the block's buffer leaves list, chain and count without being written |
| `SlabSpec.TakePartialKeeps` | allocaters/slab_alloc.c:55-71 | taking a slot keeps counter, bitmap and the slab's list in step |
| `SlabSpec.TakeEmptyKeeps` | allocaters/slab_alloc.c:73-82 | taking the first slot of an empty slab keeps the lists right if and only if slabs have more than one slot |
| `SlabSpec.GiveBackKeeps` | allocaters/slab_alloc.c:249-266 | giving a slot back keeps counter, bitmap and list in step, through both list moves |
| `SlabSpec.GiveBackExact` | allocaters/slab_alloc.c:249-266 | giving a slot back keeps the slab consistent if and only if the slot was in use: a double free is never noticed and always breaks the count |
| `SlabSpec.NewSlabKeeps` | allocaters/slab_alloc.c:91-112 | a new slab joins the empty list with every slot free |
| `SlabSpec.LowestIsSlot` | allocaters/slab_alloc.c:39-68 | the lowest clear bit of a slab with a free slot is a real slot although padding bits are never masked |
| `SlabSpec.WordsFit` | allocaters/slab_alloc.c:34-37 | a bitmap has as few words as hold a bit for every slot |
| `SlabSpec.LiveApart` | allocaters/slab_alloc.c:160-196 | two live slots of a cache never overlap |
| `SlabSpec.TakePartialToggles` | allocaters/slab_alloc.c:55-71 | exactly one slot changes from free to live |
| `SlabSpec.GiveBackToggles` | allocaters/slab_alloc.c:249-255 | exactly one slot changes from live to free |
| `SlabHeap.GetEmptyBit` | allocaters/slab_alloc.c:39-50 | the lowest clear bit of a word, 64 if there is none |
| `SlabHeap.FindSlot` | allocaters/slab_alloc.c:55-61 | the lowest free slot of a slab, past full words |
| `SlabHeap.SearchCache` | allocaters/slab_alloc.c:52-84 | the lowest free slot of the first partial slab, else of the first empty one, and none exactly when both lists are empty |
| `SlabHeap.SearchSlab` | allocaters/slab_alloc.c:114-139 | the full or partial slab whose pages hold the pointer, none exactly when there is none |
| `SlabHeap.DeleteSlab` | allocaters/slab_alloc.c:198-210 | the list without the slab, unchanged if it is absent |
| `SlabHeap.Heap.BestIndex` | allocaters/slab_alloc.c:142-158 | the first cache of least waste, none exactly when every slot size is too small |
| `SlabHeap.Heap.constructor` | allocaters/slab_alloc.c:11-32 | set-up gives every cache one empty slab on pages of its own, with nothing live |
| `SlabHeap.Heap.Kmalloc` | allocaters/slab_alloc.c:160-196 | NULL exactly when no slot size suffices; otherwise one slot that was free becomes live and no other slot changes, across all caches; a slab is added only if every slot of the cache is live |
| `SlabHeap.Heap.Kfree` | allocaters/slab_alloc.c:212-269 | freeing the address of a live object frees exactly that slot; size 0, unserved sizes and foreign pointers change nothing |
| `SlabHeap.ObjectsApart` | allocaters/slab_alloc.c:160-269 | live objects of any two caches never overlap |
| `SlabRuns.StepExact` | allocaters/slab_alloc.c:160-269 | each call keeps the pointers handed out and not freed equal to the addresses of live slots |
| `SlabRuns.RunExact` | allocaters/slab_alloc.c:160-269 | so does every sequence of calls |
| `SlabRuns.EveryRunIsSafe` | allocaters/slab_alloc.c:11-269 | after any run from set-up the live objects are exactly those handed out and not freed, and no two of them overlap |
| `SlabRuns.LedgerMayFree` | allocaters/slab_alloc.c:212-269 | a pointer handed out and not freed meets the contract of kfree, and freeing it hits |
| `SlabClients.Client.Ask` | allocaters/slab_alloc.c:160-196 | a client that asks gets an object nobody holds, or nothing exactly when no slot size suffices |
| `SlabClients.Client.GiveUp` | allocaters/slab_alloc.c:212-269 | giving up a held object frees it and nothing else; one of size 0 is never freed |
| `SlabClients.Serve` | allocaters/slab_alloc.c:11-269 | driven through kmalloc and kfree from set-up, any client that gives up only what it holds has an object of every size it asked for and did not give up, unless no slot is that large, and never two that overlap |
| `PipeSpec.StepKeeps` | file_system/pipe.c:109-260 | every region under the pipe lock keeps bytes, ring bound and waiter queues consistent |
| `PipeSpec.EveryRunKeeps` | file_system/pipe.c:109-260 | so does every interleaving of any number of tasks |
| `PipeSpec.BytesInOrder` | file_system/pipe.c:109-260 | delivered bytes are a prefix of the accepted ones, at most 4096 are in between, and tasks are parked only while a peer end is open |
| `PipeCalls.StepServes` | file_system/pipe.c:109-260 | what every region does for its caller, stated without the functions that compute it: bytes moved, end of file, broken pipe or sleep, who is woken, which ends stay open |
| `PipeCalls.ReturnsExcused` | file_system/pipe.c:109-201 | a read returns nothing only at the end of file and never more than asked for; a write stops short if and only if there is no reader |
| `PipeCalls.EndsCounted` | file_system/pipe.c:203-260 | over any run the open ends are those opened less those closed |
| `PipeCalls.RunRecorded` | file_system/pipe.c:109-260 | over any run the bytes that reads returned, in order of their return, are those delivered, and once the reading end is closed nothing more is accepted |
| `PipeCalls.ReadersGet` | file_system/pipe.c:109-260 | so from a new pipe readers get, in order, a prefix of what was written, all but a ring of it |
| `PipeSpec.PromptExact` | file_system/pipe.c:120-196 | a parked reader means an empty ring and a parked writer a full one after a step if and only if the step did not find two tasks to wake |
| `PipeSpec.PromptRunExact` | file_system/pipe.c:109-260 | the same over any run |
| `PipeSpec.ReaderLeft` | file_system/pipe.c:120-180 | a run from a new pipe to a reader that sleeps over a byte with nobody left to wake it |
| `PipeSpec.NeverBothParked` | file_system/pipe.c:109-201 | with one reading and one writing task the two are never parked together |
| `PipeRing.WrapSlot` | file_system/pipe.c:41-60 | positions may wrap at 2^64 without moving a byte to another slot |
| `PipeRing.Ring.Drain` | file_system/pipe.c:44-51 | the oldest bytes come out in order and the rest stays |
| `PipeRing.Ring.Fill` | file_system/pipe.c:53-60 | as many bytes as fit are appended, overwriting none that wait |
| `PipeRing.Ring.Read` | file_system/pipe.c:120-147 | one pass of the read loop delivers, ends or parks as the value-level region says |
| `PipeRing.Ring.Write` | file_system/pipe.c:162-196 | one pass of the write loop accepts, breaks or parks as the value-level region says |
| `PipeRing.Ring.Close` | file_system/pipe.c:203-260 | the last close of one side releases every task parked on the other, in order |
| `Getdents.ParseEncode` | file_system/vfs_file.c:210-228 | a record gives back the name, inode number and type it was made from |
| `Getdents.RecLenMeaning` | file_system/vfs_file.c:190-213 | a record is as long as header, name and terminator, rounded up to a multiple of 8 |
| `Getdents.OffsetField` | file_system/vfs_file.c:215-226 | the offset field holds the distance to the next record, and everything behind the name is zero |
| `Getdents.LengthFieldExact` | file_system/vfs_file.c:210-228 | the 16-bit length field holds the record's length if and only if it is below 65536 |
| `Getdents.CallOutcome` | file_system/vfs_file.c:230-301 | a call is refused if and only if the buffer is empty or too small for the stash; otherwise it delivers the stash and the longest run of records that fits, and stops at the end, at a readdir error, or at the first record that does not fit, which is stashed, or lost if it is the first or there is no memory |
| `Getdents.WalkEncoded` | file_system/vfs_file.c:193-228 | stepping through concatenated records by their length field recovers every entry in order |
| `Getdents.CallStreams` | file_system/vfs_file.c:230-301 | a successful call hands out the old stash and then whole records, within the buffer, and returns nothing only at the end of the directory |
| `Getdents.Stream` | file_system/vfs_file.c:230-301 | over any run of successful calls the output followed by the stash is the old stash followed by the records of all entries pulled, in order, none lost or repeated |
| `Getdents.WholeDirectory` | file_system/vfs_file.c:230-301 | a directory read to its end in any buffer sizes yields exactly its entries |
| `GetdentsCall.EncodeInto` | file_system/vfs_file.c:210-228 | the record is written behind the earlier ones, or nothing is if it does not fit |
| `GetdentsCall.File.GetDents` | file_system/vfs_file.c:230-301 | the call fills the caller's buffer, moves the stash and reports each failure as the value-level call does |
| `DiskView.ClampExact` | drivers/disk_devs.c:43-46 | the clamp keeps the transfer inside the view if and only if the 64-bit sum does not wrap to an end inside it |
| `DiskView.ClampMeaning` | drivers/disk_devs.c:43-46 | then the size is the lesser of what is asked for and what is left of the view |
| `DiskView.PatchRegion` | drivers/disk_devs.c:66-80 | reading partial sectors, patching and writing them back changes the patched bytes only |
| `DiskView.Disk.WriteChunk` | drivers/disk_devs.c:55-80 | one chunk through the bounce buffer changes exactly its own bytes, whatever the buffer held before |
| `DiskView.Disk.DoWrite` | drivers/disk_devs.c:39-92 | a write changes exactly the range asked for or what is left of the view; no space exactly from the end of the view on, no memory exactly if the buffer page is not to be had and there is something to write; a device fault, only if the device fails, leaves a prefix written |
| `DiskView.Disk.DoRead` | drivers/disk_devs.c:39-92 | a read returns exactly the slice asked for or what is left of the view, nothing from its end on, and fails only for lack of memory or if the device fails |

## Left out

- User buddy pool (allocaters/buddy_alloc.c:157-303, 387-501): a separate design that the modelled paths do not use.
- Buddy.KernelBuddy.KernelFree: an address strictly inside the first page of a block in use is outside the contract, because the code then links that odd address; every other address is covered.
- Buddy.KernelBuddy.constructor: takes a shadow that covers the pool; Buddy.ShadowCovers says exactly when it does. Boot passes page-aligned addresses.
- Big-page mapping branches and InitPaging (paging/paging.c:78-209, 271-300): deliberate no-ops and hardware setup.
- PageMap.MapIn: takes a path without a present 1 GiB entry, which the code would walk through as if it were a table and user spaces never hold; an attempt that reports an existing big page may still set that entry's user bit, so only targets are promised unchanged.
- Spaces.MapPage: takes user spaces without page-size bits, which every new space is, and forks, mappings and unmappings keep.
- AddressSpace.Memory.FreeEntries: a big leaf counts as one released frame, the head FreeBuddy is called with; how many pages that block has is the buddy's record.
- PageViews.UnmapIn: the shootdown that follows the cleared entry is the protocol of TlbShootdown, not part of this contract.
- TlbShootdown.NoStaleTranslation: takes a fixed set of online CPUs, and counts a full flush as dropping global entries too.
- Spinlocks, interrupt flags, nested timer ticks and context switches: regions under a lock are single steps.
- KernelRuns.EveryRunKeeps: takes runs without the three kinds of step named in KernelLimits.StepExact, because the code breaks the invariant there; KernelLimits.RunExact proves that this is exactly the condition. The same holds for StepKeeps, TasksInOnePlace, OneHolder and NoMissedChild.
- KernelRuns.StepKeeps: an exit's last step is not enabled for a child whose parent has vanished, where the code would read through a null pointer; KernelLimits.ParentVanishesExact says when that happens.
- KernelFrees.FreedIsGone: the reuse of freed memory by a later task is not modelled; that freed tasks are nowhere is what makes it harmless.
- Closing files, freeing the address space and the tty pointer in free_dead_task (multi/scheduler.c:276-304): the address space is AddressSpace's, the rest bookkeeping.
- Waiting.TakeLocked: the zombie list is a sequence here, linked in the code; unlinking is shown on the run queues, mutex queues and sleep lists.
- SlabHeap.DeleteSlab: the three slab lists are sequences here, linked in the code.
- PipeRing.Ring.Read: the waiter queues of a pipe are sequences here, linked in the code. The same holds for Write and Close.
- Relocking a mutex one already owns: excluded as in any non-recursive mutex.
- Signals waking parked tasks, FIFO open, pty and tty switching: they break the queue ownership assumed here.
- `do_waitpid`'s -ECHILD and -EINVAL returns: they leave the modelled state unchanged.
- Ext2Grow.AddBlock: takes an index below the largest file; when the path follows a non-zero word of block 0, nothing is promised (WildWrite shows what happens for a missing double root).
- Ext2Runs.Inode.AddBlocks: for inodes without indirect roots, and sizes up to 12 + the pointers of one block; for others Append states each step.
- Ext2Runs.Inode.Truncate: the counter is lowered after the cut, by the count the loops kept, not in between.
- ext2 bitmap numbering, block groups, directories, rename, symlinks, timestamps: allocation is "the next free block, zeroed", release is recorded.
- CacheRuns.Transparent: one superblock and one caller at a time, who stores only through pinned buffers and releases carefully, which CacheRuns.RunExact proves necessary; bclean and bclean_all are not modelled.
- Buffers marked invalid but still linked (file_system/blocks_buffer.c:109-111): binvalidate frees them, so none exist.
- SlabHeap.SearchCache: takes caches with more than one slot per slab, because SlabSpec.TakeEmptyKeeps shows the lists break otherwise; all configured caches have more.
- SlabHeap.Heap.Kmalloc: the pages of a new slab are a parameter and always to be had; the lock is dropped while a slab is added, and other callers in between are not modelled, nor is the zeroing of the object.
- SlabHeap.Heap.Kfree: a pointer into a used slab must be the address of a live slot; a double free breaks the slab (SlabSpec.GiveBackExact), and pointers into the middle of an object are not covered.
- PipeSpec.BytesInOrder: which write a byte came from is not recorded; SIGPIPE is the end of the call.
- GetdentsCall.File.GetDents: failed calls lose the entry they had pulled, as in the code; the stream results are about successful ones.
- DiskView.Disk.DoWrite: takes an offset and length that the clamp handles; DiskView.ClampExact proves that this is exactly when the 64-bit sum does not wrap to an end inside the view. The same holds for DoRead.
- The mapping of file types to d_type values (file_system/vfs_file.c:195-206): a table.
- AHCI, PCI, ACPI, APIC, consoles, procfs, devfs, syscall dispatch and user programs: device I/O, display and plumbing.
