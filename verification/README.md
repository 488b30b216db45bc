# loong-OS: a verified model of the kernel's stateful core

loong-OS is a small Unix-like kernel for 32-bit x86. This project models the parts of it that keep
state over long runs, in the form the C code has: classes whose methods update their fields, loops with
invariants, arrays and words of memory changed in place. Each method is proved against a specification,
and what the kernel is for is proved of that specification, over every run.

Six subjects, each in a few files; `Seqs` holds what several share.

* **Scheduler and locks** (`Scheduler`, `Locks`, `LockProofs`, `LockRuns`, `StepLaws`, `ThreadQueues`,
  `KernelThreads`, `KernelRuns`). Every stretch with interrupts off is one atomic step, every other statement
  is a step of its own, and any thread may be interrupted between two steps by the timer. `LockRuns` holds the
  results: mutual exclusion, no lost wakeup, the meaning of `holder` and `holder_repeat_nr`, one RUNNING
  thread, bounded waiting. `StepLaws` says event by event what becomes of the counters, the states and the
  lists, and how long a thread keeps the processor. `KernelThreads` has the kernel's code as methods that
  change its globals and relink its lists: `ThreadQueues` keeps the ready list, the list of all threads and
  the waiters of every semaphore as links inside the threads' pages. `KernelRuns` does every event of the
  state machine in place and runs it from `thread_init` on.
* **Heap and paging** (`Lists`, `Bits`, `Bitmaps`, `HeapState`, `HeapSteps`, `HeapMemory`, `HeapLinks`,
  `HeapUpdates`, `HeapPages`, `KernelHeap`, `HeapRuns`, `PageTables`, `Mmu`, `HeapPaging`).
  `KernelHeap.SysMalloc` and `SysFree` work on words of memory: arena headers are words in a page, and the
  links of the free lists are words inside the free blocks. `HeapRuns` lets clients write into the blocks they
  hold at any time and proves that the heap refines a map from live blocks to their words and that, with
  nothing live, it is what it was at the start. `PageTables` and `Mmu` take the page table down to directory
  and table words reached through the self-mapped slot (Intel SDM volume 3A, section 4.3), from the directory
  the loader builds on; a frame nothing was written to is zero. `HeapPaging` runs the heap's page calls on
  those tables.
* **File blocks** (`Disk`, `FileLayout`, `FileGrow`, `FileWritePost`, `FileReading`, `FileOps`, `FileRuns`,
  `FileCases`). The specification is one byte sequence per file. `FileOps.Partition` has `file_write`,
  `file_read` and `inode_release` on sectors of 512 bytes, a block bitmap and packed block tables.
* **Inodes on disk and in memory** (`InodeSlots`, `InodeCache`, `InodeRuns`). 76-byte slots, some across two
  sectors; the list of open inodes and its counts, run together with the slots they are read from and synced
  to; an inode that is loaded has what was saved last.
* **Directories and paths** (`DirEntries`, `Directories`, `Paths`, `DirTree`, `TreeRuns`, `WashTree`,
  `DirCases`). A directory is a finite map from names to entries kept in slots of sectors; a path is parsed,
  washed and printed; `sys_getcwd` climbs and `search_file` descends; trees grow and shrink over whole runs; a
  washed path leads where the path itself leads, by the "." and ".." entries on the disk.
* **Fork** (`Fork`). The page-by-page copy of `copy_body_stack3` between two address spaces.

Where an ASSERT of the C code would halt the kernel, a method returns a value that says so, and its
contract says exactly when.

## Where the code differs from its evident intent

The model does what the code does. Each difference is a theorem that says for which inputs the code is
right; for most of them a lemma also names a case in which it is wrong.

* `fs/file.c:494` tests `> 12`: a read that starts in a direct block and ends in block 12 falls into the last
  branch, which does not collect the direct blocks. `FileReading.ReadRightIff` shows that a read is right
  whatever sector 0 holds exactly outside that case; `FileReading.ReadsBootSector` says which bytes are wrong
  and that the others are right, and `FileCases.SkippedRead` creates, writes and reads a file that meets it.
* `fs/file.c:446-447` subtracts without a test, and `sys_lseek` admits the position `i_size + 1`.
  `FileOps.Partition.FileRead` says when nearly 2^32 bytes are asked for and when the ASSERT halts instead.
* `boot/loader.S:185-190` writes one table into the directory slots 0 and 768, and every kernel thread runs on
  that directory. A page of the heap's first 768 is therefore mapped below 4 MiB as well
  (`HeapPaging.HeapPageTwice`); `Mmu.OnlyPageIff` says exactly when mapping a page leaves all others alone.
* `fs/file.c:284` makes 139 blocks the real limit. `FileOps.Partition.FileWrite` returns -1 beyond 140 * 512
  bytes and halts exactly if the write needs block 139 (counted from 0) or more blocks than are free.
* `lib/kernel/bitmap.c:31` halts on a full map, so allocation of one bit never returns -1, and the branches of
  the callers that handle it (`kernel/memory.c:165-168` among them) are dead. Line 56 tests one bit behind the
  map; `Bits.ScanStaysInside` says exactly when a run that uses it is returned, and `Bits.ScanLeavesMap` gives
  one. The heap's page bitmap is modelled with that bit.
* `fs/inode.c:43` cuts the inode number to eight bits. `InodeSlots.SyncRightIff`: an inode is found under its
  number after a sync exactly if the number is below 256. `InodeCache.TwoCopies` ends with two copies of it in
  memory for each number from 256 on; `InodeCache.OneCopyByNumber`: with no number below 256, as long as
  numbers are opened in use and given out closed.
* `fs/fs.c:744-772` and `fs/dir.c:380-398` remove a directory that others have open, and free its number,
  where `sys_unlink` tests for it (`fs/fs.c:557-571`). `InodeCache.CreatedWhileOpen` makes, opens and removes
  a directory and creates a file, of whose number there then are two copies. `InodeCache.OneCopyIff`: a run
  with numbers below 256 keeps one copy of each inode exactly if no number is given to a new file while a
  handle to it is out.
* `fs/fs.c:780-781` opens the working directory's number without asking whether it was removed, and a deleted
  entry that stayed (see below) is opened by name. `InodeCache.OpenedAfterRemoval`: the cleared slot is loaded
  as a second copy of the root's inode. `InodeCache.AccountsIff` says for every run and every disk exactly
  which calls keep the list an account of the handles.
* `fs/dir.c:122-126` never reads the indirect table on insert. `DirEntries.InsertKeepsOthersIff`: all other
  names stay exactly if there is room in the direct blocks or nothing behind them; `DirCases.InsertCanLose`
  fills a root directory until there is not.
* `fs/dir.c:275-276` clears a local copy only. `DirEntries.DeleteRemovesIff`: a deleted name is gone exactly
  if its entry was not alone in a block behind the first; `DirCases.DeleteCanFail` is a run to a directory
  where it stays. Behind the direct blocks the loop at `fs/dir.c:280-284` never ends, and
  `Directories.Dir.DeleteDirEntry` says when.
* `fs/fs.c:304` does not clear `name` before the first call of `path_parse`. `Paths.PathDepth` takes what the
  first byte happens to be as an input: the depth of a path without names depends on it, any other is right.
* `fs/fs.c:871` tests `<= size`, and line 855 tests nothing: `DirTree.GetCwd` says for which sizes the
  terminating zero lies behind the caller's buffer. Lines 860-869 append to 512 bytes without a test, and it
  says for which directories they are overrun.

## Model

| member | source | states |
|---|---|---|
| LockRuns.NoAssertFires | thread/sync.c:22-75 | In no interleaving from the start, with threads started at any time, does an ASSERT of the semaphore, lock and scheduler functions fire. |
| LockRuns.MutualExclusion | thread/sync.c:52-75 | In every reachable state at most one thread is between a successful `sema_down` and the end of the matching `sema_up` of a lock, and `holder` names only that thread. |
| LockRuns.NoLostWakeup | thread/sync.c:22-48 | Whenever a lock's semaphore is 1 and threads sleep on it, an already woken thread is on its way through `sema_down` and is not asleep. |
| LockRuns.RepeatIsNestingDepth | thread/sync.c:52-75 | `holder_repeat_nr` of a lock that is held is the number of completed acquires minus releases by its holder, counted over the whole run. |
| LockRuns.SchedulerState | thread/thread.c:148-223 | In every reachable state exactly one thread is RUNNING, the ready list holds each READY thread once and nothing else, and no thread is on two lists. |
| LockRuns.WaitingPosition | thread/thread.c:148-223 | Until it gets the processor, a thread found at place k of the ready list stands at k plus the front pushes minus the `schedule` calls since. |
| LockRuns.BoundedWaiting | thread/thread.c:148-186 | A thread at place k of the ready list has the processor by the (k+1+u)-th `schedule` call, u being the front pushes meanwhile. |
| LockRuns.SliceBound | device/timer.c:37-48 | Without a `schedule` call the running thread stays, and its remaining ticks go down by one each timer interrupt, so a slice lasts at most priority + 1 of them; `StepLaws.FullSlice` has the other half. |
| StepLaws.SliceExact | device/timer.c:37-48 | If only the timer calls `schedule`, the running thread keeps the processor iff no more timer interrupts come than it has ticks left. |
| StepLaws.FullSlice | thread/thread.c:152-158 | A thread the timer took the processor from has it, when its turn comes again, for priority + 1 timer interrupts, no more and no fewer, if only the timer calls `schedule` meanwhile. |
| StepLaws.FirstSlice | thread/thread.c:116-133 | The same for the first slice of a thread that is started. |
| StepLaws.CountersAfter | device/timer.c:37-48 | A timer interrupt charges one tick to the interrupted thread and takes one off its slice, or refills the slice with its priority when none is left; no other event and no other thread's counters change. |
| StepLaws.StartedFull | thread/thread.c:116-133 | A started thread is READY with `ticks` equal to its priority and no tick elapsed, and threads come by no other event. |
| StepLaws.StatusAfter | thread/thread.c:148-223 | A parked thread keeps its state until it is unblocked or `sema_up` takes it from the waiters, and then is READY; a thread that blocks gets the state it asked for. |
| StepLaws.ReadyAfter | thread/thread.c:116-223 | For each event what the ready list is afterwards: the preempted, the yielding and the started thread join its end, the unblocked one its front, and `schedule` takes the first. |
| StepLaws.WaitersAfter | thread/sync.c:22-48 | A thread that finds the semaphore taken joins the end of its waiters, `sema_up` takes the first, and nothing else changes them. |
| LockProofs.StepKeeps | thread/sync.c:22-75 | Every step of every thread keeps the invariant of locks and scheduler and halts in no ASSERT. |
| LockProofs.HolderOwns | thread/sync.c:52-75 | A thread that finds itself in `holder` has the lock's semaphore. |
| LockProofs.DownBlocks | thread/sync.c:22-33 | A `sema_down` on a taken semaphore queues the thread once, switches to another, and keeps the invariant. |
| LockProofs.UpKeeps | thread/sync.c:38-48 | `sema_up` wakes the first waiter, if any, and leaves the lock free for whoever comes first. |
| LockProofs.FirstWaiterSleeps | thread/sync.c:40-45 | The waiter that `sema_up` takes off the list is blocked, so the status ASSERT of `thread_unblock` holds. |
| Scheduler.ScheduleKeepsInv | thread/thread.c:148-186 | `schedule` keeps the scheduler invariant from any of its callers, and its ASSERTs, the pop and the unblocking of idle are safe. |
| Scheduler.YieldKeepsInv | thread/thread.c:189-197 | `thread_yield` keeps the invariant and puts the caller at the end of the ready list. |
| Scheduler.BlockKeepsInv | thread/thread.c:201-208 | `thread_block` keeps the invariant and parks the caller. |
| Scheduler.UnblockKeepsInv | thread/thread.c:211-223 | `thread_unblock` of a parked thread keeps the invariant and pushes it to the front. |
| Scheduler.TickKeepsInv | device/timer.c:37-48 | The timer handler keeps the invariant, `ticks <= priority` included. |
| Scheduler.SpawnKeepsInv | thread/thread.c:116-133 | Starting a thread keeps the invariant. |
| Scheduler.ScheduleMovesUp | thread/thread.c:148-186 | One `schedule` call moves every queued thread one place up; the first gets the processor. |
| KernelThreads.Kernel.ThreadUnblock | thread/thread.c:211-223 | The code on the kernel's globals and on the linked ready list does what the scheduler's function says, halts exactly where that does, and relinks no other list. |
| KernelThreads.Kernel.DoSchedule | thread/thread.c:148-186 | The same for `schedule`; what that function does to ticks, states and the ready list is said by `StepLaws`. |
| KernelThreads.Kernel.ThreadYield | thread/thread.c:189-197 | The same for `thread_yield`. |
| KernelThreads.Kernel.ThreadBlock | thread/thread.c:201-208 | The same for `thread_block`. |
| KernelThreads.Kernel.TimerHandler | device/timer.c:37-48 | The same for the timer handler: it halts exactly if the running thread's stack magic is damaged or the scheduler's function would, and counts the interrupt in `ticks`. |
| KernelThreads.Kernel.ThreadStart | thread/thread.c:116-133 | The same for starting a thread, which also joins the list of all threads and gets its stack magic. |
| KernelThreads.Semaphore.DownPass | thread/sync.c:22-35 | One pass of `sema_down` from disabling interrupts to the switch or to the end, on the linked lists. |
| KernelThreads.Semaphore.Up | thread/sync.c:38-48 | `sema_up` on the semaphore's value and its linked waiters list; the thread popped is on no list when it is unblocked. |
| KernelThreads.Kernel.Enqueue | thread/thread.c:121-130 | The `elem_find` ASSERT halts iff the thread is on the list; otherwise the list ends in it and all other lists are as before. |
| KernelThreads.CallsAllowed | thread/sync.c:22-48 | Wherever the locks' invariant holds, the lists are such that these methods may be called: no thread that is about to be queued is on another list by the same element. |
| KernelThreads.DownStep | thread/sync.c:22-33 | From a state with the invariant a pass of `sema_down` on the linked lists does not halt and leads to the state that the step of `Locks` leads to. |
| KernelThreads.UpStep | thread/sync.c:38-48 | The same for `sema_up`. |
| KernelRuns.Threads.Statement | thread/sync.c:52-75 | Each statement of the lock code, done on the fields of the lock in memory, leads to the state that the step of `Locks` leads to, with the thread at the next statement. |
| KernelRuns.Threads.Perform | thread/sync.c:22-75 | The same for every event: statements of the lock code, calls, the timer, yielding, blocking, unblocking and starting a thread; none halts. |
| KernelRuns.Threads.Simulate | thread/thread.c:116-223 | Every run of the state machine, done in place, does not halt and ends in memory that shows its last state. |
| KernelRuns.InitKernel | thread/thread.c:299-312 | `thread_init` links the lists in memory that show the first state of the runs. |
| KernelRuns.BootAndRun | thread/thread.c:116-312 | From `thread_init` on, every run of the state machine can be done in place on the linked lists without a halt. |
| ThreadQueues.Relinked | lib/kernel/list.c:14-46 | Linking a thread into or out of one list leaves every other thread list as it was, though all of them run through the threads' pages. |
| ThreadQueues.Pop | thread/thread.c:171-177 | The element popped, rounded down to its page, is the first thread of the list. |
| ThreadQueues.PoppedIsFree | thread/sync.c:42-43 | A thread popped off a waiters list is on no list that uses its `general_tag`. |
| HeapRuns.HeapRefinesMap | kernel/memory.c:353-491 | Over every run of `sys_malloc`, valid `sys_free` and client writes, the live blocks are those of the simple map, at the addresses returned, with the words last written (zero at first), and the heap's invariants hold. |
| HeapRuns.AllFreedRestores | kernel/memory.c:353-491 | Once everything handed out is taken back, in any order, arenas, free lists, page table and both bitmaps equal the initial ones. |
| HeapRuns.LiveBlocksApart | kernel/memory.c:353-447 | In every reachable state a byte of a live block lies in no other live block, no free block and no arena header, and its page is mapped, by an injective page table. |
| HeapRuns.CountsAreFreeBlocks | kernel/memory.c:328-491 | Each small arena's `cnt` is the number of its blocks on its descriptor's list, which has no duplicates, and is below the arena's number of blocks. |
| HeapRuns.StoreStep | kernel/memory.c:343-350 | A client's write into its own block changes that block's word and damages neither another block nor the heap's own words. |
| HeapRuns.MallocStep | kernel/memory.c:353-447 | A returned block is new, has at least the bytes asked for, all zero, and everything else live keeps address and contents; a large one takes the least number of pages that hold it and the header, a small one the least block size. |
| HeapRuns.FreeStep | kernel/memory.c:450-491 | A freed block is no longer live, and everything else live keeps address and contents. |
| HeapRuns.MallocOrder | kernel/memory.c:394-447 | A small request is served by the first block of the list of the least size that suffices, which loses it; from an empty list, by block 0 of a new arena, whose other blocks become the list in order. |
| HeapRuns.FreeOrder | kernel/memory.c:470-487 | A freed small block joins the end of its list, or, when it was the last live one of its arena, all blocks of the arena leave the list; the other lists stay. |
| HeapState.BlockSizes | kernel/memory.c:328-340 | The seven block sizes start at 16 and double up to 1024. |
| HeapState.ArenaFilled | kernel/memory.c:328-340 | An arena holds as many blocks as fit behind the 12 bytes of its header in a page, and not one more would. |
| HeapSteps.MallocKeeps | kernel/memory.c:353-447 | `sys_malloc` keeps the heap invariant and makes exactly the returned block live. |
| HeapSteps.FreeKeeps | kernel/memory.c:450-491 | `sys_free` keeps the heap invariant, dissolving an arena with its last block, and makes exactly that block not live. |
| HeapSteps.ArenaHasLive | kernel/memory.c:470-487 | Between calls every arena has a live block. |
| HeapSteps.PagesHoldLive | kernel/memory.c:353-491 | The pages the heap has marked are exactly those of arenas that hold a live block. |
| HeapSteps.EmptyIsInitial | kernel/memory.c:450-579 | The invariant with nothing live leaves only the initial state. |
| HeapSteps.MarkedIffMapped | kernel/memory.c:152-174 | A page of the map is marked iff it is mapped, no frame serves two pages, and every mapped frame is marked used. |
| KernelHeap.KernelHeap.SysMalloc | kernel/memory.c:353-447 | For a large request, with the n for which 4096 * (n - 1) < size + 12 <= 4096 * n, and for a small one: when it returns NULL and when it halts, by the free pages and frames. Otherwise the first block of the right list, or the first of a new arena; large enough by the least margin, zero, not live before, at the address of its page and index, with all live blocks untouched and lists, counts and headers in memory in order: a step of the runs. |
| KernelHeap.KernelHeap.SysFree | kernel/memory.c:450-491 | On a live block no ASSERT fails, the one on `K_HEAP_START` included, the block goes back to the end of its list or its arena is dissolved and its page returned, and the blocks that stay live keep their words: a step of the runs. |
| KernelHeap.KernelHeap.constructor | kernel/memory.c:585-591 | After `mem_init` memory and bookkeeping are in the initial state from which the runs start. |
| KernelHeap.KernelHeap.BlockDescInit | kernel/memory.c:328-340 | The seven descriptors get sizes 16 to 1024, their blocks per arena, and empty lists. |
| KernelHeap.KernelHeap.Split | kernel/memory.c:429-433 | The splitting loop links every block of the new arena once, and its ASSERT never fires. |
| KernelHeap.KernelHeap.PopBlock | kernel/memory.c:437-442 | Unlinking, clearing and counting a block leaves all live blocks and all other links alone. |
| KernelHeap.KernelHeap.Dissolve | kernel/memory.c:479-485 | The loop finds and unlinks every block of a wholly free arena and nothing else. |
| HeapUpdates.Block2Arena | kernel/memory.c:343-350 | Rounding a block's address down to its page gives its arena's header. |
| HeapPages.Pool.MallocPage | kernel/memory.c:152-174 | It halts for 0 or 3840 pages or more, for a full page map, and for too few frames; returns NULL, unchanged, if there is no run; otherwise marks the least run and maps each page to a free frame of its own. |
| HeapPages.Pool.MfreePage | kernel/memory.c:541-579 | It succeeds iff all its pages are mapped to frames of the pool, and then frees exactly these frames, entries and bits. |
| HeapPages.Pool.VaddrGet | kernel/memory.c:64-75 | Sets exactly the bits of the run that the search found. |
| HeapPages.Pool.Palloc | kernel/memory.c:109-117 | Takes the least free frame and halts iff there is none. |
| HeapPages.Pool.VaddrRemove | kernel/memory.c:517-524 | Clears exactly the bits of the run. |
| HeapPaging.BitmapIsPageTable | kernel/memory.c:64-174 | Between heap calls a bit of the page bitmap is set iff the processor's walk reaches the page; no two pages of the heap lead to one frame; frames reached are marked. |
| HeapPaging.AddIsUpdate | kernel/memory.c:120-143 | `page_table_add` on the tables is one update of the map from heap pages to frames, in the loader's directory too. |
| HeapPaging.RemoveIsUpdate | kernel/memory.c:510-514 | `page_table_pte_remove` removes one entry of that map, in the loader's directory too. |
| HeapPaging.LoaderAgrees | boot/loader.S:174-223 | The tables the loader leaves hold the empty map: no heap page is mapped and all entries are zero, all tables of the kernel's half are there, and none is a frame of the kernel's pool. |
| HeapPaging.HeapPageTwice | boot/loader.S:185-190 | With slots 0 and 768 sharing a table, heap page i below 768 is mapped at page 0x100 + i too, which led nowhere before. |
| HeapPaging.KernelPages.MallocPage | kernel/memory.c:152-174 | On the tables the call ends as on the map, with the same pages and frames; afterwards tables, map and the pool's one bitmap still agree, so no page of the heap and no free frame is a table. |
| HeapPaging.KernelPages.MfreePage | kernel/memory.c:541-579 | The frames are found by walking the tables; the call succeeds iff every page is mapped, and tables, map and bitmap still agree. |
| HeapPaging.KernelPages.EnterPage | kernel/memory.c:120-143 | `page_table_add` for a heap page needs no new table and never halts. |
| HeapPaging.KernelPages.LeavePage | kernel/memory.c:553-562 | `addr_v2p` finds the frame that the map has, and frame and entry go together; for a page that is not mapped it finds frame 0, and the ASSERT fails. |
| HeapPaging.KernelPages.ClientStore | kernel/memory.c:152-174 | A client's write to a mapped heap page reaches no page table: every page leads where it did. |
| HeapPaging.KernelPages.MapOther | kernel/memory.c:120-143 | Mapping a page outside the heap may take a table from the same pool, never a frame of the heap, and leaves tables, map and bitmap in agreement. |
| HeapPaging.ClientWrite | kernel/memory.c:152-174 | Whatever a client writes into its pages, the walk of every page stays. |
| Bits.ScanFinds | lib/kernel/bitmap.c:24-72 | The search halts iff the map is full, returns the least clear run of the length, and reports none iff there is none. |
| Bits.ScanStaysInside | lib/kernel/bitmap.c:51-70 | The run returned lies in the map iff some run of its length does; otherwise it ends in the bit behind it. |
| Bits.ScanLeavesMap | lib/kernel/bitmap.c:51-70 | A map for which the search returns a run that is not inside. |
| Bitmaps.Bitmap.Scan | lib/kernel/bitmap.c:24-72 | The loops over bytes and bits compute that search. |
| Bitmaps.Bitmap.Set | lib/kernel/bitmap.c:75-84 | Setting or clearing changes one bit of the sequence and one byte of the array. |
| Bitmaps.Bitmap.ScanTest | lib/kernel/bitmap.c:14-21 | The byte and mask used are those of the bit. |
| Bitmaps.Bitmap.Init | lib/kernel/bitmap.c:9-11 | Clears the map and leaves the byte behind it. |
| Lists.Memory.ListInit | lib/kernel/list.c:6-11 | The sentinels form an empty list. |
| Lists.Memory.InsertBefore | lib/kernel/list.c:14-21 | The contents gain the element at its place, and only four words of memory change. |
| Lists.Memory.Push | lib/kernel/list.c:24-26 | The element becomes the first. |
| Lists.Memory.Append | lib/kernel/list.c:29-31 | The element becomes the last. |
| Lists.Memory.Remove | lib/kernel/list.c:34-39 | The contents lose the element, and only two words of memory change. |
| Lists.Memory.Pop | lib/kernel/list.c:42-46 | Returns and removes the first element. |
| Lists.Memory.ElemFind | lib/kernel/list.c:50-59 | True iff the element is in the contents. |
| Lists.Memory.Traversal | lib/kernel/list.c:62-74 | The first element that meets the condition, or NULL if none does. |
| Lists.Memory.Len | lib/kernel/list.c:79-87 | The number of elements. |
| Lists.Memory.Empty | lib/kernel/list.c:90-92 | True iff there are no elements. |
| Lists.ListIsUnique | lib/kernel/list.c:50-87 | The links determine the contents. |
| PageTables.SelfMapReads | kernel/memory.c:97-106 | Through the self-mapped slot `pte_ptr` and `pde_ptr` address the very entries the processor's walk uses. |
| PageTables.EntryFields | kernel/memory.c:120-143 | An entry that is written is present, writable and open to user mode, has no other flag set, and names the frame. |
| PageTables.SetPte | kernel/memory.c:120-143 | Writing one table entry changes what the pages mean that are read off it (one, or two where slots 0 and 768 share the table) and no other. |
| PageTables.AddTable | kernel/memory.c:133-141 | Hanging a cleared table into an empty directory slot changes no page's meaning. |
| PageTables.LoaderSpace | boot/loader.S:174-223 | The loader's directory is one of those the results are about; its slots 0 and 768 share a table, and no page behind the low megabyte is mapped in the kernel's half. |
| Mmu.Machine.AddrV2P | kernel/memory.c:253-256 | For a mapped address it returns the physical address the walk leads to. |
| Mmu.Machine.PageTableAdd | kernel/memory.c:120-143 | It halts iff the page is mapped or a table is needed and no kernel frame is left; otherwise the page, and the other page read off the same entry if there is one, lead to the frame and all other pages are as before, the entry written has the flags 7, and a new table is in a kernel frame that was free. |
| Mmu.Machine.PteRemove | kernel/memory.c:510-514 | The page, and the other page read off the same entry if there is one, lead nowhere and all others are as before; it faults iff there is no table. |
| Mmu.OnlyPageIff | kernel/memory.c:120-143 | Mapping a page leaves every other page as it was iff the page is not in one of two slots that share their table. |
| Mmu.Machine.CreatePageDir | userprog/process.c:63-97 | The new directory has the kernel's half of the active one and maps itself. |
| Mmu.NewSpace | userprog/process.c:63-97 | In it no user page is mapped and every kernel page means what it did; the old space is not affected. |
| Fork.CopyBodyStack3 | userprog/fork.c:48-83 | It succeeds iff the user pool has a free frame for each marked page and the kernel pool one for each directory slot they lie in. The child then has exactly the pages the bitmap marks, each in a frame of its own that was free, with the parent's words; the parent's mapping and pages are unchanged and its directory is active again. |
| Fork.CopiedPages | userprog/fork.c:48-83 | Said page by page: after a copy the child's user pages are the marked ones and no others, each in a frame of its own from the user pool that was free, with the words of the parent's page. |
| Fork.CopyPage | userprog/fork.c:65-74 | One page through the buffer, switching directories twice, keeps everything copied before. |
| Fork.MapChild | kernel/memory.c:234-248 | A free user frame is mapped in the child's space, with a table from the kernel's pool if needed; it succeeds iff both are to be had. |
| Fork.ReadyAfterCreate | userprog/fork.c:130-159 | A directory as `create_page_dir` leaves it and a kernel page for copying are all the loops need. |
| FileOps.Partition.FileWrite | fs/file.c:231-436 | When it returns -1 and when it halts; otherwise the file's bytes are the old ones followed by the buffer, every other file keeps bytes and blocks, exactly the blocks gained were free and are now marked, and `fd_pos` is the new size minus 1, in 32 bits. |
| FileOps.Partition.FileRead | fs/file.c:441-549 | From a position up to `i_size`: -1 iff it is `i_size` and bytes are asked for; otherwise as many bytes as asked for or as are left, those of the file from the position on but for the case of `FileReading.ReadRightIff`, and the advanced position. It asks for nearly 2^32 bytes iff the position is behind the end and below 139 * 512, and halts iff it is not below that. |
| FileOps.Partition.InodeRelease | fs/inode.c:168-215 | Clears exactly the bits of the blocks and the table its file owns. |
| FileOps.Partition.CollectBlocks | fs/file.c:264-389 | The four allocation cases reserve exactly what the new size needs and collect the file's own blocks in order. |
| FileOps.Partition.GrowDirect | fs/file.c:302-325 | Growth within the direct blocks. |
| FileOps.Partition.GrowAcross | fs/file.c:326-363 | Growth from direct to indirect blocks, with a new table. |
| FileOps.Partition.GrowIndirect | fs/file.c:364-388 | Growth behind an existing table. |
| FileOps.Partition.WriteChunks | fs/file.c:393-420 | The chunk loop appends the buffer to the bytes. |
| FileOps.Partition.BlockBitmapAlloc | fs/file.c:67-74 | The least free block; a halt iff there is none. |
| FileReading.ReadRightIff | fs/file.c:477-545 | A read returns the file's bytes whatever sector 0 holds iff it does not start in a direct block and end in block 12. |
| FileReading.ReadsContents | fs/file.c:477-545 | Outside that case it returns exactly the bytes from the position on. |
| FileReading.ReadIsFrom | fs/file.c:477-545 | For every position and length within the file: the file's bytes outside that case, and in it sector 0's in place of those of direct blocks. |
| FileReading.ReadsBootSector | fs/file.c:490-500 | In that case exactly the bytes that belong to direct blocks, the first one among them, are sector 0's, and the others are the file's. |
| FileCases.SkippedRead | fs/file.c:231-549 | On a formatted partition a file of zeros is created, written and read up to block 12; the first byte read is sector 0's, which is 1. |
| FileLayout.Frame | fs/file.c:231-436 | A file is what its own sectors say: writes and marks elsewhere leave it alone. |
| FileLayout.AppendChunk | fs/file.c:393-420 | Filling a chunk of block size/512 appends the chunk to the bytes. |
| Disk.DecodeEncode | fs/file.c:349-386 | The 128 addresses packed into a table sector are read back as written. |
| FileWritePost.CreateKeeps | fs/inode.c:132-142 | A fresh inode adds an empty file and keeps the partition's invariant. |
| FileRuns.StepRefines | fs/file.c:231-436 | Creating, appending to and releasing a file do to the partition's files what they do to a map of byte sequences. |
| FileRuns.RunRefines | fs/file.c:231-436 | Over every run the partition's files are those of that map. |
| FileRuns.NoBlockOwnedTwice | fs/file.c:264-389 | In every reachable state a block serves one file, once, and not as a table. |
| FileRuns.RunAccounts | fs/inode.c:168-215 | Over every run the marked blocks are the system's and those that files own. |
| FileRuns.ReleasingAllRestoresBitmap | fs/inode.c:168-215 | Once no file is left the block bitmap is what it was when there was none. |
| FileRuns.WriteThenRelease | fs/inode.c:168-215 | Creating, writing and releasing a file restores the block bitmap, and the other files. |
| FileRuns.WriteThenRead | fs/file.c:231-549 | Reading at the place where a write began returns what was written. |
| InodeSlots.Table.Locate | fs/inode.c:21-39 | The sector and the offset of byte `76 * n` of the table, and that two sectors are needed iff the slot reaches the sector's end. |
| InodeSlots.Table.Sync | fs/inode.c:42-71 | Through the sectors it lies in, slot `i_no % 256` gets the inode's number, size and addresses, with open count, write lock and links 0; no other slot changes. |
| InodeSlots.Table.Load | fs/inode.c:88-109 | Reading the one or two sectors yields the inode stored in the slot. |
| InodeSlots.Table.Delete | fs/inode.c:145-164 | The slot is cleared through its sectors. |
| InodeSlots.SplicedSlots | fs/inode.c:55-70 | Writing a slot leaves every other slot, and the sector behind the table, as they were. |
| InodeSlots.SyncedSlots | fs/inode.c:42-71 | A synced inode is stored in slot `i_no % 256` with its number, size and addresses and the rest cleared, and no other slot changes. |
| InodeSlots.SyncRightIff | fs/inode.c:42-71 | It is found under its own number, on any disk, iff the number is below 256. |
| InodeSlots.Table.SyncThenLoad | fs/inode.c:42-109 | Below 256 an inode synced and read back has the number, the size and the addresses it had and the other fields cleared, whatever the table held, and no other slot changes. |
| InodeSlots.BytesRoundTrip | fs/inode.c:50-58 | The 76 bytes of an inode give its fields back. |
| InodeSlots.BytesLayout | fs/inode.c:49-58 | The 76 bytes are little-endian words in the order of the struct: number, size, open count, write lock, thirteen addresses, two links. |
| InodeCache.OpenInodes.InodeOpen | fs/inode.c:74-114 | An open inode is found and counted; another is loaded, counted 1 and put in front. |
| InodeCache.OpenInodes.InodeClose | fs/inode.c:118-129 | The count goes down; with the last close the copy goes. |
| InodeCache.OpenInodes.Create | fs/file.c:128-167 | A new inode, of size 0 and without blocks, is written to its slot of the disk and put in front, open once. |
| InodeCache.OpenInodes.SyncOpen | fs/inode.c:42-71 | The disk gets number, size and addresses of the copy; open count, write lock and links are stored cleared. |
| InodeCache.OneCopyPerInode | fs/inode.c:42-129 | Over every run of opens, closes, changes, syncs, creations and deletions in which numbers are below 256, opened while in use, and given to a file only when no copy is open, there is at most one copy of an inode, its count is opens minus closes and positive, without a copy the two are equal, and each number in use is found in its own slot. |
| InodeCache.OneCopyIff | fs/inode.c:74-114 | With numbers below 256, opened while in use, a run never has two copies of an inode iff no number is given to a new file while opens exceed closes for it. |
| InodeCache.AccountsIff | fs/inode.c:74-129 | For every run, with any numbers and any disk: in every state the list holds one copy for each number with a handle out, counting its handles, iff every open found a copy or a slot that holds the number, and every creation found no copy. |
| InodeCache.CreatedWhileOpen | fs/fs.c:744-772 | For each number from 1 to 255, making a directory, opening it, removing it and creating a file ends with two copies. |
| InodeCache.OpenedAfterRemoval | fs/fs.c:780-789 | For each such number, opening it after its directory was removed makes a second copy of the root's inode. |
| InodeCache.OneCopyByNumber | fs/inode.c:42-114 | The runs about one inode number, opened while in use and given out closed, keep one copy of each inode iff the number is below 256. |
| InodeCache.TwoCopies | fs/inode.c:42-114 | For each number from 256 on, creating a file, closing it and opening it twice makes two copies. |
| InodeCache.SameHandle | fs/inode.c:74-87 | In such a run, while a copy is there, opening its number returns it. |
| InodeRuns.OpenYieldsSaved | fs/inode.c:42-114 | Over every run with numbers below 256, opened while in use, an open that loads an inode yields the size and the addresses that a sync, a creation or `sys_mkdir` saved last and no deletion has cleared since, counted 1. |
| InodeRuns.SavedIsStored | fs/inode.c:42-164 | Over every such run each slot holds what was saved last for its number. |
| InodeRuns.CopiesStay | fs/inode.c:74-129 | Opens, closes, syncs, creations and deletions leave number, size, addresses and write lock of every copy alone; its count goes up and down by one with its opens and closes. |
| InodeRuns.CopiesComeAndGo | fs/inode.c:74-129 | A copy comes with an open or a creation, counted 1, and goes with its last close and with nothing else. |
| Directories.Dir.SearchDirEntry | fs/dir.c:32-87 | Finds a name iff the directory's map has it, and returns the map's entry. |
| Directories.Dir.SyncDirEntry | fs/dir.c:108-205 | Fills the first unused slot of the direct blocks, or starts a new table; halts iff the blocks needed are not free; `i_size` grows by 24, exactly those blocks are marked, and no other block in use is written. |
| Directories.InsertedPlace | fs/dir.c:122-190 | The entry takes the first unused slot of the direct blocks and nothing else changes; if there is none it is the first behind them, and the only one. |
| Directories.Dir.DeleteDirEntry | fs/dir.c:208-314 | Reports a missing entry, hangs behind the direct blocks, leaves a lone entry of a later block in place while giving its block back, and otherwise clears the entry. |
| DirEntries.DeletedPlace | fs/dir.c:208-314 | A delete clears the first entry with the number, "." and ".." aside, and nothing else, or nothing at all when the block holds no other entry than it and "..". |
| Directories.Dir.DirRead | fs/dir.c:318-370 | Returns the entry number `dir_pos / 24` and moves on, or NULL at `i_size`. |
| Directories.Dir.ReadAll | fs/dir.c:318-370 | From position 0 to NULL it yields each entry once, in order, and ends. |
| Directories.Dir.GetChildDirName | fs/fs.c:794-834 | The name in the first slot with the inode number. |
| DirEntries.InsertIsUpdate | fs/dir.c:108-205 | With room, inserting a new name updates the map and keeps `i_size = 24 * entries`. |
| DirEntries.InsertKeepsOthersIff | fs/dir.c:122-190 | All other names stay iff there is room in the direct blocks or no entry behind them. |
| DirEntries.ClearIsRemove | fs/dir.c:298-308 | Clearing a slot removes its name from the map and keeps `i_size = 24 * entries`. |
| DirEntries.DeleteRemovesIff | fs/dir.c:208-314 | After a delete the name is gone iff the entry was not alone in a block behind the first; then the map loses exactly that name. |
| DirCases.DeleteCanFail | fs/dir.c:264-276 | Creating 20 files in the root of a fresh partition leads to a directory in which the last, deleted, can still be found. |
| DirCases.InsertCanLose | fs/dir.c:122-190 | Creating 251 files leads to a root directory without room, in which inserting any other name loses the last one. |
| Paths.PathParse | fs/fs.c:287-298 | Splits off the first name; the rest has the remaining names. |
| Paths.PathDepth | fs/fs.c:301-316 | The number of names; for a path without names 1 if the uninitialised buffer starts with a non-zero byte. |
| Paths.WashPath | shell/buildin_cmd.c:16-49 | The result is the printed form of the names folded over a stack. |
| Paths.ParsePrint | shell/buildin_cmd.c:16-49 | Parsing a printed path gives the names back. |
| Paths.WashedIsClean | shell/buildin_cmd.c:16-49 | A washed path is absolute and holds no empty, "." or ".." name. |
| Paths.WashedTwice | shell/buildin_cmd.c:16-49 | Washing is idempotent. |
| Paths.WashedLength | shell/buildin_cmd.c:16-49 | The washed path is not longer than the path. |
| Paths.RelativePath | shell/buildin_cmd.c:52-64 | A relative path is walked from the working directory. |
| Paths.MakeClearAbsPath | shell/buildin_cmd.c:52-64 | The final path is the walk from the root or from the working directory. |
| WashTree.WashedLeads | shell/buildin_cmd.c:16-49 | In every tree that the runs reach, if following a path's names through the entries on the disk, the "." and ".." entries included, leads to a directory, the washed path leads to it too. |
| WashTree.WashedFile | shell/buildin_cmd.c:16-49 | The same for what the last name leads to, a file or nothing, if the directories before it are there. |
| WashTree.RelativeLeads | shell/buildin_cmd.c:52-64 | A path followed from the working directory leads where the final absolute path leads from the root. |
| WashTree.WashThenSearch | shell/buildin_cmd.c:16-49 | Washing a path that leads to a directory and searching for the result finds that directory. |
| DirTree.SearchFile | fs/fs.c:320-377 | When it halts and when it returns an entry it never looked up; otherwise it resolves the path name by name, its record names the directory and the path reached, and its ASSERT on the length never fires. |
| DirTree.FindNameIsLookup | fs/dir.c:32-87 | The first slot with a name is the directory map's entry for it. |
| DirTree.GetCwd | fs/fs.c:841-883 | It halts iff the number is out of range or the path is longer than `size`, overruns its own buffer iff the path has 512 characters or more, and otherwise prints the names from the root down, with the zero behind the buffer iff the path has exactly `size` characters (or `size` is below 2 for the root). |
| DirTree.Climb | fs/fs.c:862-870 | Each parent's entry for the child is found, and the names collect from the bottom up, until the 512 bytes overflow or the root is reached. |
| DirTree.TurnRound | fs/fs.c:873-880 | Cutting names off the end turns the path round. |
| DirTree.GetCwdThenSearch | fs/fs.c:320-883 | Searching for the printed working directory finds that directory; with a buffer of 512 bytes it is printed iff its path is shorter. |
| DirTree.ChildSlot | fs/fs.c:780-834 | The first slot with the child's number is its entry and not "." or "..". |
| DirTree.ResolvePath | fs/fs.c:320-377 | The way down the names is the way up reversed. |
| DirTree.PathUnique | fs/fs.c:841-869 | A directory hangs in the tree by one path. |
| TreeRuns.RunHangs | fs/fs.c:541-776 | Over every run of making and removing directories and files, from the root alone, the directories form a tree and each has a path. |
| TreeRuns.MkdirHangs | fs/fs.c:585-698 | A new directory's path is its parent's and its name. |
| TreeRuns.StepKeepsPaths | fs/fs.c:585-698 | Making a directory or a file leaves every path as it was. |
| TreeRuns.ShrinkKeepsPaths | fs/fs.c:541-776 | Removing one leaves every other directory's path as it was. |

## Left out

Weaker than the source:

- FileOps.Partition.FileRead: where the count wraps around the call ends with that outcome; what the C code then copies from behind its address buffer is not described.
- FileOps.Partition.FileWrite: requires a buffer that fits the user's address space, so 32-bit sums do not wrap; the writes of the bitmaps and of the inode to the disk are not part of it.
- FileOps.Partition.InodeRelease: the inode bitmap and the clearing of the inode's slot are not part of it; `InodeSlots.Table.Delete` has the latter.
- KernelHeap.KernelHeap.SysFree: requires a live pointer, as the C code does; for any other the kernel's behaviour is not described. The branch for processes and the pool's lock are not part of it.
- KernelHeap.KernelHeap.SysMalloc: the branch for processes, with their own pool and descriptors, and the pool's lock are not part of it.
- KernelThreads.Kernel.ThreadStart: the page of the new thread is an input, and `pid`, `name`, the descriptors and the first stack are left out.
- InodeCache.OneCopyPerInode: each event is one step, where the code's calls can be interrupted by one another; counts do not wrap at 32 bits.
- LockRuns.NoAssertFires: a thread calls `lock_release` only on a lock it holds, without which the ASSERT on `holder` fires; and `thread_start` is one step, though the C code tests and joins the lists (`thread/thread.c:123-130`) with interrupts on.
- HeapRuns.HeapRefinesMap: for one address space, the kernel's; after `sys_fork` a child's arenas still point at the parent's descriptors. The pool's lock is not part of it.
- LockRuns.RepeatIsNestingDepth: `holder_repeat_nr` and `elapsed_ticks` do not wrap at 32 bits.
- LockRuns.NoLostWakeup: for semaphores used as locks; those initialised to 0, like the disk's, are not modelled.
- Fork.CopyBodyStack3: copies a page in one assignment of its frame; where it fails, nothing is said about the pages copied before.
- Paths.WashPath: requires names of at most 15 characters, since the C code's name buffer has 16; buffer overruns are not described.
- TreeRuns.RunHangs: steps are successful calls; a directory's entry goes in where the parent has room, and out where it is not alone in a later block, the exact conditions under which `fs/dir.c` does both properly.
- DirTree.SearchFile: closing and opening of directories on the way is not part of it.

Not modelled:

- Statements outside the interrupts-off regions of the lock functions are single steps; the compiler's reordering and the bytes of a word being written one by one are not described.
- Directory sectors hold slots, not the bytes of `struct dir_entry`; a block of entries and a table of addresses are told apart. The inode slots and the file tables are modelled in bytes.
- The heap's words are addressed virtually. The page table is injective by invariant, so two pages never share a frame, but the translation of each access is only made explicit in `Mmu`. There is no TLB.
- The disk driver, the mounting and formatting of partitions, boot code, interrupts as hardware, the console and the shell's other commands.
- `sys_lseek`, the global file table and the per-process descriptors, and the roll-back paths of `file_create` and `sys_mkdir`, where the code does not restore its state.
- `device/ioqueue.c`, ELF loading in `userprog/exec.c`, the string and print library.
- The remaining work of `sys_fork` (the process control block, the kernel stack, the open counts of inodes).
