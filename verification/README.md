# Verification of the kernel's memory manager, scheduler, disk driver and number printing

A small 32-bit x86 kernel, modelled in Dafny 4.11 and proved about. `dafny verify dfyconfig.toml`
checks everything.

- **Memory** (`kernel/memory.c`, `create_page_dir`, `setup_page`). Physical memory is 2^30 words.
  `Paging` walks the two-level tables (section 4.3 of the Intel SDM Volume 3A) and the self-map;
  `Frames` states who owns each frame; `Pages`, `PageCounts`, `PageAlloc` and `PageData` say what the
  page allocator does, when, and what it leaves alone, `PageRights` what programs may do with the pages; `Slabs`, `Heaps` and `HeapData` do the same for
  `sys_malloc` and `sys_free`; `PageRuns`, `HeapRuns` and `Booting` carry it over whole runs.
  `HeapLinks`, `HeapWords` and `HeapRelink` say what headers and list links in memory mean and why
  they keep their meaning. `MemoryManager.Machine` and `HeapCode.SysHeap` are the code itself, every
  page-table access going through the walked self-map and every header and link a word read or
  written there (`HeapStore`), proved against those functions.
- **Threads** (`thread/thread.c`, `thread/sync.c`, `device/timer.c`). `Sched` is a step system with a
  program counter for each thread and a timer interrupt possible at any step with interrupts on;
  `SchedRuns` proves what holds over all runs; `Cpus.Cpu` is the code, step by step, on the linked
  lists of `ThreadQueues`.
- **Disk** (`device/ide.c`, `fs/fs.c`). `Ide` has the command and interrupt handshake, the registers
  and the chunked transfers; `Driver` runs it on the scheduler, sleeping drivers and interrupts
  included; `Fs` formats and mounts.
- **Lists, bitmaps, numbers** (`lib/kernel/list.c`, `lib/kernel/bitmap.c`, `lib/stdio.c`, `put_int`).
  `Lists` works on shared nodes linked in place, `Bitmaps` on packed bytes, `Stdio` on buffers.

A call that stops in an `ASSERT`, which spins for ever with interrupts off, is an outcome of its own
(`Crash`, `Stops`, `Panicked`); nothing is claimed of the state it leaves. Requirements on callers are
those of the source: free what is live, release what is held, pass arguments that match the format.
Clocks, ports and interrupts are nondeterministic events, or parameters.

## Model

| member | source | states |
|---|---|---|
| HeapRuns.HeapRunKeeps | kernel/memory.c:317-518 | in every state any run of `sys_malloc`, `sys_free`, program stores, link and header writes and other heaps' page operations reaches: each small arena's counter is the number of its blocks on its class's list, no arena is wholly free, free lists hold blocks of live arenas of their class and none twice, every block is free or handed out, every arena's pages are mapped |
| HeapRuns.HeapRunSafe | kernel/memory.c:317-518 | in every reachable state counters are exact and below blocks_per_arena, allocations are pairwise disjoint and disjoint from every free block |
| HeapRuns.HeapRunPreserves | kernel/memory.c:317-518 | an allocation keeps its size and every word its owner does not overwrite through any run that does not free it |
| HeapRuns.HeapRunConserves | kernel/memory.c:317-518 | when a run that started with no arena has freed all it took, no arena is left, all seven lists are empty, every frame has the owner it had, and new frames are page tables of the heap's process |
| HeapRuns.BitmapsRestored | kernel/memory.c:386-518 | then the user pool's bitmap and the virtual bitmap are what they were, and the kernel pool's too, but for the bits of page tables a process was given |
| HeapRuns.OwnCallSpares | kernel/memory.c:317-518 | a call of the heap's own maps, moves or unmaps no page but pages of its own arenas |
| HeapRuns.HeapRunNet | kernel/memory.c:317-518 | with page operations of others anywhere in between, a run that has freed all it took leaves no arena and seven empty lists, and every page is mapped, and to the frame, that the others alone left it |
| HeapRuns.MallocGivenIff | kernel/memory.c:317-383 | `sys_malloc` succeeds if and only if the size is in range and either a block of its class is free or the page allocator can map the pages |
| HeapRuns.MallocNilIff | kernel/memory.c:317-383 | it returns NULL if and only if the size is out of range or no free run of pages is long enough |
| HeapRuns.StepLeaves | kernel/memory.c:317-518 | one step of any kind leaves the size and the words of an allocation it does not name alone |
| HeapRuns.OthersKeep | kernel/memory.c:122-235 | page operations of others keep this heap's invariant |
| Booting.HeapFromBoot | kernel/memory.c:211-275 | from `setup_page` and `mem_pool_init` on every run of the kernel's heap is safe, and a run that freed all it took leaves no owner, no arena and the bitmaps as at boot |
| Booting.RunFromBoot | kernel/memory.c:211-264 | from boot on every run of page operations keeps bitmaps, owners, page tables and virtual bits in step |
| Booting.SharedFromBoot | userprog/process.c:64-81 | from boot on every page directory that exists translates every kernel page alike and has the table for it |
| Booting.Start | boot/loader.S:252-295 | the two boot routines, as written, establish the invariant when the uncleared page-table frames were zero |
| PageRuns.RunKeeps | kernel/memory.c:43-476 | in every state any run of allocating, freeing, placing, process creation and stores reaches, each set pool bit names a frame that backs exactly one heap page, user page or page table, and a virtual bit is set iff its page is mapped |
| PageRuns.KernelHalfShared | userprog/process.c:64-81 | in every reachable state all directories translate the kernel half alike and no kernel mapping lacks its table |
| PageRuns.RunConserves | kernel/memory.c:122-143 | a run that gives back no page that was there at its start and ends with the pages it began with leaves every owner and the user bitmap as they were; the kernel bitmap differs by page tables only |
| PageRuns.KernelRunConserves | kernel/memory.c:122-152 | a kernel run that gives back no page of its start and ends with the pages it began with leaves both physical bitmaps, the kernel virtual bitmap and all owners exactly as they were |
| PageAlloc.MallocGotIff | kernel/memory.c:122-143 | `malloc_page` returns page k if and only if k starts the lowest free run, the run stays inside the process's half, and the pools hold a frame for each page and each missing page table |
| PageAlloc.MallocNullIff | kernel/memory.c:122-143 | it returns NULL if and only if no free run is long enough; running out of frames is an ASSERT |
| PageAlloc.MapRun | kernel/memory.c:128-141 | its loop gets through if and only if the pools can pay; it then keeps the invariant and maps exactly the pages of the run |
| PageAlloc.MallocKeeps | kernel/memory.c:122-143 | a successful call maps the lowest free run and nothing else, changes no owner, and keeps bitmaps and tables in step |
| PageAlloc.TranslationsKept | kernel/memory.c:99-120 | no page that was mapped translates differently afterwards |
| PageAlloc.MfreeKeeps | kernel/memory.c:428-476 | `mfree_page` on live pages unmaps exactly them and gives back exactly their frames |
| PageAlloc.FreeUndoesMalloc | kernel/memory.c:122-143 | `mfree_page` after `malloc_page` restores the virtual bitmap, both pools and all owners, but for the page tables a process was given |
| PageAlloc.GetPagesKeeps | kernel/memory.c:145-165 | `get_kernel_pages` and `get_user_pages` also zero every word of the new pages |
| PageAlloc.GetAPageKeeps | kernel/memory.c:167-198 | `get_a_page` that gets through maps that page and no other and keeps the invariant |
| PageAlloc.GetAPageIff | kernel/memory.c:167-198 | it gets through if and only if the flag is the running thread's own kind, the page is not the first and not mapped, and the pools hold its frame and its table; anything else is a PANIC or an ASSERT |
| PageAlloc.CreateKeeps | userprog/process.c:64-81 | `create_page_dir` takes one kernel page, keeps the invariant, adds a directory that maps the kernel half like the others, and never returns NULL |
| PageData.GetPagesData | kernel/memory.c:145-152 | allocating pages writes no word of a page mapped before |
| PageData.MfreePageData | kernel/memory.c:428-476 | freeing pages writes no word of a page that stays |
| PageData.GetAPageData | kernel/memory.c:167-198 | `get_a_page` writes no word of a page mapped before |
| PageRights.UserHalf | kernel/memory.c:99-120 | in every good state a process passes the user-mode write check, on the words of both levels, for exactly the pages of its half whose bits are set; every other page of its half faults |
| PageRights.MallocWritable | kernel/memory.c:105-118 | it passes for every page `malloc_page` has mapped for it |
| PageRights.GetPagesWritable | kernel/memory.c:105-118 | and for every page `get_user_pages` has |
| PageRights.GetAPageWritable | kernel/memory.c:105-118 | and for the page `get_a_page` has |
| PageRights.RunRights | kernel/memory.c:99-120 | and, after any run of page operations, for exactly the pages whose bits are set |
| PageCounts.MapPageIff | kernel/memory.c:131-140 | mapping one page gets through if and only if its pool has a frame and, for a missing table, the kernel pool has one; it costs exactly those |
| PageCounts.TablesAfter | kernel/memory.c:112-119 | it gives the process the table of that page and no other |
| Frames.SetBitBacksOne | kernel/memory.c:88-97 | a pool bit is set if and only if its frame has an owner, exactly one entry maps the frame, and every directory that should see it walks to it |
| Frames.KernelShared | userprog/process.c:70-71 | every directory translates kernel pages alike |
| Frames.EntriesDiffer | kernel/memory.c:75-87 | no two pages or tables share a page-table entry |
| Frames.FreedPool | kernel/memory.c:387-398 | `pfree` picks the pool the frame was taken from |
| Frames.MapKeeps | kernel/memory.c:99-111 | giving a free frame to an unmapped page keeps the invariant and maps that page only |
| Frames.LinkKeeps | kernel/memory.c:112-119 | a zeroed free frame linked as a page table changes no other mapping |
| Frames.UnmapKeeps | kernel/memory.c:387-404 | taking a page's frame back keeps the invariant and unmaps that page only |
| Frames.PlainKeeps | kernel/memory.c:145-152 | stores into frames that are neither directories nor tables change no mapping and no owner |
| Frames.DirKeeps | userprog/process.c:64-81 | a directory with an empty user half and a copied kernel half joins without changing any mapping |
| Frames.BootInv | boot/loader.S:252-295 | after boot the invariant holds, if the 255 kernel tables were zero |
| Paging.SelfMapExact | kernel/memory.c:75-87 | the hardware walk of `pde_ptr(v)` and `pte_ptr(v)` lands on exactly the PDE and PTE of v, faulting exactly when v has no table |
| Paging.MapInExact | kernel/memory.c:105-111 | after the entry is written the walk of the page gives its frame and every other page translates as before, seen from any directory, except through the very same entry |
| Paging.MapFreshExact | kernel/memory.c:112-119 | the same with a fresh table, except for the one window page that shows the table |
| Paging.AddTableExact | kernel/memory.c:112-116 | a fresh empty table changes no translation but its own window page |
| Paging.SetupPage | boot/loader.S:252-295 | the loops leave exactly the boot directory and first table |
| Paging.BootAlias | boot/loader.S:263-269 | entries 0 and 768 name one table, so mapping a page of the first 4 MB of kernel space maps the page 3 GB below it |
| Paging.BootWalk | boot/loader.S:252-295 | the low megabyte is mapped to itself and at 3 GB; no user page is mapped |
| Paging.WalkWord | kernel/memory.c:75-80 | a word of a mapped page is the word of its frame |
| MemoryManager.Machine.constructor | kernel/memory.c:211-264 | `mem_pool_init`: the two pools follow each other from 2 MB on and together hold every free page, half each, an odd one being the user's; the bitmaps are cleared and have a bit for every page of their pool but for those that do not fill a byte; the virtual bitmap is as long as the kernel pool's |
| MemoryManager.Machine.Palloc | kernel/memory.c:88-97 | takes the lowest free frame, or stops in the search's ASSERT |
| MemoryManager.Machine.PageTableAdd | kernel/memory.c:99-120 | through the self-map: the entry alone, or a zeroed table and the entry, which then passes the user-mode write check; stops if the entry is present |
| MemoryManager.Machine.MallocPage | kernel/memory.c:122-143 | does what `PageAlloc.MallocPage` says, result and whole state |
| MemoryManager.Machine.VaddrGet | kernel/memory.c:43-72 | sets the bits of the lowest free run, with the ASSERT on the user half |
| MemoryManager.Machine.GetPages | kernel/memory.c:145-165 | does what `PageAlloc.GetPages` says |
| MemoryManager.Machine.GetAPage | kernel/memory.c:167-198 | does what `PageAlloc.GetAPage` says |
| MemoryManager.Machine.AddrV2p | kernel/memory.c:201-207 | the frame of the page's entry plus the offset |
| MemoryManager.Machine.Pfree | kernel/memory.c:387-398 | clears the one bit of the pool the address lies in |
| MemoryManager.Machine.PageTablePteRemove | kernel/memory.c:401-404 | clears the present bit of the page's entry and nothing else |
| MemoryManager.Machine.VaddrRemove | kernel/memory.c:407-425 | clears the bits of the run |
| MemoryManager.Machine.MfreePage | kernel/memory.c:428-476 | does what `PageAlloc.MfreePage` says; its ASSERTs hold |
| MemoryManager.Machine.CreatePageDir | userprog/process.c:64-81 | does what `PageAlloc.CreatePageDir` says |
| MemoryManager.MappedInPlace | kernel/memory.c:108-111 | the first branch of `page_table_add` is the specified mapping |
| MemoryManager.MappedWithTable | kernel/memory.c:112-119 | so is the second |
| MemoryManager.InitInv | kernel/memory.c:211-264 | boot memory and the pools of `mem_pool_init` satisfy the invariant |
| MemoryManager.PoolsInMemory | kernel/memory.c:214-225 | the pools lie inside physical memory if and only if there are 2 MB of it |
| MemoryManager.PageCountExact | kernel/memory.c:216-220 | the uint16_t page count is the true one if and only if memory ends below 258 MB; the pools end with the last whole page of memory if and only if it ends from 2 MB to there |
| MemoryManager.BitmapsFit | kernel/memory.c:222-260 | the three bitmaps, end to end, stay below 0xc009e000 |
| Slabs.FullIff | kernel/memory.c:504-511 | a counter is at most blocks_per_arena and reaches it if and only if every block is on the list, so the ASSERT of line 510 holds |
| Slabs.NewBlocksAbsent | kernel/memory.c:365-369 | no block of a new arena is on the list, so the ASSERT of line 368 holds |
| Slabs.CarveKeeps | kernel/memory.c:351-372 | cutting a fresh page into blocks keeps the invariant |
| Slabs.PopKeeps | kernel/memory.c:375-381 | handing out the head of a list keeps the invariant and leaves no idle arena |
| Slabs.PutKeeps | kernel/memory.c:500-504 | taking a block back keeps the invariant |
| Slabs.RetireKeeps | kernel/memory.c:504-514 | taking a wholly free arena off its list keeps the invariant, the list's order included |
| Slabs.AddLargeKeeps | kernel/memory.c:333-350 | a large allocation keeps the invariant |
| Slabs.DropLargeKeeps | kernel/memory.c:497-499 | freeing it does |
| Slabs.LiveDisjoint | kernel/memory.c:277-285 | allocations do not overlap |
| Slabs.LiveInside | kernel/memory.c:277-285 | an allocation lies in its arena's pages, behind the header |
| Slabs.LiveOffLists | kernel/memory.c:277-285 | no allocation overlaps a free block |
| Slabs.NothingLive | kernel/memory.c:504-514 | with nothing handed out there is no arena and every list is empty |
| Slabs.OffsetsApart | kernel/memory.c:277-280 | the blocks of an arena are disjoint, inside the page and word aligned |
| Slabs.FindClass | kernel/memory.c:326-331 | the loop finds the smallest class that fits |
| Slabs.BlockDescInit | kernel/memory.c:266-275 | sizes 16 to 1024, blocks_per_arena and empty lists |
| Heaps.SysMallocKeeps | kernel/memory.c:317-383 | `sys_malloc` keeps the heap's invariant over pages and blocks |
| Heaps.SysFreeKeeps | kernel/memory.c:479-518 | `sys_free` keeps it |
| HeapData.MallocZeroes | kernel/memory.c:333-383 | what `sys_malloc` returns was not handed out before, is as large as asked, and every word of it is zero, to the end of its block or of its pages |
| HeapData.MallocPreserves | kernel/memory.c:317-383 | `sys_malloc` changes no word of an earlier allocation |
| HeapData.FreePreserves | kernel/memory.c:479-518 | `sys_free` changes no word of another allocation |
| HeapData.MetaApart | kernel/memory.c:31-36 | no word of an allocation is a word of an arena header or of a free block's links |
| HeapData.FillPreserves | kernel/memory.c:277-285 | a store into one allocation reaches no other |
| HeapLinks.AppendLinks | lib/kernel/list.c:15-40 | after the four stores of an append, following the links of every list gives its blocks in order, and back, with the new block last on its list |
| HeapLinks.RemoveLinks | lib/kernel/list.c:43-50 | after the two stores of a removal the links of every list give its blocks in order, that block gone |
| HeapWords.CellsApart | kernel/memory.c:31-36 | header words and links of blocks are pairwise different words |
| HeapWords.StoreView | kernel/memory.c:31-36 | a store to one of them changes that one and no other and unmaps nothing |
| HeapStore.Links.constructor | kernel/memory.c:266-276 | sentinels that point at each other are seven empty lists |
| HeapStore.Links.Append | lib/kernel/list.c:38-40 | through the page tables, the stores of an append and no others |
| HeapStore.Links.Remove | lib/kernel/list.c:43-50 | the stores of a removal and no others |
| HeapStore.Links.Pop | lib/kernel/list.c:53-57 | the same for the first block, whose address it returns |
| HeapStore.Links.Find | lib/kernel/list.c:60-69 | walking the words in memory finds a block if and only if it is on the list |
| HeapRelink.OthersWired | kernel/memory.c:31-36 | page operations of others leave the meaning of all headers and links |
| HeapRelink.FillWired | kernel/memory.c:31-36 | so do a program's stores into its allocations |
| HeapRelink.ReleasedWired | kernel/memory.c:428-476 | giving back an arena's pages leaves the headers and links of the others |
| HeapRelink.MallocIsRun | kernel/memory.c:317-383 | what the code of `sys_malloc` does is a run of the heap: the specified call, then stores to headers and links |
| HeapRelink.FreeIsRun | kernel/memory.c:479-518 | what the code of `sys_free` does is one: stores to headers and links, then the specified call |
| HeapCode.SysHeap.constructor | kernel/memory.c:520-527 | an empty heap whose words say so satisfies the invariant |
| HeapCode.SysHeap.CutArena | kernel/memory.c:349-370 | writes the header and links the blocks in order; its ASSERT, a walk of the list, holds; afterwards headers and links in memory say what the specified heap says |
| HeapCode.SysHeap.DropOne | kernel/memory.c:508-511 | the walk of its ASSERT finds the block, and `list_remove` takes it off |
| HeapCode.SysHeap.DropBlocks | kernel/memory.c:506-512 | the loop unlinks every block of the arena and keeps the order of the rest |
| HeapCode.SysHeap.TakeHead | kernel/memory.c:374-381 | pops the head by its links, zeroes the block, lowers the counter in the header |
| HeapCode.SysHeap.SysMalloc | kernel/memory.c:317-383 | the result `Heaps.SysMalloc` says and its state, but for words of headers and links, and those again say what that state says |
| HeapCode.SysHeap.SysFree | kernel/memory.c:479-518 | decides by the words of the header; the state is `Heaps.SysFree`'s from memory in which headers and links had been rewritten, and headers and links again say what the state says |
| HeapCode.Memset | kernel/memory.c:375-376 | zeroes those words through the page tables |
| Bitmaps.Bitmap.Init | lib/kernel/bitmap.c:9-12 | clears the bitmap's own bytes |
| Bitmaps.Bitmap.ScanTest | lib/kernel/bitmap.c:15-20 | the bit asked for |
| Bitmaps.Bitmap.Scan | lib/kernel/bitmap.c:23-61 | panics if and only if the bitmap is full; else the lowest run in the window it probes, or none exists |
| Bitmaps.Bitmap.Set | lib/kernel/bitmap.c:64-74 | changes that bit and no other |
| Bitmaps.PutBitExact | lib/kernel/bitmap.c:64-74 | byte arithmetic: one bit changes |
| Bitmaps.ScanExactIff | lib/kernel/bitmap.c:43-61 | the answer is that of an in-range first-fit search if and only if it is not the case that no run lies inside and the tail overruns into a clear bit |
| Bitmaps.ScanOverrunWitness | lib/kernel/bitmap.c:43-61 | a bitmap for which the answer reaches past the end |
| Bitmaps.LaterScansDisjoint | kernel/memory.c:43-65 | once an answer's bits are set no later answer overlaps it |
| Bitmaps.ScanFindsClear | lib/kernel/bitmap.c:23-61 | an answer names clear bits only |
| Bitmaps.ScanDetermined | lib/kernel/bitmap.c:23-61 | the specification leaves exactly one answer |
| Lists.List.constructor | lib/kernel/list.c:7-12 | an empty list |
| Lists.List.Push | lib/kernel/list.c:33-35 | puts the element first; links of the list only are written |
| Lists.List.Append | lib/kernel/list.c:38-40 | puts the element last |
| Lists.InsertBefore | lib/kernel/list.c:15-30 | inserts at that place and keeps prev and next inverse |
| Lists.Remove | lib/kernel/list.c:43-50 | removes that element; its own links stay stale |
| Lists.List.Pop | lib/kernel/list.c:53-57 | returns and removes the first element |
| Lists.List.Find | lib/kernel/list.c:60-69 | true if and only if the element is there |
| Lists.List.Traversal | lib/kernel/list.c:75-89 | the first element the callback accepts, or none |
| Lists.List.Len | lib/kernel/list.c:92-100 | the number of elements |
| Lists.List.Empty | lib/kernel/list.c:103-105 | true if and only if there is none |
| ThreadQueues.Queues.Append | lib/kernel/list.c:38-40 | linking a thread's one tag puts it last on that list and leaves every other list of threads as it was, all still linked and apart |
| ThreadQueues.Queues.Push | lib/kernel/list.c:33-35 | the same, first on that list |
| ThreadQueues.Queues.Pop | lib/kernel/list.c:53-57 | unlinks that list's first tag and gives its thread; the other lists are as they were |
| ThreadQueues.Queues.Find | lib/kernel/list.c:60-69 | the walk finds a thread's tag if and only if the thread is on that list |
| Cpus.Cpu.OnNoQueue | thread/thread.h:66 | a thread that is neither ready nor waiting has its one tag on no list, so the `elem_find` ASSERTs pass |
| Lists.MoveFirst | thread/sync.c:43-46 | the first waiter moves to the front of another list; both stay lists and stay apart |
| Lists.RemoveAll | kernel/memory.c:506-512 | removing an arena's blocks leaves the list filtered to the others, order kept |
| Lists.WithoutMembers | kernel/memory.c:506-512 | filtering keeps exactly the other elements |
| Lists.WithoutConcat | kernel/memory.c:506-512 | filtering keeps their order |
| SchedRuns.RunSafe | thread/thread.c:90-172 | over every interleaving from boot the invariant holds in every state and no ASSERT fires |
| SchedRuns.StepKeepsInv | thread/thread.c:106-172 | every step keeps the invariant and passes its ASSERTs |
| SchedRuns.MutualExclusion | thread/sync.c:21-78 | a lock's semaphore value plus the threads inside is 1; the holder is the one inside; the count is its nesting depth |
| SchedRuns.FreeLockHasWokenThread | thread/sync.c:21-51 | a free lock with waiters has a popped thread that is READY or RUNNING and has yet to re-test |
| SchedRuns.WakeupKept | thread/sync.c:21-51 | no step loses a wakeup |
| SchedRuns.SchedulerStates | thread/thread.c:106-172 | one RUNNING thread; READY iff once on the ready list; BLOCKED iff on one waiters list or idle; idle BLOCKED when the list is empty at a switch |
| SchedRuns.PlaceOverRun | thread/thread.c:106-161 | a READY thread's place is its old one less the schedule calls plus the pushes |
| SchedRuns.BoundedWaiting | thread/thread.c:106-172 | a READY thread with k ahead runs by the (k+u+1)-th schedule call, u pushes meanwhile |
| SchedRuns.WokenThreadRuns | thread/sync.c:39-51 | the thread a `sema_up` pops goes to the head of the ready list and runs at the next schedule call, or after one more for each thread pushed in front of it meanwhile |
| SchedRuns.WokenWaits | thread/sync.c:21-51 | a woken thread that has not re-tested is RUNNING or READY and runs within as many schedule calls as the list is long, plus pushes |
| SchedRuns.WaiterOverRun | thread/sync.c:21-51 | while a thread waits on a semaphore its place falls by one for each `sema_up` and by nothing else |
| SchedRuns.WokenInTurn | thread/sync.c:21-51 | waiters are woken in the order they came: with k before it a thread is off the list with the (k+1)-th `sema_up` and no sooner |
| SchedRuns.SliceBound | device/timer.c:22-36 | ticks never exceed the priority |
| SchedRuns.SliceOverRun | device/timer.c:22-36 | while a thread is not switched away from, the timer ticks it has had and what is left of its slice add up to what it started with, so at most priority ticks pass and the next one reschedules |
| SchedRuns.TicksStep | thread/thread.c:108-115 | nothing but a timer tick changes a slice, and only the running thread's: it falls by one, and from 0 goes back to the priority; a new thread's is its priority |
| SchedRuns.SliceWaits | thread/thread.c:106-134 | off the processor a thread keeps its slice and its priority, whatever took it off |
| SchedRuns.FreshSlice | thread/thread.c:108-115 | a thread a tick took off the processor, or that was started, is dispatched next with a slice of its whole priority |
| SchedRuns.FullSlice | device/timer.c:22-36 | from there on, unless it blocks or yields, exactly as many ticks as its priority pass before the one that takes it off again |
| Sched.StepKeepsCore | thread/thread.c:106-172 | every step keeps the scheduler's and the locks' invariants |
| Sched.ScheduleKeeps | thread/thread.c:106-134 | `schedule` passes its ASSERTs and never pops a sentinel |
| Sched.DownKeeps | thread/sync.c:21-36 | one turn of `sema_down` |
| Sched.UpKeeps | thread/sync.c:39-51 | `sema_up` |
| Sched.BareDownKeeps | device/ide.c:176 | `sema_down` on `disk_done` |
| Sched.BareUpKeeps | device/ide.c:329-344 | the handler's `sema_up`, on whatever thread it interrupted |
| Sched.AcquireKeeps | thread/sync.c:54-64 | the test of `lock_acquire` |
| Sched.ReleaseKeeps | thread/sync.c:67-78 | the test of `lock_release` |
| Cpus.Cpu.Schedule | thread/thread.c:106-134 | on linked lists of the threads' tags, the state of the specified step; its ASSERTs hold in place; a caller that was running keeps its whole priority as its next slice |
| Cpus.Cpu.ThreadUnblock | thread/thread.c:149-161 | the same for `thread_unblock` |
| Cpus.Cpu.ThreadYield | thread/thread.c:164-172 | the same for `thread_yield` |
| Cpus.Cpu.ThreadStart | thread/thread.c:90-104 | the same for `thread_start` |
| Cpus.Cpu.TimerHandler | device/timer.c:22-36 | the same for the timer interrupt |
| Cpus.Cpu.SemaDown | thread/sync.c:21-36 | the same for one turn of `sema_down` |
| Cpus.Cpu.SemaUp | thread/sync.c:39-51 | the same for `sema_up` |
| Cpus.Cpu.DiskDown | device/ide.c:176 | the same for `sema_down` on `disk_done` |
| Cpus.Cpu.DiskHandler | device/ide.c:329-344 | the same for the `sema_up` of the disk's handler |
| Driver.JointSafe | device/ide.c:150-344 | with the channel's lock and `disk_done` semaphores of the scheduler, in every interleaving with disk interrupts the invariants of scheduler, locks and channel hold, only the driver is ever inside `sema_down` on `disk_done`, and whoever runs driver code in a transfer is its thread |
| Driver.MoveKeeps | device/ide.c:150-344 | each step of kernel, driver and disk keeps them, is a step of the scheduler or leaves it, and passes its ASSERTs |
| Driver.OneDriver | device/ide.c:150-234 | two threads are never inside transfers of one channel |
| Driver.AsleepBlocked | device/ide.c:176 | a driver asleep on `disk_done` is BLOCKED, alone on its waiters list and on no other, and its interrupt is still to come |
| Driver.InterruptWakes | device/ide.c:329-344 | that interrupt comes with the value 0 and puts the driver at the head of the ready list |
| Driver.SleeperRuns | device/ide.c:150-344 | the driver then runs at the next schedule call, or after one more for each thread woken in front of it meanwhile |
| Driver.JointIsRun | device/ide.c:150-344 | what the scheduler does among drivers and disk interrupts is one of its own runs, so what is proved of all its runs holds there |
| Ide.HandshakeSafe | device/ide.c:105-109 | for any arrival of interrupts, spurious ones included, expecting implies value 0, the value is 0 or 1, and each command gets one up and one down |
| Ide.SleeperIsWoken | device/ide.c:329-344 | the next interrupt releases a waiting driver |
| Ide.ChunkExact | device/ide.c:87-133 | up to 256 sectors survive the 8-bit count: the device register selects sector addresses, and the drive gets exactly that range |
| Ide.ChunkLimit | device/ide.c:87-133 | 257 would not |
| Ide.RangeAssertsIff | device/ide.c:150-152 | the ASSERTs pass if and only if the last chunk starts on the disk |
| Ide.Controller.IdeRead | device/ide.c:150-192 | fills the buffer with exactly the sectors asked for, in order |
| Ide.Controller.IdeWrite | device/ide.c:195-234 | changes exactly those sectors |
| Ide.Controller.WriteThenRead | device/ide.c:150-234 | write then read is the identity |
| Fs.LayoutSound | fs/fs.c:73-122 | the five regions are ordered, disjoint and inside the partition; every block has a bit; the estimate over-reserves by its own rounding at most |
| Fs.SuperDescribes | fs/fs.c:91-109 | the superblock states its partition's start and length, and regions that follow each other inside it, none a sector too long: a bit for every data block but at most the last, room for every inode |
| Fs.SectorDescribes | fs/fs.c:91-122 | so does the sector written, word by word at the offsets of struct super_block, with the magic in word 0 |
| Fs.RootFound | fs/fs.c:155-192 | from the words of that sector one gets to the root inode, first in the table and two entries long, and from it to "." and ".." in the first data sector, both that inode |
| Fs.TooSmallPanics | fs/fs.c:76-83 | in the wrapping words of the code the bitmap has no sector exactly below the least size; below the metadata's own size its last byte is then half a gigabyte past the buffer |
| Fs.FillBlockBitmap | fs/fs.c:130-143 | bit 0 set, bits 1 to n clear, all later bits set |
| Fs.PartitionFormat | fs/fs.c:73-192 | the disk is the old one but for the five images, each in its place; the words of the superblock's sector describe the partition it lies on |
| Fs.WritesApart | fs/fs.c:124-192 | no write touches another's sectors or anything outside |
| Fs.OfferedBlocks | fs/fs.c:130-143 | every data block but the root's is offered, and at most one number beyond |
| Fs.OfferedOutsideIff | fs/fs.c:140 | a block outside the partition is offered if and only if the first estimate was right and the bitmap has room for its bit |
| Fs.OfferedOutsideWitness | fs/fs.c:140 | a partition of 1000 sectors where it is |
| Fs.RootMarkedIff | fs/fs.c:133-143 | the root directory's block is marked if and only if there are at least 8 blocks |
| Fs.RootUnmarkedWitness | fs/fs.c:133-143 | a partition of 613 sectors where it is not |
| Fs.EncodeInjective | fs/fs.c:96-122 | a superblock sector determines the superblock |
| Fs.MountPartition | fs/fs.c:18-70 | reads back the superblock and both bitmaps of the named partition |
| Fs.FormatThenMount | fs/fs.c:18-192 | mounting what was formatted gives a superblock that describes the partition, field by field the one written, and both bitmaps byte for byte |
| Fs.ReadBack | fs/fs.c:18-192 | the same of any disk that holds the formatted images |
| Stdio.PrintParse | lib/stdio.c:13-24 | parsing what `itoa` prints gives the value, with no leading zero |
| Stdio.ParsePrint | lib/stdio.c:13-24 | printing what a numeral says gives the numeral |
| Stdio.Itoa | lib/stdio.c:13-24 | writes exactly the digits and advances past them |
| Stdio.PutInt | lib/kernel/print.S:145-203 | prints the same string as `itoa` in base 16 |
| Stdio.FixedIsDigits | lib/kernel/print.S:176-203 | skipping the zeros of the fixed-width form leaves the digits |
| Stdio.FillHex | lib/kernel/print.S:153-175 | eight digits, most significant first |
| Stdio.DecimalInverts | lib/stdio.c:49-58 | %d can be read back, the least int included |
| Stdio.HexInverts | lib/stdio.c:60-63 | %x can be read back |
| Stdio.RenderConcat | lib/stdio.c:33-71 | formats are rendered piece by piece: what a whole piece prints does not depend on what follows, nor the other way round |
| Stdio.RenderText | lib/stdio.c:33-39 | text without percent signs is printed as it stands |
| Stdio.HexInText | lib/stdio.c:60-63 | every word printed by %x between any two texts reads back, as hexadecimal, from where it was printed, and the texts stand around it |
| Stdio.DecimalInText | lib/stdio.c:49-58 | the same for %d, as signed decimal |
| Stdio.ArgumentInText | lib/stdio.c:40-48 | %s and %c leave their argument between the texts, an unknown conversion its letter |
| Stdio.NegateWraps | lib/stdio.c:49-58 | 0 - arg is right even where it wraps |
| Stdio.FormatInto | lib/stdio.c:33-71 | the loop writes exactly the rendering, and behind it a NUL if and only if a string ends it |
| Stdio.Vsprintf | lib/stdio.c:27-73 | the length returned is the text's if and only if the text holds no NUL and one stands behind it, from before the call or because a string ended the text |
| Stdio.LengthMissed | lib/stdio.c:27-73 | a call whose result is not the text's length |

## Findings

Where the code differs from what its comments or its design intend; each is proved as stated.

- `bitmap_scan` stops in its `ASSERT` on a full bitmap and never returns -1 for one
  (`lib/kernel/bitmap.c:29`), so `palloc` never returns NULL and the NULL branches behind it
  (`kernel/memory.c:134-137`, `kernel/memory.c:192-194`) are unreachable: `Bitmaps.OneBitFound`,
  `PageAlloc.MallocNullIff`.
- Asked for more than one bit it also probes the bit after the bitmap, and can answer with it
  (`lib/kernel/bitmap.c:43-59`): `Bitmaps.ScanExactIff`, `Bitmaps.ScanOverrunWitness`. The kernel's
  virtual pool therefore has one page more than its bitmap has bits; that page is mapped and freed
  like the others. A process's run that reaches so far stops in `page_table_add`'s `ASSERT`, because
  the page there is the kernel's first: `PageAlloc.RunInside`.
- The free page count is a `uint16_t` (`kernel/memory.c:218`) and `free_mem` wraps below 2 MB:
  `MemoryManager.PageCountExact`, `MemoryManager.PoolsInMemory`.
- `setup_page` clears only the directory (`boot/loader.S:253-258`): the kernel page tables are
  assumed zero (`Frames.BootInv`). Directory entries 0 and 768 share a table (`Paging.BootAlias`).
- The ASSERTs of `ide_read` and `ide_write` look at where chunks start, so a transfer that runs off
  the end of the disk can pass them: `Ide.RangeAssertsIff`.
- The formatted block bitmap clears one bit too many (`fs/fs.c:140`), and that block lies outside the
  partition exactly under `Fs.OfferedOutsideIff`; with fewer than 8 blocks the root directory's own
  block is not marked: `Fs.RootMarkedIff`, `Fs.RootUnmarkedWitness`.
- A partition too small for its metadata makes `free_sects` wrap (`fs/fs.c:81`); `DIV_ROUND_UP` wraps
  back, so the bitmap has no sector, and the padding of its last byte is written far outside the
  buffer before `ide_write`'s ASSERT can stop the format: `Fs.TooSmallPanics`.
- `vsprintf` writes no final NUL: `Stdio.Vsprintf` gives the exact condition, `Stdio.LengthMissed` an
  input.
- NULL cannot come back from `create_page_dir`'s allocation, so its unchecked use of the result is
  harmless: `PageAlloc.CreateKeeps`.

## Left out

- The TLB and `invlpg` (kernel/memory.c:403): the walk reads the tables directly.
- Concurrency inside the allocator: each call is one step, because `get_kernel_pages` takes no lock.
  The pool locks are not taken in the model.
- Accessed and dirty bits the processor sets in page-table entries.
- The bitmaps' own storage is not part of the modelled words, and each bitmap has its own bytes and
  bytes after them. In the source the three lie end to end, so the byte after the kernel pool's is the
  user pool's first; a search for one bit never reaches it.
- The seven block descriptors lie outside the heap's pages, where `HeapStore.EnvOk` says; their
  sentinels are a field of their own, not words of the modelled memory, and their two size words are
  constants.
- thread_start is one step, although its list walk (thread/thread.c:96) runs with interrupts on: that
  no list it walks changes under it is an assumption.
- `switch_to`, PIC, IDT, GDT, TSS and system-call entry; stack frames of new threads; pid numbers.
- `busy_wait`: a transfer that gets past it is modelled, its timing and its failure message are not.
- `identify_disk`, `partition_scan`, `filesys_init` and the console.
- Stdio.Itoa: bases 10 and 16 only, the only ones the source passes.
- Stdio.Vsprintf: the buffer's last byte is NUL, so that `strlen` stays inside it.
- Fs.PartitionFormat: partitions too small for one bitmap sector do not get through and are left out
  (`Fs.TooSmallPanics`); padding bytes of the stack superblock are a parameter.
- Fs.MountPartition: superblocks that name empty ranges or ranges off the disk are left out; reading
  those stops in `ide_read`'s ASSERTs or is up to the drive.
- Ide.Controller.IdeRead: transfers off the disk's end that pass the ASSERTs are up to the drive.
- Ide.Controller.IdeWrite: the same.
- Lists.List.Traversal: the callback only looks at its element.
- Cpus.Cpu.ThreadStart: the page for the PCB and `thread_all_list`, which nothing modelled reads.
- Cpus.Cpu.TimerHandler: `elapsed_ticks` and the tick count of `ticks_to_sleep`.
- Heaps.SysMalloc: `pool_size` is at most 65535 pages, so `size + 12` does not wrap.
