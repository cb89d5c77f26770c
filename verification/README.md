# Verified model of the Windozz kernel's memory, scheduler and file system

Windozz is a small x86-64 kernel with a host tool for its file system, echidnaFS, and a boot loader that reads it.
This project models the parts with the most state and proves what they promise over every input, every run or
every interleaving.

**Memory.** `Pmm` is the frame allocator as a set of free frames with its counters; `PmmBitmap` is the same
allocator as the kernel has it, bytes of a bitmap changed in place. `PageTable` has the four-level tables as bytes of
physical memory and proves that `vmm_map_page` is an update of a flat map at one page; `PageWords` ties it to the four
words that the processor reads. `AddressSpaces` starts from
the tables the boot loader builds (`BootPaging`) and follows several roots that share the kernel half; `LargePages` has
what the mapping does behind a 2 MB page. `Vmm` has the ranges (`vmm_find`, `vmm_alloc`, `vmm_free`) and `Heap` the blocks
on top, with headers and payloads as bytes. `TableDemand` says how many frames a mapping, a range or a block needs and so
exactly when the calls succeed; `HeapRefusal` has what is left when the frames run out in the middle, and `HeapOverlap`
what a shrinking `krealloc` overwrites.
`VmmMachine` and `HeapMachine` are the kernel's own loops and stores, tied to these. A place where the kernel stops
(`while(1)`, or a page fault outside the window in which it sees page tables) or returns with a mutex held is an outcome
of its own.

**Concurrency.** Any number of CPUs run the spinlock and the allocators one step at a time in any order; a step is
one instruction of `acquire` or `release`, one look at a page table or one change of the bitmap, of a page entry or
of the live blocks. The table frames that `vmm_map_page` takes on its way have their own steps and their own owner.
`LockOrder` shows that no interleaving deadlocks as long as no allocation fails, and `Handover` what each call has achieved
when it is over.

**echidnaFS.** `Directory` is the flat directory table with search, path resolution and ID allocation. `FolderCreation`
has the directory loop of `import`. `Fat` has the allocation table with `import_chain` and `export_chain`. `Volume`
has the commands and their runs. `Image` gives the bytes of an image and shows that every write of the tool is one
change of the volume; `ImageTool` is the tool itself on those bytes. `Loader` and `LoaderMachine` are the boot
loader's separate reader, from sectors up.

**Threads.** `Context` saves and restores registers word by word; `Scheduler` is a state machine of thread slots,
timer ticks and the statements of `create_thread` and `create_process`; `Turns` says who ever gets a turn; `KernelThreads`
has the runs from `sched_init` on, `TimerFairness` counts threads and timer ticks, and `DanglingThread` the call that fails half-way; `SchedulerMachine` has the loops of the
source.

**Numbers.** `Numbers` has `ltoa`, `atoi` and `pad` on buffers.

Memory is a map from addresses to bytes (`Memory`); a byte that was never written reads as zero. Integers are
unbounded and the widths that matter are written out. The clock, the contents of a fresh buffer, the choices of
the memory allocator and the order of CPUs are parameters.

Every invariant is met by the state its part starts in: the page tables by `BootPaging.SetupPaging` and
`AddressSpaces.BootInvariant`, the shared kernel half by `AddressSpaces.BootShared`, the heap by `Heap.BootHeap`, the CPUs
by `Concurrency.InitialInv`, a volume by `Volume.FormatInv` and its image by `ImageTool.Tool.FormatImage`, the scheduler
by `KernelThreads.BootedInv`.

Where the code departs from what one would expect, the exact condition is proved instead:

- the counters of the frame allocator differ from the bitmap by the pages that two usable entries cover with no other
  entry between them that takes the page, less the one page past the bitmap that a reserved entry may mark; without
  such a page they agree if and only if there is no page of the first kind (`Pmm.InitBalanced`, `Pmm.RecountedIff`,
  `Pmm.FitsUnlessTailed`);
- the test before an allocation is one page too weak if and only if both topmost pages are free and the top of memory is
  one byte into the upper one (`Pmm.AllocationMargin`), and it does not count the tables: `vmm_alloc` succeeds if and only
  if the reachable frames cover the pages and the missing tables and those up to the last table lie in the first 8 GB,
  which is all the kernel sees of physical memory (`AddressSpaces.WindowIs`); if not it returns NULL, loops or faults, by
  where they run out (`TableDemand.BackRangeIff`, `TableDemand.AllocIff`, `TableDemand.FaultsIff`);
- `vmm_map_page` behind a large page is lost and overwrites a word of that page (`LargePages.LargeEntrySwallows`,
  `LargePages.MapPageCases`), in the whole physical window (`LargePages.WindowSwallows`), and a kernel slot that was
  missing when a process was created stays missing in it (`AddressSpaces.MissingSlotDiverges`);
- `krealloc` copies the old size; it stays inside the new block if and only if `Heap.CopyFits` (`Heap.CopyInsideIff`), and
  otherwise it can overwrite the header from which `kfree` takes the page count (`HeapOverlap.KreallocOverwrites`);
- `pmm_alloc_page` keeps its mutex when it returns NULL, and no CPU ever allocates or frees a frame again
  (`Concurrency.NullPathDeadlocks`);
- an exported file lacks its last block if and only if its size is a positive multiple of the block size
  (`Volume.ExportExact`);
- importing to a path with a leading slash that fails first makes a directory with an empty name
  (`FolderCreation.PrepareAdds`); the loop leaves its string on the path `/` (`FolderCreation.SlashStrays`), and its
  buffer of 4096 bytes if and only if a path that fails has a slash behind it and the table room for what comes before
  (`FolderCreation.PrepareStrays`, `FolderCreation.LongPathStrays`);
- the boot loader finds the directory if and only if there are fewer than 2^28 blocks (`Loader.TableBlocksAgree`), and it
  loads a root file if and only if no root directory of that name comes before it (`Loader.LoadedIff`);
- the scheduler is fair to the threads of process 0 (`TimerFairness.FairByTicks`), and from any state with somebody to
  switch to an idle thread ever gets a turn if and only if its slot number is above every live slot of the processes before its own, of all of them or
  of those from the running thread up (`Turns.DispatchedIff`); as
  `create_process` makes them, no other process ever runs (`KernelThreads.OnlyProcessZeroRuns`);
- `create_thread` destroys a thread if and only if the slot it picked from the table of process 0 is in use in its own
  process (`KernelThreads.CreateDestroysIff`): never from process 0, and with the second of two calls in any other
  (`KernelThreads.CreateTwiceLoses`), which `OnlyProcessZeroRuns` keeps from happening; it leaves a dangling slot if and
  only if it gets its thread and no stack (`DanglingThread.CallDanglesIff`), and the scheduler then follows the pointer
  (`DanglingThread.DanglingFollowed`).

## Model

| member | source | states |
|---|---|---|
| Memory.RdWr64 | kernel/src/mm/vmm.c:183 | a quad-word written to memory byte by byte reads back |
| Memory.OrFlags | kernel/src/mm/vmm.c:183 | an aligned frame address OR page flags is their sum and a quad-word |
| Pmm.InitBalanced | kernel/src/mm/pmm.c:39-128 | after `pmm_init` on any map that reaches at most one page past the bitmap, `total_pages - used_pages` is the number of clear bits, plus the pages counted twice, less the page past the bitmap; so the exact condition for agreement, from the entries and that one bit alone |
| Pmm.RecountedIff | kernel/src/mm/pmm.c:85-128 | pages are counted twice if and only if two usable entries cover a page and no entry of another type between them does |
| Pmm.FitsUnlessTailed | kernel/src/mm/pmm.c:98-101 | a map marks a page past the bitmap if and only if it has an accepted entry, not usable, whose own pages end with the last bit |
| Pmm.LastEntryOverruns | kernel/src/mm/pmm.c:98-127 | a last entry that is accepted, not usable and starts on a page does so exactly when its end, in pages, is a multiple of eight |
| Pmm.ReservedTailOverruns | kernel/src/mm/pmm.c:98-127 | a map of 16 MB and eight reserved pages after which the counters promise one page too few |
| Pmm.InitForeign | kernel/src/mm/pmm.c:118-127 | the memory past the bitmap can change `used_pages` by one and nothing else |
| Pmm.NothingRecounted | kernel/src/mm/pmm.c:85-128 | usable entries that cover disjoint pages count no page twice |
| Pmm.OverlapUnbalances | kernel/src/mm/pmm.c:103-124 | a usable entry listed twice makes the counters promise frames that do not exist |
| Pmm.EntryAdds | kernel/src/mm/pmm.c:85-128 | by its fields alone, which entries are ignored and which pages, counters and top an accepted one changes |
| Pmm.LowTaken | kernel/src/mm/pmm.c:49-82 | the pages below 8 MB are taken last, and the bitmap has a bit for every page below the end of the last entry, in whole bytes |
| Pmm.StepsBalanced | kernel/src/mm/pmm.c:130-158 | marking a free page used, or a used page free, keeps the counters in step with the bitmap |
| Pmm.HighestIsLargestEnd | kernel/src/mm/pmm.c:103-110 | `highest_usable_address + 1` is the largest end of an accepted usable entry, and free pages start below it |
| Pmm.FindIsLowest | kernel/src/mm/pmm.c:176-189 | `pmm_find_page` returns the lowest free page below its cut-off and fails only if there is none |
| Pmm.AllocTakesLowest | kernel/src/mm/pmm.c:208-220 | an allocation takes exactly the lowest reachable frame, and keeps the mutex when it fails |
| Pmm.UnreachableFew | kernel/src/mm/pmm.c:160-189 | at most one free page is out of reach of the search, two when the top is one byte into a page |
| Pmm.AllocManyExact | kernel/src/mm/pmm.c:208-220 | `n` calls succeed if and only if `n` pages are reachable; they return distinct pages in ascending order and leave the rest |
| Pmm.AllocationMargin | kernel/src/mm/vmm.c:234-238 | the test `total_pages - used_pages > n` guarantees `n` frame allocations, for every `n`, if and only if not both topmost pages are free with the top of memory one byte into the upper one |
| Pmm.MarginNeedsAlignedTop | kernel/src/mm/pmm.c:176-189 | a map with such a top: the test passes for 2049 pages and fewer can be had |
| Pmm.InitReady | kernel/src/mm/pmm.c:39-83 | `pmm_init` leaves every page below 8 MB taken, no free page above the top and the mutex free |
| Pmm.RunConserves | kernel/src/mm/pmm.c:208-227 | no run of allocations and frees of owned pages loses, creates or hands out a frame twice, and the counters keep agreeing |
| PmmBitmap.SetBit | kernel/src/mm/pmm.c:130-158 | changing one bit adds or removes exactly that page |
| PmmBitmap.Bitmap.MarkPageUsed | kernel/src/mm/pmm.c:145-158 | the bitmap and the counter change as the frame set does |
| PmmBitmap.Bitmap.MarkPageFree | kernel/src/mm/pmm.c:130-143 | the bitmap and the counter change as the frame set does |
| PmmBitmap.Bitmap.FreeSpan | kernel/src/mm/pmm.c:118-127 | the marking loop of a usable entry frees its pages and keeps `used_pages` |
| PmmBitmap.Bitmap.UseSpan | kernel/src/mm/pmm.c:79-82 | the marking loop of other entries and of the low pages takes them |
| PmmBitmap.Bitmap.AddE820Entry | kernel/src/mm/pmm.c:85-128 | one memory map entry, with its early returns, the extra page of a reserved entry and the top |
| PmmBitmap.Bitmap.Initialise | kernel/src/mm/pmm.c:39-83 | the whole initialisation gives the frame set of the map, or stops below 16 MB |
| PmmBitmap.Bitmap.PageTaken | kernel/src/mm/pmm.c:160-174 | a page at or above the top counts as used, any other by its bit |
| PmmBitmap.Bitmap.FindPage | kernel/src/mm/pmm.c:176-189 | the scan finds the page that the frame set gives |
| PmmBitmap.Bitmap.AllocPage | kernel/src/mm/pmm.c:208-220 | the allocation on the bitmap, with the mutex kept on the NULL path |
| PmmBitmap.Bitmap.FreePage | kernel/src/mm/pmm.c:222-227 | a freed page is free again |
| PageTable.NewTableInvisible | kernel/src/mm/vmm.c:123-136 | a new, zeroed table behind a missing entry changes no translation |
| PageTable.DescendCorrect | kernel/src/mm/vmm.c:117-182 | the descent ends at the level-1 table of the address, creating at most three tables that no address space sees, and keeps the tree |
| PageTable.LeafWrite | kernel/src/mm/vmm.c:182-183 | writing one entry of a level-1 table changes the translation of that page and of no other |
| PageTable.MapPageRefines | kernel/src/mm/vmm.c:117-186 | after `vmm_map_page(v, p, f)` the entry of `v` is `p OR f`, every other page of every address space keeps its entry, the tables still form a tree of used frames, and at most three frames were taken |
| PageWords.GetPageReads | kernel/src/mm/vmm.c:40-78 | `vmm_get_page` gives the word that nine bits of the address at each level select, 0 behind a word that is not present and a large entry as it is |
| PageWords.MapPageStores | kernel/src/mm/vmm.c:117-183 | where the tables exist, `vmm_map_page` stores exactly one word, at the place that the processor reads for the address |
| PageWords.MapPageLinks | kernel/src/mm/vmm.c:117-183 | where they do not, three present words lead to that place afterwards |
| PageWords.NewTableWord | kernel/src/mm/vmm.c:123-135 | a new table is empty and linked as present, writable and user |
| PageWords.PhysicalReads | kernel/src/mm/vmm.c:97-115 | outside the window `vmm_get_physical` gives the frame of that word and the offset in the page |
| PageWords.WindowIsDirect | kernel/src/mm/vmm.c:97-101 | in the window its short cut is the processor's translation |
| BootPaging.SetupPaging | bootmgr/stage2/paging.asm:13-82 | the loops that build the tables from 32-bit halves leave exactly the boot tables: two root slots, eight directories, 4096 large pages |
| AddressSpaces.BootIsTree | bootmgr/stage2/paging.asm:13-82 | the boot tables, once `vmm_init` has removed slot 0, form a tree |
| AddressSpaces.BootInvariant | kernel/src/mm/vmm.c:22-38 | the state after `pmm_init` and `vmm_init` satisfies the whole invariant |
| AddressSpaces.AliasBreaksTree | bootmgr/stage2/paging.asm:27-36 | with the alias in slot 0 no assignment of roles to tables fits |
| AddressSpaces.DirectMap | bootmgr/stage2/paging.asm:38-75 | the first 8 GB are visible from PHYSICAL_MEMORY up through 2 MB pages |
| AddressSpaces.WindowIs | bootmgr/stage2/paging.asm:38-75 | and no more than those of the 512 GB that the root slot stands for: the window in which the kernel reaches its page tables |
| AddressSpaces.BootShared | kernel/src/sys/sched.c:76-79 | once the heap and the first device are mapped, all kernel slots are present under the boot root, as `KernelHalfShared` needs |
| LargePages.LargeEntrySwallows | kernel/src/mm/vmm.c:140-183 | behind a 2 MB page `vmm_map_page` returns if and only if the page lies in the window; it takes no frame and overwrites one word of the page's first frame. No translation changes if that is no table; if it is one, only the walks that read the word change, and at the last level they end at the new entry |
| LargePages.MapPageCases | kernel/src/mm/vmm.c:117-186 | the exact case split: mapped, lost, or written into another table |
| LargePages.BootLarge | bootmgr/stage2/paging.asm:38-75 | all large entries of the boot tables are 2 MB pages |
| LargePages.WindowSwallows | kernel/src/mm/vmm.c:140-183 | in the physical window of the booted kernel every mapping is lost in this way |
| AddressSpaces.CreateRootKeepsTree | kernel/src/sys/sched.c:68-79 | a process root in the window, not cleared but for three slots, keeps the tree |
| AddressSpaces.CreateRootShares | kernel/src/sys/sched.c:76-79 | the new root has the kernel entries of all others |
| AddressSpaces.MapPageShares | kernel/src/mm/vmm.c:117-186 | mapping under one root keeps the kernel entries of all roots equal |
| AddressSpaces.SharedViews | kernel/src/mm/vmm.c:40-78 | roots with equal kernel entries see the same kernel half |
| AddressSpaces.KernelHalfShared | kernel/src/sys/sched.c:76-79 | after every run of mappings, process creations and frame use, a page of the kernel half has the same entry under every root |
| AddressSpaces.KernelRegionsShared | kernel/src/sys/sched.c:76-79 | so the physical window, the device region and the heap region, by their addresses, look alike in all of them |
| AddressSpaces.MissingSlotDiverges | kernel/src/sys/sched.c:76-79 | a kernel slot missing at creation is seen under one root only after the next mapping |
| Vmm.FirstFitSmallest | kernel/src/mm/vmm.c:207-230 | `vmm_find` returns the smallest page step from the start whose `count` pages are all unmapped |
| Vmm.FirstFitComplete | kernel/src/mm/vmm.c:207-230 | it fails only if its guard stops it before any place that fits |
| Vmm.FirstFitIff | kernel/src/mm/vmm.c:207-230 | it finds a place if and only if there is one that ends below the physical window, or the search starts above that |
| Vmm.BackRangeCorrect | kernel/src/mm/vmm.c:248-269 | the loop of `vmm_alloc` maps the pages to distinct, previously free frames, in order, and changes no other translation |
| Vmm.FreeRangeCorrect | kernel/src/mm/vmm.c:188-204 | `vmm_free` of a backed range succeeds, gives back exactly its frames and makes no table |
| Vmm.AllocFreeConserves | kernel/src/mm/vmm.c:188-270 | after `vmm_alloc` and `vmm_free` every translation is present as before, and the frames missing are exactly the tables created, at most three per page |
| TableDemand.MapPageIff | kernel/src/mm/vmm.c:117-186 | `vmm_map_page` returns if and only if the window has a frame to take for each table missing on the path; it takes just these, and they are then missing for no other page |
| TableDemand.FaultsIff | kernel/src/mm/vmm.c:133-175 | otherwise it faults in clearing a table if frames are left outside the window, and loops if there are none |
| TableDemand.BackRangeIff | kernel/src/mm/vmm.c:248-266 | the loop of `vmm_alloc` succeeds if and only if the reachable frames are at least the pages and the missing tables, each once, and those in the window at least what is taken up to the last table; it returns NULL if and only if they run out between two pages before that, and does not return otherwise |
| TableDemand.DemandBounds | kernel/src/mm/vmm.c:248-266 | that is at least one frame and at most four a page |
| TableDemand.AllocIff | kernel/src/mm/vmm.c:232-270 | when `vmm_alloc` gives a range and when it does not return |
| TableDemand.TestForgetsTables | kernel/src/mm/vmm.c:234-238 | where the counter test passes, the range is backed if and only if the missing tables are no more than the frames the test leaves over, exactly counted, and lie in the window |
| TableDemand.KmallocIff | kernel/src/mm/mm.c:23-36 | when `kmalloc` gives a block and when it does not return |
| VmmMachine.Machine.GetPageEntry | kernel/src/mm/vmm.c:40-78 | the walk over the levels is the recursive one |
| VmmMachine.Machine.PhysicalOf | kernel/src/mm/vmm.c:97-115 | the physical address, directly in the physical window and by the tables elsewhere |
| VmmMachine.Machine.EnsureTableAt | kernel/src/mm/vmm.c:121-140 | one level: the table behind the entry, allocated and zeroed if missing, with the loop and the fault |
| VmmMachine.Machine.MapPageAt | kernel/src/mm/vmm.c:117-186 | the stores of `vmm_map_page` give the state that `MapPageRefines` is about |
| VmmMachine.Machine.Find | kernel/src/mm/vmm.c:207-230 | the restarting search returns the first fit |
| VmmMachine.Machine.AllocRange | kernel/src/mm/vmm.c:232-270 | `vmm_alloc` with its counter test, NULL returns and kept mutexes |
| VmmMachine.Machine.FreePages | kernel/src/mm/vmm.c:188-204 | `vmm_free` page by page |
| Heap.KmallocCorrect | kernel/src/mm/mm.c:23-47 | the invariant is kept, the new block is apart from all others and its payload reads as zero, also on recycled frames |
| Heap.KmallocOthers | kernel/src/mm/mm.c:23-47 | no byte of another live block changes |
| PageWords.BlockWritable | kernel/src/mm/mm.c:23-47 | every page of a live block is its frame, and all four words on its path allow writing |
| PageWords.BootWritable | bootmgr/stage2/paging.asm:13-82 | the boot tables are writable |
| PageWords.KmallocWritable | kernel/src/mm/vmm.c:123-183 | an allocation keeps the tables writable |
| PageWords.PayloadAddress | kernel/src/mm/mm.c:46 | the pointer given out is 16 bytes past the start of the block, and leads to the payload |
| PageWords.FirstBlock | kernel/src/mm/mm.c:32 | the first block after boot starts the heap region |
| Heap.KfreeCorrect | kernel/src/mm/mm.c:73-77 | `kfree` of a live block always returns, gives back exactly the frames taken for it and leaves the other blocks |
| Heap.WriteKeeps | kernel/src/mm/mm.c:42-46 | whatever is written to a payload, the stored page count and every other block survive |
| Heap.CopyBlockCorrect | kernel/src/mm/mm.c:66 | the copy between two blocks moves the bytes and keeps the invariant |
| Heap.KreallocCorrect | kernel/src/mm/mm.c:55-71 | the old block is replaced by the new one, which starts with all the old bytes; every other block stays where it is with all its bytes |
| Heap.CopyInsideIff | kernel/src/mm/mm.c:66 | the copy of the old size stays inside the new block if and only if the old bytes fit its pages |
| HeapOverlap.ShrinkOverwritesHeader | kernel/src/mm/mm.c:66 | for every heap: if the old bytes do not fit and the new block ends where the old one begins, the copy puts payload bytes, exactly these, over the old header, the page count first |
| HeapOverlap.KreallocOverwrites | kernel/src/mm/mm.c:55-71 | so does every `krealloc` that gets its new block there, and `kfree` reads the page count from these bytes |
| Heap.GrowingFits | kernel/src/mm/mm.c:55-71 | they always do when the block grows |
| Heap.HeapRuns | kernel/src/mm/mm.c:23-77 | after every run of calls, refused ones among them, and payload writes, live blocks are disjoint page ranges on distinct frames with intact headers |
| Heap.RefusedSame | kernel/src/mm/mm.c:32-36 | a refusal that leaves the frame mutex free leaves everything as it was |
| HeapRefusal.MidRangeLeak | kernel/src/mm/vmm.c:250-257 | a refusal in the middle leaves every live block and its bytes, the pages mapped so far on frames that belong to nobody, no frame to take and the frame mutex held |
| Heap.BootHeap | kernel/src/mm/mm.c:17-21 | the heap of the booted kernel is empty and in its invariant |
| HeapMachine.KernelHeap.Memset | kernel/src/misc/string.c:158-168 | clearing byte by byte through the page tables |
| HeapMachine.KernelHeap.Memcpy | kernel/src/asm/cpu.asm:10-23 | copying byte by byte through the page tables |
| HeapMachine.KernelHeap.Kmalloc | kernel/src/mm/mm.c:23-47 | the call with its mutex, its loops and its header stores |
| HeapMachine.KernelHeap.Kfree | kernel/src/mm/mm.c:73-77 | the call, with the page count read from the header |
| HeapMachine.KernelHeap.Krealloc | kernel/src/mm/mm.c:55-71 | the call, with the copy of the old size |
| Concurrency.StepKeeps | kernel/src/asm/cpu.asm:28-41 | every step of any CPU, those of `vmm_map_page` for its tables included, keeps the invariant that ties locks, frames, pages and heap ranges to their owners |
| Concurrency.ConcurrentSafety | kernel/src/mm/pmm.c:208-227 | in every interleaving each lock has at most one holder, no frame is owned twice, live heap ranges do not overlap, a frame in a CPU's hands or given to a caller is nobody else's and backs no page, and neither does a table frame |
| Concurrency.TablesStay | kernel/src/mm/vmm.c:123-136 | in every interleaving a frame that became a table stays one |
| Handover.LivePagesIff | kernel/src/mm/mm.c:23-47 | in every interleaving the pages recorded as live are just those of the blocks handed out |
| Handover.MallocCall | kernel/src/mm/mm.c:23-47 | in every interleaving a `kmalloc` that comes back without a refusal has handed out a new block of pages mapped to different used frames |
| Handover.BlockStays | kernel/src/mm/mm.c:73-77 | a block stays handed out until `kfree` is called on it |
| Handover.KfreeCall | kernel/src/mm/vmm.c:188-204 | when a `kfree` is over, the frame of each page of the block was given back and the page taken out of the table |
| Handover.AllocCall | kernel/src/mm/pmm.c:208-220 | a `pmm_alloc_page` that comes back without a refusal has taken a free frame for its caller |
| Handover.FreeCall | kernel/src/mm/pmm.c:222-227 | when a `pmm_free_page` is over, the frame was given back |
| Handover.MissingTableAsks | kernel/src/mm/vmm.c:121-126 | `vmm_map_page` asks for a frame where a table is missing, at most three times a page |
| Handover.TableTaken | kernel/src/mm/vmm.c:123-180 | a `vmm_map_page` that goes on after a missing table has taken a free frame for it |
| Handover.RefusedAtOnce | kernel/src/mm/vmm.c:234-238 | a refusal by the counter test changes nothing and gives the heap lock back |
| Handover.NullEndsCall | kernel/src/mm/vmm.c:253-258 | with no frame for a page the call ends, the frame mutex held, the other locks given back and the pages mapped so far still there |
| Handover.TableNullHangs | kernel/src/mm/vmm.c:126-131 | with no frame for a table the CPU stops with all its locks |
| Handover.OutsideHangs | kernel/src/mm/vmm.c:133-135 | so it does when it clears a table outside the window |
| Handover.HangsForEver | kernel/src/mm/vmm.c:126-131 | and stays there in every interleaving |
| Concurrency.RangesUnderHeapLock | kernel/src/mm/vmm.c:240-248 | in every interleaving a CPU that searches for a range or builds one holds `heap_mutex`, and no other CPU holds it or does either, although `vmm_find` runs outside `vmm_mutex` |
| Concurrency.OverlapWithoutHeapLock | kernel/src/mm/vmm.c:240-248 | without it there is a schedule in which two CPUs build the same range |
| Concurrency.NullPathDeadlocks | kernel/src/mm/pmm.c:213-214 | after the NULL return, in every interleaving, the mutex is never released and no frame is allocated or freed again |
| LockOrder.NoDeadlock | kernel/src/mm/mm.c:23-36 | as long as every frame was found and every table lies in the window, some CPU in a call does not wait for a lock |
| LockOrder.CallsComplete | kernel/src/mm/vmm.c:232-270 | so after every such interleaving some schedule completes all calls |
| Directory.FreeIdFresh | echfs-utils/echfs-utils.c:297-310 | the single pass of `get_free_id` returns one more than the number of directories, which no entry uses |
| Directory.TreeGrows | echfs-utils/echfs-utils.c:329-345 | an entry that is not there, under a parent that is, keeps IDs in order, parents before children and keys unique |
| Directory.SplitJoin | echfs-utils/echfs-utils.c:263-272 | the components of a slash-joined path are the names that were joined |
| Directory.ResolveExact | echfs-utils/echfs-utils.c:230-295 | a path leads to an entry if and only if its components, after one leading slash, are the names from the root to the entry |
| Directory.ResolveFindsEntry | echfs-utils/echfs-utils.c:219-295 | the slash-joined names lead to the entry, with and without a leading slash, with the exact exceptions |
| FolderCreation.PrepareAdds | echfs-utils/echfs-utils.c:373-392 | the directory loop of `import_cmd` adds exactly the missing ancestors whose part of the path fits the buffer, after an empty-named directory if a path with a leading slash fails |
| FolderCreation.PrepareSettles | echfs-utils/echfs-utils.c:373-394 | the loop ends and the path no longer fails, for every path but `/` without a slash past the buffer |
| FolderCreation.PrepareStrays | echfs-utils/echfs-utils.c:375-391 | it writes past its buffer of 4096 bytes if and only if the path fails, has a slash past it, and the table has room for the directories in front of that and one entry more |
| FolderCreation.LongPathStrays | echfs-utils/echfs-utils.c:375-391 | as for any path of one-letter components with more than 2048 slashes, on an empty volume |
| FolderCreation.SlashStrays | echfs-utils/echfs-utils.c:377-391 | on `/` the loop reads past the string, unless the tool aborts before |
| FolderCreation.AddsExactly | echfs-utils/echfs-utils.c:373-392 | the directories added are one chain with consecutive IDs below the ancestors that exist |
| FolderCreation.MkdirExact | echfs-utils/echfs-utils.c:312-350 | `mkdir` adds one directory where the walk down its path ends, with the next ID, unless one of that name is there, the path fails or the table is full |
| FolderCreation.MkdirKeepsTree | echfs-utils/echfs-utils.c:312-350 | `mkdir` keeps the tree and adds at most one entry, at the end |
| FolderCreation.PrepareKeepsTree | echfs-utils/echfs-utils.c:373-392 | so does the loop, with directories only |
| Fat.StoreLinks | echfs-utils/echfs-utils.c:138-190 | `import_chain` succeeds if and only if there are enough free blocks; it uses the lowest ones in order, links them, ends the chain and changes nothing else |
| Fat.NeededIs | echfs-utils/echfs-utils.c:153-154 | the number of blocks is the size divided by the block size, rounded up, and one for an empty file |
| Fat.PiecesExact | echfs-utils/echfs-utils.c:164-175 | each byte of the blocks written is the file's, or what the buffer still holds from the block before |
| Fat.FollowChain | echfs-utils/echfs-utils.c:200-213 | following the links from the first block gives the chain, and ends |
| Fat.ExportGives | echfs-utils/echfs-utils.c:192-217 | on a chain that holds a file the export returns its bytes, without the last block if the file fills it |
| Volume.TablesFit | echfs-utils/echfs-utils.c:612-624 | the tables leave room for data if and only if there are at least 17 blocks |
| Volume.FormatSizes | echfs-utils/echfs-utils.c:496-541 | `format` succeeds if and only if the image is a whole number of blocks of a positive multiple of 512 bytes, and what it leaves, entry by entry |
| Volume.FormatInv | echfs-utils/echfs-utils.c:486-555 | a formatted image satisfies the volume invariant if and only if it has at least 17 blocks |
| Volume.NewFileKeeps | echfs-utils/echfs-utils.c:407-421 | a new file keeps chains disjoint, increasing and in the data area, and the busy data blocks exactly their union |
| Volume.RunKeeps | echfs-utils/echfs-utils.c:312-426 | every run of `mkdir` and `import`, with aborts, keeps the invariant, all earlier entries, chains and bytes |
| Volume.FormatRuns | echfs-utils/echfs-utils.c:486-555 | so the invariant holds after every run from `format` |
| Volume.ImportStores | echfs-utils/echfs-utils.c:394-421 | after an import the path leads to the new last entry, which has the time given and holds the source |
| Volume.ImportExisting | echfs-utils/echfs-utils.c:394-400 | an import to a path that leads to a file already adds nothing but its directories |
| Volume.MkdirStores | echfs-utils/echfs-utils.c:312-350 | after a `mkdir` the path leads to the directory |
| Volume.ImportExportRoundTrip | echfs-utils/echfs-utils.c:138-217 | after an import and any later commands, exporting the path returns the imported bytes, or all but the last block |
| Volume.ExportExact | echfs-utils/echfs-utils.c:203-206 | the export is the original if and only if its size is zero or no multiple of the block size; otherwise exactly one block is missing |
| Volume.ExportCases | echfs-utils/echfs-utils.c:428-458 | a file that is not found is not written, and a path that fails before gives an empty file |
| Volume.ImportLost | echfs-utils/echfs-utils.c:162-183 | the exact condition under which an import leaves its tables or its buffer: the path `/`, a path as in `PrepareStrays`, or too few free blocks |
| Image.Layout | echfs-utils/echfs-utils.c:612-624 | header, allocation table, directory and data lie in this order without overlap |
| Image.HeaderWords | echfs-utils/echfs-utils.c:517-525 | the header byte by byte |
| Image.BlocksDisjoint | echfs-utils/echfs-utils.c:170-173 | different blocks have no byte in common |
| Image.WrEntryReads | echfs-utils/echfs-utils.c:26-36 | a directory entry written as 256 packed bytes reads back and touches no other byte |
| Image.FatWrite | echfs-utils/echfs-utils.c:103-107 | a quad-word written into the table changes one table entry of the volume and nothing else |
| Image.EntryWrite | echfs-utils/echfs-utils.c:124-136 | an entry written at the end of the directory appends it and changes nothing else |
| Image.BlockWrite | echfs-utils/echfs-utils.c:170-173 | a data block written changes the bytes of that block and nothing else |
| ImageTool.Tool.FormatPass1 | echfs-utils/echfs-utils.c:486-541 | the header and the zeros, or an abort, exactly for sizes that do not fit together |
| ImageTool.Tool.Open | echfs-utils/echfs-utils.c:576-625 | the layout read from the header is the one that was formatted |
| ImageTool.Tool.FormatPass2 | echfs-utils/echfs-utils.c:543-555 | the tables are marked reserved |
| ImageTool.Tool.FormatImage | echfs-utils/echfs-utils.c:486-555 | the image encodes the blank volume |
| ImageTool.Tool.RdEntry | echfs-utils/echfs-utils.c:109-122 | an entry read from the bytes is the entry of the table, and the end of the table aborts |
| ImageTool.Tool.SearchTable | echfs-utils/echfs-utils.c:219-228 | the first match, not found at the terminator, or an abort in a full table |
| ImageTool.Tool.PathResolver | echfs-utils/echfs-utils.c:230-295 | the loop over the components resolves as `Directory.Resolve` does |
| ImageTool.Tool.GetFreeId | echfs-utils/echfs-utils.c:297-310 | the scan returns the fresh ID |
| ImageTool.Tool.FindEmpty | echfs-utils/echfs-utils.c:416-420 | the first empty entry is the one after the last |
| ImageTool.Tool.MakeFolder | echfs-utils/echfs-utils.c:312-350 | `mkdir` on the image is `mkdir` on the volume |
| ImageTool.Tool.FindFree | echfs-utils/echfs-utils.c:161-163 | the scan finds the first free block |
| ImageTool.Tool.ImportChain | echfs-utils/echfs-utils.c:138-190 | the loop writes the chain of the volume, with the stale end of the buffer |
| ImageTool.Tool.ExportChain | echfs-utils/echfs-utils.c:192-217 | the loop reads what the volume gives |
| ImageTool.Tool.Export | echfs-utils/echfs-utils.c:428-458 | the export command, with the empty file for a path that fails |
| ImageTool.Tool.MakePath | echfs-utils/echfs-utils.c:374-392 | the directory loop with its `goto` and the end of its buffer |
| ImageTool.Tool.ImportFile | echfs-utils/echfs-utils.c:352-426 | `import` on the image is `import` on the volume |
| Loader.TableBlocksAgree | bootmgr/stage2/echfs.asm:235-253 | the loader and the tool agree on the size of the table if and only if there are fewer than 2^28 blocks |
| Loader.LookupPlace | bootmgr/stage2/echfs.asm:148-168 | entry `b mod per` of block `16 + b div per` is the table entry of block `b` |
| Loader.LoadedIff | bootmgr/stage2/echfs.asm:259-317 | a file is loaded if and only if it is in the root and no root directory of its name precedes it |
| Loader.HeldPrefix | bootmgr/stage2/echfs.asm:328-348 | the blocks of a chain that holds a file start with its bytes |
| Loader.ImportLoads | bootmgr/stage2/echfs.asm:185-354 | after an import to a plain name, with or without a leading slash, and any later commands the loader loads the imported bytes, unless a root directory has that name |
| LoaderMachine.BootLoader.HddReadSector | bootmgr/stage2/echfs.asm:32-103 | sectors arrive at the target through the 8 KB buffer, at most 16 at a time, and nothing else changes |
| LoaderMachine.BootLoader.ReadBlock | bootmgr/stage2/echfs.asm:119-133 | a block of the partition arrives at the target |
| LoaderMachine.BootLoader.NextBlock | bootmgr/stage2/echfs.asm:148-168 | the low half of the table entry |
| LoaderMachine.BootLoader.ScanDirectory | bootmgr/stage2/echfs.asm:259-304 | the scan block by block finds the first root entry of the name, or none |
| LoaderMachine.BootLoader.ReadChain | bootmgr/stage2/echfs.asm:328-348 | the loop ends with all blocks of the chain in memory, one after the other |
| LoaderMachine.BootLoader.Load | bootmgr/stage2/echfs.asm:185-354 | the whole load: success exactly for the files of `LoadedIff`, with their bytes at the target |
| Context.SavedRestored | kernel/src/asm/isr.asm:239-269 | saving and restoring gives back the register file if and only if the data and stack segments follow the code segment |
| Context.Core.TimerIrqEntry | kernel/src/asm/isr.asm:234-269 | the state block has the interrupted registers, and the stack still has them too |
| Context.Core.TimerIrqExit | kernel/src/asm/isr.asm:275-278 | without a switch the interrupted registers come back |
| Context.Core.LoadContext | kernel/src/asm/context.asm:12-50 | the registers are those of the thread structure |
| Scheduler.FindIdle | kernel/src/sys/sched.c:136-169 | a runnable thread of a valid process, and NULL if and only if there is none |
| Scheduler.NobodyToDispatch | kernel/src/sys/sched.c:171-199 | with nobody to dispatch, which cannot be once a thread runs, only the slot number moves on |
| Turns.DispatchedIff | kernel/src/sys/sched.c:136-199 | from any state, under ticks alone, an idle thread is ever dispatched if and only if there is more than one process or more than one thread in the first, and its slot number is above every live slot of every valid process before its own, or, above the running thread, of those from the running one on |
| Scheduler.PathTurn | kernel/src/sys/sched.c:136-199 | such a thread has its turn before as many rescheduling ticks as it is slots away |
| Scheduler.PathReached | kernel/src/sys/sched.c:136-199 | from any running thread the processor gets to such threads within MAX_THREADS rescheduling ticks |
| KernelThreads.BootedInv | kernel/src/sys/sched.c:34-46 | the state after `sched_init`, at any count of ticks, satisfies the invariant |
| KernelThreads.StepKeeps | kernel/src/sys/sched.c:56-261 | ticks, computation and every statement of `create_thread` and `create_process` keep the invariant |
| KernelThreads.ExactlyOneBusy | kernel/src/sys/sched.c:171-199 | from the first dispatch on exactly one thread is busy, the one at (`cpu.pid`, `cpu.tid`) |
| KernelThreads.TickResumes | kernel/src/sys/sched.c:171-199 | after a tick the interrupted thread goes on unchanged or an idle thread starts with the registers of its slot |
| KernelThreads.ContextIsolation | kernel/src/sys/sched.c:179-198 | a thread that is interrupted resumes, after any events during which it did not run, with exactly its registers |
| KernelThreads.NewThreadStarts | kernel/src/sys/sched.c:231-257 | a new thread first runs with the registers that `create_thread` gave it |
| KernelThreads.NotWhileBuilding | kernel/src/sys/sched.c:223-257 | a tick between two statements of `create_thread` never dispatches the thread under construction |
| KernelThreads.DispatchedInTurn | kernel/src/sys/sched.c:136-199 | an idle thread of process 0 is dispatched before as many rescheduling ticks as it is slots away, whatever is created meanwhile |
| TimerFairness.StepCounted | kernel/src/sys/sched.c:171-261 | the thread count of process 0 is the number of its threads that run or wait to run, but for the last statement of `create_thread` |
| TimerFairness.TickSwitches | kernel/src/sys/sched.c:171-199 | if another thread of process 0 waits to run, each tick but every tenth goes on to another thread |
| TimerFairness.FairByTicks | kernel/src/sys/sched.c:136-199 | every thread of process 0 that waits to run is dispatched within 36 ticks, whatever is created meanwhile |
| TimerFairness.FairFromBoot | kernel/src/sys/sched.c:34-46 | in particular after any events from `sched_init` on |
| TimerFairness.CreateRefusedIff | kernel/src/sys/sched.c:201-221 | `create_thread` takes the first slot that is not in use, and is refused if and only if all 32 are |
| KernelThreads.Fairness | kernel/src/sys/sched.c:136-199 | and so within MAX_THREADS rescheduling ticks |
| KernelThreads.OnlyProcessZeroRuns | kernel/src/sys/sched.c:56-261 | from `sched_init` on, whatever threads and processes are created, only threads of process 0 run |
| KernelThreads.SpawnParks | kernel/src/sys/sched.c:56-134 | `create_process` after the first, with no tick in between, ends with a valid process whose thread is idle and has null segments |
| KernelThreads.SpawnedWaits | kernel/src/sys/sched.c:136-199 | that thread waits for ever, unchanged |
| KernelThreads.CreateDestroysIff | kernel/src/sys/sched.c:201-229 | `create_thread`, whether it gets its thread or not, destroys a thread if and only if the slot it takes is in use in the caller's process; in process 0 it never is |
| KernelThreads.CreateTwiceLoses | kernel/src/sys/sched.c:201-261 | in any other process the second of two calls takes the slot of the thread that the first made |
| DanglingThread.CallDanglesIff | kernel/src/sys/sched.c:209-261 | a call in process 0 leaves its slot pointing to a freed thread if and only if it got the thread and not the stack |
| DanglingThread.DanglingFollowed | kernel/src/sys/sched.c:136-169 | then `find_idle` reads that slot within 36 ticks, whatever the threads do, if there is anybody to switch to |
| SchedulerMachine.Kernel.FindIdle | kernel/src/sys/sched.c:136-169 | the two passes with their `goto` |
| SchedulerMachine.Kernel.Resched | kernel/src/sys/sched.c:171-199 | the whole new state, with the early return |
| SchedulerMachine.Kernel.TimerIrq | kernel/src/firmware/timer.c:23-28 | every tenth tick does not reschedule |
| SchedulerMachine.Kernel.FindSlot | kernel/src/sys/sched.c:201-207 | the first slot of process 0 that is empty or unused |
| Numbers.DigitsDenote | kernel/src/misc/string.c:88-101 | the digits denote the number in every radix from 2 to 36, each is in range, and the first of a positive number is not zero |
| Numbers.PrintedDenotes | kernel/src/misc/string.c:62-121 | a decimal print with its sign denotes its number |
| Numbers.PrintedWord | kernel/src/misc/string.c:62-121 | in any other radix the digits, without a sign, denote the 64-bit word |
| Numbers.DigitBytes | kernel/src/misc/string.c:88-97 | the digits are 0 to 9 and A to Z |
| Numbers.Reverse | kernel/src/misc/string.c:105-118 | the buffer is reversed in place between two indices |
| Numbers.Ltoa | kernel/src/misc/string.c:62-121 | the buffer holds the printed number and its terminating zero |
| Numbers.Atoi | kernel/src/misc/string.c:128-156 | up to nine digits the value is what the text denotes, and no 32-bit operation overflows |
| Numbers.MultiplierFits | kernel/src/misc/string.c:143-148 | the multiplier fits 32 bits if and only if there are at most nine digits |
| Numbers.PrintAndRead | kernel/src/misc/string.c:62-156 | `atoi(ltoa(n, 10)) == n` for every `n` strictly between -10^9 and 10^9 |
| Numbers.PaddedWidth | kernel/src/misc/debug.c:28-49 | the width is at least `new_size`, and one more for a shorter negative number |
| Numbers.PaddedDenotes | kernel/src/misc/debug.c:28-49 | padding with zeros keeps what the number denotes |
| Numbers.Pad | kernel/src/misc/debug.c:28-49 | the destination holds the padded text |

## Left out

- Console, framebuffer and log formatting beyond `pad`; port I/O, PIT, PCI, APIC, PIC, MSRs; ACPI and its library;
  GDT, IDT, exceptions, MBR, VBE, A20 and mode switching; SMP start-up: hardware set-up or user interface.
- `vmm_create_mmio`, `vmm_set_wc`, `pmm_find_in_range` and TLB flushing: they would only add easy members.
- The NULL returns of `create_process`, `memmove`, `copy_number`, `itoa` and `ls`: likewise.
- Wrap-around of 64-bit addresses, sizes and counters, and the product of `kcalloc`: addresses and sizes are below the limits
  that the contracts name.
- Disk and BIOS errors of the boot loader, and 32-bit wrap-around of its sector and target addresses.
- The clock: one time stamp for each command of the image tool. Names of 218 bytes and more.
- Pmm.InitReady: requires that every entry reaches at most one page past the bitmap, which is so if the last entry of
  the map ends highest; otherwise `pmm_init` writes further past its bitmap.
- Pmm.InitBalanced: the same condition.
- Pmm.InitForeign: the same condition.
- AddressSpaces.BootInvariant: the same condition.
- AddressSpaces.BootShared: the same condition.
- LargePages.WindowSwallows: the same condition.
- Heap.BootHeap: the same condition.
- PmmBitmap.Bitmap.AddE820Entry: the byte after the bitmap is a parameter; entries that reach further are required away.
- PmmBitmap.Bitmap.Initialise: likewise.
- PageTable.MapPageRefines: requires that no large page is on the path; `LargePages.MapPageCases` has the other case. The
  window stays at 8 GB; a caller that maps further pages at PHYSICAL_MEMORY would extend it.
- LargePages.MapPageCases: large pages are 2 MB pages, as the boot loader makes them.
- VmmMachine.Machine.Find: requires that the search ends; above MMIO_REGION with no place that fits, the loop of the
  source wraps round the address space.
- VmmMachine.Machine.AllocRange: the same condition on its search.
- HeapMachine.KernelHeap.Kmalloc: the same condition, since the heap area lies above MMIO_REGION.
- HeapMachine.KernelHeap.Krealloc: the same condition, and that the old bytes fit, as for `Heap.KreallocCorrect`.
- Heap.KreallocCorrect: requires that the old bytes fit the pages of the new block; `Heap.CopyInsideIff` says exactly when,
  and `HeapOverlap` what happens otherwise.
- Heap.HeapRuns: a run ends before a `krealloc` whose copy does not fit.
- Concurrency.ConcurrentSafety: the page tables are the flat map that `PageTable` refines, and which tables are missing
  is the scheduler's choice; a caller frees only frames and blocks that it owns.
- LockOrder.CallsComplete: frames are unbounded in number, so that one can always be found.
- HeapMachine.KernelHeap.Memcpy: copies byte by byte where the source moves eight bytes at a time first.
- ImageTool.Tool.FindFree: the scan ends with the table, where the tool's own scan has no end; `Volume.ImportLost` says
  exactly when that matters.
- ImageTool.Tool.FormatImage: requires at least 17 blocks; `Volume.FormatInv` and `Volume.TablesFit` say that fewer leave no
  valid volume.
- ImageTool.Tool.RdEntry: permissions, owner and group are written as zero and not read.
- LoaderMachine.BootLoader.Load: requires at least 20 blocks; with fewer the source takes a data block for the directory.
- KernelThreads.StepKeeps: new threads of process 0 get their stacks; `DanglingThread` has what happens otherwise, up to the
  read of the freed thread.
- KernelThreads.SpawnParks: the run with no tick between the statements; `KernelThreads.RunKeeps` has the invariant with any.
- TimerFairness.FairByTicks: not while `create_thread` is between its last two statements, when a new second thread is
  not counted yet.
- Turns.DispatchedIff: under ticks alone; `TimerFairness.FairByTicks` has the runs in which threads are created.
- Context.Core.TimerIrqExit: that `timer_irq` leaves the stack above it alone is a precondition.
- Numbers.Atoi: requires at most nine digits, because the multiplier overflows beyond; `Numbers.MultiplierFits`.
