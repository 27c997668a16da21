# Kernel memory: a verified model

This project models the memory management of the XIS kernel in Dafny and proves what it is
for: the buddy page allocator, alone and on many CPUs; the two-level page tables and the kernel
mappings; the directories that every CPU fills lazily from a master directory; the allocation of
user pages, which joins all of these; and, beside them, the number formatting.

Code that changes memory step by step is a class over arrays whose methods are proved against
functions or word-by-word relations; the theorems are lemmas about those. What CPUs do
concurrently is a step machine over explicit blocks in flight.

| file | models |
|---|---|
| Dyadic, Partition | blocks of 2^k frames, `pfn ^ (1 << order)`, and partitions of the managed frames |
| BuddyMem, BuddySteps, BuddyTheorems, References | the allocator as functions on its memory, what clients may rely on, and the reference counts |
| FreeList, PageAllocator, MemInit | the intrusive rings, the allocator over its mutable arrays, the marking of the E820 map and the building of the free lists |
| BuddyConcurrent, ConcurrentTheorems, AllocCalls, SoloRun, Progress | any number of CPUs, one lock per order, one shared access per step; what each call comes to in every interleaving; one CPU running alone; no deadlock and bounded work |
| PageTables, PageByPage, KernelMap, LinearPages | building and unmapping page tables against the flat map, and the kernel's callers |
| LazyDirectory | master and local directories, the copy at set-up and the page-fault fix |
| Holdings, TableDemand, UserPages, UserSpace, UserTheorems | `alloc_user_page`: sizing, retry loop, mapping, all or nothing |
| UserRuns, UserInterleaved | exclusive frames: over runs of whole calls and stores, and with the steps of all calls interleaved |
| Startup | from the E820 map and the linked kernel to the first user page |
| Digits, Format | numerals, and the in-place formatting on a buffer |

User halves count from the moment their CPU is live: from then on only `alloc_user_page` is to write
there. Before, the directory is written freely, by the first copies of smp.c, the copy of setup32.c
and the clearing of usermode.c, and it may never be cleared, as when there are fewer CPUs than
directories. The runs of UserRuns and UserInterleaved start with no CPU live and contain all of this.

## What came out

Where the code does not do what its comments or its use suggest, the model keeps the code, and
the project states when the property holds.

- An E820 entry that is not usable memory, and that begins in the last page after an entry that
  ended in that page, is never looked at: the loop test of memory.c:146 fails first. Its page can
  be handed out (`MemInit.ReservedTailHandedOut`). `MemInit.ReservedRespectedIff` says exactly when
  no reserved entry's page is: when there is no such entry, or the last page is a fixed frame, is
  kernel data, or is first ended in by an entry that is not usable.
- `free_pages_count` is not the length of its list: a merge counts a block off, an allocation does
  not. `BuddyTheorems.DriftLaw` gives the exact difference over any run.
- `alloc_user_page` counts page tables from the length alone. A range that straddles one more
  slot than its length fills may take a table nobody allocated (`TableDemand.StraddleShortfall`);
  `TableDemand.TakesOwnFramesIff` says exactly when, and everything about the function is proved
  wherever it does not happen.
- Its range check adds in 32 bits, so ranges that wrap around pass it (`TableDemand.CheckExact`).
- `build_pagetable` never maps the topmost page of the address space: the end of that page is 0
  (page32.c:54, page32.c:66). `KernelMap.KernelMapTranslates` says so for the mapping loop.
- A new page table is not cleared, so entering it can map pages beside the range, and a slot that
  gains the write right gives it to its other pages. `PageTables.BesideUnchangedIff` and
  `KernelMap.MapThenUnmapUnchangedIff` give the exact condition under which pages beside the range
  do not change.
- For the same reason user frames are exclusive over a run exactly when the tables that
  `alloc_user_page` takes hold no present words beside its ranges (`UserRuns.RunExclusiveIff`); a
  stale word maps a user page nobody asked for (`UserRuns.StaleWordShares`). With the steps of the
  calls interleaved the tables must hold no present word at all when they are entered
  (`UserInterleaved.InterleavedIff`).
- The copy of the master directory at set-up goes byte by byte (setup32.c:393, util.h:18) and holds
  no lock. When another CPU enters an empty slot of the master while the slot is half copied, the
  copy ends with an entry that is not zero and not present, which the page-fault fix never repairs
  (`LazyDirectory.TornForGood`). `LazyDirectory.CopyEndsCoherentIff` says exactly when the copy
  ends coherent.
- A mapping asked for with MAP_LOCAL_CPU is local only as long as no other CPU has the slot in use,
  since the kernel tables are shared (`LazyDirectory.LocalMappingIsLocalIff`).
- Page tables and linear blocks are reached at an address 2 GB above their frame. From 2 GB on that
  address wraps around to the user half, where the mapping is refused, and the page just below is
  the topmost one, which is never mapped; the code tests neither (`KernelMap.HasLinearIff`).
  Frames for user pages may lie anywhere.
- mem_init sets the kernel tables of the slots below the end of the E820 map aside and no others
  (`Startup.TableSetAside`). A device mapping above it uses a table that page_alloc may hand out
  (`Startup.DeviceTableManaged`); `UserRuns.DirectoryStepsSpareIff` says exactly when its table
  writes change a user table.
- `unmap_pagetable` runs past the directory when it skips the topmost slot of the address space,
  because the 32-bit address wraps to 0 (`PageTables.TopSlotSkipWraps`); when that slot is in use,
  the last 4 MB are unmapped like the rest, but for the topmost page.

## Model

| member | source | states |
|---|---|---|
| BuddyTheorems.AllocExact | memory.c:295-341 | page_alloc fails exactly when the order is too large or no naturally aligned run of the size is wholly free; otherwise it hands out such a run as one allocated block, every other block in use stays as it is and every other free frame stays free |
| BuddyTheorems.FreeThenAllocReturnsIt | memory.c:228-341 | last in, first out: a block freed without merging is the next of its order to be handed out |
| BuddyTheorems.AllocSmallestNewest | memory.c:301-309 | a corollary of the specification that PageAllocator.KernelPages.PageAlloc meets: the block comes from the smallest order that has one, and there it is the one put on the list last |
| BuddyTheorems.FreeExact | memory.c:228-293 | freeing an allocated block makes its frames free, changes nothing else, and leaves the lists fully coalesced |
| Partition.ListedIffMaximalRun | memory.c:240-292 | canonical form: a block is free-listed exactly when it is a maximal aligned free run of an order up to the largest |
| BuddyTheorems.FreeFramesFixLists | memory.c:228-293 | the blocks on the lists depend on the set of free frames alone |
| BuddyTheorems.AllocThenFreeRestores | memory.c:228-341 | page_alloc followed by freeing its result restores every list as a set of blocks |
| BuddyTheorems.FreeOrderIrrelevant | memory.c:228-293 | freeing any allocated blocks in any two orders leaves the same blocks on every list |
| BuddyTheorems.RunGood | memory.c:228-341 | over every run of allocations and frees, lists, flags and order fields realise a coalesced partition of the same frames |
| BuddyTheorems.DriftLaw | memory.c:273-314 | over every run, free_pages_count minus the list length grows by exactly the number of allocations served from that list |
| References.AllocRecords | memory.c:309-313 | page_alloc counts one reference on the frame it returns, in 32 bits, and marks it allocated; no other frame's count or mark changes, whatever is split off |
| References.FreeRecords | memory.c:228-293 | freeing changes no count and no mark, whatever it merges |
| References.RecordsOverRuns | memory.c:309-313 | over every run a frame's count grows by exactly the calls that returned it, modulo 2^32, and the mark is set exactly when it was before or some call returned it |
| BuddySteps.SlotTracks | memory.c:228-293 | the merging loop turns the partition with the block in hand into one where its frames are free-listed, keeps every other frame free or used as it was, and stays coalesced |
| BuddySteps.SplitTracks | memory.c:320-334 | splitting hands out the first 2^order frames as one block and free-lists the rest of the taken block |
| BuddySteps.UpperHalfInserted | memory.c:325-333 | splitting never re-merges the halves it makes: each goes straight onto its list |
| Dyadic.BuddyIsXor | memory.c:242 | the buddy's number is the one whose bits are those of pfn but for bit order, so it is pfn XOR 2^order |
| Dyadic.BuddyFlipsOneBit | memory.c:242 | of the bits of pfn exactly bit order changes |
| Dyadic.BitsDetermine | memory.c:242 | numbers with equal bits are equal |
| Dyadic.BuddyIndex | memory.c:242 | pfn XOR 2^order is the other half of the block of the next order around pfn |
| Dyadic.BuddyHalves | memory.c:242 | a block and its buddy are disjoint, have one aligned head between them, and make up the block of the next order |
| FreeList.LinkInAppends | util.h:65 | list_insert_tail on a well-formed ring appends the entry |
| FreeList.LinkOutCuts | util.h:69 | list_remove_entry cuts the entry out of the ring and keeps the others in order |
| FreeList.FreeLists.InsertTail | util.h:65 | the link writes do that, and all other rings stay as they are |
| FreeList.FreeLists.RemoveEntry | util.h:69 | the link writes do that for an entry anywhere on its list |
| FreeList.FreeLists.Last | util.h:67-68 | the entry before the head is the newest one, and there is none exactly on an empty list |
| PageAllocator.KernelPages.AddToSlot | memory.c:228-293 | the loop over orders, in place, leaves the memory that the specification function gives |
| PageAllocator.KernelPages.PageAlloc | memory.c:295-341 | the search and the splitting loop, in place, return and leave what the specification gives, and keep the invariant |
| PageAllocator.KernelPages.PageFree | memory.c:228-293 | freeing an allocated head with the last kpage as limit keeps the invariant and gives the specified state |
| PageAllocator.KernelPages.MarkE820 | memory.c:145-173 | the nested loops over the map mark exactly the frames of reserved entries and gaps that they reach, and the frames of kernel data |
| PageAllocator.KernelPages.MarkFixed | memory.c:178-208 | exactly the frames of MemInit.FixedByAddress are set aside |
| PageAllocator.KernelPages.BuildFreeLists | memory.c:210-221 | feeding the frames in ascending order lists exactly those that pass kpage_is_free, in canonical blocks, with exact counts |
| PageAllocator.KernelPages.Init | memory.c:136-221 | after mem_init the managed frames are exactly those of MemInit.ManagedIff and MemInit.LastManagedIff, and all of them are free |
| MemInit.BuildLists | memory.c:210-221 | the specification of that loop: every frame that passes the test is free, the partition is coalesced, no other frame is listed |
| MemInit.FeedKeepsLater | memory.c:236-251 | with the current frame as the limit no later frame is altered before its own test |
| MemInit.TouchesIffShareByte | memory.c:145-159 | the frames an entry marks are exactly those it shares a byte with |
| MemInit.FixedByAddress | memory.c:178-208 | the frames set aside whatever the map says are those of the bytes 0x0 and 0x2000, of the AP start code from 0x7c00 on, and of 0x80000 to 0xfffff |
| MemInit.ManagedIff | memory.c:145-208 | a frame before the last is managed exactly when some entry touches it, all that touch it are usable, it lies above the end of kernel data, and it is not one of those |
| MemInit.LastManagedIff | memory.c:145-208 | the last frame is managed exactly when the first entry that ends in it touches it and is usable, and the other two conditions hold |
| MemInit.UsableIsManaged | memory.c:145-214 | no usable memory is lost: every frame from 1 MB on whose bytes lie in one usable entry, above kernel data and behind the AP start code, is managed |
| MemInit.ReservedRespectedIff | memory.c:145-159 | no frame of a reserved entry is managed exactly when no reserved entry hides behind an earlier one in the last page, or that page is fixed, is kernel data, or is first ended in by an entry that is not usable |
| MemInit.LastPageDecided | memory.c:145-159 | of the entries that lie in a last page where an earlier one ends, the first that ends there decides alone how the page is marked |
| MemInit.ReservedTailHandedOut | memory.c:145-159 | a two-entry map on which a reserved region's frame is managed |
| MemInit.KernelDataExcluded | memory.c:145-172 | no frame up to the end of kernel data is managed, whatever the map says of it |
| MemInit.GapsAndKernelExcluded | memory.c:153-172 | whole frames in gaps, and frames of any usable entry up to the end of kernel data, are never managed, whether or not the loop reaches the entry |
| BuddyConcurrent.StepKeeps | memory.c:228-341 | every step of any CPU keeps the invariant of the shared memory, its own knowledge, and the guarantee it owes the other CPUs |
| BuddyConcurrent.PcStable | memory.c:240-335 | what a CPU knows at any point survives every step of every other CPU |
| BuddyConcurrent.BuddyStable | memory.c:260-264 | between the unlocked read of the buddy's order and that of its flag, the buddy stays the block the first read found |
| BuddyConcurrent.FlagDecides | memory.c:263-264 | after the order has matched, the flag is set exactly when the buddy is on the list of that order |
| ConcurrentTheorems.FramesPartitioned | memory.c:228-341 | for every interleaving of any number of CPUs, each managed frame is at all times in exactly one aligned block: on a list, in the hands of one CPU, or allocated |
| ConcurrentTheorems.CoalescingTestExact | memory.c:258-264 | a CPU past the unlocked test finds its buddy on the list, and one that failed it has its buddy off the list until it has inserted |
| ConcurrentTheorems.NoFreeBuddies | memory.c:258-288 | in no reachable state are two buddies below the largest order both listed |
| ConcurrentTheorems.ListsCanonical | memory.c:228-341 | in every reachable state the lists hold exactly the maximal aligned runs of listed frames |
| ConcurrentTheorems.ConcurrentDrift | memory.c:273-314 | the drift law for every interleaving |
| ConcurrentTheorems.ExcludedNeverHandedOut | memory.c:145-341 | no run on any number of CPUs hands out a frame that the start-up rules exclude; for reserved entries under the condition of MemInit.ReservedRespectedIff |
| ConcurrentTheorems.BootedInv | memory.c:210-221 | freshly built free lists and idle CPUs are a start of the machine |
| ConcurrentTheorems.QuiescentGood | memory.c:228-341 | whenever all CPUs are idle the shared memory is a state between whole calls, so that all about single calls holds there |
| ConcurrentTheorems.QuiescentAllocExact | memory.c:295-341 | in every such state that a concurrent run reaches, page_alloc fails exactly when no aligned free run of the size exists |
| AllocCalls.AllocCallEnds | memory.c:295-341 | for every interleaving: a call of page_alloc, from the event that makes it to the return of its CPU, ends either with exactly one aligned block of the order asked for, taken from frames all listed at that moment, recorded with that order, marked and counted once, or with nothing; with nothing only after the CPU has seen the list of every order from the one asked for to the largest empty while it held that order's lock; nothing is left in the CPU's hands |
| AllocCalls.FreeCallEnds | memory.c:228-293 | for every interleaving: by the end of a call of page_free each frame of the block has gone from the hands of its CPU to a list, the call has handed out nothing, and nothing is left in the CPU's hands |
| AllocCalls.RefsCounted | memory.c:312 | for every interleaving: a frame's reference count grows, modulo 2^32, by the steps that count a reference on it |
| AllocCalls.StatesRun | memory.c:228-341 | the runs that these speak of are all runs of the machine |
| Progress.NoDeadlock | memory.c:257-314 | while any CPU is inside the allocator, some CPU inside it can take a step other than spinning |
| Progress.StepWorks | memory.c:228-341 | a step of a CPU inside the allocator spins and changes nothing, or leaves that CPU less to do |
| Progress.MovesBounded | memory.c:228-341 | over every interleaving, the steps other than spinning are bounded by what was to do and what the calls add |
| Progress.CanFinish | memory.c:228-341 | from every reachable state all calls under way can be run to their end |
| SoloRun.FreeAlone | memory.c:228-293 | the steps of page_add_to_slot, taken with no other CPU moving, leave the memory as the sequential function does |
| SoloRun.AllocAlone | memory.c:295-341 | the steps of page_alloc, taken alone, leave the memory as the sequential function does |
| SoloRun.AllocCallAlone | memory.c:295-341 | so does a call of page_alloc from the event that makes it on |
| SoloRun.FreeCallAlone | memory.c:228-293 | and a call of page_free |
| PageTables.PageMemory.EnterSlot | page32.c:58-62 | an empty slot gets the table and the flags, a slot in use keeps its table and gains the flags |
| PageTables.PageMemory.BuildPagetable | page32.c:47-89 | over any number of tables: exactly the directory words of the slots met and the table words of the range are written, with frames from phys on; a range up to the top of the address space maps nothing |
| PageTables.PageMemory.UnmapPagetable | page32.c:91-134 | with any subset of slots absent but the topmost, exactly the table words of the range in present tables are cleared; a range up to the top of the address space clears nothing |
| PageTables.TopSlotSkipWraps | page32.c:103-126 | the skip over an absent slot goes back to address 0, with the next directory word behind the directory, exactly in the topmost slot |
| PageTables.BuildTranslates | page32.c:47-89 | the translation of every page after a build: the new frames in the range, the old table word beside it, no change elsewhere |
| PageTables.BuildIsFlatUpdate | page32.c:47-89 | build_pagetable is the update of the flat map by the range |
| PageTables.BesideUnchangedIff | page32.c:58-62 | a page beside the range, in a slot that is met, is unchanged exactly when its table word is not present, or its slot was in use with the rights |
| PageTables.UnmapIsFlatDelete | page32.c:91-134 | unmap_pagetable is the deletion of exactly the pages cleared from the flat map |
| PageByPage.NextPageBuilt | page32.c:136-166 | one more call for one page carries a build over the range one page further |
| PageByPage.OnePageBuilds | page32.c:47-89 | a call for one page writes one directory word and one table word |
| KernelMap.KernelTables.MapKernel | page32.c:136-166 | the loop with its running PTE leaves what one build over the whole range with the kernel tables would; it refuses user mappings and addresses below the kernel half |
| KernelMap.KernelTables.UnmapKernel | page32.c:168-188 | the unmapping loop clears the range's pages in present tables, but for the topmost page of the address space |
| KernelMap.CoveredIsBytes | page32.c:144-145 | the pages of a call are exactly those that hold a byte of its range; an empty range that starts inside a page covers that page |
| KernelMap.MappedBytes | page32.c:136-166 | after the mapping call the page of every byte of the range, but for the topmost page of the address space, translates in the directory asked for to its frame, counted from that of phys, present and with the flags asked for; as far as users go, with the consent of the directory entry |
| KernelMap.UnmappedBytes | page32.c:168-188 | after the unmapping call the page of every such byte is absent in that directory |
| KernelMap.KernelMapTranslates | page32.c:136-166 | every page of the range gets its frame, except the topmost page of the address space |
| KernelMap.MapKeepsReady | page32.c:136-188 | after mapping, the kernel half still names the kernel tables, so that the range can be unmapped |
| KernelMap.HasLinearIff | page32.c:140-145 | the linear address of a frame is one that the mapping loop accepts and maps exactly when the frame lies below 2 GB less a page |
| KernelMap.MappedCanUnmap | page32.c:136-188 | and the topmost slot is in use if the range meets it, so no unmapping after a mapping runs past the directory |
| KernelMap.MapThenUnmap | page32.c:136-188 | mapping and unmapping a range leaves its pages absent, but for the topmost of the address space, which keeps its table word; every page of slots it does not meet is as it was |
| KernelMap.MapThenUnmapUnchangedIff | page32.c:136-188 | a kernel page outside the range, or the topmost page, is unchanged by the pair of calls exactly when its slot was not met or the mapping did not move it |
| LinearPages.LinearPages.PageAllocKmapLinear | memory.c:574-585 | fails exactly when page_alloc does; a block with linear addresses is returned at its address, mapped and cleared |
| LinearPages.LinearTranslates | memory.c:581-584 | every page of that block is reached through the master directory, with the flags present and writable and no others, and with every word clear |
| LazyDirectory.StepKeepsIff | setup32.c:116-127 | every byte copied at set-up and every directory or table write of any CPU keeps the directories coherent, except exactly when it enters, in the master, an empty slot that some CPU has half copied and whose remaining bytes are not all zero |
| LazyDirectory.RunCoherentIff | setup32.c:393 | a run is coherent throughout exactly when no event of it tears a copy |
| LazyDirectory.CopyEndsCoherentIff | setup32.c:393 | the directory a CPU ends its copy with is coherent exactly when the master entered no empty slot in the midst of that slot's copy |
| LazyDirectory.TornForGood | setup32.c:393 | from every state in which a CPU has not begun its copy, with any others set up, and for every slot the master has not entered, a run in which another CPU enters it and that ends with the CPU set up, the slot in use in the master, and out of reach on that CPU after any fault |
| LazyDirectory.RunKeepsSetUp | page32.c:136-166 | once its copy has ended coherent, a CPU's directory stays coherent over every run, torn copies of other CPUs or not, and keeps every kernel entry it has |
| LazyDirectory.BootedCoherent | setup32.c:393 | the state after mem_init is coherent, so every run without a tear is |
| LazyDirectory.ReachedDirectly | page32.c:50-62 | a page the master maps is reached with the same frame on a CPU whose own slot is in use, and with the same rights exactly when the two directory entries grant them alike |
| LazyDirectory.ReachedAfterFault | setup32.c:116-127 | on a CPU whose slot is empty, one fault in kernel code makes the page translate exactly as in the master |
| LazyDirectory.NeverAbsentAgain | setup32.c:123-127 | after that, over any run, every page of the slot that the master maps is reached without a fault |
| LazyDirectory.FixSparesUserSlots | memory.c:223 | a fault at a user page changes nothing |
| LazyDirectory.PageCallsAreSteps | page32.c:151-165 | one page of the kernel's mapping and unmapping loops is a pair of steps, and a step, of the machine |
| LazyDirectory.LocalMappingSeenIff | page32.c:148-160 | a page mapped through one CPU's own directory is reached on another exactly when that CPU's slot is in use |
| LazyDirectory.LocalMappingIsLocalIff | page32.c:148-160 | so such a mapping is local exactly when no other CPU that is set up has the slot in use |
| LazyDirectory.Directories.CopyMaster | util.h:18 | the byte loop makes the CPU's directory equal to the master's and writes nothing else |
| LazyDirectory.Directories.InitializeOthers | smp.c:76-87 | every other CPU's directory is the master's but for slot 0, which is the first kernel slot |
| LazyDirectory.Directories.Fix | setup32.c:116-127 | after a fault in kernel code every page of the slot that the master maps is reached with the master's frame; no other word changes, user pages never do, and the directory stays coherent |
| LazyDirectory.FirstCopiesRun | smp.c:76-87 | those first copies are a run of the machine, from any state in which no CPU but CPU 0 has begun its copy |
| LazyDirectory.FirstDirectory | smp.c:76-87 | they keep all directories coherent, with CPU 0 set up; on such a directory the lowest 4 MB translate like the first 4 MB of the kernel half, and the rest like the master |
| TableDemand.OrderIsCeilLog2 | memory.h:81-82 | NPAGES_TO_ORDER is the smallest order whose block holds that many frames |
| TableDemand.CheckExact | page32.c:201-210 | which page-aligned ranges pass the 32-bit range check |
| TableDemand.CheckCodes | page32.c:201-210 | which error code which request gets |
| TableDemand.StraddledMet | page32.c:253-259 | the slots that the mapping loop comes to are those in which a page of the range lies |
| UserSpace.PagesOfLeast | page32.c:207 | the length is rounded up to the least number of pages that holds it, and in the last page of the 32-bit numbers to none |
| UserSpace.PagesOfBytes | page32.c:207-281 | the pages of a request are those that hold a byte of it |
| TableDemand.TakesOwnFramesIff | page32.c:219-258 | every table taken lies in the block allocated for tables exactly when the range does not straddle, or the extra slot has a table, or the block has a frame to spare |
| TableDemand.StraddleShortfall | page32.c:219-258 | a two-page range for which a table is taken and none was allocated |
| UserSpace.UserSpace.GetTables | page32.c:218-247 | the retry loop ends with a block for exactly the tables missing then, or with everything given back |
| UserSpace.UserSpace.MapRange | page32.c:249-281 | the mapping loop leaves what one build over the range would, but for the linear mappings of the tables it reaches |
| UserSpace.UserSpace.AllocUserPage | page32.c:190-285 | the whole function: its error codes, and on success the blocks kept and the memory left; it ends out of reach exactly when a table it would take has no linear address |
| UserTheorems.ErrorChangesNothing | page32.c:212-244 | on ERR_NOMEM no translation has changed, every free list holds the blocks it held, and the request that failed, of the least order that holds the pages or the tables missing, had no free run of its size |
| UserTheorems.UserTranslates | page32.c:249-281 | on success page i of the request translates to frame i of the block; what happens to every other user page |
| UserTheorems.UserPageRights | page32.c:267-274 | flag by flag: the page is present and the user's, writable exactly when that was asked for, and each other flag is set exactly when it was asked for |
| UserTheorems.UserSlotRights | page32.c:267-274 | the directory entry of each slot of the range lets users in, lets them write exactly when that was asked for or it did before, and keeps its table and its other flags |
| UserTheorems.UserBytes | page32.c:190-285 | byte by byte of the request: its page has the frame that holds that byte of the block, present and the user's |
| UserTheorems.TakesExactly | page32.c:212-246 | the frames taken are exactly those of two blocks, for the pages and for the tables missing, of the orders of TableDemand.OrderIsCeilLog2 |
| UserTheorems.ReachableUnlessHighFree | page32.c:249-267 | a call ends out of reach only if some frame that is free when it begins has no linear address |
| UserTheorems.SecondFrameDecides | page32.c:212-267 | a one-page call at an empty slot, undisturbed, ends so when the second frame that page_alloc hands out has no linear address |
| UserTheorems.NewPageFrame | page32.c:212-214 | the frames mapped were free before the call and are allocated after it |
| UserTheorems.NewTableFrame | page32.c:238-257 | so were the tables, and none of them is a frame of the block for pages |
| UserTheorems.OtherCpuTranslates | page32.c:199-281 | no user page of another live CPU moves |
| UserRuns.OutcomeIsStep | page32.c:190-285 | the outcomes of the function, while nobody else fills its directory, are the calls of the runs below |
| UserRuns.StartExclusive | memory.c:210-221 | with no CPU live the frames are exclusive, whatever the directories hold |
| UserRuns.GoLiveKeepsExclusive | usermode.c:84-88 | a CPU going live with its user half zero keeps them so |
| UserRuns.SetUpGoesLive | usermode.c:84-88 | a CPU whose copy is coherent and which clears its user half can go live |
| UserRuns.DeedKeepsExclusiveIff | page32.c:190-285 | a call, an allocation or free by the kernel itself, a CPU going live, or a store that spares the live user halves and their tables keeps all mapped user pages and tables on frames of their own; a call does exactly when the tables it takes hold no present word beside its range |
| UserRuns.StaleWordMaps | page32.c:249-281 | a page beside the range, in a slot that was empty, is mapped by the call exactly when its word in the table taken is present |
| UserRuns.StaleWordShares | page32.c:249-281 | when that word names the frame of another user page, the two pages share it |
| UserRuns.RunExclusiveIff | page32.c:190-285 | over any run of such deeds the frames are exclusive throughout exactly when all calls take clean tables |
| UserRuns.UserFramesExclusive | page32.c:190-285 | then, of all user pages that the live CPUs' directories map, no two have one frame; the frame of each was mapped by a call, is allocated, on no free list, and no table |
| UserRuns.MappingLasts | page32.c:190-285 | what a call has mapped stays mapped to its frame through every deed until a later call maps that page again |
| UserRuns.UserStoresSpare | page32.c:190-285 | stores of user code into a page it has mapped are such stores, and reach no other user page |
| UserRuns.KernelStoresSpare | memory.c:574-585 | so are stores of the kernel into a block of its own |
| UserRuns.DirectoryStepsSpareIff | setup32.c:116-127 | so are the directory and table writes of kernel mappings on any CPU, the page-fault fix, and the first copies, set-up copies and clearing of directories that are not live, except exactly when a new word goes into a kernel table that some user slot uses |
| UserRuns.FirstCopiesAreDeed | smp.c:76-87 | smp.c's first copies as a whole are one, as long as no CPU but CPU 0 is live |
| UserRuns.DirectoryStepsAreDeedsIff | page32.c:136-188 | so with exclusive frames they are deeds of the runs, except exactly then |
| UserRuns.MappedSlotsSpare | page32.c:136-188 | and that never happens in slots that map managed frames |
| UserRuns.LinearPagesSpare | memory.c:574-585 | page_alloc_kmap_linear is an allocation by the kernel and such stores |
| UserInterleaved.EventKeepsIff | page32.c:190-285 | with calls under way on any CPUs, every step of the allocator, every single directory or table write and every store keeps the role of each allocated frame: in a CPU's hands, the table of one slot, or the frame of one page; so does a CPU going live; entering a table does exactly when no word of it is present |
| UserInterleaved.InterleavedIff | page32.c:190-285 | every state of an interleaved run is in order exactly when each table is clear at the moment it is entered |
| UserInterleaved.InterleavedExclusive | page32.c:190-285 | then, in every interleaving, the frame of a mapped user page is allocated, on no free list, no table, and the frame of no other user page |
| UserInterleaved.EventMaps | page32.c:249-281 | a step that enters no unclear table changes the frame of a user page only by putting it |
| UserInterleaved.FrameIsLastPut | page32.c:249-281 | so in every interleaving a user page has the frame it was last put at |
| UserInterleaved.InterleavedCallMaps | page32.c:249-281 | when the writes of a CPU over a run are those of one mapping loop, page i of the request has frame i of the block at its end, and every other page of the CPU the frame it had, whatever the others do |
| UserInterleaved.InterleavedErrorKeeps | page32.c:212-244 | a call that writes nothing changes no page of its CPU, whatever the others do |
| UserInterleaved.InterleavedStart | memory.c:210-221 | with no CPU live the machine is in order, whatever the directories hold |
| UserInterleaved.FirstCopiesAreStep | smp.c:76-87 | smp.c's first copies are a step as long as no CPU but CPU 0 is live |
| UserInterleaved.ClearingIsSteps | usermode.c:84-88 | a CPU whose copy is coherent clears its user half and goes live |
| UserInterleaved.UserPageIsSteps | page32.c:249-281 | one round of the mapping loop is a step that enters a table or adds flags, and one that writes a table word |
| UserInterleaved.OwnStoresAreSteps | memory.c:574-585 | stores into mapped pages, and into any frames that are no directory and no table, are steps |
| UserInterleaved.UserStoresAreSteps | page32.c:249-281 | stores of user code into a page it has mapped are steps |
| UserInterleaved.DirectoryStepsAreStepsIff | page32.c:136-188 | so are the writes of the kernel outside alloc_user_page, as for UserRuns.DirectoryStepsSpareIff, except exactly when they change a user table |
| UserInterleaved.IdleExclusive | page32.c:190-285 | whenever no CPU is inside the allocator, the interleaved state is one between whole calls, with exclusive frames |
| Startup.TableSetAside | memory.c:112-118 | the kernel table of every frame of the map that has a linear address lies below the end of the tables set aside |
| Startup.HighMapOutOfReach | page32.c:249-267 | an E820 map with which the first call for one page ends out of reach |
| Startup.DeviceTableManaged | memory.c:112-118 | with 64 MB of memory the kernel table of the local APIC's page is a managed frame |
| Startup.BootLaid | memory.c:112-221 | after mem_init no managed frame is a directory or a kernel table of a managed frame |
| Startup.BootExclusive | memory.c:112-221 | so runs of whole calls start with exclusive frames |
| Startup.BootInterleaved | memory.c:112-221 | and runs of interleaved steps start in order |
| Startup.BootToUserPages | page32.c:190-285 | from the E820 map on, in every interleaving, with all set-up of directories in it, in which tables are clear when entered, the frame of a mapped user page is one that no start-up rule excludes, above kernel data, and of no other user page |
| Digits.CanonicalUnique | util.c:45-62 | a numeral without a leading zero is the only one of its value |
| Format.ItoaRoundTrip | util.c:26-72 | parsing the output recovers every 32-bit value, signed or unsigned, at the minimum too |
| Format.ItoaForm | util.c:26-72 | the output is the only text of its form and value: in signed decimal a negative number is a minus sign and the numeral of its magnitude, which does not start with 0; all else is a numeral of the unsigned value, without a sign, that starts with 0 only if it is "0" |
| Format.LltoaJoins | util.c:96-115 | joining the dwords gives the one hexadecimal numeral of the 64-bit value |
| Format.LltoaFills | util.c:117-131 | with maxfill there are exactly 16 digits, of the same value |
| Format.PtrRoundTrip | util.c:134-157 | ptrtoa's output has exactly 8 digits that parse back to the address |
| Format.Itoa | util.c:26-72 | the digit loop and the in-place reversal write that text and its end mark, and nothing else |
| Format.PadLeft | util.c:103-115 | the overlapping shift and the filling write the padded numeral |
| Format.Lltoa | util.c:74-132 | the whole of _lltoa writes that text; in base 10 the 32-bit kernel writes nothing |
| Format.PtrToA | util.c:134-157 | ptrtoa writes that text |

## Left out

- Slab cache, bitmaps and `page_free_linear` (memory.c:343-572): unused on the kernel's start path; `page_free_linear` indexes by an address it does not shift into the linear range. Freeing is modelled on block heads.
- Ring buffer, keyboard, sprintf and printf, debug buffer, VGA, ACPI, interrupt controllers, timers, segment tables, boot and AP assembly: device work or single expressions; only the first directory of boot32.S enters, as the state after mem_init.
- The lock inside each kpage (memory.c:266-276): it is taken only under an order's lock; leaving it out allows more interleavings than the kernel has.
- Memory is sequentially consistent, and a page walk reads the current tables: no TLB, no CR3 loads, no store buffers, no interrupts inside a critical section.
- `free_pages_count` and the addresses of kpages are unbounded integers; `refcount` wraps at 32 bits.
- The pte that mem_init clears for each free frame (memory.c:217-218) and the mapping of kpages themselves (memory.c:129-134); maps over 4 GB, and maps that do not start in page 0.
- Lock and unlock calls of page32.c: `unmap_pagetable` changes `start` between locking and unlocking, and `alloc_user_page` unlocks twice on one path, so no lock balance is claimed. A directory or table word is written in one step, as one aligned 32-bit store is; the copy at set-up is not.
- PageTables.PageMemory.UnmapPagetable: does not cover ranges that meet the topmost slot while it is absent, where the loop leaves the directory (TopSlotSkipWraps).
- PageTables.PageMemory.BuildPagetable: does not cover ranges that wrap around, or tables given twice.
- KernelMap.KernelTables.MapKernel: does not cover byte ranges that wrap around the address space.
- UserSpace.UserSpace.AllocUserPage: does not cover length zero, where NPAGES_TO_ORDER is undefined, ranges that wrap around and pass the check, and ranges for which TakesOwnFramesIff fails. Where a table it would take has no linear address the model ends the call with the blocks in hand; the code goes on and writes through an address of the user half.
- LinearPages.LinearPages.PageAllocKmapLinear: ends in the same way at a block with a frame that has no linear address.
- UserRuns.UserFramesExclusive: takes whole calls one after the other, and none whose directory is filled from outside; UserInterleaved takes the steps of all calls in any order instead.
- UserInterleaved.EventKeepsIff: lets a step enter any table and put any page with frames that its CPU has; InterleavedCallMaps takes the writes of one call in their order, and does not say from which allocation their frames came.
- A live CPU is not set up again and its user half is not cleared again; no code of the kernel does either.
- Startup.BootLaid: takes from kernel32.ld and boot32.S that the tables of the boot code map all that they are to map, and that kernel data ends behind the tables mem_init adds; the size of kpages is a parameter.
- `load_usermode_text` and `page_getpfn`: they read through linear mappings that are no longer there.
