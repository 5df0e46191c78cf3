# A Dafny model of the kernel's memory and process core

The project models four subsystems of a small 32-bit kernel as one stack and proves what they keep over whole runs.

* **Frames and page tables.** The zone table and the byte-packed bitmap refine a set of used frames (`Bitmap.dfy`,
  `Frames.dfy`, `FrameAllocator.dfy`). The page tables live in physical memory, an array of 2^30 words, and every access
  to them goes through the self-map window: it is translated by an independent two-level walk and a translation cache
  (`Mmu.dfy`, `Tlb.dfy`, `PagingModel.dfy`, `DemandPaging.dfy`, `AddressSpace.dfy`). `Boot.dfy` runs the boot fill
  loops and `init_paging` and carries the result to runs of demand faults. The hardware rules are those of sections 4.3
  and 4.10 of the Intel SDM, Volume 3A.
* **Heap.** `CircularList.dfy` proves the intrusive list of `include/ds/list.h` on byte memory. `HeapModel.dfy` is the
  allocator on values, `HeapMemory.dfy` says how headers in memory encode it, and `KernelHeap.dfy` is `kmalloc` and
  `kfree` as stores into the array.
* **Scheduler and context switch.** `SchedulerModel.dfy` is the state machine of `process/process.c`, `ProcessTable.dfy`
  the same code on process records updated in place. `Fairness.dfy`, `Starvation.dfy`, `Accounting.dfy`,
  `Timeouts.dfy` and `Lifetime.dfy` are about whole runs of it. `ContextModel.dfy`, `ContextSwitch.dfy` and
  `ContextRuns.dfy` take `switchTo` push by push and show that one register file and many stacks behave like one context
  per process. `KernelStacks.dfy` places records and stacks in the heap, and `KernelRuns.dfy` joins the two: in its runs
  processes compute, allocate, free, switch, create processes and end on one memory that holds headers, records and
  stacks. `Scenarios.dfy` holds runs from boot that go wrong.
* **Formatted printing.** `Format.dfy` is the format language as a grammar with a writer and a reader, `Numeral.dfy` the
  digit loop, `Printf.dfy` the meaning of a format and the fall-through state machine that produces it, and
  `PrintfExamples.dfy` says what formats print that are put together piece by piece.

Code that changes state is a class or a method on arrays; each such method is tied to a function on values, and the
properties are lemmas about that function. Beside them are lemmas that say in numbers what one step reads and writes
(`SetupWords`, `MapWords`, `RefillGives`, `NumericText` and their like), so that no constant, field or order is known by
its name only.

## Where the code does not do what it seems to promise

Each of these is a contract below, with the exact condition under which the promise holds.

* A request whose size and header together wrap around 32 bits is granted a block that reaches beyond the break
  (`HeapModel.MallocTiles`, `HeapModel.WrapExample`). `kfree` of a block that is not live still decrements `used_blocks`
  (`HeapModel.FreeCounts`).
* `__map_page` does not refuse an address inside the window; there it installs the frame as a page table, and other
  translations stay exactly when that frame holds no present entry (`PagingModel.MapInWindow`,
  `PagingModel.MapInWindowExample`). The directory entry of a fresh table lacks `P_USER`, so a page mapped with `P_USER`
  under it is not accessible to user mode (`PagingModel.MapTranslates`). `__unmap_page` does not refuse such an address
  either: it drops a whole table and invalidates one page, which leaves the cache right exactly when it holds no page of
  that table (`AddressSpaces.UnmapInWindow`).
* The pages set aside for the bitmap are one too few when the number of frames exceeds a multiple of 32768 by one to
  seven (`Boot.BitmapFits`); the 32 MB that the source fixes are 8192 frames and never reach that case.
* Frame `0xfff` is counted in the DMA zone but never handed out, so the test's counters match only for a zone that is
  not empty, whose end page is unused, and that lies inside memory (`Frames.ExhaustedCounter`). A frame that is marked
  twice is counted twice (`Frames.BumpCounts`, `FrameAllocators.MarkedRight`).
* `page_fault` maps frame 0 when no frame is left and the page's entry is free: one fault keeps pages apart exactly when
  there is a frame or the entry is in use (`DemandPaging.FaultIsolates`), a run exactly when each of its faults does
  (`DemandPaging.FaultsIsolate`), and `DemandPaging.FrameZeroExample` is an input where it fails. A fault on a page whose
  entry is in use loses the frame it was granted (`DemandPaging.FaultLosesFrame`).
* `schedule` hangs exactly when it has to choose and every listed process sleeps on (`SchedulerModel.HangsWhen`); a
  process alone that sleeps gets there from boot (`Scenarios.SleeperHangs`). A ready process without ticks can be
  starved by process creation (`Starvation.Starves`, reached from boot in `Scenarios.SpentReached`), and otherwise waits
  for a time that grows with the number of processes created (`Starvation.RefillReaches`). `process_sleep(0)` sleeps for
  2^32 turns (`Timeouts.SleepsThrough`). With preemption disabled `process_sleep` returns at once to a process that is
  marked sleeping (`Timeouts.SleepReturns`), and `process_end` returns to the ended process (`Lifetime.EndIsFinal`).
* The topmost word of a new stack spills three bytes behind its block (`ContextModel.TopWordSpills`). They reach no
  other record or stack (`KernelStacks.HeapLayout`), but they overwrite the link of a header that begins there, unless it
  holds those bytes already (`KernelStacks.SetupKeepsChain`); three allocations and two releases lead from an empty heap
  to a state where `create_process` breaks the chain (`KernelStacks.BrokenReached`, `KernelStacks.ChainBreaks`). The
  other way round, a header that `kmalloc` writes right behind a stack, as on a fresh heap for the next block, overwrites
  the stack's topmost word (`KernelStacks.TopWordLost`); no saved frame is touched (`KernelRuns.WorkSpares`).
* `do_printf` reads past the end of a format that stops right after `%`, `%0` or `%-0` (`Printf.DoPrintf`,
  `Formats.OverrunsText`), prints `%n` as a hexadecimal number, and lets `%c` of 0 take a column it does not
  print (`Printf.CharacterLength`).

## Model

| member | source | states |
|---|---|---|
| Bitmaps.Bitmap.constructor | lib/ds/bitmap.c:13-22 | after initialisation the bitmap stands for the empty set of frames |
| Bitmaps.Bitmap.BitSet | lib/ds/bitmap.c:24-37 | exactly one element joins the set; out of range nothing changes |
| Bitmaps.Bitmap.BitClear | lib/ds/bitmap.c:39-52 | exactly one element leaves the set |
| Bitmaps.Bitmap.BitGet | lib/ds/bitmap.c:54-65 | membership in the set, for numbers below the limit |
| Bitmaps.IsSetSays | lib/ds/bitmap.c:30-64 | frame n is bit n % 8, counted from the lowest, of byte n / 8 |
| Bitmaps.ByteUpdate | lib/ds/bitmap.c:34-49 | storing one byte with one bit changed changes that bit of the whole map and no other |
| Frames.ChosenComplete | cpu/page.c:255-305 | NULL exactly when no page is asked for, no zone matches, or the first matching zone has no free run that long |
| Frames.ChosenLeftmost | cpu/page.c:255-312 | a request that is served gets the leftmost run of clear frames of the first matching zone, inside the zone and inside memory |
| Frames.ZoneRequested | cpu/page.c:50-78 | the flags 1, 2 and 4 ask, in this order, for the frames below 0xfff, from 0x1000 up to 0x36fff or the end of memory, and from 0x37000 on |
| Frames.FindRun | cpu/page.c:287-299 | the leftmost run of free frames inside the half-open bounds, or the proof that there is none |
| Frames.BumpCounts | cpu/page.c:182-196 | marking a frame and moving its zone's counter keeps every counter right if and only if the frame was clear |
| Frames.ExhaustedCounter | testing/test_alloc_pages.c:13-24 | after exhaustion the zone counter equals end minus base if and only if the zone is not empty, its end page is unused, and it lies inside memory (or is one page wide) |
| Frames.ExhaustedAfterHistory | testing/test_alloc_pages.c:26-38 | the same after every history of earlier allocations of any size from any zone |
| Frames.EndNeverGranted | cpu/page.c:288-288 | the end page of a zone is never handed out by any request |
| Frames.ExhaustedStays | cpu/page.c:255-305 | an exhausted zone stays exhausted, because frames are never given back |
| FrameAllocators.FrameAllocator.constructor | cpu/page.c:37-81 | the zone table partitions memory and every counter starts right |
| FrameAllocators.FrameAllocator.GetZone | cpu/page.c:167-177 | the flag of the one zone that holds the frame; the panic is unreachable |
| FrameAllocators.MarkedRight | cpu/page.c:195-195 | after a run is marked the free counter is right if and only if the run was free |
| FrameAllocators.FrameAllocator.MarkPagesUsed | cpu/page.c:182-196 | the run joins the used set, free counter plus used set stay the total, each zone counts its own frames |
| FrameAllocators.FrameAllocator.Reserve | cpu/page.c:140-150 | the three boot reservations are disjoint and leave exactly the first frames used |
| FrameAllocators.FrameAllocator.Scan | cpu/page.c:287-305 | one pass with a running count finds the leftmost run, or there is none |
| FrameAllocators.FrameAllocator.AllocPages | cpu/page.c:255-312 | marks exactly the chosen run and returns its address; 0 means none, unambiguously once frame 0 is reserved |
| FrameAllocators.FrameAllocator.Exhaust | testing/test_alloc_pages.c:13-24 | the loop terminates, counts its calls, and ends with the counters matching under exactly that condition, whatever was used before |
| Mmu.WindowReaches | include/page.h:4-10 | through the window, word GET_PE(d,t) is entry t of table d, and for d = 1023 the directory's entry t |
| Mmu.WindowPage | include/page.h:8-10 | the page that is zeroed and invalidated is the window page of the new table |
| Mmu.SetPteWalk | cpu/page.c:215-224 | writing a table entry changes the walk of its page and of no other page |
| Mmu.NewTableWalk | cpu/page.c:328-344 | a fresh zeroed table changes no walk but that of its own window page |
| Tlb.SetPteCoherent | cpu/page.c:352-355 | after the store and the invalidation every cached translation agrees with the walk |
| Tlb.SetPdeCoherent | cpu/page.c:335-340 | filling an empty directory slot leaves every cached translation right |
| PagingModel.MapViaTable | cpu/page.c:317-358 | creating the table first and checking the entry afterwards gives the same result as the whole operation on values |
| PagingModel.MapTranslates | cpu/page.c:317-358 | a mapped page did not translate before and translates to its frame now; every other page outside the new table's window slot is unchanged |
| PagingModel.MapWords | cpu/page.c:317-358 | of all words of memory it writes the page's entry, frame address plus 7, and for a fresh table zeros and the directory entry, table address plus 3; the used set grows by that table only |
| PagingModel.UnmapWords | cpu/page.c:363-381 | unmapping writes one zero word, the page's entry, and nothing at all for address 0 |
| PagingModel.GrantLowest | cpu/page.c:255-312 | the frame for a table or a faulting page is the lowest unused one from 0x1000 on, below 0x36fff and the end of memory; there is none exactly when all are used |
| PagingModel.FirstGrant | cpu/page.c:45-58 | with the 32 MB the source fixes, the first one after boot lies at 16 MB |
| PagingModel.MapRefused | cpu/page.c:321-350 | a call is refused exactly for an address that is not aligned or an entry in use, and panics exactly for a missing table with no frame left |
| PagingModel.MapRefuses | cpu/page.c:321-350 | a page that translates is refused, and then no walk and no used frame changes; where only present entries were ever stored, an aligned call is refused for no other reason; the machine stops only for a page that does not translate, with no frame left |
| PagingModel.MapKeepsClean | cpu/page.c:337-353 | mapping stores only present entries |
| PagingModel.UnmapKeepsClean | cpu/page.c:370-373 | so does unmapping |
| PagingModel.MapInWindow | cpu/page.c:317-358 | for an address in the window: other translations are unchanged if and only if the frame held no present entry before the call |
| PagingModel.MapInWindowExample | cpu/page.c:317-358 | a mapping in the window after which a page translates that nobody mapped |
| PagingModel.UnmapWalk | cpu/page.c:363-381 | the page no longer translates and no other walk changes, whatever the entry was |
| PagingModel.MapUnmapRestores | cpu/page.c:317-381 | map and then unmap restores every walk outside the window |
| DemandPaging.FaultIsolates | cpu/handler.c:53-68 | one demand fault that does not halt keeps pages on frames of their own, none used before and none holding a table, if and only if a frame is left or the entry is in use |
| DemandPaging.FaultTranslates | cpu/handler.c:53-68 | where a fault maps a page, it is the page of the faulting address, which did not translate, and it gets the granted frame, or frame 0 when there is none |
| DemandPaging.FaultsIsolate | cpu/handler.c:53-68 | a run of faults keeps that if and only if each of its faults finds a frame or an entry in use |
| DemandPaging.ZeroStays | cpu/handler.c:61-66 | the page that an unsupplied fault maps to frame 0 keeps it to the end of the run |
| DemandPaging.FrameZeroExample | cpu/handler.c:61-66 | with 32 MB and every frame handed out, a fault on a free entry maps frame 0 |
| DemandPaging.FaultLosesFrame | cpu/handler.c:61-66 | where the page's slot has a table, a granted frame is lost if and only if the entry is in use |
| DemandPaging.FrameLeft | cpu/handler.c:61-61 | a frame left at the end means every fault found one |
| AddressSpaces.AddressSpace.ReadEntry | cpu/page.c:201-237 | the value read through the window is the table entry, and the cache stays coherent |
| AddressSpaces.AddressSpace.SetPageTableEntry | cpu/page.c:215-224 | the store through the window changes exactly the entry of that page |
| AddressSpaces.AddressSpace.SetPageDirectoryEntry | cpu/page.c:242-250 | the store through the window changes exactly the directory entry |
| AddressSpaces.AddressSpace.ZeroTable | cpu/page.c:342-343 | clears exactly the frame of the new table, through the window |
| AddressSpaces.AddressSpace.MapPage | cpu/page.c:317-358 | does in memory what the operation on values does, and leaves tables, cache and allocator consistent |
| AddressSpaces.AddressSpace.UnmapPage | cpu/page.c:363-381 | likewise for unmapping |
| AddressSpaces.AddressSpace.PageFault | cpu/handler.c:53-68 | likewise for a demand fault |
| AddressSpaces.AddressSpace.Invlpg | include/page.h:69-72 | drops the page from the cache and nothing else |
| AddressSpaces.UnmapInWindow | cpu/page.c:363-381 | for an address in the window: the cache stays right if and only if it holds no page of the table that is dropped |
| Boot.FillTables | start.asm:60-98 | the fill loops and the directory stores build the boot tables |
| Boot.BootWords | start.asm:60-98 | every word of the directory and the two tables, in numbers |
| Boot.BootWalk | start.asm:60-98 | outside the window they translate the low 4 MB to themselves, the kernel's 4 MB from 1 MB on, and nothing else |
| Boot.BootTablesGood | start.asm:60-98 | they satisfy the page-table invariant, self entry included |
| Boot.BootClean | start.asm:60-98 | and hold only present entries |
| Boot.BitmapFits | cpu/page.c:121-133 | the bitmap gets the fewest pages that hold a byte for eight frames, rounded down, and fits them exactly unless the frame count exceeds a multiple of 32768 by one to seven |
| Boot.KernelBounds | cpu/page.c:135-138 | the kernel's physical bounds are read from its own page-table entries |
| Boot.InitPageAllocator | cpu/page.c:109-154 | exactly the first megabyte, the kernel and the bitmap are used |
| Boot.CleanUp | cpu/page.c:96-103 | afterwards the kernel's table maps exactly kernel and bitmap |
| Boot.InitialLeafSays | cpu/page.c:96-103 | what is left mapped, in page numbers: the first 1024, and from 0xC0000 on as many as are kept, to frame 0x100 on |
| Boot.InitPaging | cpu/page.c:31-103 | establishes all invariants and the initial mapping from the boot tables and whatever the processor has cached of them |
| Boot.DemandPagesIsolated | cpu/handler.c:53-68 | from boot on, in a supplied run every faulted page has a frame of its own, outside kernel, bitmap, tables and boot mappings; in any other run some page ends on frame 0; and no earlier translation changes in either |
| CircularList.InsertCycle | include/ds/list.h:33-41 | relinking two neighbours inserts a node into the cycle |
| CircularList.AddInserts | include/ds/list.h:33-41 | the four stores insert the entry and keep next and prev inverse to each other |
| CircularList.DelRemoves | include/ds/list.h:76-81 | the two stores remove the node from the cycle |
| CircularList.SpliceInserts | include/ds/list.h:117-131 | the four stores put the nodes of one list behind the head of the other, in order |
| CircularList.InitListHead | include/ds/list.h:23-25 | the head alone is a cycle |
| CircularList.ListAdd | include/ds/list.h:51-54 | prepends to the sequence of nodes |
| CircularList.ListAddTail | include/ds/list.h:64-67 | appends to the sequence of nodes |
| CircularList.ListDel | include/ds/list.h:88-91 | removes the node from the sequence |
| CircularList.ListEmpty | include/ds/list.h:107-110 | true exactly for the empty sequence |
| CircularList.ListSplice | include/ds/list.h:117-131 | inserts a whole sequence after the head and writes only four link structures; nothing for an empty list |
| CircularList.RingWords | include/ds/list.h:14-16 | in memory a node is the address of its successor, and four bytes on that of its predecessor |
| CircularList.ListWalk | include/ds/list.h:147-167 | terminates and visits every node once, forwards in order and backwards in reverse |
| HeapModel.MallocTiles | mm/heap.c:56-143 | the blocks still tile the heap if and only if the sizes do not wrap around 32 bits |
| HeapModel.SplitTiles | mm/heap.c:100-126 | cutting a block leaves no gap and no overlap |
| HeapModel.MallocGrants | mm/heap.c:56-143 | the caller gets at least the bytes asked for, below the limit, overlapping no block in use |
| HeapModel.MallocReuses | mm/heap.c:69-126 | the first free block of the chain that is large enough is handed out, whole when less than 28 bytes are left over and else cut in two with the lower part handed out; the break stays |
| HeapModel.MallocGrows | mm/heap.c:66-98 | otherwise the break moves by the request and 20 bytes, panicking from 0xFFBFC000 on, and the new block comes first; 0 bytes get NULL |
| HeapModel.HeapBelowWindow | cpu/page.c:87-91 | no byte of the heap lies in the page-table window or the four pages below it |
| HeapModel.MallocKeeps | mm/heap.c:56-143 | blocks in use are untouched and no block start disappears |
| HeapModel.MallocCounts | mm/heap.c:132-133 | one more block is in use |
| HeapModel.FreeClears | mm/heap.c:145-160 | exactly the block 20 bytes in front of the pointer becomes free |
| HeapModel.FreeKeeps | mm/heap.c:145-160 | every other block in use and every block start stays |
| HeapModel.FreeCounts | mm/heap.c:145-160 | the decremented counter is right if and only if the block was live |
| HeapModel.WrapExample | mm/heap.c:82-84 | a request that wraps is granted and breaks the tiling |
| HeapModel.RunTiles | mm/heap.c:56-160 | after any run of calls the blocks tile the heap, starts persist, and a live block that is not freed is still there |
| HeapMemory.HeaderWords | include/heap.h:13-18 | the five fields of a block's header, byte by byte: links to its neighbours in the chain, 0xBEEF, the size, the state |
| HeapMemory.ConfinedSparesPayload | mm/heap.c:56-160 | the allocator writes no byte of a live payload |
| HeapMemory.PayloadWritesKeepChain | mm/heap.c:56-160 | writes inside payloads leave chain and headers intact |
| HeapMemory.EncodesPush | mm/heap.c:95-96 | linking a header in front extends the encoded chain by it |
| HeapMemory.CutFrames | mm/heap.c:104-122 | the stores of a cut change one header, add one, and leave all others |
| KernelHeaps.KernelHeap.constructor | mm/heap.c:14-27 | an empty chain over an empty heap |
| KernelHeaps.KernelHeap.Ksbrk | mm/heap.c:29-54 | the break moves by the request, or the machine stops exactly at the limit |
| KernelHeaps.KernelHeap.Search | mm/heap.c:70-78 | the first block of the chain that fits, or none; its magic is read and compared, and the panic branch is not taken |
| KernelHeaps.KernelHeap.KMalloc | mm/heap.c:56-143 | the outcome and the new chain are those of the model, so it stops at the limit of the break only and never for a magic; only headers are written; counters match the chain |
| KernelHeaps.FreedBytes | mm/heap.c:152-156 | the magic is looked for 12 bytes in front of the pointer, and the byte 4 bytes in front of it is cleared |
| KernelHeaps.KernelHeap.KFree | mm/heap.c:145-160 | for any address: it stops exactly when no magic lies in front of it and then changes nothing, else clears one state byte; for a block of the chain the magic is there, the block becomes free, and all stays valid if it was live |
| SchedulerModel.StepInv | process/process.c:353-393 | after every event at most one listed process runs, and it is the current one; the rest of the invariant holds too |
| SchedulerModel.OneRunning | process/process.c:353-393 | the same over every run since boot |
| SchedulerModel.SelectTerminates | process/process.c:280-306 | choosing terminates exactly when a listed process is ready, then within two walks, however often it would refill |
| SchedulerModel.SelectsFirst | process/process.c:280-306 | the first ready process with ticks, or after a refill the first ready one |
| SchedulerModel.HangsWhen | process/process.c:353-393 | schedule never returns if and only if it must choose and every listed process sleeps on |
| SchedulerModel.GuardsReturn | process/process.c:359-363 | schedule does nothing while preemption is disabled or no process was created |
| SchedulerModel.TimeoutSays | process/process.c:308-325 | a round takes 1 off the timeout of each listed sleeper, modulo 2^32, and wakes it at 1; nothing else changes |
| SchedulerModel.KeepsRunning | process/process.c:367-372 | a current process with ticks stays and is charged one tick |
| SchedulerModel.YieldSays | process/process.c:374-377 | otherwise the current process turns from running to ready, and nobody else changes |
| SchedulerModel.RefillGives | process/process.c:298-302 | a refill happens exactly when no listed process is ready with ticks, and gives every listed process 100 ticks, the sleeping ones too |
| SchedulerModel.ChosenRuns | process/process.c:374-392 | and the process that is selected is switched to |
| SchedulerModel.SwitchSays | process/process.c:384-392 | it is marked running, charged one tick and made current, and nobody else changes |
| SchedulerModel.EventsSay | process/process.c:51-182 | what creating, ending, expiring, sleeping and the two preemption calls write, field by field, and which of them call schedule |
| SchedulerModel.NothingRuns | process/process.c:37-66 | from boot, nothing runs until preemption is enabled |
| SchedulerModel.RunAppend | process/process.c:353-393 | runs compose event by event, and so do the turns they contain |
| Fairness.StepWait | process/process.c:353-393 | while a ready process with ticks waits, no event of the others raises its wait and each turn lowers it |
| Fairness.BoundedWaiting | process/process.c:280-393 | it becomes current before schedule has run more often than its wait, whatever happens in between |
| Fairness.WaitBound | process/process.c:79-133 | the wait is at most 100 for each listed process |
| Fairness.AheadPicked | process/process.c:286-296 | making a process ahead current takes exactly its ticks out of the sum |
| Starvation.Starves | process/process.c:79-133 | without ticks no number of turns is enough while processes are created |
| Starvation.RefillReaches | process/process.c:298-302 | every ready process runs within the remaining ticks, a quota for each listed process, and two quotas for each process created meanwhile |
| Accounting.StepCharge | process/process.c:345-393 | every turn charges exactly one tick, to the process current afterwards; other events charge none |
| Accounting.TurnAddsOne | process/process.c:345-351 | the sum of the tick totals grows by exactly one, save where a counter wraps |
| Accounting.TimeCounts | process/process.c:345-351 | over a run a process's total counts the turns that charged it, modulo 2^32 |
| Accounting.QuotaHolds | process/process.c:395-404 | between refills no process is charged more than the ticks it had, at most 100, and one created meanwhile no more than its quota |
| Accounting.TurnsAreCharged | process/process.c:345-393 | the turns of a run are exactly the turns charged to all processes together |
| Timeouts.StepAsleep | process/process.c:308-325 | one turn brings a sleeper one closer or, the last one, wakes it; nothing else touches it |
| Timeouts.SleepReturns | process/process.c:327-356 | the caller is still current and marked sleeping after process_sleep if and only if preemption is disabled |
| Timeouts.StepDrowsy | process/process.c:308-325 | until then no event but a further sleep or its end takes its timeout back, and the first turn takes it off the processor |
| Timeouts.SleepsThrough | process/process.c:327-343 | after process_sleep(n) it sleeps for fewer than n turns, and from the first of them on is not selected, whether preemption was enabled or not |
| Timeouts.WakesOnTime | process/process.c:308-343 | and exactly the n-th turn wakes it |
| Scenarios.SleeperHangs | process/process.c:353-393 | from boot, a process alone that calls process_sleep(n) hangs the scheduler if and only if n is not 1 |
| Scenarios.SpentReached | process/process.c:280-306 | from boot, a process gets ready without ticks, and can then be kept waiting for any number of turns |
| Lifetime.CreatedRuns | process/process.c:79-133 | a new process runs within a quota for each listed process, whatever happens in between |
| Lifetime.EndIsFinal | process/process.c:146-159 | ending takes the current process out of the list, and away from the processor if and only if preemption is enabled |
| Lifetime.EndedStays | process/process.c:146-159 | an ended process is never selected again, in any run |
| ProcessTable.VisitedAt | process/process.c:308-325 | a walk that changes every visited record changes each listed process once and no other |
| ProcessTable.Scheduler.constructor | process/process.c:37-49 | the empty table |
| ProcessTable.Scheduler.EnableKernelPreempt | process/process.c:55-58 | sets the guard of schedule and nothing else |
| ProcessTable.Scheduler.DisableKernelPreempt | process/process.c:63-66 | clears the guard of schedule and nothing else |
| ProcessTable.Scheduler.CreateProcess | process/process.c:79-133 | appends one new ready process with a full quota, numbered next |
| ProcessTable.Scheduler.ProcessEnd | process/process.c:146-159 | unlists the current process and reschedules, as one step of the model |
| ProcessTable.Scheduler.Expire | process/process.c:164-182 | gives up the remaining ticks and reschedules, as one step of the model |
| ProcessTable.Scheduler.ProcessSleep | process/process.c:327-343 | falls asleep and reschedules, as one step of the model |
| ProcessTable.Scheduler.WalkList | process/process.c:285-296 | the first eligible listed process, or none |
| ProcessTable.Scheduler.SelectNextProcess | process/process.c:280-306 | the goto loop terminates and chooses as the model does |
| ProcessTable.Scheduler.UpdateTimeouts | process/process.c:308-325 | one round of timeouts for every listed process |
| ProcessTable.Scheduler.AccountTicks | process/process.c:345-351 | charges one process and leaves all others |
| ProcessTable.Scheduler.GiveTicks | process/process.c:395-404 | refills every listed process and no other |
| ProcessTable.Scheduler.Schedule | process/process.c:353-393 | one step of the model, both guards and the early return included |
| ContextModel.PushAllReads | process/switchto.asm:11-24 | every pushed word is found where a pop will look for it |
| ContextModel.FrameRestores | process/switchto.asm:11-64 | what was pushed is what popad, the pops and iret restore, stack pointer included |
| ContextModel.SavedFrame | process/switchto.asm:4-32 | after the save the suspended process's frame encodes its context as if the call had just returned |
| ContextModel.SavedSpares | process/switchto.asm:11-33 | saving disturbs no other process's frame or record |
| ContextModel.SetupFrame | process/process.c:187-257 | the first switch to a new process enters it with code segment 0x10, data segments 0x08 and flags 0x202 |
| ContextModel.SetupWords | process/process.c:187-257 | its record holds the stack pointer and 0x08, and the first iret pops the entry point, 0x10 and 0x202; every register in numbers |
| ContextModel.SavedWords | process/switchto.asm:4-33 | the fifteen saved words in the order of the pushes, and the record's stack pointer |
| ContextModel.LoadedWords | process/switchto.asm:27-64 | every register is loaded from the new stack, in the order of the pops |
| ContextModel.ReturnedSays | process/switchto.asm:4-9 | as if the call had returned: the return address in eip and eax, the stack pointer at the argument, the rest as it was |
| ContextModel.TopWordSpills | process/process.c:110-111 | three bytes of the record's address land behind the stack block |
| KernelStacks.HeapLayout | process/process.c:79-133 | records and stacks in blocks of their own lie apart, the three spilled bytes included |
| KernelStacks.CreateAllots | process/process.c:85-111 | the two allocations of create_process give a new process such a place, next to all others |
| KernelStacks.SpawnAllowed | process/process.c:79-133 | so wherever a run of switches is, the next process can be set up without disturbing it, in blocks of ended ones too |
| KernelStacks.SetupKeepsChain | process/process.c:187-257 | the heap's chain survives setting up a stack if and only if no header begins right behind it or it holds the spilled bytes already |
| KernelStacks.BrokenReached | mm/heap.c:56-160 | from an empty heap, seven calls reach a stack block with the record's header right behind it |
| KernelStacks.ChainBreaks | process/process.c:187-257 | there setting up the process breaks the chain, in every memory that encodes it |
| KernelStacks.TopWordLost | mm/heap.c:100-140 | with a header right behind the stack, the word on top of the stack is the record's address if and only if its first byte is and the header's link begins with the other three |
| ContextRuns.StepRefines | process/switchto.asm:4-64 | work, switches, new and ended processes keep one saved context per suspended process |
| ContextRuns.RunRefines | process/switchto.asm:4-64 | for every interleaving the machine is the program with one context per process |
| ContextRuns.Resumes | process/switchto.asm:4-64 | a suspended process that does not end resumes with every register but eax as at its call, whatever the others did |
| ContextRuns.FirstSwitch | process/switchto.asm:27-33 | with no current process nothing is saved, and the chosen one starts in its own context |
| KernelRuns.WorkSpares | mm/heap.c:56-160 | neither what the current process computes nor what kmalloc and kfree write for it disturbs a suspended process |
| KernelRuns.SwitchKeepsChain | process/switchto.asm:4-64 | a switch writes inside the payloads of the process it leaves, so the heap's chain stays |
| KernelRuns.EndMoves | process/process.c:146-182 | process_end is work, a switch that saves into the freed record, and the end of its place |
| KernelRuns.DoSound | process/process.c:79-182 | after computing, kmalloc, kfree, a switch, a new process or an end: records and stacks have used blocks of their own, the blocks tile the heap, memory encodes the chain, and every other process is suspended with a frame |
| KernelRuns.KernelRefines | process/switchto.asm:4-64 | so in every run of these acts on one memory the kernel is the program with one context per process, and the heap stays whole |
| KernelRuns.KernelResumes | process/switchto.asm:4-64 | a process that yields runs on as if its call had returned, however the others used the heap, created processes and ended |
| KernelRuns.FirstSound | process/switchto.asm:27-33 | the first switch, from a boot stack below the heap, starts such a run |
| KernelRuns.FreePossible | mm/heap.c:145-160 | the one store of kfree, for a live block of no process, is an act of such a run |
| ContextSwitches.Cpu.Pushad | process/switchto.asm:24-24 | stores the eight general registers in order |
| ContextSwitches.Cpu.Suspend | process/switchto.asm:4-24 | the pushes build the frame |
| ContextSwitches.Cpu.Resume | process/switchto.asm:52-64 | the pops load the frame |
| ContextSwitches.Cpu.SwitchTo | process/switchto.asm:4-64 | instruction by instruction, the switch of the model |
| ContextSwitches.SetupKernelProcess | process/process.c:187-257 | the sixteen stores build the first stack of the model |
| Formats.TextRenders | lib/stdio/doprintf.c:70-150 | reading any string and writing the result gives the string, and the result is well formed |
| Formats.TextReads | lib/stdio/doprintf.c:70-150 | writing any well-formed format and reading it gives the format |
| Formats.OneReading | lib/stdio/doprintf.c:70-150 | so a string has exactly one reading |
| Formats.OneCharacter | lib/stdio/doprintf.c:86-144 | what each character between % and d is taken for: percent sign, flag, width, one of the modifiers F, N, l and h, or conversion |
| Formats.OverrunsText | lib/stdio/doprintf.c:80-111 | the scan runs past the end exactly when the last specification stops after %, %0 or %-0 |
| Numerals.NumeralReads | lib/stdio/doprintf.c:199-213 | the digits read back as the number, without leading zero |
| Numerals.ReadingSays | lib/stdio/doprintf.c:204-210 | what the digits 0-9, A-F and a-f are worth |
| Numerals.NumeralLooks | lib/stdio/doprintf.c:204-210 | a number is written with 0-9, and above nine with letters of the case asked for |
| Numerals.NumeralFits | lib/stdio/doprintf.c:58-60 | a 32-bit value has at most eleven digits in radix 8, 10 or 16 |
| Numerals.WriteDigits | lib/stdio/doprintf.c:196-213 | the loop leaves exactly the digits and their NUL in the buffer, and never writes below its start |
| Printf.NumberLength | lib/stdio/doprintf.c:228-275 | a numeric conversion prints exactly its width or what sign and digits need, whichever is more |
| Printf.CharacterLength | lib/stdio/doprintf.c:216-223 | a character conversion prints its width or one column, less one for a character 0 |
| Printf.NumberShape | lib/stdio/doprintf.c:228-275 | spaces go around sign and digits, zeros between them without changing the number read |
| Printf.NumericText | lib/stdio/doprintf.c:145-278 | X, x, p and n print in radix 16, d, i and u in 10, o in 8; d and i take the word as signed, h its lower half; sign, digits and padding for every flag and width |
| Printf.PlainNumber | lib/stdio/doprintf.c:145-213 | without flags and width the text reads back as the word, and under d and i from 2^31 on as its magnitude behind a dash; only X prints capitals |
| Printf.StringText | lib/stdio/doprintf.c:216-238 | s prints its string and c its lowest byte, padded with spaces only |
| Printf.OtherText | lib/stdio/doprintf.c:74-111 | text prints itself, a percent sign one, and an unknown conversion nothing |
| Printf.ArgumentsTaken | lib/stdio/doprintf.c:145-238 | each of the ten conversions takes one argument, and the next one that does gets the next |
| Printf.NumberReads | lib/stdio/doprintf.c:169-213 | its digits read back as the magnitude of the argument, the least signed value included |
| Printf.LoadedNumber | lib/stdio/doprintf.c:169-196 | the loads and the wrapping negation hand the digit loop the magnitude |
| Printf.Printer.EmitPadded | lib/stdio/doprintf.c:243-275 | padding, sign and text in the order the flags ask for |
| Printf.Printer.Convert | lib/stdio/doprintf.c:145-278 | each conversion prints the meaning of its specification, and unknown ones nothing |
| Printf.Scanner.StateText | lib/stdio/doprintf.c:74-85 | state 0 prints a text character or begins a specification |
| Printf.Scanner.StateFlags | lib/stdio/doprintf.c:86-111 | state 1 prints %%, drops %--, or records a flag and falls through |
| Printf.Scanner.StateWidth | lib/stdio/doprintf.c:112-122 | state 2 takes a digit of the width, wrapping at 32 bits, or falls through |
| Printf.Scanner.StateMods | lib/stdio/doprintf.c:123-144 | state 3 takes a modifier or falls through |
| Printf.Scanner.StateConversion | lib/stdio/doprintf.c:145-282 | state 4 prints the specification's meaning and resets; at the end of the string it overruns exactly as the reading says |
| PrintfExamples.PrintsItem | lib/stdio/doprintf.c:62-285 | a whole format followed by an item prints what it printed, and then the item with the next argument |
| PrintfExamples.Score | lib/stdio/doprintf.c:354-354 | prints "4 score and -7 years ago..." |
| PrintfExamples.Octal | lib/stdio/doprintf.c:357-357 | prints "-1L == 0xFFFFFFFF == octal 37777777777" |
| PrintfExamples.Justified | lib/stdio/doprintf.c:360-360 | prints the left and right justified strings, with zero flags that are ignored |
| Printf.DoPrintf | lib/stdio/doprintf.c:62-285 | for every format and all arguments prints the meaning of its one reading, counts what it prints, and overruns exactly where the reading says |

## Left out

- Page tables and heap are not joined: heap memory is one flat byte array, and that its pages are mapped on demand is not part of the model.
- The bitmap's bytes are an array of their own, not the pages behind the kernel in physical memory.
- The accessed and dirty bits, which the processor sets in the entries it uses, are not modelled.
- The translation cache is filled on access only; speculative fills, caches of directory entries, 4 MB pages and global pages are not modelled.
- `memset` over a table is modelled as word stores; `memset` over process records, stacks and static structures is left out.
- The kernel's image is assumed page aligned and below 4 MB, as the source assumes.
- FrameAllocators.FrameAllocator.MarkPagesUsed: requires the frames to be free, which holds at every call site; BumpCounts and MarkedRight say that the counters are wrong otherwise.
- FrameAllocators.FrameAllocator.Exhaust: end and base are subtracted as unbounded numbers, so for a zone that begins beyond its end the difference is negative instead of wrapping; it matches no counter either way.
- AddressSpaces.AddressSpace.MapPage: requires an address outside the window, because the source uses the window itself; MapInWindow says what happens inside it.
- AddressSpaces.AddressSpace.PageFault: requires an address outside the window, as MapPage does.
- AddressSpaces.AddressSpace.UnmapPage: requires the directory entry to be present, because the source reads the table through the window first, and an address outside the window; UnmapInWindow says what happens inside it.
- KernelHeaps.KernelHeap.KFree: addresses 1 to 19, from which subtracting the header wraps around, are excluded; for an address that is no block of the chain only the magic check and the bytes written are described.
- The store through the null `sb` of `kmalloc` is modelled as a store to address 16; that nothing else lives there is assumed.
- `map_temp` returns no value and changes no state; `dump_stats`, `dump_heap_stats` and `ps` only print.
- The counters `total_blocks`, `used_blocks`, `usedpages`, `count` and `pidcnt` are unbounded numbers; `tt`, `timeout` and the sizes of the heap wrap as in the source.
- `k_proclist.list` is a sequence of records in `ProcessTable`; that the intrusive list behaves like a sequence is proved in `CircularList`, but the two are not joined.
- ProcessTable.Scheduler.Schedule: the read through a null current process at the first call is modelled as guarded, and a call that never returns is excluded, with its exact condition in HangsWhen.
- ProcessTable.Scheduler.CreateProcess: name, argument, parent and the allocations are left out; a failed allocation stops the machine.
- ProcessTable.Scheduler.ProcessEnd: the record is used after it is freed; the model keeps it, and claims nothing of the freed memory.
- `process_sleep`, `process_end` and `create_process` are atomic with respect to the timer interrupt; the port writes around scheduling are left out.
- `process_t.state` and `ticks` are fields of a record here and not bytes of the memory that `switchTo` works on; segment selectors and flags are whole words.
- KernelRuns.KernelRefines: a new process is set up only where that leaves the heap's chain whole (SetupKeepsChain has the exact condition), programs write no header and no saved frame of another process and free only what is theirs, a call of the heap neither panics nor wraps, and `process_end` switches away before anything else is allocated; with preemption disabled it returns to the ended process, whose freed record may then be handed out again while it runs.
- `KernelRuns` takes what `KMalloc` ensures of memory as its description of `kmalloc`; the method itself and `SwitchTo` run in classes of their own, and the choice of the next process is free there and not that of `SchedulerModel`.
- Printf.DoPrintf: what lies behind the terminating NUL is not modelled, so after an overrun the model stops; characters are not sign extended on their way to the output function, and arguments are an endless sequence of words, each with the string at its address.
- `panic` halts; nothing is said about what follows it.
- `process/mutex.c`, the device drivers, interrupt tables, stubs and the screen are not part of this model.
