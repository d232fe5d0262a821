# A verified model of the simulated virtual-memory kernel

The program simulates a small computer that runs recorded memory traces. A processor takes accesses
from the trace of the current process; an MMU translates them by walking a four-level Sv48 page table
in simulated RAM, with an optional translation lookaside buffer (tagged with an address-space
identifier, or flushed on every switch). A kernel hands out page frames through one of two page
managers (a bitmap or a list of holes), serves page faults through the MMU driver, schedules round
robin, and takes everything back when a process ends.

This project models all of that and proves how the parts behave together, for every configuration,
every set of processes and every run.

## Files

| file | contents |
|---|---|
| `Sv48.dfy` | constants, slicing of addresses into table indices |
| `PageTable.dfy` | tables in RAM, the walk, the shape that every set of page-table trees keeps, release order |
| `Bitmap.dfy`, `HoleList.dfy` | the two page managers: specification, properties, and the classes |
| `Managers.dfy`, `PageManager.dfy` | both managers behind one interface, compared on single pages |
| `Requests.dfy`, `Blocks.dfy` | requests of any size: when a manager stays intact, when the two managers answer alike; the blocks handed out |
| `Memory.dfy`, `Teardown.dfy` | the kernel's memory: allocation, mapping, page faults, termination |
| `Tlb.dfy`, `Buffer.dfy` | the translation buffer: specification, replacement order, and the class |
| `Kernel.dfy` | the machine: one access, one interrupt, and the invariant they keep |
| `Runs.dfy` | whole runs: isolation, transparency of the buffer, fairness, conservation |
| `Room.dfy`, `TableCount.dfy` | exactly when memory runs out; exactly how many tables there are |
| `Tally.dfy` | what a run adds up to: tables made, the final check, how much memory is enough |
| `Refusals.dfy`, `HighWater.dfy` | over all runs: which accesses are refused, when the two managers differ, what the reported high-water mark is |
| `Caching.dfy` | what the translation buffer keeps, over a translation, a switch and whole runs; which accesses hit |
| `Schedule.dfy`, `RoundRobin.dfy` | the processor loop: termination and completeness of the traces; that it follows the round-robin plan made from the traces alone |
| `Refinement.dfy` | what one step of each loop of the program means for the function that specifies it |
| `System.dfy` | the program's objects (memory, MMU, driver, kernel, processor) as classes whose methods are proved equal to the functions above, and a whole simulation |

The central idea is an account of roles: every allocated frame is a table of one process at one path,
a data page of one process at one path, or charged and not yet linked. Each table entry agrees with
the role of the frame it points to, and each role with the entry that points back, so a write to one
entry in raw RAM can be followed as an update of one path of one process.

State that the program changes in place is kept in classes (`TranslationBuffer`,
`PhysMemManagerBitmap`, `PhysMemManagerHole`, `PhysicalMemory`, `Mmu`, `OSKernel`, `MmuDriver`,
`Processor`). Every method says what its whole new state is, as a specification function of the old
one; the theorems are about those functions.

## What was found

- **Merging the tail of the hole list** (os/physmemmanager.cc:198-206). When the right neighbour that
  is merged is the last node, the freed node's `next` keeps pointing at the deleted node. The class
  has a constant `unlinkTail`; `false` is the code as written. `AsWrittenKeepsIff` says that releasing
  then keeps a partition of memory exactly when it does not merge the tail, and `LastReleaseBreaks`
  that this case is met as soon as one page is allocated and released. Since a deleted node has no
  meaning afterwards, the kernel is composed with the list that unlinks the tail.
- **Inner page tables are released twice** (arch/riscv/driver.cc:71-83 and os/oskernel.cc:143-151):
  once by the driver and once from the kernel's record. The set of allocated frames comes out right
  with both managers (`TerminateKeeps`). The hole list ignores the second release; the bitmap lowers
  its counter again, in 64-bit words. Three things follow for the bitmap.
  - An access can be refused with memory to spare. `RefusedIff` says after every run from boot which
    accesses are refused, in terms of the tables made, the live ones and the frames in use;
    `RefusedWithFreeMemory` is a run in which a single frame is in use. Up to the first refusal this
    is the only way in which the two managers come to answer differently (`ManagersOverRuns`).
  - The final check that all pages were released fails after every run that made a table; without a
    trap, that is every run that answered an access (`Tally.ReleasedCheckIff`, and `OneAccessFails`
    for the shortest one).
  - The reported high-water mark (os/physmemmanager.cc:52-55) is documented as the largest number of
    pages allocated at one time. It is below that exactly when the number was reached only after a
    process with inner tables had ended (`PeakFromBoot`, and `MarkStaysBehind` for a run).
- **At most one neighbour is merged** on release (os/physmemmanager.cc:191-206). Adjacent holes arise
  exactly when a segment between two holes is freed (`FreedApartIff`). While there are none, both
  managers give the same addresses to requests of every size; once there are, some sequence of
  requests tells them apart (`AlikeIffApart`). The next request alone need not show it
  (`SizesAlikeIff`, `AdjacentMayNotShow`). From fresh memory of any size from four pages up, six
  requests lead to a list that refuses what the bitmap grants: `AdjacentHolesStayApart`.
- **A request for no pages** is granted by the hole list, while a page is free, as a segment of no
  pages, after which the list no longer partitions memory (`AllocateKeepsIff`). A size within a page of
  2^64 rounds to such a request (os/oskernel.cc:108, `PagesForNone`). `NothingBreaks` is the instance.
- **Flushing the buffer leaves the next victim where it was** (hw/tlb.cc:68-73), so replacement is not
  always first-in first-out. A buffer that is never flushed is (`FifoFromFresh`); `FifoIff` gives the
  exact condition after a flush, and `FifoFails` a run for every size above one in which it fails.
- **A null current process** is dereferenced while the root tables are allocated (os/oskernel.cc:41-43
  through line 115) and after the last exit (os/oskernel.cc:211 and 220). The model reads the PID of no
  process as 0; the root tables are recorded under owner 0.

## Conventions

A process is its PID, a nonzero number. A table is named by its frame number (address / 4096). Shifts
and masks are division and remainder by powers of two; counters and sizes that the program keeps in
64-bit words are reduced modulo 2^64. Exceptions are outcomes (`Error`). What RAM holds at first is
arbitrary. Reading outside RAM finds no valid entry in the specification, and every method that reads
a table is proved to stay inside RAM.

## Model

| member | source | states |
|---|---|---|
| Sv48.SlicingAgrees | arch/riscv/driver.cc:120-147 | for every 64-bit address, the four indices the driver takes are the four the MMU walks with |
| Sv48.PathRoundTrip | arch/riscv/mmu.cc:30-32 | the four indices determine the 36-bit virtual page number |
| Sv48.SameLeafIffSamePage | hw/mmu.cc:73-78 | two addresses reach the same leaf entry if and only if their pages agree modulo 2^48 |
| Sv48.PagesForNone | os/oskernel.cc:108 | a 64-bit size rounds to no pages if and only if it is 0 or within a page of 2^64 |
| PageTable.LinkKeepsTree | arch/riscv/driver.cc:123-140 | linking a cleared new table keeps all trees well shaped: one frame, one owner, one path |
| PageTable.LinkKeepsWalk | arch/riscv/driver.cc:123-140 | linking a cleared new table changes no walk from any table of any process |
| PageTable.LeafKeepsTree | arch/riscv/driver.cc:147-148 | writing a leaf entry keeps all trees well shaped |
| PageTable.LeafUpdatesWalk | arch/riscv/driver.cc:147-148 | writing a leaf entry changes the walk for exactly one path of one process |
| PageTable.TableUnique | arch/riscv/driver.cc:109-149 | a process has at most one table at each path |
| PageTable.WalkRole | arch/riscv/mmu.cc:22-47 | a successful walk ends in the data page whose owner and path are those walked |
| PageTable.WalkByDescend | arch/riscv/mmu.cc:28-46 | the walk is a descent through pointers to the leaf table and one read there |
| PageTable.OrderExact | arch/riscv/driver.cc:71-83 | the recursive release visits each table below an entry exactly once, never a data page |
| Bitmap.FirstFit | os/physmemmanager.cc:74-98 | the scan's result: the lowest start of a free run of the wanted length, or that there is none |
| Bitmap.AllocateIffRun | os/physmemmanager.cc:69-101 | while the counter is the number of set bits, allocation succeeds if and only if a free run exists, and the counter stays right |
| Bitmap.RunFits | os/physmemmanager.cc:71-72 | a free run fits beside the pages in use, so the upfront check rejects nothing satisfiable |
| Bitmap.AllocateCounts | os/physmemmanager.cc:69-101 | a request of any size, granted or refused, leaves the counter the number of set bits |
| Bitmap.ReleaseCountsIff | os/physmemmanager.cc:106-116 | a release of any range does so if and only if every page of it was allocated |
| Bitmap.PhysMemManagerBitmap.constructor | os/physmemmanager.cc:61-64 | a fresh bitmap has every page free and both counters at zero |
| Bitmap.PhysMemManagerBitmap.AllocatePages | os/physmemmanager.cc:69-101 | the nested loops sharing one index compute exact first fit, mark those pages only, and update both counters |
| Bitmap.PhysMemManagerBitmap.ReleasePages | os/physmemmanager.cc:106-116 | clears exactly the given pages and lowers the counter by their number in any case |
| Bitmap.PhysMemManagerBitmap.AllReleased | os/physmemmanager.cc:48-50 | true exactly when the counter is zero |
| HoleList.CarveKeeps | os/physmemmanager.cc:152-168 | splitting a hole keeps the list a partition of memory, marks exactly the pages handed out and adds them to the total |
| HoleList.FreedKeeps | os/physmemmanager.cc:190-208 | with a merged tail unlinked, freeing keeps the partition, clears exactly the segment's pages and takes them off the total |
| HoleList.AllocateKeepsIff | os/physmemmanager.cc:140-171 | after a request the list partitions memory and the counter is the total of the allocated nodes if and only if at least one page was asked for or none is free |
| HoleList.ReleaseKeepsIff | os/physmemmanager.cc:176-209 | after a release both hold if and only if it was ignored or gave back a whole segment |
| HoleList.CarveKeepsApart | os/physmemmanager.cc:152-168 | a request never makes holes adjacent |
| HoleList.FreedApartIff | os/physmemmanager.cc:190-206 | a release makes holes adjacent if and only if both neighbours of the segment were holes |
| HoleList.RunInHole | os/physmemmanager.cc:140-150 | while no holes are adjacent, every run of free pages lies in one hole |
| HoleList.FirstHoleIsFirstFit | os/physmemmanager.cc:140-150 | so the first hole that is large enough starts at the lowest free run |
| HoleList.AsWrittenKeepsIff | os/physmemmanager.cc:198-206 | as written, freeing keeps the partition if and only if it does not merge the tail |
| HoleList.LastReleaseBreaks | os/physmemmanager.cc:198-206 | as written, releasing the last of any number of pages allocated one by one leaves no partition |
| HoleList.AsWrittenKeepsTail | os/physmemmanager.cc:198-206 | what it leaves then is the right list with the deleted node still behind it; in every other case the right list |
| HoleList.FilledByAllocation | os/physmemmanager.cc:140-171 | allocating one page at a time from fresh memory takes the pages in order |
| HoleList.PhysMemManagerHole.constructor | os/physmemmanager.cc:122-126 | a fresh list is one hole over all pages, also when there are none |
| HoleList.PhysMemManagerHole.AllocatePages | os/physmemmanager.cc:140-171 | on linked nodes: takes the first hole that is large enough, splitting it; next and prev stay inverse; address, list and counters as specified |
| HoleList.PhysMemManagerHole.TakeNode | os/physmemmanager.cc:152-166 | relinking for a split turns the list into the carved list |
| HoleList.PhysMemManagerHole.FreeNode | os/physmemmanager.cc:190-206 | relinking for a release merges left, else right, else not at all, as written or with the tail unlinked |
| HoleList.PhysMemManagerHole.ReleasePages | os/physmemmanager.cc:176-209 | releases the allocated node that starts at the page; any other release is ignored |
| HoleList.PhysMemManagerHole.AllReleased | os/physmemmanager.cc:48-50 | true exactly when the counter is zero |
| Managers.AllocateOne | os/physmemmanager.cc:69-171 | either manager hands out the lowest free frame for one page, refused exactly when the counter check fails or all is taken; only that bit, the counter and the high-water mark change |
| Managers.ReleaseOne | os/physmemmanager.cc:106-209 | releasing one page clears its bit in either manager; what each counter does with a page that is free |
| Managers.Lockstep | os/physmemmanager.cc:69-209 | on every sequence of single-page requests and releases of allocated pages both managers give the same answers and hold the same pages |
| Managers.LockstepUnhindered | os/physmemmanager.cc:69-209 | so they do when pages are released that are free, as long as neither counter refuses a free page |
| Managers.HolesUnhindered | os/physmemmanager.cc:176-209 | the hole list's counter never does, whatever single pages are released |
| Managers.CountersOverRuns | os/physmemmanager.cc:94-115 | on matched single-page requests the counter is the number of allocated pages, and the high-water mark the largest it has been |
| Managers.FreshAgree | os/physmemmanager.cc:61-64 | fresh managers of one size agree, so Lockstep applies from the start |
| Managers.BitmapNoWorse | os/physmemmanager.cc:69-171 | for any request size and the same pages taken, where the hole list succeeds the bitmap succeeds no higher |
| Requests.IntactIff | os/physmemmanager.cc:69-209 | which requests and releases, of any size, keep the bitmap's counter exact, or the hole list a partition with the right total |
| Requests.IntactOverRuns | os/physmemmanager.cc:69-209 | any number of requests for at least a page and of matching or ignored releases keep either manager intact |
| Requests.IntactFromFresh | os/physmemmanager.cc:61-209 | so, from fresh memory of any size on, the counter of either manager is always the number of allocated pages, and the hole list partitions memory |
| Requests.NothingBreaks | os/physmemmanager.cc:140-171 | in fresh memory of any size a request for no pages, or for the size that rounds to none, is granted and breaks the list |
| Requests.AlikeIffApart | os/physmemmanager.cc:69-209 | with the same pages taken, both managers give the same answers to all sequences of requests of all sizes if and only if no two holes are adjacent |
| Requests.SizesAlikeIff | os/physmemmanager.cc:69-171 | they grant the same sizes next if and only if no stretch of adjacent holes is wider than the widest hole |
| Requests.AdjacentMayNotShow | os/physmemmanager.cc:140-171 | a list with adjacent holes of which the next request of any size tells nothing |
| Requests.AdjacentHolesStayApart | os/physmemmanager.cc:191-206 | from fresh memory of any size from four pages up, six requests leave the list with two adjacent holes, all pages free, and refusing what the bitmap grants |
| Blocks.GrantIs | os/physmemmanager.cc:69-171 | with either manager a request for at least one page changes nothing or hands out, at the address it answers, pages that were free, the lowest such run with the bitmap and one segment with the hole list; it marks exactly those and counts them, in the high-water mark too |
| Blocks.HolesTakeBack | os/physmemmanager.cc:176-209 | a release of a page where an allocated segment starts frees just that segment, whole; every other release changes nothing |
| Blocks.GrantRoundTrip | os/physmemmanager.cc:69-209 | giving back what was handed out restores pages and counter |
| Blocks.MemoryRoundTrip | os/oskernel.cc:93-132 | memory of any size covers the size in whole pages that were free, is recorded for its process and nobody else, and releasing what was recorded restores the manager |
| Blocks.HeldOverRuns | os/physmemmanager.cc:69-209 | over any number of requests of any size in which blocks are given back as handed out, the blocks held are apart from each other and hold exactly the allocated pages |
| Blocks.HeldFromFresh | os/physmemmanager.cc:61-209 | so it is from fresh memory of any size on, with either manager |
| Tlb.Find | hw/tlb.cc:23-30 | the first populated slot with the page and the current address space, or that there is none |
| Tlb.RunAccounts | hw/tlb.cc:20-77 | over every run the slots below the population stay valid, and adds = evicted by adds + resident + flushed |
| Tlb.RunCounts | hw/tlb.cc:20-33 | over every run the statistics count all lookups, and as hits exactly those that were answered |
| Tlb.FillsUp | hw/tlb.cc:38-46 | while there is room, added translations line up in order |
| Tlb.GoesRound | hw/tlb.cc:58-63 | in a full buffer, up to a round of adds overwrites each slot at most once, cyclically from the next victim |
| Tlb.RoundReplacesAll | hw/tlb.cc:58-63 | a full round of adds leaves exactly what it added |
| Tlb.FifoWhen | hw/tlb.cc:37-64 | an emptied buffer then holds exactly its last adds, repeated translations included, if they fit, or go round twice, or the victim pointer is at 0 |
| Tlb.FifoOnlyWhen | hw/tlb.cc:58-73 | in no other case does it, when no translation is repeated |
| Tlb.FifoIff | hw/tlb.cc:37-73 | for every number of adds, replacement is first-in first-out whatever is added if and only if one of the three holds |
| Tlb.FifoFromFresh | hw/tlb.cc:20-77 | over every run without a flush, lookups and switches of address space interleaved, the buffer holds exactly the last translations added, as many as fit |
| Tlb.VictimOverRuns | hw/tlb.cc:58-63 | over every run the victim pointer is the number of evictions modulo the size |
| Tlb.FifoSinceFlush | hw/tlb.cc:20-77 | over every run from a fresh buffer, what it holds of the adds since the last flush |
| Tlb.FifoFails | hw/tlb.cc:68-73 | for every size above one: one add more than fits, a flush, then more adds than fit but fewer than twice as many; an older translation stays and a younger one is gone |
| Buffer.TranslationBuffer.constructor | hw/tlb.cc:10-13 | an empty buffer of any size, its slots unknown, counters at zero |
| Buffer.TranslationBuffer.Lookup | hw/tlb.cc:20-33 | finds the first matching slot and counts the lookup and the hit |
| Buffer.TranslationBuffer.Add | hw/tlb.cc:37-64 | appends or evicts as specified; the search for an invalid slot in a full buffer never finds one |
| Buffer.TranslationBuffer.Flush | hw/tlb.cc:68-73 | empties the buffer and counts, leaving slots and victim in place |
| Buffer.TranslationBuffer.SetAsid | hw/tlb.cc:77-77 | only the address space changes |
| PageManager.Manager.AllocatePages | os/oskernel.cc:30-38 | the configured manager answers as specified |
| PageManager.Manager.ReleasePages | os/oskernel.cc:122-132 | the configured manager releases as specified |
| PageManager.Manager.AllReleased | os/oskernel.cc:71-76 | true exactly when the configured manager's counter is zero |
| Memory.FreshSound | os/oskernel.cc:18-38 | memory before the first allocation satisfies the invariant |
| Memory.RootKeeps | arch/riscv/driver.cc:56-69 | a root table takes one frame nobody had and keeps the invariant; nothing happens when memory is full |
| Memory.RootUpdates | arch/riscv/driver.cc:56-69 | a root table asked for any process, whoever is charged: one frame nobody had is taken, charged and counted; a process that has a root keeps it, and every mapping of every process is as before |
| Memory.GrowTable | arch/riscv/driver.cc:123-140 | making and linking a missing table takes one frame nobody had, keeps the invariant and changes no mapping of any process |
| Memory.SetMappingUpdates | arch/riscv/driver.cc:109-149 | a mapping made for any process, whoever is charged, to any address, also over a mapping that is there, points that page at the low 44 bits of the frame number and changes no other page of any process; or there is no root, or memory is full, and every mapping is as before |
| Memory.SetMappingCharges | arch/riscv/driver.cc:120-145 | the tables made on the way are frames that were free, counted, and charged to the owner the mapping is made for, and nothing is charged to anybody else, also when memory runs out on the way |
| Memory.MapFromRefines | arch/riscv/driver.cc:109-149 | the level loop keeps the invariant and is one map update of one process; when a table cannot be allocated no mapping has changed |
| Memory.FaultIsMapFrom | os/oskernel.cc:156-176 | the faulting address is mapped at the path the MMU walks |
| Memory.FaultRefines | os/oskernel.cc:156-176 | a page fault maps the faulting page, and no other page of any process, to a frame nobody had; or memory is full and every mapping is as before |
| Memory.GrownTidy | arch/riscv/driver.cc:120-148 | a served fault leaves no table that leads to no page |
| Teardown.OrderIsTables | arch/riscv/driver.cc:87-93 | the driver releases exactly the tables of the process, each once |
| Teardown.LedgerFrames | os/oskernel.cc:143-151 | the kernel's record of a live process lists exactly its frames other than the root, each once |
| Teardown.TerminateKeeps | os/oskernel.cc:136-152 | ending a process frees exactly its frames despite the double release, and keeps the invariant for all others |
| Teardown.TerminateAllEmpties | os/oskernel.cc:64-67 | ending all processes leaves no frame allocated |
| Kernel.Transparent | hw/mmu.cc:84-93 | with or without the buffer a translation is what the bare walk says |
| Kernel.GetTranslationKeeps | hw/mmu.cc:84-93 | a translation changes only the buffer, which stays coherent and free of duplicate tags |
| Kernel.WalkIsMapped | hw/mmu.cc:62-68 | the physical address is the mapped frame times 4096 plus the page offset, or a page fault when nothing is mapped |
| Kernel.HandleFaultKeeps | os/oskernel.cc:156-176 | the fault handler keeps the whole invariant, the buffer's coherence included |
| Kernel.AccessKeeps | hw/mmu.cc:40-57 | an access takes at most one fault and ends in the mapped address, or memory is full and nothing was mapped; the invariant is kept |
| Kernel.SwitchKeeps | os/oskernel.cc:199-217 | after a switch kernel, processor, MMU root and buffer agree on the running process, also on the early return |
| Kernel.InterruptKeeps | os/oskernel.cc:180-221 | every interrupt keeps the whole invariant, with the current process and the queue a permutation of the live ones |
| Runs.Boot | os/oskernel.cc:41-43 | after boot the invariant holds, every frame in use is a root and nothing is mapped |
| Runs.BootInOrder | os/oskernel.cc:41-43 | at boot the process at position i of the list gets frame i of RAM as its root |
| Runs.StepKeeps | os/oskernel.cc:156-221 | every access, timer interrupt and exit keeps the invariant |
| Runs.RunKeeps | os/oskernel.cc:156-221 | so does every run, in any interleaving |
| Runs.IsolationOverRuns | os/oskernel.cc:93-221 | in every reachable state no frame is shared by two processes, two paths or two uses, all are allocated, and none is lost unless memory ran out |
| Runs.TransparentOverRuns | hw/mmu.cc:73-96 | over every run, a machine with a buffer in either mode and one without it answer alike and agree on everything else |
| Caching.TranslationCached | hw/mmu.cc:73-96 | with the buffer on, a translation is resident afterwards, with the frame the process maps; one lookup is counted, and a hit exactly when the page was resident; a resident or unmapped page moves nothing, any other fills one slot; with the buffer off nothing changes |
| Caching.SwitchBuffer | os/oskernel.cc:199-217 | with address spaces a switch changes only the current one; without, a change of process empties the buffer and counts a flush, with slots and victim left in place; when the process stays nothing changes; the MMU's root changes only with the process |
| Caching.InterruptBuffer | os/oskernel.cc:180-221 | the same across every interrupt, the early return included |
| Caching.OpsOverRuns | hw/mmu.cc:73-96 | over every run the buffer is what lookups, adds, flushes and changes of address space make of it: which of them each event causes |
| Caching.LookupsOverRuns | hw/mmu.cc:40-57 | over every run one lookup is counted for each access, and a second when a fault was served |
| Caching.FlushesOverRuns | os/oskernel.cc:209-215 | over every run the buffer is flushed once for each change of process without address spaces, and never with them |
| Caching.RecallOverRuns | hw/tlb.cc:20-64 | with address spaces, over every run the buffer holds the last different pages asked for, in order of arrival, as many as it has slots |
| Caching.HitsFromBoot | hw/tlb.cc:20-64 | so from boot on an access hits if and only if its page and process are among them, and the statistics count exactly those accesses as hits |
| Caching.HitsSinceSwitch | hw/tlb.cc:20-73 | without address spaces, from one change of process to the next, as long as the different pages fit, an access hits if and only if its page was asked for before |
| Runs.MappingsPersist | os/oskernel.cc:156-176 | over every run a page once mapped stays in its frame as long as its process lives, and no process comes back |
| Runs.ContextOverRuns | os/oskernel.cc:180-221 | in every reachable state kernel, processor, MMU root and buffer tag agree on the running process, and queue and running process are the live ones, each once |
| Runs.StatisticsOverRuns | os/oskernel.cc:217-235 | over every run one page fault is counted per access to an unmapped page, and one context switch per change of process |
| Runs.Fairness | os/oskernel.cc:189-198 | the process at position j of the queue runs after exactly j + 1 interrupts, whoever exits meanwhile |
| Runs.LeaversOverRuns | os/oskernel.cc:180-183 | over every run the processes that exit are those live at first and not at the end, each once |
| Runs.EndReturnsAll | os/oskernel.cc:58-76 | ending the processes that remain returns every frame; what each manager's counter then holds |
| Runs.ConservationOverRuns | os/oskernel.cc:58-88 | however a run from boot went, every frame is returned at the end |
| Tally.BytesOverRuns | arch/riscv/driver.cc:62-63 | over every run the byte count grows by 4096 for each table made |
| Tally.BytesFromBoot | arch/riscv/driver.cc:154-156 | from boot on it is 4096 times the tables ever made, a root for each process and those of the run |
| Tally.ReleasedCheckIff | os/oskernel.cc:71-76 | after every run from boot the final check passes if and only if the manager is the hole list or the run made no table; without a trap, that is if and only if it answered no access |
| Tally.OneAccessFails | os/oskernel.cc:71-76 | with the bitmap, in any memory of at least five pages, a single access makes the final check fail |
| Tally.EnoughMemory | os/oskernel.cc:156-176 | with the hole list, a run with four frames for each of its accesses meets no trap |
| Refusals.TwiceFromBoot | arch/riscv/driver.cc:71-83 | after every run from boot, releases have met a free page once for each table made that was no root and whose process has ended |
| Refusals.RefusedIff | os/oskernel.cc:156-176 | after every run from boot an access is refused if and only if its page is unmapped and the page and the missing tables do not fit, or, with the bitmap, the tables released twice outnumber the frames in use by more than one |
| Refusals.ManagersOverRuns | os/physmemmanager.cc:69-209 | over every run that a machine with the bitmap answers, one with the hole list answers the same and maps the same frames; at the next access they differ if and only if the frames are there and the bitmap's counter does not let them out |
| HighWater.PeakOverRuns | os/physmemmanager.cc:94-97 | over every run the high-water mark is the most its counter has shown |
| HighWater.PeakFromBoot | os/physmemmanager.cc:52-55 | from boot on it is the largest number of frames ever in use with the hole list; with the bitmap if and only if that number was reached before a process with inner tables ended, and less otherwise |
| HighWater.EndPeak | os/oskernel.cc:64-88 | ending the processes that remain leaves it |
| HighWater.MarkStaysBehind | os/physmemmanager.cc:52-55 | with the bitmap, in any memory of at least eight pages, a run after which eight frames are in use and the mark is seven |
| Room.AllocateIff | os/physmemmanager.cc:71-72 | a page is granted if and only if one is free and, for the bitmap, pages released twice do not outnumber those in use by more than one |
| Room.MapFromIff | arch/riscv/driver.cc:120-148 | mapping succeeds if and only if the missing tables can be had, and creates just those |
| Room.FaultIff | os/oskernel.cc:156-176 | the exact condition under which a page fault is served, in terms of the account |
| Room.BootIff | os/oskernel.cc:41-43 | the kernel starts if and only if there is a frame for each root |
| Room.RefusedWithFreeMemory | os/physmemmanager.cc:106-116 | with the bitmap, in any memory of at least six pages, a run in which an access is refused although one frame is in use |
| TableCount.ExactTableCount | arch/riscv/driver.cc:120-148 | while memory has not run out a process owns its root and one table for each used stretch of 2^27, 2^18 and 2^9 pages |
| TableCount.TablesOverRuns | arch/riscv/driver.cc:56-149 | the same in every state of every run from boot |
| Schedule.BurstKeeps | hw/processor.cc:68-74 | a quantum is a run of accesses of one process, exactly those added to the log, which are the next of its trace in order; an error means one of them trapped |
| Schedule.RoundKeeps | hw/processor.cc:60-83 | a quantum and its interrupt keep the invariant, are a run of the machine, and leave less work |
| Schedule.StartedKeeps | hw/processor.cc:52-58 | the first timer interrupt dispatches a process and loses none |
| Schedule.RunCompletes | hw/processor.cc:46-84 | the processor stops; unless memory ran out every trace was accessed to its end, in order and once, and every process exited, each once |
| Schedule.WholeRun | hw/processor.cc:46-84 | the same from the first interrupt on; the log is the list of accesses of the run |
| Schedule.LogFits | hw/processor.cc:68-74 | no more accesses are made than the traces hold |
| RoundRobin.BurstIs | hw/processor.cc:68-74 | a burst makes exactly a quantum of accesses of the running process, the next of its trace, or the rest of the trace; or memory ran out at the last of fewer |
| RoundRobin.RoundIs | hw/processor.cc:60-83 | a round is that and one interrupt; the process exits if and only if no more than a quantum of its trace was left, and else goes to the back of the queue |
| RoundRobin.RoundsFollow | hw/processor.cc:60-83 | any number of rounds are the turns that round robin plans from the traces and the queue alone |
| RoundRobin.PlanFollowed | hw/processor.cc:46-84 | the events of the whole run are those of the plan, in order, and what was accessed are its slices; or memory ran out, at the last access of the first part of it |
| System.OSKernel.ReadEntry | arch/riscv/driver.cc:73-75 | what table memory holds; callers are proved to stay inside RAM |
| System.PhysicalMemory.Clear | arch/riscv/driver.cc:130-132 | the loop resets the valid bits of one table and nothing else |
| System.Mmu.PerformTranslation | arch/riscv/mmu.cc:22-47 | the loop over levels ends in the walk of Walk, for which WalkRole and LeafUpdatesWalk hold; an unaligned root is an error, and no read leaves RAM |
| System.Mmu.GetTranslation | hw/mmu.cc:73-96 | the answer, and the buffer afterwards, are those of Kernel.GetTranslation, which is transparent and keeps the translation (see TranslationCached) |
| System.Mmu.ProcessMemAccess | hw/mmu.cc:40-57 | the fault-and-retry loop ends after at most one fault, in the state and with the answer of Kernel.Access (see AccessKeeps) |
| System.OSKernel.constructor | os/oskernel.cc:18-38 | a kernel of either manager over memory of any size in which nothing is allocated, whatever RAM holds |
| System.OSKernel.AllocateRoots | os/oskernel.cc:41-43 | a root per process in list order, stopping at the first that does not fit, with the rest of the machine unchanged (see Boot and BootIff) |
| System.OSKernel.AllocateMemory | os/oskernel.cc:93-118 | zero size and large alignment are errors and change nothing; else the size in whole pages, as 64-bit words, recorded for the current process and only if there was room |
| System.OSKernel.ReleaseMemory | os/oskernel.cc:122-132 | the pages go back to the manager and nothing else changes: the record still lists them, which is why inner tables are released twice |
| System.OSKernel.PageFaultHandler | os/oskernel.cc:156-176 | the whole machine afterwards, and the error, are those of HandleFault, which FaultRefines shows to be one map update; a process without a root is an error |
| System.OSKernel.TerminateProcess | os/oskernel.cc:136-152 | memory afterwards is that of Terminate, which TerminateKeeps shows to free exactly the frames of the process |
| System.OSKernel.ContextSwitch | os/oskernel.cc:199-217 | nothing changes when the process stays; else kernel, processor, MMU root, buffer and counter change together (see SwitchKeeps and SwitchBuffer) |
| System.OSKernel.InterruptHandler | os/oskernel.cc:180-221 | the whole machine afterwards is that of HandleInterrupt (see InterruptKeeps and Fairness) |
| System.OSKernel.Shutdown | os/oskernel.cc:58-76 | every process that remains is ended, queue first and the running one last; the answer is whether the counter is zero (see EndReturnsAll) |
| System.MmuDriver.GetPageTable | arch/riscv/driver.cc:98-103 | a page-aligned address: the root's, or 0 when the process has none |
| System.MmuDriver.AllocatePageTable | arch/riscv/driver.cc:56-69 | a cleared table is charged to the current owner and entered as root; a root that is there already stays (see RootUpdates) |
| System.MmuDriver.NextTable | arch/riscv/driver.cc:123-144 | a missing table is made, cleared and linked, a present one is followed; with no room nothing changes |
| System.MmuDriver.SetMapping | arch/riscv/driver.cc:109-149 | for any process, address and page the loop over levels in place is the mapping that SetMappingUpdates shows to be one map update; the current process is charged for the tables |
| System.MmuDriver.ReleasePageTableInternal | arch/riscv/driver.cc:71-83 | the recursion ends, stays inside RAM and releases in the order that OrderExact shows to hold each table once |
| System.MmuDriver.ReleasePageTable | arch/riscv/driver.cc:87-93 | those tables are released, the root is forgotten, and nothing else changes |
| System.Workload.GetMemoryAccess | os/process.cc:43-47 | takes the front of one trace and leaves the others |
| System.Processor.RunProcess | hw/processor.cc:68-74 | the inner loop performs the next accesses of the trace, in order, until the quantum or the trace is over or memory is full |
| System.Processor.RunRound | hw/processor.cc:60-83 | the quantum, then exit is raised if and only if the trace is done, else the timer (see RoundIs) |
| System.Processor.Run | hw/processor.cc:46-84 | the nested loops end; what was accessed is a run of the machine; without an error every trace was accessed to its end in order, all processes have ended and the queue is empty; the only error besides a missing quantum is memory full |
| System.RunAndStop | hw/processor.cc:46-84 | on a machine that has booted: the promises of Simulate |
| System.Boot | os/oskernel.cc:18-56 | a machine with a root for every process and nothing mapped, or the exact error that kept it from starting, for memory of any size |
| System.Simulate | main.cc:43-53 | boots if and only if there is memory, at most 2 GiB, with room for the roots; then every trace completes or memory ran out, the accesses made are those of the round-robin plan, in its order, and all frames are returned; the final check passes with the hole list, and with the bitmap if and only if the byte count is 4096 times the number of processes, which without an error means that all traces are empty; with the hole list, a frame per process and four per access are enough |

## Left out

- Trace files, option parsing, logging and statistics output: a process is a PID with a finite sequence of addresses, and the options are parameters.
- The flat page table of arch/simple: the same refinement with a simpler table.
- Superpages: the walk stops at a readable entry at any level, but the driver never writes one above level 0; the shape invariant says so.
- The write, execute, user, global, accessed and dirty bits, and the kind and size of an access: translation ignores them.
- Mapping and unmapping of host memory: RAM is an array of tables, one per frame; data contents are not modelled.
- PageManager.Manager.ReleasePages: the kernel runs with the hole list that unlinks a merged tail; after the program's own merge a deleted node stays linked, and what happens then is undefined.
- Deleted list nodes and their memory: HoleNode objects that are no longer linked are simply unreachable.
- An add to a buffer without slots, which writes outside its storage: a machine that runs has at least one slot. A negative time quantum: the quantum is a natural number (0 is an error, as in the program).
- Overflow of the `int` statistics counters and of the byte count: they are unbounded numbers.
- Bitmap.PhysMemManagerBitmap.ReleasePages: requires the pages to lie in memory; the program writes outside its vector otherwise.
- System.OSKernel.ReleaseMemory: the same for the bitmap.
- Runs.StepKeeps: a run may go on after "memory full"; the program stops there, so its runs are among those covered.
- Kernel.SwitchTo: with no process left the program reads the PID of a null pointer; the model takes it as 0.
- System.Processor: the time quantum is set when the processor is made, not by the kernel.
