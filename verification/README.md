# A verified model of a RISC-V teaching kernel

The kernel runs processes on several harts. It has a reference-counted page allocator under a spinlock,
Sv39 page tables (section 4.4 of the RISC-V Privileged Architecture manual), a fork that shares heap pages
copy-on-write, a byte-granular user heap, a round-robin scheduler with semaphores and wait/exit, and an inode
file system (RFS) behind a dentry/vinode cache (VFS). This project models those parts in Dafny 4.11 and proves
what they keep over whole runs. `dafny verify dfyconfig.toml` checks everything.

## How the model is built

| files | what they hold |
|---|---|
| `Pmm`, `PmmLock` | the page allocator as a class; the same allocator with every lock and memory access a step of its own, for any number of harts |
| `Cow`, `CowInvariant`, `CowSteps`, `CowRefinement`, `CowAccounting` | fork, page faults, page allocation and release as interleaved steps of any number of harts; the invariant of every step; the refinement of a system whose fork copies |
| `CowProgress`, `CowFork`, `CowCode` | that every fault and call ends, and what it has then brought about; which pages a fork shares; code pages, which are mapped without being counted |
| `Sv39`, `Vmm`, `VmmRange` | page-table entries and the three-level tree as memory pages; the walking, mapping and unmapping loops as a class that refines a flat table; where the addresses of a range lead, and what protecting an entry does |
| `HeapLists`, `UserHeap` | doubly linked lists over node addresses; `user_better_malloc` and `user_better_free` as a class over both lists, the page map and the free pages |
| `Sched`, `SchedQueues`, `SchedLiveness`, `SchedPlaces`, `SchedLaws`, `SchedWait`, `SchedScan`, `SchedKernel` | the scheduler as a step function over abstract queues with its run theorems; the process table with its `queue_next` links as a class that refines it |
| `HashTable` | the chained hash table as a class that refines a finite map |
| `RamDev`, `RfsFree`, `RfsDir`, `RfsFile`, `RfsBlocks`, `RfsInode` | the RAM disk behind one I/O buffer; the free map; directory search and compaction; file reading and writing; block ownership; inodes as bytes, and a file across close and open |
| `VfsState`, `VfsSteps` | the directory tree and both caches with their invariant; the small steps that keep it |
| `VfsWalk`, `VfsLoose`, `VfsLookup` | the walk of a path over the disk, through files too; what a lookup keeps when it is led astray; how it got where it is |
| `VfsOps`, `Vfs`, `VfsPath` | what each operation answers and leaves; the operations as a class; paths as text |
| `RfsNames` | the entry sequences of `RfsDir` change as the entry map of `VfsState` does |
| `Sequences`, `Config` | what several modules share |

Interleaving matters for the allocator, for copy-on-write and for wait/exit, so those are state machines whose
steps are single memory accesses or single locked operations. Elsewhere one call is one step. Code that updates
fields in place is a class; each method is proved against the abstract value it changes. A killed process and an
access outside the kernel's own data are results of the methods (`Killed`, `Overrun`, `Garbage`), and so is a failing
assertion of the kernel (`Panic`). Apart from arguments that name something that exists, the VFS, RFS and heap methods
ask for `Valid()` only. Each gives it back or says exactly when it does not: `Valid() <==> ...` in the contract, or
`Inv(s) <==> ...` in the relation of `VfsOps` that the contract names, gives the guard of the branch that breaks it.
After a file was written past its end or past a full disk nothing is claimed of that file.

## What turned out false of the code

Each of these is stated with its exact condition; where one case shows it best, the case is a member of its own.

* `free_page` on a page that is already free puts it on the list twice (`ReleaseKeepsConsistentIff`, `DoubleFree`).
  A memory that ends on a page boundary has one page that is never handed out, although its count is zero
  (`BuiltConsistentIff` and the constructor of `PageAllocator`).
* `user_vm_unmap` frees a page before it clears the entry, and `do_fork` maps the child before it protects the
  parent. In between, a free page is mapped, and a writable page is mapped twice (`FreeWhileMapped`,
  `SharedWhileWritable`). `FreePages` and `WritableAlone` say that this happens in those windows only.
* `do_fork` maps the parent's code into the child without counting the pages, and `sys_user_free_page` releases any page
  that is mapped. Once a process frees a code page that another maps, that page is free and mapped for good, and two
  processes can come to share a writable page (`FreeCodeDanglesIff`, `CodeFreedTwice`). In every run in which no code is
  freed, all that is said about copy-on-write holds (`TameIsCow`, `TameIsolated`).
* The filter of `do_fork` has 32 ints, of which 32 bytes are cleared. A heap of up to eight pages is shared in full; from
  the ninth on, a page is left out wherever the stack happened to hold something (`SharedPages`, `PageLost`).
* `user_va_to_pa` keeps 46 bits of the page number (`TranslationsAgreeIff`, `HighPageLost`). This kernel's memory ends far
  below the first page that this loses, so the case does not arise in it (`TranslationsAgreeInMemory`).
* `user_better_malloc` wraps around for sizes near 2^64 and takes a stack page at `heap_top` for a heap page
  (`Malloc`, `UnsafeBreaks`, `WrapRun`). A store fault with no page left maps physical page zero, and one below the heap
  maps a page there (`DemandFault`).
* `user_better_malloc` takes the descriptor of a free block for a new block or for what is left of one, and so forgets
  the free block; its bytes belong to no block any more (`Malloc`, `ForgottenIff`, `BlockLost`).
* `wait` looks for dead children and blocks in two steps, so two harts can lose a wake-up for good (`LostWakeup`,
  `BlockLosesIff`). Exit wakes a parent that is still queued on a semaphore (`ExitKeepsIff`, `TwoQueues`). `wait` reports a
  dead child but keeps it, so once a child is dead, every later `wait` that asks for it returns at once
  (`ReportedForEver`).
* `rfs_write` leaves stale bytes behind its data in the last block unless it had read that block (`TailByte`,
  `LostTail`), and `rfs_read` hands data out with `strcpy` (`WriteThenRead`).
* Every create and mkdir uses up one block for ever, so there are at most 99 in the life of a volume
  (`BirthsBounded`); the last unlink gives back only the blocks that were written back (`RfsBlocks.Volume.Unlink`).
* Path lookup does not ask whether it is in a directory. Where the bytes of a file spell a name, the path is led astray:
  a dentry is cached under the file. Where they do not, the name counts as missing, and then `link` succeeds and raises
  the link count without an entry, while `open` with O_CREAT and `mkdir` fail after they have written an inode that no
  entry names (`Vfs.Vfs.Open`, `Vfs.Vfs.Mkdir`, `Vfs.Vfs.Link`, `LinkUnderFile`). So link counts equal the number of
  entries after every sequence of calls in which no path is led astray, nothing is made or linked under a file, and no
  directory is full; `StrayBreaks`, `OrphanBreaks` and `OvercountBreaks` say why nothing less will do.
* `unlink` of a path led astray takes a link from an inode that loses no entry. The assertion at the end of `vfs_unlink`
  fails if and only if that was the last link and the inode's vinode had a dentry before or was on the path itself;
  the invariant is back at the end if and only if only the last name was misread, for an inode that is not in use and
  reads as a file with one link (`Vfs.Vfs.Unlink`, `UnlinkThroughFile`, `UnlinkUnused`).
* A directory has one block: the 129th entry goes to an address that was never set, after the inode was written or
  the link counted (`Overrun` in the same three contracts, and `RfsDir.AddEntry`).
* `rfs_unlink` reads through a null pointer when the directory has no entries (`RfsDir.Unlink`).
* Creating a path whose missing directory has the same name as its last part makes a file in the wrong place
  (`CreatedPath`, `SameNameTwice`).

The comments in the source describe `rfs_write`, `wait` and `vfs_open` as if these cases did not arise; the model
follows the code.

## Model

| member | source | states |
|---|---|---|
| Pmm.PageAllocator.constructor | kernel/pmm.c:38-43 | the pages p with p + PGSIZE below the limit are on the free list, once each and highest first, all counts are zero; the list holds every page of count zero if and only if the limit is not on a page boundary or there is no memory at all |
| Pmm.PageAllocator.AllocPage | kernel/pmm.c:74-95 | list and counters change as the abstract `Take` does: the head leaves with count one; null exactly when the list is empty |
| Pmm.PageAllocator.FreePage | kernel/pmm.c:48-68 | list and counters change as the abstract `Release` does; it panics, with nothing changed, exactly for a misaligned or foreign address |
| Pmm.PageAllocator.IncPageRef | kernel/pmm.c:130-140 | the counter changes as the abstract `Retain` does, 16-bit wrap-around included |
| Pmm.PageAllocator.GetPageRef | kernel/pmm.c:147-157 | the counter of the page, zero outside the managed range |
| PmmSpec.TakeKeepsConsistent | kernel/pmm.c:74-95 | a page is handed out once: the list stays duplicate-free and holds exactly the pages with count zero |
| PmmSpec.ReleaseKeepsConsistentIff | kernel/pmm.c:48-68 | freeing keeps the list duplicate-free and exact if and only if the page is not free already |
| PmmSpec.DoubleFree | kernel/pmm.c:48-68 | freeing the only page of a fresh allocator puts it on the list twice |
| PmmSpec.BuiltConsistentIff | kernel/pmm.c:38-43 | an allocator of m counters whose list holds the first n pages is exact if and only if n = m |
| PmmSpec.RetainKeepsConsistentIff | kernel/pmm.c:130-140 | taking a reference keeps the list exact if and only if the page is in use and its counter does not wrap |
| PmmSpec.ReleaseUndoesTake | kernel/pmm.c:48-95 | freeing the page just allocated gives the allocator back as it was |
| PmmLock.StepInv | kernel/riscv.h:267-281 | every single memory access of any hart keeps the lock word, the list in memory, the counters and all owners in agreement |
| PmmLock.RunInv | kernel/pmm.c:48-95 | that agreement holds in every state of every interleaved run |
| PmmLock.BootIsInit | kernel/pmm.c:38-43 | the list in memory, the counters and the lock word that the boot code leaves are an initial state of the interleaved runs |
| PmmLock.MutualExclusion | kernel/riscv.h:267-281 | in every reachable state at most one hart is inside the critical section |
| PmmLock.RefinesAtomic | kernel/pmm.c:48-95 | each step changes the atomic allocator not at all or by exactly the operation the hart is in, and whenever the lock is free the memory is the atomic allocator's state |
| PmmLock.CallTakesEffectOnce | kernel/pmm.c:48-157 | in every run, each call from its start to its unlock has exactly one step that changes or reads the atomic allocator; that step does the whole operation called for, and what the call returns - page, null or count - is its result |
| PmmLock.FreshPageIsOwnedOnce | kernel/pmm.c:74-95 | the page `alloc_page` returns is held by no client and is the subject of no other hart's call |
| PmmLock.NullOnlyWhenEmpty | kernel/pmm.c:74-95 | a null result means the atomic list was empty at the moment the head was read |
| CowInvariant.InitInv | kernel/pmm.c:101-128 | the initial states satisfy the copy-on-write invariant |
| CowSteps.StepInv | kernel/strap.c:149-189 | every step of every hart - byte of a copy, count, entry write, drop, fork step, page allocation, release of any heap page or page mapped by a fault, load, store - keeps the invariant |
| CowSteps.RunInv | kernel/process.c:500-537 | the invariant holds in every state of every interleaved run, for every content of the filter that a fork finds on its stack |
| CowSteps.CountBound | kernel/process.c:463-472 | in every reachable state a count is at most the number of process slots, so the 16-bit counter never wraps |
| CowRefinement.StepSimulates | kernel/strap.c:149-189 | each step of any hart is one step, or none, of the system whose fork copies heap pages |
| CowRefinement.ForkSimulates | kernel/process.c:500-537 | when the fork loop ends the child sees a copy of exactly the pages the copying fork copies - all heap pages but the reclaimed ones and those marked by accident -, whatever other harts did meanwhile |
| CowRefinement.CowRefinesEager | kernel/strap.c:149-168 | for every run, the events - every loaded value among them - are the events of a run of the copying system |
| CowRefinement.StoreIsolated | kernel/strap.c:149-168 | a store by one process changes no byte any other process sees |
| CowProgress.GoesOnIff | kernel/strap.c:149-189 | in a valid state a hart inside a fault or call can take its next step if and only if it needs no page or one is free |
| CowProgress.StoreOrFault | kernel/strap.c:149-189 | a store below `heap_top` goes through or traps, never both and never neither |
| CowProgress.CopiesIff | kernel/strap.c:154-157 | a copy-on-write fault goes on to copy if and only if somebody else holds a reference to the page |
| CowProgress.SoleKeepsPage | kernel/strap.c:163-166 | the last owner gets its own page back writable, without the copy-on-write mark and without a page taken |
| CowProgress.CallEnds | kernel/process.c:500-537 | in every run, a hart inside a fault, an allocation, a release or a fork is through once it has taken a known number of steps of its own, whatever the other harts do; then the store is possible, the page is gone or the child is born |
| CowProgress.FaultEnds | kernel/strap.c:149-189 | a store fault at a page is over after at most PGSIZE + 4 steps of its hart, and then a store to every byte of the page goes through |
| CowProgress.AllocMaps | kernel/syscall.c:108-132 | an allocation gives the page reclaimed last or else the one at `heap_top`, writable at once; the process is killed instead if and only if that page is already mapped, which never happens at `heap_top`; no other entry changes |
| CowProgress.HeapCovered | kernel/syscall.c:108-147 | in every run each page between the bottom and the top of a heap is mapped, reclaimed, or was left out by the filter of some fork |
| CowProgress.LeavesDeadIff | kernel/sched.c:241-255 | a process that leaves its hart is dead if and only if it exits or frees a page that is not mapped |
| CowProgress.DeadForGood | kernel/process.c:463-472 | a dead process is never again on a hart |
| CowProgress.ChildRuns | kernel/process.c:583-589 | the moment a fork ends, every idle hart can run the child |
| CowFork.SharedPages | kernel/process.c:500-531 | in every run a fork gives the child exactly the mapped heap pages of the parent that are neither reclaimed nor marked by accident, and with a heap of at most eight pages all that are not reclaimed |
| CowFork.PageLost | kernel/process.c:505-506 | a run in which a parent with nine heap pages and none reclaimed forks a child without the ninth |
| CowCode.TameIsCow | kernel/process.c:548-551 | with code pages mapped by the loader and copied by fork, uncounted, every run in which no process frees code is a run of the copy-on-write machine |
| CowCode.CodeStays | kernel/process.c:548-551 | in such a run every page of code stays out of the free list and out of all heaps |
| CowCode.TameApart | kernel/strap.c:170-189 | in such a run no entry of code is where the heap has or is about to make one |
| CowCode.TameIsolated | kernel/strap.c:149-168 | in such a run a store by one process changes no code, and no byte any other process sees |
| CowCode.FreeCodeDanglesIff | kernel/syscall.c:140-147 | the first release of a code page leaves an entry that maps a free page if and only if another entry maps that page |
| CowCode.CodeFreedTwice | kernel/syscall.c:140-147 | a run in which child and parent free the same code page and get it back as data; then a store by the one changes what the other reads |
| CowAccounting.CountExact | kernel/pmm.c:130-157 | at every step the count of a page plus the entries not yet, or no longer, counted equals its mappings plus the references harts and kernel hold |
| CowAccounting.WritableAlone | kernel/vmm.c:273-300 | a writable entry shares its page only while a hart is inside fork or unmap on one of the two entries |
| CowAccounting.FreePages | kernel/vmm.c:211-240 | a page is on the free list exactly when its count is zero, once; an entry maps a free page exactly while a hart stands between freeing and clearing it |
| CowAccounting.ReleasedWhileCounted | kernel/pmm.c:48-68 | in no run is a page released whose count is zero, so none enters the list twice |
| CowAccounting.FreeWhileMapped | kernel/vmm.c:233-238 | a run in which a page is free and mapped at once |
| CowAccounting.SharedWhileWritable | kernel/process.c:527-529 | a run in which a writable page is mapped by two processes |
| Sv39.IndicesDetermineVpn | kernel/riscv.h:216-229 | two virtual pages below MAXVA with the same three indices are the same page |
| Sv39.EntryRoundTrip | kernel/riscv.h:211-217 | a page address and ten flag bits survive packing into an entry and unpacking |
| Sv39.TablesNotShared | kernel/vmm.c:60-101 | in a well-formed tree two pages reach the same leaf table only if both upper indices agree |
| Sv39.WriteLeaf | kernel/vmm.c:60-101 | writing one leaf entry keeps the tree and changes the entry of no other page |
| Sv39.GraftMid | kernel/vmm.c:84-96 | hanging a zeroed page under the root keeps the tree and every translation |
| Sv39.GraftLeaf | kernel/vmm.c:84-96 | hanging a zeroed page under a middle table keeps the tree and every translation |
| VmmRange.HardwareAgrees | kernel/vmm.c:60-101 | the entry `page_walk` finds is the one that the translation of Sv39 reaches, nine bits of the address a level |
| VmmRange.PointerFlags | kernel/vmm.c:84-96 | the entry of a new table page is valid and has no other flag, so the hardware takes it for a pointer |
| Vmm.ProtToType | kernel/vmm.c:40-54 | which entry bits each protection gives: unreadable and unwritable requests become readable, write sets dirty, the result is neither valid nor copy-on-write |
| Vmm.PageTable.constructor | kernel/vmm.c:60-101 | a zeroed root page is a well-formed tree in which nothing is mapped |
| Vmm.PageTable.PageWalk | kernel/vmm.c:60-101 | finds the leaf entry of the page or null; allocating on the way changes no translation and takes only pages from the free list |
| Vmm.PageTable.MapPages | kernel/vmm.c:20-35 | the flat table becomes the old one with the first k pages of the range mapped in order, and exactly why it stopped at k |
| Vmm.PageTable.MapCow | kernel/vmm.c:286-300 | the flat table becomes the old one with the first k pages mapped; each of them is valid, readable, accessed, for the user and marked copy-on-write, is neither writable nor executable nor dirty, and has the physical page asked for |
| Vmm.PageTable.SetCow | kernel/vmm.c:273-279 | only the entry of that page changes, to the protected one, and an unmapped page stays unmapped |
| Vmm.PageTable.Unmap | kernel/vmm.c:211-240 | the first k pages of the range are cleared in order and their physical pages handed out in order; it stops at k exactly at a missing, invalid or non-leaf entry |
| Vmm.MappedElsewhere | kernel/vmm.c:20-35 | page j of the range gets the j-th physical page and every other page below MAXVA translates as before |
| Vmm.ClearedElsewhere | kernel/vmm.c:211-240 | every page outside the range translates as before |
| Vmm.UnmapUndoesMap | kernel/vmm.c:199-240 | mapping an unmapped range and unmapping it gives the flat table back |
| Vmm.ProtectedEntry | kernel/vmm.c:273-279 | the protected entry keeps page, validity and readability, loses write, gains the copy-on-write mark |
| Vmm.LeafFlags | kernel/vmm.c:20-35 | the flags of the entry `map_pages` writes are those asked for, and valid |
| Vmm.PagesAre | kernel/vmm.c:231-235 | the j-th page handed to `free_page` is the one the j-th entry of the range had |
| VmmRange.ProtectedFlags | kernel/vmm.c:273-279 | of all flags only write and the copy-on-write mark change, and the page stays |
| VmmRange.FaultRestores | kernel/strap.c:163-166 | giving the right to write back to a protected entry that was writable and dirty gives the entry it was |
| VmmRange.HeapEntry | kernel/vmm.c:40-54 | a heap page is mapped readable, writable, dirty, accessed and for the user, and comes back so after a fork and a store |
| VmmRange.RangeIs | kernel/vmm.c:20-35 | `map_pages` goes over exactly the pages that hold a byte of the range |
| VmmRange.UnmapRangeIs | kernel/vmm.c:211-240 | so does `user_vm_unmap` |
| VmmRange.MappedTranslates | kernel/vmm.c:20-35 | after a completed mapping every address of the range leads as far behind the physical address as it lies behind the virtual one |
| VmmRange.ClearedIsGone | kernel/vmm.c:211-240 | after a completed unmapping no address of the range leads anywhere |
| VmmRange.UnmapReleasesMapped | kernel/vmm.c:199-240 | unmapping a range right after mapping it hands out the very pages that were mapped, in order |
| Vmm.MappedIsFound | kernel/vmm.c:106-120 | `lookup_pa` after `map_pages` returns the page that was mapped |
| Vmm.TranslationsAgreeIff | kernel/vmm.c:175-194 | on a readable mapping `user_va_to_pa` equals `lookup_pa` plus the offset if and only if the page lies below 2^58 |
| Vmm.TranslationsAgreeInMemory | kernel/vmm.c:175-194 | on a readable mapping of a page below PHYS_TOP the two translations agree |
| Vmm.HighPageLost | kernel/vmm.c:175-194 | a page at 2^58, where this kernel has no memory, is found by `lookup_pa` and translated to address zero plus the offset by `user_va_to_pa` |
| HeapLists.DListPush | kernel/process.c:263-267 | linking a node in front of a doubly linked list gives the list with that node first |
| HeapLists.DListUnlink | kernel/process.c:98-105 | joining a node's neighbours gives the list without that node, for any position |
| UserHeap.Heap.constructor | kernel/process.c:83-92 | an empty heap is valid and nothing of it is mapped |
| UserHeap.Heap.FindFit | kernel/process.c:91-95 | the first free block large enough, or none |
| UserHeap.Heap.Reuse | kernel/process.c:91-167 | the block serves the request at its own address, the rest stays free, all other live blocks stay; it fails if and only if the free pages are fewer than the pages it lacks and the descriptor it needs, and takes exactly those; failure leaves all blocks as they were, this one first in the free list |
| UserHeap.Heap.Grow | kernel/process.c:169-268 | the block starts at the old `heap_top`; the heap is valid afterwards exactly when the request was safe; failure unmaps what was mapped |
| UserHeap.Heap.Malloc | kernel/process.c:83-268 | a null result changes no live block; any other adds exactly the block returned, keeps mapped pages, and keeps both lists well formed and all blocks disjoint, inside the heap and backed by pages if and only if a free block fitted or the request was safe; the first free block that fits serves the request, what is left of it becomes the first free block, and the pages taken are those it lacked; when the heap must grow, null means that the free pages do not suffice and a block takes exactly the pages it needs; it is killed only when the new pages run into something mapped; the bytes of the heap that no block has grow by exactly the block whose descriptor is taken |
| UserHeap.UnsafeBreaks | kernel/process.c:169-268 | whatever else the heap looks like, a live block granted to an unsafe request makes it invalid |
| UserHeap.ForgottenIff | kernel/process.c:129-155 | a request forgets no free block if and only if it is served in full by a free block, or no other block is free |
| UserHeap.BlockLost | kernel/process.c:169-268 | a run: after two blocks, a free and a larger request eight bytes of the heap belong to no block, live or free |
| UserHeap.WrapRun | kernel/process.c:169-268 | with any four free pages, eight bytes and then 2^64 - 1 bytes are both granted on a fresh heap; `heap_top` ends below the first block's end and the heap is broken |
| UserHeap.Heap.PageInUse | kernel/process.c:273-282 | true exactly when some live block touches the page |
| UserHeap.Heap.ReleasePages | kernel/process.c:317-325 | exactly the pages of the freed block that no live block touches are unmapped and their physical pages freed, and unmapping never meets an unmapped page |
| UserHeap.Heap.Free | kernel/process.c:284-325 | the live block at the address, if any, becomes the first free one and no other changes; no byte of the heap is lost; the free pages grow by exactly the pages unmapped; with no failed allocation and no demand fault, pages stay mapped only for live blocks |
| UserHeap.Heap.DemandFault | kernel/strap.c:183-188 | a store below `heap_top` to a page that is not a mapped heap page, below the heap included: killed if and only if something else is mapped there, otherwise the page is mapped and no other mapping changes; the heap stays valid unless the fault is in the heap and no page was left, when physical page zero is mapped |
| UserHeap.LiveBlocksSound | kernel/process.c:83-325 | in a valid heap live blocks never overlap and every byte of one is on a mapped page below `heap_top` |
| Sched.FirstFree | kernel/process.c:353-370 | the first free slot of the process table, or its end |
| Sched.FirstUnused | kernel/process.c:654-667 | the first unused semaphore, or the end of the table |
| SchedQueues.StepKeeps | kernel/sched.c:146-255 | every step whose dying process has no parent on a semaphore keeps the queue invariant |
| SchedQueues.RunInv | kernel/sched.c:146-255 | the queue invariant holds in every state of every such run |
| SchedQueues.QueueDiscipline | kernel/sched.c:146-239 | no process is in two queues or twice in one; ready-queued means READY, semaphore-queued means BLOCKED, running means in no queue |
| SchedPlaces.RunPlaced | kernel/sched.c:146-239 | in every state of every run a READY process is in the ready queue or on a hart, and a RUNNING one on a hart |
| SchedPlaces.WhereItIs | kernel/sched.c:146-239 | the status of a process says where it is: READY in the ready queue or on a hart but not both, RUNNING on a hart, BLOCKED in the queue of exactly the semaphore it waits for or waiting for a child, FREE or ZOMBIE nowhere |
| SchedPlaces.ReadyRuns | kernel/sched.c:191-217 | every READY process that is on no hart runs with the NPROC-th dispatch at the latest, and until then no hart takes more than TIME_SLICE_LEN * NPROC timer ticks |
| SchedQueues.ExitKeepsIff | kernel/syscall.c:81-101 | an exit keeps the discipline if and only if the parent is not queued on a semaphore |
| SchedWait.TwoQueues | kernel/syscall.c:81-101 | a run after which an exit puts the parent in the ready queue while it stands in a semaphore's queue |
| SchedQueues.ShutdownOnlyWhenDone | kernel/sched.c:138-144 | when the machine shuts down every slot is FREE or ZOMBIE, all queues are empty and no hart runs a process; the hart halts and nothing else changes |
| SchedPlaces.ShutdownPossible | kernel/sched.c:191-217 | once every slot is FREE or ZOMBIE, every idle hart can shut the machine down |
| SchedScan.PassedForGood | kernel/sched.c:138-144 | once the scan, one slot at a time with other harts running in between, has passed slot k, slots 0 to k stay FREE or ZOMBIE for ever |
| SchedScan.ScanIsRight | kernel/sched.c:138-144 | a scan that reads each slot at a moment of its own and answers yes is right when it ends and ever after, in every run from a table filled from slot zero on |
| SchedLiveness.SemConservation | kernel/process.c:654-717 | over any stretch of any run, value minus queue length changes by V calls minus P calls, sleepers wake in the order in which they went to sleep, the value stays non-negative and is zero while the queue is not empty |
| SchedLiveness.HistoryNonNegative | kernel/process.c:669-717 | a value that starts non-negative stays so over every history |
| SchedLaws.NewSem | kernel/process.c:654-667 | sem_new takes the first unused semaphore with the value asked for and an empty queue, and changes nothing else |
| SchedLaws.SemFromCreation | kernel/process.c:654-717 | from its creation on, value minus sleepers is the initial value plus the V calls minus the P calls; from a start that is not negative no more P calls have got through than the initial value and the V calls allow |
| SchedLaws.PBlocksIff | kernel/process.c:669-698 | a P call blocks if and only if as many came before it as the initial value and the V calls allow; without a V the first max(init, 0) go through and every later one blocks |
| SchedLiveness.NeverMovesBack | kernel/sched.c:146-217 | a process at place k of the ready queue is at place k - d after d dispatches by any harts |
| SchedLiveness.DispatchedInTurn | kernel/sched.c:191-217 | the dispatch after k others runs the process from place k |
| SchedLiveness.BoundedWaiting | kernel/strap.c:101-116 | while a process waits at place k no hart takes more than TIME_SLICE_LEN * (k + 1) timer ticks |
| SchedLaws.TicksAreCounted | kernel/strap.c:101-116 | the tick count of a process is the number of ticks it has ever taken, modulo TIME_SLICE_LEN |
| SchedLaws.RetiredIff | kernel/strap.c:101-116 | a process is retired to the end of the ready queue by every TIME_SLICE_LEN-th tick it takes and by no other tick |
| SchedLaws.YieldRetires | kernel/syscall.c:177-189 | yield frees the hart and makes the caller the READY last of the ready queue; nothing else changes |
| SchedLaws.ForkMakes | kernel/process.c:583-589 | a fork makes one READY process, last in the queue, whose parent is the caller, and changes nothing else |
| SchedLaws.ParentIffForked | kernel/process.c:583-589 | in every run q is the parent of c if and only if a fork by q made c |
| SchedLaws.TakenForGood | kernel/process.c:463-472 | a slot of the process table that was taken is never free again |
| SchedLaws.ExitEnds | kernel/syscall.c:81-101 | an exit, or a P or V on a semaphore that is not in use, makes the process a ZOMBIE; a BLOCKED parent becomes the READY last of the ready queue, and no other process changes |
| SchedLaws.ZombieForGood | kernel/process.c:463-472 | a ZOMBIE stays one |
| SchedLaws.WaitSleepsIff | kernel/syscall.c:338-376 | wait returns at once if and only if it asks for no child of the caller or for one that is dead |
| SchedLaws.SleepsNow | kernel/syscall.c:353-367 | otherwise the next step makes the caller BLOCKED and frees the hart |
| SchedLaws.ReportedForEver | kernel/syscall.c:338-376 | once a child is dead, every later wait that asks for it returns at once |
| SchedWait.NoLostWakeup | kernel/syscall.c:338-376 | in runs in which no child exits between its parent's search and block, no process sleeps for a child that is already dead |
| SchedWait.OneHartLosesNone | kernel/syscall.c:338-376 | with one hart no run loses a wake-up |
| SchedWait.ChecksBrokenIff | kernel/syscall.c:81-101 | a death invalidates a parent's finished search if and only if it comes after the search and before the block |
| SchedWait.BlockLosesIff | kernel/syscall.c:338-376 | blocking loses a wake-up if and only if the search no longer holds |
| SchedWait.LostWakeup | kernel/syscall.c:338-376 | a run of two harts after which the parent sleeps, the child is dead, no step is possible and the machine never shuts down |
| SchedKernel.Kernel.constructor | kernel/process.c:329-346 | the cleared process and semaphore tables stand for an initial state of the abstract scheduler |
| SchedKernel.Kernel.Load | kernel/kernel.c:136-140 | a program loaded at boot takes the first free slot and the end of the ready queue, and the state is still an initial one |
| SchedKernel.Kernel.InsertToReadyQueue | kernel/sched.c:146-187 | the linked ready queue changes as the abstract insertion does: at the end, once, never for a dead process |
| SchedKernel.Kernel.Yield | kernel/syscall.c:177-189 | the linked kernel takes the abstract yield step |
| SchedKernel.Kernel.Tick | kernel/strap.c:101-116 | the linked kernel takes the abstract timer step |
| SchedKernel.Kernel.Fork | kernel/process.c:583-589 | the linked kernel takes the abstract fork step in the first free slot |
| SchedKernel.Kernel.SemNew | kernel/process.c:654-667 | the linked kernel takes the abstract step; -1 exactly when no semaphore is left |
| SchedKernel.Kernel.SemP | kernel/process.c:669-698 | the linked kernel takes the abstract P: a value goes down, or the process joins the end of the wait queue |
| SchedKernel.Kernel.SemV | kernel/process.c:700-717 | the linked kernel takes the abstract V: a value goes up, or the head of the wait queue joins the ready queue |
| SchedKernel.Kernel.KillCurrent | kernel/sched.c:241-255 | the linked kernel takes the abstract exit step |
| SchedKernel.Kernel.Dispatch | kernel/sched.c:191-217 | the linked kernel takes the abstract dispatch of the head of the queue |
| SchedKernel.Kernel.WaitCheck | kernel/syscall.c:338-370 | reports a dead child the call waits for whenever there is one, -1 exactly for a bad target, and takes the abstract search step |
| SchedKernel.Kernel.WaitBlock | kernel/syscall.c:370-376 | the linked kernel takes the abstract blocking step |
| SchedKernel.Kernel.AllProcessDone | kernel/sched.c:138-144 | true exactly when every slot is FREE or ZOMBIE |
| HashTable.Table.constructor | util/hash_table.c:46-60 | the empty table stands for the empty map |
| HashTable.Table.Get | util/hash_table.c:21-30 | the value of the key in the map, or null exactly when the key is absent |
| HashTable.Table.Put | util/hash_table.c:7-19 | a present key is refused and changes nothing; an absent one is added and no other key changes |
| HashTable.Table.Erase | util/hash_table.c:32-44 | an absent key is refused; a present one is removed and no other key changes |
| RamDev.Device.Read | kernel/ramdev.c:31-38 | the buffer becomes the block; a number outside the disk kills and changes nothing |
| RamDev.Device.Write | kernel/ramdev.c:19-26 | the block becomes the buffer and no other block changes |
| RfsDir.Search | kernel/rfs.c:481-510 | the first entry with the name, or none, whatever blocks the entries are spread over |
| RfsDir.RemoveAt | kernel/rfs.c:727-770 | for any number of blocks and any index, the flattened entries become the same sequence without that entry; no other block of the disk changes |
| RfsDir.Unlink | kernel/rfs.c:666-789 | the first entry with the name is removed, and the last block is given back exactly when it is empty and not the only one; a missing name changes nothing; a null pointer is read exactly when the directory has no entries |
| RfsDir.BlockCountKept | kernel/rfs.c:771-781 | blocks = max(1, ceil(entries / 128)) before a removal gives the same after it |
| RfsDir.AddEntry | kernel/rfs.c:229-269 | with room the entry becomes the last one and no other block changes; without it the block at the unset address is written, or the process is killed if that lies off the disk |
| RfsDir.RemoveUndoesAdd | kernel/rfs.c:229-269 | adding a new name and removing it by name gives back the entries |
| RfsNames.SearchIsMapLookup | kernel/rfs.c:481-510 | the first entry with a name is what the entry map of the whole volume holds under that name, and there is none exactly when the map has none |
| RfsNames.AddIsMapAdd | kernel/rfs.c:229-269 | appending an entry with a new name adds exactly that name to the entry map and keeps names unique |
| RfsNames.RemoveIsMapRemove | kernel/rfs.c:727-786 | removing entry i by shifting removes exactly its name from the entry map and keeps names unique |
| RfsNames.StepsAgree | kernel/rfs.c:516-661 | create, mkdir and link change the map of the VFS model as they change the entry sequence on disk |
| RfsNames.UnlinkAgrees | kernel/rfs.c:666-789 | so does unlink |
| RfsFree.AllocBlock | kernel/rfs.c:197-215 | the first free block is marked used, which leaves one fewer; -1 exactly when none is free |
| RfsFile.File.Write | kernel/rfs.c:396-473 | the bytes up to offset + length are the old ones below the offset followed by the data, later blocks and all blocks of others stay, size and block count are exact, and what the last block holds behind the data; no space if and only if the free blocks are fewer than the blocks it lacks, of which it asks for eleven in all at most; an overrun if and only if they suffice and it needs more than ten; a bad offset is refused |
| RfsFile.TailByte | kernel/rfs.c:455-463 | for every completed write, each byte behind the data in its last block equals one computed from the state before: the old byte if the write filled or had read the block, else a stale one |
| RfsFile.LostTail | kernel/rfs.c:455-463 | one byte written by `rfs_write` to a full block zeroes the other 4095 |
| RfsFile.File.Read | kernel/rfs.c:337-391 | the bytes of the file from the offset on, as many as were asked for or to the end of the file, cut at the first NUL; exactly when the always-fetched first block kills the process or lies outside addrs |
| RfsFile.WriteThenRead | kernel/rfs.c:337-473 | reading back a completed write gives the data cut at its first NUL: all of it if and only if it holds none |
| RfsFile.WriteThenReadOn | kernel/rfs.c:337-473 | a request for more than was written gets the data and what follows them to the end of the file, cut at the first NUL; after a write that reaches the end, the data alone |
| RfsFile.SysWrite | kernel/syscall.c:225-241 | a request cut at the page boundaries of any user buffer leaves the prefix, the size, the later blocks and everything outside the file as one write does |
| RfsInode.RoundTrip | kernel/rfs.c:159-192 | a disk inode of 32-bit fields survives being written as bytes and read again, up to addresses it does not use |
| RfsInode.ReadDinode | kernel/rfs.c:159-171 | the inode decoded from the bytes of its place in the inode blocks |
| RfsInode.WriteDinode | kernel/rfs.c:178-192 | the inode's place holds the bytes of the inode; no other inode and no block outside the inode area changes |
| RfsInode.WriteBack | kernel/rfs.c:284-304 | who reads the inode after a write-back finds the size, the link count, the blocks and their addresses; no other inode and no data block changes |
| RfsInode.Reopen | kernel/rfs.c:309-330 | what was written back at close gives, at the next open, the same link count and a file of the same size with the same bytes |
| RfsInode.WriteCloseOpenRead | kernel/rfs.c:284-473 | data of a completed write, written back at close, are read back after a new open, cut at the first NUL: all of it if and only if it holds none; size and link count come back too |
| RfsBlocks.Volume.constructor | kernel/rfs.c:104-133 | a formatted volume owns one block, for the root |
| RfsBlocks.Volume.FindFree | kernel/rfs.c:516-534 | the first free inode; the search never fails in any reachable state |
| RfsBlocks.Volume.Create | kernel/rfs.c:516-575 | a free inode and a free block are used; a file does not list its block, a directory does; refused exactly when no block is free |
| RfsBlocks.Volume.Load | kernel/rfs.c:309-330 | the vinode of an uncached inode lists the blocks the disk lists |
| RfsBlocks.Volume.Grow | kernel/rfs.c:436-443 | the vinode gets a block that was free, the disk inode none; no space if and only if no block is free, an overrun if and only if one is and the vinode has ten |
| RfsBlocks.Volume.WriteBack | kernel/rfs.c:284-304 | the disk inode lists the vinode's blocks |
| RfsBlocks.Volume.Close | kernel/vfs.c:537-548 | written back and forgotten, with ownership as before |
| RfsBlocks.Volume.Unlink | kernel/rfs.c:706-722 | the last link of a file frees exactly the blocks the disk inode lists, all its own; earlier links free nothing |
| RfsBlocks.OwnershipDisjoint | kernel/rfs.c:197-224 | in every reachable state blocks of different inodes differ and all are marked used |
| RfsBlocks.BirthsBounded | kernel/rfs.c:551-555 | all creates and mkdirs ever done, and the root, are at most as many as used blocks, hence at most 100 |
| RfsBlocks.LiveBounded | kernel/rfs.c:516-575 | live inodes are at most as many as used blocks |
| RfsBlocks.FreeInodeExists | kernel/rfs.c:884-899 | one of the first 101 of the 320 inodes is free |
| VfsState.BackingDistinct | kernel/vfs.c:701-749 | different cached dentries stand for different directory entries |
| VfsState.LinksShareVinode | kernel/vfs.c:730-744 | dentries of one inode number point at one and the same vinode |
| VfsState.RefAtMostLinks | kernel/vfs.c:423-434 | a vinode's reference count is at most the link count, which is the number of entries naming the inode |
| VfsState.StrayBreaks | kernel/rfs.c:481-510 | a dentry under something that is no directory breaks the invariant |
| VfsState.OrphanBreaks | kernel/rfs.c:544-575 | an inode written without an entry breaks it |
| VfsState.OvercountBreaks | kernel/rfs.c:657-660 | a link counted without an entry breaks it |
| VfsSteps.AddDentryKeeps | kernel/vfs.c:807-823 | a dentry for an entry that had none keeps the cache invariant, one dentry per directory included |
| VfsSteps.DropDentryKeeps | kernel/vfs.c:534-540 | dropping the dentry of a file nobody has open keeps the invariant |
| VfsSteps.AddVinodeKeeps | kernel/vfs.c:739-744 | a vinode read from disk for an uncached inode keeps the invariant |
| VfsSteps.DropVinodeKeeps | kernel/vfs.c:542-548 | dropping an unreferenced vinode keeps the invariant |
| VfsSteps.NewNodeKeeps | kernel/rfs.c:516-575 | a new inode with its one entry keeps link counts exact |
| VfsSteps.LinkNodeKeeps | kernel/rfs.c:640-661 | one more entry and one more link, in vinode and disk inode, keep link counts exact |
| VfsSteps.UnlinkNodeKeeps | kernel/rfs.c:698-725 | removing an entry no dentry stands for keeps link counts exact and every dentry backed |
| VfsSteps.UnlinkReady | kernel/rfs.c:704 | whenever a file dentry is unlinked in a valid state, vinode and disk inode agree on the link count and the reference count is between one and it |
| VfsSteps.UnlinkKeeps | kernel/vfs.c:412-434 | the state after a whole unlink satisfies the invariant |
| Vfs.Vfs.constructor | kernel/vfs.c:57-117 | a fresh volume mounted as root is valid |
| Vfs.Vfs.LookupOne | kernel/vfs.c:717-750 | in any state a lookup can be in, a name is found, missing or unreadable as the bytes on disk say, cached or not, in a directory or a file; a hit is one round of the loop, anything else changes nothing |
| Vfs.Vfs.Lookup | kernel/vfs.c:701-756 | ends at the inode the walk over the disk ends at, or at the same first missing name under the same inode, or is killed where the walk is, through directories, files and unused inodes alike; from a valid state the invariant survives if and only if no name is read from a file; caches only grow |
| Vfs.Vfs.Open | kernel/vfs.c:128-223 | the outcome and the new disk state for every case of the disk walk, O_CREAT, mode, space and room, for the whole call even after a misread name; a success opens the inode the path leads to, or the new one; the invariant survives if and only if the path is not led astray and a new inode got its entry |
| Vfs.Vfs.Mkdir | kernel/vfs.c:618-665 | the same for making a directory, which under a file is refused with the inode already written |
| Vfs.Vfs.OpenDir | kernel/vfs.c:558-598 | succeeds exactly when the path leads to a directory in use; the invariant survives if and only if the path is not led astray |
| Vfs.Vfs.Close | kernel/vfs.c:511-553 | the disk tree is unchanged; the last close drops the dentry, and the vinode stays cached exactly when another dentry holds it |
| Vfs.Vfs.CloseDir | kernel/vfs.c:670-694 | only the open count of the directory's dentry goes down |
| Vfs.Vfs.Link | kernel/vfs.c:311-365 | succeeds exactly when the old path leads to a file, the new one misses a name equal to its last, and the place is a directory with room or no directory at all; then one link more, one dentry more, and one entry more only in a directory; the invariant survives if and only if no path that is followed is led astray and a counted link got its entry |
| Vfs.Vfs.Unlink | kernel/vfs.c:371-437 | for a path to a file that is not led astray, succeeds exactly when no open file holds that entry; then exactly that entry goes, and the inode with its last link, and both assertions of the source hold; on one that is, the inode loses a link and no entry, the last assertion fails if and only if the link was the last one and the vinode had a dentry before or lies on the path, and the invariant is back if and only if only the last name was misread, for an unused inode that reads as a file with one link |
| Vfs.LinkUnderFile | kernel/vfs.c:311-365 | with files /a and /x, link of /a to /x/y succeeds: /a has two links and one entry, and /x/y is cached though the disk does not have it |
| Vfs.UnlinkThroughFile | kernel/vfs.c:371-437 | with files /a and /x open and x holding the record of a name y for the inode of a, unlink of /x/y frees that inode while /a still names it, and the assertion fails |
| Vfs.UnlinkUnused | kernel/vfs.c:371-437 | with a record for an inode number in a data block that reads as a file with one link, unlink of /x/y succeeds and leaves the tree as it was and the state valid |
| VfsOps.StrayStays | kernel/vfs.c:701-756 | a dentry cached under a file stays one, and the invariant broken, through every step that drops no dentry and no vinode; open, mkdir, opendir and link consist of such steps after their lookups |
| VfsOps.BusyIff | kernel/vfs.c:405-409 | a dentry's open count is positive exactly when some open file stands for its entry |
| VfsWalk.CreatedPath | kernel/vfs.c:160-181 | after a create or mkdir in a directory the path leads to the new inode if and only if its last name was the missing one; otherwise it stops in the new inode |
| VfsWalk.SameNameTwice | kernel/vfs.c:160-181 | creating /x/x makes /x, and /x/x stops in it |
| VfsWalk.CreateKeepsPaths | kernel/vfs.c:170-181 | no path that led somewhere changes when an entry is added |
| VfsWalk.UnlinkKeepsPaths | kernel/vfs.c:412-434 | after an unlink a path still leads where it did unless its last step was the entry removed |
| VfsWalk.StaysAmongTheLiving | kernel/vfs.c:701-756 | a walk that starts at an inode in use and reads no name from a file passes and reaches inodes in use only |
| VfsLoose.RoundValid | kernel/vfs.c:717-750 | a round of the lookup loop keeps the invariant if it is in a directory; otherwise the dentry it returns is new, lies under a file and breaks it |
| VfsLookup.LastRef | kernel/vfs.c:756-762 | after a lookup led astray the vinode found is held by another dentry if and only if one stood for its inode before the call or the inode lies on the path |
| VfsLookup.AfterAstray | kernel/vfs.c:412-434 | the state after the unlink of a misread path satisfies the invariant if and only if only its last name was misread, for an unused inode that reads as having one link |
| VfsPath.TokensAreNames | util/string.c:77-99 | every token is non-empty and slash-free |
| VfsPath.SplitLaws | util/string.c:77-99 | in any text slashes count for nothing and each longest run of other characters is one token |
| VfsPath.Tokenizer.Next | util/string.c:77-99 | each call cuts off the first of the remaining names, or reports that none is left |
| VfsPath.Split | kernel/vfs.c:764-779 | the loop over strtok collects all names in order |
| VfsPath.TokensOfJoin | util/string.c:77-99 | splitting a text of slash-led names gives the names back |
| VfsPath.Rcwd | kernel/vfs.c:439-469 | the printed path is a slash before each name from the root down; it fits exactly below 30 characters |
| VfsPath.WalkChain | kernel/vfs.c:701-756 | the names of a chain of dentries lead over the disk to its end |
| VfsPath.RoundTrip | kernel/vfs.c:439-469 | looking up the printed path of a directory from the root finds that same dentry |

## Left out

- Boot, machine-mode traps, assembly, CSRs, TLB: hardware state; each return to user mode uses the current page table.
- Host interface, hostfs, console, ELF loading, backtraces, the user programs and the syscall dispatch table.
- exec's rebuild of an address space, and the stack and data segments in fork: they are not copy-on-write. Code is in `CowCode`.
- Kernel writes into user buffers through `lookup_pa`: they bypass the copy-on-write fault, so `StoreIsolated` is about user stores.
- Mixing the page-granular and the byte-granular heap in one process; page-table pages are not drawn from the heap model's free pages.
- Races in lock initialisation, in `alloc_process` and on the static pointer of `strtok`: each is one step.
- Semaphore calls take no lock in the source; each call is one step of the scheduler model.
- mount, lseek, stat and readdir: only easy members.
- A leading `.` or `..` part of a path: the start dentry is an argument of the lookup.
- Paths of 30 bytes or more: `lookup_final_dentry` copies the path into 30 bytes (kernel/vfs.c:704-726); the model has no bound.
- Several volumes at once: the VFS model has one RFS volume, mounted as root.
- Names longer than the 28 bytes of a directory entry, and addresses handed out by `alloc_page` for dentries: any unused number will do.
- CowSteps.RunInv: kernel pages may be taken, written and given back at any time, but the kernel's own data structures in them are not modelled. A hart that finds no free page stops there; the source does not look and goes on with page zero. The list of reclaimed pages and the filter of a fork are as long as they need be; in the source each has 32 entries, so a 33rd reclaimed page, a heap of more than 32 pages at a fork, or a reclaimed page that is not one of the first 32 heap pages reaches outside them.
- CowRefinement.CowRefinesEager: releases of code pages are not among the steps; `CowCode.TameIsCow` covers the runs without them and `CowCode.CodeFreedTwice` shows why. Releases of stack, data and trapframe pages are not modelled.
- CowRefinement.StoreIsolated: the same runs; `CowCode.TameIsolated` adds code pages.
- CowAccounting.ReleasedWhileCounted: the same runs.
- CowCode.TameIsCow: a store to a code page kills the process and is the step in which it leaves.
- PmmLock.RefinesAtomic: a hart calls `inc_page_ref` only while the counter is below its 16-bit limit; `CowSteps.CountBound` shows that the kernel never comes near it.
- SchedQueues.RunInv: covers the runs in which no process dies while its parent is queued on a semaphore; `ExitKeepsIff` shows that nothing less would do.
- SchedQueues.ShutdownOnlyWhenDone: takes the scan of the table as one step; `SchedScan.ScanIsRight` is about the scan slot by slot.
- RfsFile.File.Write: after an access behind `addrs` or with a full disk only the blocks of other files are described.
- Vfs.Vfs.Open: on `Overrun` the state is the one just before the access through the unset address; the same holds for `Mkdir` and `Link`. On `Garbage`, where the code goes on with the addresses of an unused inode that reads as a directory, the three say that the invariant is broken and nothing about the tree.
- Vfs.Vfs.Lookup: what the bytes of a file spell, and what lies at the place of an unused inode, are arguments. A misread record with a negative inode number is not modelled.
- Vfs.Vfs.Unlink: the records of the file through which a path was led, and the blocks an unused inode lists, are not in the VFS model; what `rfs_unlink` does to entries and blocks is in `RfsDir` and `RfsBlocks`. All operations ask for a valid state, so a call after one that broke it is not described; the unlink of a name cached under a file that has no entries is the null read of `RfsDir.Unlink`.
- UserHeap.Heap.Malloc: page-table pages are not drawn from the free pages, so a kill for lack of one is not described.
- UserHeap.Heap.DemandFault: a page mapped below the heap is not kept in the model's page map.
- RfsNames.StepsAgree: names are unique and inode numbers not negative, as the VFS keeps them.
