# A verified model of the xv6-riscv kernel's hard parts

This Dafny project models the parts of the kernel whose correctness is not plain from
reading one function, and proves what they are meant to guarantee:

- **Log and buffer cache** (`Disk`, `BufferCache`, `Readers`, `LogWrites`, `CommitSteps`,
  `LogProtocol`, `Log`, `Transaction`, `ShortLog`): a commit cut off after any block write,
  followed by recoveries that may be cut off too, leaves the file system either before or after
  the transaction. The reservations of `begin_op` protect every interleaving of operations, and
  the cache keeps one buffer per block and never recycles a pinned one. Put together: however
  operations of any number of processes, the disk writes of commits and other processes' reading
  interleave, from a boot that finds the log empty, a crash at any moment leaves each transaction
  whole or not at all, with the data last stored in its buffers; this for exactly those lengths
  of the log and numbers of buffers for which it is true.
- **Buddy allocator** (`CircularList`, `Buddy`, `BuddyBoot`, `BuddyAllocator`): free, live and
  boot-marked blocks tile the heap after every run from `bd_init` on, which carves exactly the
  available memory.
- **Page tables** (`PageTable`, `PageTree`, `PageCopy`, `UserMemory`, `VirtualMemory`): the
  three-level tree stands for a flat map and agrees with the hardware's walk; fork, demand
  allocation, `copyin`/`copyout` and teardown are stated in terms of that map, of the bytes a
  program sees, and of the frames handed back.
- **Files** (`Inode`, `FileWrites`, `TightWrite`, `FileCrash`, `FileSystem`, with `Bits` and
  `ByteSeq`): direct and indirect blocks refine a sequence of bytes, the packed free map agrees
  with ownership, a chunk of `filewrite` fits a transaction, can fill it and is atomic, and what
  is written and reported when user memory cannot be read is exact.
- **Sleep locks** (`SleepLock`): mutual exclusion and no lost wakeup over every interleaving.
- **Disk driver** (`Virtio`, `VirtioDisk`): driver and device over one virtqueue.
- **User code** (`KrHeap`, `KrAllocator`, `Grep`): the storage allocator and the matcher.

Code that updates memory in place is a class whose methods are proved against functions on
values; properties of runs are lemmas about those functions. Protocols are step systems.

Where a property does not hold of the code as written, the model keeps the code and the
project states exactly when it does hold: the length of the on-disk log
(`LogProtocol.ReservationsProtectIff`), the list of `log_write`, whose length is tested before the
lock is taken and not after (`LogProtocol.ListFitsIff`), the commit of a list that is too long
for the log, which writes past its end (`ShortLog.CrashesAtomicIff`; with the log that mkfs makes
and the buffers of kernel/param.h it stops before its first write, `ShortLog.MkfsLogIsSaved`), the
pins of the buffer cache after a recovery
(`BufferCache.PinsProtectIff`), the free-memory check of `bd_init` (`BuddyBoot.InitCheckIff`),
the doubling in `firstk` (`BuddyBoot.FirstKEndsIff`), the count that `filewrite` reports
(`FileWrites.ReportedIsWrittenIff`), `uvmunmap` with size zero (`PageTable.UnmapEndsIff`) and the
`uvmcopy` that gets stuck in it (`VirtualMemory.Memory.UvmCopy`), the page-table pages that a
failed `fork` loses (`VirtualMemory.Memory.Fork`), and the argument of `sbrk`
(`KrHeap.SbrkArgument`).

`dafny verify dfyconfig.toml` checks the whole project.

## Model

| member | source | states |
|---|---|---|
| Transaction.EveryCrashIsAtomic | kernel/log.c:68-235 | In every run of any number of processes from a boot that finds the log empty, through any number of transactions, with other appends between test and append of a log_write and readers between any two steps of a commit: a crash at any moment, then any number of recoveries cut anywhere, then a whole one, leave every block outside the log with what it held before the transaction, or with the transaction's data, the latter exactly when the committing header write was issued; provided the log has more than LOGSIZE blocks, or at least as many as there are buffers, or only its header, or there is one process |
| ShortLog.CrashesAtomicIff | kernel/log.c:177-235 | That proviso is exact, for every length of the log and every number of processes and buffers: otherwise some run from boot lists one block too many, its commit overwrites the block after the log, and a crash then is not atomic |
| ShortLog.MkfsLogIsSaved | mkfs/mkfs.c:25 | On the log of LOGSIZE blocks the list can become too long; crashes are atomic with the NBUF buffers there are, and not with one more |
| Transaction.OverrunStalls | kernel/log.c:178-190 | Where the proviso holds, a commit of a list that is too long issues no write: every buffer is in use and none holds the first block of the log, so that bget panics |
| Transaction.EveryCommitHasTheData | kernel/log.c:177-235 | During a commit, in any such run, no buffer is changed and unlogged, and what is written for a block not yet home is what its buffer, still pinned, holds: what operations last stored there; a list that is too long has not been written at all |
| Transaction.EveryCommitLeaves | kernel/log.c:192-202 | From end_op to its end, whatever is read meanwhile, a commit issues exactly its writes and leaves an empty log, no pin, and cache and disk in agreement |
| Transaction.CommitGoesOn | kernel/log.c:177-202 | Once the committing process has the buffers of its next write nothing keeps it from that write, bunpin included |
| Transaction.StepKeeps | kernel/log.c:126-235 | begin_op, the parts of bread, a change of a buffer, the test and the append of log_write, the two halves of brelse, end_op, each disk write of a commit and its end keep log, cache, locks, references and disk in agreement, with any number of buffers changed and not yet logged; a list that is too long keeps all buffers pinned |
| Transaction.CountsNeverWrap | kernel/bio.c:58-149 | In every such run a buffer's count is its holders plus its pin, at most one above the number of processes |
| Transaction.RunRecover | kernel/log.c:115-122 | recover_from_log in memory, finding an empty log, leaves a state that such runs start from |
| Transaction.RecoveredIsBooted | kernel/log.c:115-122 | The same of the state it leaves |
| Transaction.RunBeginOp | kernel/log.c:126-141 | begin_op in memory takes the step of the system, or sleeps exactly when that is not enabled |
| Transaction.RunLogWrite | kernel/log.c:214-235 | A whole log_write in memory panics exactly as the protocol says, and else takes both steps of the system |
| Transaction.RunLogTest | kernel/log.c:218-222 | The test of log_write in memory takes the step of the system, or panics exactly when that is not enabled |
| Transaction.RunLogAppend | kernel/log.c:224-234 | The rest of it, whatever has been listed since the test, takes the step of the system |
| Transaction.RunEndOp | kernel/log.c:146-174 | end_op in memory takes the step of the system, and when a commit is due ends in a state that commits of the system leave, ready for the next transaction |
| Transaction.EndOpMayCommit | kernel/log.c:146-174 | Whenever the last operation ends, nothing is changed and unlogged, and what end_op and commit in memory ask of log, cache and disk holds |
| CommitSteps.GoesOn | kernel/log.c:68-202 | After k writes of a commit the slots, the header and the disk are those of the first k, and the next write keeps that |
| Readers.StepTallied | kernel/bio.c:58-135 | Every step of bread and brelse, its releasesleep and its count one after the other, keeps each buffer's count the number of processes with a reference, and its lock with one of them |
| LogWrites.CrashAtomic | kernel/log.c:68-202 | A commit cut after any k of its block writes, then any number of recoveries cut anywhere, then a whole recovery: every block outside the log holds its contents from before the transaction, or those after it, the latter exactly when the committing header write was among the k |
| LogWrites.CommitCut | kernel/log.c:177-202 | A commit cut after k writes leaves a disk that recovers to the before- or after-contents |
| LogWrites.RecoveryCut | kernel/log.c:68-122 | A recovery cut after j writes leaves a disk that recovers to the same contents |
| LogWrites.InterruptionsDoNotMatter | kernel/log.c:115-122 | The same for any number of interrupted recoveries |
| LogWrites.RecoverGivesTransaction | kernel/log.c:68-122 | Recovering a committed log gives the transaction's blocks whatever the home blocks held |
| LogWrites.CommitDone | kernel/log.c:192-202 | A commit that ends leaves an empty log and every home block written |
| LogProtocol.ProtocolSafe | kernel/log.c:126-235 | In every interleaving, other appends between test and append of a log_write included, listed blocks plus unused reservations fit LOGSIZE, no block is listed twice, nothing is outstanding during a commit, and end_op's panic is unreachable |
| LogProtocol.ReservedWriteIsSafe | kernel/log.c:214-235 | With a log of LOGSIZE+1 blocks or more no reserved log_write panics, in any interleaving |
| LogProtocol.PanicsOnlyWhenFull | kernel/log.c:219-222 | With such a log, log_write panics exactly when LOGSIZE blocks are listed, and then no reservation is unused |
| LogProtocol.OperationNeverPanics | kernel/log.c:204-235 | With such a log an operation whose log_write calls but the last are for fewer than MAXOPBLOCKS blocks, repeated or not, can always make the next call, its test and then its append, whatever the others do |
| LogProtocol.AbsorbedWriteCanPanic | kernel/log.c:219-231 | Otherwise not: with all reservations used up even a block that would be absorbed panics |
| LogProtocol.ReservationsProtectIff | kernel/log.c:126-235 | With two processes or more, reservations protect every run if and only if the on-disk log has at least LOGSIZE+1 blocks |
| LogProtocol.ListFitsIff | kernel/log.c:219-233 | For every length of the log and number of processes: the list is always shorter than the log if and only if the log has LOGSIZE+1 blocks or more, or one, or there is at most one process; else two processes test and then both append |
| LogProtocol.MkfsLogTooSmall | mkfs/mkfs.c:25 | The log that mkfs makes is one block too short for that |
| LogProtocol.StepKeeps | kernel/log.c:126-235 | Each begin_op, test and append of log_write, end_op and end of commit keeps the reservation invariant |
| Log.FsLog.Commit | kernel/log.c:192-202 | Through the cache, with other processes reading blocks in between, exactly the writes of CommitWrites reach the disk in order, or a prefix when every buffer is in use; the readers' references are all that is left |
| Log.FsLog.WriteLog | kernel/log.c:177-190 | The log slots get the pinned, modified data, never a stale re-read |
| Log.FsLog.StampHead | kernel/log.c:101-113 | The header block lists the logged blocks |
| Log.FsLog.InstallTrans | kernel/log.c:68-82 | Every listed block goes home with its logged data and loses its pin |
| Log.FsLog.LogWrite | kernel/log.c:214-235 | log_write panics exactly when the log is full or no operation is running; otherwise the block is listed once and pinned, absorbed if it was listed, its data to commit is the buffer's, and the transaction stays ready but for the other changed buffers, of which there may be any number |
| Log.FsLog.LogTest | kernel/log.c:218-222 | The test succeeds exactly when the log is not full and an operation is running |
| Log.FsLog.LogAppend | kernel/log.c:224-234 | From there on, whatever has been listed meanwhile, the block is listed once and pinned, or absorbed |
| Log.FsLog.FindListed | kernel/log.c:224-227 | The loop finds the first listing of a block |
| Log.FsLog.BeginOp | kernel/log.c:126-141 | begin_op admits exactly when no commit runs and the reservation fits |
| Log.FsLog.EndOp | kernel/log.c:146-174 | Only the last operation commits; its disk writes are exactly a commit's and the log is empty after, or a prefix of them when every buffer is in use |
| Log.FsLog.ReadHead | kernel/log.c:85-96 | The in-memory header becomes the on-disk list |
| Log.FsLog.InstallRecovered | kernel/log.c:68-82 | In recovery every listed block goes home; every unpin is a stray one, and exactly the buffers of recovered blocks have one, each one |
| Log.FsLog.Recover | kernel/log.c:115-122 | Exactly RecoverWrites reach the disk, or a prefix; the cache agrees with the disk and is idle after, and exactly the buffers of recovered blocks have a stray unpin |
| Log.ListKeepsOpen | kernel/log.c:214-235 | Listing and pinning a block keeps the transaction ready to commit but for the buffers still changed and unlogged |
| Log.AbsorbKeepsOpen | kernel/log.c:224-231 | So does logging a block that is listed already |
| Log.ModifyKeepsSound | kernel/log.c:204-212 | Changing a held buffer spoils nothing but that buffer |
| Log.ReadRunKeepsGood | kernel/log.c:177-190 | Whatever other processes read, evict and release, logged blocks stay pinned with their data |
| Log.InstallKeepsGood | kernel/log.c:68-82 | So does installing and unpinning a block |
| Log.WriteThroughKeepsGood | kernel/log.c:101-113 | So does writing a log block through the cache |
| BufferCache.OneBufferPerBlock | kernel/bio.c:58-149 | In every run the list is a permutation of the buffers and two referenced buffers never hold the same block |
| BufferCache.StepKeeps | kernel/bio.c:36-149 | Every bget, brelse, bpin, bunpin, write and refill keeps list, keys and counts in agreement |
| BufferCache.RunKeeps | kernel/bio.c:36-149 | So does every run |
| BufferCache.PinnedIsNeverRecycled | kernel/bio.c:58-149 | A pinned buffer keeps its block and data over every run that does not unpin or change it |
| BufferCache.RecyclableIff | kernel/bio.c:72-82 | bget may recycle a buffer exactly when its references are cancelled by stray unpins |
| BufferCache.RecoveryUndoesAPin | kernel/log.c:68-82 | After recovery's stray unpin there is a run that leaves a logged block pinned with count zero |
| BufferCache.PinsProtectIff | kernel/log.c:68-82 | From an idle cache, pinned buffers are in use in every run if and only if no stray unpin is left |
| BufferCache.InUseIsHit | kernel/bio.c:63-69 | A lookup of the key of a buffer in use finds that buffer |
| BufferCache.BootInv | kernel/bio.c:36-52 | binit's list satisfies the invariant although all keys are equal |
| BufferCache.BCache.constructor | kernel/bio.c:36-52 | binit builds the list of all buffers |
| BufferCache.BCache.Bget | kernel/bio.c:58-87 | The cached buffer, or the least recently used free one re-keyed; a panic only if every buffer is in use |
| BufferCache.BCache.Bread | kernel/bio.c:91-101 | A referenced buffer with the block's current contents |
| BufferCache.BCache.Bwrite | kernel/bio.c:105-110 | The buffer's data reaches its block on disk |
| BufferCache.BCache.Brelse | kernel/bio.c:115-135 | The reference is dropped and an unused buffer moves to the front |
| BufferCache.BCache.Bpin | kernel/bio.c:138-142 | One more reference to the buffer |
| BufferCache.BCache.Bunpin | kernel/bio.c:145-149 | One reference fewer, wrapping at zero |
| CircularList.UnlinkKeepsRing | kernel/list.c:24-28 | Removing an element leaves a ring of the others in order |
| CircularList.LinkKeepsRing | kernel/list.c:39-47 | Pushing an element leaves a ring with it first |
| CircularList.UnlinkKeepsRings | kernel/list.c:24-28 | Among several disjoint rings only the one concerned changes |
| CircularList.LinkKeepsRings | kernel/list.c:39-47 | The same for pushing |
| CircularList.Links.Init | kernel/list.c:12-17 | lst_init gives an empty ring |
| CircularList.Links.IsEmpty | kernel/list.c:19-22 | lst_empty tells an empty ring |
| CircularList.Links.Remove | kernel/list.c:24-28 | lst_remove on the links in memory |
| CircularList.Links.Push | kernel/list.c:39-47 | lst_push on the links in memory |
| BuddyBoot.BootedHeapIsTiled | kernel/buddy.c:123-353 | From the heap that bd_init leaves, after every run of bd_malloc and bd_free each leaf is in exactly one free block, block given out or leaf marked at boot, and no two buddies are both free |
| Buddy.HeapIsTiled | kernel/buddy.c:123-194 | From a heap whose live blocks are those given out or marked, every run of bd_malloc and bd_free keeps each leaf in exactly one free block, block given out or marked leaf, and no two buddies both free |
| Buddy.RunKeeps | kernel/buddy.c:123-194 | Every run keeps: live exactly when given out or marked |
| Buddy.MallocedSpec | kernel/buddy.c:123-154 | bd_malloc makes exactly one new live block, keeps the others and the invariant |
| Buddy.FreedSpec | kernel/buddy.c:170-194 | bd_free ends exactly one live block, merging buddies, and keeps the others and the invariant |
| Buddy.FreeUndoesMalloc | kernel/buddy.c:123-194 | bd_free right after bd_malloc restores the heap, free lists included |
| Buddy.Tiling | kernel/buddy.c:123-194 | Every leaf is covered at exactly one order |
| Buddy.LiveDisjoint | kernel/buddy.c:123-154 | Two live blocks that share a leaf are the same block |
| Buddy.SplitBitsAbove | kernel/buddy.c:158-165 | The split bits above a live block's address are set exactly from its own order on |
| Buddy.AddrIndex | kernel/buddy.c:110-119 | addr and blk_index are inverse |
| Buddy.ContainingIsQuotient | kernel/buddy.c:110-113 | Following halves up is division by the block size |
| BuddyAllocator.Allocator.Malloc | kernel/buddy.c:123-154 | The smallest sufficient order, at least nbytes long, from the first non-empty list; fails exactly when all those lists are empty |
| BuddyAllocator.Allocator.SplitTo | kernel/buddy.c:143-150 | The splitting loop leaves the first half live and the others free, order by order |
| BuddyAllocator.Allocator.Free | kernel/buddy.c:170-194 | bd_free from the address alone |
| BuddyAllocator.Allocator.Size | kernel/buddy.c:158-165 | size(p) is the order of the live block at p, without reading past the last order |
| BuddyAllocator.Allocator.FirstK | kernel/buddy.c:97-106 | The least order whose blocks hold n bytes |
| BuddyBoot.FirstKEndsIff | kernel/buddy.c:97-106 | The doubling in 64 bits reaches the request if and only if that is at most 2^63 bytes |
| BuddyAllocator.Allocator.Mark | kernel/buddy.c:217-235 | bd_mark sets the alloc and split bits of every block that meets the range |
| BuddyAllocator.Allocator.InitFreePair | kernel/buddy.c:240-252 | The free one of two buddies is pushed, and the lists stay in good order unless some pair is pushed twice |
| BuddyAllocator.Allocator.InitFree | kernel/buddy.c:258-270 | The free blocks become those of FreeList at every order, the total is theirs, and the lists in memory are in good order unless some pair is pushed twice |
| BuddyAllocator.Allocator.Boot | kernel/buddy.c:331-353 | bd_init's final check succeeds if and only if no pair is pushed twice, and then the heap is good |
| BuddyAllocator.Allocator.BdInit | kernel/buddy.c:295-353 | From the number of bytes alone, with orders and metadata as bd_init computes them: it panics if and only if there are 320 to 511 bytes, and else leaves a good heap |
| BuddyBoot.InitCheckIff | kernel/buddy.c:295-353 | The total that bd_initfree adds up is the available memory exactly for fewer than 320 or more than 512 bytes |
| BuddyBoot.MetaInQuarter | kernel/buddy.c:312-335 | From seven orders on the size array and bit vectors fit the first quarter of the heap |
| BuddyBoot.FreeMemoryCheck | kernel/buddy.c:341-352 | The free total equals the available memory if and only if no order has an even left end just below its right end |
| BuddyBoot.FreeMemoryCheckFails | kernel/buddy.c:295-353 | 320 bytes of memory have 208 of metadata, and the check fails |
| BuddyBoot.QuarterIsEnough | kernel/buddy.c:258-353 | Metadata in the first quarter excludes that case |
| BuddyBoot.BootInv | kernel/buddy.c:296-353 | The heap after bd_init satisfies the allocator's invariant |
| BuddyBoot.BootOwned | kernel/buddy.c:331-353 | At start-up nothing is given out and the live blocks are exactly the marked leaves |
| BuddyBoot.BootFreeLeaves | kernel/buddy.c:258-353 | After bd_init the free blocks cover exactly the available leaves |
| BuddyBoot.FreeListIs | kernel/buddy.c:240-270 | Which blocks bd_initfree pushes at an order |
| BuddyBoot.LeftIsQuotient | kernel/buddy.c:198-203 | blk_index_next rounds up |
| BuddyBoot.Log2 | kernel/buddy.c:206-213 | log2 is the integer logarithm |
| BuddyBoot.MaxSize | kernel/buddy.c:296-306 | The least number of orders that covers the memory |
| Bits.Set | kernel/buddy.c:46-50 | bit_set sets one of the packed bits and no other |
| Bits.Clear | kernel/buddy.c:53-57 | bit_clear clears one and no other |
| Bits.IsSet | kernel/buddy.c:39-43 | bit_isset reads one |
| Bits.SetOne | kernel/fs.c:77-79 | On bytes: setting a mask is setting one bit of the map |
| Bits.ClearOne | kernel/fs.c:98-101 | On bytes: clearing likewise |
| PageTable.TranslateIsLeaf | kernel/vm.c:77-98 | The walk of section 4.3.2 of the RISC-V privileged specification over the tree gives exactly the flat map, on pages with leaf permissions |
| PageTable.PteRoundTrip | kernel/riscv.h:349-354 | Frame and flags come back from an entry |
| PageTable.Path | kernel/riscv.h:356-359 | The three indices lead from the root to the page |
| PageTable.HungKeepsTree | kernel/vm.c:89-94 | Hanging a cleared page under an invalid entry keeps the tree |
| PageTable.HungKeepsLeaf | kernel/vm.c:89-94 | and changes no translation |
| PageTable.SetLeaf | kernel/vm.c:168-169 | Writing a level-0 entry changes the map at that page only |
| PageTable.UnmapEndsIff | kernel/vm.c:186-187 | The loop of uvmunmap ends if and only if its range stops short of the last page of 64 bits; with va and size zero it does not |
| PageTable.EndlessLoopMeetsAll | kernel/vm.c:186-203 | That endless loop meets every page that can be mapped |
| VirtualMemory.Memory.Kalloc | kernel/kalloc.c:35-41 | Some free frame, cleared; none exactly when there is none |
| VirtualMemory.Memory.Walk | kernel/vm.c:77-98 | The entry of an address, or none; with alloc pages may be added but no translation changes and no frame outside the tree is touched; it then fails exactly above MAXVA or when fewer frames are free than page-table pages are missing |
| VirtualMemory.Memory.WalkAddr | kernel/vm.c:104-121 | The frame of a mapped user page, else 0 |
| VirtualMemory.Memory.MapPages | kernel/vm.c:156-176 | On success exactly the requested pages are added; if not, a prefix of them, and a panic if and only if the next page is mapped, else the range passes MAXVA or no frame is left |
| VirtualMemory.Memory.UvmUnmap | kernel/vm.c:181-204 | Exactly the range is removed and with do_free exactly its frames go back; a panic if and only if a page has no flag but valid |
| VirtualMemory.Memory.FreeWalk | kernel/vm.c:285-304 | Panics if and only if a page is still mapped below; otherwise every page-table page goes back exactly once |
| VirtualMemory.Memory.UvmFree | kernel/vm.c:308-312 | User frames and page-table pages go back, if and only if nothing is mapped at or above sz |
| VirtualMemory.Memory.UvmCreate | kernel/vm.c:208-216 | An empty map |
| VirtualMemory.Memory.ProcPagetable | kernel/proc.c:333-350 | Only trampoline and trapframe are mapped, both exactly if three frames were free; three frames are taken, or all there are, and the path to page 0 is not among them; no other table changes; panics exactly when no frame is free |
| VirtualMemory.Memory.ProcFreePagetable | kernel/proc.c:354-360 | With sz > 0 exactly the user frames below sz and all page-table pages go back, so neither trampoline nor trapframe; with sz = 0 nothing does |
| VirtualMemory.Memory.AllocProc | kernel/proc.c:275-298 | A trapframe and a page table taken from the free frames, four or all there are; the parent's space is untouched and uvmcopy applies; which frames the child maps; fails exactly without a free frame and panics exactly with one |
| VirtualMemory.Memory.FreeProc | kernel/proc.c:303-309 | For a process without memory areas only the trapframe goes back |
| VirtualMemory.Memory.Fork | kernel/proc.c:436-454 | The child has the parent's bytes on frames of its own and a page table that can be freed; on failure the parent and all data are as before, but exactly the child's page-table pages are lost, none only if no frame was free; uvmcopy gets stuck if and only if page 0 is there to copy and two to six frames are free, and the frames that its loop passes to kfree are trampoline and trapframe with four or more of these, none with fewer; succeeds whenever more than three a page and five are free |
| VirtualMemory.Memory.UvmCopy | kernel/vm.c:320-349 | The child sees the parent's bytes on frames of its own, its other pages and the parent are as before, and it can be freed as a process's page table; on failure data and the child's map are as before; stuck if and only if the first page is there and the free frames do not suffice for it and the page-table pages it needs, and then in a loop over the frames that the child had mapped; either of these only if at most three frames a page and one more were free |
| VirtualMemory.GetMemoryArea | kernel/proc.c:97-113 | The first area that holds the address |
| VirtualMemory.Memory.DoAllocate | kernel/vm.c:388-433 | 0 with the page open to the user and the area's permissions; exactly when each error code is returned, ENOMEM and EMAPFAILED in terms of the free frames and the page-table pages missing; what the program sees never changes, and no mapping without permission appears |
| VirtualMemory.Memory.DoAllocateRange | kernel/vm.c:480-496 | On success all visited pages are open; fails only out of frames or on a page that is refused; the end of the range wraps at 64 bits |
| VirtualMemory.Memory.CopyOut | kernel/vm.c:501-525 | On success exactly the range changes in what the program sees; on error nothing, unless the range wraps; errors only out of frames or on a refused page |
| VirtualMemory.Memory.CopyIn | kernel/vm.c:530-554 | On success exactly the bytes the program sees; errors as for copyout |
| VirtualMemory.Memory.ThereAndBack | kernel/vm.c:501-554 | copyout and then copyin of a range give back what went out, across pages |
| UserMemory.OtherSpace | kernel/vm.c:388-554 | Another address space on other frames keeps its map and its bytes, and stays apart |
| UserMemory.ForkedChild | kernel/vm.c:320-349 | A forked child has the parent's permissions, and nothing mapped but the copied pages and its own top pages |
| UserMemory.BacksPermitted | kernel/vm.c:415-433 | Demand allocation keeps every mapping permitted |
| UserMemory.FreshAllBacks | kernel/vm.c:415-433 | A fresh zero page leaves the program's view and the ownership of frames intact |
| PageCopy.CopyMade | kernel/vm.c:328-343 | Copying one more page keeps the state of a partial copy |
| PageCopy.CopyResult | kernel/vm.c:320-349 | After a whole copy parent and child see the same and share no frame |
| PageCopy.CopyFreed | kernel/vm.c:346-348 | Unmapping a partial copy restores data and the child's map and loses no frame |
| PageCopy.OtherTree | kernel/vm.c:77-176 | Work inside one tree leaves every other tree alone |
| PageTree.WholeNoLeaf | kernel/vm.c:285-304 | freewalk finds no leaf exactly when the flat map is empty |
| PageTree.BelowOneMore | kernel/vm.c:288-298 | The frames below one more entry |
| Inode.UsedIffOwned | kernel/fs.c:66-104 | A data block is marked used if and only if some slot of some inode holds it, and only one does |
| Inode.AttachKeeps | kernel/fs.c:379-406 | Giving a free block to an empty slot keeps ownership |
| Inode.AttachView | kernel/fs.c:379-406 | and no file reads differently |
| Inode.PatchWrote | kernel/fs.c:499-508 | Writing part of a data block changes that range of that file only |
| Inode.WordRoundTrip | kernel/fs.c:396-401 | Block numbers stored in an indirect block come back |
| Inode.WriteDone | kernel/fs.c:499-518 | A finished write leaves a good file system in which the range is replaced or appended |
| Inode.ChunkFits | kernel/file.c:149-168 | A write of at most 3072 bytes logs at most 10 blocks at any offset |
| Inode.TruncatedOk | kernel/fs.c:414-441 | After itrunc ownership is that of the other inodes and every file stays mapped |
| Inode.TruncatedContent | kernel/fs.c:414-441 | The file is empty and every other file unchanged |
| FileSystem.FileSystem.Balloc | kernel/fs.c:52-87 | By the bits of the map: the first free block, cleared and marked; a panic exactly when there is none |
| FileSystem.FileSystem.Bfree | kernel/fs.c:91-104 | By the bits of the map: the block is free again; a panic exactly when it was |
| FileSystem.FileSystem.Bmap | kernel/fs.c:379-406 | The block of a file, allocated if need be from unowned blocks; no file reads differently; a panic only beyond the largest file or on a full disk; what is logged |
| FileSystem.FileSystem.Readi | kernel/fs.c:460-480 | The slice of the contents cut at the size, as far as the destination takes it; the full count is returned all the same; -1 exactly on a bad offset; nothing changes |
| FileSystem.FileSystem.Writei | kernel/fs.c:487-518 | The contents with src from off on, as far as it can be copied; every other file unchanged, everything changed is logged, the inode's block last; -1 exactly when out of range; a panic only if free blocks run out, and were fewer than the write may need |
| FileSystem.FileSystem.Iupdate | kernel/fs.c:223-238 | The inode on disk is the one in memory |
| FileSystem.FileSystem.Itrunc | kernel/fs.c:414-441 | Exactly the inode's blocks go back; bfree's panic is unreachable |
| FileSystem.FileSystem.WriteOnce | kernel/file.c:155-174 | One chunk, from begin_op to end_op: it logs everything it changes, of the inodes only its own, at most MAXOPBLOCKS blocks, and its log_write calls fit the reservation as LogProtocol.OperationNeverPanics asks |
| FileCrash.ChunkIsAtomic | kernel/file.c:157-167 | Crash anywhere in the commit of a chunk and in the recoveries after it: the disk holds the old file system, or the new one, in which exactly the chunk's range of that file differs, for every layout in which a block depends on its own data, bits and inodes only |
| FileCrash.ChunkInRunIsAtomic | kernel/file.c:157-167 | The same in any run of the system of Transaction: what the commit writes follows from the log_write calls of the run and from what was left in the buffers |
| FileSystem.FileSystem.WriteTen | kernel/file.c:149-168 | The bound is reached: in a crowded file system a chunk that starts inside the twelfth block logs exactly ten blocks |
| TightWrite.LogsTen | kernel/fs.c:487-518 | Any writei from such a state that keeps to its contract logs at least ten blocks |
| TightWrite.CrowdedExists | kernel/fs.c:52-87 | Such a file system exists |
| FileSystem.FileSystem.FileWrite | kernel/file.c:155-175 | Contents, file offset and result are those of Chunks, every other file is unchanged |
| FileWrites.ChunksReadable | kernel/file.c:155-175 | With a readable source the chunks together write src, or a prefix, and -1 is returned, exactly when the file would grow too large |
| FileWrites.ReportedIsWrittenIff | kernel/file.c:155-175 | The count returned is the number of bytes that reached the file if and only if no byte of the source is refused |
| FileWrites.RefusedWriteReportsSuccess | kernel/fs.c:499-517 | A write whose first byte is refused writes nothing, moves the offset and reports success |
| FileWrites.RefusedAtEndFails | kernel/file.c:155-175 | At the end of a file a longer one fails at its second chunk, with the offset moved past the end |
| FileWrites.CopiedAllIff | kernel/fs.c:466-508 | readi and writei copy everything if and only if no byte is refused |
| FileWrites.CopiedUpToBlock | kernel/fs.c:466-508 | When some byte is refused they stop at the start of the block of the first one |
| SleepLock.MutualExclusion | kernel/sleeplock.c:22-52 | In every reachable state at most one process has a sleep lock, and locked and pid say which |
| SleepLock.NoLostWakeup | kernel/proc.c:753-801 | A free sleep lock whose spin lock is not held has nobody sleeping on it |
| SleepLock.HandOffSound | kernel/proc.c:645-718 | No process runs on two CPUs and none of sched's panics is reachable |
| SleepLock.StepKeeps | kernel/proc.c:645-839 | Every atomic step of acquiresleep, releasesleep, sleep, wakeup, kill, yield and the scheduler keeps the invariant |
| SleepLock.RunsKeep | kernel/proc.c:645-839 | So does every run |
| Virtio.RunKeeps | kernel/virtio_disk.c:128-281 | Every run of driver and device keeps the invariant |
| Virtio.BootedInv | kernel/virtio_disk.c:105-123 | The queue after virtio_disk_init satisfies it |
| Virtio.StepKeeps | kernel/virtio_disk.c:180-281 | So does every step |
| Virtio.AtMostTwo | kernel/virtio_disk.c:166-178 | Free and owned descriptors are all eight, so at most two requests are in flight |
| Virtio.ChainsDisjoint | kernel/virtio_disk.c:166-178 | Chains share no descriptor |
| Virtio.IndexTestExact | kernel/virtio_disk.c:268 | Comparing indices modulo NUM tells an empty used ring from one with entries |
| Virtio.FetchesOldest | kernel/virtio_disk.c:243-246 | The device fetches the oldest request offered, intact |
| Virtio.HandlesOldest | kernel/virtio_disk.c:268-277 | The handler finds the oldest completion, its buffer and status 0 |
| Virtio.EachHandledOnce | kernel/virtio_disk.c:263-281 | In every run each completion is handled exactly once, in order |
| Virtio.ChainTaken | kernel/virtio_disk.c:141-164 | No panic of free_desc is reachable when a chain is freed |
| VirtioDisk.Driver.AllocDesc | kernel/virtio_disk.c:128-138 | A free descriptor taken, or none left |
| VirtioDisk.Driver.Free | kernel/virtio_disk.c:141-151 | free_desc panics exactly on a bad or free index |
| VirtioDisk.Driver.FreeChain | kernel/virtio_disk.c:154-164 | The three descriptors of a chain are freed |
| VirtioDisk.Driver.Alloc3 | kernel/virtio_disk.c:166-178 | Three descriptors exactly when three are free, else none |
| VirtioDisk.Driver.Submit | kernel/virtio_disk.c:180-248 | The request is offered to the device and the invariant kept |
| VirtioDisk.Driver.Interrupt | kernel/virtio_disk.c:263-281 | Every reported completion is handled, without a panic |
| VirtioDisk.Driver.Retire | kernel/virtio_disk.c:250-260 | The chain is free again |
| KrHeap.FreedInv | user/umalloc.c:24-44 | free keeps the circular list in address order with one wrap, no blocks overlapping or adjacent, and every unit in one block |
| KrHeap.OneBlock | user/umalloc.c:24-90 | A unit of a free block is in no other block |
| KrHeap.StopsIffPrecedes | user/umalloc.c:30-32 | The search of free stops exactly at the node before the block |
| KrHeap.WholeInv | user/umalloc.c:75-76 | Taking a block of the exact size keeps the invariant |
| KrHeap.TailInv | user/umalloc.c:77-81 | So does taking the tail of a larger one |
| KrHeap.GrantedInv | user/umalloc.c:46-61 | So does new memory from sbrk |
| KrHeap.FreedRoom | user/umalloc.c:46-61 | After morecore a free block is large enough |
| KrHeap.SbrkArgument | user/umalloc.c:54 | The byte count survives the conversion to int exactly below 2^27 units |
| KrAllocator.Allocator.FindPlace | user/umalloc.c:30-32 | The search ends, at the node before the block |
| KrAllocator.Allocator.Free | user/umalloc.c:24-44 | free joins the block with its neighbours; other live blocks are kept |
| KrAllocator.Allocator.MoreCore | user/umalloc.c:46-61 | Live blocks kept and a free block large enough, or failure |
| KrAllocator.Allocator.Malloc | user/umalloc.c:63-90 | Ends; a new block of the right size apart from all others, or 0 only if no free block is large enough |
| Grep.Match | user/grep.c:70-80 | True if and only if the expression matches somewhere, for the declarative meaning of ^ . * $ |
| Grep.MatchHere | user/grep.c:83-94 | True if and only if the items match a prefix of the text |
| Grep.MatchStar | user/grep.c:97-104 | The same after a starred character |

## Left out

- Log.FsLog.Commit: a cache with stray unpins left by a recovery, where pins do not protect (BufferCache.PinsProtectIff); other processes run between the turns of its loops, not inside a turn as in Transaction, and only get, fill and release buffers, since none is in an operation.
- Log.FsLog.WriteLog: stray unpins, likewise.
- Log.FsLog.InstallTrans: stray unpins, likewise.
- Log.FsLog.EndOp: stray unpins, likewise, when a commit is due.
- Log.FsLog.LogWrite: a buffer with a stray unpin, likewise.
- Transaction.StepKeeps: processes that change or release a buffer against the rules of log_write, or get one they already hold; the test of log_write reads its values at one moment; a memmove and the bwrite after it are one step, under the lock of the buffer; other devices.
- LogProtocol.StepKeeps: the test of log_write reads its values at one moment.
- Transaction.RunEndOp: the commit of a list that is too long for the log, which ends in bget before its first write (Transaction.OverrunStalls).
- Transaction.RunRecover: a boot that finds a transaction to install, after which stray unpins remain and pins do not protect (BufferCache.PinsProtectIff).
- Transaction.RecoveredIsBooted: such a boot, likewise.
- Transaction.RunLogWrite: an operation that logs more than MAXOPBLOCKS blocks.
- BuddyAllocator.Allocator.FirstK: requests above 2^63 bytes, for which the source loops for ever (BuddyBoot.FirstKEndsIff).
- BuddyAllocator.Allocator.Malloc: the same requests; its bitmaps are sequences of booleans, which packed bytes refine by Bits.Set, Bits.Clear and Bits.IsSet.
- BuddyAllocator.Allocator.BdInit: memory of 256 bytes or less, too small for the metadata and as much again, and of exactly a power of two, for which bd_initfree reads one pair past the end of each bit vector.
- FileSystem.FileSystem.Writei: a source whose addresses wrap around 64 bits, for which a failed copy may leave bytes in the buffer.
- FileSystem.FileSystem.FileWrite: other processes writing the same file between two chunks.
- FileSystem.FileSystem.Iupdate: type, device numbers and link count of an inode, and its byte layout in the inode block.
- KrAllocator.Allocator.Malloc: requests of 2^27 units and more that no free block serves, for which sbrk gets another size than meant; KrHeap.SbrkArgument gives the exact bound.
- KrAllocator.Allocator.MoreCore: the same requests.
- FileSystem.FileSystem.WriteOnce: balloc and bfree of other operations between the steps of the chunk.
- FileCrash.ChunkIsAtomic: a concrete byte layout; other operations in the same transaction.
- FileCrash.ChunkInRunIsAtomic: likewise; that the buffers hold the blocks of the new file system when the commit begins is a hypothesis, since FileSystem works on the file system and not on buffers.
- VirtualMemory.Memory.FreeProc: processes that have memory areas.
- SleepLock.HandOffSound: the check in sched that interrupts are off.
- Virtio.HandlesOldest: devices that report an error status; the driver panics on it.
- VirtualMemory.Memory.DoAllocate: file-backed areas, whose branch names fields that struct vma does not have; areas are taken to lie below the trapframe.
- VirtualMemory.Memory.Fork: the search of allocproc for an unused process slot, and what fork copies besides memory.
- VirtualMemory.Memory.UvmUnmap: ranges for which its loop never ends, which are excluded by the condition proved exact in PageTable.UnmapEndsIff.
- Physical memory is typed: a frame is a page-table page, a page of bytes or free, and kalloc may return any free frame.
- growproc and the uvmdealloc it calls; uvmalloc, which nothing calls; uvmclear, uvminit and copyinstr.
- The layout made by exec, and the overlap check of add_memory_area.
- Sleeping on channels other than sleep locks; exit, wait and reparent; fairness.
- Freedom from running out of buffers, blocks, inodes or memory: these are outcomes of the model.
- Directories, path names, inode allocation, pipes, the console, devices, traps, assembly and register set-up.
- Byte addresses of the storage allocator that are not multiples of a header apart.
- The read loop of grep and the remaining user programs.
