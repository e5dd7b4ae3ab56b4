# Fleurix kernel: memory, block cache, files and ownership

A Dafny model of the parts of the Fleurix kernel that keep state consistent over whole runs,
and proofs of what they keep. `dafny verify dfyconfig.toml` checks everything.

**Copy-on-write memory** (`FrameLedger`, `Paging`, `PagingSteps`, `WindowSteps`, `ForkSteps`,
`SpaceSteps`, `Sealing`, `Ranges`, `AddressSpaces`, `EagerMemory`, `EagerKernel`, `Shows`,
`MemoryRuns`, `ExecRuns`).
Physical memory is an array of frames; page directories and page tables are words in it, and
`AddressSpaces.Kernel` updates them in place as the source does: frame allocator, fault handlers,
`pt_copy`, `pt_free`, `vm_clone`, `vm_clear`, `vm_verify`. A ghost ledger names every reference to
every frame. The invariant says that the ledger is what the words in memory say, that `pg_count`
is the number of references, that a frame is free exactly if it has none, that a shared frame is
writable through no entry, and that every page lies in an area. The main result, `MemoryRuns.Run`,
is a refinement: after any run of forks, execs, exits, loads, stores, kernel copies and kernel page
allocations the kernel shows the state of `EagerKernel`, in which every process owns its pages
and which decides fills, refusals and stores from pages, areas and a set of sealed pages alone.
That is the run of a kernel whose fork copies every page at once, if and only if no store goes to
a sealed page: a page of a read-only area that was there at a fork. `ExecRuns` says for every image
and every address what a process finds there after exec, and which stores a fork makes fail.

**Block cache and disk queue** (`BufferCache`, `CacheInvariant`, `CacheCoherence`, `CacheGets`,
`Rings`, `CacheLinks`). A transition system whose steps are what a process does between two sleeps, and
the disk interrupt. Its invariant covers ownership of buffers, unique keys, the drive and its
queue, lost wakeups and completion order; a second one says that the cache agrees with a flat
disk, and `CacheCoherence.BreadAnswers` follows a `bread` from its call to its return. `CacheGets`
does so for `getblk` on every device, and shows that the buffer free longest is recycled.
`CacheLinks.Cache` has the circular `av` and `b` lists and shows that each routine does
to the links what its step says.

**Files** (`Bitmaps`, `BlockMap`, `FileBytes`, `MapBytes`, `Files`, `FileRuns`, `Directory`,
`DirectoryBytes`, `Namei`). Block maps with their two levels of index blocks on a disk of byte
blocks; `Files.FileSystem` has `balloc`, `bmap`, `readi` and `writei`. All maps stay disjoint
trees, and any run of writes and reads acts on a map from inode numbers to byte sequences. `MapBytes`
says where each byte lies in terms of inode slots and disk bytes alone.
`Namei` works on directory files through these routines: a directory acts as a map from names
to inode numbers over any run, although dead entries are never skipped.

**Ownership** (`Ledgers`, `Buckets`, `KernelHeap`, `Kmalloc`, `ProcTree`, `ProcRuns`,
`ProcTable`, `RefTables`, `OpenFiles`, `TableRuns`). The bucket allocator, with its lists in the
memory it manages: blocks never overlap, tile their pages, and what their holders write cannot
disturb the lists. The process table: parents are alive, no exit status is lost or told twice, no
parent sleeps past a zombie child. The file and inode tables: counts are numbers of
references over every run of open, close, dup, dup2, chdir, exec, fork and exit, up to the
first call that goes wrong in one of the ways that `TableRuns.Breaks` lists.

Where the code departs from its comments the model follows the code. Five properties that one
would expect are false of it, and are replaced by the exact condition under which they hold:
copy-on-write does not show, except to stores to sealed pages (`MemoryRuns.CopiedRun`); read-only
areas do not protect their pages until a fork (`MemoryRuns.ReadOnlyUnenforced`); names longer than
12 bytes cannot be found again (`DirectoryBytes.NewEntryDecodes`); `dup2` of a descriptor to itself
can free the inode it refers to (`RefTables.DupSelf`); and the range of descriptors is not checked
(`OpenFiles.Tables.DoDup`). Each comes with a case in which it fails; for the first two it is
`MemoryRuns.TextAfterFork`. The counter `f_count` is a char: `RefTables.AddFdInv` says exactly when
one more descriptor keeps it right.

I/O, time and uninitialised memory are parameters: the contents of file pages, stale frames and
stack variables, addresses that an allocator returns, and the order in which processes run.

## Model

| member | source | states |
|---|---|---|
| `AddressSpaces.Kernel.constructor` | src/mm/pm.c:94-129 | after start-up every frame that is not reserved is on the free list exactly once with count 0, and process 0 with its directory satisfies the whole paging invariant |
| `AddressSpaces.LinkFree` | src/mm/pm.c:112-126 | the `pg_next` links run through exactly the frames that are not reserved, in ascending order |
| `AddressSpaces.Kernel.PgAlloc` | src/mm/pm.c:45-59 | takes the head of the free list, with count 1 and its old contents; panics exactly when the list is empty |
| `AddressSpaces.Kernel.PgFree` | src/mm/pm.c:65-78 | one reference less; the frame is back at the head of the free list exactly if that was the last one |
| `AddressSpaces.Kernel.KmallocPage` | src/mm/malloc.c:133-137 | a frame from the free list becomes the kernel's and nobody else's; the ledger holds |
| `AddressSpaces.Kernel.KfreePage` | src/mm/malloc.c:176-181 | the kernel's frame is free again; the ledger holds |
| `AddressSpaces.Kernel.FindPte` | src/mm/pte.c:44-66 | the page table of an address exists afterwards; nobody's page changes |
| `AddressSpaces.Kernel.PgAttach` | src/mm/pm.c:83-91 | a frame from the free list becomes the page of the address and nobody else's; no other reference changes |
| `AddressSpaces.Kernel.FindVma` | src/mm/vm.c:136-147 | the first area that contains the address, none exactly if no area does, by the bases and sizes of the areas |
| `AddressSpaces.Kernel.DoNoPage` | src/mm/pgfault.c:12-59 | SIGSEGV exactly for an address that no area has and that is not within a page below the stack; otherwise the page appears with the stale frame, zeros or the file page, mapped by this process alone, and a stack that grows is one page longer |
| `AddressSpaces.Kernel.DoWpPage` | src/mm/pgfault.c:68-96 | SIGSEGV exactly for a read-only area; otherwise the page ends up writable with the same contents and no other reference changes |
| `AddressSpaces.Kernel.BreakSharing` | src/mm/pgfault.c:82-90 | the copy step of copy-on-write: the shared frame loses one reference and the page moves to a frame of its own with the same contents |
| `AddressSpaces.Kernel.PtCopy` | src/mm/pte.c:92-123 | afterwards the child maps exactly the parent's pages, frame by frame and write-protected on both sides; no other process is touched |
| `AddressSpaces.Kernel.CopyPte` | src/mm/pte.c:107-118 | one entry: the 8-bit count is raised without wrapping and the pages copied so far stay shared |
| `AddressSpaces.Kernel.PtFree` | src/mm/pte.c:126-147 | all pages and page tables of the address space are given up and nothing else changes |
| `AddressSpaces.Kernel.PgdInit` | src/mm/pte.c:71-85 | the directory has the kernel's entries and no user table |
| `AddressSpaces.Kernel.VmClone` | src/mm/vm.c:28-49 | the new address space is a clone: same areas, same pages, nobody else's references, permissions or contents changed |
| `AddressSpaces.Kernel.VmClear` | src/mm/vm.c:56-74 | the address space has no areas, pages or tables left and the frame ledger holds |
| `AddressSpaces.Kernel.VmRenew` | src/mm/vm.c:77-94 | a blank directory and the five page-aligned areas of the image; what they hold, address by address, is `ExecRuns.ExecThenLoad` |
| `AddressSpaces.Kernel.Exec` | src/kern/exec.c:82-83 | the process loses all its pages, gets the areas of the image, and no other process is affected; what each address then holds is `ExecRuns.ExecThenLoad` |
| `AddressSpaces.Kernel.Exit` | src/kern/exit.c:41-42 | the address space disappears with all its references; the other processes see no change |
| `AddressSpaces.Kernel.StoreFault` | src/mm/pgfault.c:101-122 | one fault of a store: SIGSEGV exactly for a forbidden store, with nothing changed; a present page keeps its contents and an absent one appears, with exactly the zeros, the file page or the free frame it is due; the areas change only where the stack grows; no page of a read-only area gains or loses its permission |
| `AddressSpaces.Kernel.UserStore` | src/mm/pgfault.c:101-122 | a user store needs at most two faults, is refused, with nothing changed, exactly if it is forbidden, and otherwise changes one word of its own page, which ends up writable, after at most that page appeared; areas and permissions of read-only areas are determined; it runs out of memory only if its page is not there and writable |
| `AddressSpaces.Kernel.VerifyPage` | src/mm/vm.c:119-125 | the page ends up present and mapped by this process alone, and SIGSEGV is raised exactly if a store is forbidden; a present page keeps its contents, an absent one appears with the contents it is due |
| `AddressSpaces.Kernel.VmVerify` | src/mm/vm.c:109-128 | for a range that does not wrap, by its bytes: unless SIGSEGV was raised, the page of every byte is present, writable and unshared; SIGSEGV was raised exactly if some page that meets the range is refused at its turn; no page outside the range appears and none that was there changes; it panics exactly if the range reaches into the last page, or without memory. A range that is empty or wraps is taken for its first page, or for none, under exact conditions. The pages appear in order with the contents they are due, and areas and read-only permissions are determined |
| `Ranges.Visited` | src/mm/vm.c:113-125 | the pages that the loop visits are exactly those that meet the range; the last page of the address space is among them exactly if the range reaches into it |
| `Ranges.Kinds` | src/mm/vm.c:113-125 | every other range: empty or wrapping ones get a visit to their first page exactly if their end lies in it, and none otherwise |
| `Ranges.RangeTold` | src/mm/vm.c:109-128 | what the loop over page numbers means for the bytes of the range: held, refused, and nothing outside touched |
| `AddressSpaces.Kernel.VerifyRound` | src/mm/vm.c:118-126 | one round of the loop keeps all of this for one page more |
| `SpaceSteps.ForbiddenPage` | src/mm/pgfault.c:101-122 | whether a store is forbidden depends on the page only, not on the address in it |
| `SpaceSteps.VerifiedStep` | src/mm/vm.c:118-126 | one round of `vm_verify` adds exactly the events, refusals and areas that belong to its page, all told in terms of the machine before the first round |
| `Sealing.GrownFlags` | src/mm/pgfault.c:21-28 | an address that an area covers keeps the flags of its area when the stack grows |
| `Sealing.FaultSealed` | src/mm/pgfault.c:53-54 | a fault takes no page of a read-only area into or out of write protection, if the page that appears is writable, as the code maps it |
| `Sealing.ClonedSealed` | src/mm/pte.c:111-118 | a fork write-protects the pages of read-only areas of parent and child, and no other page of such an area |
| `Sealing.DroppedSealed` | src/mm/pte.c:126-147 | giving up an address space takes its write-protected pages with it and leaves those of others |
| `EagerKernel.Differs` | src/mm/pgfault.c:75-77 | an access has another outcome than under a fork that copies every page, if and only if it is a store, or the check for one, that nothing but a sealed page refuses |
| `EagerKernel.SameNext` | src/mm/pte.c:92-123 | an operation that hits no sealed page does to pages and areas what it does under a fork that copies |
| `EagerKernel.CopiesUnlessHit` | src/mm/pte.c:92-123 | a run has the outcomes, pages and areas it has under a fork that copies every page at once, if and only if no store in it goes to a sealed page |
| `EagerKernel.EventsTouch` | src/mm/pgfault.c:12-122 | the events of an operation concern the pages of its own process |
| `Shows.RefusesIs` | src/mm/pgfault.c:68-77 | the fault handlers refuse a store exactly where the eager kernel does: to an absent page that nothing backs, or to a sealed one |
| `Shows.RangeIs` | src/mm/vm.c:118-126 | `vm_verify` makes the pages appear that the eager kernel does |
| `Shows.RangeRefusesIs` | src/mm/vm.c:118-126 | `vm_verify` raises SIGSEGV exactly where the eager kernel does |
| `Shows.ShownFork` | src/mm/vm.c:28-49 | a clone shows as the eager fork: pages copied, areas inherited, pages of read-only areas sealed on both sides |
| `Shows.ShownExec` | src/kern/exec.c:82-83 | exec shows as the eager one: pages gone, areas of the image, nothing else changed |
| `Shows.ShownExit` | src/kern/exit.c:41-42 | likewise for exit |
| `SpaceSteps.GrowStack` | src/mm/pgfault.c:21-28 | growing the stack does not wrap, keeps areas page aligned, and covers all that was covered; it adds exactly one page below the stack and leaves the other areas alone |
| `SpaceSteps.NowhereIs` | src/mm/pgfault.c:21-35 | the wrapping subtraction and the search refuse exactly the addresses that no area has and that are not within a page below the stack |
| `SpaceSteps.AlignedExecd` | src/mm/vm.c:80-92 | the areas of an aligned image are page aligned, private, backed and end below 4 GB |
| `SpaceSteps.ClonedView` | src/mm/pte.c:92-123 | what programs read after a lazy clone is what they read after an eager copy of every page |
| `SpaceSteps.WrittenView` | src/mm/pgfault.c:79-95 | breaking the sharing of a page changes no process's view |
| `SpaceSteps.StoreOwned` | src/mm/pgfault.c:68-96 | a store through a page with one holder is seen by that holder only |
| `SpaceSteps.SharedEntry` | src/mm/pte.c:107-118 | copying one present entry keeps the ledger, the write protection of shared frames and the progress of the copy |
| `Paging.CountBound` | src/inc/page.h:4 | a frame that is not reserved has at most 64 references, so its 8-bit count never wraps |
| `Paging.WritableIsSole` | src/mm/pgfault.c:79-95 | a page that is writable through one entry is mapped nowhere else and is counted once |
| `Paging.StepInv` | src/mm/pm.c:45-78 | any step keeps the paging invariant if the references it touches are sound and counts and free list are right |
| `PagingSteps.TakeInv` | src/mm/pm.c:45-59 | allocation keeps ledger, sharing discipline, area coverage and free list |
| `PagingSteps.SetWriteInv` | src/mm/pgfault.c:91-94 | changing an entry's permission keeps the invariant if it ends up write-protected or its frame is counted once |
| `PagingSteps.MoveInv` | src/mm/pgfault.c:82-90 | moving an entry to a private copy keeps every count equal to the number of references |
| `WindowSteps.CopyEntryInv` | src/mm/pte.c:111-118 | sharing a page with the child keeps the invariant, because both entries are write-protected |
| `WindowSteps.DropEntryInv` | src/mm/pte.c:137-141 | giving up a page keeps every count equal to the number of references |
| `WindowSteps.DropSpaceInv` | src/kern/exit.c:41-42 | freeing an emptied directory keeps the invariant |
| `MemoryRuns.Step` | src/mm/pgfault.c:12-122 | every operation takes what the kernel shows, which is pages, areas and sealed pages, to what the eager kernel computes from it, with the same outcome; pages that the kernel holds are not touched; it fails only if it needs a frame and none is left, or where `vm_verify` wraps |
| `MemoryRuns.Run` | src/mm/pte.c:92-123 | over every run of forks, execs, exits, loads, stores, kernel copies and kernel pages, the kernel shows the state of the eager one, and each access has its outcome; for every prefix this is the run of a kernel whose fork copies every page at once, if and only if no store in it goes to a sealed page; while only others act a process reads the same; the ledger holds in every state between; the run ends early only at an operation that needs a frame when none is left, or where `vm_verify` wraps |
| `MemoryRuns.Refines` | src/mm/pte.c:92-123 | each state of a run shows the state that the eager kernel reaches by the same operations |
| `MemoryRuns.Undisturbed` | src/mm/pte.c:87-91 | the pages of a process are the same at any two moments between which only other processes act |
| `MemoryRuns.KernelPageKept` | src/mm/malloc.c:133-137 | a page that the kernel holds keeps its frame and contents until it is freed, whatever processes do |
| `MemoryRuns.CopiedRun` | src/mm/pte.c:92-123 | for every prefix of a run: it is that of a fork that copies, if and only if it hits no sealed page |
| `MemoryRuns.SealedHistory` | src/mm/pte.c:113-114 | over every run, a page of a read-only area is write-protected if and only if it has been there since a fork of its process or into it, or was write-protected at the start and has been there since |
| `MemoryRuns.StartUnsealed` | src/mm/pm.c:94-129 | before the first exec nothing is write-protected in a read-only area |
| `MemoryRuns.ReadOnlyUnenforced` | src/mm/pgfault.c:53-54 | over every run, a store to a read-only area raises SIGSEGV if and only if its page has been there since a fork of its process or into it, or was write-protected at the start |
| `MemoryRuns.TextAfterFork` | src/mm/pgfault.c:75-77 | for every image: exec, a store to the text, a fork, the store again by parent or child; the first store goes through, the second is refused, and a fork that copies would let it through |
| `MemoryRuns.ForkThenExit` | src/mm/vm.c:28-74 | fork followed by the child's exit restores every count, the free frames and all pages |
| `MemoryRuns.StoreToText` | src/mm/pgfault.c:53-54 | for every image with a text segment: a store to it right after exec is not refused |
| `ExecRuns.GrowsAt` | src/mm/pgfault.c:21-28 | the 32-bit test accepts exactly the addresses from one page below the base of the stack up to the base |
| `ExecRuns.Bounds` | src/mm/vm.c:77-94 | bases, sizes and flags of the five areas in fields of the image; no sum wraps for an aligned image |
| `ExecRuns.ImageFlags` | src/mm/vm.c:83-92 | which addresses are in an area, which are filled with zeros, and that exactly the text is read-only |
| `ExecRuns.ExecThenLoad` | src/mm/pgfault.c:12-59 | for every aligned image and every user address, exec and then a load on the machine: text and data come from the file, bss, the heap page and the stack page above its base are zeros, the page below the stack and the base itself come as their frame was found, and every other address raises SIGSEGV |
| `ExecRuns.StoreAfterFork` | src/mm/pgfault.c:68-96 | for every aligned image and every user address: exec, a store, a fork and the store again, by parent or child; the first is refused exactly where nothing backs the address, the last also exactly in the text |
| `MemoryRuns.KernelStore` | src/mm/vm.c:96-108 | a store by the kernel to a verified page is seen by that process only, and by no page of the kernel |
| `EagerMemory.Isolation` | src/mm/pte.c:87-91 | in the eager machine a page of a process changes only by events of that process |
| `BufferCache.InCore` | src/blk/buf.c:23-34 | the first cached buffer with the key, none exactly if no buffer of the device's list has it |
| `CacheInvariant.NextInv` | src/blk/buf.c:48-198 | every step of every process and of the interrupt keeps: each buffer in one place, keys unique, drive busy exactly while requests are queued, no wakeup lost, completion in submission order |
| `CacheInvariant.AttemptInv` | src/blk/buf.c:48-113 | `getblk` keeps all of this in its four cases, although eviction overwrites all flags |
| `CacheInvariant.ReleasedInv` | src/blk/buf.c:121-138 | `brelse` keeps all of this: nobody who waits for the buffer, or for any buffer, is left asleep |
| `CacheInvariant.InterruptedInv` | src/blk/hd.c:103-120 | the interrupt keeps all of this: it completes the buffer whose command was issued, and the next oldest becomes the drive's |
| `CacheInvariant.InitialInv` | src/blk/buf.c:207-231 | the state after start-up satisfies the invariant |
| `CacheInvariant.Run` | src/blk/buf.c:48-198 | the invariant holds at the end of every run |
| `CacheCoherence.EveryRun` | src/blk/buf.c:23-198 | in every state reachable from start-up the invariant holds, and if only the root device is used every valid unedited buffer agrees with the disk |
| `CacheCoherence.NextCoherent` | src/blk/hd.c:60-120 | every step keeps the agreement between cache, disk, pending writes and what was last written |
| `CacheCoherence.ReadsLatest` | src/blk/buf.c:169-179 | the holder of a valid unedited buffer sees what was last written to its block |
| `CacheCoherence.BreadReturns` | src/blk/buf.c:169-179 | `bread` that need not wait returns the block asked for with the contents last written to it |
| `CacheCoherence.WaitReturns` | src/blk/buf.c:149-153 | a process that comes back from waiting for the disk holds its buffer, valid and with the contents last written to the buffer's block |
| `CacheCoherence.AttemptAsks` | src/blk/buf.c:48-113 | when `getblk` under `bread` leaves the processor, it still asks for the same block: a buffer it waits with is that block's |
| `CacheCoherence.BreadStep` | src/blk/buf.c:149-179 | any step of anybody leaves a `bread` asking for its block, or answered |
| `CacheCoherence.BreadAnswers` | src/blk/buf.c:169-179 | from every reachable state and through any hits, evictions, waits and steps of others, the first time the caller of `bread` is back it holds the block it asked for, valid and with the contents last written to it |
| `CacheGets.AttemptGets` | src/blk/buf.c:48-113 | up to its next sleep or return, a `getblk` or `bread` still asks for its device and block or has a busy buffer with exactly those |
| `CacheGets.GetStep` | src/blk/buf.c:48-179 | no step of anybody changes what a caller asks for; when it returns it holds that block |
| `CacheGets.GetAnswers` | src/blk/buf.c:48-113 | for `getblk` and `bread`, on every device and from every reachable state: through any steps the caller goes on asking for its device and block, and the first time it is back it holds a busy buffer with exactly that device and block |
| `CacheGets.MissTakes` | src/blk/buf.c:85-110 | a block that no buffer has gets the buffer at the head of the free list |
| `CacheGets.RecyclesOldest` | src/blk/buf.c:85-110 | over every run, the buffer that is recycled has been free at least as long as every other free buffer |
| `CacheCoherence.HeldKey` | src/blk/buf.c:90-112 | a buffer never changes its identity while it is held |
| `Rings.RingInsert` | src/blk/hd.c:62-65 | linking a node in between two neighbours gives the ring with that node at that place |
| `Rings.RingDelete` | src/blk/buf.c:143-147 | unlinking a node gives the ring without it |
| `CacheLinks.AvTake` | src/blk/buf.c:143-147 | taking a buffer off the free list leaves both lists through the `av` links well formed and disjoint |
| `CacheLinks.BMove` | src/blk/buf.c:101-107 | moving a buffer to the front of the device's list leaves that list well formed |
| `CacheLinks.Cache.constructor` | src/blk/buf.c:207-231 | the linked lists built at start-up are those of the initial state |
| `CacheLinks.Cache.FindInCore` | src/blk/buf.c:23-34 | following the `b` links finds the buffer that the search on the list finds |
| `CacheLinks.Cache.GetBlk` | src/blk/buf.c:48-113 | on links and flags, up to the next sleep or return, what the step of the transition system says; the caller still asks for its device and block, or holds a busy buffer with exactly those |
| `CacheLinks.Cache.BRelse` | src/blk/buf.c:121-138 | likewise for `brelse` |
| `CacheLinks.Cache.BWrite` | src/blk/buf.c:187-198 | likewise for `bwrite` with its wait |
| `CacheLinks.Cache.IoWait` | src/blk/buf.c:149-153 | likewise for `iowait` after a wakeup |
| `CacheLinks.Cache.HdRequest` | src/blk/hd.c:60-71 | likewise for `hd_request`: the buffer is at the head of the queue and an idle drive is started |
| `CacheLinks.Cache.HdStart` | src/blk/hd.c:79-96 | likewise for `hd_start`: the command is that of the tail |
| `CacheLinks.Cache.DoHdIntr` | src/blk/hd.c:103-120 | likewise for the interrupt handler |
| `CacheLinks.Cache.IoDone` | src/blk/buf.c:155-160 | marks the buffer done, wakes its waiters and clears the wanted flag |
| `Bitmaps.FindBit` | src/fs/alloc.c:127-140 | the least clear bit of the block, -1 exactly if all are set, sign extension included; bit n counts 1 << n % 8 in byte n / 8 |
| `Bitmaps.BitIs` | src/fs/alloc.c:127-140 | testing bit j by shifting is testing the weight 1 << j |
| `Bitmaps.FullByte` | src/fs/alloc.c:130-132 | the sign-extended test skips a byte exactly if all its bits are set |
| `Bitmaps.SetBitAt` | src/fs/alloc.c:97 | setting a clear bit changes that bit alone |
| `Bitmaps.ClearBitAt` | src/fs/alloc.c:120 | clearing a set bit changes that bit alone |
| `Bitmaps.ClearAfterSet` | src/fs/alloc.c:83-124 | freeing a number just allocated restores the block byte for byte |
| `Bitmaps.InodeMap.IAlloc` | src/fs/alloc.c:83-106 | the least number not allocated; never returns exactly if all are; its byte is raised by the weight of that bit and no other changes |
| `Bitmaps.InodeMap.IFree` | src/fs/alloc.c:108-124 | frees exactly that number; panics exactly if it is out of range or not allocated; its byte is lowered by the weight of that bit and no other changes |
| `Bitmaps.AllocThenFree` | src/fs/alloc.c:83-124 | allocating and freeing goes through, with the bitmap as it was, if and only if the least free number is above 0 and below the number of inodes; for another number the free panics and the bit stays set |
| `Bitmaps.RunMap` | src/fs/alloc.c:83-124 | any run of allocations and frees acts on the set of numbers in use; it ends early exactly at an allocation with none left or a free that panics; a number is given out twice only if it was freed in between |
| `BlockMap.PlaceZone` | src/fs/bmap.c:38-105 | entering a fresh zone at a free place changes that place alone, in the maps of all files |
| `BlockMap.AllocAtTree` | src/fs/bmap.c:38-105 | one allocation keeps all maps disjoint trees of marked zones and moves no data |
| `BlockMap.PutEntryAt` | src/fs/bmap.c:63-66 | a zone number written to an index block reads back through the signed 16-bit entry, and no other entry changes |
| `BlockMap.TakeZoneTree` | src/fs/alloc.c:18-41 | marking a free zone, and clearing it for an index block, changes no map |
| `BlockMap.DataPaths` | src/fs/bmap.c:28-106 | different block numbers lead to different places, none of them an index |
| `Files.FileSystem.BAlloc` | src/fs/alloc.c:18-41 | the least zone that is not marked is marked; never returns only if all are marked; its byte of the bitmap block is raised by the weight of that bit and nothing else changes |
| `Files.FileSystem.Bmap` | src/fs/bmap.c:28-106 | the zone is what the inode and the bytes of the disk say: slot nr of the inode below 7, the signed little-endian short nr - 7 of the block of slot 7 below 519, and above that through slot 8 by quotient and remainder of nr - 519 by 512, with 0 for a missing index block. Every other block of every file resolves as before, and all maps stay disjoint trees; without create nothing changes; with create the block resolves to a nonzero zone from now on, and the call hangs only if it was missing and no zone is free |
| `MapBytes.LookupIs` | src/fs/bmap.c:38-105 | the lookup through places in the tree reads exactly the inode slots and disk bytes that the two levels of index blocks name |
| `MapBytes.GrowsKeeps` | src/fs/bmap.c:28-106 | mapping one block changes what the inodes and index blocks say about no other block of any file |
| `MapBytes.WrittenBytes` | src/fs/rdwri.c:64-76 | the bytes written are in the zones that inode and index blocks name, and every byte that was not reached is still in its place, in every file |
| `Files.FileSystem.Walk` | src/fs/bmap.c:37-69 | the same for the direct slots and the indirect block, by places in the tree |
| `Files.FileSystem.DoubleZone` | src/fs/bmap.c:71-105 | the same for the double indirect part |
| `FileBytes.FewBlocks` | src/fs/bmap.c:28-36 | a file whose first n blocks are there has n at most 8192, so that block numbers fit in 16 bits |
| `FileBytes.DataWrite` | src/fs/rdwri.c:71-73 | overwriting a data block changes no map and no other data block |
| `FileBytes.WriteRun` | src/fs/rdwri.c:64-76 | one round of the write loop: the run lands where its 16-bit block number leads, and no byte of any file that is not reached changes |
| `FileBytes.LandedWrote` | src/fs/rdwri.c:64-76 | below 64 MB every byte lands at its own offset |
| `FileBytes.StaysBelow` | src/fs/rdwri.c:64-76 | a write that starts within a file without holes never gets near 64 MB: the zones run out first |
| `FileBytes.EndWrite` | src/fs/rdwri.c:77-82 | raising the size turns the written range into the spliced sequence |
| `FileBytes.GaplessMapped` | src/fs/rdwri.c:35-46 | in a file without holes every byte is in a block whose number fits in 16 bits |
| `Files.FileSystem.ReadI` | src/fs/rdwri.c:22-48 | error exactly past the end or on wrap-around; a hole exactly if a block of the range is missing; otherwise the bytes of the range, which for a file without holes are that part of its contents; nothing changes; all of it also said by the disk bytes that inode and index blocks name |
| `Files.FileSystem.WriteI` | src/fs/rdwri.c:53-83 | for all inputs each byte lands where its 16-bit block number leads, later ones over earlier ones, and nothing else changes; below 64 MB that is its own offset; for a file without holes and an offset within it the contents are spliced exactly; every other file keeps its contents; the error cases are exact; all of it also said by the disk bytes that inode and index blocks name |
| `FileRuns.WriteAll` | src/fs/rdwri.c:53-83 | over any run of writes to any files the map of all file contents is the replayed one |
| `FileRuns.WriteThenRead` | src/fs/rdwri.c:22-83 | after any run of writes a read of any range of any file returns that part of the replayed contents |
| `FileRuns.OneWrite` | src/fs/rdwri.c:53-83 | one write changes the map of all files at one file, by splicing |
| `Directory.First` | src/fs/namei.c:32-44 | the first entry with the name, dead or live |
| `Directory.FindShows` | src/fs/namei.c:21-46 | although dead entries are not skipped, the first match gives the number in the name map, 0 if the name is not there |
| `Directory.UnlinkShows` | src/fs/namei.c:51-78 | removing takes the name out of the map and keeps live entries ahead of dead ones of the same name |
| `Directory.LinkShows` | src/fs/namei.c:85-111 | adding an absent name at the first dead entry adds it to the map and keeps that order |
| `Directory.LinkNeedsAbsence` | src/fs/namei.c:80-84 | adding keeps the order if and only if the name was not there |
| `Directory.LinkTwice` | src/fs/namei.c:80-84 | linking one name twice breaks the order |
| `Directory.UnlinkUndone` | src/fs/link.c:91-103 | removing a directory's name and adding it again restores the map |
| `DirectoryBytes.WholeEntry` | src/fs/namei.c:104-106 | 32 bytes written at an entry boundary replace or append that entry and change no other |
| `DirectoryBytes.DeadEntry` | src/fs/namei.c:67-70 | two zero bytes make the entry dead, keep its name and change no other entry |
| `DirectoryBytes.NewEntryDecodes` | src/fs/namei.c:93-105 | the entry written for a name can be found under it if and only if the name has at most 12 bytes |
| `DirectoryBytes.TextIs` | src/fs/namei.c:36-38 | the name read from an entry is s exactly if s is there byte by byte, with no zero in it, and ends at a zero or at the end of the entry |
| `DirectoryBytes.ThirteenLost` | src/fs/namei.c:93-105 | a name of 13 bytes that is lost |
| `Namei.BlockEntries` | src/fs/namei.c:32-37 | the j-th entry of the i-th block is entry 32 i + j of the file |
| `Namei.ScanBlock` | src/fs/namei.c:36-42 | the first matching entry of a block |
| `Namei.Locate` | src/fs/namei.c:32-44 | the nested loops find the first matching entry of the directory and its block, or none exactly if there is none |
| `Namei.FindEntry` | src/fs/namei.c:21-46 | the number in the first entry whose bytes on the disk are the name, cut to 12 bytes; 0 for no match or no directory; nothing changes |
| `Namei.EntryIs` | src/fs/namei.c:35-38 | entry k of a directory is (ino, name) exactly if bytes 32 k and up of the directory, on the disk, are the number, low byte first, the name and a zero |
| `Namei.LiveOnDisk` | src/fs/namei.c:32-44 | a name is live with a number exactly if some entry on the disk spells it |
| `Namei.UnlinkEntry` | src/fs/namei.c:51-78 | exactly the first match dies in the directory file; other files keep their contents |
| `Namei.Erased` | src/fs/namei.c:67-70 | the write to the cached block is a splice of two bytes of the directory file |
| `Namei.LinkEntry` | src/fs/namei.c:85-111 | through `readi` and `writei` the first dead entry is replaced or one is appended; stuck only if it must append and no zone is free |
| `Namei.DoLink` | src/fs/link.c:37-58 | nothing changes for a name that is there, empty, longer than 11 bytes, `.` or `..`; otherwise the name is added to the map and an entry on the disk spells it |
| `Namei.DoUnlink` | src/fs/link.c:84-103 | nothing changes for an empty name, one longer than 11 bytes, `.` or `..`; otherwise no live entry on the disk spells the name any more, but a directory is put back, which cannot fail |
| `Namei.RunNames` | src/fs/namei.c:21-111 | over every run of links and unlinks the directory file shows the replayed name map and other files keep their contents |
| `Namei.RunThenFind` | src/fs/namei.c:21-111 | after any run `find_entry` answers what the replayed map says |
| `Buckets.BlocksApart` | src/mm/malloc.c:120-155 | any two blocks handed out are disjoint |
| `Buckets.BlockAligned` | src/mm/malloc.c:10-18 | a block is aligned to its size class |
| `Buckets.SlotsTile` | src/mm/malloc.c:104-109 | the entries of a new bucket are the aligned slots of its page, each once |
| `Buckets.NewBucketInv` | src/mm/malloc.c:150-153 | a new bucket keeps: free chains and blocks handed out tile each bucket page |
| `Buckets.TakeEntryInv` | src/mm/malloc.c:143-147 | handing out an entry keeps the tiling, and the entry was not handed out before |
| `Buckets.GiveEntryInv` | src/mm/malloc.c:184-187 | taking a block back keeps the tiling |
| `KernelHeap.LinkedFrame` | src/mm/malloc.c:59-191 | a write to a word that no list is made of disturbs no list |
| `KernelHeap.BlockWrite` | src/mm/malloc.c:120-155 | what the holder of a block writes into it disturbs no list |
| `KernelHeap.TakeLinked` | src/mm/malloc.c:143-147 | moving the first-entry word on is handing out the first entry |
| `KernelHeap.GiveLinked` | src/mm/malloc.c:184-187 | the two stores of `kfree` push the block on the bucket's chain |
| `KernelHeap.InsertLinked` | src/mm/malloc.c:150-153 | the new bucket heads its chain and all other lists are as before |
| `Kmalloc.BkSlot` | src/mm/malloc.c:39-53 | the least size class that fits, -1 exactly for sizes out of range |
| `Kmalloc.Allocator.BkAlloc` | src/mm/malloc.c:59-82 | a free struct, from a new page of 256 if none was left; fails exactly without struct and page |
| `Kmalloc.Allocator.BkInit` | src/mm/malloc.c:93-111 | the bucket's page is linked as a chain of all its slots |
| `Kmalloc.Allocator.KMalloc` | src/mm/malloc.c:120-155 | a block of the right class, aligned and apart from all blocks handed out; without a free entry exactly two buckets are made and the entry comes from the first; the failures are exact |
| `Kmalloc.Allocator.KFree` | src/mm/malloc.c:160-191 | the block goes back to its bucket or page and no other block changes; its panic is never reached for a block that is out |
| `Kmalloc.Allocator.Store` | src/mm/malloc.c:10-18 | writing to a block keeps the allocator in order |
| `Kmalloc.GiveAfterTake` | src/mm/malloc.c:120-191 | freeing an entry just taken restores the heap |
| `ProcTree.FirstFree` | src/kern/fork.c:33-41 | the first free slot |
| `ProcRuns.NextInv` | src/kern/exit.c:43-56 | every step keeps: slot number is pid, every parent is there and no zombie, zombies wait for nothing, nobody sleeps in `waitpid` with a child to reap |
| `ProcRuns.ForkInv` | src/kern/fork.c:57-69 | a fork keeps it, although the child's channel holds garbage |
| `ProcRuns.ExitInv` | src/kern/exit.c:43-56 | an exit keeps it and makes exactly one zombie |
| `ProcRuns.ExitChannels` | src/kern/exit.c:52-55 | the channels woken are the addresses of the parent and of process 1, never 0 |
| `ProcRuns.ExitedNoneMissed` | src/kern/exit.c:47-55 | giving the children to process 1 leaves nobody asleep with a child to reap |
| `ProcRuns.ReapInv` | src/kern/wait.c:52-58 | reaping keeps it and removes exactly one zombie |
| `ProcRuns.WokenZombies` | src/kern/sched.c:38-53 | `wakeup` leaves all zombies alone if and only if the channel is not 0 or there is no zombie |
| `ProcRuns.ZombieStep` | src/kern/wait.c:52-58 | a zombie keeps its status until it is reaped, by its current parent |
| `ProcRuns.ZombieOrigin` | src/kern/exit.c:45-46 | only `do_exit` makes a zombie, with the low 8 bits of the status |
| `ProcRuns.RunPaired` | src/kern/wait.c:23-71 | over every run, per slot, exits and reapings alternate and each reaping delivers the status of the exit before it |
| `ProcRuns.EveryRun` | src/kern/fork.c:138-164 | the same for every run from start-up, with the invariant at its end |
| `ProcTable.Processes.constructor` | src/kern/fork.c:138-164 | the table with process 0 satisfies the invariant |
| `ProcTable.Processes.FindPid` | src/kern/fork.c:33-41 | the first free slot, 0 exactly for a full table |
| `ProcTable.Processes.KSpawn` | src/kern/fork.c:51-110 | the fork step; fails exactly for a full table; the child takes the least free slot, its pid, parent, group, state and address are told, and no other slot changes |
| `ProcTable.Processes.Wakeup` | src/kern/sched.c:38-53 | every process on the channel runs, with its other fields kept; no other changes |
| `ProcTable.Processes.DoExit` | src/kern/exit.c:43-56 | the exit step, with its loop over all processes and both wakeups, told field by field: a zombie with the status as a char keeps it, its children handed to process 1, everybody awake who slept on the address of the parent or of process 1, and nothing else |
| `ProcTable.Processes.WaitRound` | src/kern/wait.c:32-70 | told by the fields of the table: returns a child that was a zombie of the caller, and is the pid asked for, of the caller's group, or of the group named by the caller's pid, as the argument says; it is the first such slot, and exactly if there is one; its status is returned and its slot is free; else returns or sleeps |
| `ProcTable.Processes.Sleep` | src/kern/sched.c:15-36 | the sleep step, interruptible exactly for a priority that is not negative |
| `ProcTable.Processes.SigSend` | src/kern/signal.c:133-154 | errors exactly for a missing process, a bad number, no permission or an ignored signal; otherwise wakes the process if it sleeps interruptibly; zombies stay zombies |
| `ProcTable.Wanted` | src/kern/wait.c:35-50 | the chain of tests accepts exactly the children looked for |
| `ProcTable.LookedFor` | src/kern/wait.c:35-50 | who is looked for, by pid, parent, group and state |
| `ProcTable.ExitFields` | src/kern/exit.c:43-56 | the table after an exit, field by field, for every process |
| `RefTables.InodeBound` | src/inc/inode.h:29 | an inode never has more than 1728 references, so its 16-bit count does not wrap |
| `RefTables.AddFdInv` | src/fs/open.c:121-123 | one more descriptor keeps all counts equal to the references if and only if `f_count` is below 127 |
| `RefTables.DropFdInv` | src/fs/open.c:97-104 | closing keeps the counts, and the last reference frees the inode slot |
| `RefTables.OpenFdInv` | src/fs/open.c:65-76 | opening turns the reference of the system call into one of the descriptor |
| `RefTables.LoadIInv` | src/fs/inode.c:71-80 | loading an inode that is not cached keeps in-core inodes unique |
| `RefTables.DropIInv` | src/fs/inode.c:92-121 | putting an inode keeps the counts and the uniqueness |
| `RefTables.MoveIInv` | src/kern/sys2.c:254-256 | turning the reference of a system call into a directory of the process keeps the counts |
| `RefTables.FileCount` | src/inc/file.h:8 | `f_count` of a file is the number of descriptors, of all processes, that name it |
| `RefTables.DupSelf` | src/fs/open.c:128-142 | `dup2(fd, fd)` keeps the tables in order if and only if the inode has another reference |
| `RefTables.DupSelfFails` | src/fs/open.c:128-142 | tables in order, with a file open once, that `dup2(0, 0)` leaves with a counted slot without an inode |
| `RefTables.DupFails` | src/fs/open.c:121 | tables in order, with 127 descriptors on a file, where one more makes `f_count` -128 |
| `RefTables.StrayCloseFails` | src/fs/open.c:87-100 | if `do_close` takes the address of a file in use out of a word that is no descriptor, the counts are wrong afterwards |
| `OpenFiles.Tables.constructor` | src/fs/open.c:14 | the empty tables satisfy the invariant |
| `OpenFiles.Tables.IGet` | src/fs/inode.c:39-85 | the one slot that holds the inode, found or loaded; busy only if it is locked; overflow only if all slots are counted; slots in use keep their inodes |
| `OpenFiles.Tables.IPut` | src/fs/inode.c:92-121 | one reference less; at 0 the slot loses its inode number |
| `OpenFiles.Tables.UfAlloc` | src/fs/open.c:147-157 | the least free descriptor, -1 exactly if there is none |
| `OpenFiles.Tables.FindFile` | src/fs/open.c:162-173 | the least file that nobody refers to |
| `OpenFiles.Tables.DoOpen` | src/fs/open.c:65-76 | the least free descriptor and the least free file take over the reference; without a descriptor the inode is put; panics exactly without a file; the counts hold; descriptor, file, inode of the file and close-on-exec flag are told field by field |
| `OpenFiles.Tables.DoClose` | src/fs/open.c:84-106 | exactly that reference goes, for exactly the descriptors that are open; descriptor 16 passes the test, and the flag of descriptor 0 is taken for a file exactly if it is an address in the file table; an error, with nothing changed, otherwise; the descriptor is empty, its file and inode count one less, and the inode number is cleared with the last reference |
| `OpenFiles.Tables.DoDup` | src/fs/open.c:109-125 | for a descriptor in range the least free one gets a second reference, and all counts hold afterwards if and only if the file had fewer than 127; a negative one strays exactly if the word there is not null and a descriptor is free; an error, with nothing changed, otherwise; the new descriptor names the same file, whose count goes up in 8 bits, as does that of its inode |
| `OpenFiles.Tables.DoDup2` | src/fs/open.c:128-142 | for descriptors in range the new one names the file, no other reference changes, and all counts hold afterwards if and only if a stated condition on the old state holds; it strays exactly if the old one is found and one of them is out of range; of the descriptors only the new one changes, to the file of the old one |
| `OpenFiles.Tables.SetFdFlag` | src/fs/fcntl.c:28-47 | sets the flag of an open descriptor to any value; error exactly for others |
| `OpenFiles.Tables.SetDirs` | src/kern/main.c:53-57 | the inode got becomes both directories, with a reference each and none left over |
| `OpenFiles.Tables.ChangeDir` | src/kern/sys2.c:219-258 | the directory is replaced and the old one put; panics exactly if there was none; the other directory stays |
| `OpenFiles.Tables.ExecFiles` | src/kern/exec.c:82-100 | text and data refer to the program, the old areas and exactly the descriptors with FD_CLOEXEC are given up, other processes keep theirs |
| `TableRuns.Step` | src/fs/open.c:65-142 | every operation turns the references of the processes into stated new ones and keeps counts, unique inodes and the identity of slots in use, if and only if it is not one of the calls that go wrong |
| `TableRuns.Run` | src/fs/open.c:65-142 | over every run of open, close, dup, dup2, fcntl, chdir, chroot, exec, fork, exit and wait each count is the number of references after every operation; the run ends early exactly at a call that goes wrong |
| `TableRuns.DupBelow` | src/fs/open.c:109-117 | from start-up, with a root directory set, `dup(-1)` takes it for a file |
| `OpenFiles.Tables.Spawn` | src/kern/fork.c:80-96 | the child has the parent's references, all counts hold, others are untouched; fails exactly if some file would pass 127 |
| `OpenFiles.Tables.Exit` | src/kern/exit.c:28-42 | all references of the process and no others go; panics exactly without a root directory |
| `OpenFiles.Tables.SpawnThenExit` | src/kern/fork.c:80-96 | fork followed by the child's exit restores every count and both ledgers |
| `Ledgers.CountedAdd` | src/mm/pm.c:45-59 | a new reference with a raised counter keeps counters equal to numbers of holders |
| `Ledgers.CountedDrop` | src/mm/pm.c:65-78 | a dropped reference with a lowered counter keeps it, and the counter was positive |
| `Ledgers.AtMost` | src/inc/param.h:17 | references that can be numbered apart below n are at most n |

## Left out

- AddressSpaces.Kernel.VmClear: the areas are blanked after the tables are freed; the source blanks them first. The result is the same.
- AddressSpaces.Kernel.VmVerify: where the range reaches the last page the address wraps to 0 and `find_pte` panics on it; the model returns `Panic` there. A range whose end wraps round 32 bits is accepted with a look at its first page at most, as in the source.
- AddressSpaces.Kernel.Exec: the image has to be page aligned, as the source assumes; `a.out` parsing and arguments are not modelled.
- AddressSpaces.Kernel.DoNoPage: the page that `readi` fills from a file is a parameter, and so are the bytes an area slot holds when `vm_clone` leaves it unset.
- The TLB: the model's processor always sees the tables; cached translations are not modelled.
- CacheCoherence.EveryRun: agreement with the disk is stated for one device, because the drive ignores the minor number; it relies on holders writing edited buffers before they release them. Keys, lists, wakeups and order hold for all devices.
- Interrupts between the test and the sleep of `iowait`, and inside the queue edits of `hd_request`: each is one step, though the source does not mask interrupts there.
- B_ERROR, B_DIRTY and B_ASYNC: nothing in the source sets them, and the model proves that they stay clear.
- Files.FileSystem.ReadI: for a hole the source clears memory at an address it has not set; the model stops with `Hole`.
- Files.FileSystem.WriteI: at offsets beyond the largest file size the source's count wraps and it runs past the caller's buffer; the model stops with `Underflow`.
- Files.FileSystem.BAlloc: `balloc` looks at the first bitmap block only and never returns when it is full (src/fs/alloc.c:22-30); the model follows the code and returns `Full` or `Hang` there. Zone numbers are counted as `balloc` counts them, one off from `bfree`.
- Files.FileSystem.Bmap: blocks are read and written directly; that the cache makes this sound is the subject of CacheCoherence. Writing the inode back to disk is not modelled. The data zones lie below 32768, since entries are signed 16-bit numbers, and bits that are clear stand for zones that exist.
- Namei.Locate: looks at entries below the directory's size only; the source's loops go on to the end of the last block and one entry further.
- Namei.FindEntry: bounded by the size as `Namei.Locate` is.
- Namei.UnlinkEntry: bounded by the size as `Namei.Locate` is.
- Namei.LinkEntry: the name is taken to be followed by a zero byte, as in `do_link`; a path component followed by a slash is not modelled.
- Kmalloc.Allocator.KFree: asks for a block that is out and for the size it was asked for with; what `kfree` does to other addresses is not described.
- ProcTable.Processes.DoExit: the part of `do_exit` after resources are released, as one step. Processes 0 and 1 do not exit, and nobody exits inside `do_waitpid`.
- ProcTable.Processes.Sleep: process 0 does not sleep, and no fatal signal is pending when a process goes to sleep.
- ProcTable.Processes.WaitRound: for a pid below -1 the code compares the group with the caller's own pid, where its comment promises the absolute value; the model follows the code.
- OpenFiles.Tables.IGet: the redirection at mount points is not modelled; num is not 0, as no caller passes 0.
- OpenFiles.Tables.IPut: for a slot that is counted; truncating and freeing an inode without links, and writing it back, are left out, and the last `iput` is one step.
- OpenFiles.Tables.DoClose: what happens to the word that is taken for a file, once it has strayed, is `RefTables.StrayClosed`, for an address at the start of a file; other addresses are not modelled.
- OpenFiles.Tables.DoDup: says that it strays, not what it then overwrites; below descriptor -2 whether the word is null is a parameter.
- OpenFiles.Tables.DoDup2: says that it strays, not what it then overwrites; below descriptor -2 whether the word is null is a parameter.
- OpenFiles.Tables.ChangeDir: starts when `namei` has returned a directory; the checks before it are left out.
- OpenFiles.Tables.ExecFiles: starts when the program has been accepted; the failures before that are left out. `vma_init` without an inode leaves `v_ino` as it was (src/mm/vm.c:151-161), so the areas of a process spawned from process 0 keep what was in its page; the model has no inode there.
- OpenFiles.Tables.Spawn: stops at the first count that would pass 127; the source goes on with a negative one. A parent without a working directory leaves the child's `p_wdir` and `p_iroot` as they are found in its page (src/kern/fork.c:81-86); the model has none there, and both directories are set or none. Area slots that the parent does not use are left as found in the source; the model has no inode there.
- OpenFiles.Tables.DoOpen: starts when `namei` has returned; creating, truncating and opening device files are left out.
- `itrunc` and `bfree`: the code reads zone entries as bytes and numbers bits one apart from `balloc`, so there is no inverse to prove.
- Path walking in `namei`, permissions, mount, super blocks, the other commands of `fcntl`, `stat`: thin, or tables looked up once.
- Signal delivery, `sigreturn`, the scheduler's priorities: `swtch` is any choice of a runnable process here, which all properties allow.
- Boot code, traps, segment tables, port I/O, terminal, keyboard, clock, string and print libraries, user programs: hardware, or easy next to the core.
