# A verified model of a small MIPS64 teaching kernel

The kernel has three parts in which the hard promises are kept. This project models each and proves what
its code, tests and comments promise, or, where the code does not keep a promise, exactly when it does.

**The file system (`fs/fs.c`)** in two layers. `CacheModel`, `CacheRefinement` and `BlockCache` are the write-back
cache of 32 slots: over every run of get, change, commit and sink in which no held block is evicted it behaves as a plain array of blocks; `CacheCallers`
says when the gets of find_data_block and of the block it finds make such a run, `CachePages` which pages of the kernel's allocator it takes and gives back, and `CacheLoss` is a run in which a change is lost. Above that
array, `FileMap`, `FileGrowth` and `FindDataBlock` are the direct, single and double indirect block maps, read from the
pointer blocks' own bytes; `FileBytes` and `FileCalls` are the byte loops of read and write as functions, `FileRuns` their runs, `FileSizes` what they do to inode sizes, offsets and other bytes of the disk, `FileSystem` the
loops themselves; `FileTable` is open and close; `Bitmap`, `DiskLayout` and `BlockAllocator` are the bitmaps, the layout and the sliding-window allocators;
`Directory` and `MakeDirectory` are path walking and mkdir, `FullDirectory` a root filled up. The inode a file of `FileSystem` has is the one its
user sees in `FileTable`.

**Virtual memory (`mm/memory.c`, `entry.S`)**. `PageAllocator` is the bump allocator with its bounded stack of freed
pages. `PageTables` is the address and entry arithmetic. `VirtualMemory` is the state (directories, tables, frames,
TLB); `MemoryInvariant`, `Tlb` and `ProcessMemory` prove what each step keeps, `MemoryRuns` what every run keeps,
`AsidReuse` how long eight-bit ASIDs suffice, `TableRoom` which step takes the page tables out of their region, and `TableOverrun` two runs that do. `MemoryManager` is the code's own form. The TLB is modelled after the Context,
EntryHi, EntryLo and Wired registers of MIPS Architecture For Programmers Volume III, MIPS64 Privileged Resource Architecture.

**Scheduling and synchronisation**. `TaskQueue` is the intrusive linked queue on the heap, `Partition` the wake loops' effect.
`KernelModel`, `KernelInvariant` and `KernelRuns` are the process table, its queues and the kernel stacks as a state machine, `WakeCauses` is about
why a task becomes ready and `QueueOrder` about where it then stands and what ends a process,
`SchedulerIdle` is about the scheduler with nobody ready, and
`Scheduler` is `sched.c` over arrays, proved to take that machine's steps. `Monitor` and `Locks` are the hand-off mutex and conditions,
`Ring` and `Mailbox` the mailbox, `Barrier` the barrier. Kernel code yields only in scheduler calls, so one step of a machine is one stretch
between two yields and any task may take the next.

`Digits` is `mini_itoa` and `atoi`. `Blocks` and `Wrappers` hold bytes, words and Option.

Files of the kernel that work by changing things in place have a class or methods with loops here, proved against the
functions the theorems are about. Machine integers are unbounded numbers with the wrap-around written out where the
code can reach it. Contents of recycled pages, interleavings, clock readings, random TLB slots and the locks on a PCB's record are inputs.

Where the code does not do what it evidently means to, the model follows the code and a lemma gives the exact condition:
new pointer blocks of which only four bytes are cleared (`FindDataBlock.FindBlockExact`), cache misses that do not pin
(`CacheRefinement.GetExact`, `CacheRefinement.NextVictim`, `CacheCallers.NestedMissExact`), files opened twice (`FileTable.LastCloseWins`, `FileTable.OpenKeepsSole`), a directory
whose last entry is taken (`MakeDirectory.MkdirExact`), more page tables than their region holds (`TableRoom.StepBelowExact`, `TableRoom.TablesBelowExactly`), a scheduler
with nobody ready (`SchedulerIdle.CanScheduleExact`), ASIDs that repeat (`AsidReuse.TlbTruthfulExactly`), barriers with more users than their goal
(`Barrier.SafeExactly`), and padded decimals that read back as octal (`Digits.DecimalExact`).

## Model

| member | source | states |
|---|---|---|
| CacheRefinement.GetExact | fs/fs.c:86-125 | block_get keeps one slot per block and one page per slot, and leaves the logical contents of every other block alone if and only if it hits or its victim is not a page changed without commit |
| CacheRefinement.GetRefines | fs/fs.c:86-125 | block_get of a held session is the plain array's get and moves no held buffer |
| CacheRefinement.CommitRefines | fs/fs.c:127-143 | block_commit changes no logical contents and moves no held buffer |
| CacheRefinement.CommitSlot | fs/fs.c:127-143 | block_commit unpins the slot of the page it is given, marks it dirty if told to, never clean, and changes nothing else |
| CacheRefinement.SinkExact | fs/fs.c:145-155 | after block_sink the disk equals the logical contents if and only if no slot was changed without commit |
| CacheRefinement.SinkKeeps | fs/fs.c:145-155 | block_sink changes no logical contents and leaves nothing dirty |
| CachePages.SinkSlots | fs/fs.c:145-155 | block_sink takes the dirty mark off every slot and leaves its page, its block and its pin, the hand and the allocator |
| CacheRefinement.StepRefines | fs/fs.c:86-155 | each step of the cache is the matching step of a plain array with a set of held blocks |
| CacheRefinement.RunRefines | fs/fs.c:86-155 | over every legal run each block reads as it was last stored |
| CacheRefinement.RunThenSink | fs/fs.c:86-155 | a run that ends committed and sunk leaves the plain array on the disk |
| CacheRefinement.MissKeepsHeld | fs/fs.c:96-124 | where the victim is not held, a miss leaves every held block in its page, and only held pages differ from the disk unmarked |
| CacheRefinement.NextVictim | fs/fs.c:96-124 | a block just loaded is the next victim if and only if the hand stood on a pinned slot or all others are pinned |
| CacheRefinement.UnpinnedMissLosesChange | fs/fs.c:96-124 | from every state whose hand is on a pinned slot, a change to a block loaded on a miss is lost |
| CachePages.HitPages | fs/fs.c:89-94 | a hit pins its slot and changes nothing else: no page, no byte, no other slot |
| CachePages.MissReusesPage | fs/fs.c:103-124 | a miss gives the victim's page back and takes one: the live pages lose the one and gain the other; it is the same page, with the allocator as before, if and only if fewer than 124 pages are listed, and else the victim's is dropped; the disk changes at the victim's block if that is dirty and nowhere else |
| CachePages.MissTakesPage | fs/fs.c:114-124 | a miss into an empty slot takes the allocator's next page, which was not in use, and writes nothing to disk |
| CachePages.RunForeign | fs/fs.c:86-155 | over every run the live pages that no slot holds never change, and all others are those of the at most 32 slots |
| CacheCallers.ClearRunLegal | fs/fs.c:86-125 | callers that get no block twice and commit what they change keep every run legal if as many slots from the hand as they get blocks are unpinned and cache none of those blocks |
| CacheCallers.WalkTakes | fs/fs.c:881-917 | the double indirect walk, with whatever links missing and bitmap blocks read, is such a caller, gets those blocks, and gives all back |
| CacheCallers.PassLegal | fs/fs.c:881-948 | with that many clear slots the walk and the write or read of its block are a legal run, after which every block reads as on a plain array |
| CacheCallers.NestedMissExact | fs/fs.c:883-917 | where the outer pointer block is cached and the inner and the bitmap block are not, getting the bitmap block evicts the inner one while it is held if and only if the hand stood on a pinned slot, the outer block's for one, or all others are pinned |
| CacheLoss.ChangeLostFromStart | fs/fs.c:61-125 | a run of gets from the empty cache, for any blocks and contents, that reaches such a state and loses the change |
| CacheModel.ScanFinds | fs/fs.c:98-101 | the victim scan ends, at an unpinned slot, wherever the hand is, if one slot is unpinned |
| BlockCache.DiskBuffer.constructor | fs/fs.c:61-70 | with nothing cached every block reads as on the disk |
| BlockCache.DiskBuffer.FindCached | fs/fs.c:89-94 | the loop finds the first slot that caches the block |
| BlockCache.DiskBuffer.PickVictim | fs/fs.c:96-101 | the wrap-around loop ends at the first unpinned slot from the hand |
| BlockCache.DiskBuffer.EvictSlot | fs/fs.c:103-112 | a dirty victim is written back, its page is freed and its slot emptied |
| BlockCache.DiskBuffer.LoadSlot | fs/fs.c:114-122 | the slot gets a page, the block's contents unless the caller will overwrite them, and its flags |
| BlockCache.DiskBuffer.GetBlock | fs/fs.c:86-125 | block_get in place is the model's get, whose pages CachePages has |
| BlockCache.DiskBuffer.CommitPage | fs/fs.c:127-143 | block_commit in place is the model's commit |
| BlockCache.DiskBuffer.SinkBlocks | fs/fs.c:145-155 | block_sink's loop is the model's sink |
| FileMap.LinkAt | fs/fs.c:855-915 | linking a free block changes the block map at one place of one file |
| FileMap.LinkForest | fs/fs.c:848-922 | linking keeps the maps a forest: no block reached twice, none of them metadata or unallocated |
| FileGrowth.LeafBijective | fs/fs.c:854-918 | file block numbers and leaf places of the three addressing ranges correspond one to one |
| FileGrowth.LayoutExact | fs/fs.c:854-918 | file block i has its number in the inode for i < 10, in word i-10 of the block that inode word 10 names for i < 1034, else in word (i-1034) mod 1024 of the block named by word (i-1034)/1024 of the block that inode word 11 names, each word read from its four bytes |
| FileGrowth.PutWordExact | fs/fs.c:878 | storing a word writes its four bytes, least significant first, and no other byte |
| FileGrowth.EveryOffsetAddressable | fs/fs.c:848-918 | every non-negative int offset falls in exactly one range, so the id is never left at -1 |
| FileGrowth.NextFree | fs/fs.c:313-324 | the least free block of a range, if there is one |
| FileGrowth.Cleared | fs/fs.c:870 | memset with sizeof(BLOCK_SIZE) clears word 0 and leaves the rest of the page |
| FindDataBlock.FindBlockGrows | fs/fs.c:848-922 | with clean pages one call extends the forest along one path, makes the file reach the block, leaves the other sizes, and moves no data; it fails if and only if fewer blocks are free than the path lacks |
| FindDataBlock.FindBlockExact | fs/fs.c:863-905 | one call keeps the maps a forest and touches only its own path if and only if every page it gets for a new pointer block is zero beyond its first four bytes |
| FindDataBlock.FullWalkGrows | fs/fs.c:848-922 | a walk that finds the partition full has linked part of its path and changed nothing else |
| FileGrowth.WalkSizes | fs/fs.c:848-850 | find_data_block leaves the file with the larger of its size and the block number plus one, through or not, and every other file with its size |
| FileSizes.EnsureLeast | fs/fs.c:307-329 | a block that is linked is the least free one |
| FileSizes.WalkTouches | fs/fs.c:848-922 | with clean pages a walk, through or not, writes to no block but the pointer blocks of its path |
| FindDataBlock.RecycledPageBreaksMap | fs/fs.c:863-879 | in every state with two free blocks, the first indirect write to a file, with a recycled page of ones, maps two other file blocks to block 1 |
| FileBytes.ChunkWritten | fs/fs.c:930-948 | one pass of the write loop, whole-block chunks without a read included |
| FileBytes.ChunkRead | fs/fs.c:958-976 | one pass of the read loop |
| FileCalls.PassWrites | fs/fs.c:930-948 | with clean pages one pass of the write loop fails if and only if its path lacks more blocks than are free, and then no byte has changed |
| FileCalls.PassReads | fs/fs.c:958-976 | the same of one pass of the read loop |
| FileCalls.WriteExact | fs/fs.c:924-950 | a whole write goes through if and only if the paths of its file blocks lack no more blocks than are free; then the span holds the data and no other byte of any file has changed; else a first part of the data is written and nothing else |
| FileCalls.ReadExact | fs/fs.c:952-979 | a whole read goes through if and only if its holes can be filled; it yields the bytes of the file and changes none, through or not |
| FileCalls.NeededBound | fs/fs.c:848-922 | no request needs more than three blocks for each file block it touches |
| FileCalls.HoldsNeeds | fs/fs.c:848-922 | a span that is mapped needs none |
| FileCalls.WriteThenRead | fs/fs.c:924-984 | reading what was written cannot fail and yields exactly it, at every offset and length |
| FileSizes.WritePassTouches | fs/fs.c:930-948 | a pass of the write loop changes, outside the pointer blocks of its path, the bytes of the chunk and no other byte of any block, new blocks included |
| FileSizes.WriteSizes | fs/fs.c:924-950 | a write that goes through leaves the file with the larger of its size and the last block it touches plus one; one that stops, with that of some block it touches; no other size differs |
| FileSizes.ReadSizes | fs/fs.c:952-979 | so does a read, which makes a file longer past its end |
| FileRuns.DoKeeps | fs/fs.c:848-984 | one write, read or seek, through or not, keeps the forest, all block numbers, and the bytes of every file it does not write |
| FileSizes.DoOffsets | fs/fs.c:924-984 | with clean pages a write or read moves its own file's offset, by its length, if and only if enough blocks are free; seek sets it; no other offset moves |
| FileSizes.SizesOverRuns | fs/fs.c:848-984 | over every run no file ever shrinks, and a file that no call reads or writes keeps its size |
| FileRuns.TreeOverRuns | fs/fs.c:848-984 | over every run of writes, reads and seeks on a formatted partition, failed ones included, the block maps are a forest, every file block has a block of its own, and keeps its number for good |
| FileRuns.RecycledPageAfterFormat | fs/fs.c:863-879 | so it does right after formatting, whatever the size and the files, and block 1 is the superblock |
| FileRuns.WrittenStays | fs/fs.c:924-984 | what a write wrote is what a read returns after any further calls that do not write the file |
| FileBytes.HoldsUnique | fs/fs.c:952-978 | a span of a file has one contents |
| FileSystem.OpenFiles.AllocDataBlock | fs/fs.c:307-329 | the loop takes the least free block and nothing else |
| FileSystem.OpenFiles.FindDataBlock | fs/fs.c:848-922 | the branches in place compute the model's walk, and return the block linked at the leaf or stop where the partition is full; the file then has the larger of its size and the block number plus one |
| FileSystem.OpenFiles.EnsureAddr | fs/fs.c:855-857 | an address slot of the inode is filled if it was zero |
| FileSystem.OpenFiles.EnsureWord | fs/fs.c:873-879 | a word of a pointer block is filled if it was zero |
| FileSystem.OpenFiles.WriteChunk | fs/fs.c:930-948 | one pass in place, whatever the pages hold, is the model's |
| FileSystem.OpenFiles.WriteLoop | fs/fs.c:930-948 | the write loop is the model's |
| FileSystem.OpenFiles.ReadChunk | fs/fs.c:958-976 | one pass in place, whatever the pages hold, is the model's |
| FileSystem.OpenFiles.ReadLoop | fs/fs.c:958-976 | the read loop is the model's, and fills the buffer from its start with the bytes read |
| FileSystem.OpenFiles.Write | fs/fs.c:924-950 | write in place is the model's, whatever the pages hold; with clean pages it succeeds if and only if enough blocks are free, with the effect of WriteExact; the offset advances if and only if it succeeds |
| FileSystem.OpenFiles.Read | fs/fs.c:952-979 | read in place is the model's, whatever the pages hold; with clean pages it succeeds if and only if the holes can be filled, with the effect of ReadExact |
| FileSystem.OpenFiles.Seek | fs/fs.c:981-984 | the offset becomes any int, and nothing else changes |
| FileSystem.OpenFiles.WriteSeekRead | fs/fs.c:924-984 | write, seek back, read the same length: exactly the bytes written; it succeeds if and only if the write does |
| FileTable.OpenKeepsViews | fs/fs.c:797-846 | opening an inode that is not open changes no view and gives the file the inode as it stands |
| FileTable.OpenExact | fs/fs.c:797-846 | open fails, changing nothing, if and only if the path leads nowhere or a slot or a descriptor is missing; else the least free descriptor names the least free slot and nothing else changes |
| FileTable.UpdateView | fs/fs.c:924-984 | work through one open file changes only how its own inode is seen |
| FileTable.CloseKeepsViews | fs/fs.c:986-1001 | closing puts the copy on the disk and changes no view |
| FileTable.CloseExact | fs/fs.c:986-1001 | close frees its descriptor and slot, puts the copy back, and changes no other descriptor, slot or inode |
| FileTable.ReopenSeesAll | fs/fs.c:797-846 | close and open again gives the inode as it was left |
| FileTable.LastCloseWins | fs/fs.c:986-1001 | whatever is done through an open file survives its close and the close of all others, in any order, if and only if no other slot holds the inode |
| FileTable.OpenKeepsSole | fs/fs.c:797-846 | an open leaves its slot the only one of its inode if and only if the inode was not open |
| FileTable.TwoOpensLoseWrite | fs/fs.c:797-1001 | two opens of one file by one process, a change through the first, both closed: the inode on disk is the old one |
| FileTable.Files.DoOpen | fs/fs.c:797-846 | open's searches, error order and writes |
| FileTable.Files.DoClose | fs/fs.c:986-1001 | close's writes |
| Bitmap.ReadBits | libs/bitmap.c:15-41 | setting, clearing or flipping a bit is seen at that bit and at no other |
| Bitmap.ClearUndoesSet | libs/bitmap.c:22-34 | clearing a bit just set restores every word |
| Bitmap.BitmapSet | libs/bitmap.c:22-27 | the in-place set |
| Bitmap.BitmapClear | libs/bitmap.c:29-34 | the in-place clear |
| Bitmap.BitmapReverse | libs/bitmap.c:36-41 | the in-place flip |
| Bitmap.BitmapAssign | libs/bitmap.c:43-52 | afterwards the bit reads as the value and every other as before |
| DiskLayout.RegionsTile | fs/fs.c:203-215 | no block lies in two of the six regions; their blocks are exactly those of the partition if and only if it holds the metadata |
| DiskLayout.BitmapCovers | fs/fs.c:209-212 | the block map has a bit for every block and no block to spare |
| DiskLayout.MetadataInFirstBitmapBlock | fs/fs.c:231-236 | for every 32-bit partition size all metadata bits fit in the first bitmap block |
| DiskLayout.InodePlaces | fs/fs.h:115 | INODE_IN_BLOCK gives each inode its own place in the inode array |
| DiskLayout.InodeArrayFull | fs/fs.h:115 | every place of the inode array belongs to an inode that the inode map has a bit for |
| BlockAllocator.SetChanges | fs/fs.c:307-338 | the bit operations are insertion and removal on the set the bitmap stands for |
| BlockAllocator.FreeUndoesAlloc | fs/fs.c:307-338 | freeing the block just allocated restores the block map word for word |
| BlockAllocator.Allocator.constructor | fs/fs.c:221-243 | after formatting exactly the metadata, the root block and inode 0 are in use |
| BlockAllocator.Allocator.AllocDataBlock | fs/fs.c:307-329 | across bitmap blocks the window yields the least free block in [data_start, size) and changes only its bit |
| BlockAllocator.Allocator.FreeDataBlock | fs/fs.c:331-338 | only the block's bit is cleared |
| BlockAllocator.Allocator.AllocInode | fs/fs.c:287-299 | the least free inode number |
| BlockAllocator.Allocator.FreeInode | fs/fs.c:301-305 | only the inode's bit is cleared |
| Directory.ScanDir | fs/fs.c:463-473 | a scan stops at the first entry that is empty or has the name, if any |
| Directory.StrCmp | libs/string.c:35-54 | zero if and only if the strings are equal |
| Directory.ScanLoop | fs/fs.c:463-473 | the entry loop is the scan |
| Directory.NameEnd | fs/fs.c:439-440 | the pointer stops at the next slash or at the end |
| Directory.LookupLoop | fs/fs.c:455-473 | the directory check and the entry loop are one lookup |
| Directory.DoFind | fs/fs.c:414-489 | the walk with NULs written over slashes computes the fold of single lookups over the slash-separated components, the same from every current directory if the path is absolute |
| Directory.WalkFirst | fs/fs.c:438-479 | one component is cut off and looked up, the rest is walked from there |
| Directory.LookupExact | fs/fs.c:455-473 | one step of the walk fails in an inode that is no directory and at an empty entry, follows the first entry of the name, and in a full directory without it stays |
| Directory.WhereItStarts | fs/fs.c:422-428 | an absolute path means the same from every current directory and starts at inode 0; "/" is inode 0 and the empty path the current directory |
| Directory.FindName | fs/fs.c:414-489 | a single name is looked up in the current directory, with a slash before it in inode 0 |
| Directory.FindFrom | fs/fs.c:434-489 | a name, a slash and a rest: the rest is found from where the name leads |
| MakeDirectory.FormattedWellFormed | fs/fs.c:245-264 | the tree of a new file system is well formed |
| MakeDirectory.MkdirExisting | fs/fs.c:372-379 | mkdir of a name that exists succeeds and changes nothing |
| MakeDirectory.MkdirNew | fs/fs.c:361-412 | mkdir of a new name succeeds if and only if the parent has an empty entry and an inode and a block are free; it takes the first of each, writes that entry, that inode and that block, and changes nothing else |
| MakeDirectory.AddedWellFormed | fs/fs.c:361-412 | mkdir keeps the tree well formed and every directory compact |
| MakeDirectory.NewLookups | fs/fs.c:361-412 | the name leads to the new inode, whose "." and ".." are itself and its parent |
| MakeDirectory.OtherLookup | fs/fs.c:361-412 | every other lookup is as before, but in a parent just filled up a missing name now yields the parent |
| MakeDirectory.MkdirExact | fs/fs.c:361-412 | all other lookups are unchanged, and the parent keeps an empty entry, if and only if the entry taken was not the last |
| FullDirectory.RootFills | fs/fs.c:361-412 | 62 mkdirs of different names in a new root succeed; the last makes the root answer to every missing name, and the next has no entry to take |
| FullDirectory.LastEntryReached | fs/fs.c:361-412 | so a run from a new file system meets the failing case |
| MakeDirectory.FindKept | fs/fs.c:414-489 | a path that led somewhere before mkdir still leads there |
| MakeDirectory.FindNew | fs/fs.c:414-489 | the new path leads to the new inode |
| MakeDirectory.PathsStay | fs/fs.c:361-489 | over every run of mkdirs found paths stay found |
| MakeDirectory.Volume.DoMkdir | fs/fs.c:361-412 | do_mkdir's writes in order are the model's mkdir |
| PageAllocator.AllocValid | mm/memory.c:139-149 | a page handed out was not in use |
| PageAllocator.FreeValid | mm/memory.c:151-157 | freeing an address takes the page it lies in out of use |
| PageAllocator.FreedComesBack | mm/memory.c:139-157 | the next allocation returns it, and restores the state, if and only if fewer than 124 pages were listed |
| PageAllocator.Conservation | mm/memory.c:139-157 | one request keeps the books; the bump pointer moves exactly when the total of pages grows |
| PageAllocator.RunConserves | mm/memory.c:139-157 | over every run live plus listed plus dropped pages are the pages issued |
| PageAllocator.PageCtrl.constructor | mm/memory.c:131-137 | page_ctrl_init |
| PageAllocator.PageCtrl.AllocPage | mm/memory.c:139-149 | alloc_page in place is the model's |
| PageAllocator.PageCtrl.FreePage | mm/memory.c:151-157 | free_page in place is the model's |
| PageTables.WalksAgree | arch/mips/kernel/entry.S:236-246 | the assembly offsets address the very pair of entries that the C indices select |
| PageTables.WalkIsPage | mm/memory.c:36-38 | the two C indices are the page number's halves |
| PageTables.WalkInjective | mm/memory.c:36-38 | two addresses share an entry pair if and only if their VPN2 agree in 19 bits; below 4 GiB, if and only if they lie in the same pair of pages |
| PageTables.PackExact | include/os/mm.h:40-41 | the frame comes back out of a packed entry if and only if it is aligned and below 2^36 |
| PageTables.PackFields | mm/memory.c:107-112 | what do_page_fault stores is, by the hardware's fields, valid, writable, not global, of cache attribute 2, with the frame number from bit 6 on |
| PageTables.EntryHiExact | include/os/mm.h:38-39 | EntryHi keeps the low byte of the pid, and VPN2 whole if and only if the address has at most 40 bits |
| VirtualMemory.Probe | mm/memory.c:59 | tlbp finds a matching entry if there is one |
| MemoryInvariant.EnsureTableOk | mm/memory.c:79-83 | giving a directory entry its own table keeps all invariants and changes what no page maps |
| MemoryInvariant.EnsureFrameOk | mm/memory.c:88-93 | a fault maps one page by a frame nobody uses and changes no other page of any directory |
| MemoryInvariant.MapPairOk | mm/memory.c:70-93 | both C handlers map exactly the faulting pair of pages |
| Tlb.WriteDistinct | mm/memory.c:95-104 | probe-then-write leaves exactly one matching entry |
| Tlb.FastRefillOk | arch/mips/kernel/entry.S:234-254 | the assembly path keeps the TLB right, writes one slot, and leaves the address translated, for loads and stores, as the tables say |
| Tlb.LoadOk | mm/memory.c:95-104 | the C path's write keeps the TLB right, touches one slot, and leaves the address translated, for loads and stores, as the tables say |
| ProcessMemory.FreeFramesExact | kernel/sched/sched.c:168-173 | the inner loop frees exactly the frames that the table's packed entries map |
| ProcessMemory.FreeFramesOrder | kernel/sched/sched.c:168-173 | the frames are listed in the order of the entries, as far as the list has room |
| ProcessMemory.FreeTablesExact | kernel/sched/sched.c:165-176 | the outer loop frees exactly the directory's tables and their frames |
| ProcessMemory.FreeProcInv | kernel/sched/sched.c:158-177 | free_proc gives back all pages of the process and only those, and no other address space changes |
| ProcessMemory.SpawnInv | kernel/sched/sched.c:376-377 | a new process maps nothing and no other address space changes |
| MemoryRuns.SlowRefillInv | mm/memory.c:70-105 | the C path serves the fault: the address translates afterwards, in the TLB as in the tables |
| MemoryRuns.FastRefillInv | arch/mips/kernel/entry.S:234-254 | the assembly path keeps every invariant and changes no mapping |
| MemoryRuns.SwitchInv | arch/mips/kernel/entry.S:169-171 | a switch keeps every invariant, the ASID being the new pid's low byte |
| MemoryRuns.StepInv | mm/memory.c:27-112 | every step keeps the invariant |
| MemoryRuns.MemoryOverRuns | mm/memory.c:27-157 | in every reachable state no frame, table or directory has two owners, the shared table is all zero, every mapped page is writable, not global and of cache attribute 2, every allocator's pages are accounted for, and directories stay below the table region |
| MemoryRuns.InvProper | mm/memory.c:107-112 | every non-zero entry of every reachable table is valid, writable, not global and of cache attribute 2 |
| MemoryRuns.StoresAsLoads | mm/memory.c:95-104 | where the TLB translates an address for a load as the tables do, it translates it for a store |
| MemoryRuns.StepFrame | mm/memory.c:27-112 | only a switch changes the running process and the ASID, only a fault the TLB, and that in one slot; processes keep their directories; the allocators change in their own events only |
| TableRoom.StepBelowExact | mm/memory.c:70-81 | a step takes the page tables past the start of the kernel's pages if and only if it is a fault in a region without a table, no freed table is listed, and the next one to issue starts there; then live and dropped tables number 1920 |
| TableRoom.TablesBelowExactly | mm/memory.c:70-157 | after every run the page tables are below the kernel's pages if and only if no step of it was such a fault |
| TableOverrun.TablesOverrun | mm/memory.c:70-93 | a run of two processes, each touching all its regions, after which the page tables reach past the start of the kernel's pages |
| TableOverrun.OverrunOneByOne | mm/memory.c:139-157 | a run in which one process does so after the other is freed, never more than 1025 tables are live, and the page tables still reach past it |
| TableOverrun.TouchAll | mm/memory.c:70-93 | a process that touches all its 4 MB regions takes a table for each |
| MemoryRuns.NoSharing | mm/memory.c:107-112 | two pages of any processes never map the same frame |
| AsidReuse.OwnEntryTrue | mm/memory.c:95-104 | an entry of the running process translates as its tables do |
| AsidReuse.AliasedEntryLies | include/os/mm.h:38-39 | a matching valid entry of a live process is right if and only if that process is the running one |
| AsidReuse.TlbTruthfulExactly | include/os/mm.h:38-39 | the hardware translates as the running process's tables do in all runs if and only if pids stay at or below 256 |
| MemoryManager.Memory.constructor | mm/memory.c:18-25 | the start state |
| MemoryManager.Memory.InitPgd | mm/memory.c:27-32 | the loop leaves every entry at the empty table |
| MemoryManager.Memory.SpawnSpace | kernel/sched/sched.c:376-377 | a fresh directory for a fresh pid |
| MemoryManager.Memory.SwitchTo | kernel/sched/sched.c:286-287 | current_pid, current_pgd and EntryHi change together |
| MemoryManager.Memory.FastHandler | arch/mips/kernel/entry.S:234-254 | the register steps are the model's refill |
| MemoryManager.Memory.PageFault | mm/memory.c:107-112 | do_page_fault: the entry gets a new frame and is valid, writable, not global and of cache attribute 2 |
| MemoryManager.Memory.PrivateTable | mm/memory.c:77-83 | a table of its own where the directory led to the empty one |
| MemoryManager.Memory.MapFaulting | mm/memory.c:70-93 | the handlers up to the TLB write |
| MemoryManager.Memory.InvalidHandler | mm/memory.c:70-105 | TLB_Invalid_handler serves the fault |
| MemoryManager.Memory.FreeTable | kernel/sched/sched.c:168-173 | the inner loop of free_proc |
| MemoryManager.Memory.FreeDir | kernel/sched/sched.c:165-176 | the outer loop of free_proc |
| MemoryManager.Memory.FreeSpace | kernel/sched/sched.c:164-177 | the page-table part of free_proc |
| TaskQueue.Queue.constructor | kernel/sched/queue.c:6-10 | an empty queue |
| TaskQueue.Queue.IsEmpty | kernel/sched/queue.c:12-19 | true if and only if the sequence is empty |
| TaskQueue.Queue.Push | kernel/sched/queue.c:21-41 | appends, writing only the new and the former last node |
| TaskQueue.Queue.Dequeue | kernel/sched/queue.c:43-64 | takes the head |
| TaskQueue.Queue.Remove | kernel/sched/queue.c:67-101 | unlinks a node anywhere and returns its successor |
| TaskQueue.Relink | kernel/sched/sched.c:198-201 | a node moves to the end of another queue and both stay well formed and apart |
| TaskQueue.MoveToReady | kernel/sched/sched.c:198-201 | and is marked READY in the ready queue |
| TaskQueue.WakeAll | kernel/sched/sched.c:189-247 | the loop that deletes while it walks moves exactly the due tasks, in order, and keeps the rest in order |
| TaskQueue.WakeSleepers | kernel/sched/sched.c:225-247 | check_sleeping on linked nodes is a stable partition by deadline |
| TaskQueue.WakeWaiters | kernel/sched/sched.c:189-208 | the waitpid loop on linked nodes is a stable partition by pid |
| Partition.PickDropPartition | kernel/sched/sched.c:189-247 | every task ends in exactly one of the two parts, as often as it was there |
| Partition.DropAdvances | kernel/sched/queue.c:67-101 | removing others moves nobody back |
| KernelModel.FreeSlot | kernel/sched/sched.c:74-83 | the least PCB slot after 0 with status NONE, if any |
| KernelModel.FreeStackSlot | kernel/sched/sched.c:54-65 | the least unused stack slot after 0, if any |
| KernelModel.StackAddress | kernel/sched/sched.c:68-72 | free_kernel_stack recovers the slot from any pointer less than 4096 bytes deep |
| KernelModel.FindPid | kernel/sched/sched.c:312-314 | the first PCB with the pid, if any |
| KernelInvariant.PushInv | kernel/sched/sched.c:333-342 | queueing a task keeps status, in_queue and membership in agreement |
| KernelInvariant.WakeInv | kernel/sched/sched.c:189-247 | so does a wake loop |
| KernelInvariant.UnblockInv | kernel/sched/sched.c:345-354 | so does do_unblock_one |
| KernelInvariant.SwitchInv | kernel/sched/sched.c:282-287 | so does the dispatch, after which one task runs |
| KernelInvariant.FreeProcInv | kernel/sched/sched.c:158-213 | free_proc leaves nobody waiting for the pid |
| KernelRuns.FreedStacksOk | kernel/sched/sched.c:68-72 | freeing a process frees exactly its stack slot |
| KernelRuns.StackForEveryPcb | kernel/sched/sched.c:54-83 | new_kernel_stack never fails once alloc_pcb has succeeded |
| KernelRuns.SpawnInv | kernel/sched/sched.c:364-408 | do_spawn fails if and only if no PCB is free; else the least free PCB gets the next pid and joins the end of the ready queue |
| KernelRuns.ScheduleInv | kernel/sched/sched.c:249-288 | scheduler ends with exactly its current task running |
| KernelRuns.UnblockAllInv | kernel/sched/sched.c:357-362 | do_unblock_all moves the whole queue, in order, to the end of the ready queue |
| KernelRuns.KillInv | kernel/sched/sched.c:310-331 | do_kill keeps the invariant, and no PCB has the pid afterwards unless the task was the running one |
| KernelRuns.StepInv | kernel/sched/sched.c:225-433 | every event keeps the invariant |
| KernelRuns.BootAtRest | kernel/sched/sched.c:47-51 | the start state satisfies it |
| KernelRuns.EveryRun | kernel/sched/sched.c:126-433 | in every reachable state a task is in a queue, once, exactly when its status and in_queue say so; only the current task runs; pids are distinct; nobody waits for a dead pid |
| WakeCauses.SleepersWake | kernel/sched/sched.c:225-247 | check_sleeping readies a task if and only if it sleeps and its deadline is below the 32-bit clock; every other keeps its whole record |
| WakeCauses.WaitersWake | kernel/sched/sched.c:189-208 | the waitpid loop readies a task if and only if it waits for that pid; every other keeps its whole record |
| WakeCauses.ReleaseWakes | kernel/sched/sched.c:179-187 | releasing locks readies only tasks blocked on one of them |
| WakeCauses.FreeProcWakes | kernel/sched/sched.c:158-213 | free_proc readies exactly those that wait for its pid, and of the others only tasks blocked on a released lock; all else keep their records |
| WakeCauses.ScheduleWakes | kernel/sched/sched.c:249-288 | what one scheduler call makes of each task that sleeps or is blocked |
| WakeCauses.WokenExactly | kernel/sched/sched.c:158-433 | in every event a task that sleeps or is blocked becomes ready if there is a reason (its deadline past, the process it waits for freed, its queue unblocked), and else its record stays as it was |
| QueueOrder.TickOrder | kernel/sched/sched.c:249-288 | a scheduler call runs the head of: the ready queue, then the due sleepers in the order they went to sleep, then the caller; the other queues stand |
| QueueOrder.YieldOrder | kernel/sched/sched.c:249-288 | the same of the call by a task that has gone to sleep, blocked or been freed |
| QueueOrder.SleepCall | kernel/sched/sched.c:291-299 | the caller is the last of the sleepers with its deadline modulo 2^32, or ready at once if that is past |
| QueueOrder.BlockCall | kernel/sched/sched.c:333-342 | the caller is BLOCKED and the last in the queue it names, where nobody moves |
| QueueOrder.WaitCall | kernel/sched/sched.c:413-433 | with a PCB of the pid the caller is BLOCKED, the last of those that wait; else nothing changes |
| QueueOrder.ReleaseBlocked | kernel/sched/sched.c:179-187 | each time it is released a lock passes on its first waiter and the rest keep their order, however often it is on the record |
| QueueOrder.ReleaseOrder | kernel/sched/sched.c:179-187 | those passed on join the ready queue in the order of the locks |
| QueueOrder.FreeOrder | kernel/sched/sched.c:158-213 | free_proc appends to the ready queue the first waiters of the locks, then those that wait for its pid, and leaves everyone else in place and in order |
| QueueOrder.KillOrder | kernel/sched/sched.c:310-331 | killing another task takes it out of its queue and frees its slot; nobody else in the ready, sleep and waitpid queues is reordered |
| QueueOrder.KillSelf | kernel/sched/sched.c:310-331 | a task that kills itself is EXITED and nothing else changes; the next scheduler call frees its slot, and no PCB has its pid |
| QueueOrder.ExitGone | kernel/sched/sched.c:302-308 | after do_exit no PCB has the caller's pid and its slot is free |
| QueueOrder.FreedPidGone | kernel/sched/sched.c:158-331 | a pid that an event frees is gone after it |
| QueueOrder.WaiterStep | kernel/sched/sched.c:158-433 | a task in waitpid that is not killed wakes in an event if and only if that frees the process it waits for, whose pid no PCB has afterwards |
| QueueOrder.WaitsAsLong | kernel/sched/sched.c:413-433 | over every run in which some PCB has the pid, a task that waits for it and is not killed keeps its record |
| QueueOrder.SpawnFrame | kernel/sched/sched.c:364-408 | do_spawn takes the least free PCB and stack slot and changes no other task, stack slot or queue but the ready queue |
| QueueOrder.SaveCall | arch/mips/kernel/entry.S:30-35 | a saved stack pointer stays in its own slot, and nothing else changes |
| SchedulerIdle.CanScheduleExact | kernel/sched/sched.c:249-288 | scheduler finds a task if and only if one is ready, a sleeper is due, the current one can go on, or its death wakes somebody |
| SchedulerIdle.FreeReady | kernel/sched/sched.c:158-213 | free_proc readies somebody if and only if somebody waits for the pid or for a released lock |
| SchedulerIdle.SleepStalls | kernel/sched/sched.c:291-299 | do_sleep with nobody else ready or due can be scheduled if and only if its deadline, modulo 2^32, is below the 32-bit clock |
| SchedulerIdle.LoneProcessStalls | kernel/sched/sched.c:249-299 | the run: one process is spawned, dispatched and sleeps, and the ready queue is empty |
| KernelRuns.DispatchAdvances | kernel/sched/sched.c:249-288 | a scheduler call dispatches the head and moves everybody else one place up |
| KernelRuns.WaitStep | kernel/sched/sched.c:225-433 | no event but its own kill moves a ready task back |
| KernelRuns.BoundedWait | kernel/sched/sched.c:249-288 | a task at place p of the ready queue runs no later than the (p+1)-th scheduler call |
| Scheduler.WokenStep | kernel/sched/sched.c:232-244 | one visit of a wake loop, on sequences |
| Scheduler.ProcessTable.constructor | kernel/sched/sched.c:47-51 | the start state |
| Scheduler.ProcessTable.NewKernelStack | kernel/sched/sched.c:54-65 | the loop takes the least unused slot |
| Scheduler.ProcessTable.AllocPcb | kernel/sched/sched.c:74-83 | the loop finds the least free PCB |
| Scheduler.ProcessTable.SearchPid | kernel/sched/sched.c:416-423 | the loop finds the first PCB with the pid |
| Scheduler.ProcessTable.FreeKernelStack | kernel/sched/sched.c:68-72 | the slot computed from the saved pointer is freed |
| Scheduler.ProcessTable.WakeSleeping | kernel/sched/sched.c:225-247 | check_sleeping over the process table |
| Scheduler.ProcessTable.WakeWaiting | kernel/sched/sched.c:189-208 | the waitpid loop over the process table readies those in the waitpid queue that wait for the pid and touches no other record |
| Scheduler.ProcessTable.ReleaseAll | kernel/sched/sched.c:179-187 | releasing the recorded locks wakes the first waiter of each |
| Scheduler.ProcessTable.FreeProcess | kernel/sched/sched.c:158-213 | free_proc in place is the model's, of which WakeCauses.FreeProcWakes and QueueOrder.FreeOrder say whom it readies and in what order |
| Scheduler.ProcessTable.RequeueCurrent | kernel/sched/sched.c:251-262 | scheduler up to the dequeue |
| Scheduler.ProcessTable.Reschedule | kernel/sched/sched.c:249-288 | scheduler |
| Scheduler.ProcessTable.DoUnblockOne | kernel/sched/sched.c:345-354 | do_unblock_one |
| Scheduler.ProcessTable.DoUnblockAll | kernel/sched/sched.c:357-362 | do_unblock_all |
| Scheduler.ProcessTable.DoSpawn | kernel/sched/sched.c:364-411 | do_spawn's PCB, pid and stack; no pid exactly when the model has none |
| Scheduler.ProcessTable.DoBlock | kernel/sched/sched.c:333-342 | do_block |
| Scheduler.ProcessTable.DoSleep | kernel/sched/sched.c:291-299 | do_sleep, its deadline modulo 2^32 |
| Scheduler.ProcessTable.DoWaitpid | kernel/sched/sched.c:413-433 | do_waitpid blocks if and only if some PCB has the pid |
| Scheduler.ProcessTable.DoExit | kernel/sched/sched.c:302-308 | do_exit |
| Scheduler.ProcessTable.DoKill | kernel/sched/sched.c:310-331 | do_kill, 0 if and only if the pid is found |
| Monitor.AcquireInv | kernel/locking/lock.c:33-44 | acquiring keeps one owner and the queue's order |
| Monitor.ReleaseInv | kernel/locking/lock.c:47-59 | releasing hands over or unlocks |
| Monitor.BroadcastInv | ipc/cond.c:32-35 | broadcast wakes the waiters of its condition and changes nobody else |
| Monitor.StepInv | kernel/locking/lock.c:33-59 | every step of every task keeps the invariant |
| Monitor.MutexOverRuns | kernel/locking/lock.c:33-59 | in every reachable state at most one task holds the lock, LOCKED says whether one does, and grants follow arrivals in order |
| Monitor.WaitReturnsOwner | ipc/cond.c:13-23 | a waiter comes back only by acquiring the lock again |
| Monitor.SignalWakes | ipc/cond.c:26-29 | signal wakes the first waiter and changes nobody else |
| Monitor.CondStep | ipc/cond.c:13-35 | a waiter joins its condition at the end, a signal takes the head, a broadcast all, and no other step touches the queue |
| Monitor.ConditionFifo | ipc/cond.c:13-35 | over every run the tasks still waiting are the last that came, in the order they came: tasks leave a condition in the order they joined it |
| Locks.MutexLock.constructor | kernel/locking/lock.c:26-30 | a free lock without waiters |
| Locks.MutexLock.DoAcquire | kernel/locking/lock.c:33-44 | blocks if and only if LOCKED, else the caller owns the lock |
| Locks.MutexLock.DoRelease | kernel/locking/lock.c:47-59 | the first waiter becomes owner, or the lock is free |
| Locks.MutexLock.DoConditionWait | ipc/cond.c:13-19 | release, then queue on the condition |
| Locks.MutexLock.DoSignal | ipc/cond.c:26-29 | the first waiter is woken |
| Locks.MutexLock.DoBroadcast | ipc/cond.c:32-35 | all waiters are woken |
| Ring.PutAppends | libs/mailbox.c:75-83 | copying in appends the message, across the wrap, and keeps end == (start + used) mod 64 |
| Ring.TakeRemoves | libs/mailbox.c:97-105 | copying out removes the oldest bytes |
| Ring.MailboxBuffer.constructor | libs/mailbox.c:9-20 | an empty ring |
| Ring.MailboxBuffer.CopyIn | libs/mailbox.c:75-83 | the copy loop in place |
| Ring.MailboxBuffer.CopyOut | libs/mailbox.c:97-105 | the copy loop in place delivers the oldest bytes |
| Mailbox.StepGood | libs/mailbox.c:68-109 | every stretch of every sender and receiver keeps the mailbox in order |
| Mailbox.StepExact | libs/mailbox.c:68-109 | a call that finds the lock taken only queues; one without room or bytes only waits; any other moves its own bytes, ends, and wakes the waiters of the other condition and nobody else |
| Mailbox.EveryInterleaving | libs/mailbox.c:68-109 | in every reachable state the bytes sent are the bytes received and then those in the ring, and every task blocked on a condition still has to wait |
| Barrier.RoundStep | ipc/barrier.c:10-22 | with no more users than the goal a round ends exactly with its last arrival |
| Barrier.SafeExactly | ipc/barrier.c:10-22 | nobody leaves its k-th wait before all have begun the k-th, over all runs, if and only if there is at most one user or no more than the goal |
| Barrier.WorksExactly | ipc/barrier.c:10-22 | and nobody is left behind if and only if there are exactly goal users (or none, or one that never blocks) |
| Barrier.CountsStep | ipc/barrier.c:10-22 | now is the number of blocked tasks, for any goal |
| Barrier.BarrierLock.constructor | ipc/barrier.c:4-8 | do_barrier_init, with an empty queue |
| Barrier.BarrierLock.UnblockAll | kernel/sched/sched.c:357-362 | the queue goes, in order, to the end of the ready queue |
| Barrier.BarrierLock.Wait | ipc/barrier.c:10-22 | the arrival in place is the model's call and keeps the counts; on the last arrival all are woken in arrival order |
| Digits.MiniItoa | libs/printk.c:58-102 | the buffer ends up with sign, padding and numeral, NUL-terminated; a radix above 16 changes nothing |
| Digits.EmitDigits | libs/printk.c:75-81 | the do-while loop emits the numeral backwards |
| Digits.EmitPad | libs/printk.c:83-84 | zeros up to the pad |
| Digits.ReverseInPlace | libs/printk.c:91-99 | the in-place reversal |
| Digits.ParseLoop | libs/string.c:87-147 | a parser's loop computes the wrapping value of the digits before the first other character |
| Digits.AtoiLoop | libs/string.c:149-163 | atoi's dispatch |
| Digits.NumeralRound | libs/printk.c:75-81 | a numeral parses back to its number in its own base |
| Digits.DigitExact | libs/printk.c:78-79 | the digits are 0-9 and then A-F or a-f, as asked |
| Digits.DigitValueExact | libs/string.c:87-147 | a digit of either case stands for its place, and no other character for any |
| Digits.TextExact | libs/printk.c:58-102 | the text is a minus sign where the value is negative and signed, then at least as many digits as the pad, of the case asked for, that stand for the absolute value, or the value modulo 2^32; the only leading zeros are padding |
| Digits.HexRoundTrip | libs/string.c:149-163 | "0x" and the hexadecimal text, either case, any padding, parse back to every int |
| Digits.DecimalExact | libs/string.c:149-163 | the decimal text parses back if and only if it has no minus sign and no zero is padded before a number of 8 or more |

## Left out

- FileSystem.OpenFiles.Write: what a write does is stated for pages that are zero beyond their first four bytes where a new pointer block needs one; FindDataBlock.FindBlockExact says of one walk what other pages do. A negative offset, and a request that ends past 2^31, where the int offset overflows, are excluded.
- FileSystem.OpenFiles.Read: the same as for Write.
- FileRuns.TreeOverRuns: runs in which a new pointer block gets a recycled page that is not zero beyond its first four bytes are excluded; FileRuns.RecycledPageAfterFormat is one. The same in FileRuns.DoKeeps and FileRuns.WrittenStays.
- FileSystem.OpenFiles.WriteLoop: negative offsets, which address in front of the block, are excluded; the same in ReadLoop.
- FileCalls.WriteExact: the same pages as in Write; a leftover word that names a block past the partition stops the model.
- CacheRefinement.GetRefines: of misses, only those whose victim is not held, since a held page that is evicted may already belong to another block when its holder writes to it; the same in StepRefines, RunRefines and RunThenSink. CacheRefinement.GetExact has every get, and CacheLoss a run outside the condition.
- CacheCallers.PassLegal: a sufficient condition, stated for the double indirect path, the longest; the other paths get a part of its blocks, and CacheCallers.ClearRunLegal is for any caller. Nothing in the file system checks it, and CacheCallers.NestedMissExact has the states in which the walk itself breaks.
- Directory.DoFind: paths of 100 characters and more, which overrun the 100-character copy, are excluded.
- BlockAllocator.Allocator.AllocDataBlock: a full partition yields None where the source returns an unset variable; the same in AllocInode.
- Scheduler.ProcessTable.DoUnblockOne: needs a waiting task, since queue_dequeue follows a null head otherwise; the same for Locks.MutexLock.DoSignal and for a scheduler with nothing ready.
- KernelRuns.ScheduleInv: scheduler calls that find nobody ready are excluded; SchedulerIdle.CanScheduleExact says which those are. The same in Scheduler.ProcessTable.Reschedule, DoBlock, DoSleep, DoWaitpid and DoExit.
- BlockAllocator.Allocator.constructor: partitions no larger than their metadata are excluded, whose first data block does not exist.
- Scheduler.ProcessTable.DoKill: pid 0, whose free PCBs have no queue to leave, is excluded.
- MakeDirectory.Volume.DoMkdir: the parent is a directory; a full parent yields false where the source writes past the block; names longer than the 59 characters an entry holds are excluded.
- Digits.MiniItoa: a radix below 2 divides by zero or never ends and is excluded.
- MemoryRuns.SlowRefillInv: the frames handed out are taken to exist below the 36-bit limit of EntryLo; nothing in the allocator checks it. The same in MemoryInvariant.EnsureFrameOk, MemoryInvariant.MapPairOk and MemoryManager.Memory.InvalidHandler.
- TableRoom.TablesBelowExactly: what the kernel's own pages hold once a table lies in them is not followed further.
- Mailbox.EveryInterleaving: lengths beyond INT_MAX - 64, for which the guards overflow, and negative lengths are excluded.
- do_rmdir: its pointer arithmetic and the inode it frees do not implement a removal that could be specified.
- cnt_dirty_buff: kept by no consistent rule and read by no decision.
- do_mbox_open and do_mbox_close: the name table; one mailbox is modelled, open throughout.
- locks_got: on hand-off the lock is recorded for the releaser, so it is not an ownership record; the owner is ghost, and what free_proc releases is an input.
- Runs in which a lock's owner is killed: the release that free_proc then makes from the record need not be the owner's.
- The PRIORITY_SCHED branch: compiled out.
- Linked queues in the process table: Scheduler works on queues as sequences, which TaskQueue proves of the linked form.
- One partition per run: unmounting does not drop the cache.
- Pins that do_find, do_mkdir and do_touch never release: the cache model requires one unpinned slot at each miss.
- Directory blocks and file data are typed views of the same blocks, each proved over a plain array; no file is both.
- do_touch, do_ls, do_cd, do_find_dir and cat: the loops of do_find and do_mkdir again.
- New inodes are taken to have zero addresses: formatting clears only the first inode block and do_touch none.
- The clock: readings are inputs, with no relation between them.
- TLB contents at power-up: taken to match no user address; Wired keeps the C and assembly paths off the first 32 slots.
- 64-bit overflow of page addresses and pid overflow: not reached by the other limits.
- The triple indirect address that a comment in fs.h announces: the code has direct, single and double indirect blocks, and so has the model.
- Context save and restore, interrupts, devices, screen, serial line, boot and host tools: register plumbing and I/O.
- ipc/sem.c, smp.c, system call wrappers, shell and test programs: stubs and thin wrappers.
