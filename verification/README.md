# xv6 in Dafny

A model of the parts of the xv6 kernel, and of two of its user programs, where the hard invariants
live, with proofs of what those parts promise.  `dafny verify dfyconfig.toml` covers the project.

**The write-ahead log.**  `LogDisk` gives the log area on disk and what recovery makes of any disk;
`LogCommit` is log.c's install, recover, write and commit code over a disk whose single-block writes
are atomic, with a trace of every intermediate disk.  `LogMachine` is the whole protocol as a machine:
any number of file-system operations, cache evictions, log_write's unlocked guard, each block write of
the committer, power failures, and each block write of recovery, interleaved in every way.  In every
reachable state the disk alone recovers to the effects of exactly the committed groups, no
operation is on both sides, and every file-system invariant that holds between operations holds after
recovery; `CrashSafety` applies that to the file system below.  `LogOverflow` settles a doubtful case:
mkfs makes the log area one block smaller than the reservation assumes, and log_write looks at the
length before it takes the lock, so the log can outgrow its area, and the guard can panic, exactly
when operations may log MAXOPBLOCKS blocks.

**The file system.**  `FsDisk` is the on-disk layout in bytes; `FsBlocks` says which inode slot owns
which block and that the bitmap agrees; `FsContent` reads an inode as a byte sequence.  `FileSystem`
is balloc, bfree, bmap, itrunc, iupdate, readi and writei over those: a write splices, a read slices,
no other file changes, no block has two owners.  `BlockCount` counts free blocks against those a
write still needs, which settles when it panics.  `FileWrite` is filewrite: the chunks it writes, to
files and to devices, and the at most seven blocks each of its transactions logs.  `Names` and
`Directory` make a directory a finite map on 14-byte names.  `InodeCache` is the table of in-memory inodes, and `Paths` is namex over
both: a fold of lookups in the directories on the disk, with exact reference counts.  `Mkfs` builds
the image the invariants start from, and shows that linking keeps every lookup defined.

**The buffer cache and the disk.**  `BufferCache` is bio.c's ring of buffers, relinked in place, with
coherence; `IdeQueue` is the interrupt-driven driver: over runs in which buffers are used again and
again, it completes requests in order with the effect of the in-memory disk of memide.c.

**Memory.**  `HeapRing` and `Umalloc` are the Kernighan and Ritchie allocator of section 8.7 of *The C
Programming Language*, second edition: sorted ring, no overlap, no unit lost, data untouched.
`VmPages` and `Vm` are the page allocator and the two-level page tables: every physical page has one
owner through growth, shrinking, copying, freeing and each way of running out of memory.  `PageCount`
counts pages and page tables, which settles exactly when memory runs out.

**Processes.**  `SleepWakeup` is sleep and wakeup for any program that uses them as the kernel does:
any number of processes, locks, channels and conditions, one lock operation, test, store or table slot
at a time.  `SleepLock` is the sleep lock, each of whose steps is a step of that machine.  `ProcTable`
and `ExitWait` are fork, exit, wait and kill.  `Pipe` is the ring buffer with its sleepers, counters
wrapping at 32 bits.
`Machines` holds the induction rule the machines share, `Params` constants and `Sets` set sizes.

**User programs.**  `Grep` is the pattern matcher against the language of its patterns.
`ShellSyntax` and `Shell` are the shell's parser: cursor and loops, the tree it builds, nulterminate's
writes into the line.  `ShellGrammar` is the grammar of command lines and the proof that the parser
accepts exactly its lines with exactly its trees; `ShellRoundTrip` prints a tree and parses it back.

Conventions.  A panic stops the kernel: where the code can reach one, an out-parameter says so and
says why; where it cannot, that is part of what is proved.  Blocks, pages and heap cells are counted
in their own units.  I/O ports, the clock and the scheduler's choices are steps or parameters: sbrk's
answer, the device switch, and pipewrite inside filewrite are parameters.

## Model

| member | source | states |
|---|---|---|
| LogDisk.RecoveredHome | log.c:69-122 | recovery gives each home block its copy in the log if the header lists it, and otherwise leaves it |
| LogDisk.RecoveryIdempotent | log.c:115-122 | recovering a recovered disk changes nothing |
| LogDisk.InstallStep | log.c:69-82 | stopping after any one home write of install_trans does not change what recovery will produce |
| LogDisk.ClearStep | log.c:98-122 | once all blocks are installed, erasing the header does not change what recovery produces |
| LogDisk.HeadWords | log.c:84-113 | the header word by word: how many blocks, then which; what is behind them plays no part |
| LogCommit.HeadStep | log.c:98-113 | the header write is the commit point: from it on, recovery yields the new contents of every logged block |
| LogCommit.Log.ReadHead | log.c:84-96 | the in-memory header becomes the block numbers in the header block, as many as its first word says |
| LogCommit.Log.InstallTrans | log.c:69-82 | every logged block gets its log block, no other block changes, and every intermediate disk recovers to the same contents |
| LogCommit.Log.RecoverFromLog | log.c:115-122 | the disk becomes the recovered disk with an empty header, and every intermediate disk already recovers to it |
| LogCommit.Log.WriteLog | log.c:176-190 | log block k holds what the cache has for the kth logged block, or the block itself where the cache has none; no home block and no header word changes; the disk changes by one recorded block write at a time, and every intermediate disk still recovers to the old contents |
| LogCommit.Log.Finish | log.c:192-202 | the second half of commit installs and erases, every intermediate disk recovering to the new contents |
| LogCommit.Log.Commit | log.c:192-202 | each logged block takes its cached contents, or keeps its own where the cache has none, and no other home block changes; the disk changes by one recorded block write at a time, a crash before the header write recovers to the old disk and one from it on to exactly that new disk |
| LogMachine.StepInv | log.c:124-233 | every enabled step of operations, committer, evictor, power failure and recovery keeps the protocol invariant |
| LogMachine.ReachableInv | log.c:124-233 | the invariant holds in every reachable state |
| LogMachine.CrashConsistency | log.c:126-202 | at every instant the disk recovers to the effects of exactly the committed events, and no operation has events both committed and not |
| LogMachine.CrashAtomicity | log.c:69-122 | after a power failure at any instant and any number of power failures during recovery, the recovery that completes leaves every home block as the committed groups made it |
| LogMachine.CommitIsAlone | log.c:126-174 | while a commit is in progress no operation is open and none can begin, modify, log or end |
| LogMachine.LogReservation | log.c:126-141 | in every interleaving the logged blocks are distinct, in range, and together with the unspent budgets of open operations within the reservation |
| LogMachine.GuardNeverPanics | log.c:214-233 | with room for the largest group, log_write's guard never panics for an open operation |
| LogMachine.QuietMeansDurable | log.c:143-174 | with no operation open and no commit in progress, every logged write is at home on disk |
| LogMachine.CommittedForever | log.c:115-202 | no later run, whatever its crashes, loses or reorders a committed event |
| LogMachine.RebootsInv | log.c:115-122 | a power failure followed by power failures and recovery steps drops exactly the uncommitted events |
| LogMachine.InvariantSurvivesCrashes | log.c:126-202 | any property the contents have at boot and whenever the last open operation ends also holds of what the disk recovers to after a crash at any instant |
| CrashSafety.SoundAbove | fs.h:14-22 | nothing below the inode area is part of the file system: changing it leaves every inode, file, owner and mark |
| CrashSafety.CrashKeepsWhole | log.c:115-202 | take any run in which the file system is well formed (one owner per block, exact bitmap, no holes, every lookup defined) at boot and whenever no operation is open; stopped at any instant and recovered, the disk holds a well-formed file system |
| LogOverflow.OverflowReached | log.c:214-233 | a concrete interleaving with mkfs's layout in which two operations pass the guard together and the log holds 30 blocks in room for 29 |
| LogOverflow.InsideIff | mkfs.c:25 | with mkfs's layout the log stays inside its area in every run if and only if operations log fewer than MAXOPBLOCKS blocks |
| LogOverflow.GuardIff | log.c:214-221 | with mkfs's layout log_write's guard lets every open operation go on in every run if and only if operations log fewer than MAXOPBLOCKS blocks |
| FsDisk.DinodeRoundTrip | fs.h:29-36 | decoding an encoded disk inode gives the inode back |
| FsDisk.DinodeLayout | fs.h:29-36 | the bytes of a disk inode one by one: type, major, minor and nlink in 16 bits, size and the thirteen addresses in 32, low byte first |
| FsDisk.PutDinodeAt | fs.c:220-236 | writing one inode into its block changes that inode and no other |
| FsDisk.WithMarkAt | fs.c:56-95 | setting or clearing one bitmap bit changes that bit and no other |
| FsDisk.MarkLayout | fs.c:56-78 | block b is marked exactly if bit b mod 8 of byte b mod 4096 / 8 of its bitmap block is set |
| FsBlocks.NoSharing | fs.c:373-400 | a block referred to by two inode slots is referred to by one and the same slot |
| FsBlocks.LinkedInCore | fs.c:373-388 | entering a held block in an empty address keeps ownership and bitmap exact |
| FsBlocks.LinkedIndirect | fs.c:388-397 | entering a held block in an empty entry of the indirect block keeps ownership and bitmap exact |
| FsBlocks.UnlinkedIndirect | fs.c:418-433 | dropping the indirect block releases it and exactly the blocks it lists |
| BlockCount.Conserved | fs.c:373-397 | whatever blocks an inode gains, free blocks and its filled slots together stay the same in number |
| BlockCount.TooFew | fs.c:56-78 | a disk that is full while a needed slot is still empty had, before anything was allocated, fewer free blocks than the empty slots needed |
| BlockCount.Sufficed | fs.c:373-397 | when all needed slots are filled, exactly as many free blocks are gone as needed slots were empty |
| FileSystem.Fs.Balloc | fs.c:56-78 | the lowest free block, zeroed and marked, or a panic exactly when every block is marked; logs the bitmap block and the block |
| FileSystem.Fs.Bfree | fs.c:80-95 | the bit is cleared, or a panic exactly when it was clear already |
| FileSystem.Fs.BfreeHeld | fs.c:80-95 | a block that nothing refers to any more is marked, so freeing it never finds it free already |
| FileSystem.Fs.Bmap | fs.c:373-400 | an existing block is returned with nothing changed; a missing one is allocated zeroed, no recorded block moves or changes, ownership stays exact; only the slot and, behind the first twelve blocks, the indirect block are gained, and the panic finds the disk full with one of them missing |
| FileSystem.Fs.Readi | fs.c:453-478 | for a device the answer of its function in the device switch, -1 if its major number is 10 or more or has none; otherwise -1 or exactly the bytes of the file from off to the smaller of off+n and its size; nothing is allocated or changed |
| FileSystem.Fs.Writei | fs.c:482-511 | for a device the answer of its function, -1 if there is none; otherwise -1 exactly beyond the end or the largest file, a panic exactly if the disk has fewer free blocks than the bytes written still need, and else the file with src spliced in at off, all other files and inodes unchanged, the disk inode equal to the in-core one; every block changed is logged, and only touched blocks, bitmap and inode block are |
| FileSystem.Fs.WriteChunks | fs.c:495-503 | the loop writes every byte of src, and leaves the addresses alone while it stays within the old size |
| FileSystem.Fs.RecordSize | fs.c:505-509 | the grown size and any new address are written to the disk inode |
| FileSystem.Fs.Iupdate | fs.c:220-236 | the disk inode becomes the in-core one |
| FileSystem.Fs.Itrunc | fs.c:403-435 | the file is empty, all its blocks are free, every other file and inode is as it was, and every block changed is logged |
| FsContent.WroteTrans | fs.c:495-503 | two adjacent chunks written one after the other are one write of their concatenation |
| FsContent.Truncated | fs.c:403-435 | an emptied inode leaves a sound file system in which every other file is the same |
| FileWrite.Filewrite | file.c:117-156 | on a file it returns n exactly when everything fits, and otherwise the whole chunks that fit stay written and the offset stands behind them; it panics exactly if the disk has fewer free blocks than those chunks still need; on a device it returns n when the device takes every chunk whole, -1 with the offset behind the chunks before it when the first other answer is negative, and panics when that answer is any other number; every block changed is in some transaction, and every transaction keeps to its budget |
| FileWrite.OneStop | file.c:133-153 | there is one place only where a device stops taking chunks whole |
| FileWrite.Accepted | file.c:126-153 | how much of a write reaches the file: all of it if it fits, nothing beyond the end, and otherwise the multiple of 1536 bytes with which the largest file is less than 1536 bytes from full |
| FileWrite.OneTransaction | file.c:140-145 | one chunk is written wholly or refused without effect; the transaction logs every block it changes, at most six and the bitmap; it panics only where the disk is full and a needed block missing |
| FileWrite.TouchedFew | file.c:126-133 | a chunk touches at most four data blocks and the indirect block, whatever its alignment |
| FileWrite.OneBitmapBlock | mkfs.c:23 | there is one bitmap block to log if and only if the disk has at most 4096 blocks |
| FileWrite.FitsReservation | file.c:126-133 | with the bitmap in one block every transaction logs at most 7 blocks, below MAXOPBLOCKS |
| Names.Namecmp | string.c:58-66 | zero exactly when the two names agree up to a NUL or 14 bytes |
| Names.Strncpy | string.c:68-79 | 14 bytes: the name up to its NUL, at most 14 of it, then NULs |
| Names.PaddedKey | string.c:68-79 | the padded field stands for the same name |
| Directory.EntryWritten | fs.c:572-575 | writing 16 bytes at an entry, or just behind the last, changes that entry alone |
| Directory.FirstIsBound | fs.c:534-545 | a name is bound to the inode number of the first used entry that carries it |
| Directory.BindingAdded | fs.c:564-577 | using an unused or new entry for a new name adds just that binding |
| Directory.EntryIs | fs.h:50-56 | entry k is the kth sixteen bytes of a directory: a 16-bit inode number, low byte first, and a name of 14 bytes |
| Directory.Dirlookup | fs.c:524-548 | the inode number the directory binds the name to, with its offset; 0 when the name is not bound; panics exactly on what is no directory and on a cut-off last entry reached without finding the name; changes nothing |
| Directory.Dirlink | fs.c:551-578 | -1 exactly when the name is bound; otherwise exactly that binding is added, in the first unused entry or behind the last, every block changed is logged and no other file changes; panics exactly on what is no directory, on a cut-off last entry, beyond the largest file, and if the disk has fewer free blocks than the entry still needs |
| InodeCache.SlotHasAll | fs.c:238-272 | in a table with one slot per inode a slot's count is the number of references to its inode |
| InodeCache.SlotCount | fs.c:238-272 | the inodes with a slot and the free slots together are as many as the table has |
| InodeCache.Icache.Iget | fs.c:241-272 | the inode's slot with one reference more and its valid flag as it was, or the first free slot as (inode, 1, not valid); all other slots are unchanged, a second slot for an inode never arises; panics exactly when all slots are in use by other inodes |
| InodeCache.Icache.Idup | fs.c:276-283 | one reference more, nothing else |
| InodeCache.Icache.Ilock | fs.c:287-312 | the disk inode, and the slot marked valid; panics exactly on a free slot and on an untyped inode read for the first time |
| InodeCache.Icache.Iput | fs.c:331-353 | one reference less; the last reference to a valid inode without links empties and frees it, logging every block it changes, and leaves the slot not valid, no other file changing; otherwise the file system is untouched |
| Paths.ElementFirst | fs.c:595-618 | the characters up to a slash are the first element and the rest of the path the other elements |
| Paths.ElementSlash | fs.c:595-618 | a slash in front of a path adds no element |
| Paths.Skipelem | fs.c:595-618 | finds an element exactly when there is one; leaves its first 14 bytes in name, with a NUL behind a shorter one, and the remaining elements in the rest, which is empty exactly after the last |
| Paths.Namex | fs.c:624-657 | for a path with a slash in front the lookup starts at inode 1, for any other at the directory in slot cwd; the result is the slot of the inode reached by looking the elements up in turn in the directories on the disk, or of the directory of the last one, with its name; one new reference on the result, none left on failure, every slot in use kept, the file system untouched; panics exactly when some inode on the way finds no slot beside the one still held |
| Paths.WalkReaches | fs.c:624-657 | a lookup ends at an inode exactly if there is a chain of directories from the start to it, each binding the next by the next element |
| Paths.ParentReaches | fs.c:641-645 | nameiparent ends at a directory exactly if all elements but the last lead there |
| Paths.AbsoluteAnywhere | fs.c:628-631 | a path with a slash in front has the same answer from every current directory |
| Paths.TwoVacant | fs.c:624-657 | with two free slots in the table no lookup of any path panics |
| Paths.Fails | fs.c:634-648 | an element that is not found, or looked up in a file, makes the whole lookup fail |
| Mkfs.ImageOk | mkfs.c:117-165 | an image with a root directory that names only itself is a sound file system in which every lookup is defined |
| Mkfs.Mkfs | mkfs.c:108-165 | for every layout with room for it, formatting gives such an image, with "." and ".." in the root |
| Mkfs.MarkFirst | mkfs.c:237-251 | exactly the first blocks are marked, and nothing but the bitmap changes |
| Mkfs.EntryKeepsTree | fs.c:551-578 | a directory that gains an entry for an inode in use keeps every lookup defined, and no other directory changes |
| Mkfs.Link | fs.c:551-578 | linking an inode in use adds exactly that name to exactly that directory of the tree and keeps every lookup defined; -1 exactly when the name is there; panics exactly beyond the largest file or for want of free blocks |
| BufferCache.Bcache.constructor | bio.c:38-56 | the ring built by binit holds every buffer once, and the cache is coherent with the disk |
| BufferCache.UnlinkRing | bio.c:132-133 | taking a buffer out leaves the ring of the others, both ways round |
| BufferCache.InsertRing | bio.c:134-137 | linking a buffer in at the head gives the ring with it in front |
| BufferCache.Bcache.Find | bio.c:68-76 | the buffer for the block, or proof that there is none |
| BufferCache.Bcache.FindUnused | bio.c:78-92 | the least recently used buffer that is neither referenced nor dirty, or proof that there is none |
| BufferCache.Bcache.Bget | bio.c:61-93 | one more reference to the block's only buffer, or a recycled buffer that was unreferenced and clean, the least recently used of those; panics exactly when neither exists |
| BufferCache.Bcache.Load | bio.c:96-106 | after bread the buffer holds the block's latest contents |
| BufferCache.Bcache.LogWrite | log.c:231 | the block's latest contents are those of the buffer, which can no longer be recycled |
| BufferCache.Bcache.Bwrite | bio.c:109-116 | the block's latest contents are on disk and the buffer is clean |
| BufferCache.Bcache.Put | bio.c:127-141 | one reference less; an unreferenced buffer moves to the front and the ring still holds every buffer once |
| BufferCache.Recycled | bio.c:81-90 | recycling a clean unreferenced buffer loses no contents and keeps one buffer per block |
| BufferCache.Bcache.Iderw | memide.c:39-60 | a dirty buffer is written, any other is read; afterwards it is valid and clean |
| IdeQueue.ListedAppend | ide.c:152-155 | hanging a buffer on the last link appends it to the queue |
| IdeQueue.Ide.Request | ide.c:137-160 | the buffer joins the end of a queue without duplicates, and an idle controller starts on it with the command for its block |
| IdeQueue.Ide.Interrupt | ide.c:102-131 | the oldest request completes: a dirty buffer is on the disk, any other holds its disk block, and it is valid and clean, the one-step effect of memide.c; a read that failed leaves the data but counts as valid; the next command starts, or the controller is idle |
| IdeQueue.InterruptSound | ide.c:102-168 | in every run the disk is what the requests completed so far, in the order asked and each in one step, make of it |
| IdeQueue.Ide.Reuse | bio.c:81-116 | a buffer that no iderw waits for may be changed or given to another block, and requested again, and all of this still holds |
| IdeQueue.Ide.Return | ide.c:162-168 | when iderw returns the buffer has left the queue, is valid and clean, and equals its disk block unless its read failed |
| HeapRing.FreedInv | umalloc.c:24-44 | freeing a block after its predecessor, with both joins, keeps ring, tiling and gaps, and turns exactly that block's units free |
| HeapRing.TakeWhole | umalloc.c:76-77 | unlinking a block keeps ring, tiling and gaps |
| HeapRing.TakeTail | umalloc.c:78-82 | cutting the tail off a block keeps ring, tiling and gaps |
| HeapRing.CoreAdded | umalloc.c:54-59 | new memory becomes one more block overlapping no other |
| HeapRing.OneRing | umalloc.c:30-32 | following ptr from base reaches every free block |
| HeapRing.WrapsOnce | umalloc.c:30-32 | ptr leads upwards from every node but the highest, which leads back to base |
| HeapRing.BlocksApart | umalloc.c:33-42 | distinct blocks share no unit, and no two free blocks touch |
| HeapRing.DataStored | umalloc.c:24-90 | what a program stores in the data of an allocated block does not matter to the allocator |
| Umalloc.Heap.Store | umalloc.c:63-90 | a program's own stores into its data keep the allocator's invariant |
| Umalloc.EnoughIff | umalloc.c:68 | the block holds the bytes asked for if and only if rounding them up does not wrap around |
| Umalloc.Heap.Search | umalloc.c:30-32 | free's search ends, at the last node below the block |
| Umalloc.Heap.Free | umalloc.c:24-44 | the block is free, no unit is lost, and no byte of any other allocated block changes |
| Umalloc.Heap.Morecore | umalloc.c:46-61 | failure changes nothing; otherwise exactly the new units join the free ones |
| Umalloc.Heap.Malloc | umalloc.c:63-90 | a new block of the size asked for, or nil exactly when no free block is large enough and sbrk fails; sbrk is asked at most once and exactly if none was; units are conserved and other blocks untouched |
| VmPages.NoSharing | vm.c:222-345 | a page mapped for a user is in no other mapping, no free list, and is no table or directory |
| VmPages.OneUnmapped | vm.c:266-275 | unmapping one page frees that page and changes no other translation |
| VmPages.NewTable | vm.c:44-54 | a zeroed page added as a page table changes no translation |
| VmPages.DismantledGood | vm.c:284-299 | a directory without user pages can be taken apart without touching any other address space |
| VmPages.PushedNothing | vm.c:266-269 | page-by-page unmapping frees nothing over a range that is not mapped |
| VmPages.KernelHalf | vm.c:105-115 | what kmap means page by page: memory below PHYSTOP at KERNBASE, devices at their own addresses, present, not for users, writable except for the text |
| VmPages.ThreadPush | kalloc.c:72-74 | writing the old head into a page's first word and making the page the head lengthens the list threaded through the pages by that page |
| Vm.Machine.Kfree | kalloc.c:55-77 | the page is junk but for its link and heads the list threaded through the free pages |
| Vm.Machine.Kalloc | kalloc.c:79-95 | the head of the list, or 0 exactly when it is empty; the page it links to becomes the head |
| Vm.Machine.Freerange | kalloc.c:46-53 | exactly the whole pages between the two addresses become free |
| Vm.Machine.Walkpgdir | vm.c:35-56 | the table for the address, created only if asked, at the cost of one page if it was missing; nil exactly when there is none, and then nothing has changed and, if asked, no page is free; no translation changes |
| Vm.Machine.Mappages | vm.c:61-81 | the pages that the bytes lie in are mapped as asked and no other translation changes; it succeeds exactly if there is a free page for every missing table, and otherwise a prefix is mapped and memory is exhausted; panics only on a page mapped already |
| Vm.Machine.Setupkvm | vm.c:118-136 | a directory whose kernel half is exactly kmap and whose user half is empty, or 0 with every page back where it was; 0 exactly if fewer than 65 pages are free |
| Vm.Machine.Deallocuvm | vm.c:256-279 | the skipping loop leaves the translations, owners and free list of unmapping every page of the range one by one |
| Vm.Machine.Freevm | vm.c:284-299 | exactly the pages of that address space become free |
| Vm.Machine.Allocuvm | vm.c:222-250 | the new pages are zeroed, writable, from free memory; it succeeds exactly if the free pages do for the new pages and for their tables that are missing, and otherwise every translation is as before and only page tables have been taken |
| Vm.Machine.Copyuvm | vm.c:316-345 | the child has the parent's bytes and flags at every page below sz, on pages that were free, and the kernel half; with n pages below sz, all mapped, it succeeds exactly if n, one for every 1024 of them, and 65 more pages are free, which are then gone, and otherwise every page is back where it was; it panics exactly if only the first m are mapped and the free pages do for those |
| PageCount.KernelTabs | vm.c:105-115 | the kernel half takes 64 page tables, wherever the kernel data begins |
| PageCount.UserTabs | vm.c:316-345 | the pages below n take one page table for every 1024, none of them shared with the kernel half |
| PageCount.SpentShort | vm.c:222-250 | where the next page or its table cannot be had, the free pages at the start did not do for the whole range |
| SleepWakeup.NextInv | proc.c:418-474 | every step of any process, scheduler or kill keeps the invariant relating locks, conditions, sleepers and wakeups |
| SleepWakeup.NoLostWakeup | proc.c:418-474 | in every run, a process asleep on a channel whose condition is true has a wakeup of that channel on its way to it, whatever the condition, and whether the waker drops the lock before or after |
| SleepWakeup.WakeupUnderLock | proc.c:454-474 | once a wakeup made with the channel's lock held is over, nobody sleeps or is about to sleep on the channel until the lock is dropped |
| SleepWakeup.SleeperEnters | proc.c:434-443 | a process starts to sleep only by its own step, holding the channel's lock and ptable.lock, with the condition false |
| SleepWakeup.QueueNoLostWakeup | sleep1.p:97-133 | with a value in the queue a sleeping consumer has a producer that has yet to wake it, though the producer wakes after its release |
| SleepLock.Refines | sleeplock.c:22-42 | every run of the sleep lock is a run of sleep and wakeup with "not locked" as the condition |
| SleepLock.ReachableInv | sleeplock.c:22-42 | the invariant relating locks, program counters and the recorded holder holds in every reachable state |
| SleepLock.MutualExclusion | sleeplock.c:22-42 | at most one process is past acquiresleep, and it is the recorded holder |
| SleepLock.NoLostWakeup | sleeplock.c:22-42 | whenever the lock is free and a process sleeps on it, the holder of the inner spin lock is in a wakeup that has yet to reach that process |
| SleepLock.NobodyStuck | sleeplock.c:22-42 | with the lock free and nobody inside the lock code, nobody sleeps |
| ProcTable.Ptable.Wakeup1 | proc.c:454-465 | every process sleeping on the channel becomes runnable with nothing else of it changed, every other slot is unchanged, and no process sleeps on the channel afterwards |
| ProcTable.Ptable.Exit | proc.c:250-265 | the process becomes a zombie, every child goes to init, whoever sleeps on the parent becomes runnable and whoever sleeps on init exactly if a child is a zombie; no other state, no pid and no channel changes |
| ProcTable.Ptable.WaitScan | proc.c:281-307 | the first zombie child is reaped, its slot unused and without parent, and its pid returned, all other slots unchanged; otherwise says rightly whether there are children, changing nothing |
| ProcTable.Ptable.Allocproc | proc.c:79-92 | the first unused slot becomes an embryo with the next pid |
| ExitWait.ReachableInv | proc.c:181-312 | the family tree and pid invariants hold whenever ptable.lock is free |
| ExitWait.ZombieHasParent | proc.c:227-312 | every zombie has a live parent, which is not asleep in wait |
| ExitWait.ReapedOnce | proc.c:273-312 | wait returns no pid twice, none it returned belongs to a process again, and live pids are distinct |
| ExitWait.WakeupWakes | proc.c:467-474 | a wakeup step makes exactly the sleepers on its channel runnable, touches no other process, and leaves nobody asleep on the channel |
| ExitWait.ExitPassesOn | proc.c:250-265 | an exit step gives all children to init, and leaves neither the parent nor, if a child is a zombie, init asleep in wait |
| Pipe.Pipe.FullMeans | pipe.c:85 | the wrapping comparison says full exactly when 512 bytes are buffered, and equal counters exactly when none are |
| Pipe.Pipe.Write | pipe.c:78-98 | as many bytes go in, in order, as fit; done, failed or asleep as the code says; the sleeper invariant is kept unless, and only unless, a killed writer fills a pipe whose readers sleep |
| Pipe.Pipe.Read | pipe.c:100-121 | the next bytes in order, as many as asked for and there; asleep exactly on an empty pipe that is still written; sleepers kept right |
| Pipe.Pipe.Close | pipe.c:59-75 | wakes everyone asleep at the other end; tells whether the pipe is freed |
| Pipe.Pipe.NeverBoth | pipe.c:78-121 | readers and writers never sleep on a pipe together |
| Pipe.KilledWriter | pipe.c:85-89 | a run in which a killed writer leaves a reader asleep on a full pipe |
| Grep.HereStar | grep.c:98-106 | c* followed by a pattern matches here exactly when some run of fitting characters is followed by a match |
| Grep.HereOne | grep.c:93-94 | one character then the rest of the pattern |
| Grep.Matchhere | grep.c:84-96 | true exactly when a prefix of the text, all of it if anchored, is in the pattern's language |
| Grep.Matchstar | grep.c:98-106 | true exactly when c can be repeated so that the rest matches |
| Grep.Match | grep.c:72-82 | true exactly when some substring is in the pattern's language, with ^ and $ tying it to the ends |
| Shell.Gettoken | sh.c:265-308 | the next token with its range and what follows it |
| ShellSyntax.TokenMeans | sh.c:265-308 | which characters make which token: white space before and after, the symbols, two greater-than signs, and words of all other characters |
| Shell.Parseredirs | sh.c:374-397 | the redirections in order, or an error when a file name is missing |
| Shell.Parseexec | sh.c:399-446 | what it takes is a command of the grammar with its tree (words and redirections in any order, at most nine words, or a block), and whenever the grammar derives a properly ended command it takes that one |
| Shell.Parseline | sh.c:344-372 | what it takes is a line of the grammar with its tree (pipelines put in the background or listed), and whenever the grammar derives a line up to the end or a closing parenthesis it takes that one |
| Shell.Nulterminate | sh.c:448-493 | a NUL at the end of every word of the tree and nothing else changed |
| Shell.WordsExact | sh.c:448-493 | no NUL falls inside a word: the string at each word is exactly that word |
| Shell.Parsecmd | sh.c:327-342 | the tree the grammar gives the whole line, or a syntax error exactly when it gives none; afterwards each word is a string of its own |
| ShellGrammar.ParsesGrammar | sh.c:327-446 | the parser accepts a line with a tree if and only if the grammar derives its words and symbols with that tree, whatever the white space |
| ShellGrammar.LineComplete | sh.c:344-372 | what the grammar derives up to the end of a line or a closing parenthesis is parsed with that tree, and no further |
| ShellGrammar.LineSound | sh.c:344-372 | what the parser takes off a line is derived by the grammar with the tree it returns |
| ShellGrammar.SameLine | sh.c:265-446 | the parser of the text does on words and symbols what the parser of words and symbols does |
| ShellRoundTrip.RoundTrip | sh.c:265-446 | parsing the print of any tree of plain words, at most nine to a command, with parentheses only where they are needed, gives that tree |
| ShellRoundTrip.LineDerived | sh.c:344-446 | pipes bind tighter than '&', which binds tighter than ';': printed accordingly, a tree is derived again |
| ShellRoundTrip.AppendIsOutput | sh.c:384-394 | a ">>" redirection gives the same tree as ">" |

## Left out

- Boot code, interrupt controllers, the console, the UART and everything in assembly: hardware access without state worth an invariant.
- sysfile.c, syscall.c, sysproc.c, trap.c and exec.c: argument fetching and sequencing of what is modelled; link counting there needs side conditions that the code does not keep.
- ialloc and the in-core copy that a slot keeps between two locks: every change is written through by iupdate, so InodeCache.Icache.Ilock reads the disk inode again.
- Directory.Dirlink: asks for an inode number of 16 bits, which is what an entry holds.
- Paths.Namex: one lookup runs without another process changing directories between two elements, and asks that what the directories name be linked or referred to, so that no iput on the way frees an inode.
- FileWrite.Filewrite: no other process changes the file between two of its transactions, and the offset is kept in a local variable and stored into f.off once, after the loop instead of after each chunk.
- Mkfs.Mkfs: copies no files into the image; the source's files and their directory entries are left out.
- LogMachine.GuardNeverPanics: asks for a log area with room for the largest group and the guard's slack; LogOverflow.GuardIff says what mkfs's own area allows.
- BufferCache.Bcache.LogWrite: is about the buffer only; the log header it extends is in LogMachine. Block (0,0), which every buffer starts with and no file system uses, is outside the coherence statement.
- IdeQueue.Ide.Interrupt: an error is reported for reads only, as the code looks at it only there; a write is taken to succeed.
- Umalloc.Heap.Malloc: takes what sbrk returns to be new memory above base, as much as morecore asked for in units; the argument of sbrk for half the address space and more is negative, and its effect is not modelled.
- Vm.Machine.Kfree: asks that the page not be free already and be one of the allocator's; freeing a page twice would put it on the list twice.
- Vm.Machine.Mappages: takes the physical address as a page number, and asks that pages mapped in the user half be in the caller's hands, which makes sharing one an error of the caller.
- Vm.Machine.Allocuvm: asks that the pages to be added not be mapped yet; the code panics otherwise.
- SleepWakeup.NoLostWakeup: memory ordering inside acquire and release is taken as given, and waiters test their condition again after waking, as the kernel's do; sleep1.p's consumer tests once.
- ExitWait.ReapedOnce: process ids are unbounded; nextpid's wrap-around is not modelled.
- Pipe.Pipe.Write: asks that the write end be open, as it is while a writer has its descriptor; Pipe.Pipe.Read asks the same of the read end.
- Pipe.Pipe.Close: asks that no process be asleep at the end being closed, since a sleeper still has that end open.
- Shell.Parseexec: collects redirections beside the arguments and nests them when the command is complete, where the code nests them around a command whose arguments are still being filled in.
- runcmd, grep's read loop, console input, kill's search for a pid, scheduling fairness, and everything about time.
