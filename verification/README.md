# A model of the xv6 kernel and its user library

xv6 is a small Unix-like kernel. This project models the parts of it in which a short piece of
imperative code carries a hard invariant, and proves the invariants.

- `LogRecovery.dfy`, `LogProtocol.dfy`: the write-ahead log (log.c). The disk is a sequence of blocks, each
  write is atomic, and a crash may fall between any two writes, those of recovery included. The concurrent
  side is a step machine over any number of processes.
- `FsFormat.dfy`, `FsModel.dfy`, `Fs.dfy`: the on-disk format, block ownership and file contents; balloc,
  bfree, bmap, itrunc, readi, writei (fs.c) and filewrite's chunks (file.c). A ghost map records which slot of
  which inode owns each data block.
- `FsCrash.dfy`: the file system on top of the log: whole operations survive any crash.
- `Mkfs.dfy`: mkfs.c, the second writer of the same format, from its command line to the image, and the kernel reading
  what it wrote.
- `Heap.dfy`: malloc and free (umalloc.c, after section 8.7 of The C Programming Language, 2nd edition).
- `VmModel.dfy`, `Vm.dfy`: physical pages (kalloc.c) and two-level page tables (vm.c). A ghost map gives each
  page one use, so free pages, directories, tables and frames are disjoint and their union is constant.
- `Bio.dfy`: the buffer cache (bio.c): its LRU ring, and its agreement with the logical disk.
- `Ide.dfy`: the queued driver (ide.c) refining the in-memory one (memide.c).
- `Pipe.dfy`, `PipeProtocol.dfy`: the pipe (pipe.c) and sleep/wakeup (proc.c), over all interleavings.
- `Proc.dfy`, `ExitWait.dfy`: the process table scans, and fork, exit, wait and kill over all runs.
- `Grep.dfy`: the matcher of grep.c (after chapter 9 of The Practice of Programming) against a declarative meaning.
- `Shell.dfy`, `ShellGrammar.dfy`, `ShellParser.dfy`: the parser of sh.c against a printer that writes the fewest
  parentheses and a grammar of tokens, and nulterminate.
- `Param.dfy`: shared constants and small types.

Each imperative routine is a method proved against a pure description of its effect; the lemmas are about
those descriptions. Where the C code panics, the panic is proved unreachable under the stated invariant, or is
the failure value of the method, or is its precondition, as the comment on the method says.

Four promises do not hold of the code as it stands; each has a lemma with the input or run, and one with the
condition under which the code keeps the promise:

- log_write tests for a full log before it looks for the block, so logging a block again in a full log panics
  (`RelogInFullLogPanics`); the panic happens exactly when the test holds (`OnlyTooBigPanics`).
- mkfs makes the log LOGSIZE blocks, header included, one block short of what log_write needs
  (`MkfsLogIsOneBlockShort`, `FreshWritesSafeExactly`).
- malloc returns a block that is too small when nbytes + 7 wraps around (`NUnitsSuffices`), and a request of
  2^31 bytes or more reaches sbrk as zero or a negative number (`SbrkFitsExactly`).
- mkfs rounds the root directory up past its last block when its size is a multiple of BSIZE already, which
  leaves a hole (`FixRoot`, `RootHole`).

## Model

| member | source | states |
|---|---|---|
| LogRecovery.CrashAtomicity | Assignment9_xv6/part1/xv6-public/log.c:115-122 | Stop the machine after any number of commit's block writes and then any number of times during recovery: a completed recovery leaves all of the transaction's home blocks new (from the header write on) or all old (before it), no other home block changed, and an empty log. |
| LogRecovery.CommitPoint | Assignment9_xv6/part1/xv6-public/log.c:192-202 | The single header write is the commit point: recovery before it finds nothing, from it on the whole transaction. |
| LogRecovery.RecoveryIdempotent | Assignment9_xv6/part1/xv6-public/log.c:68-82 | Recovering from any intermediate state of a recovery ends in the disk the first recovery would have produced. |
| LogRecovery.CrashesRecover | Assignment9_xv6/part1/xv6-public/log.c:115-122 | The same for any number of successive cut-short recoveries. |
| LogRecovery.CommittedApplies | Assignment9_xv6/part1/xv6-public/log.c:176-202 | A run of commits leaves every home block as a program that never crashes would have left it. |
| LogRecovery.RunSurvivesCrash | Assignment9_xv6/part1/xv6-public/log.c:124-202 | A crash in the last commit of any run, with any crashes in recovery, recovers to exactly the first n-1 or exactly all n transactions. |
| LogRecovery.CommitKeepsView | Assignment9_xv6/part1/xv6-public/log.c:192-233 | A commit changes no home block as its readers see it: pinned buffers before, the disk after. |
| LogRecovery.Log.InstallTrans | Assignment9_xv6/part1/xv6-public/log.c:68-82 | Passes through exactly the states Installed lists, one per block write, and unpins the installed buffers. |
| LogRecovery.Log.ReadHead | Assignment9_xv6/part1/xv6-public/log.c:84-96 | Loads the count and the block list of the on-disk header. |
| LogRecovery.Log.WriteHead | Assignment9_xv6/part1/xv6-public/log.c:98-113 | Rewrites the count and the first n entries of the header block in one disk write. |
| LogRecovery.Log.RecoverFromLog | Assignment9_xv6/part1/xv6-public/log.c:115-122 | Writes exactly the states of RecoveryState and ends with the recovered disk and an open, empty log. |
| LogRecovery.Log.WriteLog | Assignment9_xv6/part1/xv6-public/log.c:176-190 | Copies each logged block as its readers see it to its log slot, one write at a time. |
| LogRecovery.Log.Commit | Assignment9_xv6/part1/xv6-public/log.c:192-202 | Writes nothing for an empty transaction; otherwise exactly the states of CommitState, and leaves nothing pinned. |
| LogRecovery.Log.LogWrite | Assignment9_xv6/part1/xv6-public/log.c:213-233 | Adds the block once (absorption), pins its contents, and keeps the transaction well formed. |
| LogRecovery.Log.BeginOp | Assignment9_xv6/part1/xv6-public/log.c:124-141 | Admits the operation exactly when no commit runs and lh.n plus ten blocks for each operation in progress and for this one is at most 30. |
| LogRecovery.Log.EndOp | Assignment9_xv6/part1/xv6-public/log.c:143-163 | Releases the operation and starts a commit exactly when it was the last. |
| LogProtocol.ReachableSafe | Assignment9_xv6/part1/xv6-public/log.c:124-202 | Over every interleaving of any number of processes: committing excludes outstanding operations, the header has no duplicates, no operation is split across two commits, and every process asleep in begin_op would still have to wait if it were woken. |
| LogProtocol.StepKeepsInv | Assignment9_xv6/part1/xv6-public/log.c:124-233 | Each step (begin_op, log_write's test, its append, end_op, erasing, end of commit) keeps the invariant behind ReachableSafe. |
| LogProtocol.OnlyTooBigPanics | Assignment9_xv6/part1/xv6-public/log.c:213-221 | Of the three panics only "too big a transaction" is reachable, exactly when its test holds. |
| LogProtocol.HeaderNeverOverflows | Assignment9_xv6/part1/xv6-public/log.c:132-137 | If no operation logs more than MAXOPBLOCKS distinct blocks, lh.n plus every unused reservation never exceeds LOGSIZE. |
| LogProtocol.AdmissionIsConservative | Assignment9_xv6/part1/xv6-public/log.c:132-134 | A run in which begin_op waits although the unused reservations and ten more blocks would fit: blocks already logged count both in lh.n and in their operation's reservation. |
| LogProtocol.FreshBlockNeverPanics | Assignment9_xv6/part1/xv6-public/log.c:218-219 | With log.size > LOGSIZE, logging a block new to the operation never panics. |
| LogProtocol.FreshWritesSafeExactly | Assignment9_xv6/part1/xv6-public/log.c:218-219 | Over all runs that keep to their reservations, no log_write of a block new to its operation panics if and only if log.size > LOGSIZE. |
| LogProtocol.ShortLogPanics | Assignment9_xv6/part1/xv6-public/log.c:218-219 | For every log size up to LOGSIZE, a run in which such a log_write panics. |
| LogProtocol.RelogInFullLogPanics | Assignment9_xv6/part1/xv6-public/log.c:218-226 | A run in which logging an already logged block panics although absorption needs no room: the test precedes the search. |
| LogProtocol.MkfsLogIsOneBlockShort | Assignment9_xv6/part1/xv6-public/mkfs.c:25 | At the log size mkfs writes, reserved, fresh blocks can panic; with one block more they cannot. |
| FsFormat.WordOfPut | Assignment9_xv6/part1/xv6-public/fs.c:389-394 | Storing one 32-bit word in a block and reading words back. |
| FsFormat.BitOfSet | Assignment9_xv6/part1/xv6-public/fs.c:66-68 | Setting bitmap bit i makes bit i set and leaves every other bit. |
| FsFormat.BitOfClear | Assignment9_xv6/part1/xv6-public/fs.c:88-92 | Clearing bitmap bit i clears it and no other bit. |
| FsFormat.DinodeOfPut | Assignment9_xv6/part1/xv6-public/fs.c:226-233 | Writing one inode into its block: that inode reads back, the other inodes of the block are unchanged. |
| FsModel.OneOwner | Assignment9_xv6/part1/xv6-public/fs.c:365-400 | In every good state a data block is in at most one slot of one inode, in the data area, and marked in use. |
| FsModel.BallocKeepsBitmap | Assignment9_xv6/part1/xv6-public/fs.c:55-78 | A free bit means an unowned data block; allocating it keeps the bitmap exact. |
| FsModel.BfreeKeepsBitmap | Assignment9_xv6/part1/xv6-public/fs.c:80-95 | An owned block's bit is set (so "freeing free block" is unreachable) and freeing it keeps the bitmap exact. |
| FsModel.GrowKeepsOwners | Assignment9_xv6/part1/xv6-public/fs.c:373-400 | Allocating a block into an empty slot gives exactly that slot to that inode and keeps ownership and bitmap exact. |
| FsModel.GrowKeepsBytes | Assignment9_xv6/part1/xv6-public/fs.c:373-400 | and changes no byte of the file. |
| FsModel.GrowLeavesOthers | Assignment9_xv6/part1/xv6-public/fs.c:373-400 | and no block of any other inode. |
| FsModel.OthersKeep | Assignment9_xv6/part1/xv6-public/fs.c:365-400 | An inode whose blocks an operation left alone keeps exactly its blocks and contents. |
| FsModel.WriteBackRestores | Assignment9_xv6/part1/xv6-public/fs.c:220-236 | After an operation on one inode, iupdate restores the good state with every other file intact. |
| FsModel.TruncFreesExactly | Assignment9_xv6/part1/xv6-public/fs.c:407-435 | Truncation clears the bits of the inode's blocks and of no other block. |
| FsModel.ChunkFits | Assignment9_xv6/part1/xv6-public/file.c:127-145 | Every chunk filewrite passes to writei on a hole-free inode logs at most MAXOPBLOCKS blocks, for any offset and disk size. |
| FsModel.HoleFreeAfterWrite | Assignment9_xv6/part1/xv6-public/fs.c:481-511 | A write that starts no further than the end keeps a hole-free file hole-free. |
| FsModel.WrittenTwice | Assignment9_xv6/part1/xv6-public/file.c:135-152 | Consecutive chunks add up to one write of the whole buffer. |
| Fs.FileSystem.Balloc | Assignment9_xv6/part1/xv6-public/fs.c:55-78 | Takes the lowest free block, zeroed, and logs it and its bitmap block; fails only on a full disk. |
| Fs.FileSystem.Bfree | Assignment9_xv6/part1/xv6-public/fs.c:80-95 | Clears the block's bit and logs the bitmap block. |
| Fs.FileSystem.Bmap | Assignment9_xv6/part1/xv6-public/fs.c:370-400 | Returns the block of file block bn, allocating only what is missing; file bytes, other inodes and other slots stay; a block that is there costs nothing; every block changed has been handed to log_write. |
| Fs.FileSystem.Iupdate | Assignment9_xv6/part1/xv6-public/fs.c:219-236 | Replaces the inode's copy in its inode block. |
| Fs.FileSystem.Itrunc | Assignment9_xv6/part1/xv6-public/fs.c:402-435 | Frees exactly the inode's blocks and leaves a good state with every other file intact. |
| Fs.FileSystem.Readi | Assignment9_xv6/part1/xv6-public/fs.c:451-476 | Returns the slice clipped to the size, or -1 for a bad range; on a hole-free inode it changes and allocates nothing. |
| Fs.FileSystem.RefusedExactly | Assignment9_xv6/part1/xv6-public/fs.c:493-496 | The 32-bit tests refuse exactly the requests that start past the end or would outgrow the largest file. |
| Fs.FileSystem.Writei | Assignment9_xv6/part1/xv6-public/fs.c:479-511 | Returns -1 exactly when off is past the size or off + n past MAXFILE * BSIZE, and n otherwise unless the disk is full; replaces exactly bytes [off, off+n), extends the size to the maximum, keeps the file hole-free and all other files intact, within WriteCost logged blocks; refused requests change nothing; every block changed has been handed to log_write. |
| Fs.FileSystem.Chunk | Assignment9_xv6/part1/xv6-public/file.c:135-152 | One operation of filewrite: it writes its bytes or is refused; every block that differs from the start of the operation is logged, and at most MAXOPBLOCKS distinct ones are. |
| Fs.FileSystem.Filewrite | Assignment9_xv6/part1/xv6-public/file.c:116-156 | Writes the data up to the first refused chunk: on a hole-free file it returns the full length exactly when the data start no further than the end and fit the largest file, disk full aside; "short filewrite" is unreachable, and of the operations, at least one for every chunk written, none logs more than MAXOPBLOCKS distinct blocks. |
| Mkfs.FreeblockIsBalloc | Assignment9_xv6/part1/xv6-public/mkfs.c:268-285 | On the image as it will be once the bitmap is written, "slot = freeblock++" is the kernel's balloc into that slot. |
| Mkfs.WinodeIsIupdate | Assignment9_xv6/part1/xv6-public/mkfs.c:183-195 | winode on the image is the kernel's iupdate on the final image. |
| Mkfs.EmptyImageOk | Assignment9_xv6/part1/xv6-public/mkfs.c:108-111 | The zeroed image with the metadata bits set is a good, empty file system. |
| Mkfs.NeedIsGrowth | Assignment9_xv6/part1/xv6-public/mkfs.c:268-285 | What an append takes from the disk is at most what the size of its file says. |
| Mkfs.Image.Ialloc | Assignment9_xv6/part1/xv6-public/mkfs.c:223-235 | Gives out the next inode with the type, one link and no contents; other inodes and files stay. |
| Mkfs.Image.Iappend | Assignment9_xv6/part1/xv6-public/mkfs.c:255-297 | The file becomes the concatenation of its contents and the data, no other file and no type or link count changes, and no more blocks are used than were missing. |
| Mkfs.Image.Balloc | Assignment9_xv6/part1/xv6-public/mkfs.c:237-251 | Writes the bitmap that makes any image, the finished one included, the final image. |
| Mkfs.Image.FixRoot | Assignment9_xv6/part1/xv6-public/mkfs.c:158-163 | Rounds the directory size up: the directory is padded with zeros and is hole-free if and only if its size was not a multiple of BSIZE; every other file holds its contents. |
| Mkfs.RootHole | Assignment9_xv6/part1/xv6-public/mkfs.c:158-163 | With thirty files the image main leaves has a hole in its root directory. |
| Mkfs.AddFile | Assignment9_xv6/part1/xv6-public/mkfs.c:145-153 | One pass of main's loop: the inode, its directory entry, and the bytes read returned, in order. |
| Mkfs.DirentReads | Assignment9_xv6/part1/xv6-public/fs.h:53-56 | An entry reads back as its inode number and the first DIRSIZ bytes of its name, NUL-padded. |
| Mkfs.RootEntries | Assignment9_xv6/part1/xv6-public/mkfs.c:120-147 | The root's entries read as ".", ".." and the files in order, each under its name without a leading underscore with the inode of its bytes. |
| Mkfs.Mkfs | Assignment9_xv6/part1/xv6-public/mkfs.c:108-165 | main: given room, the finished image is a good file system whose inodes have the types and links ialloc gave them and hold exactly the entries of the root and the files, with the bitmap written. |
| Mkfs.KernelReads | Assignment9_xv6/part1/xv6-public/fs.c:452-476 | On any image with its bitmap written, before or after the fix of the root, the kernel's readi returns exactly the bytes appended to a file. |
| Mkfs.KernelReadsRoot | Assignment9_xv6/part1/xv6-public/fs.c:452-476 | On the finished image the kernel reads the root directory as its entries and then zeros; only reading into the hole can panic. |
| Mkfs.KernelBallocs | Assignment9_xv6/part1/xv6-public/fs.c:55-78 | The kernel's balloc returns exactly the first block mkfs did not use, and fails exactly when mkfs used them all. |
| Mkfs.MkfsThenKernel | Assignment9_xv6/part1/xv6-public/mkfs.c:108-165 | End to end: on the image main leaves for any files that fit, the kernel reads each file as it was given, the root as its entries and zeros, and allocates only what mkfs left. |
| FsCrash.OperationsSurviveCrash | Assignment9_xv6/part1/xv6-public/log.c:115-202 | A crash anywhere in the last commit of a run of file-system operations, crashes in recovery, and a completed recovery: the disk is a good file system with whole transactions of whole operations applied, every inode and file as they left it. |
| FsCrash.OperationOfFs | Assignment9_xv6/part1/xv6-public/fs.c:55-511 | What Fs proves of an operation, a good state with every changed block logged, is what the crash result asks of one. |
| FsCrash.AppliedIsAfter | Assignment9_xv6/part1/xv6-public/log.c:176-233 | A home block after the transactions is that of the file system after the operations they group. |
| FsCrash.GoodFrom | Assignment9_xv6/part1/xv6-public/fs.c:55-511 | A good file system does not depend on the log area. |
| Heap.PutBackOk | Assignment9_xv6/part1/xv6-public/umalloc.c:24-44 | Freeing keeps the list ordered, disjoint and fully coalesced. |
| Heap.PutBackUnits | Assignment9_xv6/part1/xv6-public/umalloc.c:24-44 | Freeing adds exactly the block's units to the free units. |
| Heap.TakenOk | Assignment9_xv6/part1/xv6-public/umalloc.c:74-85 | Allocating, by exact fit or by splitting off the tail, keeps the list ordered and coalesced. |
| Heap.GivenApart | Assignment9_xv6/part1/xv6-public/umalloc.c:74-85 | The block handed out overlaps nothing left in the list. |
| Heap.TakenUnits | Assignment9_xv6/part1/xv6-public/umalloc.c:74-85 | Allocating removes exactly the units handed out. |
| Heap.FreeUndoesMalloc | Assignment9_xv6/part1/xv6-public/umalloc.c:24-85 | Freeing what malloc has just handed out gives back exactly the list malloc found. |
| Heap.FreeKeepsHeap | Assignment9_xv6/part1/xv6-public/umalloc.c:24-44 | free keeps live and free blocks disjoint and free plus live units equal to the units obtained. |
| Heap.TakeKeepsHeap | Assignment9_xv6/part1/xv6-public/umalloc.c:63-85 | So does handing out a block. |
| Heap.GrowKeepsHeap | Assignment9_xv6/part1/xv6-public/umalloc.c:46-61 | So does memory from sbrk. |
| Heap.LinkedPutBack | Assignment9_xv6/part1/xv6-public/umalloc.c:33-42 | The two coalescing tests leave the header words of exactly the new ring. |
| Heap.LapEnds | Assignment9_xv6/part1/xv6-public/umalloc.c:74-88 | Back at freep with nothing found, no free block is large enough: the search is complete. |
| Heap.NUnitsSuffices | Assignment9_xv6/part1/xv6-public/umalloc.c:69 | The block holds the bytes asked for if and only if nbytes + 7 does not wrap. |
| Heap.SbrkFitsExactly | Assignment9_xv6/part1/xv6-public/umalloc.c:46-56 | The size reaches sbrk as meant if and only if it fits an int; otherwise it arrives as zero or negative. |
| Heap.Heap.FindPlace | Assignment9_xv6/part1/xv6-public/umalloc.c:30-32 | The search of free terminates at the free block just below the one freed. |
| Heap.Heap.Free | Assignment9_xv6/part1/xv6-public/umalloc.c:24-44 | Removes the block from the live ones, puts it back in the ring, and leaves every other live block's words intact. |
| Heap.Heap.Morecore | Assignment9_xv6/part1/xv6-public/umalloc.c:46-61 | Adds at least 4096 units, after which some free block is large enough; or fails changing nothing. |
| Heap.Heap.Lap | Assignment9_xv6/part1/xv6-public/umalloc.c:74-88 | One lap of the search terminates at the first block large enough, or shows that there is none. |
| Heap.Heap.Malloc | Assignment9_xv6/part1/xv6-public/umalloc.c:63-90 | Asks sbrk only if no free block is large enough, and fails only if sbrk then does; otherwise hands out the tail, or all, of the first free block in ring order after freep that is large enough, freep becoming its predecessor, with every live block intact. |
| VmModel.TakeKeepsList | Assignment9_xv6/part1/xv6-public/kalloc.c:82-95 | Popping the first free page keeps the list exact. |
| VmModel.PutKeepsList | Assignment9_xv6/part1/xv6-public/kalloc.c:59-77 | Pushing a page keeps the list exact: every free page once. |
| VmModel.FreeCount | Assignment9_xv6/part1/xv6-public/kalloc.c:59-95 | The length of the free list is the number of free pages. |
| VmModel.FramesApart | Assignment9_xv6/part1/xv6-public/vm.c:60-80 | Two user mappings of any address spaces never share a frame. |
| VmModel.TabledKeeps | Assignment9_xv6/part1/xv6-public/vm.c:41-54 | A new empty page table changes no mapping. |
| VmModel.EnterKeeps | Assignment9_xv6/part1/xv6-public/vm.c:60-80 | Entering a held frame makes exactly that page mapped and owned. |
| VmModel.UnmapKeeps | Assignment9_xv6/part1/xv6-public/vm.c:265-277 | Freeing a frame and clearing its entry unmaps exactly that page. |
| VmModel.OtherSpaceKept | Assignment9_xv6/part1/xv6-public/vm.c:35-80 | An operation on one address space leaves every other one's pages, mappings and memory alone. |
| VmModel.FreeUndoesGrowth | Assignment9_xv6/part1/xv6-public/vm.c:342-344 | Growing a new address space and freeing all of it restores exactly the use every page had. |
| VmModel.PaidExactly | Assignment9_xv6/part1/xv6-public/vm.c:41-54 | Operations that take frames and make missing page tables succeed exactly when there is a free page for each, and then use exactly these. |
| Vm.GrowthKeepsSpaces | Assignment9_xv6/part1/xv6-public/vm.c:219-249 | After an address space has grown, free pages, directories, tables and frames are again disjoint and complete. |
| Vm.ShrinkKeepsSpaces | Assignment9_xv6/part1/xv6-public/vm.c:251-298 | The same after deallocuvm or freevm. |
| Vm.DropsWhatWalkFrees | Assignment9_xv6/part1/xv6-public/vm.c:264-277 | deallocuvm, which skips absent page tables, frees exactly the frames a page-by-page walk would. |
| Vm.CopyApart | Assignment9_xv6/part1/xv6-public/vm.c:325-340 | The child's frames are disjoint from the parent's. |
| Vm.Memory.Freerange | Assignment9_xv6/part1/xv6-public/kalloc.c:46-53 | Exactly the whole pages of the range become free. |
| Vm.Memory.Kalloc | Assignment9_xv6/part1/xv6-public/kalloc.c:82-95 | Takes a free page, or reports truthfully that there is none. |
| Vm.Memory.Kfree | Assignment9_xv6/part1/xv6-public/kalloc.c:59-77 | Makes the page free; no other page changes. |
| Vm.Memory.Walk | Assignment9_xv6/part1/xv6-public/vm.c:35-55 | Finds the table with the entry, making it if asked; no mapping changes. |
| Vm.Memory.Mappages | Assignment9_xv6/part1/xv6-public/vm.c:57-80 | Maps exactly the pages of the range to consecutive frames; on failure an initial part of them, with no page free; it fails exactly when there are fewer free pages than missing page tables. |
| Vm.Memory.Setupkvm | Assignment9_xv6/part1/xv6-public/vm.c:103-136 | Succeeds exactly when 65 pages are free, the directory and 64 page tables, with a directory that has exactly the kernel's mappings; on failure every page's use is as before. |
| Vm.Memory.Allocuvm | Assignment9_xv6/part1/xv6-public/vm.c:219-249 | Maps the new pages to zeroed frames, exactly when there is a free page for each of them and for each missing page table; on failure all mappings and frames are as before and only empty tables may be left. |
| Vm.Memory.Deallocuvm | Assignment9_xv6/part1/xv6-public/vm.c:251-279 | Unmaps and frees exactly the user pages from PGROUNDUP(newsz) up to oldsz. |
| Vm.Memory.Freevm | Assignment9_xv6/part1/xv6-public/vm.c:281-298 | Every page of the directory, its tables and frames becomes free; no other page changes. |
| Vm.Memory.Copyuvm | Assignment9_xv6/part1/xv6-public/vm.c:313-345 | Succeeds exactly when the pages it needs are free: 65, one for each page below sz, and one for every 1024 of these or part of them. The child then maps every page below sz with the parent's flags and bytes plus the kernel's mappings; no page in use changes; on failure every page's use is as before. |
| Bio.UnlinkKeepsRing | Assignment9_xv6/part1/xv6-public/bio.c:132-133 | Taking a buffer out keeps next and prev mutually inverse on one ring. |
| Bio.PushKeepsRing | Assignment9_xv6/part1/xv6-public/bio.c:49-55 | Inserting at the head does too. |
| Bio.MoveToFront | Assignment9_xv6/part1/xv6-public/bio.c:130-138 | Moving to the front keeps all NBUF buffers on the ring, ordered by latest drop to refcnt 0. |
| Bio.BufferCache.constructor | Assignment9_xv6/part1/xv6-public/bio.c:38-56 | binit builds the ring of all NBUF buffers. |
| Bio.BufferCache.Bget | Assignment9_xv6/part1/xv6-public/bio.c:58-93 | Finds the block's one buffer; else recycles, of the buffers with refcnt 0 and not dirty, the least recently released; panics exactly if there is none. |
| Bio.BufferCache.FinishBread | Assignment9_xv6/part1/xv6-public/bio.c:95-106 | Whatever ran since bget, the holder gets the block's logical contents. |
| Bio.BufferCache.Bread | Assignment9_xv6/part1/xv6-public/bio.c:95-106 | Returns a locked buffer with the last logged contents, else the disk's. |
| Bio.BufferCache.Bwrite | Assignment9_xv6/part1/xv6-public/bio.c:108-116 | The data are on the disk and are the block's logical contents; the buffer is clean. |
| Bio.BufferCache.LogWrite | Assignment9_xv6/part1/xv6-public/log.c:213-233 | Marking a buffer B_DIRTY makes its data the block's logical contents. |
| Bio.BufferCache.AcquireSleep | Assignment9_xv6/part1/xv6-public/sleeplock.c:22-32 | Taking a buffer's free sleep lock keeps references and coherence. |
| Bio.BufferCache.ReleaseSleep | Assignment9_xv6/part1/xv6-public/sleeplock.c:34-42 | So does letting go of it once changes are logged or written. |
| Bio.BufferCache.Drop | Assignment9_xv6/part1/xv6-public/bio.c:128-140 | Dropping the last reference, and only that, moves the buffer to the front. |
| Bio.BufferCache.Brelse | Assignment9_xv6/part1/xv6-public/bio.c:118-141 | Both halves of brelse, by the holder. |
| Bio.BufferCache.OneBuffer | Assignment9_xv6/part1/xv6-public/bio.c:61-76 | At most one buffer ever stands for a block. |
| Bio.BufferCache.UnwrittenIsPinned | Assignment9_xv6/part1/xv6-public/bio.c:78-83 | Contents that differ from the disk are in a dirty buffer, which bget will not recycle. |
| Ide.MemDisk.Iderw | Assignment9_xv6/part1/xv6-public/memide.c:38-60 | A dirty buffer goes to its block and no other block changes; a clean one is filled from its block and the disk stays as it is; the buffer ends valid and clean. |
| Ide.Replay | Assignment9_xv6/part1/xv6-public/memide.c:38-60 | Given requests one after the other, it leaves the disk and the buffers that SyncAll and Synced say. |
| Ide.SyncAllLatest | Assignment9_xv6/part1/xv6-public/memide.c:54-58 | The synchronous driver leaves in each block the data of the last write to it, or what was there first; reads change nothing. |
| Ide.ChainAppend | Assignment9_xv6/part1/xv6-public/ide.c:151-155 | Appending through qnext extends the queue at its end. |
| Ide.SubmitKeeps | Assignment9_xv6/part1/xv6-public/ide.c:150-159 | A new request keeps the correspondence with the synchronous driver, joins the end of the queue, and is the active one exactly if there was no other. |
| Ide.IntrKeeps | Assignment9_xv6/part1/xv6-public/ide.c:102-131 | Completing the head request keeps the queue discipline and the correspondence of the disk and of every completed buffer with the synchronous driver. |
| Ide.Driver.Submit | Assignment9_xv6/part1/xv6-public/ide.c:137-164 | Queues the request last, and starts it exactly when the queue was empty. |
| Ide.Driver.Ideintr | Assignment9_xv6/part1/xv6-public/ide.c:102-131 | Completes the head request with flags, data and disk as the synchronous driver leaves them, in FIFO order, and starts the next. |
| Ide.Driver.Return | Assignment9_xv6/part1/xv6-public/ide.c:161-168 | Once woken, iderw returns with its buffer valid and clean: a write with its own data, a read with the data of the last write queued before it on its block, or the disk's first contents; each block of the disk holds the last completed write to it. All as the in-memory driver leaves them when given the calls in order. |
| Ide.DataOnDisk | Assignment9_xv6/part1/xv6-public/ide.c:161-168 | A completed request's data are on the disk unless a later completed request was on the same block. |
| Ide.WokenIsDone | Assignment9_xv6/part1/xv6-public/ide.c:161-164 | A requester that has been woken always finds its request done, so the loop runs once. |
| Pipe.TestsExact | Assignment9_xv6/part1/xv6-public/pipe.c:85-114 | The full and empty tests on the wrapping 32-bit counters are exact, and nwrite - nread stays within PIPESIZE. |
| Pipe.PutOk | Assignment9_xv6/part1/xv6-public/pipe.c:93 | One byte in keeps every unread byte in its slot. |
| Pipe.GetOk | Assignment9_xv6/part1/xv6-public/pipe.c:116 | One byte out is the oldest accepted byte not yet delivered. |
| Pipe.StreamIntact | Assignment9_xv6/part1/xv6-public/pipe.c:77-121 | Bytes delivered followed by bytes buffered are the bytes accepted, in order. |
| Pipe.Ring.WriteRun | Assignment9_xv6/part1/xv6-public/pipe.c:83-98 | Between sleeps pipewrite accepts a run of its bytes, and stops short only when the pipe is full. |
| Pipe.Ring.ReadRun | Assignment9_xv6/part1/xv6-public/pipe.c:105-120 | piperead sleeps exactly on an empty, writable pipe; otherwise it returns what is buffered, up to n. |
| PipeProtocol.StepKeepsInv | Assignment9_xv6/part1/xv6-public/pipe.c:59-121 | Each lock-visible step of any process in pipewrite, piperead, pipeclose, sleep or wakeup keeps the invariant. |
| PipeProtocol.PipeOverRuns | Assignment9_xv6/part1/xv6-public/pipe.c:77-121 | The stream property and the bound, over all interleavings. |
| PipeProtocol.CallsIntact | Assignment9_xv6/part1/xv6-public/pipe.c:77-98 | In every run, for each call of pipewrite, the bytes it has had accepted followed by those it still holds are the bytes it was given; it ends short only when the read end is closed. |
| PipeProtocol.NoLostWakeup | Assignment9_xv6/part1/xv6-public/proc.c:415-474 | Whenever p->lock is free, no writer sleeps on a pipe with room or without readers, and no reader on a nonempty or closed one. |
| PipeProtocol.MutualExclusion | Assignment9_xv6/part1/xv6-public/proc.c:428-451 | In every run p->lock and ptable.lock each have at most one holder. |
| Proc.Ptable.Wakeup1 | Assignment9_xv6/part1/xv6-public/proc.c:454-465 | Every process sleeping on the channel becomes runnable with its other fields as they were, and no other process changes. |
| Proc.Ptable.Allocproc | Assignment9_xv6/part1/xv6-public/proc.c:73-92 | Takes the first unused place with a new pid, or changes nothing. |
| Proc.Ptable.Exit | Assignment9_xv6/part1/xv6-public/proc.c:250-265 | Wakes the parent, gives the children to init, wakes init if one is a zombie, and becomes a zombie. |
| Proc.Ptable.WaitPass | Assignment9_xv6/part1/xv6-public/proc.c:279-311 | Reaps the first zombie child; else returns -1 without children or when killed; else sleeps. |
| Proc.Ptable.Kill | Assignment9_xv6/part1/xv6-public/proc.c:476-497 | Marks and wakes the first process with the pid. |
| ExitWait.StepKeepsInv | Assignment9_xv6/part1/xv6-public/proc.c:73-312 | Every step of fork, exit, wait, sleep, wakeup, kill and the scheduler keeps the invariant. |
| ExitWait.WakeupWakes | Assignment9_xv6/part1/xv6-public/proc.c:454-474 | The same of the wakeup step. |
| ExitWait.NoWakeupSinceSleep | Assignment9_xv6/part1/xv6-public/proc.c:415-474 | In every run, a process asleep on a channel went to sleep after the channel's last wakeup. |
| ExitWait.WaitersHaveReason | Assignment9_xv6/part1/xv6-public/proc.c:270-312 | In every reachable state a process asleep in wait has a child and no zombie child. |
| ExitWait.ParentsLive | Assignment9_xv6/part1/xv6-public/proc.c:224-268 | In every reachable state every process but init past EMBRYO has a parent that is neither UNUSED nor ZOMBIE. |
| ExitWait.ReapedOnce | Assignment9_xv6/part1/xv6-public/proc.c:283-300 | Every exited process is a zombie or reaped, never both; no pid is reaped twice, and its parent reaps it. |
| Grep.Match | Assignment9_xv6/part1/xv6-public/grep.c:72-82 | Returns 1 exactly when the pattern's declarative meaning holds at some position of the text. |
| Grep.MatchHere | Assignment9_xv6/part1/xv6-public/grep.c:84-96 | The same, anchored at the start of the text. |
| Grep.MatchStar | Assignment9_xv6/part1/xv6-public/grep.c:98-106 | The same for a starred character followed by the rest. |
| Grep.AtStar | Assignment9_xv6/part1/xv6-public/grep.c:98-106 | The meaning of c*re is some number of c's followed by re. |
| Grep.TextOfParse | Assignment9_xv6/part1/xv6-public/grep.c:84-96 | Every pattern is the text of the items it is read as. |
| Grep.PatternText | Assignment9_xv6/part1/xv6-public/grep.c:84-96 | Reading the text of a list of items gives the items back exactly when they can be written: no literal dot, a literal * only first or after a star, a final literal $ only before the anchor. |
| Shell.ParseUndoesPrint | Assignment9_xv6/part1/xv6-public/sh.c:327-446 | parsecmd inverts a printer that uses only the parentheses that precedence and grouping need, on every command tree with fewer than MAXARGS arguments per command. |
| Shell.LineText | Assignment9_xv6/part1/xv6-public/sh.c:344-446 | The same between parentheses: what follows is left unread. |
| Shell.BackText | Assignment9_xv6/part1/xv6-public/sh.c:344-359 | Before & or ;, where a list needs parentheses, the printed command is read back. |
| Shell.PipeText | Assignment9_xv6/part1/xv6-public/sh.c:361-372 | The same for an operand of a pipe: | binds tighter than &, and pipes group to the right. |
| Shell.ExecText | Assignment9_xv6/part1/xv6-public/sh.c:374-446 | The same for a command with its redirections. |
| Shell.RedirBetween | Assignment9_xv6/part1/xv6-public/sh.c:427-442 | A redirection before further arguments wraps the command that those arguments still extend. |
| Shell.AppendIsWrite | Assignment9_xv6/part1/xv6-public/sh.c:384-394 | >> opens its file exactly as > does. |
| Shell.ParsedReprints | Assignment9_xv6/part1/xv6-public/sh.c:327-446 | Every tree parsecmd returns is one the printer covers, so its printed form is read as the same tree. |
| Shell.PrintIsInjective | Assignment9_xv6/part1/xv6-public/sh.c:327-446 | Different trees print differently. |
| Shell.ArgBound | Assignment9_xv6/part1/xv6-public/sh.c:436-440 | A simple command parses if and only if it has fewer than MAXARGS arguments. |
| ShellGrammar.AcceptedExactly | Assignment9_xv6/part1/xv6-public/sh.c:327-446 | parsecmd accepts a line, however its tokens are spaced, exactly when the tokens are the written form of a command under a grammar of its own, and returns that command. |
| ShellGrammar.LineOfTokens | Assignment9_xv6/part1/xv6-public/sh.c:265-308 | Every line is made of the tokens gettoken finds and blanks. |
| ShellGrammar.TokensOfLine | Assignment9_xv6/part1/xv6-public/sh.c:265-308 | gettoken finds exactly the tokens a line is made of, blanks needed only where two would read as one. |
| ShellGrammar.Unambiguous | Assignment9_xv6/part1/xv6-public/sh.c:327-446 | No row of tokens is the written form of two commands. |
| ShellParser.Parser.Gettoken | Assignment9_xv6/part1/xv6-public/sh.c:265-308 | The cursor version returns the kind, place and text of the next token. |
| ShellParser.Parser.Peek | Assignment9_xv6/part1/xv6-public/sh.c:310-320 | Skips blanks and tests the next character. |
| ShellParser.Parser.Parseredirs | Assignment9_xv6/part1/xv6-public/sh.c:374-397 | Wraps the command in its redirections, as the grammar says. |
| ShellParser.Parser.Parseblock | Assignment9_xv6/part1/xv6-public/sh.c:399-413 | A parenthesised command, as the grammar says. |
| ShellParser.Parser.Parseexec | Assignment9_xv6/part1/xv6-public/sh.c:415-446 | A simple command, as the grammar says. |
| ShellParser.Parser.Parsepipe | Assignment9_xv6/part1/xv6-public/sh.c:361-372 | A pipeline, as the grammar says. |
| ShellParser.Parser.Parseline | Assignment9_xv6/part1/xv6-public/sh.c:344-359 | A line, as the grammar says; terminates on every input. |
| ShellParser.Parser.Nulterminate | Assignment9_xv6/part1/xv6-public/sh.c:448-493 | Ends every token of the tree with a NUL and overwrites no token. |
| ShellParser.Parser.Parsecmd | Assignment9_xv6/part1/xv6-public/sh.c:327-342 | Refuses exactly what the grammar refuses; otherwise every argv and file pointer reads as exactly its token. |
| ShellParser.TerminatedReads | Assignment9_xv6/part1/xv6-public/sh.c:448-493 | In the terminated buffer the tree of pointers reads as the tree of tokens. |
| ShellParser.ParsePrinted | Assignment9_xv6/part1/xv6-public/sh.c:327-342 | parsecmd on a printed command gives back the command, read through its pointers. |

## Left out

- Heap.Heap.Malloc: requests for which sbrk's int argument would be negative (2^31 bytes and more) are excluded, because sbrk then takes memory away; SbrkFitsExactly says exactly which they are.
- Heap.Heap.Morecore: what sbrk returns is a parameter (failure, or memory above everything handed out before, with any gap); addresses count header-sized units.
- Fs.FileSystem.Readi: device inodes (T_DEV) are a table dispatch and are not modelled.
- Fs.FileSystem.Writei: device inodes likewise; on an inode with holes a write that does not extend the file leaves the in-memory inode ahead of the disk, as the code does, so only the contents are stated there.
- Fs.FileSystem.Filewrite: the inode lock and begin_op/end_op around each chunk are not taken; the log's side is LogProtocol.
- FsModel.ChunkFits: inodes with holes are not covered; writei never makes a hole (HoleFreeAfterWrite), and filewrite is not called on the directory mkfs leaves one in.
- iget, iput, ilock, directories and path lookup (fs.c), and the inode cache.
- Mkfs.Image.Iappend: running past FSSIZE, which mkfs does not check, is excluded by a precondition; the byte-order helpers are the little-endian format itself.
- Mkfs.Mkfs: that the files and inodes fit is a precondition, as mkfs does not check; block 1, which holds the superblock, is not written, and the assertion on slashes in names and the calls of open, read and close are left out.
- Vm.Memory.Mappages: the physical address is page-aligned, as at every call; loaduvm, clearpteu and copyout are left out.
- Vm.Memory.Deallocuvm: oldsz is at most KERNBASE, as at every call; above it the loop would free kernel mappings.
- Vm.Memory.Setupkvm: the page of the linker symbol data is a parameter; page tables are read as 20-bit page numbers and 12-bit flags, so the hardware's use of them is not modelled.
- Bio.BufferCache.Bread: blocks other than block 0 of device 0, the key every buffer starts with, and a block nobody else has locked; a caller that waits for the lock runs Bget, then AcquireSleep when the lock is free, then FinishBread.
- Bio.BufferCache.ReleaseSleep: a holder that changed the data must have logged or written it; bio.c relies on this.
- Ide.Driver.Ideintr: the transfer and the interrupt are one step, interrupts come only from a completed command, and disk errors do not occur; the ports are not modelled.
- PipeProtocol.NoLostWakeup: kill is excluded, because the killed test is not made under the lock that guards sleeping.
- pipeclose's kfree of the pipe's page once both ends are closed.
- Pipe.Ring.WriteRun: killed is not set, for the same reason.
- ExitWait.ReapedOnce: process identifiers are unbounded numbers; kernel stacks, page tables, files and the priority field are not part of this model.
- The scheduler's choice of CPU and process, swtch, trap frames and segments: foreign instructions; scheduling is a state change.
- sleeplock.c as a protocol of its own: it is the sleep/wakeup pattern proved for the pipe; its two states appear in Bio.
- Grep: the read loop, which splits its input into lines, is I/O.
- Shell: runcmd and the file modes beyond read or write are left out; malloc does not fail.
- Boot code, device drivers other than the disk's, system-call wrappers, the other user programs, exec's ELF parsing, and the other coursework of the repository.
