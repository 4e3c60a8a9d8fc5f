# xv6 in Dafny

A model of the xv6 kernel with copy-on-write fork and `wmap` regions, and of two of its user-level
programs, with proofs about it.  Every module models one component; the modules named after a
component's code (`LogDevice`, `VmCode`, `UmallocCode`, `FileCode`, the classes in the others) keep
its loops and its updates in place, and are proved against functions whose properties the lemmas
state.

- **Redo log** (`RedoLog`, `GroupCommit`, `LogSpace`, `LogDevice`): log.c over the buffer cache and
  the memory disk.  A step is one disk write, one cache operation, one call of begin_op, log_write
  or end_op, or a crash.  Every run refines a machine with two copies of the disk; which log sizes
  lead to which panic is decided for every disk layout.
- **Virtual memory** (`Frames`, `AddressSpace`, `CopyOnWrite`, `Fork`, `Isolation`,
  `SharedMemory`, `Leak`, `VmCode`, `PageTable`, `Regions`): frames, reference counts, page tables of
  any number of processes, the page fault handler, fork page by page, and the region table.  Private
  memories behave as if fork copied every page at once, and wmap pages as if it handed out the page
  itself; frames that fork shared get lost, and stay lost.
- **Files** (`FileBlocks`, `FileSpace`, `FileCode`, `Bitmap`): block ownership, byte contents,
  truncation, when a write runs out of blocks, that every block it changes is logged, and how many
  blocks a chunk of filewrite logs.
- **Buffer cache** (`LruList`, `BufferCache`): the circular list, unique keys, least-recently-used
  recycling, agreement with the disk.
- **Sleeping** (`SleepLock`, `Pipe`, `PipeCalls`, `WaitExit`): interleavings of any number of processes, with
  kills at any time.
- **User level** (`Umalloc`, `UmallocCode`; `ShellParse`, `ShellGrammar`, `ShellPrint`,
  `ShellTerminate`): the allocator's free list, and the shell's parser: its tokens, the grammar it
  accepts, printing and parsing back, and its in-place string termination.

`Params` holds shared constants and `Sets` two facts about finite sets.

## Assumptions

- The answers of sbrk and of kalloc where it is not modelled, and what happens on other processors,
  are parameters or steps that may occur at any time.
- When `LogSpace` speaks of bget's panic, no process outside the commit holds a buffer.
- Logged blocks lie outside the log area, and an operation logs at most MAXOPBLOCKS distinct blocks;
  `FileCode` proves the latter for filewrite.
- No reference count passes 255, the pages of a shared mapping are touched before fork, and a
  process's size stays at or below 0x60000000.
- In `Isolation` a fault, a growth or a shrinking, one turn of copyuvm and one kfree of a teardown are
  single steps, and pages of a dead process may be freed in any order.  The code updates ref_counts
  without a lock (kalloc.c:50-86); two processors inside one of these steps at once are not modelled.
- Inodes are free of holes below their size to begin with; the operations keep them so.
- A panic is a step that is not taken, a result `ok == false`, or a precondition.
- Where the code differs from what its comments say, the model follows the code: kfree does not lower
  counts, copyuvm marks read-only pages copy-on-write in the parent, log_write tests the log size
  before it looks for the block, allocproc leaves the killed flag of an entry as it is, and the
  shell's `>>` opens its file as `>` does.

## Model

| member | source | states |
|---|---|---|
| RedoLog.WithList | xv6-public/log.c:102-113 | The header that write_head builds reads back, through read_head, as exactly the in-memory list of block numbers |
| RedoLog.AppendInv | xv6-public/log.c:214-233 | log_write keeps the log invariant: the listed blocks are distinct home blocks, listed once, and exactly they are pinned in the cache |
| RedoLog.AppendContents | xv6-public/log.c:214-233 | What operations read after log_write is what they read before with that one block replaced; nothing durable changes |
| RedoLog.FillContents | xv6-public/bio.c:97-106 | bread of a missing block changes nothing that operations read, and a block outside the home area is read as it is on disk |
| RedoLog.EvictContents | xv6-public/bio.c:75-88 | Recycling a buffer that is not dirty changes nothing that operations read |
| RedoLog.RebootInv | xv6-public/log.c:86-96 | After a crash at any valid disk, the state that read_head builds satisfies the invariant of a recovery in progress |
| RedoLog.LogStepContents | xv6-public/log.c:178-197 | Every disk write of commit up to the header write leaves what a crash would recover as it is, except the header write, which changes it at once to what operations read |
| RedoLog.InstallStepContents | xv6-public/log.c:70-82 | Every disk write of install_trans and the erasing header write, in a commit or in a recovery, changes neither what a crash would recover nor what operations read |
| RedoLog.NothingLogged | xv6-public/log.c:193-202 | With an empty transaction and no commit running, the disk itself holds what operations read |
| GroupCommit.CommittingIsQuiescent | xv6-public/log.c:146-163 | While a commit or recovery runs, and whenever the counter is 0, no operation is active, so the panic in end_op is unreachable |
| GroupCommit.BeginInv | xv6-public/log.c:126-141 | begin_op's test keeps the listed blocks plus the unspent credit of all active operations within LOGSIZE |
| GroupCommit.CreditPays | xv6-public/log.c:224-230 | A new log slot is always paid for by the credit of the operation that logs the block; absorption costs nothing |
| GroupCommit.LogWriteInv | xv6-public/log.c:214-233 | log_write by an operation within its bound keeps the credit invariant and the log invariant |
| GroupCommit.EndInv | xv6-public/log.c:146-163 | end_op keeps the invariant and starts a commit exactly when it was the last operation |
| GroupCommit.NextInv | xv6-public/log.c:69-233 | Every step of every process, of a commit, of a recovery and every crash keeps the invariant |
| GroupCommit.NextRefines | xv6-public/log.c:125-233 | Every step is a step of a machine with two copies of the home blocks, where a commit step either does nothing or makes the current copy durable while no operation is active |
| GroupCommit.RunRefines | xv6-public/log.c:69-233 | Every run, with crashes anywhere, seen through the abstraction is a run of the two-copy machine |
| GroupCommit.RecoversToQuiescentPoint | xv6-public/log.c:115-202 | Crash atomicity over whole runs: at every moment, what a crash would recover is what operations read at some earlier moment of the run with no operation active |
| GroupCommit.QuiescentIsDurable | xv6-public/log.c:165-173 | In every reachable state with no operation outstanding and no commit running, everything written so far is what a crash would recover |
| GroupCommit.WriteAhead | xv6-public/log.c:69-82 | The only step that changes a home block on disk installs it from its log copy, after the header that lists it was written |
| LogSpace.NewBlockPanics | xv6-public/log.c:126-141 | On every log, an operation within its bound meets the size panic on a block it has not logged before exactly when all data blocks of the log are taken, and only on a log of at most LOGSIZE blocks |
| LogSpace.PanicsIffFull | xv6-public/log.c:218-230 | On every log, because the size test precedes the search, log_write panics on any block, new or logged, exactly when the capacity is used up; if that is LOGSIZE, every active operation has spent its whole bound |
| LogSpace.NewBlockPanicIff | xv6-public/mkfs.c:25 | A run reaches the panic on a new block of an operation within its bound if and only if the log has at most LOGSIZE blocks, as the one that mkfs makes, and there are home blocks enough to fill it |
| LogSpace.LoggedBlockPanicIff | xv6-public/log.c:218-227 | A run reaches the panic on a block that the operation has already logged if and only if the log has data blocks and there are home blocks enough to use up its capacity |
| LogSpace.CommitFindsBuffer | xv6-public/log.c:178-190 | With NBUF buffers and none held, commit finds a buffer for the next log block if and only if fewer than NBUF blocks are logged |
| LogSpace.BgetPanics | xv6-public/bio.c:78-92 | The panic condition of the buffer list is that of the log model: the block is not cached and the transaction pins every buffer |
| LogSpace.CommitPanicIff | xv6-public/param.h:11-12 | A run reaches that panic in commit if and only if the log has more than LOGSIZE blocks; so with LOGSIZE home blocks every log size has a run within all bounds that panics, in log_write or in commit |
| LogDevice.Device.Bread | xv6-public/bio.c:97-106 | The buffer of the block, filled from disk on a miss |
| LogDevice.Device.LogWrite | xv6-public/log.c:214-233 | The scan finds a listed block and otherwise appends it; operations then read the new data in that block and nothing else changes |
| LogDevice.Device.WriteHead | xv6-public/log.c:102-113 | The loop overwrites the count and the first entries of the header block and keeps its other words |
| LogDevice.Device.ReadHead | xv6-public/log.c:86-96 | The loop reads exactly the block numbers that the header counts |
| LogDevice.Device.WriteLog | xv6-public/log.c:178-190 | A crash after any of the writes recovers to the same contents as before, and afterwards all log blocks are written |
| LogDevice.Device.InstallTrans | xv6-public/log.c:70-82 | A crash after any of the writes recovers to the same contents, and afterwards all listed blocks are installed |
| LogDevice.Device.CommitHead | xv6-public/log.c:197-197 | One write makes what operations read durable |
| LogDevice.Device.EraseHead | xv6-public/log.c:199-200 | The erasing write changes neither the durable nor the current contents and leaves an empty transaction |
| LogDevice.Device.RecoverFromLog | xv6-public/log.c:116-122 | A crash anywhere in recovery leaves a disk with the same recovered contents, so recovery may restart any number of times; at the end the disk holds them |
| LogDevice.Device.Commit | xv6-public/log.c:193-202 | There is a single disk write before which every crash recovers to the old contents and from which on every crash recovers to the new ones |
| Frames.SoleRef | xv6-public/kalloc.c:118-145 | A frame with a count of at most 1 has at most one reference |
| Frames.NoRefs | xv6-public/kalloc.c:118-145 | No frame on the free list is referenced |
| Frames.KallocInv | xv6-public/kalloc.c:151-167 | kalloc keeps frame safety and hands out a frame without references |
| Frames.KfreeInv | xv6-public/kalloc.c:118-145 | kfree of a frame in hand keeps frame safety: no duplicates on the free list and no referenced frame on it |
| Frames.DropInv | xv6-public/vm.c:279-287 | Freeing the frame of an entry and clearing the entry keeps every count an upper bound of the references |
| Frames.ShareInv | xv6-public/vm.c:383-398 | A second entry for a frame, with the count raised, keeps frame safety as long as the count does not pass 255 |
| Frames.DecrefInv | xv6-public/kalloc.c:63-86 | decref of a frame with references to spare lowers its count and frees nothing |
| AddressSpace.WalkAllocSame | xv6-public/vm.c:35-57 | Making a page table page changes no entry and no page contents |
| AddressSpace.DeallocUvmSame | xv6-public/vm.c:265-290 | Exactly the entries of the range go; every other entry and page of every process stays |
| AddressSpace.AllocUvmSame | xv6-public/vm.c:229-259 | Growth adds zeroed pages and touches nothing else, or fails and gives everything of the range back |
| AddressSpace.LazyPageSame | xv6-public/trap.c:221-243 | The lazy fault adds one zeroed page with a frame of its own, readable and writable by the user, or none, and touches no other |
| AddressSpace.LazyPageIff | xv6-public/trap.c:221-243 | The lazy allocation succeeds if and only if there is a frame for the page, and one for its page table page if that is missing |
| AddressSpace.FreeVmSame | xv6-public/vm.c:294-310 | freevm removes every entry, page table page and the directory of its process and nothing of others |
| AddressSpace.ReapSame | xv6-public/proc.c:533-544 | Reaping removes every reference of the process and nothing of others |
| CopyOnWrite.StoreIsolated | xv6-public/vm.c:383-398 | A store that the entry permits changes one byte of the storing process's page and no private page of any other process |
| CopyOnWrite.CowFaultSame | xv6-public/trap.c:144-204 | The handler makes the page writable and private without changing contents, or, without memory, changes nothing |
| CopyOnWrite.CowFaultIff | xv6-public/trap.c:150-203 | The handler fails if and only if the count is not 1 and no frame is free; if not, a user page is then readable and writable |
| CopyOnWrite.CopyPageSame | xv6-public/vm.c:337-398 | One turn of copyuvm leaves every contents as they were and gives the child the parent's |
| CopyOnWrite.CopyPageEntries | xv6-public/vm.c:383-398 | The child's entry has the parent's frame and user bit, is not writable, and is copy-on-write exactly if the parent could write or was copy-on-write; the parent's entry becomes copy-on-write |
| CopyOnWrite.CopyPageCount | xv6-public/vm.c:398-398 | The count of the frame goes up by one exactly if the child has the page |
| CopyOnWrite.CopyUvmSame | xv6-public/vm.c:327-418 | copyuvm changes no contents of the parent and nothing of others and, if it succeeds, the child reads the parent's pages |
| CopyOnWrite.CopyUvmEntries | xv6-public/vm.c:327-418 | If copyuvm succeeds, every page of the child has such an entry |
| CopyOnWrite.CopyUvmSucceedsIff | xv6-public/vm.c:392-397 | copyuvm succeeds if and only if there is a frame for every page table page that the child lacks |
| CopyOnWrite.AllocUvmSucceedsIff | xv6-public/vm.c:240-258 | allocuvm succeeds if and only if there is a frame for every page and for every page table page that the process lacks |
| CopyOnWrite.ReadOnlyLost | xv6-public/vm.c:383-384 | For every read-only parent page: copyuvm marks it copy-on-write, so the parent's next fault makes it writable while the child's entry stays read-only |
| CopyOnWrite.FreedIffCountIsOne | xv6-public/kalloc.c:125-132 | kfree does not lower counts: the last reference's frame returns to the free list if and only if its count is 1 |
| CopyOnWrite.SharedFrameLost | xv6-public/kalloc.c:125-132 | So for every page that only the parent had: after copyuvm shared it and child and parent both dropped it, its frame is neither free nor referenced |
| Fork.NewProcOnly | xv6-public/proc.c:107-112 | A new process has kernel pages only, and a failed attempt leaves no reference of it |
| Fork.SharePagesSame | xv6-public/proc.c:285-308 | Sharing the wmap pages with the child touches no private page of any process |
| Fork.SharePageGives | xv6-public/proc.c:294-304 | A wmap page of the parent is given to the child, with the same frame and permissions and a count one higher, if and only if its page table page is there or a frame for it is free |
| Fork.SharePagesIff | xv6-public/proc.c:285-308 | The child gets all wmap pages if and only if there is a frame for every page table page that it lacks for them |
| Fork.ForkCopies | xv6-public/proc.c:207-325 | fork changes no contents of any existing process; the child reads the parent's pages below its size and has no others there, or does not exist |
| Fork.NewProcIff | xv6-public/proc.c:107-112 | Making a process succeeds if and only if there are 66 free frames, for its stack, page directory and kernel page tables |
| Fork.NewProcLinks | xv6-public/vm.c:107-139 | A new process has a kernel stack, a page directory, and page table pages exactly for the kernel addresses that kmap maps |
| Fork.ForkSucceedsIff | xv6-public/proc.c:213-227 | fork succeeds if and only if there are frames for those and for the page table pages of the child; it needs none for the pages themselves |
| Fork.ForkEntries | xv6-public/proc.c:219-227 | After fork every private page of the child has an entry inherited from its parent's |
| Fork.ForkShares | xv6-public/proc.c:285-308 | What the child has of the parent's wmap pages it has with the parent's frame and permissions |
| Fork.ForkSharesIff | xv6-public/proc.c:207-325 | It has all of them if and only if there are frames for the new process, its page tables and those of the wmap pages |
| Isolation.FaultRefines | xv6-public/trap.c:144-204 | A copy-on-write fault is invisible in the private memories of all processes |
| Isolation.ForkPageRefines | xv6-public/vm.c:337-398 | One turn of copyuvm, with steps of other processes before and after it, is invisible in private memories; if it fails, the child is given up |
| Isolation.ForkDoneRefines | xv6-public/proc.c:312-325 | When fork is done, the child appears with the memory that its parent has had since the call, whatever other processes did in between |
| Isolation.ProtectRefines | xv6-public/vm.c:216-221 | Making a page read-only changes no private memory |
| Isolation.StoreRefines | xv6-public/trap.c:150-203 | A store that the entry permits changes one byte of the storing process's private memory only |
| Isolation.GrowRefines | xv6-public/vm.c:229-259 | Growth appends zero pages to the private memory of one process, or changes nothing |
| Isolation.ShrinkRefines | xv6-public/vm.c:265-290 | Shrinking cuts the private memory of one process |
| Isolation.ReapRefines | xv6-public/proc.c:533-544 | Teardown removes one private memory and no other, and its single kfrees are invisible |
| Isolation.NextRefines | xv6-public/vm.c:326-418 | Every step of every process acts on private memories as a machine without sharing, wherever the forks and teardowns of others stand, and keeps frame safety |
| Isolation.FailsIffNoFrames | xv6-public/proc.c:207-227 | fork and growth fail if and only if frames are lacking: 66 for a new process, one for a missing page table page, or the new pages with their page tables |
| Isolation.RunRefines | xv6-public/kalloc.c:118-167 | Frame safety and copy-on-write isolation hold in every state of every run from boot |
| SharedMemory.NextAccessible | xv6-public/vm.c:383-398 | Every step keeps every private page user-accessible and writable or copy-on-write, unless it was made read-only, and every wmap page writable |
| SharedMemory.StoreOrFault | xv6-public/trap.c:144-204 | In every run a store by a process to a page of its own that is not recorded as read-only is permitted, or permitted after one fault, which fails only for lack of a frame |
| SharedMemory.UnprotectedStore | xv6-public/trap.c:144-204 | The same for every page that no process has made read-only before, told from the steps of the run |
| SharedMemory.SharedStore | xv6-public/trap.c:221-243 | In every run a store to a wmap page is permitted at once |
| SharedMemory.NextShares | xv6-public/proc.c:285-308 | Every step acts on wmap pages as a machine does in which fork hands out the page itself: which processes map it, which of them share it, and what each reads |
| SharedMemory.RunShares | xv6-public/proc.c:285-308 | So it is in every step of every run |
| SharedMemory.StaySharing | xv6-public/proc.c:285-308 | In every run a parent and the child that inherited a wmap page read the same there, after any stores of either, until one of them unmaps it or is gone |
| Leak.StepKept | xv6-public/kalloc.c:118-145 | No step brings a frame back that is neither free nor referenced |
| Leak.LostForever | xv6-public/kalloc.c:118-145 | Over whole runs: a frame that is lost once is lost to the end |
| Leak.LosesFrame | xv6-public/kalloc.c:125-132 | Every memory of 135 frames or more has a run from boot that loses one: a process with one page forks, the child is reaped, the parent gives the page back |
| VmCode.Kernel.KallocFrame | xv6-public/kalloc.c:151-167 | Takes the head of the free list with count 1, or nothing |
| VmCode.Kernel.Walkpgdir | xv6-public/vm.c:35-57 | Makes a zeroed page table page if there is none and a frame is free |
| VmCode.Kernel.Deallocuvm | xv6-public/vm.c:265-290 | The loop unmaps and frees exactly the specified range |
| VmCode.Kernel.LazyFault | xv6-public/trap.c:221-243 | The specified lazy allocation with its failure paths |
| VmCode.Kernel.Allocuvm | xv6-public/vm.c:229-259 | The loop has the specified effect, including the give-back on both failures |
| VmCode.Kernel.CopyOne | xv6-public/vm.c:340-398 | One turn of copyuvm has the specified effect |
| VmCode.Kernel.Copyuvm | xv6-public/vm.c:327-418 | The loop has the specified effect, stopping at the first failure |
| VmCode.Kernel.PageFault | xv6-public/trap.c:144-204 | The copy-on-write branch has the specified effect |
| PageTable.Indices | xv6-public/mmu.h:74-77 | PDX and PTX split the page number of an address |
| PageTable.AddTableFlat | xv6-public/vm.c:45-55 | A new zeroed page table page leaves the flat map as it is |
| PageTable.SetFlat | xv6-public/vm.c:56-56 | A store through the returned pointer changes exactly one entry of the flat map |
| PageTable.ClearedOn | xv6-public/vm.c:274-288 | A turn of deallocuvm's loop, with or without a jump, frees the same frames as page-by-page turns |
| PageTable.Space.Walkpgdir | xv6-public/vm.c:35-57 | Points to the entry of the address, makes a page table page if asked to and possible, and leaves the flat map as it is |
| PageTable.Space.Mappages | xv6-public/vm.c:62-82 | Maps exactly the pages that overlap the byte range to consecutive frames; a failure leaves a mapped prefix and an empty free list |
| PageTable.Space.DeallocOne | xv6-public/vm.c:274-288 | One turn unmaps one page, or skips a range that has no page table page |
| PageTable.Space.Deallocuvm | xv6-public/vm.c:265-290 | Unmaps exactly the pages between the sizes and frees their frames, each once and in order, as a loop over every page would |
| LruList.PushFrontInv | xv6-public/bio.c:50-55 | Linking a buffer in behind the head keeps one circular list in both directions |
| LruList.UnlinkInv | xv6-public/bio.c:132-133 | Unlinking a buffer keeps one circular list of the others |
| BufferCache.Moved | xv6-public/bio.c:130-138 | The list stays ordered by the time of the last full release when the released buffer moves to the front |
| BufferCache.Cache.constructor | xv6-public/bio.c:39-56 | All buffers are in one circular list, unused |
| BufferCache.Cache.FindCached | xv6-public/bio.c:69-76 | Finds a buffer of the block if and only if there is one |
| BufferCache.Cache.FindUnused | xv6-public/bio.c:81-90 | Finds the least recently released buffer that is unused and clean, if there is one |
| BufferCache.Cache.Bget | xv6-public/bio.c:62-92 | One more user for the block's buffer, or the least recently released unused clean buffer with that key; no key but (0, 0) is held twice |
| BufferCache.Cache.Iderw | xv6-public/memide.c:38-60 | A dirty buffer goes to disk, an invalid one is read; a clean valid unlocked buffer equals its block |
| BufferCache.Cache.Bread | xv6-public/bio.c:97-106 | A locked valid buffer with the disk block or the pinned contents, one more user, the least recently released one if recycled, and no other buffer changed; none if and only if the block is not cached and no buffer is unused and clean |
| BufferCache.Cache.Pin | xv6-public/log.c:231-231 | B_DIRTY keeps the buffer from being recycled |
| BufferCache.Cache.Bwrite | xv6-public/bio.c:110-116 | The contents are on disk and the buffer is clean |
| BufferCache.Cache.Brelse | xv6-public/bio.c:121-141 | The last user makes the buffer the most recently released; the list and all other invariants stay |
| BufferCache.Cache.MoveToFront | xv6-public/bio.c:130-138 | The relinking keeps the list and puts the buffer first |
| Bitmap.SetBit | xv6-public/fs.c:66-68 | The byte and mask arithmetic sets one bit and no other |
| Bitmap.ClearBit | xv6-public/fs.c:88-92 | The byte and mask arithmetic clears one bit and no other |
| FileBlocks.SetWordAt | xv6-public/fs.c:390-393 | Storing an address in an indirect block changes that little-endian word and no other |
| FileBlocks.AllotOwned | xv6-public/fs.c:373-400 | Allocating a block for a slot keeps ownership: set bits are the metadata blocks and the disjoint union of the blocks that inodes lead to |
| FileBlocks.AllotGrows | xv6-public/fs.c:373-400 | An allocation keeps every address set before and every byte of every file |
| FileBlocks.PutOwned | xv6-public/fs.c:499-502 | Writing data keeps ownership |
| FileBlocks.PutByte | xv6-public/fs.c:499-502 | A copy into a block changes exactly those bytes of that file and no byte of any other |
| FileBlocks.SlotAllocated | xv6-public/fs.c:90-91 | The block of every slot is allocated, so the panic on freeing a free block is unreachable |
| FileBlocks.ReleaseOwned | xv6-public/fs.c:82-95 | bfree keeps ownership, apart from the slot that still names the block |
| FileBlocks.ClearOwned | xv6-public/fs.c:415-431 | Clearing the slot restores ownership in full |
| FileBlocks.ReadChunk | xv6-public/fs.c:469-474 | The bytes that readi copies from one block are that part of the file |
| FileBlocks.WroteMore | xv6-public/fs.c:498-504 | A turn of writei's loop extends the written range by one chunk, across direct and indirect blocks |
| FileBlocks.WroteFiles | xv6-public/fs.c:506-509 | After the size update every file is free of holes |
| FileBlocks.WroteContents | xv6-public/fs.c:482-511 | After the size update the file is the old one with the written range replaced, and every other file is as it was |
| FileBlocks.FreesExactly | xv6-public/fs.c:408-435 | itrunc frees a block if and only if a slot of its inode, the indirect block included, leads to it |
| FileBlocks.TruncatedFiles | xv6-public/fs.c:408-435 | The truncated file is empty and every other file keeps its contents |
| FileCode.ChunkFits | xv6-public/file.c:127-133 | A chunk of filewrite touches few enough blocks: data, bitmap, indirect and inode blocks together are at most MAXOPBLOCKS |
| FileCode.BlockExists | xv6-public/fs.c:498-499 | No block is allocated for bytes below the old end of the file, nor for the block an unaligned write starts in |
| FileCode.WriteLogs | xv6-public/fs.c:481-511 | The blocks that a write logs are bounded by the blocks it touches |
| FileCode.WrittenOn | xv6-public/file.c:135-152 | Consecutive writes are one write |
| FileCode.ReadsBack | xv6-public/fs.c:452-511 | What a write put in the file is what a read of that range returns |
| FileSpace.NeedOne | xv6-public/fs.c:373-400 | One block needs its own slot, and the indirect block if that is missing in front of it |
| FileSpace.NeedSplit | xv6-public/fs.c:373-400 | What a range of blocks needs is what its first part needed and what the rest still needs |
| FileSpace.EnoughOn | xv6-public/fs.c:498-500 | There was space for all if and only if, the first part being there, there is space for the rest |
| FileCode.RecordsOn | xv6-public/fs.c:498-504 | Two pieces of work that log every block they change, log together every block that they change |
| FileCode.ChunkSpace | xv6-public/file.c:135-152 | Whether the next chunk is refused, and whether it finds blocks, told from the volume at the start of filewrite |
| FileCode.FileSystem.Balloc | xv6-public/fs.c:57-78 | Marks and zeroes the lowest free block, or panics if and only if there is none |
| FileCode.FileSystem.Bmap | xv6-public/fs.c:373-400 | The block for a block number, allocated if missing; it panics if and only if fewer blocks are free than are missing; existing addresses and all file bytes stay, every block and bit that changes is logged, and the logged blocks are counted |
| FileCode.FileSystem.Readi | xv6-public/fs.c:453-476 | Exactly the clipped slice of the file, or -1 past its end or on 32-bit overflow; nothing changes |
| FileCode.FileSystem.WriteLoop | xv6-public/fs.c:498-504 | The loop puts exactly the given bytes in place |
| FileCode.FileSystem.Writei | xv6-public/fs.c:482-511 | Replaces exactly the given bytes, leaves other files alone, keeps memory and disk inodes equal, logs every block that changes and stays within the log bound; or -1 and no change; it panics if and only if fewer blocks are free than are missing in the range |
| FileCode.FileSystem.FreeDirects | xv6-public/fs.c:414-419 | The first loop frees the direct blocks |
| FileCode.FileSystem.FreeIndirects | xv6-public/fs.c:421-431 | The second part frees the blocks behind the indirect block, then that block |
| FileCode.FileSystem.Itrunc | xv6-public/fs.c:408-435 | Frees exactly the blocks of the inode, empties it, updates it on disk, and logs every block that changes |
| FileCode.FileSystem.WriteTransaction | xv6-public/file.c:140-145 | Each transaction of filewrite logs every block that it changes, and at most MAXOPBLOCKS distinct ones |
| FileCode.FileSystem.Filewrite | xv6-public/file.c:118-156 | Chunk by chunk the whole buffer is written, or -1 and a prefix of whole chunks up to one that writei refuses; it panics if and only if the blocks missing for those bytes are not free |
| SleepLock.NextInv | xv6-public/sleeplock.c:22-42 | Every step of every process and every kill keeps the invariant of the protocol |
| SleepLock.MutualExclusion | xv6-public/sleeplock.c:22-32 | At any moment of any run at most one process holds the sleep lock |
| SleepLock.NoLostWakeup | xv6-public/proc.c:663-720 | A process that sleeps on the lock, or is committed to, has a holder of the lock or a wakeup that has not reached it yet, also with kills at any time |
| SleepLock.HoldingSleep | xv6-public/sleeplock.c:44-53 | holdingsleep answers yes exactly to the holder |
| SleepLock.PidNamesHolder | xv6-public/sleeplock.c:22-42 | While the spinlock is free, pid is the number of the holder, and 0 if there is none |
| SleepLock.AsleepStep | xv6-public/proc.c:663-744 | A process falls asleep only by its own sleep and wakes exactly when a releaser's scan reaches it or somebody kills it |
| SleepLock.HolderMoves | xv6-public/proc.c:679-698 | The holder of ptable.lock, and without one the holder of the spinlock, can always move |
| SleepLock.NoDeadlock | xv6-public/sleeplock.c:22-42 | If no process in the protocol can move, all are outside, hold the lock or sleep, and if one sleeps another holds the lock |
| WaitExit.AdoptedEntry | xv6-public/proc.c:499-507 | What exit's loop does to every entry: children pass to init, and init is woken if one of them is dead |
| WaitExit.ExitWait | xv6-public/proc.c:493-511 | exit leaves no process asleep in wait with a dead child, also not init |
| WaitExit.NextInv | xv6-public/proc.c:493-744 | Every section under ptable.lock keeps the invariant of the table |
| WaitExit.WaitersMissNothing | xv6-public/proc.c:517-560 | Whenever the lock is free, a process that sleeps inside a call of wait that has not returned has a child and no dead child |
| WaitExit.ExitWakesParent | xv6-public/proc.c:493-511 | After an exit the parent is not asleep in wait, nor is init if it got a dead child |
| WaitExit.WaitSleepsIff | xv6-public/proc.c:526-558 | A pass of wait goes to sleep if and only if there is a child, none is dead and the process is not killed |
| WaitExit.FactStep | xv6-public/proc.c:493-744 | Which calls make an entry used, running, asleep on a channel, child of a process, dead or killed, and which end that |
| WaitExit.HoldsIff | xv6-public/proc.c:570-744 | In every run these facts follow from the calls made: each holds if and only if the last call that concerns it made it true |
| WaitExit.NewbornUnmarkedIff | xv6-public/proc.c:87-104 | A new process starts with the killed flag clear if and only if its entry was not killed since it was last reaped: allocproc does not clear the flag |
| WaitExit.NewbornMarked | xv6-public/proc.c:725-744 | The input that shows it: kill of process number 0 marks an unused entry, and the next process in it starts killed |
| WaitExit.DeadHaveReaper | xv6-public/proc.c:498-510 | Every dead process has a living parent that is not asleep in wait |
| WaitExit.ReapedOnce | xv6-public/proc.c:528-547 | No two waits of a run return the same process, and what wait returns had called exit |
| WaitExit.Ptable.Wakeup1 | xv6-public/proc.c:705-712 | Exactly the processes asleep on the channel become runnable |
| WaitExit.Ptable.Exit | xv6-public/proc.c:493-510 | The specified effect of exit on the table |
| WaitExit.Ptable.Wait | xv6-public/proc.c:526-558 | Reaps the first dead child, fails without children or when killed, or sleeps |
| WaitExit.Ptable.Kill | xv6-public/proc.c:725-744 | Marks and wakes the first process with that number, or reports that there is none |
| Pipe.Tests | xv6-public/pipe.c:85-85 | The tests on the wrapping 32-bit counters say exactly whether the ring is full or empty, and the index arithmetic survives wrap-around |
| Pipe.PutInv | xv6-public/pipe.c:93-93 | Storing a byte keeps the ring a queue of the bytes not yet read |
| Pipe.GetInv | xv6-public/pipe.c:116-116 | Taking a byte keeps it and yields the oldest one |
| Pipe.NextInv | xv6-public/pipe.c:59-121 | Every step of every reader, writer and closer and every kill keeps the invariant |
| Pipe.Stream | xv6-public/pipe.c:78-121 | In every run the bytes read are a prefix of the bytes written, at most PIPESIZE behind |
| Pipe.OwnBytes | xv6-public/pipe.c:84-94 | At every moment of a call of pipewrite, whatever other writers do, the process has put the first bytes of its own buffer, in order and once each |
| Pipe.PutsAll | xv6-public/pipe.c:84-97 | When the call returns it has put all of them, unless it returns early from a full pipe |
| Pipe.OnlyWritersPut | xv6-public/pipe.c:93-93 | Nothing but such a step puts a byte in the pipe |
| PipeCalls.KilledAwake | xv6-public/pipe.c:105-111 | In every run a killed process is never asleep in the pipe |
| PipeCalls.ReadsInOneGo | xv6-public/pipe.c:101-117 | At every moment of a call of piperead the process has taken the latest bytes that anybody took, at most as many as it asked for |
| PipeCalls.ReadReturns | xv6-public/pipe.c:101-121 | A call returns a piece of the stream without a gap, shorter than asked for only if the pipe is empty, and nothing only if nobody can write any more or the process is killed |
| PipeCalls.OpenIff | xv6-public/pipe.c:60-75 | An end of the pipe is open if and only if no call of pipeclose for that end has returned |
| Pipe.SleepersHaveReason | xv6-public/pipe.c:85-118 | Whenever the lock is free, a sleeping writer has a full pipe and an open read end; a sleeping reader has an open write end, and an empty pipe if and only if no writer has returned early since the reader slept and the pipe was last empty |
| Pipe.StrandedMeans | xv6-public/pipe.c:86-89 | The readers recorded as left behind are exactly those that have slept, at a pipe that was never empty, since some early return of the run |
| Pipe.EarlyReturnStrands | xv6-public/pipe.c:86-89 | After an early return every sleeping reader has an empty open pipe if and only if no reader was asleep before it |
| Pipe.ReaderLeftAsleep | xv6-public/pipe.c:86-89 | The early return does not wake readers: a run that leaves a reader asleep at a full pipe |
| Pipe.Buffer.Store | xv6-public/pipe.c:84-94 | pipewrite's loop appends bytes in order until done or full |
| Pipe.Buffer.Take | xv6-public/pipe.c:113-117 | piperead's loop takes the oldest bytes in order until done or empty |
| ShellParse.ParseLine | xv6-public/sh.c:344-359 | Parsing terminates on every line, with the remaining length as measure, and never runs past the end |
| ShellParse.TokenIsWord | xv6-public/sh.c:295-300 | A word token is a maximal run of word characters |
| ShellParse.LineWords | xv6-public/sh.c:344-446 | Every word of a parsed command is a whole word of the line; at most nine arguments, two redirection modes |
| ShellGrammar.TokenLaw | xv6-public/sh.c:265-308 | On every line: the token starts at the first character that is no white space; it is >> exactly if the line has that there, any other symbol is one character, a word is a longest run; then white space is skipped |
| ShellGrammar.LexExists | xv6-public/sh.c:265-308 | Every line is a sequence of tokens with only white space between them |
| ShellGrammar.LexedOnce | xv6-public/sh.c:265-308 | And of no other sequence |
| ShellGrammar.GetTokenAt | xv6-public/sh.c:265-308 | Before token i of the line gettoken answers that token and leaves the cursor before the next |
| ShellGrammar.PeekAt | xv6-public/sh.c:310-319 | peek looks at the first character of the next token, for every set of symbols |
| ShellGrammar.RedirsIff | xv6-public/sh.c:374-397 | parseredirs, on tokens, stops exactly behind the longest row of redirections |
| ShellGrammar.SimpleIff | xv6-public/sh.c:415-446 | parseexec's loop, on tokens, succeeds exactly on words and redirections in any order with at most nine words, up to a symbol that ends a command |
| ShellGrammar.LineMirror | xv6-public/sh.c:344-446 | The parser on the line and the parser on its tokens give the same command or the same error, at the same token |
| ShellGrammar.LineSound | xv6-public/sh.c:344-359 | What parseline reads up to a closing parenthesis or the end, the grammar derives |
| ShellGrammar.LineComplete | xv6-public/sh.c:344-359 | What the grammar derives up to there, parseline reads |
| ShellGrammar.ParseCmdIff | xv6-public/sh.c:327-342 | On every line parsecmd gives a command if and only if the grammar derives that command from all tokens of the line |
| ShellGrammar.Unambiguous | xv6-public/sh.c:327-342 | No line has two commands |
| ShellPrint.RedirsParse | xv6-public/sh.c:374-397 | parseredirs reads printed redirections back in order |
| ShellPrint.ArgsParse | xv6-public/sh.c:429-445 | parseexec's loop reads printed arguments and the redirections behind them back |
| ShellPrint.GroupParses | xv6-public/sh.c:399-413 | parseblock reads a command in parentheses and the redirections behind it back |
| ShellPrint.PipeParses | xv6-public/sh.c:361-372 | parsepipe reads a printed pipe back |
| ShellPrint.BacksParse | xv6-public/sh.c:350-353 | The loop over & reads as many background commands as were printed |
| ShellPrint.ListParses | xv6-public/sh.c:354-357 | parseline reads a printed list back |
| ShellPrint.Parses | xv6-public/sh.c:344-446 | Wherever a printed command stands in a line, followed by something that cannot belong to it, the parser reads exactly that command and stops behind it |
| ShellPrint.RoundTrip | xv6-public/sh.c:327-342 | Parsing the printed form of any well-formed command gives that command |
| ShellPrint.ParsedPrintsBack | xv6-public/sh.c:327-342 | Every command that parsing gives is well formed, and its printed form parses to the same command |
| ShellTerminate.EndIsNoWordChar | xv6-public/sh.c:295-302 | No word ends inside another word |
| ShellTerminate.ReadsAsWord | xv6-public/sh.c:448-493 | After termination every argument and file name reads, as a C string, as exactly its word of the original line |
| ShellTerminate.Nulterminate | xv6-public/sh.c:450-493 | Stores NULs exactly at the word ends of the command, in place |
| ShellTerminate.Parsecmd | xv6-public/sh.c:327-342 | The parsed command, all of whose strings read as their words; or the error |
| Umalloc.Neighbours | xv6-public/umalloc.c:33-42 | A block to be freed touches at most its two neighbours in the list |
| Umalloc.InsertInv | xv6-public/umalloc.c:37-42 | Linking the block in keeps the list circular, in address order and disjoint, up to the two places that may touch |
| Umalloc.SettleInv | xv6-public/umalloc.c:33-42 | Merging at such a place keeps the invariant and removes the contact |
| Umalloc.FreedHeaders | xv6-public/umalloc.c:33-43 | The two tests of free find exactly the neighbours that touch the block, and the header writes are those merges |
| Umalloc.FreedInv | xv6-public/umalloc.c:25-44 | free adds exactly the units of its block to the free ones, conserves all units, touches no other block in use and leaves no two free blocks adjacent |
| Umalloc.TakeUnits | xv6-public/umalloc.c:75-84 | malloc takes exactly the units asked for from free units, the whole block or its upper end, and touches no block in use |
| Umalloc.AddCoreUnits | xv6-public/umalloc.c:54-58 | New memory adds its units and changes no block |
| Umalloc.SearchStops | xv6-public/umalloc.c:30-32 | The tests of free's search succeed at the place in address order and nowhere else |
| Umalloc.NeverAdjacent | xv6-public/umalloc.c:33-42 | Neighbouring free units lie in one free block |
| Umalloc.ScanEnds | xv6-public/umalloc.c:74-86 | When malloc's search is back at its start, no free block is large enough |
| Umalloc.InUseDisjoint | xv6-public/umalloc.c:63-90 | Blocks handed out overlap neither each other nor free memory |
| Umalloc.NothingLost | xv6-public/umalloc.c:24-90 | Every unit from sbrk is free or lies in a block in use |
| Umalloc.PayloadInv | xv6-public/umalloc.c:84-84 | Stores to the payload of a block in use cannot damage the list |
| UmallocCode.NUnits | xv6-public/umalloc.c:69-69 | The header and the payload, rounded up to units |
| UmallocCode.Heap.Below | xv6-public/umalloc.c:30-32 | The search terminates at the list node below the block |
| UmallocCode.Heap.Free | xv6-public/umalloc.c:25-44 | The units of the block become free, everything else in use keeps its place and contents, the list invariant holds, and freep stands at the node below the block |
| UmallocCode.Heap.Morecore | xv6-public/umalloc.c:47-61 | At least the units asked for are added as free memory and then fit, or nothing changes |
| UmallocCode.Heap.Search | xv6-public/umalloc.c:74-89 | The loop terminates and calls morecore at most once, exactly if no free block is large enough; it takes the upper end of the first large enough block behind freep and leaves freep before it |
| UmallocCode.Heap.Malloc | xv6-public/umalloc.c:64-90 | A block of exactly the units needed, disjoint from all blocks in use, from the first free block behind freep that is large enough; null if and only if there is none and sbrk fails |
| Regions.NoCommonPage | xv6-public/sysproc.c:421-434 | Regions in use have no page in common |
| Regions.AcceptedInRange | xv6-public/sysproc.c:415-419 | An accepted request lies within 0x60000000 to 0x80000000 if and only if its end does not wrap around |
| Regions.AcceptedIff | xv6-public/sysproc.c:407-437 | Of the requests that do not wrap around exactly those are accepted that lie in the range and share no page with a region in use |
| Regions.WrappedRequest | xv6-public/sysproc.c:416-416 | A request whose end wraps around is accepted above the range |
| Regions.WmapInv | xv6-public/sysproc.c:174-225 | Adding an accepted region that does not wrap keeps the table invariant |
| Regions.FaultInv | xv6-public/trap.c:209-285 | A lazily loaded page keeps it, and the count of loaded pages goes up by one |
| Regions.WunmapInv | xv6-public/proc.c:389-426 | Removing a region with its pages keeps it |
| Regions.Process.CheckFixed | xv6-public/sysproc.c:407-437 | Accepts exactly the aligned requests within the bounds, as 32-bit sums, that overlap no region in use |
| Regions.Process.Wmap | xv6-public/sysproc.c:128-229 | Succeeds exactly if flags and place are acceptable and a slot is free; the table stays valid exactly if an accepted end does not wrap |
| Regions.Process.Find | xv6-public/proc.c:374-381 | The slot of the region that holds the address, if any |
| Regions.Process.Fault | xv6-public/trap.c:206-294 | Loads exactly the faulting page and counts it in its region if one holds the address and memory is there, else kills the process |
| Regions.Process.Wunmap | xv6-public/proc.c:366-429 | Removes the region that holds the address with exactly its pages, or fails if there is none |

## Left out

- Boot code, traps other than the page fault, device drivers, exec, directories and path names: not part of this model.
- CR3 loads and the TLB: each process is translated through its own page directory.
- The mmap loop in exit (proc.c:452-486): it passes a kernel address to wunmap, which matches no region.
- File-backed mappings in wmap, wunmap and the fault handler: regions are anonymous here.
- find_free_mmap_space and suggestive_address: unreachable, since MAP_FIXED is mandatory.
- Copying of the region table by fork, and leftover entries when a process slot is reused: `Regions` follows one process from a zeroed table.
- Failures of filealloc and kalloc in pipealloc, and freeing a pipe when both ends are closed: they only add easy steps.
- Directory and device inodes, link counts and ilock/iput: `FileCode` treats regular files whose inode is held.
- VmCode.Kernel.KallocFrame: does not model the store that kalloc makes to ref_counts when the free list is empty (kalloc.c:161-162), because that index lies outside the array.
- VmCode.Kernel.Copyuvm: starts after setupkvm, whose pages `Fork.NewProcOnly` accounts for.
- VmCode.Kernel.Deallocuvm: works on a flat map of entries; the jump over absent page tables is in `PageTable.Space.Deallocuvm`.
- FileCode.FileSystem.Balloc: works on a sequence of bits; `Bitmap` states what the masks do to the bytes.
- FileCode.FileSystem.Iupdate: copies size and addresses; type, device numbers and link count are not in the record, and the other inodes of the disk block are separate entries of a map.
- RedoLog.FillContents: the cache there is a map without a bound; `LogSpace` states what the bound of NBUF buffers does to a commit.
- LogDevice.Device.LogWrite: is one step; the code reads its two guards before it takes the lock.
- Pipe.NextInv: sleep releases the lock and sleeps in one step; `SleepLock` has the single steps of sleep and wakeup.
- SleepLock.NextInv: models one sleep lock; code that holds ptable.lock for other reasons appears as steps that take it, kill, and drop it.
- WaitExit.NextInv: process numbers do not wrap around, a section under ptable.lock is one step, and a process inside wait runs only wait's loop.
- BufferCache.Cache.Bread: is for disk 1 and a buffer that nobody holds; waiting for a held buffer is the protocol of `SleepLock`.
- BufferCache.Cache.Brelse: whoever changed a buffer has logged or written it before, as all callers in the kernel do.
- UmallocCode.Heap.Malloc: requests whose unit count overflows 32 bits are excluded, and the allocator's base header lies below the memory that sbrk returns.
- Regions.Process.Fault: a failure of kalloc or mappages is a parameter, and the page is absent, as it is when the handler gets there.
