# Verified cores of xv6 and Cosmos

The project models the parts of two small kernels whose correctness is not visible from any one function,
and proves what they are for.

* **Redo log and buffer cache of xv6** (`Blocks`, `LogRecovery`, `BufRing`, `Bio`, `Log`, `LogReserve`,
  `CrashFiles`).  The disk is a sequence of blocks, one block write is atomic, and a crash loses memory and runs
  recovery.  `Bio` and `Log` are classes over the buffers, their ring and the in-memory header; the disk records
  every write, and the methods are proved to make exactly the writes that the crash results in `LogRecovery`
  speak of.  `CrashFiles` joins log and file system: file operations logged and committed in groups, a
  crash at any block write, and recovery give the files of a moment between two groups, over any number of lives.
* **File system** (`Bits`, `FsState`, `FsGrow`, `FileBytes`, `Dinode`, `FileFrame`, `Truncate`, `FreeSpace`, `Fs`,
  `File`, `MkfsImage`, `Mkfs`).  The free map agrees with the slots of the inodes; on top of that a file is a byte string,
  and read, write and truncate are proved against slices and splices of it.  `Mkfs` builds the first image.
* **Memory managers**: the user-level allocator (`FreeRing`, `Umalloc`), page tables over the frame allocator
  (`PageTables`, `TableCount`, `Vm`), and the address-space list of Cosmos with its page boxes (`AddrMap`, `VAdrs`,
  `VAdrsRest`, `BoxBooks`, `BoxState`, `BoxAligned`, `BoxRun`, `MemBox`).
* **Processes**: `Proc` is the step machine of scheduler, sleep and wakeup, sleeplocks, fork, exit and wait.
  `Pipe` holds the ring with its wrapped counters, `PipeRun` its readers and writers.
* **Cosmos scheduler**: `RunQueue`, `Sched` and `Sem` for run lists, wait lists and semaphores.
* **Two languages**: the shell parser (`ShellGrammar`, `ShellRoundTrip`, `ShellLexer`,
  `ShellDerivation`, `ShellAppend`, `Shell`) and the pattern matcher (`Grep`).

Where the code updates its state step by step the model is a class whose methods do the same, each proved against
a function or a relation on the values before and after; the results about those are lemmas.  Ghost fields record
what the invariants need: which slot owns a block (`own`), which memory sbrk gave (`cores`), what went through a
pipe (`written`, `got`).  What sbrk, the page allocator or a descriptor pool would answer is a parameter.

`dafny verify dfyconfig.toml` checks the whole project.

## Findings

Some properties one would expect do not hold of the code.  For each the exact condition, or a concrete state, is proved.

* The log area of mkfs has LOGSIZE blocks, one of which is the header, so operations within their budget can run
  into "too big a transaction", exactly in logs of that size or less: `LogReserve.PanicIffSmallLog`.  log_write tests
  for room before it takes the lock, so in such a log two operations can pass the test together and write_log goes
  one block beyond the log area: `LogReserve.AlwaysInsideIff`.  A full header also refuses a block it already lists:
  `LogReserve.RewritePanicsWhenFull`.
* LOGSIZE equals NBUF: with 30 blocks logged every buffer is pinned and commit finds none for the log blocks:
  `Log.CommitHasBuffer`.
* A killed pipe writer leaves a full pipe without waking the reader: `PipeRun.StepKeeps`, `PipeRun.LostWakeup`.
* copyuvm loses a frame exactly if it was the last free one and the new page table could not be made: per page
  `Vm.Vm.CopyPage`.  For the whole call that is so exactly if the free frames, less the directory and the page tables
  of the kernel's rows, are 1 modulo 1025 in number and all pages up to the one that this frame is for are there:
  `Vm.Vm.Copyuvm`.
* mkfs leaves a hole in the root directory exactly if its entries fill whole blocks: `Mkfs.MakeImage`.
* The search hint of the address-space list can decide whether a request succeeds; the exact condition under which it
  cannot is `VAdrs.HintIrrelevantIff`, an instance where it does `VAdrs.HintMatters`.
* The descriptor count is not incremented by an allocation: the list is longer than the count by exactly the number of
  areas that allocations added (`VAdrs.VirMem`, field `drift` in `Valid`).
* Deletions are rounded up to pages, but starts and area bounds are not.  A deletion leaves a part shorter than a page,
  which no deletion reaches, exactly under the condition of `VAdrsRest.LeavesShortPart`, and an area can be given up
  exactly if its length is a whole number of pages: `VAdrsRest.GivenUpIff`.  The user stack is one byte short of that:
  `VAdrsRest.FreshSpace`.
* Deletions that start inside a page leave the last page of their range mapped if it was: `BoxRun.UnmapsRangeIff`.
  A box can then come to the cache with a page in its list (`BoxRun.CachedListIff`), and its next user drops the list:
  `BoxRun.PageForgotten`.  If all deletions start on page bounds, page lists and page table agree after every run:
  `BoxRun.RunAgrees`.
* The shell's command trees never tell >> from >: `ShellAppend.AppendIsOverwrite`.
* Wait lists of Cosmos are last in, first out: `RunQueue.PushedOk`, `Sem.AllUpOrder`.

## Model

| member | source | states |
|---|---|---|
| Blocks.GetSetWord | xv6_uefi/xv6_public/fs.c:386-398 | a 32-bit word stored in a block is read back, and every other word of the block stays |
| Blocks.LittleEndian | xv6_uefi/xv6_public/fs.c:386-398 | the bytes of a word lie with the least significant one first |
| LogRecovery.HeadRoundTrip | xv6_uefi/xv6_public/log.c:86-113 | read_head gets back exactly the block list that write_head stored |
| LogRecovery.HeadLayout | xv6_uefi/xv6_public/log.c:34-37 | the header on disk: the number of entries in word 0, entry i in word i + 1, the rest of the block as before |
| LogRecovery.CommitIsLogThenRecover | xv6_uefi/xv6_public/log.c:193-202 | once the header is on the disk, the rest of a commit makes exactly the block writes that recovery would make |
| LogRecovery.RecoverInstalls | xv6_uefi/xv6_public/log.c:116-122 | recovery of a disk whose header lists a group puts every block of the group home and changes no other file-system block |
| LogRecovery.RecoverClears | xv6_uefi/xv6_public/log.c:116-122 | recovery leaves an empty header, and recovering again changes nothing |
| LogRecovery.RecoveryRestarts | xv6_uefi/xv6_public/log.c:69-122 | recovery cut off after any number of its block writes and started again ends in the same disk |
| LogRecovery.RecoverAfter | xv6_uefi/xv6_public/log.c:69-122 | any number of cut-off recovery attempts followed by a finished one give the disk that one recovery gives |
| LogRecovery.CommitAtomic | xv6_uefi/xv6_public/log.c:177-202 | a commit cut off after any number of block writes recovers to the state before the group if the header was not written, and to the state with the whole group if it was |
| LogRecovery.CommitInstalls | xv6_uefi/xv6_public/log.c:193-202 | a commit that is not cut off installs the whole group and leaves the log clear |
| LogRecovery.CrashAtomicity | xv6_uefi/xv6_public/log.c:69-122 | over every sequence of commits and crashes, with any number of crashes inside recovery, the file-system blocks are those of a disk that never failed and got, whole and in order, the groups whose header was written |
| LogRecovery.HistoryInstalls | xv6_uefi/xv6_public/log.c:177-202 | the block writes of any number of finished commits install all groups in order |
| LogRecovery.CommitExtendsHistory | xv6_uefi/xv6_public/log.c:193-202 | one more commit appends exactly its own writes to the history of the disk |
| LogRecovery.CrashAnywhere | xv6_uefi/xv6_public/log.c:69-122 | power lost after any number of block writes of a whole history: recovery gives the state after the first m groups, for exactly the m groups whose header write had been made |
| CrashFiles.HomeFiles | xv6_uefi/xv6_public/log.c:116-122 | the blocks of the log do not matter for the files: equal home blocks give the same inodes, a free map that agrees as before, and the same bytes in every file |
| CrashFiles.CrashKeepsFiles | xv6_uefi/xv6_public/log.c:69-122 | if inodes and free map agree after each group, they agree on the recovered disk for every crash point, and every file reads as right after the last group whose header was written |
| FileFrame.OpGoesOn | xv6_uefi/xv6_public/fs.c:479-512 | calls within one operation compose: only logged blocks change, none of them in the log area, and an operation that begins with inodes and free map in agreement ends so |
| CrashFiles.CommitsInstall | xv6_uefi/xv6_public/log.c:192-202 | if every group lists exactly the blocks its operations logged, with their last data, then installing the groups gives exactly the blocks the operations made |
| CrashFiles.CrashAfterOps | xv6_uefi/xv6_public/log.c:69-122 | operations on an agreeing file system, committed in any groups, and power lost after any number of block writes: recovery gives inodes and files as they were right after the operations of the first m groups, for exactly the m groups whose header had been written |
| CrashFiles.CrashRunKeepsFiles | xv6_uefi/xv6_public/log.c:69-122 | over runs of groups with any number of crashes, also inside recovery, the files are consistent and those of a disk that never failed, if its files are |
| CrashFiles.FilesSurvive | xv6_uefi/xv6_public/log.c:69-122 | operations, commits and any number of power failures, also inside recovery, the operations going on from the disk that recovery leaves: every boot finds an empty log and inodes and free map in agreement, and every file as it was right after the operations of the groups that the life before had made durable |
| CrashFiles.LivesOn | xv6_uefi/xv6_public/log.c:69-122 | after any such history the operations can go on: every further life is again one of these |
| CrashFiles.ZeroLogClear | xv6_uefi/xv6_public/log.c:86-96 | a disk with zeroed log blocks holds nothing to redo |
| BufRing.UnlinkKeeps | xv6_uefi/xv6_public/bio.c:129-131 | unlinking one buffer leaves both link fields walking exactly the other buffers in order |
| BufRing.PushFrontKeeps | xv6_uefi/xv6_public/bio.c:132-135 | a buffer linked in behind the head comes first in both directions, the others keep their order |
| BufRing.MovedToFrontFull | xv6_uefi/xv6_public/bio.c:128-136 | moving a buffer to the front keeps the ring a permutation of all buffers |
| BufRing.MovedToFrontAt | xv6_uefi/xv6_public/bio.c:128-136 | the moved buffer comes first, the others follow in the order they had |
| BufRing.Ring.constructor | xv6_uefi/xv6_public/bio.c:45-55 | binit links all buffers into one ring, the last one first |
| BufRing.Ring.MoveToFront | xv6_uefi/xv6_public/bio.c:128-136 | the released buffer becomes the most recently used one, the order of the others stays, and the ring stays well linked |
| Bio.ContentHeld | xv6_uefi/xv6_public/bio.c:62-93 | what readers see of a block is the data of the one buffer that holds it |
| Bio.UpdateContent | xv6_uefi/xv6_public/bio.c:62-106 | a buffer that keeps the data of the block it holds, or is recycled when it equals the disk, changes what readers see of no block |
| Bio.StoreContent | xv6_uefi/xv6_public/bio.c:97-106 | the holder of a buffer who changes its data changes what readers see of that block only |
| Bio.FlushKeeps | xv6_uefi/xv6_public/bio.c:109-116 | writing a buffer to its block keeps cache and disk in agreement and changes what readers see of no block |
| Bio.BCache.constructor | xv6_uefi/xv6_public/bio.c:38-56 | after binit all buffers are unused and readers see the disk |
| Bio.BCache.Iderw | xv6_uefi/xv6_public/memide.c:38-60 | a dirty buffer goes to its block as one block write, a clean one is filled from it; panic exactly for an unlocked or clean valid buffer, another device or a block beyond the disk |
| Bio.BCache.FindCached | xv6_uefi/xv6_public/bio.c:68-76 | finds the buffer of the block exactly if the block is cached |
| Bio.BCache.FindUsable | xv6_uefi/xv6_public/bio.c:78-91 | finds the least recently used buffer that is neither referenced nor pinned by the log; fails exactly if there is none |
| Bio.BCache.Recycle | xv6_uefi/xv6_public/bio.c:78-93 | for a block that no buffer has, the least recently used buffer that is neither referenced nor pinned is taken; panic exactly if there is none; no block changes for readers |
| Bio.BCache.Bget | xv6_uefi/xv6_public/bio.c:62-93 | a cached block gets one more reference, otherwise the least recently used free unpinned buffer is recycled; panic exactly if it is not cached and no buffer is free; no block changes for readers; at most one buffer per block |
| Bio.BCache.Bread | xv6_uefi/xv6_public/bio.c:96-106 | returns a locked buffer with what readers see of the block; the disk is not written |
| Bio.BCache.Bwrite | xv6_uefi/xv6_public/bio.c:109-116 | exactly the buffer's data goes to exactly its block; panic exactly if the buffer is not locked |
| Bio.BCache.Brelse | xv6_uefi/xv6_public/bio.c:119-141 | gives up the lock and a reference and moves an unreferenced buffer to the front; what readers see stays |
| Log.PinKeeps | xv6_uefi/xv6_public/log.c:213-233 | after log_write exactly the buffers of the logged blocks are pinned, and readers see no change |
| Log.CleanContent | xv6_uefi/xv6_public/log.c:177-190 | a block neither logged nor held by anyone reads as it is on the disk |
| Log.InstalledContent | xv6_uefi/xv6_public/log.c:69-82 | after a commit every logged block is on the disk and in the cache with the data it had when it was logged |
| Log.CommitHasBuffer | xv6_uefi/xv6_public/log.c:177-190 | with no buffer held, commit can get a buffer for the log blocks exactly if fewer than NBUF blocks are logged; a full log of 30 blocks leaves bget without one |
| Log.Log.CopyBlock | xv6_uefi/xv6_public/log.c:74-81 | one turn of write_log or install_trans writes what readers see of the source to the destination, once, and gives both buffers back |
| Log.Log.WriteLog | xv6_uefi/xv6_public/log.c:177-190 | the log blocks get, in order, exactly the data that readers see of the logged blocks, and no pin is lost |
| Log.Log.FillHead | xv6_uefi/xv6_public/log.c:101-112 | the header image lists exactly the logged blocks |
| Log.Log.WriteHead | xv6_uefi/xv6_public/log.c:101-113 | one block write puts the block list into the header, nothing else changes on disk |
| Log.Log.InstallTrans | xv6_uefi/xv6_public/log.c:69-82 | each log block is written to the home of its block, in order; the log itself stays; no buffer remains pinned |
| Log.Log.ReadHead | xv6_uefi/xv6_public/log.c:85-96 | the in-memory header becomes the one on disk, and nothing is written |
| Log.Log.RecoverFromLog | xv6_uefi/xv6_public/log.c:115-122 | leaves exactly the disk and makes exactly the writes of the recovery that the crash results speak of, whatever well-formed disk it finds |
| Log.Log.CommitToLog | xv6_uefi/xv6_public/log.c:193-197 | the writes up to the commit point are the log blocks in order, then the header |
| Log.Log.InstallAndErase | xv6_uefi/xv6_public/log.c:198-200 | the second half of a commit makes exactly the writes of recovery and leaves the log clear |
| Log.Log.Commit | xv6_uefi/xv6_public/log.c:192-202 | makes exactly the block writes, in the order, that the crash results are proved for; readers see no change; afterwards every logged block is on the disk |
| Log.Log.LogWrite | xv6_uefi/xv6_public/log.c:213-233 | pins the buffer and lists its block once; panic exactly if the header or the log area has no room, listed or not, or no operation is open |
| LogReserve.InvNext | xv6_uefi/xv6_public/log.c:125-174 | every step of begin_op, end_op and the two halves of log_write, the test for room outside the lock and the rest inside, keeps: logged blocks plus unused budgets fit LOGSIZE, committing implies nothing outstanding, and nobody sleeps in begin_op who could be let in; the only panic is log_write without room |
| LogReserve.LetIn | xv6_uefi/xv6_public/log.c:125-141 | whatever the step, an operation becomes active exactly by begin_op while the log is not committing and its budget fits, and goes to sleep exactly by begin_op otherwise |
| LogReserve.LetOut | xv6_uefi/xv6_public/log.c:144-174 | an operation ends exactly by end_op; exactly the last one commits, exactly the end of the commit gives that up; sleepers are woken exactly by an operation that is not the last and by the end of a commit |
| LogReserve.LoggedBy | xv6_uefi/xv6_public/log.c:213-233 | a block enters the header exactly by the operation that found room for it, which is charged for it, and leaves exactly when the commit is through |
| LogReserve.PassedBy | xv6_uefi/xv6_public/log.c:213-233 | log_write panics or finds room for just its block, and adding the block uses that room up |
| LogReserve.RunInv | xv6_uefi/xv6_public/log.c:125-174 | every run from the empty log keeps that invariant unless it panicked |
| LogReserve.NeverPanics | xv6_uefi/xv6_public/log.c:213-233 | with more than LOGSIZE blocks of log area no run of operations within their budget panics in log_write |
| LogReserve.SmallLogPanics | xv6_uefi/xv6_public/log.c:217-219 | with LOGSIZE blocks of log area or fewer, three operations within their budget do run into the panic |
| LogReserve.PanicIffSmallLog | xv6_uefi/xv6_public/mkfs.c:25 | a run within budget can panic if and only if the log area has at most LOGSIZE blocks, as mkfs makes it |
| LogReserve.AlwaysInsideIff | xv6_uefi/xv6_public/log.c:213-233 | runs within budget never log more blocks than the log area holds if and only if the area has more than LOGSIZE blocks, or nothing but the header |
| LogReserve.TwoPass | xv6_uefi/xv6_public/log.c:217-231 | with 2 to LOGSIZE blocks, mkfs's size included, two operations can find room for the last block at the same time and both add theirs |
| LogReserve.RewritePanicsWhenFull | xv6_uefi/xv6_public/log.c:217-229 | with a full header, writing an already logged block again panics, however large the log area: the room is checked before the block is looked for |
| Bits.SetBitGet | xv6_uefi/xv6_public/fs.c:66-69 | setting a bit of the free map sets that bit and no other |
| Bits.DropBitGet | xv6_uefi/xv6_public/fs.c:89-94 | clearing a bit of the free map clears that bit and no other |
| Bits.BitWorth | xv6_uefi/xv6_public/fs.c:66-94 | bit b of the free map is worth 2 to the b % 8 in byte b / 8; no other byte changes |
| FsState.ConsistentMeans | xv6_uefi/xv6_public/fs.c:53-96 | what agreement of free map and inodes means: no block is referred to twice, a data block is marked exactly if some slot refers to it, metadata is marked |
| FsState.StoreKeeps | xv6_uefi/xv6_public/fs.c:482-512 | storing into a data block changes no reference and keeps the agreement |
| FsState.MarkKeeps | xv6_uefi/xv6_public/fs.c:56-78 | balloc's first half: the block it marks was in nobody's slot |
| FsState.ClaimAddr | xv6_uefi/xv6_public/fs.c:373-384 | putting a fresh block into an empty address gives the block that one owner and changes no other slot |
| FsState.ClaimEntry | xv6_uefi/xv6_public/fs.c:386-398 | putting a fresh block into an empty entry of the indirect block gives it that one owner and changes no other slot |
| FsState.FreeKeeps | xv6_uefi/xv6_public/fs.c:82-96 | freeing an owned block never meets a clear bit and leaves exactly its slot stale |
| FsState.ClearIndirect | xv6_uefi/xv6_public/fs.c:422-430 | clearing the address of a freed indirect block clears all its stale entries |
| FsGrow.AllocAddr | xv6_uefi/xv6_public/fs.c:373-384 | balloc into an empty address: the block was free and unowned, is zero, and every other slot and data block stays |
| FsGrow.AllocEntry | xv6_uefi/xv6_public/fs.c:386-398 | balloc into an empty entry of the indirect block: the block was free and unowned, is zero, and only that entry changes |
| FileBytes.GrownHolds | xv6_uefi/xv6_public/fs.c:373-401 | bmap changes the bytes of no file |
| FileBytes.StoreHolds | xv6_uefi/xv6_public/fs.c:496-504 | storing a piece in the block of a file splices exactly that piece into the bytes of the file |
| FileBytes.ReadPiece | xv6_uefi/xv6_public/fs.c:467-474 | a piece of one block is the matching slice of the bytes of the file |
| FileBytes.SpliceMore | xv6_uefi/xv6_public/fs.c:496-504 | splicing piece after piece is splicing the whole |
| Dinode.GetPutInode | xv6_uefi/xv6_public/fs.c:221-237 | what iupdate stores of an inode is what ilock reads back, and the seven neighbours in the block stay |
| Dinode.Layout | xv6_uefi/xv6_public/fs.h:29-36 | inode k of a block is 64 bytes at 64k: type, major, minor and nlink at 0, 2, 4 and 6, size at 8 |
| Dinode.AddrLayout | xv6_uefi/xv6_public/fs.h:29-36 | its 13 block addresses follow at 12, four bytes each |
| FileFrame.UpdateKeeps | xv6_uefi/xv6_public/fs.c:221-237 | iupdate changes no slot, no file and no other stored inode |
| FileFrame.FinishGrown | xv6_uefi/xv6_public/fs.c:506-510 | the grown size makes the file read exactly as the bytes written so far, and the stored inode is up to date |
| FileFrame.StoreOthers | xv6_uefi/xv6_public/fs.c:482-512 | storing into a block of one file leaves all other files, slot by slot and byte by byte |
| FileFrame.GrownOthers | xv6_uefi/xv6_public/fs.c:373-401 | growing one file leaves all others |
| Fs.Fs.Balloc | xv6_uefi/xv6_public/fs.c:55-78 | hands out the lowest-numbered block whose bit is clear, marked and zeroed; panic exactly if all bits are set |
| Fs.Fs.Bfree | xv6_uefi/xv6_public/fs.c:80-96 | clears exactly the bit of the block; panic exactly if it was clear |
| FreeSpace.FreeCount | xv6_uefi/xv6_public/fs.c:53-96 | between operations the free blocks and the owned ones are together all blocks of the data area; the disk is full exactly if none is free |
| FreeSpace.MissingMore | xv6_uefi/xv6_public/fs.c:367-401 | what a range of file blocks needs is what its first part needs and then, with that part filled, the rest, an indirect block counted once |
| Fs.Fs.Bmap | xv6_uefi/xv6_public/fs.c:367-401 | returns the address of the block of the file, allocating what is missing, indirect block included; panic exactly if fewer blocks are free than are missing; one allocation adds a zero block that nobody owned, everything else stays; free map and slots agree afterwards |
| Fs.Fs.Iupdate | xv6_uefi/xv6_public/fs.c:217-237 | the stored inode becomes the one in memory, no other stored inode and no file changes |
| Fs.Fs.Readi | xv6_uefi/xv6_public/fs.c:450-477 | gives exactly the slice of the bytes of the file, cut at its end, for every alignment and across the direct and indirect blocks; -1 exactly for an offset beyond the end or a wrapping range; allocates and changes nothing |
| Fs.Fs.WriteBlock | xv6_uefi/xv6_public/fs.c:496-504 | one turn of the loop splices its piece into the file and logs only free-map blocks and blocks of the file |
| Fs.Fs.Writei | xv6_uefi/xv6_public/fs.c:479-512 | the file becomes the old bytes with the written range replaced, size the larger of both; a rejected call changes nothing; every other file stays byte for byte; panic exactly if fewer blocks are free than the range misses, indirect block included, and a success takes exactly that many |
| Truncate.CutFree | xv6_uefi/xv6_public/fs.c:409-436 | each block that itrunc frees was owned by that inode, so bfree finds its bit set |
| Truncate.Freed | xv6_uefi/xv6_public/fs.c:409-436 | afterwards exactly the bits of the blocks of the inode are clear that were set before |
| Truncate.TruncDone | xv6_uefi/xv6_public/fs.c:434-435 | with size 0 stored the file is empty, the stored inode up to date and all other files untouched |
| Fs.Fs.Itrunc | xv6_uefi/xv6_public/fs.c:403-436 | frees exactly the blocks of the inode and never meets "freeing free block"; the file is empty, all other files stay |
| File.LoggedCount | xv6_uefi/xv6_public/file.c:117-156 | a write to k blocks of a file logs at most those, its indirect block, its inode block and the blocks of the free map |
| File.ChunkFits | xv6_uefi/xv6_public/file.c:120-131 | each chunk of filewrite logs at most MAXOPBLOCKS different blocks for every offset and alignment, if the free map has at most 4 blocks |
| File.Written | xv6_uefi/xv6_public/file.c:117-156 | how far filewrite gets: everything unless the range would pass the largest file |
| File.WrittenChunks | xv6_uefi/xv6_public/file.c:133-153 | a range that would pass the largest file gets exactly the whole chunks that fit, one that begins behind the end of the file nothing |
| File.SpliceRead | xv6_uefi/xv6_public/file.c:96-156 | reading the written range gives back what was written, the rest is as before |
| File.OpenFile.WriteChunk | xv6_uefi/xv6_public/file.c:134-143 | one chunk is one operation in the sense of the crash results, that writes all of its bytes or, if rejected, nothing, and stays within its log budget |
| File.OpenFile.Fileread | xv6_uefi/xv6_public/file.c:95-113 | reads the slice at the file offset and advances the offset by what was read |
| File.OpenFile.Filewrite | xv6_uefi/xv6_public/file.c:115-156 | the chunks together write exactly the requested bytes at the offset, and advance it; -1 exactly if the rest did not fit, with the chunks before it written; what it did is a run of operations in the sense of the crash results |
| MkfsImage.MarkedBits | xv6_uefi/xv6_public/mkfs.c:237-251 | the map that mkfs writes last marks exactly the blocks below freeblock |
| MkfsImage.MarkedNext | xv6_uefi/xv6_public/mkfs.c:237-251 | taking the next block is what the kernel's balloc would do on that map |
| MkfsImage.TakeAddr | xv6_uefi/xv6_public/mkfs.c:271-274 | a block taken for an empty address was nobody's and belongs to that slot alone |
| MkfsImage.TakeEntry | xv6_uefi/xv6_public/mkfs.c:280-284 | a block taken for an entry of the indirect block belongs to that entry alone, and the sector of the indirect block is written back |
| MkfsImage.RoundedUp | xv6_uefi/xv6_public/mkfs.c:158-163 | rounding a size up leaves no hole exactly if the old size was not a whole number of blocks |
| MkfsImage.EmptyImage | xv6_uefi/xv6_public/mkfs.c:108-115 | the zeroed image has blank inodes and agrees with an empty map of owners |
| Mkfs.Image.constructor | xv6_uefi/xv6_public/mkfs.c:92-120 | all sectors but the super block are zero |
| Mkfs.EntryMeans | xv6_uefi/xv6_public/mkfs.c:123-147 | a directory entry reads back: bytes 0 and 1 are the inode number, least significant first, byte 2 + j is character j of the name up to 14, and 0 behind it |
| Mkfs.RootLists | xv6_uefi/xv6_public/mkfs.c:123-149 | entries 0 and 1 of the root directory are inode 1 with the names . and .., and entry k is inode k with the name of file k - 2 |
| Mkfs.Image.Ialloc | xv6_uefi/xv6_public/mkfs.c:223-235 | hands out the next inode for an empty file and leaves all others |
| Mkfs.Image.FindBlock | xv6_uefi/xv6_public/mkfs.c:270-286 | finds or takes the sector of a block of the file; one sector taken per empty slot, no other slot changes |
| Mkfs.Image.Iappend | xv6_uefi/xv6_public/mkfs.c:255-297 | appends exactly the given bytes to that file and changes no other; the program stops only at a file that is too long or when the image is full |
| Mkfs.Image.FixRoot | xv6_uefi/xv6_public/mkfs.c:158-163 | the root directory keeps its entries and has a hole exactly if they filled whole blocks; other files stay |
| Mkfs.Image.AddAll | xv6_uefi/xv6_public/mkfs.c:118-156 | the root directory gets its entries and every file its bytes; stops only at a file or a directory that is too long or when the image is full |
| Mkfs.Image.Balloc | xv6_uefi/xv6_public/mkfs.c:237-251 | the free map then agrees with the blocks in use; stops exactly if more than 4095 blocks are used |
| Mkfs.Image.Build | xv6_uefi/xv6_public/mkfs.c:118-167 | from the zeroed image: inodes and free map agree, each file reads as given, the root directory holds the entry of each by number and name, inode types and link counts are right, boot block, super block and log stay as they were |
| Mkfs.MakeImage | xv6_uefi/xv6_public/mkfs.c:67-168 | the image has inodes and a free map that agree and a clear log, so the crash results apply from it on; it has every file byte for byte; by index the root directory holds inode 1 as . and .. and inode k under the name of file k - 2, with a hole behind them exactly if they fill whole blocks; sector 1 is the super block |
| FreeRing.PosIs | xv6_uefi/xv6_public/umalloc.c:29-33 | the block it names is the last free one below the address, the place where free must insert |
| FreeRing.FoundOnlyAtPos | xv6_uefi/xv6_public/umalloc.c:29-33 | the exit test of the search in free holds at the block below bp and nowhere else on the ring, the wrap point included |
| FreeRing.InsertedSorted | xv6_uefi/xv6_public/umalloc.c:34-43 | after free the blocks are again in address order, disjoint, and no two of them touch |
| FreeRing.InsertedCovers | xv6_uefi/xv6_public/umalloc.c:34-43 | exactly the units of the freed block become free |
| FreeRing.TakenSorted | xv6_uefi/xv6_public/umalloc.c:75-84 | taking a block or its tail keeps order and distance |
| FreeRing.TakenCovers | xv6_uefi/xv6_public/umalloc.c:75-84 | exactly the units handed out stop being free |
| FreeRing.TakeAccounted | xv6_uefi/xv6_public/umalloc.c:63-90 | malloc moves units from free to allocated: every unit that sbrk gave is in exactly one block, free or allocated |
| FreeRing.FreeAccounted | xv6_uefi/xv6_public/umalloc.c:24-44 | free moves exactly the units of the block back: every unit that sbrk gave is still in exactly one block |
| FreeRing.CoreAccounted | xv6_uefi/xv6_public/umalloc.c:46-61 | memory from sbrk adds exactly its units |
| Umalloc.UnitsEnough | xv6_uefi/xv6_public/umalloc.c:69 | the units computed suffice for the bytes asked for if and only if rounding up does not wrap; then no unit is too many, and else there is room for the header alone |
| Umalloc.InsertedLinked | xv6_uefi/xv6_public/umalloc.c:34-43 | the pointer updates of free, with both merges, give a ring linked in the order of the list |
| Umalloc.UnlinkedLinked | xv6_uefi/xv6_public/umalloc.c:77-78 | unlinking the found block keeps the ring linked |
| Umalloc.TailLinked | xv6_uefi/xv6_public/umalloc.c:79-83 | cutting the tail off the found block keeps the ring linked |
| Umalloc.Heap.FindPlace | xv6_uefi/xv6_public/umalloc.c:29-33 | the search terminates from every starting point and finds the block below bp |
| Umalloc.Heap.Free | xv6_uefi/xv6_public/umalloc.c:23-44 | exactly the given block stops being allocated, all invariants kept |
| Umalloc.Heap.Morecore | xv6_uefi/xv6_public/umalloc.c:46-61 | asks for at least 4096 units and the units needed, and no more than the larger of the two, and frees them into the ring; 0 exactly if sbrk failed; a block large enough is then on the ring |
| Umalloc.Heap.Take | xv6_uefi/xv6_public/umalloc.c:75-86 | hands out a block of exactly the units asked for that was not allocated before |
| Umalloc.Heap.Malloc | xv6_uefi/xv6_public/umalloc.c:63-90 | terminates with at most one morecore; returns 0 if and only if no free block fits and sbrk failed; otherwise a fresh block of enough units disjoint from all allocated ones |
| AddrMap.OneEntry | os_in_action_45/lesson30/Cosmos/kernel/krlvadrsmem.c:315-356 | the sorted disjoint list is a map: an address has one entry |
| AddrMap.PlacedOrdered | os_in_action_45/lesson30/Cosmos/kernel/krlvadrsmem.c:405-440 | a placed request keeps the areas sorted, disjoint and in bounds |
| AddrMap.PlacedHas | os_in_action_45/lesson30/Cosmos/kernel/krlvadrsmem.c:405-440 | exactly the requested range is added to the map, with the limits and type asked for, merged or not |
| AddrMap.PlacedFree | os_in_action_45/lesson30/Cosmos/kernel/krlvadrsmem.c:315-356 | the range was free before |
| AddrMap.FixedFits | os_in_action_45/lesson30/Cosmos/kernel/krlvadrsmem.c:315-392 | a fixed range can be had exactly if it lies behind the first area, is free, and behind the last area ends strictly below the upper bound |
| AddrMap.AnyFits | os_in_action_45/lesson30/Cosmos/kernel/krlvadrsmem.c:315-356 | without an address the request goes behind an area exactly if the range right behind it is free, and behind the last area exactly if it also ends below the upper bound |
| AddrMap.DeletedOrdered | os_in_action_45/lesson30/Cosmos/kernel/krlvadrsmem.c:555-638 | a deletion keeps the areas sorted, disjoint and non-empty |
| AddrMap.DeletedHas | os_in_action_45/lesson30/Cosmos/kernel/krlvadrsmem.c:555-638 | in each of the four cases exactly the range is removed from the map |
| AddrMap.OneInside | os_in_action_45/lesson30/Cosmos/kernel/krlvadrsmem.c:466-492 | at most one area holds a range |
| VAdrs.Choice | os_in_action_45/lesson30/Cosmos/kernel/krlvadrsmem.c:358-392 | hint and search together find an area exactly if some area is followed by a fitting gap: the hinted one if its gap fits, and otherwise the first that does |
| VAdrs.AlignUpMeans | os_in_action_45/lesson30/Cosmos/kernel/krlvadrsmem.c:449-464 | sizes are rounded up to whole pages, by less than a page |
| VAdrs.HintIrrelevant | os_in_action_45/lesson30/Cosmos/kernel/krlvadrsmem.c:358-392 | with a descriptor left, or for a fixed address, the hint does not change whether a request succeeds; for a fixed address not even which area is chosen |
| VAdrs.HintIrrelevantIff | os_in_action_45/lesson30/Cosmos/kernel/krlvadrsmem.c:358-440 | no hint changes whether a request succeeds if and only if a descriptor is left, the address is fixed, the request is refused outright, or the areas that take it all merge with it or none does |
| VAdrs.HintMatters | os_in_action_45/lesson30/Cosmos/kernel/krlvadrsmem.c:358-440 | a list and a request on the other side of that condition: the hinted choice fails and the search succeeds |
| VAdrs.NewAddsRange | os_in_action_45/lesson30/Cosmos/kernel/krlvadrsmem.c:394-447 | a successful allocation adds exactly one free range at the asked address |
| VAdrs.DelUndoesNew | os_in_action_45/lesson30/Cosmos/kernel/krlvadrsmem.c:394-638 | deleting what was just allocated gives the old map back |
| VAdrsRest.LeavesShortPart | os_in_action_45/lesson30/Cosmos/kernel/krlvadrsmem.c:555-647 | a deletion leaves a part shorter than a page if and only if it begins less than a page above the start of the area or ends, rounded up, less than a page below its end |
| VAdrsRest.ReachableIff | os_in_action_45/lesson30/Cosmos/kernel/krlvadrsmem.c:466-492 | some deletion takes effect in an area if and only if the area has a page or more |
| VAdrsRest.RunKeepsPages | os_in_action_45/lesson30/Cosmos/kernel/krlvadrsmem.c:555-647 | any number of deletions take whole pages out of an area, never a part of one |
| VAdrsRest.GivenUpIff | os_in_action_45/lesson30/Cosmos/kernel/krlvadrsmem.c:555-647 | an area can be given up by deletions, in one call or in many, if and only if its length is a whole number of pages |
| VAdrsRest.FreshSpace | os_in_action_45/lesson30/Cosmos/kernel/krlvadrsmem.c:225-261 | in a fresh address space: an unaligned start and an aligned deletion at the top of the stack both leave such a part, and the stack can never be given up |
| VAdrs.VirMem.constructor | os_in_action_45/lesson30/Cosmos/kernel/krlvadrsmem.c:225-261 | the two first areas of a user address space |
| VAdrs.VirMem.FindIsOk | os_in_action_45/lesson30/Cosmos/kernel/krlvadrsmem.c:315-356 | true exactly if the gap behind the area takes the request |
| VAdrs.VirMem.Find | os_in_action_45/lesson30/Cosmos/kernel/krlvadrsmem.c:358-392 | returns the hinted area if its gap fits, otherwise the first that does, null exactly if none does |
| VAdrs.VirMem.NewCore | os_in_action_45/lesson30/Cosmos/kernel/krlvadrsmem.c:394-447 | succeeds exactly if a gap fits and, when it does not merge, a descriptor is left; a failure changes nothing; the hint is then the area that ends with the new range; the descriptor count stays as it was, list longer or not |
| VAdrs.VirMem.New | os_in_action_45/lesson30/Cosmos/kernel/krlvadrsmem.c:449-464 | succeeds exactly if the size is positive, a fixed address is aligned and in the user range, and the rounded request fits; then adds exactly that range, and the hint is the area that ends with it |
| VAdrs.VirMem.DelFind | os_in_action_45/lesson30/Cosmos/kernel/krlvadrsmem.c:466-492 | the area holding the whole range, null exactly if there is none |
| VAdrs.VirMem.Unlink | os_in_action_45/lesson30/Cosmos/kernel/krlvadrsmem.c:494-517 | the area leaves the list; the end is the last area, and the hint is the next one, the last one if there is no next, or null if none is left |
| VAdrs.VirMem.DelCore | os_in_action_45/lesson30/Cosmos/kernel/krlvadrsmem.c:555-638 | removes exactly the range, by unlinking, trimming or splitting; fails exactly if no area holds it or a split finds no descriptor, and then changes nothing; the hint moves behind an unlinked area, to the upper part of a split one, and not otherwise |
| VAdrs.VirMem.Del | os_in_action_45/lesson30/Cosmos/kernel/krlvadrsmem.c:640-647 | removes exactly the rounded range if one area holds it, otherwise nothing; the hint moves as for DelCore |
| BoxBooks.MapBooks | os_in_action_45/lesson30/Cosmos/kernel/krlvadrsmem.c:1062-1096 | a fault enters the page in the list of the box and in the page table alike |
| BoxBooks.UnmapBooks | os_in_action_45/lesson30/Cosmos/kernel/krlvadrsmem.c:519-539 | unmapping a page takes it out of the page table and of the list of its box alike |
| BoxRun.LastPageMissed | os_in_action_45/lesson30/Cosmos/kernel/krlvadrsmem.c:519-539 | the unmapping loop looks at every page the range lies in, except that from a start inside a page it misses the last one |
| BoxRun.UnmapsRangeIff | os_in_action_45/lesson30/Cosmos/kernel/krlvadrsmem.c:519-553 | a deletion unmaps exactly the pages its range lies in if and only if it starts on a page bound or the last of them is not mapped |
| BoxState.DeleteSound | os_in_action_45/lesson30/Cosmos/kernel/krlvadrsmem.c:555-638 | every deletion, aligned or not, keeps the areas in order, the user count of every box right, and the cache bounded and apart from the boxes in use |
| BoxState.DeleteMeans | os_in_action_45/lesson30/Cosmos/kernel/krlvadrsmem.c:519-638 | a deletion fails exactly if a middle needs a descriptor and there is none; otherwise it unmaps exactly the pages that hold start, start + 4096 and so on within the range |
| BoxState.DeleteCovers | os_in_action_45/lesson30/Cosmos/kernel/krlvadrsmem.c:555-638 | exactly the range leaves the areas, and every address left keeps its box |
| BoxState.NewSound | os_in_action_45/lesson30/Cosmos/kernel/krlvadrsmem.c:394-447 | so does every allocation |
| BoxState.NewCovers | os_in_action_45/lesson30/Cosmos/kernel/krlvadrsmem.c:394-447 | exactly the range is added to the areas |
| BoxState.FaultSound | os_in_action_45/lesson30/Cosmos/kernel/krlvadrsmem.c:1098-1133 | and every page fault, whether it succeeds or not |
| BoxState.FaultMeans | os_in_action_45/lesson30/Cosmos/kernel/krlvadrsmem.c:1098-1133 | inside an area a fault succeeds exactly if the area has a box or can be given one and a page was found and mapped; then exactly that page is mapped anew and stands in the list of the area's box; otherwise nothing is mapped |
| BoxState.FaultOutside | os_in_action_45/lesson30/Cosmos/kernel/krlvadrsmem.c:1098-1112 | a fault is EFAULT exactly at an address outside all areas, and then changes nothing |
| BoxAligned.DeleteAgrees | os_in_action_45/lesson30/Cosmos/kernel/krlvadrsmem.c:555-638 | a deletion that starts on a page bound, exact, head, tail or split, keeps the page list of every box exactly the pages mapped inside its areas, and sends a box to the cache only with an empty list |
| BoxAligned.NewAgrees | os_in_action_45/lesson30/Cosmos/kernel/krlvadrsmem.c:394-447 | an allocation keeps that agreement: a new area has no box, a grown one only gains unmapped pages |
| BoxAligned.FaultAgrees | os_in_action_45/lesson30/Cosmos/kernel/krlvadrsmem.c:1098-1133 | a page fault keeps it too |
| BoxRun.RunSound | os_in_action_45/lesson30/Cosmos/kernel/krlvadrsmem.c:394-638 | over every run of faults, allocations, deletions and other address spaces the areas, the user counts and the cache stay in order |
| BoxRun.RunAgrees | os_in_action_45/lesson30/Cosmos/kernel/krlvadrsmem.c:394-638 | over every run whose deletions start on page bounds, page lists, page table and user counts agree, and every box in the cache has an empty list |
| BoxRun.FreshAgrees | os_in_action_45/lesson30/Cosmos/kernel/krlvadrsmem.c:225-261 | they agree in a new address space |
| BoxRun.CachedListIff | os_in_action_45/lesson30/Cosmos/kernel/krlvadrsmem.c:562-579 | when the last area of a box is deleted, the box comes to the cache with an empty list if and only if the loop looked at every page behind which a physical page of the list is |
| BoxRun.PageForgotten | os_in_action_45/lesson30/Cosmos/kernel/krlvadrsmem.c:519-647 | from a fresh address space, deletions that start inside a page lead to a box in the cache that still lists a page, and, when its list is dropped, to a mapped page that lies in no area and no list |
| BoxRun.ServedSo | os_in_action_45/lesson30/Cosmos/kernel/krlvadrsmem.c:394-647 | the requests of that run are ones that the address-space list serves in just these areas |
| MemBox.Space.GetBox | os_in_action_45/lesson30/Cosmos/kernel/krlvadrsmem.c:1319-1356 | the box comes from the cache, its list dropped, or is new, and counts one user; NULL exactly if there is neither |
| MemBox.Space.PutBox | os_in_action_45/lesson30/Cosmos/kernel/krlvadrsmem.c:1358-1400 | one user less; the last one sends the box to the cache with whatever it lists, or frees it when the cache is full |
| MemBox.Space.Unmap | os_in_action_45/lesson30/Cosmos/kernel/krlvadrsmem.c:519-553 | unmaps the mapped ones among the pages the loop looks at, whose physical pages leave the list of the box; these are all mapped pages of the range if and only if it starts on a page bound or its last page is not mapped |
| MemBox.Space.Delete | os_in_action_45/lesson30/Cosmos/kernel/krlvadrsmem.c:555-638 | exact, head, tail and split deletion of any range: what it does to areas, counts, lists and page table; counts and cache stay in order, and, for a range that starts on a page bound, lists and page table in agreement |
| MemBox.Space.New | os_in_action_45/lesson30/Cosmos/kernel/krlvadrsmem.c:394-447 | the area grows or one without a box follows it; counts, and lists and page table if they agreed, stay right |
| MemBox.Space.FindArea | os_in_action_45/lesson30/Cosmos/kernel/krlvadrsmem.c:937-958 | finds the area that holds the address, if there is one |
| MemBox.Space.ReadyBox | os_in_action_45/lesson30/Cosmos/kernel/krlvadrsmem.c:960-979 | the area keeps its box or gets one; fails exactly if it has none, the cache is empty and no box can be made, and then changes nothing |
| MemBox.Space.Fault | os_in_action_45/lesson30/Cosmos/kernel/krlvadrsmem.c:1098-1133 | EFAULT exactly outside all areas; success maps one fresh page and enters it in the list; a failure maps nothing; counts, and lists and page table if they agreed, stay right |
| MemBox.Space.OthersRan | os_in_action_45/lesson30/Cosmos/kernel/krlvadrsmem.c:1319-1400 | whatever other address spaces do to the shared box manager, as long as they leave the boxes in use here alone, this space stays in order, as each operation here leaves theirs alone |
| MemBox.Space.MapPage | os_in_action_45/lesson30/Cosmos/kernel/krlvadrsmem.c:1037-1096 | a page that cannot be mapped leaves the list of the box again |
| PageTables.AddTable | xv6_uefi/xv6_public/vm.c:38-58 | a fresh table in an empty directory entry changes no mapping of any directory |
| PageTables.AccessIs | xv6_uefi/xv6_public/vm.c:52-55 | every directory entry in use has write and user permission, so that what may be done with a page is what its own entry allows |
| PageTables.AddPage | xv6_uefi/xv6_public/vm.c:63-83 | one entry changes in one directory, and the fresh frame belongs to that page alone |
| PageTables.DropPage | xv6_uefi/xv6_public/vm.c:275-284 | unmapping a user page returns the one frame that belonged to it |
| PageTables.DropTable | xv6_uefi/xv6_public/vm.c:299-304 | a table of a directory without user pages can be given back without changing any other directory |
| Vm.PagesOf | xv6_uefi/xv6_public/mmu.h:131-132 | a byte lies in the page its address rounds down to, and the pages below the rounded-up size are exactly those of the bytes below the size |
| Vm.Vm.Kalloc | xv6_uefi/xv6_public/kalloc.c:82-95 | pops the first free frame, null exactly if there is none |
| Vm.Vm.Kfree | xv6_uefi/xv6_public/kalloc.c:60-77 | pushes a frame that is in use and not free |
| Vm.Vm.Walkpgdir | xv6_uefi/xv6_public/vm.c:35-58 | finds the table or makes an empty one, entered with write and user permission; fails exactly if there is none and none may or can be made; no mapping changes |
| Vm.Vm.Mappages | xv6_uefi/xv6_public/vm.c:60-83 | adds exactly its pages to consecutive frames, or the ones before the failure; -1 only without memory, panic only at a page already mapped |
| Vm.Vm.Deallocuvm | xv6_uefi/xv6_public/vm.c:259-287 | the 4 MB skip equals page-by-page removal: exactly the pages of the range are unmapped, exactly their frames freed; it terminates |
| Vm.Vm.MapFresh | xv6_uefi/xv6_public/vm.c:60-83 | mappages for one page: fails exactly if its table is missing and no frame is left for it |
| TableCount.SpanMeans | xv6_uefi/xv6_public/vm.c:35-58 | the page tables that consecutive pages need are those of the directory entries from the first page to the last |
| TableCount.SpentOut | xv6_uefi/xv6_public/vm.c:241-255 | when a page finds no frame for itself or its table, the free frames were fewer than the pages and missing tables of the whole range |
| Vm.Vm.Allocuvm | xv6_uefi/xv6_public/vm.c:227-257 | adds pages of 4096 zero bytes, in frames that were free, to exactly the range, for the user to read and write, or leaves every mapping as it was; no frame is lost; it succeeds exactly if the free frames suffice for the pages and for the page tables that are missing, and takes exactly those |
| Vm.GrownAccess | xv6_uefi/xv6_public/vm.c:240-248 | the added pages can be read and written by the user, directory entries included |
| Vm.Vm.Freevm | xv6_uefi/xv6_public/vm.c:289-306 | each user frame, each page table and the directory go back to the free list exactly once, and nothing of any other directory |
| Vm.KernelShort | xv6_uefi/xv6_public/vm.c:122-144 | when a row finds no frame for a table, the free frames were fewer than one and the tables of all rows |
| Vm.Vm.Setupkvm | xv6_uefi/xv6_public/vm.c:122-144 | exactly the kernel's rows are mapped, with the permissions they say, and no user page, or all frames are back; it fails exactly if fewer frames are free than one and the different directory entries of the rows, and otherwise takes exactly that many |
| Vm.RowsAccess | xv6_uefi/xv6_public/vm.c:107-144 | what may be done with a page of a kernel row is what the row says, through both levels |
| Vm.Vm.CopyPage | xv6_uefi/xv6_public/vm.c:336-346 | a page is copied to a frame that was free; the frame is lost if and only if it was the last one and the page table was missing |
| Vm.LastFrame | xv6_uefi/xv6_public/vm.c:336-346 | a page for which the frames do not suffice is the one that loses a frame exactly if the frames fill whole tables but for one |
| Vm.Vm.Copyuvm | xv6_uefi/xv6_public/vm.c:321-351 | success gives equal contents and permissions on frames that were free, no other user page, and the kernel's rows; from the free frames less those of the kernel part it is exact how the call ends: success exactly if all pages are there and the frames suffice for pages and tables, panic exactly at the first missing page that the frames reach, and a frame lost exactly if their number is 1 modulo 1025 and all pages up to the one that this last one is for are there |
| Vm.CopiedAccess | xv6_uefi/xv6_public/vm.c:336-346 | the user may do with a page of the copy just what was allowed with the original |
| Proc.NoLostWakeup | xv6_uefi/xv6_public/sleeplock.c:22-42 | if lk->lk is free and locked is 0, no process sleeps on the lock or is inside the window of sleep() |
| Proc.NoZombieForgotten | xv6_uefi/xv6_public/proc.c:279-318 | no process sleeps in wait() while it has a dead child |
| Proc.OneCpu | xv6_uefi/xv6_public/proc.c:329-362 | no process runs on two CPUs |
| Proc.StepKeeps | xv6_uefi/xv6_public/proc.c:186-503 | every step of scheduler, sched, yield, sleep, wakeup, sleeplocks, fork, exit, wait and kill keeps the invariant behind these |
| Proc.LockStep | xv6_uefi/xv6_public/sleeplock.c:22-42 | a step changes who holds a sleeplock only from a process to nobody, by its own release, or from nobody to a process that holds the spinlock and returns from acquiresleep; nobody returns without that |
| Proc.TestDecides | xv6_uefi/xv6_public/sleeplock.c:25-28 | a process that looks at locked goes to sleep if and only if the lock is held, and returns if and only if it is not |
| Proc.InsideIs | xv6_uefi/xv6_public/sleeplock.c:22-42 | over any run, those who returned from acquiresleep and did not release since are exactly the process that locked names, if any |
| Proc.Lifecycle | xv6_uefi/xv6_public/proc.c:186-503 | whatever the step, a process changes its state only along fork, the scheduler's pick of a runnable one, its own sleep, a wakeup on what it sleeps on or kill, its own exit, and wait by its parent |
| Proc.KillMarks | xv6_uefi/xv6_public/proc.c:485-503 | a process is marked as killed exactly by kill, which leaves it awake, and unmarked when it is reaped |
| Proc.LifeMoves | xv6_uefi/xv6_public/proc.c:186-503 | and those steps do make the changes: fork ends with a runnable child of its maker or a free place, exit leaves a zombie, wait empties its place, a wakeup leaves nobody asleep on the lock |
| Proc.GoesOn | xv6_uefi/xv6_public/proc.c:371-400 | a process that yields goes on exactly as it was when a scheduler picks it again, whatever happened in between |
| Proc.WakesUp | xv6_uefi/xv6_public/proc.c:423-456 | a process that slept on a sleeplock goes on by taking the spinlock again, one that slept in wait by scanning again with ptable.lock held |
| Proc.Orphans | xv6_uefi/xv6_public/proc.c:262-268 | when a process exits, exactly its children pass to init |
| Proc.WaitExit | xv6_uefi/xv6_public/proc.c:234-274 | exit wakes the parent, and init when it inherits a dead child |
| Proc.WaitSleeps | xv6_uefi/xv6_public/proc.c:284-316 | a process goes to sleep in wait only when it has no dead child |
| Proc.Boots | xv6_uefi/xv6_public/proc.c:123-160 | the state after userinit exists for every number of processes, CPUs and sleeplocks |
| Proc.InitialInv | xv6_uefi/xv6_public/proc.c:123-160 | that state satisfies the invariant |
| Proc.RunKeeps | xv6_uefi/xv6_public/proc.c:186-503 | every run keeps the invariant |
| Proc.AlwaysSafe | xv6_uefi/xv6_public/proc.c:186-503 | in every run from boot: no lost wakeup on a sleeplock, no forgotten dead child, no process on two CPUs, and at most one process at a time that has returned from acquiresleep and not yet released |
| Pipe.FullMeans | xv6_uefi/xv6_public/pipe.c:85 | the wrapped full test is true exactly if 512 bytes are in the pipe |
| Pipe.EmptyMeans | xv6_uefi/xv6_public/pipe.c:106 | the wrapped empty test is true exactly if nothing is in the pipe |
| Pipe.Pipe.WriteOn | xv6_uefi/xv6_public/pipe.c:78-98 | one stretch of pipewrite under the lock: as many bytes as fit enter in order; it stops early only with the pipe full, returns -1 only then and only if the reader has closed or the process is killed, and else sleeps; readers are woken as the step of PipeRun says |
| Pipe.Pipe.ReadOn | xv6_uefi/xv6_public/pipe.c:100-121 | one stretch of piperead: the oldest bytes come out in order, n of them or all there are; it sleeps only if the pipe is empty and open and the process not killed, and is refused only if empty, open and killed; writers are woken as the step of PipeRun says |
| Pipe.Pipe.Close | xv6_uefi/xv6_public/pipe.c:59-75 | closes one end; the page is given back exactly if both are closed |
| PipeRun.FifoStep | xv6_uefi/xv6_public/pipe.c:78-121 | every step keeps what was read followed by what is queued equal to what was written, at most 512 bytes queued |
| PipeRun.WriterStops | xv6_uefi/xv6_public/pipe.c:78-98 | the same for the step of a writer: it has written all or left the pipe full; what becomes of it, and that exactly the sleeping readers or writers are woken |
| PipeRun.ReaderTakes | xv6_uefi/xv6_public/pipe.c:100-121 | and for the step of a reader: it has taken n bytes or emptied the pipe, sleeps only at an empty open pipe, and wakes the sleeping writers |
| PipeRun.OthersMoveNone | xv6_uefi/xv6_public/pipe.c:59-121 | no other step moves a byte: calls begin with all their bytes to write or read, kill marks and wakes, a closed end stays closed and leaves nobody asleep on the other one |
| PipeRun.RunFifo | xv6_uefi/xv6_public/pipe.c:78-121 | in every run, with kills that mark and wake processes at any point, the bytes read are a prefix of the bytes written and at most 512 are on the way |
| PipeRun.StepKeeps | xv6_uefi/xv6_public/pipe.c:78-121 | a step keeps "a sleeping reader means empty and open, a sleeping writer means full and open" if and only if it is not a killed writer leaving a pipe it has just filled past a sleeping reader |
| PipeRun.RunKeeps | xv6_uefi/xv6_public/pipe.c:78-121 | in every run without kills no wakeup is lost |
| PipeRun.StartOk | xv6_uefi/xv6_public/pipe.c:22-57 | a new pipe satisfies this |
| PipeRun.LostWakeup | xv6_uefi/xv6_public/pipe.c:85-89 | the run from a new pipe that shows the exception: the reader sleeps on with 512 bytes to read |
| RunQueue.SelectRotates | os_in_action_45/lesson30/Cosmos/kernel/krlsched.c:207-247 | a select chooses the first of list followed by current and rotates them left by one; nobody enters or leaves; tdl_nr stays right |
| RunQueue.RoundRobin | os_in_action_45/lesson30/Cosmos/kernel/krlsched.c:207-247 | n selects choose the first n threads in order |
| RunQueue.FullTurn | os_in_action_45/lesson30/Cosmos/kernel/krlsched.c:207-247 | in as many selects as there are threads each is chosen once, and the order is as at the beginning |
| RunQueue.EntersFirst | os_in_action_45/lesson30/Cosmos/kernel/krlsched.c:265-282 | a new thread is chosen by the very next select of its level, and the others follow as they would have |
| RunQueue.EntersLast | os_in_action_45/lesson30/Cosmos/kernel/krlsched.c:111-145 | a woken thread is chosen right after all that were on the list |
| RunQueue.LeavesOrder | os_in_action_45/lesson30/Cosmos/kernel/krlsched.c:71-109 | when the current thread goes to sleep, the others keep their turns |
| Sched.SelectsTurn | os_in_action_45/lesson30/Cosmos/kernel/krlsched.c:207-247 | as long as nothing else happens, selects by the whole scheduler turn only the lowest-numbered non-empty priority |
| Sched.EachRunsOnce | os_in_action_45/lesson30/Cosmos/kernel/krlsched.c:207-247 | in as many selects by the whole scheduler as that priority has threads, each of them is chosen once, and everything is as before |
| Sched.SelectCurrOk | os_in_action_45/lesson30/Cosmos/kernel/krlsched.c:207-263 | after every switch the running thread is the idle thread or the current one of its priority |
| RunQueue.PushedOk | os_in_action_45/lesson30/Cosmos/kernel/krlwaitlist.c:41-76 | the wait list is last in, first out, and wl_tdnr its length |
| Sched.PlacedWait | os_in_action_45/lesson30/Cosmos/kernel/krlsched.c:71-109 | a waiting thread is in exactly one place before and after: its wait list |
| Sched.PlacedUp | os_in_action_45/lesson30/Cosmos/kernel/krlsched.c:111-144 | a woken thread is in exactly one place before and after: the run list of its priority |
| Sched.PlacedSelect | os_in_action_45/lesson30/Cosmos/kernel/krlsched.c:207-247 | a select moves nobody |
| Sched.PlacedAdd | os_in_action_45/lesson30/Cosmos/kernel/krlsched.c:265-282 | a new thread enters exactly one run list |
| Sched.Kernel.SelectThread | os_in_action_45/lesson30/Cosmos/kernel/krlsched.c:207-247 | turns the lowest-numbered non-empty priority and returns its choice; the idle thread exactly if all are empty |
| Sched.Kernel.Schedul | os_in_action_45/lesson30/Cosmos/kernel/krlsched.c:249-263 | the thread so chosen becomes the running one |
| Sched.Kernel.AddThread | os_in_action_45/lesson30/Cosmos/kernel/krlsched.c:265-282 | the thread enters at the front of its priority and is the one that the next select there picks |
| Sched.Kernel.Wait | os_in_action_45/lesson30/Cosmos/kernel/krlsched.c:71-109 | the running thread leaves its run list and enters the wait list; that it is current at its priority follows from the invariant that every other operation and the next switch keep |
| Sched.Kernel.Up | os_in_action_45/lesson30/Cosmos/kernel/krlsched.c:111-144 | the first waiting thread enters the end of its run list; panic exactly if nobody waits |
| Sched.Kernel.WlstUp | os_in_action_45/lesson30/Cosmos/kernel/krlwaitlist.c:21-30 | the first waiting thread, if there is one, enters the end of its run list; otherwise nothing happens |
| Sched.Kernel.DelThread | os_in_action_45/lesson30/Cosmos/kernel/krlwaitlist.c:52-76 | takes the first waiting thread, null exactly if there is none |
| Sched.Kernel.Allup | os_in_action_45/lesson30/Cosmos/kernel/krlwaitlist.c:32-39 | terminates; empties the wait list and appends every thread of it, in list order, to its run list |
| Sem.AllUpOrder | os_in_action_45/lesson30/Cosmos/kernel/krlwaitlist.c:32-39 | for one priority: the waiters of that priority, last to wait first, follow those already there |
| Sem.Sem.DownTurn | os_in_action_45/lesson30/Cosmos/kernel/krlsem.c:28-44 | a turn of a thread other than idle takes one of the count, or puts the thread on the wait list and switches to the thread that select chooses; the count equals initial plus ups less downs, is never negative, and nobody waits while it is positive |
| Sem.Sem.Up | os_in_action_45/lesson30/Cosmos/kernel/krlsem.c:46-61 | counts one up and makes every waiting thread runnable; the count stays initial plus ups less downs, and nobody waits while it is positive |
| ShellRoundTrip.ExecBack | xv6_uefi/xv6_public/sh.c:400-446 | parsing a printed element of a pipeline, arguments or a block with redirections around it, gives it back |
| ShellRoundTrip.PipeBack | xv6_uefi/xv6_public/sh.c:362-372 | parsing a printed pipeline gives it back, whatever may follow a pipeline |
| ShellRoundTrip.LineBack | xv6_uefi/xv6_public/sh.c:345-359 | parsing a printed line with & and ; gives it back |
| ShellRoundTrip.ParsePrinted | xv6_uefi/xv6_public/sh.c:328-446 | parsing the printed tokens of any tree gives the tree back and leaves nothing |
| ShellLexer.ToksChars | xv6_uefi/xv6_public/sh.c:266-308 | reading written tokens gives them back |
| ShellLexer.RoundTrip | xv6_uefi/xv6_public/sh.c:265-446 | parsing the text of any tree with at most 9 arguments and words free of blanks and symbols gives the tree back |
| ShellLexer.ToksIff | xv6_uefi/xv6_public/sh.c:265-308 | the lexer gives a row of tokens if and only if the text spells it: blanks, and each token spelled out as far as it goes |
| ShellDerivation.AcceptedIff | xv6_uefi/xv6_public/sh.c:327-446 | a row of tokens is accepted with the tree c if and only if the whole row derives c in the grammar of lines, pipelines, blocks, arguments and redirections, with at most 9 arguments to a command; nothing is left over |
| ShellDerivation.OneTree | xv6_uefi/xv6_public/sh.c:327-446 | no row of tokens derives two trees |
| ShellDerivation.StandsIff | xv6_uefi/xv6_public/sh.c:265-446 | a text is accepted with the tree c if and only if it spells a row that derives c |
| ShellAppend.AppendIsOverwrite | xv6_uefi/xv6_public/sh.c:374-397 | on every row of tokens, replacing every >> by > changes neither the tree nor the failure |
| ShellAppend.OneAppend | xv6_uefi/xv6_public/sh.c:382-394 | a redirection begun with >> is parsed as if begun with >, whatever follows |
| ShellAppend.TextsAlike | xv6_uefi/xv6_public/sh.c:265-446 | two texts that differ only in >> for > give the same command |
| Shell.Parser.Gettoken | xv6_uefi/xv6_public/sh.c:265-308 | advances over exactly one token of the text and gives its code and its place; 0 exactly at the end |
| Shell.Parser.Peek | xv6_uefi/xv6_public/sh.c:310-320 | true exactly if the next token starts with one of the symbols; consumes only blanks |
| Shell.Parser.Parseredirs | xv6_uefi/xv6_public/sh.c:374-397 | agrees with the grammar for redirections: same redirections, same rest of the text, same failures |
| Shell.Parser.Parseexec | xv6_uefi/xv6_public/sh.c:415-446 | agrees with the grammar for arguments and redirections or a block: same tree, same rest of the text, same failures, the limit on arguments included; terminates on every input |
| Shell.Parser.Parseblock | xv6_uefi/xv6_public/sh.c:399-413 | agrees with the grammar for a block: same tree, same rest of the text, same failures; terminates |
| Shell.Parser.Parsepipe | xv6_uefi/xv6_public/sh.c:361-372 | agrees with the grammar for a pipeline: same tree, same rest of the text, same failures; terminates |
| Shell.Parser.Parseline | xv6_uefi/xv6_public/sh.c:344-359 | agrees with the grammar for a line with & and ;: same tree, same rest of the text, same failures; terminates |
| Shell.Parser.Nulterminate | xv6_uefi/xv6_public/sh.c:448-493 | writes NUL at exactly the ends of the words of the tree |
| Shell.ReadBack | xv6_uefi/xv6_public/sh.c:448-493 | then every argument and file name, read as a C string from the shared buffer, is its original token |
| Shell.Parser.Parsecmd | xv6_uefi/xv6_public/sh.c:327-342 | on every text: terminates; a tree it gives, read from the buffer in place, is one that the whole text spells and derives; it panics exactly if the text spells nothing that derives a tree |
| Grep.MeansEnd | xv6_uefi/xv6_public/grep.c:90-91 | $ at the end matches exactly the end of the text |
| Grep.MeansChar | xv6_uefi/xv6_public/grep.c:92-93 | a literal or . takes one fitting character |
| Grep.MeansStar | xv6_uefi/xv6_public/grep.c:88-106 | c* takes any number of fitting characters |
| Grep.Match | xv6_uefi/xv6_public/grep.c:72-82 | true if and only if some part of the text factors as the pattern says, at the beginning if it starts with ^; terminates |
| Grep.Matchhere | xv6_uefi/xv6_public/grep.c:84-96 | true if and only if the pattern matches at the beginning of the text |
| Grep.Matchstar | xv6_uefi/xv6_public/grep.c:98-106 | true if and only if c* followed by the rest matches there, the goto included |
| Grep.OddPatterns | xv6_uefi/xv6_public/grep.c:84-96 | before any rest of a pattern, a * with nothing before it, a $ and an inner ^ stand for themselves |
| Grep.OddMeans | xv6_uefi/xv6_public/grep.c:84-96 | for every rest and every text such a pattern matches if and only if that character comes first and the rest matches after it |

## Left out

- Readers and writers running between the block writes of a commit: Log.Log.Commit is one step for them; begin_op keeps new operations out, but plain reads are not interleaved.
- Log.Log.LogWrite: one step from the test for room to the end; LogReserve is where other processes get in between.
- CrashFiles.CrashAfterOps: operations of one group come one after the other, where processes interleave theirs.
- Log.Log.Commit: asks that a buffer can be had; with a full log none can, see Log.CommitHasBuffer.
- The file system reads and changes blocks by value: bread and log_write are taken to give and change what readers see of a block, as Bio and Log prove; buffers and locks do not appear in it.
- Device inodes, directories, path lookup, link counts, iget and iput reference counts, and fs.c's ialloc.
- Fs.Fs.Writei: asks for a file without holes; in a hole readi and writei would allocate blocks, and what such a file reads as is not modelled.
- Fs.Fs.Itrunc: the count of blocks it logs is not bounded, only which blocks.
- File.OpenFile.Filewrite: no other writer of the same file gets in between two chunks.
- Mkfs.Image.Ialloc: asks for a free inode number; mkfs does not check it.
- Mkfs.Image.Iappend: what is left in the image file when mkfs stops with an error is not described.
- mkfs: the bytes of the super block, byte swapping, stripping of file names and reading of host files.
- Umalloc.Heap.Malloc: sizes below 2^31 - 16 bytes; sbrk answers aligned memory above the static header that nobody else uses.
- Page tables: frames are numbers and entries pairs of frame and permission bits, not words; kfree's panics and the allocator's lock, TLB flushes, inituvm, loaduvm and copyout.
- Vm.Vm.Setupkvm: asks that the kernel's rows are not empty, lie above KERNBASE and do not overlap, as in the kernel's own table.
- Vm.Vm.Allocuvm: asks that no page of the range is mapped, which the kernel's callers keep; mappages would panic.
- Address-space list: 64-bit wrap-around of addresses; the start descriptor field that no code reads; allocation of descriptors is a yes-or-no parameter.
- VAdrs.VirMem.Del: a failure to unmap pages, which the unmapping code never reports.
- Memory boxes: a physical page has a number other than 0, and unmapping never fails; that other address spaces keep to their own boxes is their side of the same contract; the object cache always takes a freed box back.
- MemBox.Space.Fault: asks that the page is not mapped yet, as a page fault does, and that the page allocator gives a page that is neither mapped nor in a list.
- Processes: sleep channels other than sleeplocks and wait; sbrk, exec and user code are one "anywhere else"; fork sets the parent in the step that makes the child runnable, though the code writes it before, without the lock.
- Processes: kill sets the flag and wakes the sleeper; what a killed process then does is left to its loop, which sleeps again on a sleeplock.
- Pipes: the two ends are closed for the last time only when no process is inside a call on them, as reference counts ensure.
- Cosmos scheduler: one CPU; a context switch is one step; flags for preemption and the idle thread's own loop.
- Sched.Kernel.Wait: asks for a thread other than idle, which never waits.
- Sem.Sem.DownTurn: one turn of the retry loop; that a waiter gets through eventually depends on who else comes; 64-bit overflow of the count.
- Shell: runcmd, the line editor and built-in cd; command nodes are values, so a redirection is wrapped around the finished command, where the code wraps it around the node that is still being filled.
- grep: the line buffer of grep and its options.
- Port I/O, interrupt controllers, loaders, FAT readers, network packets, printing: hardware glue, or code without state worth proving.
