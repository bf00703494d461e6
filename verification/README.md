# xv6 kernel and shell, verified model

A Dafny model of the parts of this xv6 that are hardest to get right, with proofs over every input, every run or every reachable state. Panics and failure returns are modelled as results unless the caller is the one that must avoid them.

The modules follow the source.

| module | models |
|---|---|
| RedoLog, CrashSafety, LogReservation | the protocol of log.c as a step system in which every disk write and every crash is a step |
| LogCode | log.c itself, each of its disk writes being one step of that protocol |
| LruRing, BufferCache | bio.c: the ring, the buffers, their sleep locks and reference counts |
| CommitBuffers | commit of log.c running on the buffers of bio.c |
| BlockTree, Bitmap, Truncate, InodeCode | the block tree of an inode, the bitmap, bmap and itrunc in fs.c |
| FileBytes, FileCode | readi and writei in fs.c and the file operations in file.c, against the bytes of a file |
| StrideHeap, Stride, Wheel, Mlfq, BoostClock, Scheduler | the heap, stride scheduling, the wheel of 100 slots, level accounting, the clock that boosts, and the code in proc.c, trap.c and sysproc.c that runs them |
| Counting, Semaphore, RwLock, RwShare | semaphore.c and rwlock.c as step systems over any number of threads |
| FreeList, Umalloc | umalloc.c |
| PipeRing, Pipe, PipeCalls | pipe.c with sleep and wakeup of proc.c as a step system over any number of threads, and what one call achieves in it |
| PageMemory, PageTables | kalloc.c and the page table code of vm.c |
| ShellSyntax, ShellGrammar, ShellOrder, Shell | the parser of sh.c |
| Options, Sums | results that may be missing; sums over finite maps |

Code that updates state in place is a class or a method with loops, proved against functions and predicates on values. Protocols between threads, and between the kernel and a crash, are step systems with an invariant and a theorem over all runs. The two meet in ghost fields: a method's contract says which steps of the protocol it performs.

What the proofs turned up about the code:

- With the log size mkfs chooses, LOGSIZE, the "too big a transaction" panic can be reached by operations that make no log_write call after their MAXOPBLOCKS new entries; only a larger log excludes it (`LogReservation.PanicIffSmallLog`). Since log_write tests the size before it looks for an absorbed entry, a budget of new entries alone is never enough (`LogReservation.AbsorptionPanics`). The comment on MAXOPBLOCKS in param.h promises more than the code checks; the model follows the code.
- A larger log alone does not help: commit runs out of buffers exactly when the header has NBUF entries (`CommitBuffers.Commit`), NBUF equals LOGSIZE, and operations within their budget can fill the header that far exactly when the log is larger than LOGSIZE (`LogReservation.FullIffBigLog`). NBUF has to grow with it.
- exit pops the least pass instead of the exiting process's own; heap and passes stay in agreement exactly when the two are equal (`Stride.ExitAgrees`), and a run of three steps leads to a state where they are not (`Stride.ExitBreaks`). A second set_cpu_share by the same process always breaks the agreement (`Stride.AdmitAgrees`, `Stride.SecondShareBreaks`).
- A process's runtime stays below allotment plus quantum in every run exactly when it has no light-weight processes (`BoostClock.WithinIffNoLwps`). Their ticks can add to it for as long as one boost period lasts, and no longer (`BoostClock.LwpBound`).
- Between value++ and the end of Cond_signal's scan the value of a semaphore can exceed the number of woken threads by one while others sleep; the thread responsible holds the mutex and still has its wakeup to do (`Semaphore.SignalGap`, `Semaphore.NoLostWakeup`).
- A writer that finds the pipe full and the read end closed returns without waking readers. That is harmless because nobody is inside a closed end: every process and every light-weight process holds its own reference to the file (proc.c:693-695). `Pipe.ClosingStrands` shows why that hypothesis is needed; the state it starts from is not reachable in this code.
- malloc computes the number of units in 32 bits: for the last seven values of its argument the sum wraps and the block has no room at all (`Umalloc.UnitsFor`, `Umalloc.Allocator.Malloc`). From 2 GB on the argument that morecore passes to sbrk is not the size it wants (`Umalloc.SbrkArg`).
- sh.c opens files for > and >> with the same mode; the model does the same.

## Model

| member | source | states |
|---|---|---|
| `RedoLog.HeadRoundTrip` | xv6-public/log.c:86-113 | read_head gets back exactly the list that write_head stored, for every list of at most LOGSIZE entries, whatever the block held before |
| `RedoLog.InstalledAt` | xv6-public/log.c:70-82 | after `k` rounds of install_trans a block named by the first `k` entries holds its log copy and every other block is untouched |
| `RedoLog.RecoverableRecovers` | xv6-public/log.c:116-122 | one uninterrupted recovery of a crash-consistent disk yields exactly the image that disk stands for |
| `CrashSafety.LogWriteKeepsPhase` | xv6-public/log.c:214-233 | log_write, with absorption, keeps every committed and pending update where the protocol needs it |
| `CrashSafety.EndKeepsPhase` | xv6-public/log.c:146-174 | end_op keeps the protocol invariant and never finds `committing` set |
| `CrashSafety.CommitLogKeepsPhase` | xv6-public/log.c:178-190 | each block write of write_log leaves the previous image recoverable |
| `CrashSafety.CommitHeadKeepsPhase` | xv6-public/log.c:102-113 | the header write switches the recoverable image from the old one to the new one in one step |
| `CrashSafety.InstallKeepsPhase` | xv6-public/log.c:70-82 | each block write of install_trans, and the clearing header write, leaves the committed image recoverable |
| `CrashSafety.CopyReads` | xv6-public/log.c:76-80 | a home block reads the same once its log copy has been written home and the buffer unpinned |
| `CrashSafety.ReplayKeepsPhase` | xv6-public/log.c:116-122 | the same during recovery, so a crash in the middle of recovery is harmless |
| `CrashSafety.CrashKeepsPhase` | xv6-public/log.c:54-66 | losing all memory at any point keeps what the disk stands for |
| `CrashSafety.CrashAnywhere` | xv6-public/log.c:54-66 | a crash can come in every reachable state, and leaves the disk as it is |
| `CrashSafety.StepKeepsWhole` | xv6-public/log.c:125-174 | no commit point ever falls between two log_writes of one operation |
| `CrashSafety.StepKeepsInv` | xv6-public/log.c:54-233 | every step of begin_op, log_write, end_op, commit, recovery and crash keeps the protocol invariant |
| `CrashSafety.CrashSafe` | xv6-public/log.c:69-122 | in every reachable state, for any interleaving and any crashes, recovery yields exactly the updates up to one commit point, and no operation has updates on both sides of a commit point |
| `CrashSafety.ReadsAreNewest` | xv6-public/bio.c:96-106 | in every reachable state of a running kernel, also in the middle of a commit, a read of a home block returns the newest contents logged for it |
| `CrashSafety.CountsOps` | xv6-public/log.c:125-174 | in every reachable state of a running kernel `outstanding` is the number of operations in progress |
| `CrashSafety.CommittingExcludesOps` | xv6-public/log.c:125-174 | while a commit runs no operation is outstanding, `outstanding` counts the open operations, and the only panic a step can raise is log_write's "too big a transaction" |
| `CrashSafety.OnlyHeadCommits` | xv6-public/log.c:193-202 | the durable updates change at no step other than the header write that ends write_log, and then to all of them |
| `CrashSafety.CommitIsAtomic` | xv6-public/log.c:177-202 | for every sequence of disk writes and crashes during commit and recovery the disk recovers to the whole pre-state or the whole post-state, and whenever the kernel runs again the home blocks are one of the two |
| `CrashSafety.TransactionIsAtomic` | xv6-public/log.c:177-202 | so for every reachable state about to start write_log: any block writes and crashes later the disk recovers to the durable image from before or to the image with every logged update |
| `LogReservation.StepKeepsReserved` | xv6-public/log.c:126-141 | the blocks in the log plus what open operations may still add never exceed LOGSIZE |
| `LogReservation.LogSpaceSuffices` | xv6-public/log.c:125-141 | if each operation adds at most MAXOPBLOCKS new entries then in every reachable state the log fits, its entries are distinct home blocks, and write_log stays inside the log area |
| `LogReservation.RecoveryEnds` | xv6-public/log.c:116-122 | from a crash, recovery reaches a running kernel with an empty log |
| `LogReservation.CommitEnds` | xv6-public/log.c:162-173 | from every point of a commit the disk writes that are left lead to a running kernel with an empty log and everything durable, in which begin_op admits callers again |
| `LogReservation.PanicIffSmallLog` | xv6-public/log.c:213-221 | if every operation stops calling log_write once it has added MAXOPBLOCKS new entries, the "too big a transaction" panic can be reached if and only if the log size is at most LOGSIZE |
| `LogReservation.AbsorptionPanics` | xv6-public/log.c:213-227 | if operations stop adding entries but go on calling log_write for blocks already in the log, the panic can be reached for every log size, because the size test comes before the search for an absorbed entry |
| `LogReservation.FullIffBigLog` | xv6-public/log.c:146-174 | such operations can make commit begin with LOGSIZE entries if and only if the log size is more than LOGSIZE |
| `LogReservation.BeginSafeIff` | xv6-public/log.c:132-139 | with a large enough log, one more operation can lead to the "too big a transaction" panic if and only if the entries made, what the open operations may still add and MAXOPBLOCKS exceed LOGSIZE |
| `LogReservation.AdmissionIsExact` | xv6-public/log.c:132-139 | so among operations that have used none of their reservation begin_op refuses a caller if and only if admitting it could overflow the log |
| `LogCode.SettledHome` | xv6-public/log.c:193-202 | when the kernel runs with an empty log the home blocks hold every update |
| `LogCode.Log.constructor` | xv6-public/log.c:54-66 | boot on a crash-consistent disk starts a run of the protocol |
| `LogCode.Log.Bread` | xv6-public/bio.c:96-106 | returns the newest contents logged for the block whenever the kernel runs and the block is a home block |
| `LogCode.Log.Bwrite` | xv6-public/bio.c:109-116 | the block reads as the data from then on without a pinned buffer, so also after memory is lost, and every other block reads as before |
| `LogCode.Log.ReadHeader` | xv6-public/log.c:86-96 | the in-memory list becomes the one on disk |
| `LogCode.Log.WriteHeader` | xv6-public/log.c:102-113 | one block write stores exactly the in-memory list |
| `LogCode.Log.WriteLog` | xv6-public/log.c:178-190 | its loop is `n` disk steps of the protocol, one per log block |
| `LogCode.Log.InstallTrans` | xv6-public/log.c:70-82 | its loop is `n` disk steps of the protocol, in commit and in recovery |
| `LogCode.Log.Commit` | xv6-public/log.c:193-202 | is 2n+2 disk steps of the protocol, so every crash point in it is a state of a legal run; nothing at all when the log is empty |
| `LogCode.Log.RecoverFromLog` | xv6-public/log.c:116-122 | is n+2 disk steps of the protocol and leaves the home blocks as an uninterrupted recovery would |
| `LogCode.Log.BeginOp` | xv6-public/log.c:126-141 | admits the caller if and only if no commit runs and the entries made plus MAXOPBLOCKS for every operation in progress and for the caller are at most LOGSIZE |
| `LogCode.Log.LogWrite` | xv6-public/log.c:214-233 | its search loop is the protocol's log_write step; it reports the panic exactly when that step does |
| `LogCode.Log.EndOp` | xv6-public/log.c:146-174 | never panics; the last operation out commits everything and leaves the home blocks current |
| `BlockTree.PathOf` | xv6-public/fs.c:373-456 | every block number below MAXFILE leads to a leaf of the direct, single, double or triple tree |
| `BlockTree.PathOfInverts` | xv6-public/fs.c:373-456 | the leaf determines the block number |
| `BlockTree.BlockOfInverts` | xv6-public/fs.c:373-456 | every leaf is reached by exactly one block number below MAXFILE |
| `BlockTree.BlocksDistinct` | xv6-public/fs.c:373-456 | under the ownership invariant different block numbers, of one file or of two, are mapped to different disk blocks |
| `BlockTree.LinkPtr` | xv6-public/fs.c:373-456 | storing a fresh block at one place of one tree changes what is stored nowhere else |
| `BlockTree.LinkOwns` | xv6-public/fs.c:373-456 | it keeps the ownership invariant, all mappings and all data blocks |
| `Bitmap.WithHas` | xv6-public/fs.c:56-95 | setting or clearing a bit of a bitmap byte changes that bit only |
| `Bitmap.SetBit` | xv6-public/fs.c:64-71 | setting the bit of a block adds exactly that block to the used set |
| `Bitmap.ClearBit` | xv6-public/fs.c:87-93 | clearing it removes exactly that block |
| `Truncate.UnderIndex` | xv6-public/fs.c:477-538 | an index block's subtree is the block and the subtrees of its entries |
| `Truncate.UnderRoots` | xv6-public/fs.c:464-542 | the blocks of a file are those of its thirteen root slots |
| `Truncate.UnderDisjoint` | xv6-public/fs.c:464-542 | the subtrees of different entries are disjoint and do not contain the index block above them |
| `Truncate.SlotClearedPtr` | xv6-public/fs.c:473 | emptying a slot of an inode puts everything below it out of reach and leaves every other place of every tree as it was |
| `Truncate.ClearedOwns` | xv6-public/fs.c:464-542 | emptying an inode's slots and freeing its tree keeps the ownership invariant and every other inode's mappings |
| `InodeCode.LinkExtends` | xv6-public/fs.c:373-456 | one allocation in bmap keeps ownership, every existing mapping and every data block |
| `InodeCode.FileSystem.Balloc` | xv6-public/fs.c:57-78 | returns the first free block, marks it and zeroes it and nothing else; fails exactly when every block is used |
| `InodeCode.FileSystem.Bfree` | xv6-public/fs.c:82-95 | frees exactly that block; panics exactly when it was free |
| `InodeCode.FileSystem.LoadRoot` | xv6-public/fs.c:379-388 | the inode slot's block, allocated if it was missing, without changing any existing mapping |
| `InodeCode.FileSystem.LoadEntry` | xv6-public/fs.c:391-394 | the same for an entry of an index block |
| `InodeCode.FileSystem.Descend` | xv6-public/fs.c:400-453 | the same, chained from level to level |
| `InodeCode.FileSystem.Bmap` | xv6-public/fs.c:373-456 | returns the block mapped at `bn`, allocating what is missing; keeps ownership, every existing mapping and every data block; fails only past MAXFILE or with a full disk, never for a block that is mapped |
| `InodeCode.FileSystem.FreeSingle` | xv6-public/fs.c:478-488 | frees exactly the subtree of an index block of data blocks, each block once |
| `InodeCode.FileSystem.FreeDouble` | xv6-public/fs.c:491-509 | the same one level up |
| `InodeCode.FileSystem.FreeTriple` | xv6-public/fs.c:512-538 | the same two levels up |
| `InodeCode.FileSystem.ClearSlot` | xv6-public/fs.c:473 | what hangs below the slot is out of reach and every other place of every tree holds what it held |
| `InodeCode.FileSystem.FreeDirect` | xv6-public/fs.c:470-475 | frees exactly the direct blocks |
| `InodeCode.FileSystem.FreeIndirect` | xv6-public/fs.c:477-538 | frees exactly one indirect root slot's tree |
| `InodeCode.FileSystem.Iupdate` | xv6-public/fs.c:221-236 | if no other inode changed since it was last written, the inodes on disk and the data blocks are again exactly the file system in memory |
| `InodeCode.FileSystem.Itrunc` | xv6-public/fs.c:464-542 | clears exactly the bits of the blocks in the inode's tree, never panics with "freeing free block", keeps the ownership invariant, leaves every other inode alone, and leaves the inodes on disk current if they were |
| `FileBytes.SpliceSplice` | xv6-public/file.c:154-172 | two writes in a row are one write of both |
| `FileBytes.PokeByte` | xv6-public/fs.c:604-610 | writing into one block of one file changes those bytes of that file and no byte of any file else |
| `FileBytes.ExtendsByte` | xv6-public/fs.c:373-456 | allocating blocks changes no byte of any file |
| `FileCode.Readi` | xv6-public/fs.c:560-583 | the file's bytes from `off`, clipped to its size; -1 exactly past the end or on overflow; changes nothing |
| `FileCode.WriteBlock` | xv6-public/fs.c:604-610 | one round of writei's loop: the bytes so far plus this chunk are in place; panics only beyond the old end with a full disk |
| `FileCode.EndWrite` | xv6-public/fs.c:604-617 | a finished write has spliced the source into the file's bytes, left no hole below size and touched no other file |
| `FileCode.Writei` | xv6-public/fs.c:589-618 | a successful write is a splice at `off`; -1 exactly when the range is refused, and then nothing changed; panics only with a full disk and only for a write beyond the end; other files keep their bytes; the on-disk inode is current |
| `FileCode.Accepted` | xv6-public/file.c:154-173 | how many bytes the chunked loop gets through: all, or the whole chunks that fit, and then the next chunk does not fit; none from beyond the end of the file |
| `FileCode.ChunkFits` | xv6-public/file.c:154-173 | a chunk is refused exactly where the accepted bytes end |
| `FileCode.File.constructor` | xv6-public/sysfile.c:353-357 | a file just opened starts at offset 0 |
| `FileCode.Fileread` | xv6-public/file.c:97-113 | fails if and only if the file is not readable, the offset is past the end or offset plus length overflows, and then nothing moves; otherwise returns the bytes at the file offset clipped to the size and moves the offset past them |
| `FileCode.ReadTwice` | xv6-public/file.c:97-113 | two reads in a row return together the bytes of one read of both lengths and leave the same offset |
| `FileCode.Pread` | xv6-public/file.c:116-133 | reads at the given offset; the file offset stays |
| `FileCode.Filewrite` | xv6-public/file.c:138-176 | the chunked loop equals one splice of the accepted prefix at the file offset, which moves by as much; no panic for a write within the file |
| `FileCode.Pwrite` | xv6-public/file.c:179-212 | the same at the given offset; the file offset stays |
| `FileCode.WriteThenRead` | xv6-public/fs.c:559-618 | readi of any range after a successful writei returns the file with the written bytes spliced in, clipped to its size, so exactly what was written when it asks for the same range |
| `FileCode.TruncateKeepsOthers` | xv6-public/fs.c:464-542 | truncation leaves an empty file and every byte of every other file |
| `LruRing.PushRing` | xv6-public/bio.c:50-54 | relinking a buffer behind the head puts it in front of the list and keeps the order of the rest, in both directions |
| `LruRing.UnlinkRing` | xv6-public/bio.c:132-133 | bypassing a buffer takes out exactly that buffer |
| `LruRing.FrontComplete` | xv6-public/bio.c:130-138 | moving a buffer to the front loses none |
| `BufferCache.DirtyOrDisk` | xv6-public/bio.c:78-80 | the newest contents of a block are those of its dirty buffer if there is one and of the disk otherwise |
| `BufferCache.HitKeeps` | xv6-public/bio.c:69-76 | one more user keeps keys unique, reference counts exact and contents current |
| `BufferCache.RecycleKeeps` | xv6-public/bio.c:81-91 | giving an unused clean buffer another block keeps all of that, so eviction loses no data |
| `BufferCache.AdvanceKeeps` | xv6-public/bio.c:73-128 | taking and releasing the buffer's sleep lock keeps all of that |
| `BufferCache.FillKeeps` | xv6-public/bio.c:101-105 | a block without a valid buffer is current on disk, so reading it in yields the newest contents |
| `BufferCache.EditKeeps` | xv6-public/log.c:208-212 | a holder's change makes its contents the newest |
| `BufferCache.PinKeeps` | xv6-public/log.c:231 | marking the buffer dirty is enough to let go of it |
| `BufferCache.FlushKeeps` | xv6-public/bio.c:110-116 | bwrite makes the disk current for this block and no other |
| `BufferCache.LeaveKeeps` | xv6-public/bio.c:128-140 | one user fewer keeps the reference counts exact |
| `BufferCache.Cache.constructor` | xv6-public/bio.c:39-56 | binit links all NBUF buffers into the ring |
| `BufferCache.Cache.FindCached` | xv6-public/bio.c:68-76 | finds the block's buffer exactly when there is one; the walk ends |
| `BufferCache.Cache.FindRecyclable` | xv6-public/bio.c:81-91 | the least recently used buffer that is unused and clean, or none exactly when there is none |
| `BufferCache.Cache.Bget` | xv6-public/bio.c:62-93 | the block's buffer, or the least recently used clean unused one; "no buffers" exactly when the block is not cached and every buffer is in use or dirty |
| `BufferCache.Cache.AcquireSleep` | xv6-public/bio.c:73-88 | the lock has one holder at a time |
| `BufferCache.Cache.Iderw` | xv6-public/memide.c:38-60 | a dirty buffer is written out and made clean, an invalid one is read in |
| `BufferCache.Cache.Fill` | xv6-public/bio.c:97-106 | the holder sees the newest contents of its block, whatever was evicted and reloaded in between |
| `BufferCache.Cache.Bread` | xv6-public/bio.c:97-106 | when nobody holds the block's buffer, the whole call returns the newest contents in a buffer whose pin is as before and touches no other buffer, or reports exactly bget's failure and changes nothing |
| `BufferCache.Cache.Store` | xv6-public/log.c:208-212 | the holder's change of the buffer is the newest contents from then on |
| `BufferCache.Cache.LogWrite` | xv6-public/log.c:231 | the buffer is pinned and no longer counts as unsaved |
| `BufferCache.Cache.Bwrite` | xv6-public/bio.c:110-116 | writes the buffer to its block and unpins it |
| `BufferCache.Cache.ReleaseSleep` | xv6-public/bio.c:121-126 | gives up the lock once what was changed is pinned or written |
| `BufferCache.Cache.Unref` | xv6-public/bio.c:128-140 | the last user moves the buffer to the front of the ring, which stays a permutation of all buffers; other users leave the ring alone |
| `BufferCache.Cache.Brelse` | xv6-public/bio.c:121-141 | both halves in one call: the lock is free, one use less, everything else as before |
| `CommitBuffers.AllDirtyIff` | xv6-public/param.h:11-12 | distinct header entries pin distinct buffers, so there are at most NBUF and all buffers are dirty if and only if there are NBUF |
| `CommitBuffers.ReadableIff` | xv6-public/bio.c:62-93 | with no buffer in use, reading a block that is not pinned fails if and only if all buffers are dirty |
| `CommitBuffers.LogBuffer` | xv6-public/log.c:104 | bread of a log block or of the header, with exactly that failure |
| `CommitBuffers.TwoBuffers` | xv6-public/log.c:183-184 | the two breads of a round hold two buffers with the newest contents, and only the first can fail |
| `CommitBuffers.ToLog` | xv6-public/log.c:183-188 | one round copies the newest contents of a pinned block to its log block; every pin stays |
| `CommitBuffers.ToHome` | xv6-public/log.c:75-80 | one round copies a log block home and gives up exactly that pin |
| `CommitBuffers.WriteHead` | xv6-public/log.c:101-113 | one block written, with exactly the failure of its bread |
| `CommitBuffers.WriteLog` | xv6-public/log.c:178-190 | runs out of buffers if and only if the header has NBUF entries; otherwise every log block holds the newest contents of its home block |
| `CommitBuffers.InstallTrans` | xv6-public/log.c:70-82 | never runs out of buffers after write_log; leaves no pin and every block as new as before |
| `CommitBuffers.Commit` | xv6-public/log.c:193-202 | commit panics with "bget: no buffers" if and only if the header has NBUF entries; otherwise there is a moment with the header and all log blocks on the disk and every home block as before, and at the end no buffer is pinned, the disk holds the newest contents of every block, and no block outside the log has new contents |
| `CommitBuffers.OnePanicOrTheOther` | xv6-public/log.c:213-221 | for every log size, operations within their budget can reach the panic in log_write or a commit with every buffer pinned, and never both |
| `StrideHeap.RootIsMin` | xv6-public/proc.c:14-66 | the first element of a heap is a least one |
| `StrideHeap.Heap.constructor` | xv6-public/proc.c:14-16 | an empty heap |
| `StrideHeap.Heap.Swap` | xv6-public/proc.c:19-24 | exchanges two elements and no others |
| `StrideHeap.Heap.Push` | xv6-public/proc.c:27-39 | adds exactly one value and keeps heap order |
| `StrideHeap.Heap.Pop` | xv6-public/proc.c:42-66 | takes out exactly one least value and keeps heap order |
| `Stride.AdmitKeepsInv` | xv6-public/proc.c:646-666 | admission keeps the heap equal to the passes, the passes close and the tickets within 80 |
| `Stride.ChargeKeepsInv` | xv6-public/proc.c:536-541 | charging the least pass keeps them so |
| `Stride.StrideAgreement` | xv6-public/proc.c:528-548 | in every state of every run of admissions and dispatches the heap is exactly the multiset of the stride processes' passes, and no pass exceeds another by more than its own stride, which is at most 1000 |
| `Stride.PassCounts` | xv6-public/proc.c:536-541 | over any interval a process's pass moves by its stride per charged dispatch |
| `Stride.Fairness` | xv6-public/proc.c:528-548 | over any interval of any run the charged runs times stride of two present processes differ by at most the sum of their strides |
| `Stride.Proportional` | xv6-public/proc.c:528-548 | over any interval the dispatches charged to two processes are in the ratio of their percentages, up to the rounding of 1000 divided by the percentage and one dispatch each |
| `Stride.AdmitAgrees` | xv6-public/proc.c:646-666 | set_cpu_share keeps heap and passes in agreement if and only if the caller had no share before |
| `Stride.ExitAgrees` | xv6-public/proc.c:341-344 | the pop in exit keeps them in agreement if and only if the exiting process has the least pass |
| `Stride.ExitBreaks` | xv6-public/proc.c:341-344 | a run of two admissions and one dispatch after which the pop in exit leaves heap and passes in disagreement |
| `Stride.SecondShareBreaks` | xv6-public/proc.c:646-666 | a run of one admission after which a second set_cpu_share does |
| `Wheel.SlotOpen` | xv6-public/proc.c:518-552 | every slot is open to exactly one kind of dispatch, unless the dispatch is forced, which it is exactly at the 1000th process |
| `Wheel.CountTracks` | xv6-public/proc.c:519-571 | the slot counter moves with unforced dispatches only, across skips and wraparound, and the slot decides the kind of dispatch |
| `Wheel.FullTurn` | xv6-public/proc.c:524-528 | a hundred consecutive slots contain every slot once, wherever they start |
| `Wheel.WheelShare` | xv6-public/proc.c:514-571 | any 100 consecutive unforced dispatches contain exactly T stride and 100-T MLFQ dispatches |
| `Wheel.ForcedEventually` | xv6-public/proc.c:518-522 | more than 1000 considered processes in a row include a forced dispatch |
| `Wheel.ForcedEvery1000` | xv6-public/proc.c:518-522 | after a forced dispatch the next one comes exactly 1000 runnable processes later |
| `Mlfq.StepKeepsInv` | xv6-public/trap.c:105-136 | each tick, voluntary yield, charge by a light-weight process and boost keeps runtime below allotment plus quantum plus the charges since the boost |
| `Mlfq.RuntimeBound` | xv6-public/trap.c:105-136 | in every run the level stays in 0..2 and below level 2 the runtime stays below allotment plus quantum plus the charges by light-weight processes since the last boost |
| `Mlfq.LevelMoves` | xv6-public/trap.c:117-126 | the level rises by one only, after the allotment is used and with the runtime reset, and falls only at a boost |
| `Mlfq.RestartsAtZero` | xv6-public/trap.c:110-126 | a boost, a demotion and the end of a stride slice restart ticks and runtime from zero |
| `Mlfq.RuntimeCounts` | xv6-public/trap.c:105-136 | between two restarts the runtime is exactly the number of ticks, voluntary yields and light-weight ticks charged, and the level stays; so are the ticks between two forced yields |
| `Mlfq.DemotedInTime` | xv6-public/trap.c:116-126 | without a boost a process below level 2 is demoted after at most allotment plus quantum ticks of its own |
| `Mlfq.YieldsInTime` | xv6-public/trap.c:110-126 | between two yields forced by the timer there are at most a quantum of ticks, or 5 under stride scheduling |
| `Mlfq.TimerRun` | xv6-public/trap.c:105-128 | a process that only computes runs exactly 20 ticks at level 0, 40 at level 1 and the rest at level 2, with the account it has after every tick |
| `BoostClock.StepKeepsInv` | xv6-public/trap.c:50-58 | with a boost forced at every 200th tick, each charge since the boost is paid for by a timer interrupt since then or by a light-weight process that was parked at the boost |
| `BoostClock.LwpBound` | xv6-public/trap.c:50-136 | on any number of CPUs the runtime of a process with light-weight processes stays below allotment plus quantum plus their number plus 200 per CPU, and below allotment plus quantum if it has none |
| `BoostClock.AloneRun` | xv6-public/trap.c:129-135 | a light-weight process alone on one CPU raises the runtime at every tick of a boost period |
| `BoostClock.WithinIffNoLwps` | xv6-public/trap.c:50-136 | every run keeps the runtime below allotment plus quantum if and only if the process has no light-weight processes |
| `BoostClock.StepIsAccounting` | xv6-public/trap.c:50-136 | every timer interrupt, voluntary yield and charge, with the boost at every 200th tick, is a legal run of the accounting model |
| `BoostClock.BusyRun` | xv6-public/trap.c:50-128 | a process that only computes has the account of the accounting model started anew at every 200th tick |
| `BoostClock.LoadedRun` | xv6-public/trap.c:129-135 | within a boost period every tick of every CPU can be charged to one process, so the bound with light-weight processes is nearly reached |
| `Scheduler.Scheduler.constructor` | xv6-public/proc.c:10-16 | the initial state of the scheduler starts a run of the stride and wheel models |
| `Scheduler.Scheduler.SetCpuShare` | xv6-public/proc.c:646-666 | is an admission or returns -1 and changes nothing, the latter exactly for a percentage that is not positive or brings the total above 80; the heap still agrees with the passes if and only if nothing was admitted or the caller had no share |
| `Scheduler.Scheduler.PushLeast` | xv6-public/proc.c:654-657 | adds one more copy of the least pass, or 0 to an empty heap |
| `Scheduler.Scheduler.Advance` | xv6-public/proc.c:537-539 | replaces the least value by the new one |
| `Scheduler.Scheduler.ChargeLeast` | xv6-public/proc.c:536-541 | is the charge step of the stride model |
| `Scheduler.Scheduler.HigherWaiting` | xv6-public/proc.c:559-565 | finds a waiting MLFQ process of a lower level number exactly when there is one |
| `Scheduler.Scheduler.TryStride` | xv6-public/proc.c:528-548 | a stride slot is taken exactly when the pass of the manager is a least one of the heap, and is then a charge step of the stride model |
| `Scheduler.Scheduler.TryMlfq` | xv6-public/proc.c:552-571 | an MLFQ slot is taken exactly by a waiting MLFQ process of the least level |
| `Scheduler.Scheduler.Dispatch` | xv6-public/proc.c:577-579 | the chosen process is running and nothing else changed |
| `Scheduler.Scheduler.Consider` | xv6-public/proc.c:514-587 | one round of the scheduler's loop is one step of the wheel; the process is passed over if and only if the round is not forced and the process is not one that has to be run in this slot; a stride dispatch charges the manager's share and nothing else changes the shares |
| `Scheduler.Scheduler.Scan` | xv6-public/proc.c:514-586 | a walk over the process table dispatches if and only if some runnable process has the least pass in a stride slot, or waits under MLFQ in an MLFQ slot, or the count of runnable processes comes to 1000; it passes over nobody who has to be run |
| `Scheduler.Scheduler.TimerCheck` | xv6-public/trap.c:109-126 | the timer's decision to yield and to demote is the accounting step of the MLFQ model, for stride and MLFQ processes |
| `Scheduler.Scheduler.TimerCount` | xv6-public/trap.c:127-128 | counts one tick of the quantum and one of the runtime |
| `Scheduler.Scheduler.LwpTimer` | xv6-public/trap.c:129-135 | charges the manager |
| `Scheduler.Scheduler.SysYield` | xv6-public/sysproc.c:54-69 | a voluntary yield is the accounting step of the MLFQ model |
| `Scheduler.Scheduler.PriorityBoost` | xv6-public/proc.c:593-606 | every process is back at level 0 with nothing used, and nothing else changed |
| `Scheduler.Scheduler.ClockTick` | xv6-public/trap.c:50-58 | is the tick of the clock model for every process at once: a boost at every 200th tick and nothing else |
| `Semaphore.InsideStep` | xv6-public/semaphore.c:26-118 | a step under the semaphore's mutex keeps the count of permits, sleepers, woken threads and signallers in balance |
| `Semaphore.WakeFinds` | xv6-public/semaphore.c:65-77 | a signal that counted a waiter off always finds a thread asleep |
| `Semaphore.StepKeepsInv` | xv6-public/semaphore.c:15-118 | every step of every thread keeps the balance |
| `Semaphore.NoLostWakeup` | xv6-public/semaphore.c:26-118 | in every run of any number of threads the value is never negative, value plus permits taken is the initial value, and while a thread sleeps the value is at most the number of woken threads that have not rechecked plus the posters whose wakeup is still to come; there is none of those when the mutex is free |
| `Semaphore.SignalGap` | xv6-public/semaphore.c:110-118 | a run after which a thread sleeps, the value is 1 and no thread is woken: the poster has raised the value and not yet scanned, so the bound needs the poster counted while it holds the mutex |
| `Semaphore.Progress` | xv6-public/semaphore.c:99-118 | a thread in a call can move, or another can, or it sleeps while the value is 0 |
| `Semaphore.WaitTakes` | xv6-public/semaphore.c:99-108 | a wait ends only by a step that lowers a positive value by one |
| `RwLock.Permits` | xv6-public/rwlock.c:10-16 | each semaphore has one permit: at most one thread in the reader section, and a writer excludes the readers as a group |
| `RwLock.ReplaceThread` | xv6-public/rwlock.c:18-46 | the readers as a group hold writelock exactly when the reader section is free and the count is positive |
| `RwLock.StepKeepsInv` | xv6-public/rwlock.c:10-52 | every step of every thread keeps both |
| `RwLock.Exclusion` | xv6-public/rwlock.c:10-52 | in every run a writer overlaps neither another writer nor a reader |
| `RwLock.NoDeadlock` | xv6-public/rwlock.c:18-52 | in every reachable state with a thread inside an operation or holding the lock some thread can move, in spite of the nested wait on writelock |
| `RwShare.ReadersShare` | xv6-public/rwlock.c:18-28 | any number of threads can hold the read lock at the same time: each further one gets in from every quiet state |
| `RwShare.NewLockLetsIn` | xv6-public/rwlock.c:10-34 | a new lock lets all its threads read together, or one of them write |
| `FreeList.AheadStep` | xv6-public/umalloc.c:30-32 | one step along the circular list uses up one member ahead, so both searches end |
| `FreeList.CoalescedAll` | xv6-public/umalloc.c:33-42 | if no free block touches its successor then no two free blocks touch at all |
| `FreeList.MergeTiles` | xv6-public/umalloc.c:33-42 | merging two blocks that touch keeps the tiling of the arena |
| `FreeList.SplitTiles` | xv6-public/umalloc.c:78-82 | cutting the tail off a block keeps it |
| `FreeList.GrowTiles` | xv6-public/umalloc.c:54-58 | units from sbrk join it as one block |
| `FreeList.InsertCircular` | xv6-public/umalloc.c:33-42 | linking a block at its place keeps the list circular and in address order |
| `FreeList.RemoveCircular` | xv6-public/umalloc.c:76-77 | unlinking a block keeps it so |
| `FreeList.PredOf` | xv6-public/umalloc.c:30-32 | the place free's search looks for exists |
| `Umalloc.FreedInv` | xv6-public/umalloc.c:25-44 | freeing, with either, both or no coalescing, keeps the list circular and ordered, the blocks a tiling of the arena, and no two free blocks adjacent |
| `Umalloc.TakenWholeInv` | xv6-public/umalloc.c:75-77 | taking a block whole keeps all of that |
| `Umalloc.TakenTailInv` | xv6-public/umalloc.c:78-82 | taking a tail keeps all of that |
| `Umalloc.GrownInv` | xv6-public/umalloc.c:47-61 | a block obtained from sbrk keeps all of that |
| `Umalloc.FreedKeeps` | xv6-public/umalloc.c:25-44 | freeing writes no unit of a block that stays live |
| `Umalloc.WholeKeeps` | xv6-public/umalloc.c:75-77 | neither does taking a block whole |
| `Umalloc.TailKeeps` | xv6-public/umalloc.c:78-82 | nor cutting a tail |
| `Umalloc.StoreInv` | xv6-public/umalloc.c:24-90 | a client may store anything behind the header of its block without damaging the list |
| `Umalloc.StoredInv` | xv6-public/umalloc.c:24-90 | filling a block up to its last unit damages neither the list nor any other block nor its own header |
| `Umalloc.BytesInv` | xv6-public/umalloc.c:64-90 | so a client may store the bytes it asked for from the address malloc returned |
| `Umalloc.UnitsFor` | xv6-public/umalloc.c:69 | the units hold the bytes asked for, and less than 8 more, if and only if the 32-bit sum does not wrap |
| `Umalloc.CoreUnits` | xv6-public/umalloc.c:52-53 | at least the units asked for and at least 4096 |
| `Umalloc.SbrkArg` | xv6-public/umalloc.c:54 | the argument of sbrk is the size in bytes if and only if that is below 2 GB |
| `Umalloc.Allocator.constructor` | xv6-public/umalloc.c:21-22 | before the first malloc there are no blocks |
| `Umalloc.Allocator.FindPlace` | xv6-public/umalloc.c:30-32 | the search ends at the member after which the block belongs, wherever it starts |
| `Umalloc.Allocator.LinkAt` | xv6-public/umalloc.c:33-42 | the two updates compute the freed heap |
| `Umalloc.Allocator.Free` | xv6-public/umalloc.c:25-44 | the block is live no more, every other live block keeps its place and contents, all invariants hold, and a block of at least its size is free |
| `Umalloc.Allocator.MoreCore` | xv6-public/umalloc.c:47-61 | the units of sbrk become free, at least as many as asked for and at least 4096, or nothing changes when sbrk fails |
| `Umalloc.Allocator.Take` | xv6-public/umalloc.c:75-84 | a block of exactly the units asked for becomes live and was not live before |
| `Umalloc.Allocator.Malloc` | xv6-public/umalloc.c:64-90 | returns a new live block with room for the bytes asked for and less than 8 more if and only if they are at most 0xFFFFFFF8, calling sbrk at most once and only when no free block is large enough; fails only when sbrk does; other live blocks keep place and contents; the loop ends |
| `PipeRing.TestsExact` | xv6-public/pipe.c:85-106 | the comparisons of the wrapping 32-bit counters decide exactly whether the buffer is full or empty |
| `PipeRing.PutHolds` | xv6-public/pipe.c:93 | storing a byte appends it to what was written |
| `PipeRing.GetHolds` | xv6-public/pipe.c:116 | taking a byte yields the oldest one not read |
| `Pipe.FifoStep` | xv6-public/pipe.c:79-121 | every step keeps counters and buffer in agreement with the bytes written and read |
| `Pipe.LocksStep` | xv6-public/proc.c:903-937 | the pipe's lock and ptable.lock are held exactly where the code says |
| `Pipe.EndsStep` | xv6-public/pipe.c:60-75 | nobody is inside a closed end |
| `Pipe.WakesAll` | xv6-public/proc.c:943-959 | wakeup reaches every sleeper on its channel, because one on its way to sleep still holds a lock |
| `Pipe.NoLostStep` | xv6-public/pipe.c:79-121 | every step keeps each sleeper's condition true, or the lock holder bound to wake it |
| `Pipe.NextKeeps` | xv6-public/pipe.c:59-121 | every step and every call keeps the whole invariant |
| `Pipe.PipeFifo` | xv6-public/pipe.c:59-121 | in every run the bytes read are a prefix of the bytes written and at most PIPESIZE bytes are in the pipe, however often the counters wrapped |
| `Pipe.NoLostWakeup` | xv6-public/pipe.c:79-121 | in every run, whenever the lock is free a sleeping reader means an empty pipe with the write end open and a sleeping writer a full pipe with the read end open |
| `Pipe.FreedUnused` | xv6-public/pipe.c:70-75 | the pipe's page is freed only when both ends are closed and nobody is left in it |
| `Pipe.CanGoOn` | xv6-public/pipe.c:59-121 | unless every thread is idle or asleep some thread can take its next step |
| `Pipe.ClosingStrands` | xv6-public/pipe.c:60-97 | the hypothesis that nobody is inside an end when it is closed is needed: if the read end is closed while a reader sleeps, a continuation leaves that reader asleep in front of a full pipe with the lock free, because a writer that finds the read end closed returns without a wakeup |
| `PipeCalls.LockAlone` | xv6-public/pipe.c:79-121 | while a thread holds the pipe's lock no other thread touches the buffer |
| `PipeCalls.ReadDelivers` | xv6-public/pipe.c:100-120 | piperead sleeps if and only if the pipe is empty with the write end open; otherwise it takes exactly min(n, available) bytes, the oldest ones, whatever others do meanwhile, so none only for n = 0 or with the writers gone |
| `PipeCalls.ReadRun` | xv6-public/pipe.c:113-117 | the copying loop takes the oldest unread bytes in order until it has enough or none are left |
| `PipeCalls.WriteRun` | xv6-public/pipe.c:83-95 | also when it sleeps in between, pipewrite puts the bytes of its source in order, each once, and all of them before its last wakeup |
| `PipeCalls.WriteContiguous` | xv6-public/pipe.c:83-95 | the bytes put without sleeping are contiguous in the pipe |
| `PipeCalls.WriteDelivers` | xv6-public/pipe.c:79-98 | from entry to last wakeup a call of pipewrite puts exactly its source |
| `PipeCalls.NeverLeaked` | xv6-public/pipe.c:60-75 | in every state of every run with both ends closed and the lock free the pipe's page has been freed |
| `PipeCalls.CanBeFreed` | xv6-public/pipe.c:60-75 | from a new pipe a thread can close both ends and have the page freed |
| `PageMemory.TableSpace` | xv6-public/vm.c:45-53 | a new page table is owned by the directory and maps nothing |
| `PageMemory.TableMap` | xv6-public/vm.c:45-53 | adding it changes no mapping |
| `PageMemory.UserSpace` | xv6-public/vm.c:71-73 | mapping a user page makes it owned, in one place |
| `PageMemory.KernelSpace` | xv6-public/vm.c:71-73 | kernel mappings own nothing |
| `PageMemory.ClearSpace` | xv6-public/vm.c:269-276 | unmapping a user page gives up exactly that page |
| `PageMemory.PopFree` | xv6-public/kalloc.c:83-95 | taking the head of the free list leaves a list of the others |
| `PageMemory.PushFree` | xv6-public/kalloc.c:60-77 | pushing a page adds exactly that page |
| `PageTables.Vm.Kalloc` | xv6-public/kalloc.c:83-95 | a page that was free, or 0 exactly when there is none |
| `PageTables.Vm.Kfree` | xv6-public/kalloc.c:60-77 | the page is free and no other page changed |
| `PageTables.Vm.Freerange` | xv6-public/kalloc.c:47-53 | exactly the whole pages of the range become free |
| `PageTables.Vm.Walk` | xv6-public/vm.c:36-55 | the table for an address, created if asked for and there is memory; no mapping changes, no page is lost |
| `PageTables.Vm.SetPte` | xv6-public/vm.c:71-73 | one mapping changes and no other |
| `PageTables.Vm.MapOne` | xv6-public/vm.c:69-73 | one page is mapped, or it was mapped already and the code panics, or memory ran out; in the last two cases nothing changed |
| `PageTables.Vm.Mappages` | xv6-public/vm.c:61-80 | maps the pages from the first byte's to the last byte's to consecutive frames, user or kernel, in order up to the first page that is mapped already (panic) or that gets no table (failure, only without memory); the user frames become owned, no other mapping changes and no page is lost |
| `PageTables.Vm.ClearOne` | xv6-public/vm.c:269-276 | frees and unmaps exactly one page |
| `PageTables.Vm.Deallocuvm` | xv6-public/vm.c:256-279 | unmaps and frees exactly the user pages between the two sizes, skipping missing tables, and leaves the rest mapped with their contents |
| `PageTables.Vm.Freevm` | xv6-public/vm.c:284-298 | the free pages grow by exactly what the directory owns |
| `PageTables.KmapFacts` | xv6-public/vm.c:105-115 | the rows of the kernel's map do not overlap and lie above KERNBASE |
| `PageTables.KernelWindow` | xv6-public/vm.c:105-115 | the kernel finds physical memory at KERNBASE plus its address and the devices at theirs and nothing else is mapped; no page is for the user, and exactly those from EXTMEM to data are read-only |
| `PageTables.Vm.MapRow` | xv6-public/vm.c:128-133 | one row of the kernel's map is mapped without a remap panic, taking exactly the tables that were missing, or there are fewer free pages than that |
| `PageTables.MissingMore` | xv6-public/vm.c:66-79 | each page of a range needs a new table if and only if no earlier page of the range and nothing before needed it |
| `PageTables.RowTables` | xv6-public/vm.c:105-115 | the rows of the kernel's map need 56 tables for physical memory and 8 for the devices, wherever data begins |
| `PageTables.Vm.MapKernel` | xv6-public/vm.c:128-133 | maps the whole kernel if and only if 64 pages are free |
| `PageTables.Vm.Setupkvm` | xv6-public/vm.c:119-136 | a directory with exactly the kernel's mappings if and only if 65 pages are free, otherwise 0 with every page back on the free list |
| `PageTables.Vm.MapPage` | xv6-public/vm.c:241 | one user page is mapped to the page in hand, which becomes owned; fails only if a table is missing and no page is free |
| `PageTables.Vm.Initialize` | xv6-public/vm.c:240 | a page in hand gets contents without touching the address space |
| `PageTables.Vm.MapNew` | xv6-public/vm.c:234-246 | a page that was free, filled and mapped, or too few free pages and the page in hand accounted for |
| `PageTables.Vm.Undo` | xv6-public/vm.c:235-246 | the failure path gives back every page of the range and the page in hand |
| `PageTables.Vm.Allocuvm` | xv6-public/vm.c:222-249 | succeeds below KERNBASE if and only if there are as many free pages as new pages plus missing tables; then the new range is mapped to zeroed pages that were free and nothing else changed; on failure every mapping and every user page is as before and no page is lost, up to page tables that stay |
| `PageTables.Vm.ParentPage` | xv6-public/vm.c:326-331 | the parent's contents and flags for the page, or the panic exactly when it is absent |
| `PageTables.Vm.CopyOne` | xv6-public/vm.c:325-339 | one page of the child is a copy of the parent's, or there were too few free pages and every page taken is back; panics exactly when the parent's page is absent |
| `PageTables.Vm.Copyuvm` | xv6-public/vm.c:316-345 | the child maps a copy of every page below `sz` with the same flags in pages of its own, and the kernel; panics only when a page below `sz` is absent in the parent; otherwise succeeds if and only if 65 pages plus one per page plus one per 1024 pages are free, and on failure every page taken is back on the free list; the parent is untouched |
| `ShellSyntax.LexWords` | xv6-public/sh.c:265-308 | every word token is a maximal run of word characters |
| `ShellSyntax.EndOutside` | xv6-public/sh.c:295-302 | the end of one word is never inside another |
| `ShellSyntax.MeaningWords` | xv6-public/sh.c:195-258 | a command tree holds exactly the words its phrase is written with |
| `ShellOrder.LexSpells` | xv6-public/sh.c:265-308 | the tokens written one after the other are the line without its white space |
| `ShellOrder.MeaningInOrder` | xv6-public/sh.c:344-446 | reading the tree from left to right gives the arguments, the redirections and the connectives in the order in which they are written; `<` opens its word for reading on 0 and `>` and `>>` theirs for writing on 1 |
| `ShellGrammar.LineSound` | xv6-public/sh.c:344-446 | what recursive descent accepts is a phrase of the grammar, and printing it gives the tokens back |
| `ShellGrammar.LineComplete` | xv6-public/sh.c:344-446 | every phrase of the grammar is accepted and read back as itself |
| `ShellGrammar.ParsePrint` | xv6-public/sh.c:344-446 | parsing undoes printing and only printing, so the grammar is unambiguous and accepted in full |
| `Shell.SkipSpace` | xv6-public/sh.c:272-273 | stops at the first character that is not whitespace |
| `Shell.SkipWord` | xv6-public/sh.c:297-298 | stops at the first character that is no word character |
| `Shell.GetToken` | xv6-public/sh.c:266-308 | returns the next token of the line and moves past it, forward whenever there is one |
| `Shell.Peek` | xv6-public/sh.c:311-320 | tells whether the next token starts with one of the symbols, without consuming it |
| `Shell.ParseRedirections` | xv6-public/sh.c:375-397 | wraps the command in exactly the redirections that follow, or fails where the grammar does; the loop ends |
| `Shell.ParseBlock` | xv6-public/sh.c:400-413 | reads a parenthesised line with its redirections |
| `Shell.ParseExecCmd` | xv6-public/sh.c:416-446 | reads a simple command or a block; arguments and redirections may alternate; fails on ten arguments |
| `Shell.ArgStored` | xv6-public/sh.c:436-437 | an argument goes to the simple command, however many redirections already wrap it |
| `Shell.ParsePipeCmd` | xv6-public/sh.c:362-372 | reads a pipeline |
| `Shell.ParseLineCmd` | xv6-public/sh.c:345-359 | reads a line; the recursion ends because each call starts further right or is for a smaller rule |
| `Shell.NulTerminate` | xv6-public/sh.c:450-493 | writes a NUL behind every word of the tree and changes no other character |
| `Shell.StrLen` | xv6-public/sh.c:333 | the length of the line |
| `Shell.TreeWords` | xv6-public/sh.c:328-342 | the words of the tree are the words of the line |
| `Shell.TreeInOrder` | xv6-public/sh.c:328-342 | the tree that parsecmd builds is the line in that sense |
| `Shell.CutStrings` | xv6-public/sh.c:449-493 | no terminator falls inside a word, so each word becomes a string of its own |
| `Shell.ParseCmd` | xv6-public/sh.c:328-342 | accepts a line exactly when it is in the grammar, returns the one command it stands for, with arguments, redirections and connectives in the order of the line, and leaves every argument and file name in the buffer as a string spelled as in the line; a rejected line is left alone |

## Left out

Hypotheses and limits of members of the table:

- CrashSafety.CrashSafe: a block write is atomic and synchronous, as in memide.c; log_write is one step although its size test runs before the lock is taken; logged blocks lie outside the log area; one device.
- LogReservation.LogSpaceSuffices: that each operation keeps to its budget is a hypothesis, because triple-indirect files and large bitmaps do not guarantee it.
- LogReservation.AdmissionIsExact: for operations that have used none of their reservation; begin_op does not know what the others have used, so it may refuse a caller that `LogReservation.BeginSafeIff` would let in.
- LogCode.Log.BeginOp: sleeping and trying again is left to the caller, who calls it again.
- LogCode.Log.Bread: reads through the map of pinned buffers, not through the buffer ring; `BufferCache.DirtyOrDisk` and CommitBuffers make the connection.
- CommitBuffers.Commit: for a commit during which nobody else uses a buffer, with the header's contents given as data, and not for recovery, whose buffers are all clean; how many buffers an operation in progress holds besides the pinned ones is not modelled.
- CommitBuffers.OnePanicOrTheOther: the second case is a state of the log protocol in which every entry pins a buffer; that the operations leading there find enough buffers themselves is not part of it.
- InodeCode.FileSystem.Bmap: index blocks are sequences of block numbers, not their four-byte encoding; the inode lock is held, so other operations do not interleave; log_write and brelse do not appear.
- InodeCode.FileSystem.Balloc: the bitmap is a sequence of byte blocks of its own; the write order within the operation is the log's business.
- InodeCode.FileSystem.Iupdate: copies the block addresses and the size; type, major, minor and nlink are not part of the model.
- FileCode.Readi: regular files only, and files whose blocks below size are all mapped, which `FileCode.Writei` keeps and an inode from ialloc satisfies; the root directory made by mkfs, whose size is rounded up, does not.
- FileCode.Filewrite: what other processes do to the file between two chunks is not modelled; pipes are in Pipe.
- Stride.StrideAgreement: over runs in which no stride process exits and each process asks for a share once, with mathematical integers; the two exceptions are `Stride.ExitAgrees` and `Stride.AdmitAgrees`, with runs that lead to them.
- Scheduler.Scheduler.SetCpuShare: a process that already has a share may call it while the heap has room; with a full heap the code writes beyond the array, which is not modelled. The check that the caller is a manager is not in the code.
- Scheduler.Scheduler.Consider: ends at the switch to the process; that swtch returns with its state changed is left to the process.
- Scheduler.Scheduler.Scan: ends at the first dispatch, since what the process table looks like when swtch returns is not modelled.
- Wheel.WheelShare: the number of tickets does not change during the interval.
- BoostClock.LwpBound: every other CPU takes at most one timer interrupt per tick of CPU 0, since their timers run at one rate, and the number of light-weight processes does not change.
- Semaphore.NoLostWakeup: one address space, an atomic TestAndSet, and the section of Cond_wait from the release of the mutex to sched is one step with respect to Cond_signal's scan, as on one CPU.
- RwLock.NoDeadlock: acquires and releases are matched by each thread.
- Umalloc.Allocator.Malloc: addresses count Header units and do not wrap; sbrk, when it succeeds, returns as many units as morecore wants that nobody else owns, above the static header, which the kernel cannot do from 2 GB on.
- Umalloc.Allocator.Free: for a pointer that malloc returned and that was not freed since.
- BufferCache.Cache.Bget: for devices other than 0, because all buffers start with the key (0, 0).
- BufferCache.Cache.Bread: the case in which the buffer's lock is held is covered by Bget, AcquireSleep and Fill with other calls in between.
- Pipe.NoLostWakeup: no process is killed, and an end is closed only when nobody is inside it, which the file reference counts give since each light-weight process has its own.
- PageTables.Vm.Allocuvm: pages are typed as directories, tables, data or free; the range to be added is not mapped yet, which mappages would panic on; the directory belongs to one process.
- PageTables.Vm.Mappages: for at least one byte and a range that does not wrap around; user pages come with frames that nobody owns yet.
- PageTables.Vm.Deallocuvm: up to KERNBASE, as its callers use it; above, it would free the kernel's own pages.
- PageTables.Vm.Copyuvm: for sizes up to KERNBASE, which allocuvm guarantees.
- PageTables.Vm.Setupkvm: kernel data starts on a page boundary, as kernel.ld arranges.
- Shell.ParseExecCmd: command nodes are values, so the store into the inner command while redirections already wrap it is a function on the tree; malloc succeeds.

Not modelled:

- Boot code, assembly, interrupt controllers, devices and the port I/O of ide.c.
- System call argument fetching, exec and the user-level stubs.
- thread_create, thread_join, fork, wait, kill and the reuse of thread ids and stack slots.
- exit of a process apart from its effect on the heap of passes.
- Directories, path names, link counts, device inodes, ialloc and the inode cache.
- Console editing, printf, mkfs and the user programs other than the parser of sh.c; runcmd.
- pipealloc, filealloc and fileclose; their effect appears as initial states and as the hypothesis on closing.
- The TLB and switching of page directories; loaduvm, inituvm, clearpteu, uva2ka and copyout would only add easy members.
