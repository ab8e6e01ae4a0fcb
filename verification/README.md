# xv6 in Dafny: storage, memory, processes and three user programs

This project models the parts of the xv6 kernel under
`Project1_xv6CustomSystemCalls/xv6-riscv` that carry invariants across many functions, and
three of its user programs, and proves what they promise.

- **Redo log and buffer cache** (`RedoLog`, `BufferCache`, `TransactionLog`,
  `LogAdmission`).  The disk is a sequence of blocks, one block write is one step, and a
  crash keeps only the disk.  Cache, log and disk together are shown to be a plain array
  of blocks whose transactions happen whole or not at all, whatever is evicted and
  wherever the machine stops.  Readers need no transaction: they may ask for, wait for,
  hold and give back any block between any two writes of a commit, and always find the
  logical contents.  Admission to transactions is a state machine over any number of
  processes.
- **File system** (`BlockMap`, `FileSystem`, `WorstWrite`, `Mkfs`, `Links`).  Bitmap, direct
  and indirect blocks, byte-granular reading and writing, the blocks a `filewrite`
  transaction logs and how many they can be, the image that `mkfs` makes, and link counts
  across `link`, `unlink` and `create`.
- **Virtual memory** (`PageTable`, `VirtualMemory`, `UserCopy`, `Sv39`).  Three-level page
  tables as a partial map, with one accounting of every physical page.
- **Processes** (`ExitWait`, `Processes`, `Signals`).  `fork`, `exit`, `wait`, `sleep`,
  `wakeup`, `kill`, `sigcont`, `yield` and the scheduler as interleaved steps of threads and
  CPUs.  `ExitWait` is the protocol under `wait_lock`; `Processes` adds `p->lock` and the CPUs
  and is shown to carry that protocol out; `Signals` is about `sigstop`, which breaks it.
- **Pipes and the disk driver** (`PipeRing`, `PipeSleep`, `VirtioDisk`).
- **User programs** (`Heap` for `umalloc.c`; `ShellSyntax`, `ShellParser`,
  `ShellRoundTrip` for `sh.c`; `Regex`, `GrepFile` for `grep.c`).

`Basics` holds constants and small facts that several of these share.

Operations that change things in place are class methods over fields, checked against
functions and invariants of the whole state; concurrent protocols are step functions with
invariants over every run.  I/O, user memory that faults, `sbrk` and the order of steps are
parameters.  A panic is a result or excluded by a precondition; for those of `log_write` and
`bget` the exact conditions under which the kernel is safe from them are proved.

Where a property that one would expect fails of the code, the exact condition is proved:

- `LogAdmission.FreshWritesSafeIff`: the log `mkfs` makes is one block short for three full
  operations, and `log_write` panics on the last new block.
- `LogAdmission.RewritesSafeIff`: the full-log test comes before absorption, so rewriting a
  block that is already logged can panic in every log that can log anything.
- `TransactionLog.Log.CommitStartsIff` and `LogAdmission.AllBuffersPinnedIff`: NBUF is LOGSIZE,
  so a transaction that fills the log pins every buffer and `bget` panics in `commit`.  A
  larger log only trades the first panic for this one: the log size alone cannot avoid both.
- `Signals.StopKeepsIff`, with `Signals.StopBreaksHandOff` and `Signals.StopMissesExit`: `sigstop`
  writes SLEEPING over any state, so what is proved of every run holds only of runs without
  it, or with it used on the processes named there.
- `Mkfs.OnDiskIff`: `mkfs` never compares its block numbers with the size of the disk.
- `Mkfs.Image.RoundRoot`, with the failing image in `Mkfs.HoleInRoot`: a hole in the root
  directory.
- `PipeSleep.ReadersKeptIff`: a killed writer wakes nobody.
- `Links.CreateNeedsLive` and `Links.LinkNeedsLive`, with `Links.CreateLosesCount`,
  `Links.LinkLosesCount` and inputs in `Links.LostFile` and `Links.LostLink`: creating or linking
  in a removed directory loses a count.
- `VirtioDisk.OwnBlockIff` and `Heap.AskedInFullIff`: 32-bit arithmetic on block numbers and on
  the size given to `sbrk`.

Nothing was executed: every statement is about the model.

`dafny verify dfyconfig.toml` checks the whole project.

## Model

| member | source | states |
|---|---|---|
| `RedoLog.CrashAtomicity` | Project1_xv6CustomSystemCalls/xv6-riscv/kernel/log.c:68-123 | a commit cut off after any number of block writes, then recoveries cut off any number of times, then one that finishes: the log is empty and the home blocks are all old before the header write and all new from it on |
| `RedoLog.RecoveryFinishes` | Project1_xv6CustomSystemCalls/xv6-riscv/kernel/log.c:116-123 | after any interrupted recoveries an uninterrupted one leaves an empty log and the home blocks that the first image meant |
| `RedoLog.CommitCrashMeaning` | Project1_xv6CustomSystemCalls/xv6-riscv/kernel/log.c:178-203 | the contents an interrupted commit stands for, write by write: old up to the last log block, new from the header on |
| `RedoLog.RecoveryCrashMeaning` | Project1_xv6CustomSystemCalls/xv6-riscv/kernel/log.c:68-83 | every image a recovery passes through means the same contents as the one it started from |
| `RedoLog.HeaderWriteCommits` | Project1_xv6CustomSystemCalls/xv6-riscv/kernel/log.c:102-114 | writing the header over the logged blocks changes the meaning from the old contents to the old with the transaction laid over them |
| `RedoLog.LoggingKeepsMeaning` | Project1_xv6CustomSystemCalls/xv6-riscv/kernel/log.c:178-191 | writing log blocks under an empty header changes nothing that the image means |
| `RedoLog.InstallKeepsMeaning` | Project1_xv6CustomSystemCalls/xv6-riscv/kernel/log.c:68-83 | installing any number of logged blocks keeps the log and the meaning |
| `RedoLog.ClearKeepsMeaning` | Project1_xv6CustomSystemCalls/xv6-riscv/kernel/log.c:193-203 | clearing the header after installing keeps the meaning, now in the home blocks themselves |
| `RedoLog.CommitTraceAt` | Project1_xv6CustomSystemCalls/xv6-riscv/kernel/log.c:193-203 | the k-th image of a commit's writes is the state after k + 1 of them, and there are 2n + 2 |
| `RedoLog.HeaderWriteContents` | Project1_xv6CustomSystemCalls/xv6-riscv/kernel/log.c:102-114 | after the header write the image names the transaction's blocks and holds their contents in the log |
| `RedoLog.CommitImageMeaning` | Project1_xv6CustomSystemCalls/xv6-riscv/kernel/log.c:178-203 | every image of a commit is well formed and means the old contents before the header write and the new ones from it on |
| `RedoLog.MeaningOfEmptyLog` | Project1_xv6CustomSystemCalls/xv6-riscv/kernel/log.c:86-97 | under an empty header the home blocks are what the image means |
| `BufferCache.PushFront` | Project1_xv6CustomSystemCalls/xv6-riscv/kernel/bio.c:44-52 | linking a node in after the head makes it the first of the doubly linked list |
| `BufferCache.Unlink` | Project1_xv6CustomSystemCalls/xv6-riscv/kernel/bio.c:126-127 | taking a node out of the list leaves the others linked in the same order |
| `BufferCache.MoveToFrontLinks` | Project1_xv6CustomSystemCalls/xv6-riscv/kernel/bio.c:126-132 | brelse's relinking moves a buffer to the front and keeps the order of the rest |
| `BufferCache.Cache.constructor` | Project1_xv6CustomSystemCalls/xv6-riscv/kernel/bio.c:36-53 | binit: all buffers linked, unused and without contents |
| `BufferCache.Cache.FindCached` | Project1_xv6CustomSystemCalls/xv6-riscv/kernel/bio.c:64-72 | the forward scan finds the buffer of a block exactly when there is one |
| `BufferCache.Cache.FindUnused` | Project1_xv6CustomSystemCalls/xv6-riscv/kernel/bio.c:74-87 | the backward scan finds the least recently released unused buffer, or none exists |
| `BufferCache.Cache.Ref` | Project1_xv6CustomSystemCalls/xv6-riscv/kernel/bio.c:58-89 | bget up to the lock: the cached buffer, or the least recently used free one recycled; the panic exactly when the block is not cached and all buffers are in use |
| `BufferCache.Cache.LockAndFill` | Project1_xv6CustomSystemCalls/xv6-riscv/kernel/bio.c:92-103 | a buffer without contents is filled from the disk, one with contents is left alone |
| `BufferCache.Cache.Bread` | Project1_xv6CustomSystemCalls/xv6-riscv/kernel/bio.c:92-103 | bread returns a locked buffer with the cached contents or the disk's, touching no buffer in use |
| `BufferCache.Cache.Bwrite` | Project1_xv6CustomSystemCalls/xv6-riscv/kernel/bio.c:106-112 | exactly one block of the disk changes, to the buffer's contents |
| `BufferCache.Cache.MoveToFront` | Project1_xv6CustomSystemCalls/xv6-riscv/kernel/bio.c:124-133 | the buffer becomes the most recently released |
| `BufferCache.Cache.Brelse` | Project1_xv6CustomSystemCalls/xv6-riscv/kernel/bio.c:116-137 | one reference less, unlocked, and first in the list when it was the last reference |
| `BufferCache.Cache.Bpin` | Project1_xv6CustomSystemCalls/xv6-riscv/kernel/bio.c:139-144 | a reference that keeps the buffer from being recycled |
| `BufferCache.Cache.Bunpin` | Project1_xv6CustomSystemCalls/xv6-riscv/kernel/bio.c:146-151 | that reference is given up |
| `BufferCache.LookupUnique` | Project1_xv6CustomSystemCalls/xv6-riscv/kernel/bio.c:64-72 | a block of the device is in at most one buffer |
| `TransactionLog.Log.constructor` | Project1_xv6CustomSystemCalls/xv6-riscv/kernel/log.c:54-65 | boot, with blocks already read into the cache: whatever image a crash left, clients then see the contents it means, the log is empty, and the disk went through the images of a recovery |
| `TransactionLog.Log.RecoverFromLog` | Project1_xv6CustomSystemCalls/xv6-riscv/kernel/log.c:116-123 | read, install and clear make exactly the disk writes of the recovery in the crash argument |
| `TransactionLog.Log.Read` | Project1_xv6CustomSystemCalls/xv6-riscv/kernel/bio.c:92-103 | bread returns the last logged value of a home block, whatever was evicted and however far a commit has come |
| `TransactionLog.Log.Modify` | Project1_xv6CustomSystemCalls/xv6-riscv/kernel/fs.c:522-526 | a holder may change a locked buffer without disturbing what others read |
| `TransactionLog.Log.Release` | Project1_xv6CustomSystemCalls/xv6-riscv/kernel/bio.c:116-137 | giving back a buffer whose changes were logged keeps the cache, log and disk in step, also in the middle of a commit |
| `TransactionLog.Log.TakeLock` | Project1_xv6CustomSystemCalls/xv6-riscv/kernel/file.c:120-124 | a reader that waited for a buffer, in or out of a transaction, gets the logical contents, also in the middle of a commit |
| `TransactionLog.Log.Meanwhile` | Project1_xv6CustomSystemCalls/xv6-riscv/kernel/file.c:93-96 | any steps of any number of readers between two writes of a commit change neither the disk nor the logical contents |
| `TransactionLog.Log.BeginOp` | Project1_xv6CustomSystemCalls/xv6-riscv/kernel/log.c:125-142 | nobody is admitted while a commit is going on or when the room is short; whoever is finds room in the log for MAXOPBLOCKS blocks of its own and of every other operation inside |
| `TransactionLog.Log.EndOp` | Project1_xv6CustomSystemCalls/xv6-riscv/kernel/log.c:144-175 | the last operation out commits: the disk writes are those of the crash argument and the home blocks then hold the logical contents; a commit still going on is one whose next write needs a buffer that cannot be had; any other operation changes nothing |
| `TransactionLog.Log.LogWrite` | Project1_xv6CustomSystemCalls/xv6-riscv/kernel/log.c:205-235 | log_write adds the block once, pins it and makes the buffer its logical value; a panic exactly when the log is full, looked at before absorption, or when no operation is outstanding |
| `TransactionLog.Log.Append` | Project1_xv6CustomSystemCalls/xv6-riscv/kernel/log.c:229-233 | a new block enters the header and its buffer is pinned |
| `TransactionLog.Log.WriteLog` | Project1_xv6CustomSystemCalls/xv6-riscv/kernel/log.c:178-191 | with any steps of readers in between, each logged block's contents go to its log block, one disk write each, up to the end or to a round whose buffer is held or cannot be had |
| `TransactionLog.Log.LogRound` | Project1_xv6CustomSystemCalls/xv6-riscv/kernel/log.c:182-190 | one round of write_log: the logical contents of a block reach its log block while readers hold what they like elsewhere |
| `TransactionLog.Log.WriteHead` | Project1_xv6CustomSystemCalls/xv6-riscv/kernel/log.c:99-114 | the header block is written in one disk write, also while readers hold buffers |
| `TransactionLog.Log.ReadHead` | Project1_xv6CustomSystemCalls/xv6-riscv/kernel/log.c:85-97 | the header read back is the one on the disk, and its blocks are those the image means to install |
| `TransactionLog.Log.ParseHeader` | Project1_xv6CustomSystemCalls/xv6-riscv/kernel/log.c:85-97 | the block numbers read from a header block are those it encodes |
| `TransactionLog.Log.FormatHeader` | Project1_xv6CustomSystemCalls/xv6-riscv/kernel/log.c:102-114 | a header block that reads back as the given block numbers |
| `TransactionLog.Log.InstallTrans` | Project1_xv6CustomSystemCalls/xv6-riscv/kernel/log.c:68-83 | with any steps of readers in between, every logged block reaches its home block, in the writes of a recovery, and outside recovery is unpinned; readers are served throughout |
| `TransactionLog.Log.InstallRound` | Project1_xv6CustomSystemCalls/xv6-riscv/kernel/log.c:73-82 | one round of install_trans: the block is home and, unless recovering, unpinned; what clients read does not change |
| `TransactionLog.Log.ClearLog` | Project1_xv6CustomSystemCalls/xv6-riscv/kernel/log.c:116-123 | the transaction is forgotten and the header cleared, or exactly its buffer cannot be had |
| `TransactionLog.Log.LogAndMark` | Project1_xv6CustomSystemCalls/xv6-riscv/kernel/log.c:193-198 | log blocks then header, as the crash argument needs them, with any steps of readers in between; it stops before the end only where the buffer of the next write cannot be had |
| `TransactionLog.Log.Commit` | Project1_xv6CustomSystemCalls/xv6-riscv/kernel/log.c:193-203 | with any steps of readers in between, commit makes exactly the disk writes of the crash argument, or a first part of them when the buffer of the next one cannot be had, and at the end leaves the logical contents in the home blocks and nothing pinned; without readers it ends |
| `TransactionLog.Log.CommitStartsIff` | Project1_xv6CustomSystemCalls/xv6-riscv/kernel/bio.c:74-89 | with nobody else at it, commit gets its first buffer if and only if the transaction has fewer than NBUF blocks; otherwise bget panics |
| `TransactionLog.FreeIff` | Project1_xv6CustomSystemCalls/xv6-riscv/kernel/bio.c:74-89 | a buffer is unpinned if and only if fewer blocks than buffers are logged |
| `TransactionLog.RebootSeesAllOrNothing` | Project1_xv6CustomSystemCalls/xv6-riscv/kernel/log.c:116-123 | for every write after which the machine goes down during commit, the next boot shows the contents before the transaction or all of it |
| `TransactionLog.Log.ReadIsLogical` | Project1_xv6CustomSystemCalls/xv6-riscv/kernel/log.c:205-213 | at any moment, also between two writes of a commit: a block not yet installed is found pinned in the cache, any other is right on the disk |
| `TransactionLog.InstallPins` | Project1_xv6CustomSystemCalls/xv6-riscv/kernel/log.c:78-79 | unpinning an installed block drops exactly its pin |
| `LogAdmission.StepKeepsInv` | Project1_xv6CustomSystemCalls/xv6-riscv/kernel/log.c:125-175 | every step of begin_op, log_write, end_op and commit, by any process, keeps the invariant |
| `LogAdmission.RunKeepsInv` | Project1_xv6CustomSystemCalls/xv6-riscv/kernel/log.c:125-175 | and so does every run |
| `LogAdmission.LogSpaceHolds` | Project1_xv6CustomSystemCalls/xv6-riscv/kernel/log.c:126-142 | in every reachable state the logged blocks and all unused reservations fit in LOGSIZE, and the log is empty when nobody is inside |
| `LogAdmission.SleepersHaveAWaker` | Project1_xv6CustomSystemCalls/xv6-riscv/kernel/log.c:130-135 | a process asleep in begin_op would still have to wait, and somebody inside will wake it |
| `LogAdmission.EndsWakeEveryone` | Project1_xv6CustomSystemCalls/xv6-riscv/kernel/log.c:145-175 | an end_op that is not the last, and the end of a commit, leave nobody asleep |
| `LogAdmission.InsideMeansNoCommit` | Project1_xv6CustomSystemCalls/xv6-riscv/kernel/log.c:149-153 | no operation is running while a commit is |
| `LogAdmission.FreshWritesSafeIff` | Project1_xv6CustomSystemCalls/xv6-riscv/kernel/log.c:219-221 | log_write never panics on a new block within budget if and only if the log is larger than LOGSIZE; mkfs makes it LOGSIZE |
| `LogAdmission.RewritesSafeIff` | Project1_xv6CustomSystemCalls/xv6-riscv/kernel/log.c:219-228 | log_write never panics on rewriting a block that the operation logged itself if and only if the log has no room for any block at all |
| `LogAdmission.AllBuffersPinnedIff` | Project1_xv6CustomSystemCalls/xv6-riscv/kernel/param.h:9-11 | all buffers can be pinned by one transaction if and only if the log is large enough for new blocks never to panic: no log size avoids both panics |
| `BlockMap.HeldOnce` | Project1_xv6CustomSystemCalls/xv6-riscv/kernel/fs.c:65-105 | a bitmap bit is set exactly for metadata and for blocks some slot holds, and no block is held by two slots |
| `BlockMap.LoadSaved` | Project1_xv6CustomSystemCalls/xv6-riscv/kernel/fs.c:407-413 | a block number stored in an indirect block reads back |
| `BlockMap.EntryOfWithEntry` | Project1_xv6CustomSystemCalls/xv6-riscv/kernel/fs.c:407-413 | storing one entry of an indirect block changes that entry alone |
| `BlockMap.TakeOwned` | Project1_xv6CustomSystemCalls/xv6-riscv/kernel/fs.c:65-88 | a block handed out by balloc is owned by nobody else |
| `BlockMap.RecordDirectOwned` | Project1_xv6CustomSystemCalls/xv6-riscv/kernel/fs.c:386-395 | recording it in a direct slot gives it that one owner |
| `BlockMap.RecordEntryOwned` | Project1_xv6CustomSystemCalls/xv6-riscv/kernel/fs.c:397-417 | recording it in an entry of the indirect block gives it that one owner |
| `BlockMap.StoreOwned` | Project1_xv6CustomSystemCalls/xv6-riscv/kernel/fs.c:505-539 | writing data blocks moves no ownership |
| `BlockMap.FreeDirectOwned` | Project1_xv6CustomSystemCalls/xv6-riscv/kernel/fs.c:432-437 | freeing a direct block releases exactly that block |
| `BlockMap.FreeIndirectOwned` | Project1_xv6CustomSystemCalls/xv6-riscv/kernel/fs.c:439-449 | freeing the indirect block releases it and all its entries |
| `FileSystem.Volume.Balloc` | Project1_xv6CustomSystemCalls/xv6-riscv/kernel/fs.c:65-88 | the first free block, zeroed and marked, logging its bitmap block and itself; 0 exactly when none is free |
| `FileSystem.Volume.Bfree` | Project1_xv6CustomSystemCalls/xv6-riscv/kernel/fs.c:90-105 | one bit cleared; the caller never meets a free block |
| `FileSystem.Volume.Bmap` | Project1_xv6CustomSystemCalls/xv6-riscv/kernel/fs.c:382-421 | the block of any file index, allocated with its indirect block if missing: no contents change, no slot moves, ownership holds even when space runs out half way, and exactly the new blocks, their bitmap blocks and a changed indirect block are logged |
| `FileSystem.Volume.Itrunc` | Project1_xv6CustomSystemCalls/xv6-riscv/kernel/fs.c:423-453 | every block of the file and no other returns to the bitmap; other files keep their contents, and no hole appears |
| `FileSystem.Volume.FreeDirectBlocks` | Project1_xv6CustomSystemCalls/xv6-riscv/kernel/fs.c:432-437 | the loop over direct blocks frees each of them once |
| `FileSystem.Volume.FreeIndirectBlocks` | Project1_xv6CustomSystemCalls/xv6-riscv/kernel/fs.c:439-449 | the indirect block's entries and the block itself are freed |
| `FileSystem.Volume.WriteRound` | Project1_xv6CustomSystemCalls/xv6-riscv/kernel/fs.c:517-530 | one turn of writei: at most one block's worth of bytes, its block allocated if needed; a fetch that breaks off leaves its first bytes in the block, which is then not logged |
| `FileSystem.Volume.WriteLoop` | Project1_xv6CustomSystemCalls/xv6-riscv/kernel/fs.c:517-530 | the loop of writei splices in a first part of the data, logs exactly what those rounds log, and charges two blocks a round, one less for an unaligned start |
| `FileSystem.Volume.Writei` | Project1_xv6CustomSystemCalls/xv6-riscv/kernel/fs.c:498-539 | the first r bytes are spliced in at off and the size grows to cover them; -1 exactly past the end or past the largest file; short only on a fault, inside a block or between two, or a full disk; no other file changes and no holes appear; the blocks logged are exactly the data blocks written, the new blocks, their bitmap blocks, a changed indirect block and the inode block |
| `FileSystem.Volume.Readi` | Project1_xv6CustomSystemCalls/xv6-riscv/kernel/fs.c:467-496 | exactly the file's bytes from off, clipped to the size, across the direct and indirect boundary; 0 past the end and on 32-bit wrap-around, -1 on a fault |
| `FileSystem.WroteSplices` | Project1_xv6CustomSystemCalls/xv6-riscv/kernel/fs.c:505-539 | writing blocks and setting the size is splicing the byte sequence, and leaves other files' bytes |
| `FileSystem.ExtendNoHoles` | Project1_xv6CustomSystemCalls/xv6-riscv/kernel/fs.c:511-514 | a write that starts no further than the end leaves every block below the size present |
| `FileSystem.ChunkFits` | Project1_xv6CustomSystemCalls/xv6-riscv/kernel/file.c:149-158 | what a chunk of the size filewrite uses is charged for its data, indirect and inode blocks is at most MAXOPBLOCKS, for every offset |
| `WorstWrite.TenBlocks` | Project1_xv6CustomSystemCalls/xv6-riscv/kernel/file.c:149-166 | on a disk whose blocks are all accounted for and whose file has no holes, a chunk of filewrite logs exactly ten different blocks, so the bound is reached |
| `WorstWrite.TenLogged` | Project1_xv6CustomSystemCalls/xv6-riscv/kernel/fs.c:382-421 | which ten: four data blocks, the indirect block, four bitmap blocks and the inode block |
| `WorstWrite.NotShort` | Project1_xv6CustomSystemCalls/xv6-riscv/kernel/fs.c:65-88 | that write cannot run out of blocks |
| `FileSystem.LoggedSize` | Project1_xv6CustomSystemCalls/xv6-riscv/kernel/fs.c:382-421 | data blocks with their bitmap blocks, the indirect block with its own, and the inode block are all that is logged |
| `FileSystem.Volume.WriteChunk` | Project1_xv6CustomSystemCalls/xv6-riscv/kernel/file.c:160-166 | one transaction of filewrite stays within MAXOPBLOCKS, logs exactly what writei logs and splices what writei returns |
| `FileSystem.Volume.FileWrite` | Project1_xv6CustomSystemCalls/xv6-riscv/kernel/file.c:134-181 | every transaction of a write of any length stays within MAXOPBLOCKS; the bytes reported written are spliced in at the file offset, bytes beyond them change only up to where a fetch broke off, and the result is the length or -1 |
| `FileSystem.TruncatedBitmap` | Project1_xv6CustomSystemCalls/xv6-riscv/kernel/fs.c:423-453 | the bits cleared by truncation are those of the file's own blocks |
| `Mkfs.Image.constructor` | Project1_xv6CustomSystemCalls/xv6-riscv/mkfs/mkfs.c:97-115 | the empty image: no file, and the first free block after the metadata |
| `Mkfs.Image.Ialloc` | Project1_xv6CustomSystemCalls/xv6-riscv/mkfs/mkfs.c:222-234 | a new inode is an empty file |
| `Mkfs.Image.BlockFor` | Project1_xv6CustomSystemCalls/xv6-riscv/mkfs/mkfs.c:267-284 | the block of a file index, taken from the free ones if missing, without changing any contents |
| `Mkfs.Image.Iappend` | Project1_xv6CustomSystemCalls/xv6-riscv/mkfs/mkfs.c:252-296 | the bytes go to the end of the file, no other file changes, ownership and absence of holes are kept |
| `Mkfs.Image.Bitmap` | Project1_xv6CustomSystemCalls/xv6-riscv/mkfs/mkfs.c:236-250 | the bitmap written last marks exactly the blocks in use, whatever the root directory looks like, so a new file system starts with ownership in order |
| `Mkfs.Image.Finish` | Project1_xv6CustomSystemCalls/xv6-riscv/mkfs/mkfs.c:165-172 | rounding the root and writing the bitmap, in that order: ownership is in order, and there is a hole if and only if the root's entries filled their last block |
| `Mkfs.OnDiskIff` | Project1_xv6CustomSystemCalls/xv6-riscv/mkfs/mkfs.c:252-296 | the image is a file system on the first blocks of the disk if and only if no more than those were handed out, which iappend does not look at |
| `Mkfs.RootRounding` | Project1_xv6CustomSystemCalls/xv6-riscv/mkfs/mkfs.c:165-172 | rounding a directory's size up leaves no hole if and only if its entries do not fill their last block |
| `Mkfs.Image.RoundRoot` | Project1_xv6CustomSystemCalls/xv6-riscv/mkfs/mkfs.c:165-172 | on any image mkfs built: every block stays in its place, and there is no hole if and only if the root's entries did not fill their last block |
| `Mkfs.HoleInRoot` | Project1_xv6CustomSystemCalls/xv6-riscv/mkfs/mkfs.c:129-172 | an image built with 64 names in the root directory, on a disk of any size: the rounded directory has a hole |
| `Mkfs.NoneBeyondAppended` | Project1_xv6CustomSystemCalls/xv6-riscv/mkfs/mkfs.c:267-296 | appending takes no block past the new size |
| `PageTable.NodeUnique` | Project1_xv6CustomSystemCalls/xv6-riscv/kernel/vm.c:85-103 | a page-table page is reached from one place only |
| `PageTable.LeafChange` | Project1_xv6CustomSystemCalls/xv6-riscv/kernel/vm.c:85-103 | writing one leaf PTE changes that translation and no other PTE of any table |
| `PageTable.MapLeaf` | Project1_xv6CustomSystemCalls/xv6-riscv/kernel/vm.c:159-169 | mapping a frame nobody owns gives it one owner and keeps the accounting of pages |
| `PageTable.UnmapLeaf` | Project1_xv6CustomSystemCalls/xv6-riscv/kernel/vm.c:186-198 | clearing a leaf, and freeing its frame, keeps the accounting |
| `PageTable.LinkOwned` | Project1_xv6CustomSystemCalls/xv6-riscv/kernel/vm.c:92-100 | a new page-table page belongs to the PTE that points to it |
| `PageTable.DropOwned` | Project1_xv6CustomSystemCalls/xv6-riscv/kernel/vm.c:278-294 | freeing an empty child page and clearing its PTE keeps the accounting |
| `PageTable.DropRootOwned` | Project1_xv6CustomSystemCalls/xv6-riscv/kernel/vm.c:278-294 | freeing the root leaves nothing that belonged to the table |
| `VirtualMemory.Memory.constructor` | Project1_xv6CustomSystemCalls/xv6-riscv/kernel/kalloc.c:26-40 | kinit: every allocatable page is free, once |
| `VirtualMemory.Memory.Kalloc` | Project1_xv6CustomSystemCalls/xv6-riscv/kernel/kalloc.c:65-82 | the first free page becomes a frame nobody has mapped; fails exactly when none is free |
| `VirtualMemory.Memory.Kfree` | Project1_xv6CustomSystemCalls/xv6-riscv/kernel/kalloc.c:42-63 | the frame returns to the free list |
| `VirtualMemory.Memory.Walk` | Project1_xv6CustomSystemCalls/xv6-riscv/kernel/vm.c:85-103 | walk finds the leaf PTE and changes no translation of any table; without alloc it changes nothing and fails exactly when a page-table page is missing; with alloc it fails only when no page is free |
| `VirtualMemory.Memory.MapPage` | Project1_xv6CustomSystemCalls/xv6-riscv/kernel/vm.c:159-169 | one page of mappages: that translation and no other, or none when pages run out |
| `VirtualMemory.Memory.MapPages` | Project1_xv6CustomSystemCalls/xv6-riscv/kernel/vm.c:138-172 | any range, of a user table or of the kernel's, maps to frames in a row and nothing else changes; when pages run out a first part of it is mapped |
| `VirtualMemory.Memory.UnmapPage` | Project1_xv6CustomSystemCalls/xv6-riscv/kernel/vm.c:186-198 | one page of uvmunmap: that translation goes and its frame is freed |
| `VirtualMemory.Memory.UvmUnmap` | Project1_xv6CustomSystemCalls/xv6-riscv/kernel/vm.c:174-199 | exactly the range is unmapped and exactly its frames are freed |
| `VirtualMemory.Memory.AddPage` | Project1_xv6CustomSystemCalls/xv6-riscv/kernel/vm.c:240-253 | a round of uvmalloc or uvmcopy: a frame of its own with the given contents, or everything given back |
| `VirtualMemory.Memory.UvmAlloc` | Project1_xv6CustomSystemCalls/xv6-riscv/kernel/vm.c:230-256 | success maps a zeroed frame of its own at every new page; failure restores every translation and every frame |
| `VirtualMemory.Memory.UvmDealloc` | Project1_xv6CustomSystemCalls/xv6-riscv/kernel/vm.c:258-274 | the pages above the new size go with their frames; a larger size changes nothing |
| `VirtualMemory.Memory.UvmCopy` | Project1_xv6CustomSystemCalls/xv6-riscv/kernel/vm.c:306-340 | success gives the child equal flags and bytes in frames the parent does not have; failure leaves every translation and frame as before |
| `VirtualMemory.Memory.UvmCreate` | Project1_xv6CustomSystemCalls/xv6-riscv/kernel/vm.c:202-212 | a new table on a page of its own maps nothing; fails exactly when no page is free |
| `VirtualMemory.Memory.FreeWalk` | Project1_xv6CustomSystemCalls/xv6-riscv/kernel/vm.c:276-294 | a table without leaves gives back all its pages; other tables keep their translations |
| `VirtualMemory.Memory.UvmFree` | Project1_xv6CustomSystemCalls/xv6-riscv/kernel/vm.c:296-304 | every frame and page-table page the table owned is free afterwards, and nothing else changed |
| `VirtualMemory.Undone` | Project1_xv6CustomSystemCalls/xv6-riscv/kernel/vm.c:241-253 | unmapping what a failed growth added restores the mapping and the frames |
| `VirtualMemory.AllReturned` | Project1_xv6CustomSystemCalls/xv6-riscv/kernel/vm.c:296-304 | conservation: what a table owned is on the free list once it owns nothing |
| `Sv39.WordRoundTrip` | Project1_xv6CustomSystemCalls/xv6-riscv/kernel/riscv.h:366-371 | a page address and its permission bits, stored in a PTE word, read back, for every 56-bit page-aligned address |
| `Sv39.PxIsIndex` | Project1_xv6CustomSystemCalls/xv6-riscv/kernel/riscv.h:373-376 | shifting and masking an address bit by bit gives the entry index of the table model, at all three levels |
| `Sv39.PxInjective` | Project1_xv6CustomSystemCalls/xv6-riscv/kernel/riscv.h:373-382 | below MAXVA two addresses with the same three indices are in the same page |
| `UserCopy.Copyout` | Project1_xv6CustomSystemCalls/xv6-riscv/kernel/vm.c:355-383 | succeeds exactly when every destination page is mapped, writable and the user's; the bytes before the first bad page are written even so, and no other byte of any address space changes, nor any frame outside the written pages |
| `UserCopy.Copyin` | Project1_xv6CustomSystemCalls/xv6-riscv/kernel/vm.c:385-408 | succeeds exactly when every source page is the user's, and returns its bytes |
| `UserCopy.CopyinAfterCopyout` | Project1_xv6CustomSystemCalls/xv6-riscv/kernel/vm.c:355-408 | what a successful copyout stored can be read, and copyin of any first part of it returns the same bytes |
| `UserCopy.Copyinstr` | Project1_xv6CustomSystemCalls/xv6-riscv/kernel/vm.c:410-451 | succeeds exactly when there is a NUL within max bytes on readable pages, and returns the string through the first |
| `UserCopy.CopyToNul` | Project1_xv6CustomSystemCalls/xv6-riscv/kernel/vm.c:429-441 | the inner loop copies up to and including the first NUL |
| `UserCopy.PokedBytes` | Project1_xv6CustomSystemCalls/xv6-riscv/kernel/vm.c:376 | a store through one table is seen at that address of that table only |
| `UserCopy.ForkSharesNothing` | Project1_xv6CustomSystemCalls/xv6-riscv/kernel/vm.c:306-340 | after uvmcopy the child reads what the parent reads, and no later copyout to the child is seen by the parent |
| `ExitWait.StepKeepsInv` | Project1_xv6CustomSystemCalls/xv6-riscv/kernel/proc.c:372-479 | every step of exit, wait, reparent and fork's linking, in any interleaving, keeps the protocol's invariant |
| `ExitWait.RoleStep` | Project1_xv6CustomSystemCalls/xv6-riscv/kernel/proc.c:432-479 | what a thread owes the protocol when it moves on with or without wait_lock |
| `ExitWait.GiveChild` | Project1_xv6CustomSystemCalls/xv6-riscv/kernel/proc.c:374-385 | handing a child, dead or alive, to init keeps the invariant although init may be asleep |
| `ExitWait.DieKeeps` | Project1_xv6CustomSystemCalls/xv6-riscv/kernel/proc.c:414-423 | becoming ZOMBIE after the wakeup of the parent misses nobody, because the parent cannot go back to sleep without wait_lock |
| `ExitWait.ScanKeeps` | Project1_xv6CustomSystemCalls/xv6-riscv/kernel/proc.c:444-469 | wait's scan reaps at most one zombie child and otherwise has seen none among those it passed |
| `ExitWait.SleepAgainIff` | Project1_xv6CustomSystemCalls/xv6-riscv/kernel/proc.c:803-817 | a process doing nothing may be put to sleep in wait if and only if no child of its has died or is past waking it |
| `Processes.StepKeeps` | Project1_xv6CustomSystemCalls/xv6-riscv/kernel/proc.c:323-479 | every step of the system with its p->locks, CPUs and sleeps is a step of that protocol or none of it |
| `Processes.WokenIs` | Project1_xv6CustomSystemCalls/xv6-riscv/kernel/proc.c:622-636 | wakeup on a process's address makes exactly a process asleep in wait runnable |
| `Processes.StepKeepsInv` | Project1_xv6CustomSystemCalls/xv6-riscv/kernel/proc.c:488-660 | every step keeps states, locks, CPUs and protocol in order, kill and sigcont of any slot among them |
| `Processes.RunKeepsInv` | Project1_xv6CustomSystemCalls/xv6-riscv/kernel/proc.c:488-660 | and so does every run |
| `Processes.InitialInv` | Project1_xv6CustomSystemCalls/xv6-riscv/kernel/proc.c:276-299 | the system starts in order, with init alone |
| `Processes.NoMissedExit` | Project1_xv6CustomSystemCalls/xv6-riscv/kernel/proc.c:432-479 | in every reachable state with wait_lock free, no process is asleep in wait while it has a ZOMBIE child |
| `Processes.ParentsAlive` | Project1_xv6CustomSystemCalls/xv6-riscv/kernel/proc.c:372-430 | every recorded parent is neither ZOMBIE nor UNUSED |
| `Processes.NoChildrenIsTrue` | Project1_xv6CustomSystemCalls/xv6-riscv/kernel/proc.c:470-474 | wait reports no children only when there are none |
| `Processes.ReapedOnce` | Project1_xv6CustomSystemCalls/xv6-riscv/kernel/proc.c:450-463 | no process is reaped twice, nor while it has a slot |
| `Processes.HandOff` | Project1_xv6CustomSystemCalls/xv6-riscv/kernel/proc.c:488-563 | while p->lock is free, p is RUNNING exactly when some CPU has it as current, and then one CPU only |
| `Processes.SchedDoesNotPanic` | Project1_xv6CustomSystemCalls/xv6-riscv/kernel/proc.c:534-552 | sched's caller always holds p->lock, not wait_lock, and is not RUNNING |
| `Processes.DispatchIsSafe` | Project1_xv6CustomSystemCalls/xv6-riscv/kernel/proc.c:501-515 | what the scheduler finds RUNNABLE is off every CPU and has somewhere to go on |
| `Processes.WaitLockProgress` | Project1_xv6CustomSystemCalls/xv6-riscv/kernel/proc.c:388-479 | the holder of wait_lock can step, or the lock it needs is held by a thread or CPU that can step unconditionally |
| `Signals.StopKeepsIff` | Project1_xv6CustomSystemCalls/xv6-riscv/kernel/proc.c:803-817 | sigstop keeps the invariant if and only if its target sleeps already, or was woken and has not run since, in wait only without news from a child |
| `Signals.StopBreaksHandOff` | Project1_xv6CustomSystemCalls/xv6-riscv/kernel/proc.c:803-817 | in every reachable state, stopping a RUNNING process leaves it current on a CPU and not RUNNING |
| `Signals.StopMissesExit` | Project1_xv6CustomSystemCalls/xv6-riscv/kernel/proc.c:803-817 | in every reachable state, stopping a process that its child woke in wait leaves it asleep with a ZOMBIE child and wait_lock free |
| `Signals.RunningReached` | Project1_xv6CustomSystemCalls/xv6-riscv/kernel/proc.c:488-518 | a run to a state in which a RUNNING process can be stopped |
| `Heap.Arena.constructor` | Project1_xv6CustomSystemCalls/xv6-riscv/user/umalloc.c:21-22 | the heap before the first call |
| `Heap.Arena.FindSlot` | Project1_xv6CustomSystemCalls/xv6-riscv/user/umalloc.c:29-32 | free's loop ends, at the free block after which the block belongs |
| `Heap.Arena.Link` | Project1_xv6CustomSystemCalls/xv6-riscv/user/umalloc.c:33-42 | the block joins the cycle, merged with the neighbours it touches |
| `Heap.Arena.Free` | Project1_xv6CustomSystemCalls/xv6-riscv/user/umalloc.c:24-44 | the block goes, no live block is touched, and the free blocks are again one ascending cycle without two that touch |
| `Heap.Arena.Morecore` | Project1_xv6CustomSystemCalls/xv6-riscv/user/umalloc.c:46-61 | at least 4096 new units become free, and some free block is then large enough |
| `Heap.Arena.Take` | Project1_xv6CustomSystemCalls/xv6-riscv/user/umalloc.c:75-84 | a whole block or the tail of a larger one is handed out |
| `Heap.Arena.Search` | Project1_xv6CustomSystemCalls/xv6-riscv/user/umalloc.c:74-89 | the search ends, and takes a block, asks sbrk once when none fits, fails because sbrk did, or finds that sbrk cannot be asked for so much |
| `Heap.Arena.Malloc` | Project1_xv6CustomSystemCalls/xv6-riscv/user/umalloc.c:63-90 | enough units for the bytes and a header, disjoint from every live block and touching none; null only when no free block fits and sbrk refuses; sbrk gives less than the block will claim exactly for requests beyond 2^31 - 32 bytes that no free block fits |
| `Heap.AskedInFullIff` | Project1_xv6CustomSystemCalls/xv6-riscv/user/umalloc.c:52-54 | sbrk is asked for what the new block claims if and only if the request is at most 2^31 - 32 bytes; a larger one asks for next to nothing or less |
| `Heap.Arena.Store` | Project1_xv6CustomSystemCalls/xv6-riscv/user/umalloc.c:84 | the program may write anything into the units it was given |
| `Heap.OneCycle` | Project1_xv6CustomSystemCalls/xv6-riscv/user/umalloc.c:24-44 | following the links from base reaches every free block through ever higher addresses |
| `Heap.Conserved` | Project1_xv6CustomSystemCalls/xv6-riscv/user/umalloc.c:46-61 | the sizes in the free blocks' headers and in the live blocks' headers add up to all that sbrk gave |
| `Heap.CountTotal` | Project1_xv6CustomSystemCalls/xv6-riscv/user/umalloc.c:24-90 | the units that belong to a set of blocks are as many as their headers say |
| `Heap.Disjoint` | Project1_xv6CustomSystemCalls/xv6-riscv/user/umalloc.c:24-90 | no two blocks, free or live, overlap |
| `Heap.InsertAlone` | Project1_xv6CustomSystemCalls/xv6-riscv/user/umalloc.c:36-42 | inserting between neighbours that do not touch |
| `Heap.AbsorbRight` | Project1_xv6CustomSystemCalls/xv6-riscv/user/umalloc.c:33-35 | merging with the right neighbour |
| `Heap.AbsorbLeft` | Project1_xv6CustomSystemCalls/xv6-riscv/user/umalloc.c:38-40 | merging with the left neighbour |
| `Heap.TakeTail` | Project1_xv6CustomSystemCalls/xv6-riscv/user/umalloc.c:78-82 | splitting a larger block |
| `Links.FileTree.constructor` | Project1_xv6CustomSystemCalls/xv6-riscv/mkfs/mkfs.c:117-128 | the root directory alone, its own parent, with the right count |
| `Links.FileTree.DirLookup` | Project1_xv6CustomSystemCalls/xv6-riscv/kernel/fs.c:549-575 | the slot of a name under comparison of the first 14 characters, or its absence |
| `Links.FileTree.DirLink` | Project1_xv6CustomSystemCalls/xv6-riscv/kernel/fs.c:577-606 | succeeds exactly when the name is new and there is a free slot or room for one more; the entry goes into the first free slot |
| `Links.FileTree.LinkStart` | Project1_xv6CustomSystemCalls/xv6-riscv/kernel/sysfile.c:138-147 | a directory is refused; anything else is counted before its entry exists |
| `Links.FileTree.LinkFinish` | Project1_xv6CustomSystemCalls/xv6-riscv/kernel/sysfile.c:149-169 | whatever happened in between, the entry is made exactly when the directory was found, the name is new and there is a slot, and otherwise the count goes back; all is right afterwards unless the entry went into a removed directory |
| `Links.FileTree.IsDirEmpty` | Project1_xv6CustomSystemCalls/xv6-riscv/kernel/sysfile.c:172-186 | true exactly when only the first two slots are in use |
| `Links.FileTree.Unlink` | Project1_xv6CustomSystemCalls/xv6-riscv/kernel/sysfile.c:188-243 | succeeds exactly for a name that is there, other than . and .., of a file or an empty directory; the name goes and the count follows, for a directory with one count of its parent; no panic |
| `Links.FileTree.Create` | Project1_xv6CustomSystemCalls/xv6-riscv/kernel/sysfile.c:245-302 | a name that is there gives the file or device when a file was asked for and fails otherwise; a new name gives a new inode with its entry and counts exactly when there is an inode and room for every entry; a failure leaves nothing behind; all is right afterwards unless the directory had been removed |
| `Links.FileTree.Reclaim` | Project1_xv6CustomSystemCalls/xv6-riscv/kernel/fs.c:336-362 | freeing an inode without links keeps all counts right |
| `Links.EmptyCountedOnce` | Project1_xv6CustomSystemCalls/xv6-riscv/kernel/sysfile.c:217-233 | an empty directory is named once and counted once, so removal brings it to zero |
| `Links.CreateNeedsLive` | Project1_xv6CustomSystemCalls/xv6-riscv/kernel/sysfile.c:251-302 | create keeps the counts and the tree right if and only if its directory has not been removed |
| `Links.CreateLosesCount` | Project1_xv6CustomSystemCalls/xv6-riscv/kernel/sysfile.c:265-300 | in every removed directory, what create made has count 1 and no name once the directory is freed |
| `Links.LostFile` | Project1_xv6CustomSystemCalls/xv6-riscv/kernel/sysfile.c:251-302 | a file made in a removed directory keeps count 1 with no entry left |
| `Links.LinkNeedsLive` | Project1_xv6CustomSystemCalls/xv6-riscv/kernel/sysfile.c:149-156 | sys_link keeps the counts and the tree right if and only if the directory of the new name has not been removed |
| `Links.LinkLosesCount` | Project1_xv6CustomSystemCalls/xv6-riscv/kernel/sysfile.c:149-156 | in every removed directory, what sys_link named has one count too many once the directory is freed |
| `Links.LostLink` | Project1_xv6CustomSystemCalls/xv6-riscv/kernel/sysfile.c:149-156 | a file linked in a removed directory, reached by create and unlink, ends with count 2 and one name |
| `ShellParser.Cursor.GetToken` | Project1_xv6CustomSystemCalls/xv6-riscv/user/sh.c:266-309 | the token at the cursor and where the next one starts |
| `ShellParser.Cursor.Peek` | Project1_xv6CustomSystemCalls/xv6-riscv/user/sh.c:311-321 | whether the next character is one of the given, with blanks skipped |
| `ShellParser.Cursor.ParseRedirs` | Project1_xv6CustomSystemCalls/xv6-riscv/user/sh.c:375-398 | all redirections at the cursor, or the panic |
| `ShellParser.Cursor.ParseExec` | Project1_xv6CustomSystemCalls/xv6-riscv/user/sh.c:416-447 | a simple command with at most nine arguments, or a block, or the panic |
| `ShellParser.Cursor.ParseBlock` | Project1_xv6CustomSystemCalls/xv6-riscv/user/sh.c:400-414 | a parenthesised line with redirections, or the panic |
| `ShellParser.Cursor.ParsePipe` | Project1_xv6CustomSystemCalls/xv6-riscv/user/sh.c:362-373 | right-nested pipelines |
| `ShellParser.Cursor.ParseLine` | Project1_xv6CustomSystemCalls/xv6-riscv/user/sh.c:345-360 | background marks, then the rest of the list |
| `ShellParser.Cursor.ParseCmd` | Project1_xv6CustomSystemCalls/xv6-riscv/user/sh.c:328-343 | parsing ends on every line, with the tree of the whole line or the panic |
| `ShellParser.NulTerminate` | Project1_xv6CustomSystemCalls/xv6-riscv/user/sh.c:449-494 | exactly the ends of the tree's words become NULs |
| `ShellParser.WordsCutOut` | Project1_xv6CustomSystemCalls/xv6-riscv/user/sh.c:449-494 | after that the string at every word is that word: no write falls inside another |
| `ShellSyntax.Command` | Project1_xv6CustomSystemCalls/xv6-riscv/user/sh.c:328-343 | every word of the tree is a whole word of the line, and the line is used up |
| `ShellRoundTrip.LexAt` | Project1_xv6CustomSystemCalls/xv6-riscv/user/sh.c:266-309 | gettoken at a printed token returns it and goes on to the next |
| `ShellRoundTrip.ReadExec` | Project1_xv6CustomSystemCalls/xv6-riscv/user/sh.c:416-447 | a printed simple or parenthesised command is read back with its redirections |
| `ShellRoundTrip.ReadLine` | Project1_xv6CustomSystemCalls/xv6-riscv/user/sh.c:345-360 | a printed line is read back |
| `ShellRoundTrip.RoundTrip` | Project1_xv6CustomSystemCalls/xv6-riscv/user/sh.c:328-447 | printing any command of at most nine arguments each and parsing the text gives the same command |
| `Regex.MatchHere` | Project1_xv6CustomSystemCalls/xv6-riscv/user/grep.c:84-96 | true exactly when a prefix of the text, all of it for a final $, is in the pattern's language |
| `Regex.MatchStar` | Project1_xv6CustomSystemCalls/xv6-riscv/user/grep.c:98-106 | true exactly when some number of repetitions lets the rest match |
| `Regex.Match` | Project1_xv6CustomSystemCalls/xv6-riscv/user/grep.c:72-82 | true exactly when some substring is in the pattern's language, a prefix for ^ |
| `Regex.LanguageFirst` | Project1_xv6CustomSystemCalls/xv6-riscv/user/grep.c:84-106 | membership in the language, item by item from the left |
| `GrepFile.Grep` | Project1_xv6CustomSystemCalls/xv6-riscv/user/grep.c:11-35 | whatever sizes read returns, grep prints exactly the matching newline-ended lines in order, up to the first line that does not fit its buffer or has a NUL in it |
| `GrepFile.FittingLines` | Project1_xv6CustomSystemCalls/xv6-riscv/user/grep.c:11-35 | when no line is longer than 1022 characters and there is no NUL that is all of them |
| `GrepFile.WholeLines` | Project1_xv6CustomSystemCalls/xv6-riscv/user/grep.c:21-29 | the inner loop prints the matching whole lines in the buffer and leaves the rest |
| `PipeRing.Ring.Full` | Project1_xv6CustomSystemCalls/xv6-riscv/kernel/pipe.c:88 | the comparison of wrapping counters tells a full ring |
| `PipeRing.Ring.Empty` | Project1_xv6CustomSystemCalls/xv6-riscv/kernel/pipe.c:113 | the comparison of wrapping counters tells an empty ring |
| `PipeRing.Ring.Put` | Project1_xv6CustomSystemCalls/xv6-riscv/kernel/pipe.c:95 | one byte at the end, also when the counter wraps |
| `PipeRing.Ring.Get` | Project1_xv6CustomSystemCalls/xv6-riscv/kernel/pipe.c:123 | one byte from the front, also when the counter wraps |
| `PipeRing.Ring.WriteSome` | Project1_xv6CustomSystemCalls/xv6-riscv/kernel/pipe.c:83-98 | bytes go in, in order, until all are in, the ring is full or a page faults |
| `PipeRing.Ring.ReadSome` | Project1_xv6CustomSystemCalls/xv6-riscv/kernel/pipe.c:120-126 | bytes come out in order; a byte whose page faults has left the ring |
| `PipeSleep.EveryRun` | Project1_xv6CustomSystemCalls/xv6-riscv/kernel/pipe.c:76-130 | in every run with any readers and writers, what came out is a prefix of what went in, at most 512 bytes are inside, and a sleeping writer means a full ring |
| `PipeSleep.NoReaderMissesData` | Project1_xv6CustomSystemCalls/xv6-riscv/kernel/pipe.c:105-130 | without a silent return, a sleeping reader with the lock free means an empty ring |
| `PipeSleep.ReadersKeptIff` | Project1_xv6CustomSystemCalls/xv6-riscv/kernel/pipe.c:84-87 | a step keeps sleeping readers right if and only if it is not a killed writer's return with bytes a sleeping reader was not told of |
| `PipeSleep.SilentReturn` | Project1_xv6CustomSystemCalls/xv6-riscv/kernel/pipe.c:84-87 | a run with such a return that leaves a reader asleep on a ring that is not empty |
| `PipeSleep.RunKeepsCore` | Project1_xv6CustomSystemCalls/xv6-riscv/kernel/pipe.c:58-130 | the invariant over whole runs |
| `VirtioDisk.Disk.constructor` | Project1_xv6CustomSystemCalls/xv6-riscv/kernel/virtio_disk.c:144-146 | all descriptors free and both rings empty |
| `VirtioDisk.Disk.AllocDesc` | Project1_xv6CustomSystemCalls/xv6-riscv/kernel/virtio_disk.c:155-166 | a free descriptor exactly when there is one |
| `VirtioDisk.Disk.Alloc3` | Project1_xv6CustomSystemCalls/xv6-riscv/kernel/virtio_disk.c:199-213 | three different free descriptors, or none and fewer than three were free |
| `VirtioDisk.Disk.Submit` | Project1_xv6CustomSystemCalls/xv6-riscv/kernel/virtio_disk.c:215-281 | a chain of three descriptors that says what is asked, put where the device finds it; or nothing when it must wait |
| `VirtioDisk.OwnBlockIff` | Project1_xv6CustomSystemCalls/xv6-riscv/kernel/virtio_disk.c:218 | the 32-bit sector number names the buffer's own block if and only if the block number is below 2^31 |
| `VirtioDisk.Disk.DeviceTake` | Project1_xv6CustomSystemCalls/xv6-riscv/kernel/virtio_disk.c:271-281 | a device reading the avail ring takes a request not taken before, as long as there is one, also when the 16-bit index wraps |
| `VirtioDisk.Disk.DeviceComplete` | Project1_xv6CustomSystemCalls/xv6-riscv/kernel/virtio_disk.c:235-281 | a device that follows the descriptors stores or loads exactly the request's buffer at the block its sector number names |
| `VirtioDisk.Disk.Interrupt` | Project1_xv6CustomSystemCalls/xv6-riscv/kernel/virtio_disk.c:294-327 | every completion has status 0 and names the request of its own buffer; all completed requests are seen, exactly their buffers are no longer busy, and no contents change |
| `VirtioDisk.Disk.FreeChain` | Project1_xv6CustomSystemCalls/xv6-riscv/kernel/virtio_disk.c:184-197 | exactly the chain's three descriptors are freed, without a panic |
| `VirtioDisk.Disk.Finish` | Project1_xv6CustomSystemCalls/xv6-riscv/kernel/virtio_disk.c:283-291 | the request's own chain returns to the free descriptors |
| `VirtioDisk.Disk.Serve` | Project1_xv6CustomSystemCalls/xv6-riscv/kernel/virtio_disk.c:283-327 | from the device through the interrupt to the caller: a read leaves the block of its sector in the buffer, a write the buffer in that block, and the buffer is no longer busy |
| `VirtioDisk.ChainsAdd` | Project1_xv6CustomSystemCalls/xv6-riscv/kernel/virtio_disk.c:226-269 | a new chain is disjoint from all others |
| `VirtioDisk.ChainsRemove` | Project1_xv6CustomSystemCalls/xv6-riscv/kernel/virtio_disk.c:288-289 | freeing a finished chain leaves the others as they were |
| `VirtioDisk.RoomInAvail` | Project1_xv6CustomSystemCalls/xv6-riscv/kernel/virtio_disk.c:271-277 | the avail ring cannot overflow: there are at most eight requests |
| `VirtioDisk.RoomInUsed` | Project1_xv6CustomSystemCalls/xv6-riscv/kernel/virtio_disk.c:309-324 | nor can the used ring |

## Left out

- Memory ordering, fences and interrupts as such: steps are sequentially consistent, and a critical section under one p->lock is one step.
- `waitpid`: it reaps by process id, whoever the parent is, and sleeps with other children of its own ZOMBIE, so it is not a step of `Processes`; neither is `sigstop`.  `Processes.NoMissedExit`, `Processes.HandOff` and the other statements about runs are not claimed of runs with them.
- `exec` and `spawn`, ELF loading, `sysproc.c`, `trap.c`, console and UART code: plumbing, or copying through layers modelled here.
- Project2_UNIX_Utilities: small programs over libc.
- Path names (`skipelem`, `namex`) and the inode cache (`iget`, `iput` reference counts): directories and inodes are named by number.
- One device only; device number 0 marks buffers that were never used.
- Bitmap blocks are sequences of booleans; the byte and bit of a block number are not modelled, only which bitmap block it is in.
- The in-memory and on-disk copies of an inode are one; `iupdate` only logs its block.
- TransactionLog.Log.Commit: a round that finds a buffer held ends there; a commit that waits for it and goes on is one with more reader steps before that round.  That readers give buffers back is not proved.
- TransactionLog.Log.Modify: between commits only; writers are inside transactions, and `commit` runs when there are none.
- FileSystem.Volume.Writei: for files without holes; `Writei`, `FileWrite`, `Readi` and `Itrunc` keep them so.
- Mkfs.Image.Iappend: the image file has a length that is given at the start and is enough; `Mkfs.OnDiskIff` says when what was built fits the disk.
- Links.FileTree.DirLink: entries are values in slots, not bytes read and written through `readi` and `writei`; link counts do not wrap at 16 bits.
- VirtualMemory.Memory.UvmUnmap: freeing is for user memory and not freeing for the trampoline and trapframe above it, as all callers do; the panics on unmapped pages are preconditions.
- Heap.Arena.Malloc: what the heap is after sbrk has given less than was claimed is not modelled; block sizes do not wrap at 32 bits, and nobody else calls `sbrk`.
- Processes.ReapedOnce: process ids do not wrap.
- ShellParser.Cursor.ParseExec: the exec node and the redirections around it are put together at the end of the loop instead of growing an argument array through a shared pointer.
- PipeSleep.NoReaderMissesData: an end of a pipe is closed only when no thread is using it, as file reference counts ensure.
- VirtioDisk.Disk.Submit: device registers and notification are left out.
- Freed pages are not filled with junk, and user data in frames is bytes.
