# Verification of an xv6 kernel and its course projects

This project models the parts of the repository in which mistakes are hardest
to see, and proves what they promise; `dafny verify dfyconfig.toml` covers all
of it. The models follow the C code: the same branches, loops, constants and error
returns. A panic of the code is a result of the model (`ok == false`,
`Panicked`, `Panic`) where the code can reach it, and a precondition where it
is a demand on the caller.

* **Write-ahead log and buffer cache** (`Blocks`, `BufferCache`, `LogDisk`,
  `WriteAheadLog`, `LogOperations`). The cache is a class with the linked ring,
  reference counts and locks of `bio.c`; it shows a block map (`view`) that may
  be ahead of the disk in the blocks of `dirty`. Each `bwrite` adds the disk it
  leaves to a trace, and a crash may fall after any element. `CrashAtomicity`
  and `CrashDuringCommit` are the main results. `LogOperations` is the
  concurrent side: any number of processes in `begin_op`, `log_write`, `end_op`
  and commit, and any number that hold buffers meanwhile, one critical section
  per step.
* **File system** (`Bits`, `FsBlocks`, `Inodes`, `FileSystem`, `FileContents`,
  `Truncate`, `FileWrite`, `LargestWrite`, `InodeSet`, `FileCrash`,
  `WriteCrash`). One inode over the block map that the log and the cache provide,
  and any number of them together (`InodeSet`). A file is a sequence of bytes;
  `readi` is a slice and `writei` a splice of it. The invariant says that every
  block an inode refers to is marked in the bitmap, referred to in one place, and
  by nobody else (`others` are the blocks of all other owners). `FileCrash` joins this with the log: a
  file survives a crash with its old bytes or its new ones, and a write of many
  chunks with some of the first ones (`WriteCrash.CrashSafeFilewrite`).
* **Page tables and page allocator** (`Counting`, `PageAllocator`,
  `PageTables`, `Vm`, `VmFree`, `VmCopy`, `VmUser`, `AddressSpaces`,
  `UserMemory`, `Sv39`). Sv39 tables as section 4.4 of the RISC-V Privileged Architecture
  specification describes them, kept in the pages that the allocator hands out. A
  page table refines a partial map (`Lookup`), and that map is what the hardware's
  walk finds in memory (`Sv39.SameEntry`); tables, frames and free pages are
  kept apart and none is lost, over any number of address spaces and their whole
  life (`UserMemory`).
* **Processes** (`Processes`, `ProcessRuns`). `fork`, `exit`, `wait`, `sleep`,
  `wakeup`, `kill` and the scheduler as steps of all processes, with `wait_lock`
  and every `p->lock`; what a call of `wait`, `exit` or `kill` comes to over a run
  is in `ProcessRuns`.
* **Lottery scheduler** (`PowersOfZ`, `PolynomialWords`, `OrderOfZ`, `Random`,
  `Seeds`, `Lottery`, `LotteryDraws`). Knuth's generator, whose seeding computes
  powers of z modulo z^100 + z^37 + 1 over GF(2) in the parities of its words,
  and the winner scan. That no two seeds give the same state
  (`Seeds.SeedsDiffer`) rests on the order of z, which `PolynomialWords`
  computes with polynomials as bit vectors.
* **User programs** (`Umalloc`, `Shell`, `ShellText`, `ShellInPlace`,
  `ShellSyntax`, `ShellPrinting`, `Regex`) and the **pipe** (`Pipe`). The shell's
  parser is compared with a definition of its language as text
  (`ShellSyntax.Accepted`).
* **Dining philosophers** (`Philosophers`, `ForkBitmap`, `DiningProgress`,
  `Zemaphore`), for every number of philosophers.

## What does not hold

* `LOGSIZE` and `NBUF` are both three times `MAXOPBLOCKS`, and nothing sets
  buffers aside for a commit. With operations of up to b blocks a transaction
  can grow to `MAXOPBLOCKS` + 2 b blocks, each pinned in a buffer, and
  `fileread` and `filestat` hold buffers without being in an operation. `bget`
  panics once the logged blocks and the buffers held for other blocks are all
  30 (`WriteAheadLog.Log.Commit`, `LogOperations.CommitStarts`). All runs are
  safe exactly if 2 b plus the number of buffers held at a time stays below 20
  (`LogOperations.SafeBudgets`): never for b = 10; for the 7 blocks that
  `filewrite` needs on a disk with one bitmap block, as `FSSIZE` makes it, with
  at most 5 buffers held at a time (`FileWrite.WritesAreSafe`). With four bitmap
  blocks a write can log all 10 (`LargestWrite.TenBlocks`).
* Shares of the lottery are proportional exactly if no runnable process holds a
  negative number of tickets and the sum is below 2^31 (`Lottery.Proportional`);
  `sys_settickets` stores any number. Tickets above 2^30 are never drawn
  (`Lottery.HighTicketsNeverDrawn`).
* `malloc` passes a number of bytes to the `int` parameter of `sbrk`; it is the
  number meant exactly for requests of at most 2^31 - 32 bytes
  (`Umalloc.SbrkArgument`, `Umalloc.SbrkLargest`), and that is what
  `Umalloc.Heap.Malloc` demands of an answer of `sbrk`.
* Readers stay asleep on a pipe that has data exactly if they slept before a
  write whose process is found killed after at least one byte and before all are
  written, when the pipe is at most full
  (`Pipe.Pipe.Write`, `Pipe.StrandedReader`). A `copyout` that fails in
  `piperead` loses a byte (`Pipe.Pipe.Read`, `Pipe.LostByte`).
* A process that is killed between `wait`'s test of `killed` and its `sleep`
  sleeps on until a child exits; in every other case a killed process does not
  stay asleep in `wait` (`ProcessRuns.KilledAsleep`, `ProcessRuns.KillLost`).
* Two seeds that agree modulo 2^30 give the same random numbers, and no others
  the same state (`Seeds.SeedsDiffer`). A range of more than 2^30 numbers is
  never drawn from completely (`LotteryDraws.EveryNumberDrawn`).
* The first batch of the random numbers leaves out term 0; all later ones begin
  with theirs (`Random.Generator.NextRand`).

## Model

| member | source | states |
|---|---|---|
| BufferCache.LinkFront | xv6-riscv/kernel/bio.c:130-133 | linking a node in at the head of the prev/next ring gives a ring with that node first and the others in their old order |
| BufferCache.Unlink | xv6-riscv/kernel/bio.c:128-129 | unlinking a node leaves a ring of the other nodes in their old order |
| BufferCache.Cache.constructor | xv6-riscv/kernel/bio.c:37-53 | binit builds a ring of all buffers in which no block of the disk is cached, and the cache shows the disk |
| BufferCache.Cache.FindCached | xv6-riscv/kernel/bio.c:66-73 | the first scan finds the buffer of a block if there is one |
| BufferCache.Cache.FindUnused | xv6-riscv/kernel/bio.c:77-87 | the second scan finds the least recently used buffer that nobody references, or all are referenced |
| BufferCache.Cache.Bget | xv6-riscv/kernel/bio.c:59-89 | the buffer that has the block, or else the least recently used unreferenced one; the panic happens exactly if the block is not cached and all buffers are referenced; at most one buffer per block, the ring stays a permutation of all buffers |
| BufferCache.Cache.Load | xv6-riscv/kernel/bio.c:98-101 | a buffer that is not valid is read in, and then has the latest contents of its block, written back or not |
| BufferCache.Cache.Bread | xv6-riscv/kernel/bio.c:93-103 | the buffer has the latest contents of the block, also those that are not on the disk yet |
| BufferCache.Cache.Modify | xv6-riscv/kernel/log.c:205-213 | changing the data of a held buffer changes what the cache shows for that block and no other |
| BufferCache.Cache.Bwrite | xv6-riscv/kernel/bio.c:107-112 | one disk write of the buffer's block; what the cache shows stays the same |
| BufferCache.Cache.Brelse | xv6-riscv/kernel/bio.c:117-137 | the last release moves the buffer to the head and keeps the order of the others; a block that the disk does not have cannot be lost because its buffer is referenced |
| BufferCache.Cache.MoveToFront | xv6-riscv/kernel/bio.c:128-133 | the ring is a permutation of all buffers again, with this one first |
| BufferCache.Cache.Bpin | xv6-riscv/kernel/bio.c:140-144 | one more reference, held by the log |
| BufferCache.Cache.Bunpin | xv6-riscv/kernel/bio.c:147-151 | one reference of the log less; no buffer changes its block or contents |
| BufferCache.SomeUnused | xv6-riscv/kernel/bio.c:76-88 | with fewer references than buffers some buffer can be recycled |
| BufferCache.Cache.CleanAgrees | xv6-riscv/kernel/bio.c:91-112 | the cache and the disk agree on every block that is not modified |
| LogDisk.HeaderRoundTrip | xv6-riscv/kernel/log.c:86-114 | reading a header block gives back what write_head stored in it |
| LogDisk.InstallAt | xv6-riscv/kernel/log.c:68-83 | after install_trans a block has the contents of its last log entry, or its old contents |
| LogDisk.RecoveryKeepsDurable | xv6-riscv/kernel/log.c:117-123 | wherever a recovery is cut short, the disk stands for the same contents as before it |
| LogDisk.RecoveryInstalls | xv6-riscv/kernel/log.c:117-123 | a finished recovery leaves an empty log and those contents in the home blocks |
| LogDisk.CommitIsAtomic | xv6-riscv/kernel/log.c:194-203 | after any number of a commit's writes the disk stands for the old contents, up to the header write, or for the whole transaction, from it on |
| LogDisk.CrashAtomicity | xv6-riscv/kernel/log.c:68-123 | crash between any two writes of a commit, then crash in any number of recoveries: the one that finishes leaves all of the transaction's values or all of the old ones |
| WriteAheadLog.Log.WriteLog | xv6-riscv/kernel/log.c:178-191 | copies what the cache shows for the logged blocks to the log, one disk write each, while others hold buffers of other blocks, which stay as they are; it fails exactly if there are blocks to write and every buffer is pinned or held |
| WriteAheadLog.Log.InstallTrans | xv6-riscv/kernel/log.c:68-83 | the home blocks get the log's contents, one disk write each, and every pin is given back unless recovering; the buffers that others hold stay as they are |
| WriteAheadLog.Log.ReadHead | xv6-riscv/kernel/log.c:86-97 | the header in memory becomes the one on the disk |
| WriteAheadLog.Log.WriteHead | xv6-riscv/kernel/log.c:102-114 | one disk write, of a header block with the block numbers in memory; the words after them stay; it fails exactly if the header is not cached and every buffer is referenced |
| WriteAheadLog.Log.Commit | xv6-riscv/kernel/log.c:194-203 | the disk writes are exactly those of CommitTrace in that order, the home blocks end up with what the cache showed, the log is empty and nothing is pinned; the buffers that others hold meanwhile stay as they are; it fails, in bget, exactly if the transaction is not empty and its blocks and the buffers that others hold are NBUF in number |
| WriteAheadLog.CrashDuringCommit | xv6-riscv/kernel/log.c:194-203 | after a crash at any write of Commit and any number of crashes in recovery the file system has its old contents or exactly what the cache showed |
| WriteAheadLog.Log.RecoverFromLog | xv6-riscv/kernel/log.c:117-123 | the disk writes are those of RecoveryTrace, and the disk and the cache then have the contents the old disk stood for |
| WriteAheadLog.Log.FindLogged | xv6-riscv/kernel/log.c:225-228 | the place of a block in the transaction, or its end |
| WriteAheadLog.Log.LogWrite | xv6-riscv/kernel/log.c:215-235 | the block is in the transaction once and its buffer is pinned; the panics happen exactly for a full log, also for a block already logged, and outside of a transaction |
| WriteAheadLog.Log.UpdateBlock | xv6-riscv/kernel/log.c:205-213 | bread, change, log_write, brelse while the caller and others hold other buffers: what the cache shows changes in that block, no disk write happens, those buffers stay as they are, and everything that is only in the cache is logged or held; it fails exactly without a buffer for the block, with a full log or outside of a transaction |
| WriteAheadLog.Log.Hold | xv6-riscv/kernel/bio.c:93-103 | bread by anybody, in a transaction or not, of a block outside the log: it fails exactly if the block is not cached and all buffers are referenced, and never with fewer references than buffers |
| WriteAheadLog.Log.UpdateHeld | xv6-riscv/kernel/fs.c:411-414 | the data of a held buffer changes and the block is logged, in the transaction once |
| WriteAheadLog.Log.Drop | xv6-riscv/kernel/bio.c:117-137 | brelse of a buffer whose changes, if any, are logged: none of them is lost |
| WriteAheadLog.Log.IdleIsReady | xv6-riscv/kernel/log.c:146-175 | when a commit may start: nobody holds a logged block, and every change is logged |
| WriteAheadLog.AllTaken | xv6-riscv/kernel/bio.c:77-88 | with every buffer pinned or held no block of the log can be read |
| WriteAheadLog.CrowdedExactly | xv6-riscv/kernel/bio.c:77-88 | every buffer is pinned or held exactly if the logged blocks and the buffers held for other blocks are NBUF in number |
| WriteAheadLog.OverlayIsView | xv6-riscv/kernel/log.c:178-203 | writing the transaction's blocks over the disk gives what the cache shows |
| LogOperations.RunKeeps | xv6-riscv/kernel/log.c:127-175 | in every run of operations and readers of any processes: the logged blocks plus what the operations in progress may still log stay within MAXOPBLOCKS + 2 * budget, no more buffers are in use than there are, a commit runs only with no operation in progress, and sleepers have a reason to sleep |
| LogOperations.NewBlockFits | xv6-riscv/kernel/log.c:133-137 | an operation within its budget of MAXOPBLOCKS finds room for a new block |
| LogOperations.PanicExactly | xv6-riscv/kernel/log.c:146-235 | which steps panic: log_write on a log that is full, and, with all NBUF buffers in use, a bread of a block that is not in use or a commit's bread of the log; the panics log.committing and log_write outside of trans cannot happen |
| LogOperations.CommitStarts | xv6-riscv/kernel/log.c:178-191 | the first bread of a commit panics exactly if the logged blocks and the buffers held for other blocks are NBUF in number |
| LogOperations.CommitIsAlone | xv6-riscv/kernel/log.c:146-175 | while a commit runs, no step of another process changes the transaction or begins an operation, and no write is undone |
| LogOperations.SleepersWoken | xv6-riscv/kernel/log.c:127-175 | a process asleep in begin_op always has an operation or a commit to wait for, whose end wakes it up or starts a commit |
| LogOperations.CommitsPending | xv6-riscv/kernel/log.c:215-235 | the transaction consists of exactly the blocks logged since the last commit |
| LogOperations.SmallOpsSafe | xv6-riscv/kernel/log.c:127-235 | no run within a budget of blocks per operation and a limit of held buffers can panic if 2 * budget + limit < 2 * MAXOPBLOCKS |
| LogOperations.UsedAtMost | xv6-riscv/kernel/log.c:127-143 | a transaction has at most MAXOPBLOCKS + 2 * budget blocks |
| LogOperations.LongestTransaction | xv6-riscv/kernel/log.c:127-175 | and some run gets that far, if the log has room for it |
| LogOperations.TooMany | xv6-riscv/kernel/bio.c:77-88 | for every budget and limit beyond that some run panics, whatever the size of the log |
| LogOperations.SafeBudgets | xv6-riscv/kernel/param.h:9-11 | bread, begin_op, log_write, end_op and commit are free of panics for all runs in which operations log at most budget blocks and at most limit buffers are held at a time if and only if 2 * budget + limit < 2 * MAXOPBLOCKS |
| Bits.SetOneBit | xv6-riscv/kernel/fs.c:75-77 | setting a clear bit changes that bit and no other |
| Bits.ClearOneBit | xv6-riscv/kernel/fs.c:99-102 | clearing a set bit changes that bit and no other |
| FsBlocks.WordAfterPut | xv6-riscv/kernel/fs.c:408-412 | storing a word of an indirect block changes that word and no other |
| Inodes.UsedBit | xv6-riscv/kernel/fs.c:66-105 | the bitmap is an array of bits from bmapstart on, eight to a byte and the lowest first, in which bit b tells about block b |
| Inodes.MarkedUsed | xv6-riscv/kernel/fs.c:75-77 | marking a block changes the state of that block and no other |
| Inodes.UnmarkedUsed | xv6-riscv/kernel/fs.c:97-102 | unmarking a block changes the state of that block and no other |
| Inodes.AllocKeeps | xv6-riscv/kernel/fs.c:66-88 | balloc keeps the invariant: every block an inode refers to is marked, referred to once and by nobody else; the new block is referred to by nobody |
| FileSystem.Fs.FindFree | xv6-riscv/kernel/fs.c:74-83 | the first unmarked block of a group |
| FileSystem.Fs.Balloc | xv6-riscv/kernel/fs.c:66-88 | the first unmarked block of the disk, marked and zeroed; 0 exactly if all are marked |
| FileSystem.Fs.Bfree | xv6-riscv/kernel/fs.c:92-105 | the bit of a marked block is cleared |
| FileSystem.Fs.Bmap | xv6-riscv/kernel/fs.c:383-421 | the block of a position: an existing one as it is, a new one zeroed, all other positions and all data as before; the invariant holds on every failure path, and 0 means that the disk is full; nobody else's block changes, except the bitmap's; every block it changes is logged, which blocks it logs, and a newly marked block is one the inode refers to |
| FileSystem.Fs.BmapIndirect | xv6-riscv/kernel/fs.c:399-418 | the same for positions of the indirect block, which is allocated first if there is none, and stays referred to if the second allocation fails |
| FileSystem.GrewDirect | xv6-riscv/kernel/fs.c:388-395 | a new direct block: one position changes, the invariant holds |
| FileSystem.GrewIndirect | xv6-riscv/kernel/fs.c:401-406 | a new indirect block: no position changes |
| FileSystem.GrewEntry | xv6-riscv/kernel/fs.c:409-415 | a new entry of the indirect block: one position changes, the invariant holds |
| FileContents.Readi | xv6-riscv/kernel/fs.c:472-496 | the slice of the file's bytes from off on, cut at the end; nothing is allocated, changed or logged; the empty result where off + n wraps around |
| FileContents.Writei | xv6-riscv/kernel/fs.c:506-539 | the file's bytes become the splice of the source at off, across direct and indirect blocks; -1 exactly for an offset beyond the end or a write beyond the largest file; less than asked for only on a full disk; all blocks below the size stay allocated; every changed block and the inode are logged, newly marked blocks are those of the written positions and the indirect block; nobody else's block changes; what a write of up to 3 blocks logs |
| FileContents.ProgressIsSplice | xv6-riscv/kernel/fs.c:516-531 | what the loop has written so far is a splice of the old contents |
| FileContents.SmallWriteBound | xv6-riscv/kernel/fs.c:506-539 | a write of at most 3 blocks' worth logs at most 10 blocks, and at most 7 if the disk has one bitmap block; TenBlocks and SevenBlocks reach both |
| Truncate.Itrunc | xv6-riscv/kernel/fs.c:426-453 | exactly the inode's blocks become unmarked, once each, so that bfree does not panic; the file is empty; only bits of the bitmap change; every changed block and the inode are logged, and only bitmap blocks beside it |
| Truncate.FreedHas | xv6-riscv/kernel/fs.c:432-449 | the next block to free is still marked, because no block is referred to twice |
| Truncate.SmallImage | xv6-riscv/kernel/fs.c:66-105 | there is an image that fits the invariant: the boot block and the bitmap marked, two blocks free |
| Truncate.EmptyFile | xv6-riscv/kernel/fs.c:426-453 | an inode without blocks fits the invariant on every image |
| LargestWrite.WriteThree | xv6-riscv/kernel/fs.c:506-539 | writei of 3072 bytes from the last direct block on, into a disk with four free blocks left, logs the data block, the four new blocks, their bitmap blocks and the inode, because it changes them all |
| LargestWrite.Changed | xv6-riscv/kernel/fs.c:383-421 | why: each of these blocks is different afterwards |
| LargestWrite.TenBlocks | xv6-riscv/kernel/fs.c:506-539 | on an image with four bitmap blocks such a write logs 10 blocks |
| LargestWrite.SevenBlocks | xv6-riscv/kernel/fs.c:506-539 | on an image with one bitmap block it logs 7 |
| FileWrite.SpliceTwice | xv6-riscv/kernel/file.c:157-174 | two consecutive splices are one of the joined bytes |
| FileWrite.File.WriteSome | xv6-riscv/kernel/file.c:158-173 | one chunk is one log operation within the bound, and moves the offset by what it wrote |
| FileWrite.File.Filewrite | xv6-riscv/kernel/file.c:135-181 | the bytes written are a prefix of the source, spliced in at the old offset, and the offset is after them; n only if that is all; -1 has one of three reasons; every operation logs at most the bound, and every changed block is logged by one of them; nobody else's block changes |
| FileWrite.WritesAreSafe | xv6-riscv/kernel/file.c:149-155 | on a disk with one bitmap block any number of filewrite calls in any interleaving, each operation of the run logging blocks of one operation of a call, makes neither the log nor the cache panic if at most 5 buffers are held at a time |
| FileWrite.RunsWithin | xv6-riscv/kernel/file.c:149-155 | a run whose operations are those of filewrite calls stays within the bound of a write |
| FileCrash.BytesOfWords | xv6-riscv/kernel/fs.c:408-412 | the bytes of a block can be read back from its 32-bit words |
| FileCrash.InodeRoundTrip | xv6-riscv/kernel/fs.c:226-241 | the size and block references that iupdate stores are what is read back, and the other inodes of the block stay |
| FileCrash.TransactionOf | xv6-riscv/kernel/log.c:215-235 | an operation that logs every block it changes, outside of the log, leaves a transaction ready to commit |
| FileCrash.WriteFile | xv6-riscv/kernel/fs.c:506-539 | writei and its iupdate make such a transaction: the cache shows the new file, and on the disk its inode and blocks |
| FileCrash.CrashedFile | xv6-riscv/kernel/log.c:68-203 | for any transaction, a file is found after a crash and recovery as it was before the transaction or as it is after it |
| FileCrash.OtherKept | xv6-riscv/kernel/fs.c:506-539 | a write leaves every other file as it is, also those with an inode in the same block |
| FileCrash.CrashSafeWrite | xv6-riscv/kernel/file.c:149-174 | a write of up to 3 blocks as one operation, a crash at any write of its commit and any number of crashes in recovery: the file read from the disk has its old bytes or exactly the splice, and every other file its own |
| WriteCrash.Committed | xv6-riscv/kernel/log.c:194-203 | a finished commit leaves an empty log and on the disk what the cache showed, so that the next operation can follow |
| WriteCrash.ChunkSafely | xv6-riscv/kernel/file.c:158-167 | one chunk as an operation of its own that survives a crash |
| WriteCrash.CrashSafeFilewrite | xv6-riscv/kernel/file.c:135-181 | filewrite of any number of bytes: a crash at any disk write of any of its commits and any number of crashes in recovery leave the old bytes with a prefix of the source spliced in that ends with a chunk, or with what the last operation could write; every other file has its own bytes |
| InodeSet.NodeInv | xv6-riscv/kernel/fs.c:383-453 | on a disk with any number of files each of them meets the invariant that bmap, writei and itrunc need |
| InodeSet.FilesNext | xv6-riscv/kernel/fs.c:383-453 | an operation on one file that keeps to its own and free blocks keeps the invariant over all files, and every other file has the same blocks and bytes |
| InodeSet.FileSet.Add | xv6-riscv/kernel/fs.c:208-214 | a newly allocated inode, zeroed, is a file without blocks |
| InodeSet.FileSet.Map | xv6-riscv/kernel/fs.c:383-421 | bmap of any file: the bitmap marks exactly the file system's own blocks and those of the files, no block is in two files, and no other file changes |
| InodeSet.FileSet.Write | xv6-riscv/kernel/fs.c:506-539 | the same for writei, which splices the bytes into that file |
| InodeSet.FileSet.Clear | xv6-riscv/kernel/fs.c:426-453 | the same for itrunc: exactly that file's blocks become unmarked |
| InodeSet.AllEmpty | xv6-riscv/kernel/fs.c:426-453 | with all files truncated exactly the file system's own blocks are marked |
| PageAllocator.Allocator.Kfree | xv6-riscv/kernel/kalloc.c:47-63 | the page becomes the first of the free list; no other page changes |
| PageAllocator.Allocator.Kalloc | xv6-riscv/kernel/kalloc.c:69-82 | the first page of the free list, 0 exactly if it is empty; no other page changes |
| PageAllocator.Allocator.FreeRange | xv6-riscv/kernel/kalloc.c:34-40 | exactly the whole pages of the range are added to the free list |
| PageTables.TreeFrame | xv6-riscv/kernel/vm.c:86-103 | a page table maps the same addresses as long as its own pages do not change |
| PageTables.AddMid | xv6-riscv/kernel/vm.c:95-99 | a new zeroed level-1 table leaves every translation as it is |
| PageTables.AddLow | xv6-riscv/kernel/vm.c:95-99 | a new zeroed level-0 table leaves every translation as it is |
| PageTables.SetEntry | xv6-riscv/kernel/vm.c:160-160 | storing a level-0 entry changes the translation of that page and no other |
| Vm.Machine.NewTable | xv6-riscv/kernel/vm.c:95-99 | a page from the allocator, zeroed, and the entry that points to it |
| Vm.Machine.UvmCreate | xv6-riscv/kernel/vm.c:197-205 | a page table that maps nothing, made of one page; 0 exactly if there is none |
| Vm.Machine.Walk | xv6-riscv/kernel/vm.c:86-103 | the place of the level-0 entry, which SameEntry finds by the three parts of the address; tables are made of pages of the allocator and change no translation; without alloc it is found exactly if the tables are there |
| Vm.Machine.MapPages | xv6-riscv/kernel/vm.c:143-165 | exactly the pages of the range are mapped, to consecutive frames; on failure a prefix of them, and the allocator is empty; tables and free pages together stay the same |
| Vm.Machine.Unmap | xv6-riscv/kernel/vm.c:171-192 | exactly the pages of the range lose their mapping; with do_free exactly their frames become free |
| Vm.Machine.UvmDealloc | xv6-riscv/kernel/vm.c:256-267 | exactly the pages above the new size are unmapped and freed |
| Vm.Machine.UvmAlloc | xv6-riscv/kernel/vm.c:226-249 | new zeroed frames for exactly the new pages, with their flags, different from all others; a failure restores the map and loses no page; no panic is reached whatever the new size |
| Vm.ImageBound | xv6-riscv/kernel/vm.c:226-249 | frames run out long before MAXVA: an image has at most as many pages as there is memory |
| Vm.RolledBack | xv6-riscv/kernel/vm.c:237-245 | taking the new pages out again restores the map and gives the frames back |
| Sv39.SameEntry | xv6-riscv/kernel/vm.c:77-103 | for every page table and address below MAXVA: what the Sv39 walk finds in memory, by address / 2^30 % 512, address / 2^21 % 512 and address / 2^12 % 512 and the V bits, is what the model's map has for that page |
| Sv39.SamePlace | xv6-riscv/kernel/vm.c:86-103 | the walk ends at the level-0 entry that the model has for the page if that is in use, and faults otherwise |
| Sv39.MappedAddress | xv6-riscv/kernel/vm.c:143-165 | after mappages an address of the range translates to consecutive frames plus its offset, with the flags given, and all others as before |
| Sv39.UnmappedAddress | xv6-riscv/kernel/vm.c:171-192 | after uvmunmap the addresses of the range fault, and all others translate as before |
| Sv39.GrownAddress | xv6-riscv/kernel/vm.c:226-249 | after uvmalloc every new address translates to a zeroed page with V, R, U and the flags asked for |
| Sv39.SameAccess | xv6-riscv/kernel/vm.c:109-126 | walkaddr accepts an address exactly if the entry that the walk finds has the U bit |
| Sv39.SameByte | xv6-riscv/kernel/vm.c:352-396 | the byte that copyin and copyout use is the one at the physical address the walk gives |
| Sv39.ProcessTop | xv6-riscv/kernel/proc.c:188-203 | in an address space with its two top entries the trampoline is at 0x3FFFFFF000, readable and executable, and the trapframe at 0x3FFFFFE000, readable and writable, neither for the user |
| VmFree.FreeWalk | xv6-riscv/kernel/vm.c:272-287 | exactly the pages of the subtree become free, each once |
| VmFree.UvmFree | xv6-riscv/kernel/vm.c:292-297 | exactly the frames and the tables become free, and no other page changes |
| VmCopy.UvmCopy | xv6-riscv/kernel/vm.c:306-333 | the child gets its own copy of every page with the parent's flags; a failure restores the child and loses no page; the parent is not touched |
| VmUser.WalkAddr | xv6-riscv/kernel/vm.c:109-126 | the frame of a user page, 0 exactly if the address is not the user's |
| VmUser.CopyOut | xv6-riscv/kernel/vm.c:352-371 | the bytes are in user memory at the address and nothing else has changed; -1 exactly at the first page that is not the user's, with the bytes before it written |
| VmUser.CopyIn | xv6-riscv/kernel/vm.c:377-396 | the bytes of user memory at the address; -1 exactly at the first page that is not the user's |
| VmUser.RoundTrip | xv6-riscv/kernel/vm.c:352-396 | copyin reads back what copyout wrote |
| VmUser.ImageOfFrames | xv6-riscv/kernel/vm.c:226-333 | memory as uvmalloc and uvmcopy build it is what copyin and copyout need |
| AddressSpaces.Undisturbed | xv6-riscv/kernel/vm.c:226-333 | writes within the pages of other spaces and the free ones leave a space as it is |
| AddressSpaces.WorldTraded | xv6-riscv/kernel/vm.c:226-333 | when one space trades pages with the free list, the pages of all spaces, those that the kernel holds and the free ones are together the same as before, each in one place |
| AddressSpaces.AllReturned | xv6-riscv/kernel/vm.c:292-297 | with no address space left and nothing held by the kernel, exactly the pages from the start are free |
| UserMemory.Memory.Take | xv6-riscv/kernel/kalloc.c:69-82 | kalloc of a page for the kernel itself, such as a trapframe: it leaves the free list and belongs to nobody else |
| UserMemory.Memory.Give | xv6-riscv/kernel/kalloc.c:47-63 | kfree of such a page |
| UserMemory.Memory.Create | xv6-riscv/kernel/vm.c:197-205 | uvmcreate over all address spaces: a new space that maps nothing, or none exactly if there is no free page; free pages, the kernel's own and the tables and frames of all spaces are together always the same pages, each in one place; no other space and no page of the kernel's changes |
| UserMemory.Memory.MapTop | xv6-riscv/kernel/proc.c:188-203 | mappages of trampoline or trapframe: that entry, for the supervisor only, and no other changes; if it fails no page is free and no entry has changed |
| UserMemory.Memory.UnmapTop | xv6-riscv/kernel/proc.c:212-213 | uvmunmap of trampoline or trapframe: that entry is gone, no frame is freed |
| UserMemory.Memory.Grow | xv6-riscv/kernel/vm.c:226-249 | the same for uvmalloc: new zeroed pages with their flags or, if it fails, the map as before; the trapframe and trampoline entries stay |
| UserMemory.Memory.Shrink | xv6-riscv/kernel/vm.c:256-267 | the same for uvmdealloc: exactly the pages above the new size lose their mapping |
| UserMemory.Memory.Copy | xv6-riscv/kernel/vm.c:306-333 | the same for uvmcopy into a new space: every page has a copy with the parent's flags or, if it fails, the map is as before; the child's top entries stay |
| UserMemory.Memory.Destroy | xv6-riscv/kernel/vm.c:292-297 | the same for uvmfree of a space whose top entries are gone: all its pages become free |
| UserMemory.Memory.WriteUser | xv6-riscv/kernel/vm.c:352-371 | copyout into one address space: the bytes are there, and no other space and no page of the kernel's changes |
| UserMemory.Memory.ProcPagetable | xv6-riscv/kernel/proc.c:176-206 | an empty space with exactly the two entries, or 0 and, however far it got, the same pages are free again |
| UserMemory.Memory.ProcFreePagetable | xv6-riscv/kernel/proc.c:210-216 | the space is gone with all its pages |
| UserMemory.Memory.Spawn | xv6-riscv/kernel/proc.c:128-142 | a trapframe and an address space, or neither and the same pages are free |
| UserMemory.Memory.Reap | xv6-riscv/kernel/proc.c:156-164 | trapframe and address space are gone, in the order of freeproc |
| UserMemory.Memory.ForkAndReap | xv6-riscv/kernel/proc.c:280-302 | a child is made, gets the parent's memory and ends: whichever step runs out of memory, the same pages are free and nobody's memory has changed, the parent's included |
| UserMemory.Memory.LifeCycle | xv6-riscv/kernel/proc.c:110-216 | a process is made, grows to any size, forks and both end: the same pages are free as before and nothing has changed for anybody else |
| UserMemory.Memory.AllBack | xv6-riscv/kernel/proc.c:156-164 | after any sequence of these calls that leaves no process and nothing held by the kernel, exactly the pages from the start are free |
| Processes.StepKeeps | xv6-riscv/kernel/proc.c:280-435 | no step of any process breaks the invariant on locks, states, the process tree, fork, reparenting, the scan of wait and wakeups |
| Processes.RunInv | xv6-riscv/kernel/proc.c:280-435 | the invariant holds in every state of every interleaving from userinit on |
| Processes.WakeOneKeeps | xv6-riscv/kernel/proc.c:567-580 | after its iteration of wakeup's loop a process is not asleep on the channel, nor about to be |
| Processes.ParentsLive | xv6-riscv/kernel/proc.c:317-386 | no process, live or zombie, has a parent that is a zombie or unused, and every one but init has a parent |
| Processes.NoLostWakeup | xv6-riscv/kernel/proc.c:347-435 | whenever wait_lock is free no process asleep in wait has a zombie child |
| Processes.ReapedByParent | xv6-riscv/kernel/proc.c:391-435 | a zombie keeps pid and exit status until the wait of its current parent frees it, once it has left its stack; WaitReaps says what that wait does |
| Processes.RunPids | xv6-riscv/kernel/proc.c:110-126 | processes that exist at the same time have different pids, in every interleaving |
| Processes.ZombieStatus | xv6-riscv/kernel/proc.c:376-379 | a zombie's exit status is the argument of its exit |
| Processes.StatusFromExit | xv6-riscv/kernel/proc.c:347-379 | no step but a process's own call of exit sets that argument |
| Processes.BootRun | xv6-riscv/kernel/proc.c:233-255 | there is a starting state, with one process, for every size of the table |
| Processes.WaitFails | xv6-riscv/kernel/proc.c:426-430 | wait returns -1 from its scan only if there is no child or the caller was killed |
| Processes.LocksProgress | xv6-riscv/kernel/proc.c:536-580 | whoever holds wait_lock can go on, or waits for a p->lock whose holder can |
| ProcessRuns.KillStep | xv6-riscv/kernel/proc.c:584-604 | kill marks the process as killed and makes it runnable if it sleeps; nothing else changes |
| ProcessRuns.GoesOn | xv6-riscv/kernel/proc.c:504-580 | a process that yields, or sleeps and is woken, goes on where it was as soon as it is scheduled, with nothing changed |
| ProcessRuns.WakesInWait | xv6-riscv/kernel/proc.c:391-435 | a process that wakes up in wait takes wait_lock again, as soon as it is free, and scans the table from the start |
| ProcessRuns.ReapStep | xv6-riscv/kernel/proc.c:399-423 | the step of wait that finds a zombie child: the child, and no other process, becomes unused, and the call is going to return its pid and status |
| ProcessRuns.ForkUndone | xv6-riscv/kernel/proc.c:280-302 | a fork that fails leaves the table as it was, but for the next pid |
| ProcessRuns.FreedBy | xv6-riscv/kernel/proc.c:399-423 | a zombie becomes unused only by the scan of its parent, when that is at its entry and the zombie is off its stack |
| ProcessRuns.WaitReaps | xv6-riscv/kernel/proc.c:391-435 | between a call of wait and its return, whatever the others do meanwhile: either exactly one process was freed by it, a zombie child, and its pid and exit status are returned, or none was and -1 is returned, which is when the copyout failed or the scan ended without a zombie child |
| ProcessRuns.ReturnedOnce | xv6-riscv/kernel/proc.c:391-435 | no two calls of wait return the same process |
| ProcessRuns.CallEnds | xv6-riscv/kernel/proc.c:280-435 | a call of fork, exit or wait ends after a bounded number of its own steps, if it does not sleep in between |
| ProcessRuns.ExitEnds | xv6-riscv/kernel/proc.c:347-386 | a process that calls exit is a zombie with its status after at most n(n + 2) + n + 5 steps of its own, n being the size of the table |
| ProcessRuns.ExitOf | xv6-riscv/kernel/proc.c:347-386 | the status that wait finds was the argument of a call of exit of that process |
| ProcessRuns.WaitStatus | xv6-riscv/kernel/proc.c:391-435 | the status that wait returns is the argument with which the child called exit |
| ProcessRuns.KilledByKill | xv6-riscv/kernel/proc.c:584-604 | a process is marked as killed only by a kill of it since it was made |
| ProcessRuns.KilledAsleep | xv6-riscv/kernel/proc.c:426-433 | a process is killed and asleep in wait only if the kill came after wait's test of killed and before it slept |
| ProcessRuns.KillLost | xv6-riscv/kernel/proc.c:426-433 | a run in which this happens |
| PowersOfZ.Reduction | projects/project_3/changed_files/kernel/random.c:45-50 | z^(k+100) is z^(k+37) + z^k modulo z^100 + z^37 + 1 over GF(2) |
| PowersOfZ.PowerNotZero | projects/project_3/changed_files/kernel/random.c:41-59 | no power of z is zero |
| PowersOfZ.Squaring | projects/project_3/changed_files/kernel/random.c:43-50 | doubling all exponents of z^m gives z^(2m) |
| Random.SquaredPower | projects/project_3/changed_files/kernel/random.c:43-50 | spread out and reduced, the parities of z^m are those of z^(2m) |
| Random.ShiftedPower | projects/project_3/changed_files/kernel/random.c:53-55 | shifted cyclically, the parities of z^m are those of z^(m+1) |
| Random.Double | projects/project_3/changed_files/kernel/random.c:43-44 | the two loops spread the words out |
| Random.Reduce | projects/project_3/changed_files/kernel/random.c:45-50 | the loop reduces words 100 to 198 away |
| Random.Shift | projects/project_3/changed_files/kernel/random.c:53-55 | the loop shifts the words cyclically |
| Random.InitialWords | projects/project_3/changed_files/kernel/random.c:30-38 | word j of the first 100 is bits 1 to 29 of seed + 2 rotated left j places, one more for word 1; all others are 0 |
| Random.FirstWord | projects/project_3/changed_files/kernel/random.c:30-30 | word 0 is seed + 2 modulo 2^30 without its lowest bit |
| Random.NextWord | projects/project_3/changed_files/kernel/random.c:31-36 | rotating by one place is doubling and bringing the top bit in below, as the loop does |
| Random.InitialPower | projects/project_3/changed_files/kernel/random.c:30-38 | the parities of these words are those of z |
| Random.SeedRound | projects/project_3/changed_files/kernel/random.c:43-56 | one round leaves exactly the words of Round |
| Random.RoundPower | projects/project_3/changed_files/kernel/random.c:43-56 | a round squares, and multiplies by z for an odd ss |
| Random.SeedWords | projects/project_3/changed_files/kernel/random.c:30-59 | for every seed the loop ends, with exactly the words of SeedState |
| Random.SeedStatePower | projects/project_3/changed_files/kernel/random.c:30-59 | these are in [0, 2^30), at least one of them odd, with the parities of z to the power that a 1, the bits of the seed and 69 zeros make up |
| Seeds.SeedsApart | projects/project_3/changed_files/kernel/random.c:26-64 | seeds that differ modulo 2^30 start at powers of z at least 2^69 apart |
| PolynomialWords.SquareVal | projects/project_3/changed_files/kernel/random.c:43-50 | squaring the 100-bit word of z^m as a polynomial gives that of z^(2m) |
| OrderOfZ.FullPeriod | projects/project_3/changed_files/kernel/random.c:41-59 | z to the power 2^100 - 1 is 1 |
| OrderOfZ.FactorOfOrder | projects/project_3/changed_files/kernel/random.c:41-59 | a prime factor of 2^100 - 1 divides the order of z if z to the power of the rest is not 1 |
| OrderOfZ.LongOrder | projects/project_3/changed_files/kernel/random.c:41-59 | the order of z is more than 2^31 |
| Seeds.SeedsDiffer | projects/project_3/changed_files/kernel/random.c:26-64 | two seeds give the same state if and only if they agree modulo 2^30; otherwise some word is odd in one and even in the other |
| Random.EvenBackwards | projects/project_3/changed_files/kernel/random.c:17-24 | 100 even terms in a row would make every earlier term even |
| Random.OddStays | projects/project_3/changed_files/kernel/random.c:17-24 | the state keeps words in [0, 2^30), one of them odd |
| Random.Continues | projects/project_3/changed_files/kernel/random.c:17-24 | restarted from 100 consecutive terms the sequence goes on with those that follow |
| Random.Recurrence | projects/project_3/changed_files/kernel/random.c:17-24 | X[j] is X[j-100] - X[j-37], plus 2^30 where that is negative |
| Random.Generator.RanArray | projects/project_3/changed_files/kernel/random.c:17-24 | the array gets the first n terms of X[j] = X[j-100] - X[j-37] mod 2^30, and the state the next 100 |
| Random.Generator.RanStart | projects/project_3/changed_files/kernel/random.c:26-64 | for every seed the generator starts with exactly the words of SeedState, the last 63 before the first 37, a good state, with its first batch filled |
| Random.Generator.NextRand | projects/project_3/changed_files/kernel/random.c:66-74 | the numbers are terms 1009 b + i of one sequence, i from 1 to 100 in the first batch and from 0 to 100 in all others |
| Lottery.OneWinner | projects/project_3/changed_files/kernel/proc.c:491-517 | a ticket has at most one winner |
| Lottery.WinsInterval | projects/project_3/changed_files/kernel/proc.c:491-517 | for every table, also with negative numbers and sums that wrap around, a process wins the tickets above all earlier running sums up to its own |
| Lottery.ShareOfTickets | projects/project_3/changed_files/kernel/proc.c:491-517 | how many of the tickets 1 to T make p win, for every table |
| Lottery.Proportional | projects/project_3/changed_files/kernel/proc.c:451-519 | every process wins as many of the tickets 1 to T as it holds if and only if no runnable process holds a negative number and the sum is below 2^31 |
| Lottery.SharesSum | projects/project_3/changed_files/kernel/proc.c:451-519 | each of the tickets 1 to T has a winner, and only one |
| Lottery.OthersPay | projects/project_3/changed_files/kernel/proc.c:451-519 | a process with a negative number wins nothing, and the others together win that many tickets less than they hold |
| Lottery.TicketDrawn | projects/project_3/changed_files/kernel/random.c:81-86 | the ticket drawn is 1 more than the random number modulo T, and never above 2^30 |
| Lottery.ScaledInRange | projects/project_3/changed_files/kernel/random.c:81-86 | for every low and high in order: a number between them, which is low plus the random number modulo the width, or modulo what is missing to 2^32 for a width that is no int |
| LotteryDraws.TicketShare | projects/project_3/changed_files/kernel/random.c:81-86 | of the 2^30 random numbers exactly 2^30 / T draw a ticket, and one more the first 2^30 % T tickets |
| LotteryDraws.ShareOfDraws | projects/project_3/changed_files/kernel/proc.c:487-517 | how many of the 2^30 random numbers make p run, for every table with a positive total |
| LotteryDraws.FairDraws | projects/project_3/changed_files/kernel/proc.c:487-517 | with no negative numbers and a sum below 2^31, p runs for its part of the random numbers up to one for each of its tickets |
| LotteryDraws.EveryDrawWon | projects/project_3/changed_files/kernel/proc.c:487-517 | for every positive total all 2^30 random numbers together are shared among the processes |
| LotteryDraws.OtherTotals | projects/project_3/changed_files/kernel/random.c:81-86 | the ticket drawn for a total that is not positive |
| LotteryDraws.EveryNumberDrawn | projects/project_3/changed_files/kernel/random.c:81-86 | every number from low to high is drawn if and only if there are at most 2^30 of them |
| Lottery.HighTicketsNeverDrawn | projects/project_3/changed_files/kernel/random.c:81-86 | a process whose tickets are all above 2^30 never runs |
| Lottery.FirstRichWins | projects/project_3/changed_files/kernel/proc.c:451-519 | two processes with 2^30 tickets each: the sum wraps around, and the first one wins every draw |
| Lottery.Scheduler.TotalTickets | projects/project_3/changed_files/kernel/proc.c:452-464 | the sum of the tickets of the runnable processes, as an int of 32 bits |
| Lottery.Scheduler.ScaledRandom | projects/project_3/changed_files/kernel/random.c:81-86 | a number from low to high by the next term of the sequence, which is taken modulo the width; in 32 bits, also what comes out for an empty or negative range |
| Lottery.Scheduler.FindWinner | projects/project_3/changed_files/kernel/proc.c:491-517 | the process that wins the ticket, or none does; there is one for each of the tickets 1 to T |
| Lottery.Scheduler.Pass | projects/project_3/changed_files/kernel/proc.c:487-517 | one pass makes the winner of the ticket that the next random number gives RUNNING, counts the tick and changes nothing else; there is one for every positive total, and without one the table stays |
| Umalloc.FreeKeeps | xv6-riscv/user/umalloc.c:33-43 | the block enters the list and is joined with each neighbour it touches: the list stays circular and ordered with one wrap point, blocks disjoint, no two free blocks touch, and the blocks make up the same memory |
| Umalloc.Heap.FindPlace | xv6-riscv/user/umalloc.c:30-32 | the loop ends, at the last entry below the block |
| Umalloc.Heap.Free | xv6-riscv/user/umalloc.c:24-44 | the block leaves the blocks in use; all else as FreeKeeps says |
| Umalloc.Heap.Link | xv6-riscv/user/umalloc.c:33-42 | the headers become those of the joined blocks |
| Umalloc.Heap.Morecore | xv6-riscv/user/umalloc.c:46-61 | fails exactly if sbrk does; else the new memory is free and the search finds a large enough block at the place it returns or right after |
| Umalloc.Heap.Carve | xv6-riscv/user/umalloc.c:75-85 | the block is taken whole or cut from the end; it is new among the blocks in use |
| Umalloc.Heap.Search | xv6-riscv/user/umalloc.c:74-89 | the loop ends, asks sbrk at most once and only if no free block is large enough |
| Umalloc.Heap.Malloc | xv6-riscv/user/umalloc.c:63-90 | a block of its own of the right size, disjoint from all others and just large enough; free and used blocks together are exactly the memory got from sbrk |
| Umalloc.SbrkArgument | xv6-riscv/user/umalloc.c:52-54 | the int argument of sbrk is the number of bytes wanted if and only if at most 2^31 - 32 bytes are asked for |
| Umalloc.SbrkLargest | xv6-riscv/user/umalloc.c:52-54 | for the largest argument sbrk is asked for 16 bytes |
| ShellSyntax.Meant | xv6-riscv/user/sh.c:329-447 | every line of the language, with redirections before, between and after arguments, several on a command, blocks, pipelines, & and ;, is parsed to its meaning, and refused exactly for a simple command with more than 9 arguments |
| ShellSyntax.Accepted | xv6-riscv/user/sh.c:329-447 | a token sequence is parsed to a command if and only if it is a line of the language with that meaning |
| ShellSyntax.Conserved | xv6-riscv/user/sh.c:329-447 | an accepted token sequence has exactly the words of its command, one symbol for each of its redirections of either kind, pipes, lists and background nodes, and parentheses in pairs |
| ShellSyntax.PrintedParses | xv6-riscv/user/sh.c:329-447 | a command printed with parentheses only where they are needed is parsed back to that command, for every tree with at most 9 arguments |
| ShellSyntax.FewestParentheses | xv6-riscv/user/sh.c:329-447 | no token sequence that is parsed to a command has fewer parentheses than its printing |
| ShellSyntax.Canonical | xv6-riscv/user/sh.c:329-343 | what is accepted can be printed and read again with the same result |
| ShellText.Parser.GetToken | xv6-riscv/user/sh.c:266-309 | the next token of the text, its code and the range of a word; the cursor is after it |
| ShellText.Parser.Peek | xv6-riscv/user/sh.c:312-321 | whether the next token is one of the symbols; no token is used up |
| ShellText.Parser.ParseRedirs | xv6-riscv/user/sh.c:376-398 | the redirections that the grammar reads, or the panic for a missing file |
| ShellText.Parser.ParseArgs | xv6-riscv/user/sh.c:430-446 | the arguments and redirections that ArgsOf reads, in any order, or one of the two panics; Accepted says what that is |
| ShellText.Parser.ParseExec | xv6-riscv/user/sh.c:417-447 | agrees with the grammar, also in when it panics |
| ShellText.Parser.ParseBlock | xv6-riscv/user/sh.c:401-414 | agrees with the grammar, also in when it panics |
| ShellText.Parser.ParsePipe | xv6-riscv/user/sh.c:363-373 | agrees with the grammar; ends on every input |
| ShellText.Parser.ParseLine | xv6-riscv/user/sh.c:346-360 | agrees with the grammar; ends on every input; all recorded ranges are maximal runs of word characters |
| ShellInPlace.NulTerminate | xv6-riscv/user/sh.c:451-494 | a NUL at the end of each recorded word and no other change of the buffer |
| ShellInPlace.WordIntact | xv6-riscv/user/sh.c:451-494 | no NUL falls into a recorded word, so that each is a C string with its own text |
| ShellInPlace.ParseCmd | xv6-riscv/user/sh.c:329-343 | the command, with its words read as C strings in the buffer, is what CmdOf assigns to the tokens of the text, by LexExactly and Accepted its meaning; every other text is refused |
| ShellPrinting.LexRender | xv6-riscv/user/sh.c:266-309 | tokens written with any white space, at least some between two words and after > before > or >>, are scanned as those tokens |
| ShellPrinting.LexExactly | xv6-riscv/user/sh.c:266-309 | the tokens of a text are ts if and only if the text is ts with such white space |
| ShellPrinting.LaidOut | xv6-riscv/user/sh.c:266-447 | a line of the language, however laid out as text, is parsed to its meaning |
| ShellPrinting.RoundTrip | xv6-riscv/user/sh.c:266-447 | parsing the text of a printed command gives the command, for every tree with at most 9 plain words as arguments |
| ShellPrinting.AcceptedPrints | xv6-riscv/user/sh.c:329-343 | every accepted text has a command that can be printed and parsed again |
| Philosophers.StepKeeps | projects/project_5/3-dp.c:44-79 | each fork's value is 1 less the number of its holders, and the table's the seats less those at it |
| Philosophers.NeighboursNeverEat | projects/project_5/3-dp.c:44-79 | no two neighbours eat together in any run of either protocol |
| Philosophers.SeatsEnabled | projects/project_5/3-dp.c:63-79 | with n - 1 seats somebody can go on |
| Philosophers.ReversedEnabled | projects/project_5/templates/solution-diningPhilosophers.c:24-60 | with the last philosopher reversed somebody can go on |
| Philosophers.DeadlockFree | projects/project_5/templates/solution-diningPhilosophers.c:24-60 | every reachable state of both protocols has an enabled step, for every n >= 2 |
| DiningProgress.EveryoneCanEat | projects/project_5/3-dp.c:44-79 | from every state of every run of both protocols there is a way on which any given philosopher comes to eat |
| ForkBitmap.BitsAfter | projects/project_5/2-dp.c:95-119 | a claim sets exactly the bits of the two forks, and the two exclusive ors clear exactly those |
| ForkBitmap.GoKeeps | projects/project_5/2-dp.c:85-131 | one philosopher at a time has the mutex, a bit is set exactly if one neighbour has claimed the fork, and a fork's value is 1 less its holders |
| ForkBitmap.ClaimNeverBlocks | projects/project_5/2-dp.c:112-113 | taking a claimed fork never blocks |
| ForkBitmap.ClearMeansFree | projects/project_5/2-dp.c:94-100 | a clear bit means that the semaphore is 1 and nobody owns the fork |
| ForkBitmap.SetMeansOwned | projects/project_5/2-dp.c:94-100 | a set bit means exactly one owner |
| ForkBitmap.BitmapSafe | projects/project_5/2-dp.c:85-131 | in every run of 2 to 32 philosophers the bitmap fits in 32 bits, no two neighbours eat together, and somebody can go on |
| DiningProgress.EveryoneCanClaim | projects/project_5/2-dp.c:85-131 | the same for the bitmap, for every number of philosophers |
| Zemaphore.NextKeeps | projects/project_5/zemaphore.h:16-29 | the value is the initial one plus posts less waits, and while a thread waits every unit of it has a woken thread |
| Zemaphore.NoLostSignal | projects/project_5/zemaphore.h:16-29 | Zem_wait returns at most as often as posts allow, and a positive value with a waiting thread means a woken thread that takes it |
| Regex.Match | xv6-riscv/user/grep.c:71-81 | true exactly if some suffix of the text, or the text itself after a leading ^, begins with a string of the pattern's language |
| Regex.MatchHere | xv6-riscv/user/grep.c:84-95 | true exactly if a prefix of the text, all of it for a final $, is in the pattern's language |
| Regex.MatchStar | xv6-riscv/user/grep.c:98-105 | true exactly if after some characters that fit the rest of the pattern matches |
| Regex.ReadBack | xv6-riscv/user/grep.c:84-95 | every pattern is its characters, starred or not, and a final $, written one after another |
| Regex.WriteRead | xv6-riscv/user/grep.c:84-95 | and a list of those, without a * after a single character or a single $ at the end, is read back as it was written |
| Regex.StarHere | xv6-riscv/user/grep.c:88-89 | the language of c* and a rest, one item at a time |
| Regex.OneHere | xv6-riscv/user/grep.c:92-93 | the language of a character and a rest, one item at a time |
| Pipe.Counters | xv6-riscv/kernel/pipe.c:88-123 | the counters of 32 bits tell empty and full although they wrap around |
| Pipe.RingPut | xv6-riscv/kernel/pipe.c:95-95 | a byte put into a pipe that is not full overwrites none that is still to be read |
| Pipe.Pipe.Write | xv6-riscv/kernel/pipe.c:77-103 | how many bytes are appended, in order, and with which result, from the pipe's state, the length, the bytes that copyin gets and when the writer is killed; it sleeps exactly on a full pipe; if readers slept on an empty pipe, they are left asleep on one with data exactly if the write is found killed after at least one byte and before all are written, when the pipe is at most full |
| Pipe.Pipe.Read | xv6-riscv/kernel/pipe.c:106-130 | the bytes delivered are the next ones written, as many as asked for, as there are or as copyout takes; it sleeps exactly on an empty pipe that can be written; a byte is lost exactly if copyout fails before the bytes asked for or there are run out; all writers are woken, and readers asleep still find the pipe empty |
| Pipe.Pipe.Close | xv6-riscv/kernel/pipe.c:59-74 | the end is closed, those asleep on it are woken, and the pipe is freed with the second end |
| Pipe.StrandedReader | xv6-riscv/kernel/pipe.c:83-103 | a reader left asleep on a pipe with a byte |
| Pipe.LostByte | xv6-riscv/kernel/pipe.c:119-127 | a byte taken out of the pipe and not delivered |
| Pipe.Pipe.Awake | xv6-riscv/kernel/proc.c:584-604 | a process that wakes up for another reason, as kill makes it, leaves the pipe as it is |

## Left out

- BufferCache.Cache.Bread: sleeping until another process releases the buffer; a block that somebody holds is excluded by its precondition.
- WriteAheadLog.Log.Commit: sleeping until a reader releases the buffer of a logged block; the buffers held do not change while it runs, which they do in LogOperations.
- WriteAheadLog.Log.WriteLog: sleeping until a reader releases the buffer of a logged block, as for Commit.
- WriteAheadLog.Log.Hold: sleeping until another process releases the buffer, as for Bread.
- WriteAheadLog.Log.UpdateBlock: sleeping until another process releases the buffer, as for Bread.
- WriteAheadLog.Log.InstallTrans: sleeping until a reader releases the buffer of a logged block, as for Commit; while recovering nobody else runs, so that no buffer is held or pinned.
- LogOperations: a process ends an operation with no buffer held, and a commit's bread of a logged block that a reader holds waits without a step of its own; the state machine has the transaction as a list of blocks; their contents are in WriteAheadLog.
- FileContents.Writei: a user copy that fails half-way, after which the cached block is changed and not logged; either_copyin succeeds here.
- FileContents.Readi: a user copy that fails; either_copyout succeeds here.
- Inode locks, the inode table, iget, iput, ialloc, directories and path names; outside of InodeSet the other inodes appear as the blocks of others.
- FileCrash.WriteFile: iupdate also stores type, device numbers and link count, which a write does not change; the operation is alone in its transaction.
- WriteCrash.CrashSafeFilewrite: each operation is alone in its transaction and committed before the next begins.
- The on-disk image that mkfs makes: the size of the log and of the disk are parameters.
- The disk driver: a disk write is one atomic step, and the cache is for device ROOTDEV.
- mappages, uvmunmap and freewalk on arguments for which they panic; kvmmake, uvmfirst, uvmclear, copyinstr, TLB flushes and the trampoline code.
- Vm.Machine.Walk: addresses from MAXVA on, for which it panics.
- Processes: files, working directories and memory of a process; sleeping on channels other than a process is one abstract channel; pids are not bounded by int.
- Processes.LocksProgress: states without wait_lock held, in which each p->lock is held by a process whose next step releases it.
- Lottery.Scheduler.Pass: the table does not change between the total and the scan; a remainder by zero is what the RISC-V instruction gives, and signed overflow, undefined in C, is taken to wrap around.
- Umalloc.Heap: sizes are unbounded, as they stay below 2^32 units for any memory the machine has; the client does not write to headers.
- ShellText.Parser.ParseExec: the struct execcmd is filled in place while redirections already point to it; here the tree is built at the end of the loop.
- sh.c beyond the parser: runcmd, the prompt, cd; grep.c beyond the matcher.
- Pipe.Pipe.Write: killed and copyin are parameters; the contents of the process table are in Processes.
- Zemaphore: pthread mutexes and condition variables are taken to do what POSIX says.
- Philosophers: the semaphores are atomic, as Zemaphore justifies; that everybody can come to eat is proved, not that a given scheduler lets them; one philosopher alone would wait for itself.
- 1-dp.c and the shuttles program; printing, statistics and all of the device, trap and boot code.
