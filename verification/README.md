# Verified models of xv6 with kernel threads

This project models the parts of this xv6 where most can go wrong, and proves what they promise: the crash-safe log, the
buffer cache, the file system with its directories and paths, the two memory allocators, page tables, sleep and wakeup,
the pipe, the kernel-thread mutex, the tournament tree built from it, the shell's parser and the matcher of `grep`.

`dafny verify dfyconfig.toml` checks all of it. Each module takes one source file, or one layer of it:

| module | models | main results |
|---|---|---|
| `Log` | log.c on a disk of blocks with a crash between any two writes | after every run the recovered disk holds a whole number of committed groups |
| `LogAdmission` | begin_op, end_op and log_write as steps of any number of threads | exactly when an operation is admitted; the log never overflows, and exactly what size of log that takes |
| `BufferCache` | bio.c over memide.c | the cache is one flat array of blocks; its list stays a circle in order of use |
| `CachedLog` | commit of log.c over the buffers of bio.c | it issues exactly the writes of the crash theorems if fewer blocks are listed than there are buffers, and none otherwise |
| `CrashSafety` | the files of fs.c over the log | whatever run power fails in, recovery yields a file system in order |
| `Mkfs` | what mkfs.c leaves | the super block reads back; a disk without files meets the invariants; exactly when the root directory does |
| `FsDisk` | the on-disk format of fs.h, balloc, bfree, iupdate | one bit, inode or block changes at a time |
| `Fs` | bmap, itrunc, readi, writei, ialloc, iput of fs.c | files are byte sequences; every block has one owner; a write panics exactly for want of blocks |
| `File` | filewrite of file.c | every chunk logs ten blocks at most |
| `OpBudget` | what itrunc of fs.c logs | exactly the disks on which truncation stays within ten blocks |
| `Directory`, `Path` | dirlookup, dirlink, skipelem, namex of fs.c | a directory is a finite map; a path is a fold of these maps |
| `Umalloc` | umalloc.c over sbrk | the free list stays ordered, circular and merged; nothing overlaps or gets lost; exactly the requests that break it |
| `Kalloc`, `Vm` | kalloc.c and vm.c | every page is free or has one owner, on every failure path too; exactly when memory does not suffice |
| `SleepWakeup` | sleep and wakeup of proc.c | no wakeup is lost, and no deadlock |
| `Pipe` | pipe.c | each write call stores exactly its bytes, which come out in the order they went in; who sleeps has reason to |
| `KthreadMutex` | mutex.c | the waiter count, the hand-off rule, who may end a hold |
| `Tournament`, `TournamentTree` | tree.c | mutual exclusion, and the exact case that breaks it; a mutex of its own for each node |
| `TournamentWaits` | waiting in tree.c | no circle of waiting threads, and exactly the levels whose yields bring one |
| `Shell`, `ShellGrammar` | the parser of sh.c | it accepts exactly the texts of the grammar, with their meaning; the strings left in the shared buffer are the words |
| `Grep` | the matcher of grep.c | it decides the language of the pattern |

`Common` has the constants and stock definitions that modules share, `Blocks` the blocks of bytes and their words, and
`Counting` the sums the thread models count with.

## How the models are built

State that the source changes in place is a class, and its methods follow the source's statements, loops and order of
writes. What they compute is stated through functions on plain values, and the theorems are about these. Threads are step
systems: a step is what one thread does under a lock or between two lock operations, a run is any sequence of steps of any
number of threads, and a theorem about `Reachable` states holds in every run. A panic is a result of its own, and a proof
that it cannot happen is an `assert` in the method that would panic.

The layers fit: `Log` and `BufferCache` show that the file system may see one flat array of current block values, which is
what `FsDisk` starts from, and `CachedLog` runs the commit of `Log` over the buffers. What the log asks of an operation,
that the blocks it changed are among those it logged, is part of `FsDisk.Volume.Valid` and so of every operation of `Fs`;
with it `CrashSafety` joins `Fs` and `Log`. `File` proves the bound of ten blocks per operation that `LogAdmission`
assumes for a write, `Directory` and `Fs` for the other operations, and `LogAdmission` that the appends of `Log` fit the
log. `Tournament` is built on the mutex of `KthreadMutex`.

## Where the source does not do what its comments say

* **log.c, mkfs.c.** `log_write` wants `n < log.size - 1`, while mkfs reserves exactly LOGSIZE blocks. With that, three
  operations within budget can make `log_write` panic (`LogAdmission.SmallerLogPanics`). Worse, `log_write` reads its guard
  before it takes the lock: two operations can pass it together and list more blocks than the log has room for
  (`LogAdmission.SmallerLogOverruns`). Both happen below LOGSIZE + 1 blocks and neither from there on
  (`LogAdmission.ListFitsIff`, `LogAdmission.InBudgetWritePasses`). Even then a rewrite of a logged block panics in
  `log_write` when the log is exactly full (`LogAdmission.RewriteOfFullLogPanics`), and in no other case
  (`LogAdmission.PanicOnlyOnRewriteOfFullLog`).
* **log.c, bio.c.** LOGSIZE blocks are as many as there are buffers. A commit of that many, which admission allows
  (`LogAdmission.FullCommitHappens`), finds every buffer pinned and panics in `bget`; a commit of fewer never does
  (`CachedLog.Commit`).
* **mkfs.c.** The size that mkfs gives the root directory takes in a block that is not there when the number of entries is
  a multiple of 32 (`Mkfs.RootSizeIff`).
* **mutex.c.** `kthread_mutex_lock` returns 0 without the mutex when the last owner meets waiters
  (`KthreadMutex.LockYieldsIff`). `kthread_mutex_unlock` reads the owner without the lock, so an unlock by a thread that no
  longer holds the mutex can end another's hold (`KthreadMutex.StaleUnlockReleasesAnother`). If the mutex is released
  while its recorded owner waits in a lock of its own, the waiter count goes wrong (`KthreadMutex.BreakLosesCount`,
  `KthreadMutex.CountGoesWrong`), and by no other step (`KthreadMutex.StepKeepsIff`).
* **tree.c.** A return without the mutex at the root lets two threads into the critical section
  (`Tournament.RootYieldLetsTwoIn`), and a run from the start does so (`Tournament.ExclusionFails`); without such a return
  there is never more than one (`Tournament.AtMostOneInside`). The release of a thread that does not have a node on its
  path fails there and leaves the nodes below locked, so that the thread then waits for itself
  (`TournamentWaits.RootYieldDeadlocks`). Threads come to wait in a circle by such returns at a level exactly if it is not
  the lowest one (`TournamentWaits.CyclesIff`). A tree has a mutex per inner node, of which there are 64: enough up to depth
  six (`TournamentTree.MutexesSufficeIff`).
* **pipe.c.** A writer that is killed, or finds the read end closed, when the pipe is full may leave bytes behind without
  waking a sleeping reader (`Pipe.AbandonedReaderStaysAsleep`). This is the only step that leaves a sleeper without reason
  (`Pipe.StepKeepsSleepersIff`).
* **umalloc.c.** A request within seven bytes of 2^32 wraps around and gets too little (`Umalloc.PayloadFitsIff`). For the
  others above 0x7ffffff0 the byte count given to sbrk is no positive int (`Umalloc.CountFitsIff`). If the heap has to grow
  for one of them, sbrk gives nothing or takes memory away and still succeeds, and malloc hands out memory that the process
  does not have (`Umalloc.SbrkGivesIff`, `Umalloc.HalfOfMemory`); or the size comes out as 0, every page of the process is
  freed, and malloc returns NULL, which for a process of any size happens for exactly eight requests
  (`Umalloc.EmptyingRequests`). In all other cases the heap stays sound (`Umalloc.Heap.Malloc`).
* **fs.c.** An inode number is stored in 16 bits. A link binds the name to the number it was given exactly for
  0 < inum < 65536 (`Directory.DirlinkBinds`). `itrunc` frees all blocks of a file in one operation, and its log share bounds
  it only on small disks: every truncation stays within MAXOPBLOCKS exactly if fewer bitmap blocks than that have bits of
  data blocks (`OpBudget.TruncInBudgetIff`), which with the layout of mkfs means up to 36864 blocks (`OpBudget.TruncSize`).
* **sh.c.** `>` and `>>` give the same command, so the parser's result cannot tell them apart (`ShellGrammar.LinePlain`).

## Model

| member | source | states |
|---|---|---|
| Log.HeadRoundTrip | log.c:84-113 | reading the header block back gives the list of block numbers that was written, for every list that fits: its length in the first word and the numbers behind it |
| Log.CommitIsAtomic | log.c:177-202 | stop a commit after any of its writes: recovery yields the old home blocks if the header write is missing and the whole group if it landed |
| Log.CommitLeaves | log.c:192-202 | a finished commit leaves the new values at home and an empty log |
| Log.RecoveryIsIdempotent | log.c:69-122 | recovery cut short after any of its writes and run again restores the same home blocks |
| Log.StepKeeps | log.c:69-233 | every append that fits the log, commit, crash and recovery takes the disk and the list of committed groups to matching states |
| Log.EveryRunIsAtomic | log.c:69-233 | over every run with crashes at any write of commits and recoveries, the disk stands for a whole number of committed groups, including each whose header was written |
| Log.RedoLog.Boot | log.c:53-66 | at boot recovery has been run, memory shows the recovered disk, the list is empty and no operation is under way |
| Log.RedoLog.InstallTrans | log.c:69-82 | every listed block is copied from its log block to its home, in list order, and nothing else is written |
| Log.RedoLog.ReadHead | log.c:84-96 | the list in memory becomes the one in the header block |
| Log.RedoLog.WriteHead | log.c:98-113 | one write, of the header block with the list in memory |
| Log.RedoLog.WriteLog | log.c:177-190 | every listed block's cached value goes to its log block, in list order, and nothing else is written |
| Log.RedoLog.Commit | log.c:192-202 | the code issues exactly the write sequence that the crash theorems are about, and ends with an empty log |
| Log.RedoLog.RecoverFromLog | log.c:115-122 | the code issues exactly the recovery writes and ends with the recovered disk |
| Log.RedoLog.LogWrite | log.c:213-233 | refused exactly when the source panics; otherwise the block's value changes and its number is absorbed into the list |
| LogAdmission.StepKeeps | log.c:125-233 | every step of every thread keeps the budget invariant, with the guard of log_write read before the lock and other threads in between |
| LogAdmission.BudgetHolds | log.c:125-174 | in every reachable state the logged blocks plus the unused shares of running operations fit LOGSIZE, and a log with no operation and no commit is empty |
| LogAdmission.EndOpNeverPanics | log.c:146-163 | an operation in progress excludes a commit, so end_op does not panic |
| LogAdmission.BeginAdmitsIff | log.c:125-141 | in every reachable state begin_op admits the thread exactly if no commit runs and what is logged, with a full share of every operation in progress and of this one, fits LOGSIZE; otherwise it sleeps |
| LogAdmission.AdmittedWhileLogged | log.c:125-141 | an operation is admitted while another has logged any number of blocks of its share |
| LogAdmission.EndCommitsIff | log.c:146-163 | end_op starts a commit exactly if no other operation is in progress, and otherwise wakes every sleeper |
| LogAdmission.CommitEndWakesAll | log.c:165-173 | the end of a commit leaves an empty log, no operation in progress and no sleeper |
| LogAdmission.WriteListsIff | log.c:213-233 | log_write passes exactly if fewer blocks are listed than LOGSIZE and than the log holds, and then lists the block once |
| LogAdmission.QuiescentLogAdmits | log.c:125-141 | a log at rest admits the next operation |
| LogAdmission.SleeperIsOwedAWakeup | log.c:125-174 | for who sleeps in begin_op a commit runs or the log has no room for one more full share, and some thread is in an operation or commit at whose end it calls wakeup |
| LogAdmission.InBudgetWritePasses | log.c:213-221 | with LOGSIZE + 1 blocks, logging a new block within budget never panics |
| LogAdmission.PanicOnlyOnRewriteOfFullLog | log.c:213-221 | with that size the one panic left is a rewrite of a logged block when every share is used up |
| LogAdmission.SmallerLogPanics | mkfs.c:25 | with LOGSIZE blocks or fewer, some reachable operation within budget makes log_write panic |
| LogAdmission.RewriteOfFullLogPanics | log.c:213-221 | the panic left over does happen: a reachable state of three full operations |
| LogAdmission.SmallerLogOverruns | log.c:218-230 | with fewer blocks two operations that pass the unlocked guard together list more blocks than the log holds |
| LogAdmission.ListFitsIff | log.c:213-233 | the list fits the log in every reachable state exactly for LOGSIZE + 1 blocks or more, or for one block, to which nothing can be written |
| LogAdmission.FullCommitHappens | log.c:146-169 | a commit of LOGSIZE blocks, as many as the cache has buffers, is reachable |
| BufferCache.UnlinkKeeps | bio.c:132-133 | taking a buffer out leaves a circle of the others in the same order |
| BufferCache.PushFrontKeeps | bio.c:134-137 | the next four assignments put it in front of all others |
| BufferCache.LookupIs | bio.c:96-106 | a valid buffer holds the block's current value, an invalid one leaves it on disk |
| BufferCache.ReplaceView | bio.c:109-116 | changing one buffer without renaming it changes the value of its block only |
| BufferCache.RecycleView | bio.c:81-91 | renaming a clean unreferenced buffer changes no block's value |
| BufferCache.Bcache.Binit | bio.c:38-56 | the list is a circle through all buffers, the last first, all are free, and the cache shows the disk |
| BufferCache.Bcache.FindCached | bio.c:69-76 | the buffer of the block if there is one, and the end of the list only if there is none |
| BufferCache.Bcache.FindFree | bio.c:81-91 | the least recently used buffer that is clean and unreferenced, if any |
| BufferCache.Bcache.Bget | bio.c:61-93 | the block's only buffer, locked; fails exactly when it has none and none is free; no value changes |
| BufferCache.Bcache.Bread | bio.c:96-106 | the buffer returned holds the newest value of the block, and no value changes |
| BufferCache.Bcache.Iderw | memide.c:38-60 | a dirty buffer goes to disk, as one more write, an invalid one is read, and no block's value changes |
| BufferCache.Bcache.Pin | log.c:231 | a logged buffer is marked dirty, so it is not recycled |
| BufferCache.Bcache.Bwrite | bio.c:109-116 | the disk gets the buffer's value, in one write |
| BufferCache.Bcache.Brelse | bio.c:120-141 | the last release moves the buffer to the front and keeps all others in order |
| CachedLog.RoomIff | bio.c:61-93 | with no buffer held, a block that is not pinned finds a buffer exactly when fewer than all are pinned |
| CachedLog.FlatIsDisk | bio.c:96-106 | off the pinned blocks the cache shows the disk |
| CachedLog.CopyToLog | log.c:182-188 | one turn of write_log over the cache: one write, of the home block's current value to the log block; panics exactly without a buffer for it |
| CachedLog.CopyHome | log.c:74-80 | one turn of install_trans over the cache: one write, of the log block to its home, which is pinned no more |
| CachedLog.WriteLog | log.c:177-190 | over the cache, the writes of all listed blocks to the log, in order, exactly if there are fewer of them than buffers; otherwise the first turn panics |
| CachedLog.InstallTrans | log.c:69-82 | over the cache, the writes of every listed block home, in order, and no buffer stays pinned |
| CachedLog.WriteHead | log.c:98-113 | over the cache, one write of the list to the header block, and nothing else changes |
| CachedLog.Commit | log.c:192-202 | over the cache, commit issues exactly the writes of the crash theorems, in their order, and unpins everything, exactly if the list is shorter than NBUF; otherwise it panics before the first write |
| CrashSafety.GoodSame | fs.h:8-25 | whether the disk holds a file system in order depends on its home blocks alone |
| CrashSafety.EveryRunIsCrashSafe | log.c:124-233 | over every run of operations, commits, power failures anywhere and recoveries, every committed group and what running code sees between operations is a file system in order |
| CrashSafety.RecoversInOrder | log.c:115-122 | what power failure leaves at the end of any run recovers to the home blocks of the last committed group, with all invariants of fs.c |
| CrashSafety.OperationIsEvent | log.c:204-233 | an operation that logged all it changed, within its share, is a sequence of appends that fit the log and end in its blocks |
| CrashSafety.WriteChunk | file.c:140-145 | a chunk of filewrite is such an operation |
| CrashSafety.OperationLands | log.c:125-163 | any operation of fs.c that logs no more than its share is one, and leaves the log a file system in order |
| CrashSafety.Dirlink | fs.c:552-579 | so is a link of a name, whether it succeeds or finds the name there |
| CrashSafety.Ialloc | fs.c:195-215 | so is the allocation of an inode, also when there is none |
| CrashSafety.Iput | fs.c:332-353 | so is dropping an inode, and freeing it with all its blocks, on every disk where truncation stays within budget |
| CrashSafety.Boot | proc.c:521-530 | on what any run leaves, recovery and iinit give a file system ready for operations, and the premises of the theorem again |
| Mkfs.Balloc | mkfs.c:237-251 | a bitmap block with exactly the first bits set |
| Mkfs.Format | mkfs.c:93-111 | block 1 holds the seven words of the super block and reads back as it: the log starts at block 2 and ends where the inodes start, and the data blocks are counted; with the bitmap and zeroes elsewhere the disk has no inode in use and exactly the metadata marked |
| Mkfs.SuperReadsBack | fs.c:32-39 | readsb inverts the writing of the super block, word for word |
| Mkfs.BlankIsOk | mkfs.c:93-111 | such a disk meets all invariants of fs.c |
| Mkfs.Mount | fs.c:172-187 | a file system can be started on it from the super block read there |
| Mkfs.RootSizeIff | mkfs.c:158-163 | the size given to a root of n entries keeps the invariants exactly when n is no multiple of 32 |
| Mkfs.RootWithHole | mkfs.c:158-163 | with 32 entries the root has a size of two blocks and no second block |
| Blocks.SetWordWord | fs.h:24-25 | writing one word of an indirect block and reading any gives the new word there and the old ones elsewhere |
| Blocks.SetWordBytes | mkfs.c:56-65 | the bytes of a word on disk, the lowest first, and no other byte changed |
| Blocks.WordIs | mkfs.c:56-65 | a word read is the sum of its bytes by weight |
| FsDisk.SetBitBit | fs.c:65-68 | setting or clearing one bit through its byte changes that bit only |
| FsDisk.BitOnDisk | fs.h:44-48 | which bit of which byte of which block holds the mark of a block |
| FsDisk.PutInodeAt | fs.c:222-237 | an inode written back is read back whole, and the seven others of its block stay |
| FsDisk.InodeOnDisk | fs.h:29-42 | at which byte of which block each field of an inode lies |
| FsDisk.SetBitHolds | fs.h:44-48 | writing a bitmap block changes one entry of the free map, no inode and no data block |
| FsDisk.PutInodeHolds | fs.h:38-42 | writing an inode block changes one inode, no bit and no data block |
| FsDisk.PutDataHolds | fs.h:8-11 | writing a data block changes no bit and no inode |
| FsDisk.TablesHold | fs.h:8-25 | blocks of the right size hold some free map, inodes and data, whatever is in them |
| FsDisk.Volume.constructor | fs.h:8-23 | a device with any blocks of the right size, showing the tables in them |
| FsDisk.Volume.FindFree | fs.c:63-76 | the search over bitmap blocks and bits finds the lowest free block, and none only if all are used |
| FsDisk.Volume.Balloc | fs.c:56-78 | the lowest free block is marked and zeroed, its bitmap block and itself logged; fails exactly on a full disk |
| FsDisk.Volume.Bfree | fs.c:81-96 | panics exactly on a free block; otherwise that bit alone is cleared |
| FsDisk.Volume.Iupdate | fs.c:222-237 | the inode's place on disk gets the inode in memory |
| FsDisk.Volume.LogData | fs.c:499-505 | the data block gets its new value, no bit and no inode changes, and it is logged, as every block changed since begin_op is |
| Fs.OneOwner | fs.c:373-401 | no block is in two slots of inodes or indirect blocks |
| Fs.MarkedIff | fs.c:56-96 | a bit of the free map is set exactly for metadata blocks and blocks in some slot |
| Fs.LinkKeeps | fs.c:373-401 | storing a fresh block in an empty slot, direct, indirect or below the indirect block, keeps one owner per block |
| Fs.TruncKeeps | fs.c:403-436 | truncation frees exactly the inode's blocks, keeps every invariant and changes no other file |
| Fs.FreeChange | fs.c:373-436 | conservation: the blocks that one file gains are those the free map loses, counted through its size |
| Fs.TruncFrees | fs.c:403-436 | truncation gives the free map exactly the blocks of the file's size, its indirect block included |
| Fs.TruncLogBound | fs.c:403-436 | what truncation logs: the bitmap blocks of the file's blocks, at most those that have bits of data blocks, and the inode's block |
| Fs.OtherFile | fs.c:482-512 | work on one inode leaves the blocks and bytes of every other file as they were |
| Fs.ContentOnDisk | fs.c:373-401 | in which block each byte of a file lies: one of twelve that the inode lists, or of those that its indirect block lists |
| Fs.FileSystem.constructor | fs.c:172-187 | nothing is cached at first, and the invariants of the disk are those of the file system |
| Fs.FileSystem.Bmap | fs.c:373-401 | the block of that number, allocated if absent, with all other slots and their contents kept; which blocks it logs; fails only out of range or when fewer blocks are free than it needs |
| Fs.FileSystem.Writei | fs.c:482-512 | the file's bytes become the old ones with the new in place, other files stay, memory and disk agree on the inode; exactly when it fails, and that it panics exactly when fewer blocks are free than the file lacks; how many data and bitmap blocks it logs |
| Fs.FileSystem.Readi | fs.c:453-477 | exactly the bytes of the range that the file has; fails exactly past the end or on wrap-around; allocates nothing |
| Fs.FileSystem.Itrunc | fs.c:408-436 | the code reaches the truncated state, no bfree in it meets a free block, and exactly which blocks it logs |
| Fs.FileSystem.Ilock | fs.c:288-313 | the inode in memory becomes the one on disk, unless it has no type |
| Fs.FileSystem.Ialloc | fs.c:195-215 | the first free inode, emptied and typed; fails exactly if there is none; logs one block or none |
| Fs.FileSystem.Iput | fs.c:332-353 | the last reference to an inode without links frees its blocks and the inode, and nothing else changes; exactly which blocks it logs |
| File.ChunkBlocks | file.c:133 | a chunk of at most 1536 bytes at any offset touches four blocks and adds three at most |
| File.ChunkIsTight | file.c:127-133 | both numbers are met at offset 6143, and one byte more adds a fourth block |
| File.WithinBudget | file.c:133-145 | four data, four bitmap, one indirect and one inode block make MAXOPBLOCKS |
| File.WriteChunk | file.c:140-145 | every operation of filewrite logs at most ten distinct blocks, on any disk and at any offset, and all it changed is among them |
| File.Filewrite | file.c:118-156 | the whole source is written, or the whole chunks that end below the largest file, or nothing past the end of the file; returns n exactly in the first case; panics exactly when fewer blocks are free than these bytes need |
| OpBudget.SpreadIsOk | fs.c:403-436 | a file system in order in which one file has a block under each of ten bitmap blocks |
| OpBudget.SpreadLogs | fs.c:403-436 | its truncation logs more than MAXOPBLOCKS blocks |
| OpBudget.TruncInBudgetIff | fs.c:403-436 | every truncation on every file system of that layout stays within MAXOPBLOCKS exactly if fewer bitmap blocks than that have bits of data blocks |
| OpBudget.TruncSize | param.h:10 | with the metadata in the first bitmap block's range, exactly up to 36864 blocks |
| Directory.Namecmp | fs.c:517-521 | equal exactly when the first 14 bytes up to a NUL are |
| Directory.FieldKey | fs.c:573 | the name field written for a name has that name |
| Directory.Strncpy | string.c:68-79 | the name padded with NULs to 14 bytes |
| Directory.BindingsAre | fs.c:525-549 | with unique names, a name is bound exactly when a used entry has it, and to the number there |
| Directory.LookupIsMap | fs.c:525-549 | dirlookup is lookup in the finite map |
| Directory.Dirlookup | fs.c:525-549 | the first used entry with the name; panics exactly on a file that is no directory, or ends inside an entry without a match before |
| Directory.LinkBinds | fs.c:565-576 | writing the entry, in a free slot or at the end, adds that binding and keeps names unique |
| Directory.Dirlink | fs.c:552-579 | refused exactly when the name is there; panics exactly on no directory, on one that ends in a part of an entry, or on one with all entries used that is as large as a file can be or lacks free blocks; otherwise the first free entry or a new last one is written; logs five blocks at most |
| Directory.EntryBudget | fs.c:552-579 | a new entry logs its block, two bitmap blocks, the indirect block and the inode's block at most |
| Directory.RoomIff | fs.c:563-576 | the write of the new entry can fail exactly when the directory has no room |
| Directory.DirlinkBinds | fs.c:552-579 | a successful dirlink adds exactly one binding, to the number modulo 65536, keeps names unique and changes no other file |
| Directory.EntryBytes | fs.h:53-56 | the bytes of the entry written: the number, lower byte first, and the name padded with NULs |
| Path.ElementFirst | fs.c:596-619 | the first element of a path and the components of the rest are the components of the path |
| Path.Skipelem | fs.c:596-619 | returns the first component, cut to 14 bytes, and a rest with the other components and no leading slash; fails exactly if there is none |
| Path.ParentThenLast | fs.c:641-645 | the walk to the parent and one lookup more is the whole walk |
| Path.StepIsMap | fs.c:639-651 | in a directory of whole entries with unique names, one step is a lookup in its finite map |
| Path.WalkIsFold | fs.c:625-658 | with all directories in order, a walk is the fold of their maps over the names |
| Path.ParentIsFold | fs.c:641-645 | so is the walk to the parent, over all names but the last |
| Path.LinkKeepsWalks | fs.c:552-579 | after a dirlink every path that led somewhere leads there still |
| Path.LinkThenWalk | fs.c:552-579 | and a path to the directory, with the name behind it, leads to the inode linked |
| Path.Namex | fs.c:625-658 | the result is the fold of lookups over the nonempty components, or of all but the last for the parent, with the last in the name buffer; files do not change |
| Path.Namei | fs.c:660-665 | with all directories in order, the fold of their maps over the components, from the root or from cwd |
| Path.Nameiparent | fs.c:667-671 | the directory that all components but the last lead to, with the last in the name buffer |
| Umalloc.InsertKeeps | umalloc.c:24-44 | freeing keeps the list in address order with no two blocks adjacent, and adds exactly the units of the block |
| Umalloc.FreeInMemory | umalloc.c:33-43 | the pointer assignments of free make that list a circle with one wrap |
| Umalloc.TakeOrdered | umalloc.c:75-83 | allocating keeps the list ordered and merged |
| Umalloc.TakeInMemory | umalloc.c:75-83 | so do the header assignments, for an exact fit and for a block cut at its end |
| Umalloc.FreeKeeps | umalloc.c:24-44 | live blocks stay apart from each other and from free ones, and free plus live units stay those obtained from sbrk |
| Umalloc.TakeKeeps | umalloc.c:63-90 | the same for an allocation |
| Umalloc.GrowKeeps | umalloc.c:46-61 | the same for memory from sbrk |
| Umalloc.PayloadFitsIff | umalloc.c:69 | the units of a request hold its bytes exactly if the sum does not wrap around, and then no fewer would; otherwise there are none |
| Umalloc.SbrkGivesIff | sysproc.c:47-58 | sbrk gives the bytes asked for or refuses exactly if their count is a positive int, and refuses exactly past KERNBASE or without room; otherwise it is never refused, and the process keeps its size, loses memory or loses all of it |
| Umalloc.CountFitsIff | umalloc.c:46-61 | the requests for which it is: up to 0x7ffffff0 bytes, and the last seven, which wrap around |
| Umalloc.HalfOfMemory | umalloc.c:54 | a request for half of memory: sbrk succeeds and the process stays as it is |
| Umalloc.EmptyingRequests | proc.c:210-231 | for a process of any size in whole headers exactly eight requests make sbrk free every page and return -1 |
| Umalloc.Heap.DoSbrk | proc.c:210-231 | the size and the pages of the process after each of the three outcomes |
| Umalloc.Heap.ProgramSbrk | sysproc.c:47-58 | the program may call sbrk too, with any int: the heap stays sound exactly if the process is not emptied, keeps what the heap has and ends on a header's boundary |
| Umalloc.Heap.FindPlace | umalloc.c:29-32 | the search of free ends, at the block below the one freed |
| Umalloc.Heap.Free | umalloc.c:24-44 | the block is gone from the live ones and inserted in the list, and the heap stays sound |
| Umalloc.Heap.Morecore | umalloc.c:46-61 | on a positive int, fails exactly if sbrk refuses, else 4096 units or the number asked for, if that is more, join at the end of the process, and a block ends there that fits; on exactly the other counts the process is emptied or the block reaches past its end |
| Umalloc.Heap.Search | umalloc.c:74-88 | one round from freep finds the first block that fits if there is one, and ends |
| Umalloc.Heap.Malloc | umalloc.c:63-90 | the heap stays sound exactly if a block fits or the byte count is a positive int; then n units from the end of the first block that fits, going round from freep; if none fits, the last n units of what morecore gets, or NULL exactly if sbrk refuses; the units were live nowhere before; else what the process has lost |
| Kalloc.PhysMem.Alloc | kalloc.c:82-95 | the first page of the list, and none exactly when the list is empty |
| Kalloc.PhysMem.Free | kalloc.c:59-77 | panics exactly on a page outside the range; otherwise the page goes to the front of the free list, with the link in its first word and bytes of 1 in the others |
| Kalloc.PhysMem.Freerange | kalloc.c:46-53 | all pages of the range are on the list, the last first |
| Vm.OneMapping | vm.c:60-80 | a frame is mapped at one user page of one address space only |
| Vm.OneTable | vm.c:35-55 | a page table is in one directory entry only, and is no frame and no directory |
| Vm.ViewIs | vm.c:35-55 | the two levels of the page table in numbers: the upper and the lower ten bits of a page number, and the flags of both entries |
| Vm.AddTableKeeps | vm.c:44-53 | a new page table changes what no virtual page maps to |
| Vm.SetEntryKeeps | vm.c:68-78 | writing an entry keeps one owner for every page, if the frame gains or loses its owner with it |
| Vm.DropKeeps | vm.c:283-298 | an address space can go without a trace in the others |
| Vm.Spaces.Walk | vm.c:35-55 | without alloc: the page table for the address, if its directory entry is present |
| Vm.Spaces.WalkAlloc | vm.c:35-55 | with alloc: a page table, created if need be, at the price of one free page; fails exactly if there is none and no page is free; no mapping changes |
| Vm.Spaces.Mappage | vm.c:68-78 | maps that page and no other; "remap" exactly on a mapped page, no memory exactly without a page table and a free page; on failure no mapping has changed |
| Vm.Spaces.Mappages | vm.c:60-80 | for a stretch of the kernel half: all its pages in order, or a first part of them; fails only if the page tables that are missing are more than the free pages, and takes exactly those |
| Vm.Spaces.Setupkvm | vm.c:118-136 | a directory with exactly the kernel's mappings, or every page back where it was; fails exactly if fewer pages are free than the directory and one page table per 1024 pages take |
| Vm.KmapIsKernelMap | vm.c:105-115 | the source's table of kernel mappings lies in the kernel half without overlap, so mappages never remaps |
| Vm.KmapMaps | vm.c:105-115 | they map memory below PHYSTOP from 0x80000000 on and devices to themselves, writable except for the kernel's text |
| Vm.KmapTables | vm.c:105-115 | these mappings take 64 page tables wherever the kernel's data start, so a fork of n pages takes 65 + n and one page per 1024 |
| Vm.Spaces.Allocuvm | vm.c:221-249 | zeroed frames from oldsz to newsz, or the stretch emptied and no page lost; other mappings and address spaces stay; fails exactly if fewer pages are free than frames and missing page tables take up to the first page already mapped, and otherwise panics exactly if there is one |
| Vm.PriceAtMost | vm.c:221-249 | two free pages per new page are enough |
| Vm.Spaces.Deallocuvm | vm.c:255-279 | exactly the user pages between the two sizes are unmapped and their frames freed, whatever page tables are missing |
| Vm.Spaces.Freevm | vm.c:283-298 | exactly the pages of that address space become free, and no other address space changes |
| Vm.Spaces.Copyuvm | vm.c:315-345 | equal flags and contents on other frames below sz, the kernel's mappings above, the parent unchanged; or every page back where it was, exactly if fewer pages are free than the copy takes up to the first page that is missing; otherwise panics exactly if there is one |
| Vm.CopyEnds | vm.c:325-339 | where the loop stops, against that price: the page tables of the kernel half serve none of the user half |
| SleepWakeup.StepKeeps | proc.c:538-606 | every acquire, release, test, assignment and turn of the scan keeps the invariant, on channels with a lock of their own and on those under ptable.lock; a lock that is taken has an owner that is to release it |
| SleepWakeup.NoLostWakeup | proc.c:538-606 | in every reachable state a thread asleep on a true condition is owed a wakeup by a scan that has not passed it, in both branches of sleep |
| SleepWakeup.LocksExclude | proc.c:553-575 | no lock has two holders, ptable.lock as a channel's lock included |
| SleepWakeup.NoDeadlock | proc.c:538-606 | in every reachable state with a thread in the middle of its code, such a thread can take its next step |
| SleepWakeup.ScanWakesAll | proc.c:581-597 | a scan makes runnable exactly the threads asleep on its channel ahead of it |
| Pipe.PutKeeps | pipe.c:93 | storing at the wrapped counter appends to the bytes buffered |
| Pipe.TakeKeeps | pipe.c:116 | reading at the wrapped counter takes the first of them |
| Pipe.Ring.FullIff | pipe.c:84-108 | the tests for a full and an empty pipe are right although the counters wrap |
| Pipe.Ring.WriteHere | pipe.c:83-98 | one stretch of pipewrite under the lock stores the bytes of addr from i on, in order, until all are stored or the pipe is full, and ends as the source does |
| Pipe.Ring.ReadHere | pipe.c:105-121 | one stretch of piperead takes the first bytes there are, up to n, and returns their number; on an empty pipe with the write end open it gives up or sleeps |
| Pipe.StepIsFifo | pipe.c:59-121 | every step keeps the bytes in order |
| Pipe.ReadsArePrefixOfWrites | pipe.c:78-121 | over every run the bytes read are a prefix of those written, with at most 512 in between |
| Pipe.WritesStoreTheirBytes | pipe.c:78-98 | over every run, what a write call has stored over all its stretches is exactly the first i bytes of its data; it returns their number exactly if that is all of them, and otherwise -1 |
| Pipe.ReadsGetWhatTheyReturn | pipe.c:101-121 | over every run, the reads that returned got the bytes taken, in order, each as many as it returned and at most what it asked for |
| Pipe.StepKeepsSleepersIff | pipe.c:59-121 | a step keeps every sleeper justified if and only if it is not a writer, killed or with the read end closed, leaving bytes in a full pipe to a sleeping reader |
| Pipe.SleepersAreJustified | pipe.c:59-121 | over every run without such a step, a sleeping reader means empty and open for writing, a sleeping writer means full and open for reading |
| Pipe.AbandonedReaderStaysAsleep | pipe.c:85-89 | the exception happens: a killed writer of 513 bytes |
| KthreadMutex.StepKeepsIff | mutex.c:95-145 | a step of any thread keeps the invariant if and only if it does not release the mutex while its recorded owner waits in a lock of its own |
| KthreadMutex.RulesAvoidBreaks | mutex.c:79-145 | callers that do not lock a mutex they hold, or that unlock only what they hold, never take such a step |
| KthreadMutex.WaitingIsTheCount | mutex.c:96-106 | in every run without such a step waitingThreads is the number of threads between its increment and its decrement |
| KthreadMutex.BreakLosesCount | mutex.c:96-106 | and every such step leads to a count that is one too low |
| KthreadMutex.CountGoesWrong | mutex.c:95-145 | which happens, in a run of any two threads from a fresh mutex |
| KthreadMutex.CountZeroIff | mutex.c:96-107 | on a free mutex it is zero exactly if nobody waits |
| KthreadMutex.LockYieldsIff | mutex.c:95-114 | lock on a free mutex returns without it if and only if the caller is the last owner and some thread waits |
| KthreadMutex.WaiterTakes | mutex.c:99-111 | a thread that waited and finds the mutex free takes it |
| KthreadMutex.OwnerEndsOwnHold | mutex.c:129-145 | when only holders call unlock, a hold ends only by its owner's own unlock |
| KthreadMutex.SleeperIsOwedAWakeup | mutex.c:99-102 | a sleeper on a free mutex is owed a wakeup |
| KthreadMutex.StaleUnlockReleasesAnother | mutex.c:128-140 | for any two threads a state is reachable in which an unlock by one, that does not hold the mutex, ends the other's hold |
| Tournament.StepKeeps | tree.c:106-135 | every step without a yield on the levels considered keeps the invariant of these levels |
| Tournament.AtMostOneInside | tree.c:106-135 | over all runs without a yield at the root, for any depth and distinct leaves, at most one thread is past the acquire |
| Tournament.YieldsIff | mutex.c:103-111 | a node yields exactly when its last owner comes back to it free while another waits there |
| Tournament.RootYieldLetsTwoIn | tree.c:106-123 | a yield at the root always lets a second thread in |
| Tournament.RootYieldHappens | tree.c:106-135 | and there is a run from the start to one |
| Tournament.ExclusionFails | tree.c:106-135 | so there is a run from the start to two threads past the acquire |
| Tournament.AtMostTwoContend | tree.c:106-123 | over all runs without yields at most two threads contend at a node |
| TournamentWaits.WaitGoesUp | tree.c:112-121 | with yields at the lowest level only, who is waited for holds strictly more levels |
| TournamentWaits.NoWaitCycle | tree.c:106-135 | over all runs with yields at the lowest level only, no chain of waiting threads closes |
| TournamentWaits.LostNodeDeadlocks | tree.c:125-135 | a thread that comes down to a node above the lowest level that it does not have gives up there, and waits for itself the next time |
| TournamentWaits.RootYieldDeadlocks | tree.c:106-135 | in a tree of two levels or more every yield at the root can go on to that |
| TournamentWaits.YieldDeadlocks | tree.c:106-135 | for any tree and any two threads that meet above the lowest level there is such a run from the start |
| TournamentWaits.CyclesIff | tree.c:106-135 | yields at one level bring a circle of waiting threads exactly if it is not the lowest |
| TournamentTree.FindLeafIff | tree.c:137-152 | find_leaf succeeds exactly for the numbers from 0 to 2^depth - 1, with the leaf of that number |
| TournamentTree.LeafUnique | tree.c:137-152 | no other leaf has the number |
| TournamentTree.LeafPath | tree.c:106-123 | a leaf has one ancestor per level, the node that Tournament locks there |
| TournamentTree.MutexPerNode | tree.c:45-53 | if the mutexes allocated are different, two leaves have the same mutex on some levels of their paths exactly where they have the same node, as Tournament assumes |
| TournamentTree.CallForIff | tree.c:45-53 | each inner node has the mutex of one call, and different nodes of different calls |
| TournamentTree.MutexesSufficeIff | kthread.h:2 | the mutexes there are suffice exactly for trees up to depth six |
| TournamentTree.Builder.TreeAlloc | tree.c:9-24 | for every legal depth a perfect tree, numbered from left to right from 0 on each level, with the mutex of one call for each inner node, root first; NULL for the others |
| TournamentTree.Builder.CreateTree | tree.c:29-57 | the shared counters number each subtree from left to right whatever was numbered before; its inner nodes have the mutexes of consecutive calls |
| TournamentTree.Builder.Acquire | tree.c:106-123 | the lock path holds the mutexes of the leaf's ancestors by level, up to the first lock that fails, and what it held before on the levels after that; succeeds exactly if all locks do; there is no leaf exactly for numbers out of range |
| TournamentTree.Builder.ReleasePath | tree.c:127-133 | the loop unlocks the levels of the last tree allocated from its root down, and clears each, up to the first unlock that fails, below which the path stays; of a leaf of an older, deeper tree the lower levels only |
| TournamentTree.Builder.Release | tree.c:125-135 | release on the last tree does so for the leaf of that number; succeeds exactly if all unlocks do, with the whole path unlocked and cleared |
| ShellGrammar.ParsePrint | sh.c:327-446 | parsing the canonical text of any command gives that command back |
| ShellGrammar.ProducedIff | sh.c:327-446 | the commands the parser can produce are exactly those of proper words with at most nine arguments |
| ShellGrammar.LexPrint | sh.c:265-308 | tokens written with a space before each read as these tokens |
| ShellGrammar.LexIff | sh.c:265-308 | the tokens of a text are these exactly if it is a way to write them: any space around them, and none only where they do not run together |
| ShellGrammar.ParsesIff | sh.c:327-446 | a text parses to a command exactly if its tokens are those of a phrase of the grammar with that meaning: words and redirections in any order, only `<` for input |
| ShellGrammar.LinePlain | sh.c:386-394 | with `>` for every `>>` any list of tokens parses to the same command, and fails where it failed |
| Shell.Gettoken | sh.c:265-308 | the next token, where its word lies, and the tokens of the rest |
| Shell.Peek | sh.c:310-320 | tells whether the next token is one of the symbols, and moves over spaces only |
| Shell.Parseredirs | sh.c:374-397 | the redirections of the grammar, in order, or a syntax error exactly where a file is missing |
| Shell.Parseargs | sh.c:429-446 | the words and redirections of a simple command, and a syntax error exactly where the source panics |
| Shell.Parseexec | sh.c:415-446 | agrees with the grammar of simple commands and blocks |
| Shell.Parseblock | sh.c:399-413 | agrees with the grammar of blocks |
| Shell.Parsepipe | sh.c:361-372 | agrees with the grammar of pipelines |
| Shell.Parseline | sh.c:344-359 | agrees with the grammar of lines, and ends |
| Shell.Parsecmd | sh.c:327-342 | a command exactly when the whole text is one, and then that one |
| Shell.Nulterminate | sh.c:449-493 | a NUL behind every word of the command, and no character of any word touched |
| Shell.StringsAreWords | sh.c:449-493 | then every argv and file string is the word that gettoken delimited |
| Shell.ParseAndEnd | sh.c:327-342 | the strings of the command that parsecmd returns, in the one shared buffer, are the words the grammar gives |
| Grep.HereStar | grep.c:99-106 | a starred character stands for any number of characters it matches |
| Grep.HereOne | grep.c:93-94 | a plain character or a dot stands for one |
| Grep.Match | grep.c:72-82 | true exactly if the text has a substring in the language of the pattern, at the start after '^' and at the end before '$' |
| Grep.MatchHere | grep.c:85-96 | true exactly if some prefix is in the language, and it ends |
| Grep.MatchStar | grep.c:99-106 | true exactly if some number of repetitions leads to a match |

## Left out

- Boot code, interrupts, drivers, the console, system call argument fetching and user commands other than sh and grep: no algorithm to speak of.
- The process lifecycle (fork, exit, wait, exec, kthread_create): thin over the parts modelled, or racing where slots are handed out.
- Spinlocks and memory ordering: acquire and release are atomic steps.
- Interleaving inside fs.c, vm.c, umalloc.c and bio.c: their operations run one at a time, each to its end; the sleep locks on buffers are a flag.
- Log.RedoLog.LogWrite: runs its check and its append without another thread in between; LogAdmission.StepKeeps is about the interleavings.
- CrashSafety.EveryRunIsCrashSafe: of operations that overlap in one group it asks that the group as a whole leave the file system in order, because Fs runs its operations one at a time; the operations shown to do so are chunks of a write, links, and allocating and dropping an inode.
- CrashSafety.Iput: asks for a disk on which truncation stays within its share; OpBudget.TruncInBudgetIff says exactly which those are, and that on any other the code exceeds it.
- CachedLog.Commit: no other thread holds a buffer during the commit, as none does that is inside an operation; readers outside operations are not modelled.
- Reference counts of cached inodes, and the inode cache as an array of slots: `Fs` keeps the valid in-memory inodes as a map by number.
- Building a root directory and files in mkfs.c (iappend): Mkfs.RootSizeIff starts from the blocks that it leaves for a number of entries.
- fileread, the file table, and system calls on files.
- Sizes that exceed the signed int of balloc's loop: `FsDisk` asks for fewer than 0x7ffff000 blocks.
- BufferCache.Bcache.Bget: asks that the block's buffer not be locked, where the source sleeps until it is released.
- BufferCache.Bcache.Bread: asks the same.
- Fs.FileSystem.constructor: takes a volume in order with its super block; Mkfs.Mount, which reads the super block, and CrashSafety.Boot show two ways to one.
- Fs.FileSystem.Readi: calls the half of bmap that finds a block, with the proof that a read never gets to the half that allocates; device inodes (the branch to devsw) are left out.
- Fs.FileSystem.Writei: leaves out device inodes; after a panic for want of blocks it says only that the disk is full, because the run ends there.
- Fs.FileSystem.Iput: takes the reference count as a parameter and does not store the new one.
- File.Filewrite: the inode branch only, for files open for writing and counts that are not negative.
- Path.Namex: an entry with a number outside the inode table counts as a panic, because the source would read past the table; the directories passed are not released.
- Umalloc.Heap.ProgramSbrk: says of a size that is on no header's boundary only that the heap is not sound any more; malloc on unaligned memory is not modelled.
- Kalloc.PhysMem.Free: asks that the page not be on the free list; the source does not look.
- Vm.Spaces.Mappages: takes whole pages of the kernel half, as its callers there pass; allocuvm and copyuvm map one page at a time through Vm.Spaces.Mappage.
- Vm.Spaces.Deallocuvm: asks for oldsz up to KERNBASE, where callers keep user sizes.
- Vm.Spaces.Copyuvm: asks the same of sz.
- loaduvm, inituvm, switchuvm, clearpteu, uva2ka and copyout of vm.c.
- Shell.Parseargs: the command node that parseexec fills while redirections already wrap it is a list of words and a list of redirections joined at the end.
- Running commands (runcmd) and reading lines in sh.c; the line buffering of grep.c.
- Mutex allocation and deallocation, and deleting a tree.
- TournamentTree.Builder.Acquire: stops at a number that no leaf has, where the source goes on with a null pointer; it is for the last tree allocated.
- TournamentTree.Builder.Release: stops there too, and is for the last tree allocated; TournamentTree.Builder.ReleasePath is for leaves of older trees.
- TournamentTree.Builder.ReleasePath: asks for a path with room for the depth of the last tree allocated; for a leaf of an older tree of less depth the source reads behind the path.
- Tournament.AtMostOneInside: is for any depth, while the source has mutexes for trees up to depth six.
- Tournament.AtMostTwoContend: is about runs without yields on any level.
