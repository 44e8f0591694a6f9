# RT-xv6, modelled in Dafny

A model of the stateful core of RT-xv6, an xv6 kernel with a real-time
scheduler, and proofs about it. `dafny verify dfyconfig.toml` checks the whole
project. Nothing here executes the kernel.

The parts, each in one or a few modules:

| modules | what they model | main results |
|---|---|---|
| Blocks, Journal, Wal, BufferCache, Log | the buffer cache and the write-ahead log | a commit is atomic at its header write in every crash image; exactly when the buffer supply fails it |
| GroupCommit, GroupLimits | the log's protocol, over all interleavings of operations, commits, crashes and reboots | commits always run alone and each operation ends up in one group; every run recovers to the log_write calls made up to its last header write, less those a crash undid, if and only if what the operations log fits the log area, which it does not on the disks mkfs makes; exactly when log_write's guards can fire |
| FsLayout, FsState, FsContent, FsLogs, FsTrunc, Fs, File | block and inode allocation, file contents, write and truncate | every block has one owner and the free map says which; writes, reads and truncation against a byte-sequence meaning of a file; chunked writes against one write; exactly which and how many blocks a write logs |
| FsCrash | the file system on top of the log | after a crash at any disk write, recovery yields all the old files or all the new ones; after any run, the files that the committed writes and truncations in order make of the first ones |
| Malloc | the user-level allocator | blocks tile the heap, the free list is the address-ordered maximal free runs, no two live blocks overlap; exactly when the memory behind them is the process's |
| ReadyHeap, Sched | the priority-threshold scheduler | the ready queue lists exactly the runnable processes after every operation; highest priority first, and exactly when the mixed heap macros break that; no process waits while it has a zombie child; a parent's wait gets the pid of the child that left |
| Spinlock, SleepWakeup | spinlocks, interrupt nesting, sleep and wakeup | mutual exclusion and exact panics over all interleavings of single memory accesses; acquire returns with the lock, release without it, sleep with the caller's lock; no lost wakeup, no deadlock of the two locks |
| VmTables, Vm, VmUser | frames, page tables, growing, copying, writing and freeing address spaces | every frame is accounted for; copies are isolated; exactly which pages a teardown overlooks, when a failed copy loses a frame and when growing claims success with a page missing |
| ShellGrammar, ShellLines, ShellText, Shell | the shell's tokenizer, parser and nulterminate | the shell reads exactly the lines that can be typed for a command, in any order and spacing that keeps tokens apart, and panics on all others; print and parse are inverse; cutting the line into C strings damages no word |
| Grep, Pipe, Console | the regular-expression matcher, pipes, console line editing | the matcher decides its denotation, which is spelled out for letters, `.`, `^`, `$` and `*`; reads are a prefix of writes through a wrapping ring; line editing against a line semantics |

How the code is represented:

- Code that updates objects in place is a class or a method on arrays and
  fields, proved against functions of the old state. Concurrent protocols are
  machines whose runs are all interleavings of their steps. Expression-like
  code is functions and lemmas.
- 32-bit wrap-around is written out where the code relies on it or can meet it:
  the pipe and console counters, the ready-queue index, malloc's rounding and
  the byte count it passes to sbrk as an int, the offset checks of readi and
  writei.
- Devices, the clock, `getc`, whether the kernel has pages left for `sbrk`, the
  killed flag and the set of device drivers are parameters. A disk image is a sequence of blocks, and
  crash images are the disk's history.
- The file-system layer works on the plain block store that the buffer cache is
  proved to present. The methods of Log run with no buffer held by another
  process; the interleavings of several processes are in GroupCommit.
- A panic is a result value, and the contract says exactly when it happens.
- pipewrite, piperead, consoleread and wait are modelled from one sleep to the
  next: each method is what one process does while it holds the lock.

Where the code does not do what its comments or constants suggest, the code is
modelled and the difference is a theorem:

- mkfs reserves LOGSIZE blocks for the log header and the log, one too few. On
  such a disk log_write's guards can panic, and since they are tested before the
  lock is taken two calls can pass the last one together: write_log then writes
  over the first inode block before anything is committed
  (GroupLimits.MkfsLogOverruns, GroupLimits.CrashSafeExactly).
- log_write tests for a full list before it looks for the block in the list, so
  operations that keep to MAXOPBLOCKS distinct blocks can panic by logging one
  twice, although no run loses anything (GroupLimits.RepeatsPanic).
- A log of NBUF blocks pins every buffer and commit panics in bget; it succeeds
  exactly below NBUF (Log.Log.Commit), and operations within their reservation
  get there (GroupLimits.EveryBufferPinned).
- A filewrite chunk can log 17 blocks although an operation reserves 10
  (File.ChunkLogs, File.LongestChunk), and operations larger than their
  reservation can overfill the list in memory however large the log area is
  (GroupLimits.LargeOperationsBreak). An over-long write leaves a prefix behind while it returns
  -1 (File.ChunkedIsWhole, File.ChunkedDiffers).
- heap.h's PARENT does not match its LEFT and RIGHT, so a removal can leave a
  lower priority first (ReadyHeap.RemovedRootMax, ReadyHeap.MixedRunMisorders).
- malloc's size rounding wraps (Malloc.UnitsHold), and morecore asks sbrk for a
  32-bit product taken as an int: for 2^31 bytes and more sbrk succeeds without
  giving any memory, and the list hands out what the process does not have
  (Malloc.Heap.Malloc, Malloc.HugeRequests).
- wakeup1 compares the integers the channels point to, so it wakes a superset
  (Sched.Table.Wakeup1).
- The scheduler reads the current process's threshold while frozen, even when
  there is none (Sched.Table.Dispatch).
- deallocuvm's 4 MB skip is not aligned, so it can jump over mapped pages
  (VmTables.SweepExact, VmTables.OverlookedPage).
- copyuvm loses a frame when mappages fails (Vm.Machine.Copyuvm), and allocuvm
  then even reports success if that was its last page (VmUser.Allocuvm).
- copyout follows a null page-table entry when a page table is missing
  (VmUser.Copyout).

## Model

| member | source | states |
|---|---|---|
| Journal.ExtendsTwice | log.c:211-231 | the log_write calls of two stretches of code, taken together, turn the disk before the first into the disk after the second, and name the blocks of both |
| Blocks.WordAfterSet | log.c:101-113 | writing a 32-bit word of a block changes that word and no other |
| Wal.HeadRoundTrip | log.c:85-113 | read_head after write_head gives back the count and the whole list |
| Wal.RecoverAt | log.c:69-122 | the recovered image block by block: every listed home block gets its slot, the header is emptied, every other block stays |
| Wal.RecoverIdempotent | log.c:115-122 | recovering a recovered disk changes nothing, so recovery may itself be interrupted and repeated |
| Wal.EmptyLogMeansHome | log.c:115-122 | with an empty header the disk means its home blocks |
| Wal.SlotWriteInvisible | log.c:175-188 | filling log slots before the header is written changes what the disk means for no home block |
| Wal.HeaderWriteCommits | log.c:101-113 | the single header write moves the meaning of the disk from the old image to the new one |
| Wal.InstallKeepsMeaning | log.c:69-82 | copying a committed slot home, in any order and any number of times, leaves the recovered image alone |
| Wal.ClearKeepsMeaning | log.c:190-200 | once all slots are home, clearing the header leaves the recovered image alone |
| BufferCache.Bcache.constructor | bio.c:39-57 | binit: all buffers in the ring, none holding a block |
| BufferCache.UnlinkKeepsRing | bio.c:123-142 | taking a buffer out by its pointers leaves a doubly linked ring of the others in the same order |
| BufferCache.PushKeepsRing | bio.c:39-57 | linking a buffer behind the head leaves a doubly linked ring with it in front |
| BufferCache.Bcache.Bget | bio.c:62-96 | sleeps exactly when the block's buffer is held, panics exactly when the block is not cached and no buffer is free and clean, otherwise returns the block's own buffer or the least recently used free clean one; no other buffer changes |
| BufferCache.Bcache.Bread | bio.c:99-109 | a held valid buffer with the contents the store has for the block; pinned buffers keep their contents |
| BufferCache.Bcache.Bwrite | bio.c:112-119 | writes a held buffer through, valid or not; panics exactly when it is not held or names no block of the disk |
| BufferCache.Bcache.Brelse | bio.c:123-142 | releases a held buffer and makes it most recently used, panics exactly when it is not held; the cache stays coherent if and only if the contents were logged, written or left alone |
| BufferCache.Bcache.Iderw | memide.c:37-59 | writes a dirty buffer out or reads an invalid one in, panics exactly otherwise |
| BufferCache.Bcache.Pin | log.c:211-231 | the dirty flag makes the buffer's contents the block's contents in memory only |
| BufferCache.CleanEqualsDisk | bio.c:62-142 | in every coherent cache a released, valid, clean buffer equals its disk block |
| BufferCache.UncachedEqualsDisk | bio.c:62-142 | a block held by no valid buffer is the same for readers and on disk |
| BufferCache.SoleHolder | bio.c:62-96 | no two valid buffers hold the same block |
| Log.Log.constructor | log.c:49-66 | the log before recovery |
| Log.Log.WriteLog | log.c:175-188 | every logged block is copied from the cache to its slot; each image on the way means the old disk |
| Log.Log.WriteHead | log.c:101-113 | the header on disk becomes the in-memory list, in one disk write |
| Log.Log.InstallTrans | log.c:69-82 | every slot is copied home and unpinned; each image on the way recovers to the same disk |
| Log.Log.Commit | log.c:190-200 | succeeds exactly when fewer than NBUF blocks are logged; every crash image up to the header write recovers to the old contents and every later one to the new, for all home blocks; afterwards disk and store agree and the log is empty |
| Log.CommitPoint | log.c:190-200 | with all slots filled, writing the header makes what readers see the meaning of the disk |
| Log.FreeUnlessFull | bio.c:83-95 | with no buffer held, a buffer can be recycled exactly when the log lists fewer than NBUF blocks |
| Log.Log.ReadHead | log.c:85-96 | the in-memory list becomes the list on disk |
| Log.Log.RecoverFromLog | log.c:115-122 | ends in Recover of the image it found; every image it passes through recovers to that same disk |
| Log.Log.BeginOp | log.c:125-141 | admits exactly when no commit runs and one more budget of MAXOPBLOCKS fits |
| Log.Log.LogWrite | log.c:211-231 | refuses exactly on a full log or outside an operation; otherwise lists the block once and pins its buffer |
| Log.Log.EndOp | log.c:145-172 | commits exactly when the last operation ends; then the disk holds every logged block, and every crash image on the way means the old contents up to the header write and the new from it on; otherwise nothing changes but the count |
| GroupCommit.CommitsRunAlone | log.c:125-231 | in every run, whatever the operations log and however small the log: a commit runs with no operation in progress and a list that stands still, end_op never finds one running, the writes of an operation are all in one committed group, all open or all lost, and committed and open writes are, in order, the log_write calls of the run that no crash has undone |
| GroupCommit.StepKeeps | log.c:125-231 | every step of operations, commit, crash, reboot and recovery keeps the protocol's invariant, if what the operations may log fits the log area |
| GroupCommit.CrashSafety | log.c:125-231 | then in every reachable state the disk recovers to exactly the log_write calls up to the last header write that no crash undid, readers of the cache see all that survive, with nothing in progress the two are the same, and the list fits lh.block |
| GroupCommit.HeaderWriteIsTheCommit | log.c:190-200 | no step but the header write changes what recovery yields, and that one makes it what readers see; the list stands still during a commit |
| GroupCommit.NeverStuck | log.c:145-200 | a commit or recovery under way always has its next step enabled |
| GroupLimits.CrashSafeExactly | log.c:125-231 | all runs are crash safe if and only if log_write calls do not overlap, or nothing is ever listed, or each operation logs at most MAXOPBLOCKS blocks and there are slots for MAXOPBLOCKS and two operations more |
| GroupLimits.GuardsExactly | log.c:211-222 | no run panics in log_write if and only if each operation makes at most MAXOPBLOCKS calls and there are slots for MAXOPBLOCKS and two operations more, or the like for a bound on distinct blocks, which must leave room for one repeated |
| GroupLimits.MkfsLogOverruns | mkfs.c:20-24 | in a log area of LOGSIZE blocks, operations of MAXOPBLOCKS calls have a run without a panic or a commit after which recovery no longer yields the first disk |
| GroupLimits.RepeatsPanic | log.c:211-231 | in a large enough log, operations of MAXOPBLOCKS distinct blocks have a run that panics, and every run is crash safe |
| GroupLimits.EveryBufferPinned | log.c:190-200 | operations of MAXOPBLOCKS calls, one call at a time, reach a commit of NBUF blocks |
| GroupLimits.LargeOperationsBreak | file.c:132-142 | in a log area of any size above LOGSIZE, operations of more than MAXOPBLOCKS blocks have a run that panics and one that lists more blocks than lh.block holds |
| FsLayout.BitAfterMark | fs.c:53-75 | setting a bit of the free map changes that bit only |
| FsLayout.BitAfterFree | fs.c:78-93 | clearing a bit of the free map changes that bit only |
| FsLayout.NodeRoundTrip | fs.c:199-215 | reading an inode back after iupdate gives it back, and its neighbours in the block are unchanged |
| FsState.AllocKeepsSound | fs.c:53-75 | giving a free block to an absent reference keeps: all references inside the data area, no block referenced twice, the map set exactly for metadata and referenced blocks |
| FsState.DataWriteKeeps | fs.c:462-492 | overwriting a data block moves no file's reference |
| FsState.NodeWriteSyncs | fs.c:199-215 | after iupdate every inode on disk is the one in memory |
| Fs.FileSystem.FindFree | fs.c:53-75 | finds the lowest free block, or the map is full |
| Fs.FileSystem.Balloc | fs.c:53-75 | takes the lowest free block, marked and zeroed, logging exactly it and its map block; fails only on a full map |
| Fs.FileSystem.Bfree | fs.c:78-93 | clears the bit, logging exactly the map block; panics exactly when it is already clear |
| Fs.FileSystem.Bmap | fs.c:356-384 | the block of a file position, allocated with its indirect block where absent; the invariant holds, all other references and contents stay, present blocks change and log nothing, and for an absent one exactly the blocks named by MapLogs are logged; panics exactly past MAXFILE |
| Fs.FileSystem.Iupdate | fs.c:199-215 | the inode's place on disk holds the inode |
| Fs.FileSystem.Writei | fs.c:462-492 | refuses exactly the offsets and lengths the checks exclude, leaving all unchanged; otherwise the file's bytes are the old ones with src spliced in at off, the size grows exactly as needed, every other file is unchanged, the invariant holds, and its log_write calls name exactly the blocks of WriteLogs and replayed give the new disk |
| Fs.FileSystem.Readi | fs.c:434-458 | refuses exactly the excluded offsets; otherwise returns that slice of the file's bytes, cut at its end, and changes nothing |
| Fs.FileSystem.Itrunc | fs.c:391-419 | the file becomes empty, exactly its blocks become free, every other file keeps its bytes, no bfree panics, and its log_write calls replayed give the new disk |
| FsTrunc.TruncKeepsSound | fs.c:391-419 | after all blocks are given back the allocation invariant holds again |
| FsTrunc.TurnFrees | fs.c:391-419 | each block freed on the way is still marked, so bfree's panic cannot happen |
| Fs.FileSystem.WriteThenRead | fs.c:434-492 | a readi after a writei, at any two ranges of the file, returns the old bytes with the written ones spliced in; at the same range it returns what was written |
| FsContent.SpliceTwice | file.c:116-155 | two adjacent writes are one write of both |
| File.WroteTwice | file.c:116-155 | two successful writei calls one behind the other have the effect of one, on the whole file system |
| File.Filewrite | file.c:116-155 | the chunk loop writes exactly the accepted prefix, advances the offset by it, returns n or -1 accordingly, and keeps the file-system invariant; a device is handed over exactly when it has a driver |
| File.ChunkedIsWhole | file.c:116-155 | chunking accepts what one writei would accept if and only if the whole write fits or already its first chunk does not |
| File.ChunkedDiffers | file.c:116-155 | a concrete over-long write of which a prefix stays |
| FsLogs.LogsAdvance | fs.c:478-486 | each round of writei adds to the logged blocks exactly those of its block: the block, and where it is new its map block, the indirect block and that one's map block |
| FsLogs.PartsCount | fs.c:462-492 | the file's blocks of a write and the indirect, map and inode blocks that change with them are all different, so there are as many as there are of each |
| File.WriteCount | fs.c:462-492 | a writei logs exactly as many blocks as it writes, and one more each if a block is allocated, if one is entered in the indirect block, and if the file grows |
| File.ChunkLogs | file.c:132-142 | a chunk logs more than MAXOPBLOCKS blocks if and only if that count says so, at most 17, and 17 if and only if it touches 14 blocks, grows the file and adds an entry to the indirect block |
| File.OverwriteLogs | file.c:132-142 | overwriting existing bytes keeps to MAXOPBLOCKS if and only if it touches at most ten blocks |
| File.LongestChunk | file.c:132-142 | a full chunk appended to a file of 6244 bytes logs 17 blocks |
| FsCrash.OneMeaning | fs.c:199-215 | the disk determines the inodes and the files it holds |
| FsCrash.HoldsFrame | fs.h:13-24 | disks that agree outside the log area hold the same inodes and files, with the allocation invariant |
| FsCrash.CommitIsAtomic | log.c:190-200 | for a commit from one file system to another, every crash image recovers to all the old files up to the header write and to all the new ones from it on |
| FsCrash.WriteIsAtomic | fs.c:462-492 | after a crash during the commit of a writei the file has its old bytes or the spliced ones, and every other file is intact |
| FsCrash.TruncIsAtomic | fs.c:391-419 | after a crash during the commit of an itrunc the file is as before or empty, and every other file is intact |
| FsCrash.JournalCarries | fs.c:391-492 | the log_write calls of writei and itrunc done one after the other make a group that holds these operations |
| FsCrash.RunKeepsFiles | log.c:125-231 | over all interleavings, crashes and reboots whose groups hold whole writes and truncations, recovery yields file by file what those committed, in order, make of the first files |
| Malloc.Heap.constructor | umalloc.c:18-22 | the allocator before its first call |
| Malloc.Heap.FindPlace | umalloc.c:24-32 | free's search stops at the list element below the block in address order, including at the wrap of the list |
| Malloc.Heap.MergeNext | umalloc.c:33-37 | the block joins the free block right above it, if there is one |
| Malloc.Heap.MergePrev | umalloc.c:38-43 | the block joins the free block right below it or is linked behind it |
| Malloc.Heap.Free | umalloc.c:24-44 | exactly the block's units become free, no other live block changes, and the free list is again the address-ordered list of maximal free runs |
| Malloc.Heap.Morecore | umalloc.c:46-61 | whatever sbrk was really asked for, the units wanted become free from the old end of the process on, nothing live changes, a large enough block exists; fails exactly when sbrk does |
| Malloc.Heap.Search | umalloc.c:70-89 | one trip round the list finds a large enough block or there is none |
| Malloc.Heap.TakeEnd | umalloc.c:75-84 | splitting leaves the front free and gives the tail |
| Malloc.Heap.Malloc | umalloc.c:63-90 | returns a new live block of the rounded size disjoint from all live ones, taking exactly its units from the free ones; returns 0 exactly when no free block fits and sbrk fails; asks for memory at most once and only then; the block, and with it the whole list, lies inside the process if and only if sbrk was not asked or the units it was asked for are fewer than 2^31 bytes |
| Malloc.UnitsHold | umalloc.c:69 | the block holds the bytes asked for if and only if the rounding does not wrap |
| Malloc.GrowCovers | proc.c:155-171 | when sbrk succeeds the process has grown by the units wanted if and only if their bytes fit an int, and otherwise it has not grown at all |
| Malloc.HugeRequests | umalloc.c:46-61 | for 0xfffffff8 bytes sbrk is asked for none and for 0x80000000 for a negative number; both succeed and change nothing |
| Malloc.RunInBlock | umalloc.c:24-44 | any run of free units lies in one block of the free list |
| ReadyHeap.Heapify | heap.c:56-68 | the array becomes the sift-down of its old contents |
| ReadyHeap.IncreaseKey | heap.c:70-79 | the array becomes the sift-up of its old contents |
| ReadyHeap.SiftUpPermutes | heap.c:70-79 | insertion permutes the queue and leaves the rest of the array |
| ReadyHeap.InsertKeepsUpHeap | heap.c:70-79 | insertion keeps the order given by PARENT |
| ReadyHeap.UpHeapRoot | heap.h:1-3 | in that order the first entry has the highest priority |
| ReadyHeap.SiftDownHeaps | heap.c:56-68 | heapify establishes the order given by LEFT and RIGHT |
| ReadyHeap.RemovedRootMax | heap.c:56-68 | after a removal the first entry has the highest remaining priority if and only if one such entry was at place 1, 2 or last |
| ReadyHeap.MixedRunMisorders | heap.h:1-3 | a run of insertions and removals that ends with priority 3 ahead of priority 4 |
| Sched.QueueFits | proc.c:519-541 | the queue cannot overflow: it holds no more entries than there are other processes |
| Sched.QueuedOnce | proc.c:356-408 | a process is in the queue if and only if it is runnable, and once |
| Sched.Table.constructor | proc.c:135-150 | after userinit the queue is the one runnable process |
| Sched.Table.Insert | proc.c:519-541 | making a process runnable and queueing it keeps the queue exact and ordered |
| Sched.Table.Allocproc | proc.c:55-71 | claims an unused entry with the next pid and moves that on, or there is none; pids stay unique |
| Sched.Table.ForkReady | proc.c:219-250 | the child is queued, or held back while frozen |
| Sched.Table.Take | proc.c:366-380 | removing the head keeps the queue exact |
| Sched.Table.Dispatch | proc.c:356-408 | idle exactly when nothing is runnable; otherwise, unless held back by the frozen test, runs a runnable process, of highest priority when the queue is ordered; order is restored whenever the queue empties |
| Sched.Table.Yield | proc.c:432-455 | gives up the CPU exactly when the queue's first entry beats the caller's threshold |
| Sched.Table.Sleep | proc.c:480-514 | only the caller changes, to sleeping on the channel |
| Sched.Table.Wakeup1 | proc.c:519-541 | exactly the sleepers whose channel holds the same integer become runnable and queued, so at least all on the channel |
| Sched.Table.Kill | proc.c:555-580 | marks the first process with the pid and wakes it if asleep, or there is none |
| Sched.Table.Exit | proc.c:284-301 | the caller becomes a zombie and keeps all else, so its parent can still reap it; its children are init's; exactly the sleepers reached by the wakeup of its parent, or of init if it inherits a zombie, become runnable; nothing else of any process changes |
| Sched.Table.Wait | proc.c:306-346 | frees a zombie child and returns its pid, fails exactly without children or when killed, sleeps only when no child is a zombie |
| Sched.Table.ExitThenWait | proc.c:259-346 | after an exit the parent's wait, with no other zombie child, returns the pid of the process that left and frees its entry |
| Sched.Table.Freeze | proc.c:688-707 | unfreezing queues exactly the processes held back |
| Sched.LeavingEnds | proc.c:284-301 | exit keeps: no process sleeps in wait while it has a zombie child |
| Spinlock.StepKeeps | spinlock.c:24-116 | every memory access of every CPU keeps: locked tells whether some CPU owns the lock, cpu tells which, at most one does, and the pushcli depth counts what is open |
| Spinlock.MutualExclusion | spinlock.c:24-64 | in every run, between acquire's return and release no other CPU owns the lock, the lock names this CPU, and its interrupts are off |
| Spinlock.AcquireReturns | spinlock.c:24-44 | in every run, when acquire is back the CPU has the lock, which it had not before and no other CPU has, with interrupts off and one pushcli more |
| Spinlock.ReleaseReturns | spinlock.c:47-64 | in every run, when release is back the CPU has given up the lock, which it had, and one pushcli |
| Spinlock.HoldingExact | spinlock.c:85-89 | the two separate reads of holding answer for this CPU whether it has the lock, however other CPUs interleave |
| Spinlock.PanicsExactly | spinlock.c:24-116 | acquire panics exactly on a lock the CPU has, release exactly on one it has not, matched popcli never |
| Spinlock.Restored | spinlock.c:96-116 | in every run, when the pushcli depth returns to zero the interrupt flag is what it was before |
| SleepWakeup.StepKeeps | proc.c:480-550 | every step of sleepers and wakers keeps the invariant behind the two results below |
| SleepWakeup.NoLostWakeup | proc.c:480-550 | in every run, whenever a process is asleep or on its way to sleep while the condition holds, another process still has a wakeup to make that will reach it |
| SleepWakeup.LocksExclude | proc.c:480-514 | the holders of lk and of ptable.lock are alone, and a sleeper that still holds lk finds the condition as it tested it |
| SleepWakeup.SleepReturns | proc.c:480-514 | in every run, when sleep is back the process has been asleep without lk, and has lk again, which no other process has |
| SleepWakeup.WakeupReturns | proc.c:519-550 | in every run, when wakeup is back every process has been awake since the call, and the caller has lk if and only if it had it before |
| SleepWakeup.NoDeadlock | proc.c:480-550 | acquiring ptable.lock under lk and lk after releasing ptable.lock never deadlocks |
| Vm.Machine.constructor | kalloc.c:19-23 | the machine at boot, with an empty free list |
| Vm.Machine.Kfree | kalloc.c:59-77 | the frame is at the head of the free list, filled with junk |
| Vm.Machine.Kalloc | kalloc.c:82-95 | takes the head; fails exactly on an empty list |
| Vm.Machine.Freerange | kalloc.c:45-52 | each frame of the range becomes free once more, no other does |
| Vm.Machine.WalkAlloc | vm.c:45-65 | adds an empty page table exactly where there is none, and fails exactly when it must and no frame is free |
| Vm.Machine.MapPages | vm.c:70-90 | maps the pages one by one to consecutive frames, leaving every other page as it is; stops exactly at a mapped page or without a frame for a page table; every frame is accounted for |
| Vm.Machine.Deallocuvm | vm.c:249-273 | the table becomes its walk by pages and 4 MB skips, every cleared page's frame becomes free, and every frame is accounted for |
| VmTables.SweepExact | vm.c:249-273 | a mapped page of the range stays mapped if and only if it is lower in its 4 MB region than the start in its own and no region from the start up to it has a page table |
| VmTables.OverlookedPage | vm.c:249-273 | a page that the walk jumps over |
| VmTables.SweepPresent | vm.c:249-273 | from an aligned start, or one whose region has a page table, exactly the range is unmapped |
| Vm.Machine.Freevm | vm.c:277-292 | every frame of the address space, page tables and directory included, is free again, and frames that are not free keep their contents |
| Vm.Machine.Setupkvm | vm.c:128-145 | takes the directory and 64 page tables; fails exactly with fewer than 65 frames, and then none is left |
| Vm.Machine.Copyuvm | vm.c:309-337 | with enough frames the child has exactly the parent's pages with equal contents and flags, the parent's memory is untouched and every frame is accounted for; otherwise all frames are given back but one, and that one is lost if and only if the frames after setupkvm are 1 modulo 1025 |
| Vm.Isolated | vm.c:309-337 | after the copy no page of the child shares a frame with the parent or with another page of its own |
| VmUser.AllocPage | vm.c:232-241 | one new zeroed user page, or exactly why not, and the frame lost when its page table cannot be made |
| VmUser.Allocuvm | vm.c:220-243 | with enough frames exactly the range is added, zeroed and writable, and no page or memory but of free frames changes; the new size is returned with the last page missing if and only if that page needs a page table and one frame is wanting; otherwise 0 is returned and, if the range was empty before, every page is as it was; every frame but at most one is accounted for |
| VmUser.Undone | vm.c:234-238 | the walk back after a failure leaves every page as it was before |
| VmUser.Copyout | vm.c:341-378 | the bytes are found at the address afterwards and every other byte of the address space is unchanged; stops exactly at the first page that is not the user's, with the bytes before it written |
| VmUser.GrownUser | vm.c:232-241 | the pages allocuvm adds are new, writable and the user's |
| VmUser.GrowThenCopyout | vm.c:220-378 | copyout into pages just added succeeds, the bytes read back, the rest of them is zero and every old byte is as before |
| ShellGrammar.PrintParse | sh.c:335-454 | for every command with fewer than ten arguments everywhere, parsing its printed tokens gives it back |
| ShellGrammar.ParserRange | sh.c:335-454 | the commands the parser can produce are exactly those |
| ShellGrammar.LineGood | sh.c:335-454 | the parser uses only words of the line and never more than nine arguments |
| ShellGrammar.LineMap | sh.c:335-454 | what the parser does depends on the kinds of tokens, never on the words |
| ShellLines.ArgsRead | sh.c:423-454 | for any mix of words and redirections the words in order are the arguments and the redirections in order go around the command, `<` from and `>` and `>>` to the file |
| ShellLines.ParsesExactly | sh.c:335-454 | a line of tokens is read as a command if and only if it is a way to type that command: pipelines of simple commands and parentheses, `&` behind them, `;` between them, fewer than ten words each |
| ShellLines.PanicsExactly | sh.c:335-454 | the parser panics on every other line |
| ShellLines.AppendIsOutput | sh.c:382-405 | no line is read differently with `>` for `>>` |
| ShellLines.SimplePanics | sh.c:382-454 | a simple command panics if and only if before its end there is a symbol that is no redirection, a redirection without a file name, or a tenth word |
| ShellText.LexLaid | sh.c:273-316 | however a line is spaced, the tokenizer finds its tokens |
| ShellText.LexLays | sh.c:273-316 | every line is its tokens with white space around them, so none is lost or run together |
| ShellText.ReadsExactly | sh.c:273-454 | a line of characters is read as a command if and only if it is a way to type it, with any white space that keeps its tokens apart |
| Shell.Peek | sh.c:318-328 | tells whether the next token starts with one of the characters, and consumes none |
| Shell.GetToken | sh.c:273-316 | returns the first token of the rest of the line and leaves the others |
| Shell.ParseRedirs | sh.c:382-405 | consumes and collects the redirections the grammar gives, which ShellLines spells out, or panics exactly when a file is missing |
| Shell.ParseExec | sh.c:423-454 | agrees with the grammar on the remaining tokens, panics included |
| Shell.ParseBlock | sh.c:407-421 | agrees with the grammar on the remaining tokens, panics included |
| Shell.ParsePipe | sh.c:369-380 | agrees with the grammar on the remaining tokens, panics included |
| Shell.ParseLine | sh.c:352-367 | agrees with the grammar on the remaining tokens, panics included |
| Shell.ParseCmd | sh.c:335-350 | agrees with the grammar on the whole line; left-over tokens panic |
| Shell.LexRender | sh.c:273-316 | tokenizing a rendered token sequence gives it back |
| Shell.ReadBack | sh.c:335-454 | every command of well-formed words is read back from its printed line, characters included |
| Shell.NulTerminate | sh.c:457-501 | writes NUL exactly behind the words of the command |
| Shell.CutGood | sh.c:457-501 | ending one word never damages another: each word's C string is its text in the line |
| Shell.Parsecmd | sh.c:335-350 | on success the command is the grammar's and each of its words has become a C string of its own |
| Grep.PrintParse | grep.c:85-96 | reading a pattern into atoms loses nothing |
| Grep.Match | grep.c:72-82 | true if and only if the pattern denotes some stretch of the line, at its start after `^` |
| Grep.MatchHere | grep.c:85-96 | true if and only if the pattern denotes a stretch starting here |
| Grep.MatchStar | grep.c:99-106 | true if and only if some number of fitting characters is followed by a match of the rest |
| Grep.ConcatFound | grep.c:72-106 | two patterns written in a row are found in exactly the lines where a stretch of the second follows one of the first |
| Grep.FoundInLonger | grep.c:72-106 | without `$` a line that is found is found in any longer one, after `^` if it is longer on the right |
| Grep.PlainIsSubstring | grep.c:72-96 | a pattern without special characters is found in exactly the lines it is part of |
| Grep.LettersFound | grep.c:72-96 | letters and dots are found in exactly the lines that have the letters in a row with any one character for each dot |
| Grep.CaretFound | grep.c:72-82 | after `^` exactly the lines that begin so are found |
| Grep.DollarFound | grep.c:85-96 | before `$` exactly the lines that end so are found |
| Grep.StarFound | grep.c:99-106 | `^c*$` finds exactly the lines with no other character than c, or all lines if c is a dot |
| Pipe.Ring.constructor | pipe.c:21-56 | a new pipe is empty and open at both ends |
| Pipe.Ring.Write | pipe.c:77-97 | appends bytes until done or full; sleeps or fails exactly when full, failing exactly when the read end is closed or the caller killed; what has been read stays a prefix of what has been written, with at most 512 bytes between |
| Pipe.Ring.Read | pipe.c:99-120 | returns the next bytes in order, all there are up to n; an empty result only at the end of a closed pipe; sleeps or fails exactly on an empty open one |
| Pipe.Ring.Close | pipe.c:58-74 | closes one end; the pipe is freed exactly when both are closed |
| Pipe.Counters | pipe.c:84-105 | the wrapped counters tell empty and full correctly |
| Console.Input.Interrupt | console.c:187-225 | the buffer holds what the line semantics gives for the keystrokes, through wrapping counters, with no line end in the unfinished line |
| Console.Input.KillLine | console.c:198-204 | Ctrl-U empties exactly the unfinished line |
| Console.Input.Type | console.c:211-221 | stores a character if there is room and commits the line on newline, Ctrl-D or a full buffer |
| Console.Input.Read | console.c:227-263 | delivers the next committed characters up to a newline, a Ctrl-D or n; a Ctrl-D is consumed only by a read that delivers nothing; sleeps exactly when it needs more |
| Console.EditedLine | console.c:187-225 | a typed line with k backspaces and return is committed without its last k characters |
| Console.KilledLine | console.c:198-204 | however a line was edited, Ctrl-U makes it as if never typed |
| Console.EndedLine | console.c:211-221 | Ctrl-D commits the line with itself at the end |
| Console.FullBuffer | console.c:211-221 | the character that fills the buffer commits the line without a line end, and until something is read all further keystrokes are dropped |
| Console.OtherKeys | console.c:193-221 | Ctrl-P and NUL change nothing, rubout is backspace, line feed is return |
| Console.ReadsLine | console.c:227-263 | a read returns exactly one line; a line ended by Ctrl-D is followed by an empty read |

## Left out

- Log.Log.Commit: runs with no buffer held by another process; what other processes may hold meanwhile is covered in GroupCommit on whole blocks, not on buffers.
- Log.Log.EndOp: the same, since it calls commit.
- Malloc.Heap.Malloc: after a request of 2^31 bytes and more the model says what list the code builds, not that a store behind the end of the process faults; and it speaks of a process whose end is at a multiple of the header size.
- FsCrash.RunKeepsFiles: takes each committed group to amount to whole operations in some order; that the inode and buffer locks make interleaved operations so is not modelled.
- GroupLimits.CrashSafeExactly: on disks with LOGSIZE + 1 more blocks behind the log area, as every file system has.
- File.WriteCount: on disks with one free map block, up to 4096 blocks; mkfs makes 1000.
- Vm.Machine.MapPages: frames of the free range only, so not the kernel half of an address space.
- Sched.Table.Yield: reads the first queue slot also when the queue is empty, as the code does; whether the stale process there is the intended one is not stated.
- VmUser.Copyout: addresses below KERNBASE only; above it every page is refused for lack of PTE_U.
- Vm.Machine.Setupkvm: counts the page-table pages of the kernel half and not their entries.
- The earliest-deadline mode of the scheduler, its statistics and the process-switch assembly.
- exec, ELF loading, inituvm, loaduvm and clearpteu.
- Directories, path lookup, link counts, the inode cache and file-descriptor tables: they would add members of the same kinds as those modelled.
- The file system and the log in one object: FsCrash joins them through their contracts.
- sched's saving of intena around a process switch, and memory reordering by the hardware: steps are sequentially consistent.
- Device drivers, traps, boot, the system-call argument checks, and user programs other than the shell, grep and the allocator.
- grep's line-reading loop and the shell's runcmd.
