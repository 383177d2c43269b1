# xv6-riscv, modelled and proved in Dafny

This project models the parts of the xv6-riscv kernel, its `mkfs` and three of its user programs
whose correctness does not show in any one function, and proves what they promise for every
input, every run or every reachable state.

* **Storage.** `Blocks`, `Bio`, `LogSpec`, `LogCrash`, `Log`, `LogBudget` and `LogSleep` are the buffer
  cache and the write-ahead log. Every block write is one atomic step and is recorded in a journal, so a crash
  is a prefix of the journal. `FsLayout`, `FsOwner`, `Fs` and `File` are the block bitmap, inodes and
  files above them; `Mkfs` is the image they start from. `LinkSpec`, `Links` and `ImageLinks` are
  directories and link counts.
* **Memory.** `VmSpec`, `Vm` and `VmCopy` are the Sv39 page tables (section 4.4 of the RISC-V
  Privileged Architecture, version 20211203), the physical pages, and copying to and from user space.
* **Processes and devices.** `SleepLock`, `ProcWait`, `Pipe` with `PipeCalls`, `Virtio` and also `LogSleep`
  are transition systems: any number of processes, one lock operation or memory access at a time, in any interleaving. The virtio
  device follows sections 2.6 and 5.2 of Virtio 1.1.
* **User programs.** `Umalloc` is the allocator, `ShellGrammar` and `Shell` the shell's parser, `Grep`
  the regular-expression matcher. `Common` holds what several modules use.

Code that updates fields is a class whose methods state the whole new state; a panic is a returned
failure (the machine stops there). Methods are the critical sections of the source, so a sequence of
calls is an interleaving of processes, and a call that would sleep is not enabled.

Five promises turned out not to hold as the source has them. In each case the code is kept, a lemma
gives an input or a run on which the promise fails, and another says exactly when it holds.

* `mkfs` makes the log `LOGSIZE` blocks long, header included, so an operation inside its reservation
  can still meet the "too big a transaction" panic (`LogBudget.SmallLogPanics`); reservations are
  honoured if and only if the log area is longer (`LogBudget.LogSizeNeeded`).
* `mkfs` leaves a hole in the root directory when its entries fill their blocks exactly, and otherwise
  not (`Mkfs.Mkfs`); 62 empty files make such an image (`Mkfs.HoleyImage`).
* A killed `pipewrite` returns without waking readers (`Pipe.ReaderStranded`); `Pipe.ReadersAwake` says
  when a run strands no reader.
* Creating a name in a directory that was removed while in use breaks the link counts
  (`Links.CreateInRemoved`), and so does the 32768th link to a file (`LinkSpec.LinkOverflows`);
  `Links.CreateExact`, `LinkSpec.NameExact` and `LinkSpec.AnnounceExact` are the exact conditions.
* `morecore` records a block larger than the memory it got from `sbrk` when `malloc` is asked for more
  than 0x7FFFFFE0 bytes (`Umalloc.SbrkTruncates`), and only then (`Umalloc.SbrkFits`).

## Model

| member | source | states |
|---|---|---|
| LruRing.Unlink | kernel/bio.c:128-129 | rewiring an element's two neighbours takes exactly that element out of the cycle and leaves the others in order |
| LruRing.PushFront | kernel/bio.c:130-133 | the four assignments after the list head make an element the first of the cycle |
| Bio.MoveToFront | kernel/bio.c:128-133 | all pointer assignments of a release keep the ring a permutation of all NBUF buffers, with the released one first |
| Bio.BufferCache.constructor | kernel/bio.c:37-53 | the cache starts valid: a ring of all buffers, none for the root device, every block's newest contents on disk |
| Bio.BufferCache.FindCached | kernel/bio.c:66-73 | the forward scan finds the block's buffer if any buffer holds it |
| Bio.BufferCache.FindUnused | kernel/bio.c:77-86 | the backward scan finds the least recently used unreferenced buffer, or every buffer is referenced |
| Bio.BufferCache.Lookup | kernel/bio.c:59-89 | a block gets at most one buffer, and only an unreferenced buffer of another block is ever recycled, so nothing pinned or held is lost |
| Bio.BufferCache.IsHeld | kernel/bio.c:59-89 | whether reading a block would sleep |
| Bio.BufferCache.Acquire | kernel/bio.c:70 | taking the lock of a referenced buffer that nobody holds changes only that lock |
| Bio.BufferCache.Fill | kernel/bio.c:97-101 | after it the buffer has the newest contents of its block, whether cached or from disk |
| Bio.BufferCache.Bread | kernel/bio.c:93-103 | the returned buffer is held and has the newest contents of the block; it fails only if every buffer is referenced |
| Bio.BufferCache.Modify | kernel/bio.c:93-112 | a holder's change becomes the block's newest contents, in no buffer but its own |
| Bio.BufferCache.Bwrite | kernel/bio.c:107-112 | one journal entry, after which disk and cache agree on the block |
| Bio.BufferCache.Brelse | kernel/bio.c:117-137 | given that a changed block has been pinned, releasing keeps every newest block in the cache or on disk, and moves the buffer to the front exactly at its last reference |
| Bio.BufferCache.Bpin | kernel/bio.c:140-144 | one more reference, which belongs to the log |
| Bio.BufferCache.Bunpin | kernel/bio.c:147-151 | one log reference less, keeping the cache valid while the caller holds the buffer |
| Bio.BufferCache.LogBlock | kernel/log.c:184-189 | a round of write_log puts the newest contents of a home block into its log block with one disk write, whoever else holds other buffers |
| Bio.BufferCache.InstallBlock | kernel/log.c:74-81 | a round of install_trans puts a log block's contents home with one disk write, and drops exactly that block's pin unless recovering |
| LogSpec.HeaderRoundTrip | kernel/log.c:85-114 | the header words that write_head stores over any old block are the count and block numbers that read_head loads |
| LogSpec.Redo | kernel/log.c:67-83 | installing a list of writes again after any prefix of it gives what installing it once gives |
| LogCrash.HomeUntouched | kernel/log.c:193-203 | no home block on disk changes before the header of its group is written |
| LogCrash.CommitDone | kernel/log.c:193-203 | a commit that returns leaves an empty log and the whole group at home |
| LogCrash.CommitCrashed | kernel/log.c:177-203 | a crash after any number of commit's writes recovers to the state before the group if the header was unwritten, and after the whole group if it was written |
| LogCrash.RecoverCrashed | kernel/log.c:116-123 | recovery cut short after any of its writes and run again reaches the same home blocks |
| LogCrash.SoundStep | kernel/log.c:67-203 | each commit, crash or recovery keeps the header good and moves the recoverable state by a whole group or not at all |
| LogCrash.CrashAtomicity | kernel/log.c:67-203 | after any run of commits, crashes between any two block writes and interrupted recoveries, recovery reaches the state after a whole number of groups, including every group whose commit returned |
| Log.Log.constructor | kernel/log.c:55-65 | an empty log with nothing pinned |
| Log.Log.Read | kernel/bio.c:93-103 | at any time, also between the writes of a commit, a read returns the newest contents and no logged block loses its pin; it fails only if every buffer is referenced and none has the block, and then changes none |
| Log.Log.Release | kernel/bio.c:117-137 | at any time, releasing a buffer whose changes are logged keeps pins and discipline |
| Log.Log.WriteLog | kernel/log.c:179-191 | with readers coming and going before each write, the journal gets a prefix of the log writes of the group, all of them on success, and no home block's newest contents change; it gives up only if every buffer is referenced or somebody holds the header, a log block or a block of the group |
| Log.Log.FormatHeader | kernel/log.c:106-111 | the loop stores the whole header, word by word |
| Log.Log.WriteHead | kernel/log.c:103-114 | one write of the header block that names exactly the logged blocks; it fails only if every buffer is referenced |
| Log.Log.InstallTrans | kernel/log.c:69-83 | with readers coming and going, the journal gets a prefix of the group at home, all of it on success; every block installed is unpinned and clean, and outside recovery the newest contents stay; it gives up only if every buffer is referenced or somebody holds the header, a log block or a block of the group, or in recovery if buffers are in use |
| Log.Log.Commit | kernel/log.c:194-203 | with arbitrary reads and releases by processes outside any operation before each write, the journal shows a prefix of the commit's writes, all of them if it returns; every such read saw the newest contents; afterwards disk and cache agree and the log is empty; it gives up only if every buffer is referenced or somebody holds the header, a log block or a block of the group, whoever holds other buffers, and with nobody else acting that is decided when it starts |
| Log.Log.ReadHead | kernel/log.c:87-97 | the in-memory header is the one on disk |
| Log.ParseHeader | kernel/log.c:91-95 | the copying loop yields the block numbers of a header block |
| Log.Log.Recover | kernel/log.c:117-123 | the journal shows a prefix of recovery's writes, all of them if it returns, and then disk and cache agree and the log is empty; with no buffer in use it returns |
| Log.Log.BeginOp | kernel/log.c:127-142 | an operation is admitted exactly if no commit runs and its reservation fits |
| Log.Log.EndOp | kernel/log.c:147-175 | an operation that is not the last one out changes nothing on disk, whatever buffers others hold; the last one out commits, with the guarantees of commit, also as to when it gives up |
| Log.Log.Update | kernel/log.c:205-213 | a holder's change becomes the newest contents of that home block and of no other, makes exactly that block newer than the disk, and keeps the log valid |
| Log.Log.LogWrite | kernel/log.c:215-235 | it succeeds exactly if the log has room and an operation is open; a block is logged and pinned once, however often it is written |
| Log.Log.FindLogged | kernel/log.c:225-228 | the absorption loop finds the block's place in the header, or the end |
| Log.Log.LogChange | kernel/log.c:205-213 | the use that log_write is made for: the change is the newest contents of the block and logged, the disk is as before, and a commit that could go on still can |
| Log.Log.ChangeBlock | kernel/log.c:127-235 | a whole operation (enter, read, change, log, release, leave): when it returns, the change and everything logged before it are on disk at home, with others reading the newest contents meanwhile; it returns if a spare buffer and the blocks it needs are left alone |
| LogBudget.BudgetKept | kernel/log.c:126-142 | over every run, logged blocks plus unused reservations never exceed LOGSIZE |
| LogBudget.ReservationHonoured | kernel/log.c:220-221 | an operation with something left to log always passes log_write's test against LOGSIZE |
| LogBudget.SmallLogPanics | kernel/log.c:220-221 | with a log area of at most LOGSIZE blocks, three operations inside their bounds reach the panic |
| LogBudget.LogSizeNeeded | kernel/log.c:214-235 | reservations are honoured in all reachable states if and only if the log area has more than LOGSIZE blocks |
| LogSleep.InvStep | kernel/log.c:126-175 | every step of begin_op and end_op keeps the count of operations inside, at most one committer and the cause of every sleep |
| LogSleep.EntersWithRoom | kernel/log.c:126-142 | begin_op lets a process in exactly if no commit runs and its reservation fits beside those of the operations inside, and otherwise it sleeps |
| LogSleep.SleepsForCause | kernel/log.c:126-175 | in every reachable state a process that has not been woken up waits in begin_op only while a commit runs or its reservation does not fit, and somebody is inside or committing who will wake it up |
| LogSleep.NoCommitInside | kernel/log.c:146-158 | a process inside an operation never finds a commit running when it leaves, so that panic of end_op is never reached |
| FsLayout.MarkEffect | kernel/fs.c:75-103 | setting or clearing a bitmap bit changes the state of exactly that block |
| FsLayout.InodePlaces | kernel/fs.h:41-45 | every inode has its own place within one block, 16 to a block, between the log and the bitmap |
| FsOwner.BitmapExact | kernel/fs.c:63-105 | a block is marked in use exactly if it is metadata or some inode's pointer leads to it |
| FsOwner.NotTwice | kernel/fs.c:382-421 | no block is referenced from two places |
| Fs.FileSystem.FindFree | kernel/fs.c:71-87 | the first free block, or the disk is full |
| Fs.FileSystem.Balloc | kernel/fs.c:66-88 | a zeroed data block that was free, never metadata and never block 0; it logs two blocks; 0 only if every block is in use; every block it changed is logged |
| Fs.FileSystem.Bfree | kernel/fs.c:92-105 | it panics exactly for a free block, and otherwise frees exactly that block |
| Fs.FileSystem.Bmap | kernel/fs.c:383-421 | an allocated block is returned unchanged; a missing one is allocated, with its indirect block, without changing any file's contents; 0 only if the disk is full; every block it changed is logged |
| Fs.FileSystem.Writei | kernel/fs.c:506-539 | the r bytes it reports are spliced into the file at off across the direct and indirect blocks, no other file changes; it refuses exactly starts beyond the end and ends beyond the largest file, and stops short only for a full disk or at the block whose part of the source cannot be read; every block it changed is logged, and no more than a bounded number |
| Fs.FileSystem.Readi | kernel/fs.c:472-496 | exactly the file's bytes in the range as far as the file goes; nothing is allocated or changed |
| Fs.FileSystem.Itrunc | kernel/fs.c:426-453 | the file is empty, its blocks and no others become free, no other file changes, and "freeing free block" is not reached; every block it changed is logged |
| Fs.FileSystem.Ialloc | kernel/fs.c:199-219 | the first free inode, now allocated and empty, or there is none |
| Fs.FileSystem.FreeInode | kernel/fs.c:350-352 | the last put of an unlinked inode frees it with all its blocks, and nothing else |
| Fs.SpliceTwice | kernel/fs.c:518-530 | two pieces written one after the other are one write of both |
| File.ChunkBudget | kernel/file.c:149-155 | wherever a chunk starts, its writei dirties at most MAXOPBLOCKS blocks |
| File.OpenFile.WriteChunk | kernel/file.c:162-167 | a round of filewrite logs every block it changes, stays within its reservation, splices what it reports and stops short only as writei does |
| File.OpenFile.Write | kernel/file.c:155-175 | the file gets a prefix of the data at the offset, all of it exactly if the call returns its length; the prefix ends only where the disk is full, the source cannot be read, or the next chunk goes beyond the largest file |
| File.OpenFile.Read | kernel/file.c:120-124 | the next n bytes at the offset or as many as the file has, and the offset advances by as many; it fails exactly if the user's buffer does not take them |
| Mkfs.Image.Ialloc | mkfs/mkfs.c:223-234 | inodes are handed out in order, keeping the image well formed |
| Mkfs.Image.MapBlock | mkfs/mkfs.c:268-285 | the block for an offset is found or taken from the next free ones, changing no file's contents, and it fails exactly if the blocks run out |
| Mkfs.Image.Iappend | mkfs/mkfs.c:255-296 | bytes go to the end of one file and nothing else changes; it fails exactly if the file or the disk is too small |
| Mkfs.Image.AddFile | mkfs/mkfs.c:130-163 | a file is added with its contents and its entry, using exactly the blocks it needs |
| Mkfs.Image.Balloc | mkfs/mkfs.c:237-250 | exactly the first blocks are marked in use; it refuses exactly counts beyond one bitmap block |
| Mkfs.Mkfs | mkfs/mkfs.c:69-175 | it succeeds exactly if the files fit; then all files are there, free inodes are empty, and the image satisfies the file system's invariant if and only if the root entries do not fill their blocks exactly |
| Mkfs.HoleyImage | mkfs/mkfs.c:165-170 | with 62 empty files the image satisfies the invariant for no assignment of blocks |
| ImageLinks.EntriesRead | mkfs/mkfs.c:120-157 | the bytes of the root directory read back as its dots and the files in order |
| ImageLinks.Mkfs | mkfs/mkfs.c:69-175 | the image, read as inodes and entries, is the picture from which the link counts start |
| ImageLinks.ImageTrue | mkfs/mkfs.c:120-157 | the image's link counts are true if the file names are different and not dots |
| Mkfs.LayoutApart | mkfs/mkfs.c:93-104 | the log, the inode blocks, the bitmap and the data follow each other without overlap |
| LinkSpec.AnnounceExact | kernel/sysfile.c:145-146 | raising a file's count ahead of its new name is right if and only if the count is below 32767 |
| LinkSpec.LinkOverflows | kernel/sysfile.c:145-146 | a state with 32767 names in two directories, in which one more link makes the count wrong |
| LinkSpec.Withdraw | kernel/sysfile.c:163-169 | the failing path of link takes the count back to the truth |
| LinkSpec.NameExact | kernel/fs.c:580-606 | writing an announced name keeps all counts true if and only if its directory is linked |
| LinkSpec.UnlinkKeeps | kernel/sysfile.c:222-232 | removing a file's name and lowering its count keeps all counts true |
| LinkSpec.RmdirKeeps | kernel/sysfile.c:222-233 | removing an empty directory's name and lowering both counts keeps the tree and all counts, and leaves the directory with none |
| LinkSpec.FewSubdirs | kernel/sysfile.c:285-289 | a directory is too small for its count of ".." entries to overflow |
| LinkSpec.MakeExact | kernel/sysfile.c:276-289 | making a directory keeps the tree and all counts if and only if its parent is linked |
| LinkSpec.Rooted | kernel/sysfile.c:276-289 | every linked directory hangs in its parent, and ".." leads from it to the root |
| LinkSpec.ImageTrue | mkfs/mkfs.c:120-157 | a root directory of files with different names has true counts |
| Links.ReleaseKeeps | kernel/fs.c:337-362 | dropping a reference, the last one to an unlinked inode included, keeps all counts true |
| Links.CreateExact | kernel/sysfile.c:246-302 | a successful create keeps all counts true if and only if the directory it names into is linked |
| Links.CreateInRemoved | kernel/sysfile.c:246-302 | a state in which creating a file in a removed directory leaves a count without a name |
| Links.Namespace.constructor | mkfs/mkfs.c:120-157 | the names of an image, with true counts |
| Links.Namespace.DirLookup | kernel/fs.c:552-575 | the entry with the name, or no entry has it |
| Links.Namespace.DirLink | kernel/fs.c:580-606 | it succeeds exactly if the name is new and there is room, and fills the first empty slot or the end; otherwise nothing changes |
| Links.Namespace.IsDirEmpty | kernel/sysfile.c:174-186 | whether all slots after the dots are empty |
| Links.Namespace.Ialloc | kernel/fs.c:199-219 | the first free inode, now allocated without links, or there is none |
| Links.Namespace.LinkStart | kernel/sysfile.c:138-147 | refuses exactly directories; the counts, with the link now announced, stay true if and only if the count had room |
| Links.Namespace.LinkFinish | kernel/sysfile.c:149-169 | with other calls in between, the name is written or the count taken back, and the counts are true again if a name went to a linked directory |
| Links.Namespace.Link | kernel/sysfile.c:124-170 | it succeeds exactly if the file is no directory, the name is new and there is room; the counts are then true if its directory is linked and the count had room; a failing call leaves the table as dropping its references leaves it, whatever the count was; every reference it took is given back |
| Links.Namespace.Unlink | kernel/sysfile.c:189-243 | it removes exactly names that are no dots and lead to no used directory, keeps tree and counts in every case, frees an inode that loses its last name and last reference, and never reaches its "nlink < 1" panic; every reference it took is given back |
| Links.Namespace.Create | kernel/sysfile.c:246-302 | it succeeds exactly if the name is new, an inode and a slot are free and the writes find their blocks, or the name leads to a file or device and a file is asked for; on every failing path the counts are true, no linked inode has changed and nothing stays allocated; on success the counts are true if the directory is linked; every reference it took is given back but one to the inode returned |
| VmSpec.WalksMeet | kernel/vm.c:86-103 | two walks share a table only if they agree on all the address bits above it |
| VmSpec.MappedOnce | kernel/vm.c:144-172 | no user frame is mapped at two pages, in one address space or two |
| Vm.Memory.constructor | kernel/kalloc.c:27-40 | every whole page of the range is on the free list |
| Vm.Memory.Kalloc | kernel/kalloc.c:69-82 | a frame leaves the free list, or the list is empty |
| Vm.Memory.Kfree | kernel/kalloc.c:47-63 | it panics exactly for addresses that are no frame, and otherwise the frame joins the free list |
| Vm.Memory.Walk | kernel/vm.c:86-103 | the place of the page's entry; new tables change no translation; it fails only for a bad address or for want of memory |
| Vm.Memory.MapOne | kernel/vm.c:161-165 | one page's translation changes and no other, in any address space; out of memory only if a table on the way is missing and no frame is free |
| Vm.Memory.Mappages | kernel/vm.c:144-172 | success maps exactly the pages asked for, to consecutive frames; out of memory, a prefix of them, up to a page whose table is missing with no frame free; it panics only for a bad range or a mapped page |
| Vm.Memory.UnmapOne | kernel/vm.c:187-197 | one page's translation goes and no other, and its frame exactly if asked |
| Vm.Memory.Uvmunmap | kernel/vm.c:178-199 | exactly the pages asked for are unmapped and exactly their frames freed; it panics exactly for an unaligned range or an unmapped page |
| Vm.Memory.Uvmcreate | kernel/vm.c:204-212 | an empty root of its own, or no memory |
| Vm.Memory.Uvmalloc | kernel/vm.c:233-256 | every byte up to the new size can be read by the user and is 0, and can be written or run exactly as asked; or every translation and every owner but page tables is as before, and the free frames do not reach for the pages and the tables still missing |
| Vm.Memory.Uvmdealloc | kernel/vm.c:263-274 | exactly the pages above the new size go, with their frames |
| Vm.Memory.Uvmcopy | kernel/vm.c:313-340 | the child gets frames of its own in which the user sees the parent's bytes with the same rights; out of memory, every translation is as before, and the free frames do not reach |
| Vm.Memory.Freewalk | kernel/vm.c:279-294 | the whole tree of tables is freed and nothing else; it panics exactly if there is a leaf |
| Vm.Memory.Uvmfree | kernel/vm.c:299-304 | every frame of the address space is free again, and every other frame and translation as before |
| Vm.Disjoint | kernel/vm.c:313-340 | user pages of different address spaces never share a frame |
| VmCopy.Walkaddr | kernel/vm.c:109-126 | the frame of a page the user may read, or none |
| VmCopy.PokePage | kernel/vm.c:373-376 | moving bytes into one frame is the same as storing them one by one through the translation |
| VmCopy.Copyout | kernel/vm.c:359-383 | it succeeds exactly if the user may write every byte's page, and memory is as if the bytes had been stored one by one up to the first that may not |
| VmCopy.Copyin | kernel/vm.c:389-408 | exactly the bytes at the user's addresses if all may be read, else a failure |
| VmCopy.Copyinstr | kernel/vm.c:415-451 | the user's string if it ends within max readable bytes, and a failure exactly if it does not |
| SleepLock.WokenWhenPassed | kernel/proc.c:579-592 | a process that wakeup has looked at is neither asleep on the channel nor on its way to be |
| SleepLock.InvStep | kernel/proc.c:547-592 | every step of sleep, wakeup, the sleep-lock and the rest of the kernel keeps the invariant |
| SleepLock.WakeupMissesNobody | kernel/proc.c:579-592 | when a wakeup made under the condition's lock has gone through the table, nobody who went to sleep before is still asleep |
| SleepLock.NobodyStranded | kernel/sleeplock.c:21-41 | in every reachable state with the sleep-lock and its spinlock free, nobody sleeps on it or is committed to |
| SleepLock.OwnerStable | kernel/sleeplock.c:21-41 | the sleep-lock is taken only when free and lost only by its owner's release |
| SleepLock.NeverStuck | kernel/sleeplock.c:21-41 | a process in this code has a next step that moves it on unless a lock it needs is taken or it is switched off |
| ProcWait.InvStep | kernel/proc.c:280-435 | every step of fork, exit, reparent, wait, sleep and the schedulers keeps the invariant |
| ProcWait.ParentsAlive | kernel/proc.c:331-386 | in every reachable state every started process but init has a parent that is neither a zombie nor unused |
| ProcWait.ParentChanges | kernel/proc.c:310-342 | a process gets its parent from fork and loses it only by being reaped or to init when its parent exits |
| ProcWait.ReapedOnce | kernel/proc.c:391-435 | no exit is reported by two waits, and a report carries the status passed to exit |
| ProcWait.ReapsOffStack | kernel/proc.c:404-421 | wait frees only its own exited child, and only when that has switched off its kernel stack |
| ProcWait.OneStack | kernel/proc.c:445-481 | a scheduler never switches to a process that is still on its stack |
| ProcWait.NoneLeft | kernel/proc.c:426-430 | wait returns without a child only if there is none or its caller was killed |
| ProcWait.NoZombieSleptOn | kernel/proc.c:368-433 | with wait_lock free no process sleeps in wait while it has a zombie child, although exit wakes the parent before it becomes one |
| ProcWait.NeverStuck | kernel/proc.c:280-435 | a process in fork, exit, wait or sleep has a next step that moves it on unless the lock it needs is taken |
| Pipe.Tests | kernel/pipe.c:88-113 | the 32-bit tests for a full and an empty ring mean what they say although the counters wrap |
| Pipe.RingStep | kernel/pipe.c:77-130 | every step keeps the ring: what came out is what went in first, and at most PIPESIZE bytes are in between |
| Pipe.Fifo | kernel/pipe.c:77-130 | in every interleaving the bytes out are a prefix of the bytes in, with at most PIPESIZE between |
| Pipe.EndOfFile | kernel/pipe.c:113-122 | a read that finds nothing to copy is at the true end of the file |
| Pipe.FreedOnce | kernel/file.c:60-83 | the pipe page is freed at most once, and then both ends are closed and nobody is in the pipe's code |
| Pipe.NoLeak | kernel/pipe.c:59-74 | when all descriptors are closed the page has been freed |
| Pipe.WritersAwake | kernel/pipe.c:106-130 | with the lock free, a writer sleeps only on a full pipe that can still be read |
| Pipe.ReadersAwake | kernel/pipe.c:77-103 | a run never leaves a reader asleep on bytes, with the lock free, if and only if no killed writer returns early after storing bytes while a reader sleeps |
| Pipe.ReaderStranded | kernel/pipe.c:84-87 | a run in which a killed writer leaves a reader asleep on a byte |
| Pipe.NeverStuck | kernel/pipe.c:58-130 | with the lock free or its own, a process in the pipe's code that is not asleep has a next step that moves it on |
| PipeCalls.WrittenInOrder | kernel/pipe.c:76-103 | in every interleaving the bytes a call of pipewrite has put in are, in order, the first of those it was asked to write: as many as it returned, or as its i says while it runs or sleeps |
| PipeCalls.ReadInOrder | kernel/pipe.c:105-130 | the bytes a call of piperead has taken out are, in order, those in the user's buffer and at most one more, whose copyout failed; they are at most n, and as many as it returned |
| PipeCalls.OneWriter | kernel/pipe.c:76-130 | if one call of pipewrite put in all the bytes, what all readers took out is the beginning of its data |
| PipeCalls.EveryRun | kernel/pipe.c:76-130 | every reachable state of the pipe has such a record of its calls |
| Virtio.AllocDesc | kernel/virtio_disk.c:157-166 | the first free descriptor is taken, or there is none |
| Virtio.Alloc3Desc | kernel/virtio_disk.c:202-213 | the first three free descriptors are taken, or none is |
| Virtio.Partition | kernel/virtio_disk.c:156-213 | in every reachable state each descriptor is free or in exactly one request's chain, and a chain in flight is linked as formatted |
| Virtio.IndicesTrue | kernel/virtio_disk.c:272-323 | the comparisons of 16-bit ring indices are right although the indices wrap |
| Virtio.NoPanics | kernel/virtio_disk.c:170-327 | the handler never meets a foreign entry or a bad status, and no descriptor is freed twice |
| Virtio.ReturnsWhenDone | kernel/virtio_disk.c:216-292 | for any completion order, virtio_disk_rw goes on only after the device has completed that very request |
| Virtio.BufferRecorded | kernel/virtio_disk.c:216-323 | in every reachable state the handler's table names a process at a descriptor exactly if that is the head of its request in flight |
| Virtio.NobodySleepsOn | kernel/virtio_disk.c:170-327 | in every reachable state a process that has not been woken up waits for descriptors only while no three are free, and for its request only while the interrupt handler has not got to it |
| Virtio.NeverStuck | kernel/virtio_disk.c:170-327 | with the lock free or its own, a process that is not asleep has a next step that moves it on, and so has the handler |
| Virtio.Room | kernel/virtio_disk.c:216-292 | there are never more requests in flight than ring slots |
| Umalloc.Allocator.constructor | user/umalloc.c:21-22 | an allocator with no memory |
| Umalloc.Allocator.FindPlace | user/umalloc.c:29-32 | the search of free ends, at the one gap of the circular list where the block belongs |
| Umalloc.Allocator.Free | user/umalloc.c:25-44 | the block is free, inside a block merged with the neighbours it touches; the list stays ordered with no two adjacent blocks |
| Umalloc.Allocator.Morecore | user/umalloc.c:47-61 | memory from sbrk joins the free list as one block, or nothing changes |
| Umalloc.Allocator.Search | user/umalloc.c:74-89 | one turn around the list ends, and finds a large enough block if there is one |
| Umalloc.Allocator.Take | user/umalloc.c:75-84 | the block handed out is whole, or the tail of a larger one, and belongs to no other |
| Umalloc.Allocator.Malloc | user/umalloc.c:64-90 | it fails exactly if no free block is large enough and sbrk fails; otherwise a new block with room for the bytes and less than a unit to spare, with memory asked for only if needed |
| Umalloc.BlocksApart | user/umalloc.c:25-90 | no two blocks, free or allocated, overlap |
| Umalloc.Conserved | user/umalloc.c:25-90 | the units obtained from sbrk are exactly those of the free and allocated blocks |
| Umalloc.SbrkFits | user/umalloc.c:52-54 | sbrk is asked for what morecore records if and only if malloc was asked for at most 0x7FFFFFE0 bytes; above that it is asked for at most 16 while the block recorded has 2 GB or more |
| Umalloc.SbrkTruncates | user/umalloc.c:52-54 | the largest request, for which sbrk is asked for one unit and a block of 0x10000001 is recorded |
| ShellGrammar.LineFound | user/sh.c:345-447 | the parser finds the phrase behind any spelling of it and stops where it ends |
| ShellGrammar.MeaningIsGrammar | user/sh.c:328-447 | a line is accepted with a tree if and only if its tokens spell a phrase of the grammar for that tree |
| ShellGrammar.Unambiguous | user/sh.c:345-447 | tokens spell at most one phrase |
| ShellGrammar.LexWritten | user/sh.c:266-309 | scanning the written form of any proper tokens gives them back |
| ShellGrammar.RoundTrip | user/sh.c:328-447 | parsing the printed form of any command tree over proper words gives the tree back |
| ShellGrammar.AnyBlank | user/sh.c:263-309 | all five kinds of white space separate words alike: a line means the same with spaces instead |
| ShellGrammar.RedirectionOpens | user/sh.c:384-394 | by the tests of the kernel's open, "<" is an existing file as input, ">" an emptied or new file as output, ">>" a kept or new one |
| Shell.GetToken | user/sh.c:267-309 | the first token of the rest of the line, with its span, and the cursor behind it |
| Shell.Peek | user/sh.c:312-321 | whether the next token starts with one of the given symbols, without consuming it |
| Shell.ParseRedirs | user/sh.c:376-398 | all redirections at the cursor, nested in order, or the failure the grammar calls for |
| Shell.ParseExec | user/sh.c:417-447 | agrees with the grammar on a simple command or block, with at most nine arguments |
| Shell.ParseBlock | user/sh.c:401-414 | agrees with the grammar on a parenthesised line and its redirections |
| Shell.ParsePipe | user/sh.c:363-373 | agrees with the grammar on a pipeline |
| Shell.ParseLine | user/sh.c:346-360 | agrees with the grammar on a line |
| Shell.NulTerminate | user/sh.c:451-494 | NULs are written exactly at the ends of the tree's words |
| Shell.NoneDamaged | user/sh.c:451-494 | after that every word reads as the token scanned, whatever other words ended where |
| Shell.ParseCmd | user/sh.c:329-343 | the strings of the returned tree, read from the terminated buffer, are the line's meaning, and it fails exactly if the line has none |
| Grep.MatchHere | user/grep.c:85-96 | true exactly if the pattern's items match from the position on |
| Grep.MatchStar | user/grep.c:99-106 | true exactly if some run of the character and then the rest match |
| Grep.Match | user/grep.c:73-82 | true exactly if the text satisfies the pattern's declarative meaning, for every pattern and text |

## Left out

- Log.Log.Commit: other processes act between its writes, not between the two reads and the write of one round; processes inside an operation cannot be there then.
- Log.Log.EndOp: the last operation must have logged every block it changed, as the file-system code does.
- Fs.FileSystem.Writei: a copy from the user succeeds for a whole block or not at all, so a partly copied, unlogged buffer does not occur.
- Fs.FileSystem.Ialloc: inodes are records, not the bytes of their blocks; device numbers are not kept.
- Links.Namespace.Create: path lookup has happened before, directories are lists of entries, and whether a write found its block is a parameter; a name that leads to a free inode, as ".." of a removed directory can, counts as a failure, where ilock would panic.
- Links.Namespace.LinkFinish: link counts are proved for runs that add no name to a removed directory, which is the condition of `LinkSpec.NameExact`.
- Mkfs.Mkfs: the shortening of file names is not modelled, and the caller asks for enough inodes, which mkfs does not check.
- Mkfs.Image.Ialloc: requires that an inode is left, which mkfs does not check.
- Mkfs.Image.AddFile: requires that an inode is left and that inode numbers fit the 16 bits of an entry, which mkfs does not check.
- Vm.Memory.Uvmunmap: the entry is cleared before its frame is freed; the source does it in the other order.
- Vm.Memory.Freewalk: an entry is cleared before the subtree behind it is freed, and a page-table page is 512 entries, not bytes.
- Vm.Memory.Uvmalloc: sizes up to the trapframe; uvmclear, uvmfirst and the kernel's own page table are not modelled.
- ProcWait.InvStep: wakeups other than those of exit may make any sleeper runnable at any time; file descriptors and memory of a process are not part of it.
- ProcWait.ReapedOnce: a child is identified by the number of its allocproc call; the pid is that number as a 32-bit int and repeats after wrapping.
- Pipe.ReadersAwake: sleep and wakeup are single steps under the pipe's lock, which `SleepLock.WakeupMissesNobody` justifies.
- Virtio.ReturnsWhenDone: the data transfer itself, memory fences and feature negotiation are not modelled.
- Umalloc.Allocator.Malloc: requests above 0x7FFFFFE0 bytes are excluded where they would get memory from sbrk; `Umalloc.SbrkFits` says that exactly those get a block larger than that memory.
- Shell.ParseExec: the tree is built as a value, so storing an argument through the pointer to the innermost node is a function on trees.
- Boot, traps, context switching, interrupts and device registers: hardware effects.
- Spinlocks: acquire and release are atomic steps.
- iget, ilock and the inode table: the in-memory copy of each inode and its reference count are fields, and locks are not modelled.
- Recovery of inodes that were unlinked but open at a crash: the source has no such mechanism.
- exec, system-call dispatch, the console, printf and the other user programs: outside the storage, memory and process core chosen here.
