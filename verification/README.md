# A verified model of xv6 with switchable schedulers

This project models, in Dafny, the parts of an xv6 for RISC-V where state, failure paths and
interleaving meet, and proves what they promise. The system is the teaching kernel with a choice of
round robin, first-come-first-served and priority scheduling and with process metrics.

`dafny verify dfyconfig.toml` checks everything. Code that updates structures in place is modelled by
classes and methods with loops; each method is proved against a specification function or a relation
between the old and the new state. Concurrent protocols are state machines whose steps are the critical
sections of the code, and the theorems about them hold for every run.

**Write-ahead log** (`LogMachine`, `LogSafety`, `LogHistory`, `LogSpace`, `LogSpaceExact`, `Log`). A state is the disk,
the cache and the log header; steps are single block writes, the calls of the log interface, crashes
and reboots. Whenever a run stops, also inside a commit or inside an earlier recovery, recovery from the
disk of that moment yields the boot disk plus exactly the committed transactions, each made of whole
operations; which data that is, `LogHistory` tells from the steps of the run alone. The class `Log` carries the run it
performs as a ghost value, so that every method of log.c is tied to steps of the machine.

**Files** (`FsLayout`, `BlockOwnership`, `FsState`, `FsMap`, `FsWrite`, `FsTrunc`, `FsFill`, `Fs`, `FsShared`, `Mkfs`,
`HoleRead`, `DirBytes`). A block's bit in the free map is set exactly when the block is metadata or is named by exactly one slot
of one inode. mkfs establishes this on disk; block mapping, truncation and writing keep it for the inodes as they are
in memory, any number of which may be ahead of the disk. `Fs.FileSystem.Readi` says when the copy on disk satisfies it
too. Reads and writes refine operations on one byte sequence per file, also with two writers at work at once on
different inodes. Every change since the last commit, to a block or an inode, is one that log_write was told of, so that
end_op brings home exactly what the operations made. The kernel's directory lookup finds in mkfs's bytes what mkfs entered.

**Directories** (`DirTree`, `LinkCount`, `SysFile`, `Dangling`, `Stranded`, `LinkLimit`). Link counts against the entries
that name an inode, over create, link, unlink and their failure paths, with other processes holding references to
directories already removed: never fewer links than entries, and exactly when as many.

**Pages** (`Sv39`, `PhysMem`, `PageSteps`, `PageGraft`, `PageMap`, `PageRange`, `PageFree`, `PageNeed`, `PageSpace`,
`PageLife`, `PageBytes`, `PageView`, `Vm`). The three-level tables of section 4.4 of the RISC-V Privileged Architecture
1.12 refine a flat map from virtual page to entry. Every physical page is at each moment free, a table
page of one place in one tree, a memory page of one place in one process, or held by the caller. Growth,
fork's copy and the making of a process's table fail exactly when free pages are too few, and then give
back what they took; what growing and shrinking mean is stated on the bytes that programs see.

**Processes** (`ProcMachine`, `ProcInv`, `ProcSteps`, `ProcSafety`, `ProcHistory`, `ProcKill`, `KillRuns`, `ProcLife`,
`ProcTime`, `ProcMetrics`, `Scheduler`). fork, exit, wait, sleep, wakeup, kill, dispatch, yield and the metrics, one step
per lock-protected section or per slot of a table scan, interleaved arbitrarily. Beside the safety of all runs, what the
table says of a process at any moment (running, asleep and on what, killed, its times) is shown to be what the steps of
the run say. The FCFS and PRIORITY scans are modelled with their hand-over-hand locking.

**Buffer cache and disk driver** (`Counting`, `BufRing`, `Bio`, `LogBuffers`, `Virtio`). The cache with its ring in next
and prev arrays, and what the log's pinned blocks leave of it; the driver's descriptors and rings (sections 2.6 and 5.2
of VIRTIO 1.1) against a device that carries requests out in any order, as the descriptors tell it to.

**Pipes, allocator, shell, grep** (`Pipe`; `HeapTiling`, `FreeList`, `Heap`, `HeapCanonical`, `Umalloc`; `ShellGrammar`,
`ShellLex`, `ShellSyntax`, `ShellText`, `Shell`; `Grep`). The allocator is that of section 8.7 of The C Programming
Language, 2nd edition. The shell's parser is shown to be exactly the reader of a grammar, on every line.

## Where the code differs from what it says

- begin_op reserves up to 30 blocks, but log_write refuses at nlog - 1 entries and mkfs sets nlog to 30.
  `LogSpaceExact.TooBigExact` gives the exact condition: operations of at most m distinct blocks can meet
  the "too big a transaction" panic if and only if 10 + 2m reaches one of the two limits. For the log that
  mkfs makes this is m >= 10, so an operation may use nine blocks of the ten it reserves.
- mkfs rounds the root directory up past its end even when it is a whole number of blocks, so its last block
  is then not allocated. `Mkfs.Mkfs.Build` shows that this happens if and only if the number of entries is a
  multiple of 64, and says exactly when mkfs gets through; `Mkfs.WholeRoot` is an image of 62 empty files.
- mkfs does not check its inode numbers. `Mkfs.InodesExact` shows that they stay in the inode blocks if and
  only if they are below 208.
- readi calls bmap, which allocates a block that is missing, and fileread calls readi outside an operation, where
  log_write panics. `Fs.FileSystem.Readi` shows that a read panics if and only if no operation is outstanding, a block
  of the range is missing and the disk is not full; that it otherwise changes the disk if and only if a block is
  missing and the disk is not full; and that no contents change in any case. The inode is not written back: after a
  read of a file system in order, the copy on disk is still in order if and only if the inode gained no address.
  `HoleRead.ReadOutside` and `HoleRead.ReadInside` read the missing block of `Mkfs.WholeRoot`: the one panics, the other
  leaves a block marked that nothing on disk names.
- The cache has 30 buffers and every block in the log is pinned in one. `LogBuffers.FreeExact` shows that bget finds a
  buffer for a new block if and only if the logged blocks and the buffers held are fewer than all;
  `LogBuffers.FullLog` is a run whose log takes up 29, and `LogBuffers.NoBuffers` ends in the "no buffers" panic with a
  single other buffer held.
- malloc passes a byte count to sbrk, which takes an int. `Umalloc.SbrkExact` shows that the count arrives
  intact if and only if fewer than 2^27 units are asked for. `Umalloc.Allocator.Malloc` shows that exactly
  the other requests, when granted, leave a header that claims memory the program was not given;
  `Umalloc.Overclaims` is such a call.
- pipewrite returns without waking readers when its process is killed. `Pipe.Pipe.Write` says before the
  call exactly for which kills a reader is left asleep beside data, and `Pipe.KilledWriter` is a run in
  which it occurs.
- piperead loses the byte it has taken when its copyout faults: `Pipe.Pipe.Read` shows that a byte is lost if
  and only if the fault is at a byte that the pipe holds and the reader wants; `Pipe.LostByte` is a run.
- proc_pagetable undoes the trampoline mapping if mapping the trapframe fails. The two pages share their
  tables, so this path is never taken; `Vm.Memory.ProcPagetable` proves it, and that the call succeeds if
  and only if three pages are free.
- The comment on uvmdealloc allows oldsz to exceed the process size. `Vm.Memory.Uvmdealloc` shows that it
  then panics if and only if there is a page to free; `Vm.DeallocBeyond` is such a call.
- create of ".." in a directory that has been removed can find a freed inode and panic; `SysFile.FileTree.Create`
  shows that it panics in no other case, and `Dangling.CreatePanics` is a run that ends so.
- A name can be entered in a directory that has been removed and is still open, and is lost with it: what it named
  keeps a link that no entry stands for, and is never freed. Every call leaves each inode's surplus of links over
  entries as it was, if and only if it does not drop the last reference to such a directory while it has entries;
  `SysFile.FileTree.Iput`, `Unlink`, `Link` and `Create` state this, and `Stranded.LostFile` is a run.
- A link count is a short. `LinkLimit.LinkShort` and `LinkLimit.CreateShort` show exactly which calls make one
  overflow, `LinkLimit.CheckExact` for which counts unlink then panics, and `LinkLimit.TooManyLinks` is a run
  to such a file, within what a disk holds.
- wait looks at its killed flag before it takes its process's lock to sleep. `ProcKill.KillRace` shows that a killed
  process sleeps in wait if and only if the kill came in between; `KillRuns.SleepsKilled` is such a run.
- Unused slots have pid 0 and allocproc does not clear the flag, so kill(0) marks the next process of a slot.
  `KillRuns.BornExact` shows that a process is born killed if and only if its slot was killed since it was last freed;
  `KillRuns.BornKilled` is such a run.
- The scheduler takes a last_runnable_time of 0 for none. `ProcMetrics.WaitingExact` shows that the waiting time is the
  time spent waiting less the spells that began when the 32-bit clock read 0; `ProcMetrics.LostSpell` is a run.
- Times are 32 bits wide. `ProcTime.WrapExact` shows that runs of processes that exit at age m or less keep
  the summed waiting time at or below the summed turnaround time if and only if m is less than 2^32.
- The project's readme describes a tie-break by arrival number. The process structure has no such field; ties
  go to the lower slot of the table, which is what `Scheduler` states.
- All buffers of the cache start as block 0 of device 0, so uniqueness is stated for other devices.

## Model

| member | source | states |
|---|---|---|
| LogMachine.HeaderRoundTrip | kernel/log.c:86-114 | a header written to the log and read back gives the same list of blocks |
| LogSafety.CrashSafety | kernel/log.c:67-235 | after every run, wherever it stops, recovery yields the boot disk plus exactly the committed transactions; each holds only whole operations and no operation is in two |
| LogSafety.CommittedGrows | kernel/log.c:126-203 | committed transactions are never lost or reordered: each stage's list is a prefix of every later one |
| LogSafety.IdleIsDurable | kernel/log.c:146-203 | when nothing is outstanding, every ended operation is in its home blocks and the cache agrees with the disk |
| LogSafety.ReadsSeeWrites | kernel/log.c:214-235 | between crashes the cache shows the committed and the logged writes in order, although home blocks are stale |
| LogHistory.LastStored | kernel/log.c:205-213 | in every run, until the next crash, the cache shows at every home block the data an operation last stored there, logged or not, installed or not |
| LogHistory.ToldTrue | kernel/log.c:205-235 | transactions and outstanding operations are those told from the steps alone: each log_write records the data last stored in its block, and a header write commits what was recorded |
| LogHistory.RecoversTold | kernel/log.c:67-235 | recovery at any moment yields the first disk with the transactions that the steps of the run say were committed |
| LogHistory.IdleStored | kernel/log.c:146-203 | when nothing is outstanding, every block stored since the last crash is on disk as it was stored last |
| LogSafety.RecoverYields | kernel/log.c:116-123 | recovery of a disk that represents given contents produces those contents on all home blocks |
| LogSafety.RepresentsRecover | kernel/log.c:116-123 | every recoverable disk represents what its own recovery computes |
| LogSafety.RecoverIdempotent | kernel/log.c:116-123 | recovering twice is recovering once, and the log is empty afterwards |
| LogSafety.CommitPoint | kernel/log.c:102-114 | the one block write of the header turns a disk with the blocks copied into one that represents the new contents |
| LogSafety.InstallOne | kernel/log.c:68-83 | installing one block keeps what the disk represents, so a crash between installs is harmless |
| LogSafety.EraseKeeps | kernel/log.c:193-203 | once all blocks are installed, erasing the header keeps what the disk represents |
| LogSafety.SafeStep | kernel/log.c:67-235 | every step of every kind, crash and replay included, keeps the safety invariant |
| LogSafety.SafeRun | kernel/log.c:67-235 | the safety invariant holds after every run |
| LogSafety.SlotBounds | kernel/log.c:178-191 | log slots written in any run lie inside the log area and below the header's capacity |
| LogSpace.Reservation | kernel/log.c:126-142 | logged blocks plus the unused reservations of all outstanding operations never exceed LOGSIZE |
| LogSpace.RoomyRun | kernel/log.c:126-142 | if operations log at most m distinct blocks, then in every run the log has room for what each may still log |
| LogSpaceExact.TooBigExact | kernel/log.c:214-235 | log_write can panic for operations of at most m blocks if and only if MAXOPBLOCKS + 2m reaches LOGSIZE or nlog - 1 |
| LogSpaceExact.WorstPanics | kernel/log.c:126-142 | ten small operations and two concurrent ones of m blocks reach the panic whenever that bound is met |
| LogSpaceExact.MkfsLogLimit | mkfs/mkfs.c:25 | with the log that mkfs makes, nine distinct blocks per operation are safe and ten are not |
| Log.Log.Reboot | kernel/log.c:54-65 | memory starts empty; only the disk of the crashed run survives |
| Log.Log.WriteHeader | kernel/log.c:102-114 | header block in cache and on disk is the in-memory header, other words of it and other blocks unchanged |
| Log.Log.ReadHeader | kernel/log.c:86-97 | the in-memory list is the one in the header block |
| Log.Log.CopyOne | kernel/log.c:178-191 | one round of write_log is one copy step of the machine |
| Log.Log.WriteLog | kernel/log.c:178-191 | all logged blocks are copied, as steps of the run, and nothing is committed by it |
| Log.Log.InstallOne | kernel/log.c:68-83 | one round of install_trans is one install or replay step |
| Log.Log.InstallTrans | kernel/log.c:68-83 | every logged block is installed, in recovery and in commit, as steps of the run |
| Log.Log.CommitHeader | kernel/log.c:193-203 | the write of the full header adds the current transaction to the committed ones |
| Log.Log.EraseHeader | kernel/log.c:193-203 | the log is empty, on disk too, and the committed list is unchanged |
| Log.Log.BootHeader | kernel/log.c:116-123 | reading the header at boot is the machine's boot step |
| Log.Log.RecoverFromLog | kernel/log.c:116-123 | after recovery the home blocks hold the boot disk plus the committed transactions and the log is empty |
| Log.Log.BeginOp | kernel/log.c:126-142 | admitted if and only if no commit is under way and the worst case of all outstanding operations and this one fits |
| Log.Log.Enter | kernel/log.c:225-233 | the header lists the block once more only if it was not there |
| Log.Log.Modify | kernel/log.c:205-213 | a caller changes a buffer it holds: the cache has the new data at that block, and no other block changes |
| Log.Log.LogWrite | kernel/log.c:214-235 | refuses exactly when the log is at its limit; otherwise the block joins the transaction, once however often it is written |
| Log.Log.Commit | kernel/log.c:193-203 | the transaction, if not empty, becomes the last committed one and the log is empty again |
| Log.Log.CloseOp | kernel/log.c:146-175 | the operation joins the transaction as a whole; commit starts exactly with the last outstanding one |
| Log.Log.FinishOp | kernel/log.c:146-175 | after the commit the home blocks hold all committed contents |
| Log.Log.EndOp | kernel/log.c:146-175 | when end_op returns as the last operation, its transaction is committed and installed, and every block holds on disk what was last stored in it; otherwise nothing is committed |
| FsLayout.SetBits | kernel/fs.c:65-88 | setting a bit in its map block changes exactly that bit of the free map |
| FsLayout.ClearBits | kernel/fs.c:91-105 | clearing a bit in its map block changes exactly that bit of the free map |
| FsLayout.WordRoundTrip | kernel/fs.c:400-417 | an entry stored in an indirect block is read back, and no other entry changes |
| BlockOwnership.BitsExact | kernel/fs.c:65-105 | a block is marked if and only if it is metadata or some slot of some inode names it |
| BlockOwnership.EmptiedExact | kernel/fs.c:425-453 | emptying one inode releases exactly the blocks its slots named |
| BlockOwnership.OwnsTake | kernel/fs.c:65-88 | a block found free is named by no slot, and marking it keeps the ownership invariant |
| BlockOwnership.OwnsPlace | kernel/fs.c:382-421 | giving a held block to an empty slot keeps every block named at most once |
| BlockOwnership.OwnsDetach | kernel/fs.c:425-453 | emptying slots turns the blocks they named into held ones |
| BlockOwnership.OwnsFree | kernel/fs.c:91-105 | unmarking a held block keeps the invariant |
| FsState.ReadOverwrite | kernel/fs.c:471-539 | a read of a written range returns what was written and the rest of the file is as before |
| FsState.OverwriteTwice | kernel/file.c:155-174 | consecutive writes amount to one write of the joined bytes |
| FsWrite.MappedContent | kernel/fs.c:382-421 | bmap changes no contents: a block it adds reads as the zeros that its absence did |
| FsWrite.WrittenDone | kernel/fs.c:516-538 | after the size is raised the contents are the old ones with the bytes copied in, and no hole appears |
| FsWrite.WrittenKept | kernel/fs.c:505-539 | a write half done is not disturbed by a change to another file |
| FsTrunc.TruncReleases | kernel/fs.c:425-453 | if one inode is emptied and the rest kept, other files' contents are untouched and exactly its blocks are released |
| Fs.ChunkSize | kernel/file.c:155-174 | a write of at most three blocks' worth of bytes logs at most seven distinct blocks |
| Fs.FileSystem.constructor | kernel/fs.c:42-48 | the file system as mounted: inodes in memory are those on disk, no operation is outstanding and nothing is logged |
| Fs.FileSystem.BeginOp | kernel/log.c:126-143 | one operation more, and every change is still at home or logged |
| Fs.FileSystem.EndOp | kernel/log.c:147-177 | the last operation's end installs the logged blocks only, and those suffice: the disk at home is then the disk that the operations made, blocks and inodes; any other end changes nothing |
| Fs.FileSystem.AtHome | kernel/log.c:147-177 | with no operation outstanding nothing is lost in a crash: the disk at home is the current one |
| Fs.FileSystem.FindFree | kernel/fs.c:65-88 | the lowest free block, or none if and only if all are marked |
| Fs.FileSystem.Balloc | kernel/fs.c:65-88 | the lowest free block, marked and zeroed; 0 exactly when the disk is full, and then nothing changed; log_write panics exactly if there is a free block and no operation is outstanding |
| Fs.FileSystem.Bfree | kernel/fs.c:91-105 | panics exactly when the block is free already; otherwise clears just its bit, and logs the block of it |
| Fs.FileSystem.Iupdate | kernel/fs.c:225-241 | the inode on disk becomes the one in memory and only its block is logged |
| Fs.FileSystem.Bmap | kernel/fs.c:382-421 | the block of any file block below MAXFILE; it allocates exactly if one is missing and the disk is not full, and panics exactly if it then is outside an operation; all other slots, all contents and the ownership invariant kept; 0 only when the disk is full |
| Fs.FileSystem.BmapDirect | kernel/fs.c:388-396 | the same for direct blocks, the indirect pointer unchanged |
| Fs.FileSystem.BmapIndirect | kernel/fs.c:397-418 | the same for blocks behind the indirect block, which may itself be new |
| FsFill.FillsIndirect | kernel/fs.c:397-418 | filling in the indirect block and then the entry is one mapping that changes the disk exactly if something was missing and the disk not full |
| Fs.FileSystem.Itrunc | kernel/fs.c:425-453 | frees exactly the blocks the inode owned, meets no free block on the way, and leaves every other file alone |
| Fs.FileSystem.Readi | kernel/fs.c:471-496 | the bytes of the file from the offset on, cut at its end, for every offset and length, short only in a panic or at a block that is missing on a full disk; it panics exactly when no operation is outstanding, a block of the range is missing and the disk is not full; contents never change, and the disk changes exactly when a block is missing, the disk is not full and it does not panic; the inodes on disk then fit the free map exactly if the inode lacked no address of the range |
| FsFill.VisitedExact | kernel/fs.c:482-494 | reading a range through bmap leaves disk and inode as they were exactly if nothing of it is missing or the disk is full, with one condition for the disk and one for the inode |
| FsFill.VisitedBreak | kernel/fs.c:484-486 | a read that stops at a missing block has done all that reading on would have done |
| FsFill.BehindExact | kernel/fs.c:471-496 | an inode on disk that lacks addresses which the one in memory has breaks the ownership invariant there: the copy on disk satisfies it if and only if it lacks none |
| HoleRead.Mount | mkfs/mkfs.c:166-171 | the image of 62 empty files, mounted: its root lacks its second block and the disk has room |
| HoleRead.ReadOutside | kernel/file.c:120-124 | fileread of that block, with no operation outstanding, panics |
| HoleRead.ReadInside | kernel/file.c:120-124 | the same while another operation is outstanding allocates a block that the inodes on disk do not name |
| FsWrite.PresentNoHole | kernel/fs.c:471-496 | a file none of whose blocks is missing has no hole in any range, so readi leaves the disk alone |
| Fs.FileSystem.WriteLoop | kernel/fs.c:516-528 | as many bytes as fit are in the file from the offset on, whatever blocks it lacks, stopping early only at a block that is missing on a full disk; no other file changes |
| Fs.FileSystem.FinishWrite | kernel/fs.c:530-538 | the size covers what was written, the inode is on disk, and the contents are the old ones overwritten |
| Fs.FileSystem.Writei | kernel/fs.c:505-539 | -1 exactly for its range checks, changing nothing; a result t replaces bytes [off, off + t), extends the size to cover them, and changes no other file, and is short only at a block that is missing on a full disk; at most seven distinct blocks are logged for three blocks of data |
| Fs.FileSystem.WriteChunk | kernel/file.c:155-174 | one transaction of filewrite adds the next bytes to what earlier ones wrote, short only at a block missing on a full disk, or fails, exactly for writei's range checks, and changes nothing |
| Fs.FileSystem.Filewrite | kernel/file.c:155-174 | whatever chunks succeed, the file is the old contents with one prefix of the source written at the offset, and no other file changes; the result is the full length or -1; with no other operation outstanding all of it is at home; the prefix is the whole source unless the offset is beyond the end, the next chunk would pass the largest size, or its next block is missing on a full disk |
| FsShared.Turn | kernel/fs.c:516-528 | one block of one writer, or a stop at a block missing on a full disk; a full disk stays full |
| FsShared.TurnBeside | kernel/fs.c:516-528 | one turn of one writer leaves what the other has done, and why it stopped |
| FsShared.TakeTurns | kernel/fs.c:516-528 | taking turns in any order, each writer comes to its end or to a block missing on a full disk |
| FsShared.FinishBoth | kernel/fs.c:530-538 | two writers may update their inodes in either order |
| FsShared.WriteTwo | kernel/fs.c:505-539 | two writers on different inodes, interleaved block by block in any order: each file gets exactly its own write, whole unless its next block is missing on a full disk, no third file changes, and both inodes reach the disk |
| Mkfs.Mkfs.constructor | mkfs/mkfs.c:93-115 | an empty image satisfies the file system invariant |
| Mkfs.Mkfs.Grab | mkfs/mkfs.c:254-296 | taking the next block off the counter is an allocation in the kernel's sense |
| Mkfs.Mkfs.MapBlock | mkfs/mkfs.c:254-296 | iappend's block lookup maps file blocks as the kernel's bmap does; it succeeds exactly if the blocks missing are left, and takes just those |
| Mkfs.Mkfs.Iappend | mkfs/mkfs.c:254-296 | the file's contents grow by exactly the data and no other file changes, if and only if the file stays below its limit and the blocks it then has more are left |
| Mkfs.Mkfs.Ialloc | mkfs/mkfs.c:222-234 | the next inode, with one link and no contents; the image is unchanged |
| Mkfs.Mkfs.CopyFile | mkfs/mkfs.c:159-160 | the file ends up holding exactly the given bytes, if and only if it is not too long and its blocks are left |
| Mkfs.Mkfs.WriteMap | mkfs/mkfs.c:236-250 | the map block written at the end marks exactly the blocks handed out |
| Mkfs.Mkfs.AddFile | mkfs/mkfs.c:130-163 | one more file is in the image and the root directory names it, the earlier ones untouched, if and only if there is room for it and its entry |
| Mkfs.Mkfs.Build | mkfs/mkfs.c:117-175 | succeeds if and only if no file is too long and all files and the root, with their indirect blocks, fit on the disk; the image then satisfies the kernel's invariant, holds every input under its name, a root filled up with zeros, and has marked exactly the blocks below freeblock; every block below a file's size is present if and only if the root's entries do not fill whole blocks |
| Mkfs.WholeRoot | mkfs/mkfs.c:166-171 | 62 empty files make an image whose root of two blocks lacks the second, while the disk has room for it |
| Mkfs.MissingExact | mkfs/mkfs.c:254-296 | appending takes exactly the blocks by which the longer file needs more, indirect block included |
| Mkfs.InodesExact | mkfs/mkfs.c:186-234 | an inode lies in the inode blocks if and only if its number is below 208; number 208 is the free map |
| DirBytes.Strncmp | kernel/string.c:61-68 | true if and only if the two strings agree up to their ends or n bytes |
| DirBytes.Lookup | kernel/fs.c:551-575 | over the bytes of a directory: the inode number of the first entry in use with that name, 0 if and only if there is none |
| DirBytes.DirentRead | kernel/fs.h:56-59 | number and name of an entry that mkfs formed are read back |
| DirBytes.RootReads | mkfs/mkfs.c:117-171 | the kernel reads the root of the image as "." and "..", then one entry for each file with its inode, and nothing after them |
| DirBytes.RootFinds | kernel/fs.c:551-575 | dirlookup in the root of the image finds each file's inode, if no entry before it has the same name |
| DirTree.LinksSuffice | kernel/sysfile.c:123-302 | entries of reachable directories, other than ".", name allocated inodes, and no inode has fewer links than such entries |
| DirTree.PathRooted | kernel/fs.c:651-684 | every directory reached from the root by entries is attached, with a chain of parents up to the root |
| DirTree.OneEntry | kernel/fs.c:579-606 | no directory, removed or not, has two entries of one name |
| DirTree.EnterOk | kernel/fs.c:579-606 | entering a name, with a link to spare, keeps the tree and link invariant |
| DirTree.EraseOk | kernel/sysfile.c:188-243 | erasing an entry keeps the invariant, and the entry was one of those its target's links account for |
| DirTree.MakeOk | kernel/fs.c:198-219 | turning a free inode into a new one keeps the invariant |
| DirTree.UnmakeOk | kernel/fs.c:336-362 | freeing an inode without links keeps the invariant: no entry that counts names it |
| DirTree.Unnamed | kernel/fs.c:336-362 | an inode without links is not the root, is not attached and is no attached directory's parent |
| LinkCount.EnterSurplus | kernel/fs.c:579-606 | an entry takes up a link of what it names, and the ".." of a directory one of its parent |
| LinkCount.EraseSurplus | kernel/sysfile.c:218-221 | an entry erased sets free what it took up |
| LinkCount.UnmakeExact | kernel/fs.c:336-362 | freeing an inode leaves every other one's links matched with its entries if and only if it is no directory with entries left |
| SysFile.NamesAllocated | kernel/fs.c:551-575 | only the ".." of a removed directory can name a free inode |
| SysFile.MadeInVain | kernel/sysfile.c:265-301 | making an inode and giving it up leaves the tree exactly as it was |
| SysFile.RemovalInodes | kernel/sysfile.c:218-232 | what unlink does to the inodes: the entry is unused, the inode has a link less, and the directory too for a subdirectory |
| SysFile.RemovalSurplus | kernel/sysfile.c:218-232 | it keeps the invariant and every inode's surplus of links over entries |
| SysFile.UnlinkSurplus | kernel/sysfile.c:218-243 | with the references dropped too, the surpluses are kept exactly unless the directory goes with entries left |
| SysFile.CreatedSurplus | kernel/sysfile.c:265-293 | the same for create, whose new links the entry and ".." take up |
| SysFile.LinkedSurplus | kernel/sysfile.c:145-157 | the same for link |
| SysFile.ReleasedOther | kernel/fs.c:336-362 | dropping a reference to one inode commutes with changing the links of another |
| SysFile.FileTree.constructor | mkfs/mkfs.c:117-128 | a root directory with its two entries, all other inodes free, nothing referenced: this satisfies the invariant, with exactly as many links as entries |
| SysFile.FileTree.Iget | kernel/fs.c:247-276 | one more reference to an allocated inode; an entry new in memory has yet to be read in |
| SysFile.FileTree.Ilock | kernel/fs.c:292-316 | a referenced inode is read in and is allocated: "no type" does not occur |
| SysFile.FileTree.Iput | kernel/fs.c:336-362 | frees the inode exactly on the last reference to one without links, which has then always been read in, and nothing that counts names it; no other inode changes; links and entries stay matched exactly if it was no directory with entries left |
| SysFile.FileTree.Dirlookup | kernel/fs.c:551-575 | finds the entry with that name, or -1 if and only if there is none |
| SysFile.FileTree.FreeEntry | kernel/fs.c:592-598 | the first unused entry, or the place after the last |
| SysFile.FileTree.IsDirEmpty | kernel/sysfile.c:172-186 | true if and only if nothing but the first two entries is in use |
| SysFile.FileTree.Dirlink | kernel/fs.c:579-606 | the entry is added if and only if the name is new and the write succeeds; otherwise nothing changes |
| SysFile.FileTree.Link | kernel/sysfile.c:123-170 | succeeds exactly for non-directories with an enterable new name; one entry and one link more and no other inode changed, or nothing but the references given up; links match entries as before, exactly unless a removed directory goes with entries left |
| SysFile.FileTree.EnterLink | kernel/sysfile.c:149-156 | the entry is added exactly if the name is new and the write succeeds; the directory's reference is dropped |
| SysFile.FileTree.TakeBack | kernel/sysfile.c:163-169 | the failure path restores the count and drops the reference |
| SysFile.FileTree.Detach | kernel/sysfile.c:222-228 | the entry is gone and a directory's parent has one link less, the invariant kept |
| SysFile.FileTree.UnlinkAt | kernel/sysfile.c:213-243 | refuses exactly non-empty directories, and otherwise removes entry and link with the effect on each inode that unlink has; the count it checks is at least one |
| SysFile.FileTree.RemoveEntry | kernel/sysfile.c:222-233 | entry and link removed, inode by inode as for unlink, each freed exactly if that was the last of its links and references |
| SysFile.FileTree.Unlink | kernel/sysfile.c:188-243 | succeeds exactly when the name is entered, is not "." or "..", and names no non-empty directory; then the name is gone, the inode is free exactly if that was its one link and nobody refers to it, and has one link less otherwise, the directory has a link less exactly for a subdirectory, and no other inode changes; each inode's links match its entries as before, exactly unless the directory itself goes with entries left |
| SysFile.FileTree.FindFree | kernel/fs.c:198-219 | a free inode, or 0 if and only if there is none |
| SysFile.FileTree.Make | kernel/sysfile.c:265-280 | a new inode with one link, and "." and ".." in a directory, if and only if there is a free inode and those writes succeed; otherwise nothing changes |
| SysFile.FileTree.EnterNew | kernel/sysfile.c:282-289 | the new name and the parent's link for ".." appear together or not at all |
| SysFile.FileTree.GiveUp | kernel/sysfile.c:295-301 | the failure path restores the tree from before ialloc |
| SysFile.FileTree.CreateNew | kernel/sysfile.c:265-302 | a name that is new gets a new inode with one link, or, exactly when an inode is lacking or a write fails, no trace is left |
| SysFile.FileTree.Existing | kernel/sysfile.c:256-263 | an existing file or device is returned, with a reference, exactly when a file is wanted; otherwise both references are dropped; panics exactly on a free inode |
| SysFile.FileTree.Create | kernel/sysfile.c:245-302 | the whole of create for every name and type: result, each inode and the references for a new and for an existing name, and the one case in which it panics; links match entries as before, exactly unless a removed directory goes with entries left |
| Dangling.RemoveInner | kernel/sysfile.c:188-243 | removing a held directory takes its links and leaves its entries |
| Dangling.RemoveOuter | kernel/sysfile.c:188-243 | removing the parent of a removed, held directory frees the parent |
| Dangling.CreatePanics | kernel/sysfile.c:245-263 | after mkdir of a and a/b, with b held, and unlink of both, create of ".." in b panics |
| Stranded.RemovedDir | kernel/sysfile.c:188-243 | mkdir, and rmdir while the directory is open: it has no links and is not freed |
| Stranded.LostFile | kernel/sysfile.c:245-302 | a file made there and closed, with the directory: one link, no entry, no reference, and not free |
| LinkLimit.LinkShort | kernel/sysfile.c:145-146 | link keeps all counts within a short if and only if the inode has fewer than 32767 links |
| LinkLimit.CreateShort | kernel/sysfile.c:284-289 | create keeps all counts within a short if and only if it makes no subdirectory of one with 32767 links |
| LinkLimit.UnlinkShort | kernel/sysfile.c:188-243 | unlink keeps all counts within a short, and while they are, its check does not panic |
| LinkLimit.CheckExact | kernel/sysfile.c:215-216 | whatever the count, unlink's check panics if and only if its last 16 bits are zero or negative as a short |
| LinkLimit.TooManyLinks | kernel/sysfile.c:123-243 | a run to a file with 32768 links, in directories that fit in a file, where unlink's check fails |
| Sv39.PaRoundTrip | kernel/riscv.h:367-370 | PA2PTE then PTE2PA gives the page back, with any permission bits added |
| Sv39.EntryFields | kernel/riscv.h:367-371 | page number and flags of an entry are read back as written |
| Sv39.PxShift | kernel/riscv.h:373-376 | the three indices are the nine-bit fields of the byte address |
| Sv39.PathStep | kernel/vm.c:93-111 | one level of walk goes to the child that the index names |
| Sv39.SlotsDistinct | kernel/vm.c:93-111 | distinct pages use distinct leaf slots |
| PhysMem.NodesDistinct | kernel/vm.c:93-111 | two table nodes, of one tree or of two, never share a page |
| PageSteps.TakeOk | kernel/kalloc.c:68-82 | taking a page off the free list keeps the partition of memory and every lookup |
| PageSteps.GiveOk | kernel/kalloc.c:46-63 | freeing a held page keeps the partition and every lookup |
| PageSteps.StoreOk | kernel/vm.c:366-391 | storing bytes in a memory page keeps all tables and lookups |
| PageGraft.GraftOk | kernel/vm.c:93-111 | adding a table page to a tree changes no lookup in any process |
| PageGraft.PlantOk | kernel/vm.c:211-220 | a new root is an empty map and changes no other |
| PageMap.MappedOk | kernel/vm.c:151-180 | writing an entry changes the flat map at that one page of that one process |
| PageMap.DroppedOk | kernel/vm.c:185-207 | clearing an entry and freeing its page changes the flat map at that one page only |
| PageRange.ValidIsLeaf | kernel/vm.c:195-200 | in a sound table the entry of a page is valid exactly if it is a leaf, so uvmunmap never meets an inner table |
| PageNeed.TablesStep | kernel/vm.c:93-111 | the table pages needed for a range are those for its beginning plus those then still missing for the next page |
| PageNeed.ShortStep | kernel/vm.c:240-264 | once the next page cannot be had, the whole range could not have been |
| PageNeed.SharedTables | kernel/proc.c:201-218 | after the trampoline is mapped, the trapframe needs no further table |
| PageSpace.SpaceBound | kernel/vm.c:240-264 | a process has fewer pages than there are, so growing never reaches the fixed pages at the top |
| PageSpace.GrewUndone | kernel/vm.c:240-264 | a growth undone leaves everything as it was but for spare table pages |
| PageSpace.CopyStep | kernel/vm.c:320-348 | copying one more page extends the equality of the two memories |
| PageSpace.FramesDistinct | kernel/vm.c:240-264 | a process of n pages uses n different physical pages |
| PageBytes.FramesDiffer | kernel/vm.c:320-348 | two pages in use share a physical page only if they are the same page of the same process |
| PageBytes.PatchWrites | kernel/vm.c:366-391 | storing part of a page changes exactly those bytes of that process |
| PageBytes.WrittenReads | kernel/vm.c:366-416 | bytes just written are readable and read as written |
| PageView.GrewView | kernel/vm.c:240-264 | growth leaves the rights and the value of every other byte of every process |
| PageView.ClearedView | kernel/vm.c:185-207 | what is unmapped cannot be read any more, and every other byte is as it was |
| PageView.UndisturbedView | kernel/vm.c:250-262 | a growth that failed is seen by no process |
| PageView.ZeroedView | kernel/vm.c:250-262 | pages added with PTE_W can be written and read as zero |
| Vm.Memory.constructor | kernel/kalloc.c:26-40 | kinit leaves every page free and the invariant established |
| Vm.Memory.Kfree | kernel/kalloc.c:46-63 | the page is the new head of the free list |
| Vm.Memory.Kalloc | kernel/kalloc.c:68-82 | null exactly when no page is free |
| Vm.Memory.Extend | kernel/vm.c:103-108 | a missing table is added without changing any lookup, or nothing happens when no page is free |
| Vm.Memory.Walk | kernel/vm.c:93-111 | finds the slot of a page; never changes the flat map; with allocation it fails exactly when the missing tables outnumber the free pages and otherwise takes exactly those |
| Vm.Memory.Mappages | kernel/vm.c:151-180 | enters exactly the range; succeeds if and only if there are free pages for the missing tables |
| Vm.Memory.MapOne | kernel/vm.c:169-178 | one round of the loop: the next page of the range is entered |
| Vm.Memory.Uvmunmap | kernel/vm.c:185-207 | panics if and only if some page of the range has no leaf, at the first such page; what lies before it, or all of the range, is cleared, and exactly those pages freed if asked |
| Vm.Memory.AddPage | kernel/vm.c:250-262 | one new page with given bytes and permissions, all or nothing, if and only if there are pages for it and its tables |
| Vm.Memory.Uvmdealloc | kernel/vm.c:270-282 | for every new size and every old size below the fixed pages: panics if and only if there is a page to free and oldsz lies above the pages there are; frees exactly the pages above the new size, and those of them that exist before a panic |
| Vm.DeallocBeyond | kernel/vm.c:266-282 | a process of one page shrunk to nothing from a size of two pages panics |
| Vm.Memory.Uvmalloc | kernel/vm.c:240-264 | new zeroed pages for the whole range if and only if the new pages and missing tables do not outnumber the free pages; otherwise every data page is given back and no lookup differs |
| Vm.Memory.Rollback | kernel/vm.c:251-262 | the failure path restores every lookup and every data page |
| Vm.Memory.Freewalk | kernel/vm.c:286-302 | frees every table page below a node exactly once and never meets a leaf |
| Vm.Memory.Uvmfree | kernel/vm.c:306-312 | every data and table page of the process is free, all others untouched |
| Vm.Memory.Uvmcreate | kernel/vm.c:211-220 | an empty table, or null exactly when no page is free |
| Vm.Memory.Uvmcopy | kernel/vm.c:320-348 | equal contents and flags on pages of its own if and only if the free pages suffice; otherwise every data page is given back |
| Vm.Memory.MapFixed | kernel/proc.c:201-218 | one fixed page mapped, no other entry changed, if and only if its tables can be had |
| Vm.Memory.MapTrapframe | kernel/proc.c:209-220 | with the trampoline mapped, mapping the trapframe cannot fail |
| Vm.Memory.ProcPagetable | kernel/proc.c:191-221 | succeeds if and only if three pages are free; otherwise every page is back where it was |
| Vm.Memory.ProcFreepagetable | kernel/proc.c:225-231 | every page the process used is returned, exactly once |
| Vm.Memory.Growproc | kernel/proc.c:276-292 | the new size for every signed request; fails exactly when the pages do not suffice; every byte of the new pages can be written and is zero, with rights to read and write only, no byte given back can be read, and no other byte of this or any process changes in value or rights |
| Vm.Memory.Lifetime | kernel/proc.c:191-292 | after any sequence of grows and shrinks, granted or refused, freeing the process leaves every page where it was |
| Vm.Memory.Walkaddr | kernel/vm.c:116-134 | the physical page exactly for pages user code may use, else 0 |
| Vm.Memory.Copyout | kernel/vm.c:366-391 | writes exactly the bytes up to the first one not writable, across pages, and nothing else anywhere |
| Vm.Memory.Copyin | kernel/vm.c:396-416 | reads the bytes, failing exactly at the first one not readable |
| Vm.Memory.CopyRoundTrip | kernel/vm.c:366-416 | copyin after copyout returns the same bytes, across page boundaries |
| ProcSafety.NoLostWakeup | kernel/proc.c:365-459 | in every run, whenever wait_lock is free no process committed to sleeping in wait has a zombie child |
| ProcSafety.ParentsAlive | kernel/proc.c:296-410 | in every run no parent pointer names an exited process and every process but init has a parent |
| ProcSafety.ReapedOnce | kernel/proc.c:414-459 | a zombie is freed only by its current parent in wait, off every processor, and each pid once |
| ProcSafety.OneCpu | kernel/proc.c:506-657 | in every run a running process is current on exactly one processor |
| ProcTime.WaitingBounded | kernel/proc.c:524-600 | in every run, across policy switches and resets, waiting time is at most the time since creation, also as computed in 32 bits across the wrap of ticks for a process less than 2^32 ticks old; summed waiting at most summed turnaround if all exits are at such ages |
| ProcTime.SumsFit | kernel/proc.c:372-376 | the two sums fit in their 64 bits for the first 2^32 exits |
| ProcTime.WrapExact | kernel/proc.c:372-376 | in all runs in which processes exit at age m or less summed waiting is at most summed turnaround, if and only if m is below 2^32 |
| ProcTime.OldExit | kernel/proc.c:372-376 | a run in which a process waits 2^32 - 1 ticks and exits at age 2^32, and the sums come out wrong |
| ProcMetrics.TimesExact | kernel/proc.c:520-600 | in every run the times kept in a process are when it was allocated, when it last became runnable, and the waiting charged to it |
| ProcMetrics.WaitingExact | kernel/proc.c:524-526 | waiting time is the sum, over the dispatches of the process, of the time since it became runnable, less the spells that began when the clock read 0 |
| ProcMetrics.SumsExact | kernel/proc.c:371-377 | the metrics are the totals over the processes that exited since the last reset, each taken modulo 2^32 |
| ProcMetrics.LostSpell | kernel/proc.c:524-526 | a run in which init waits for a tick from time 0 and is charged nothing |
| ProcSafety.StepKeeps | kernel/proc.c:296-758 | every step of fork, exit, wait, kill, wakeup, dispatch, yield and tick keeps the invariant; what each does to a process the rows of ProcHistory and ProcKill state |
| ProcSafety.RunInv | kernel/proc.c:296-758 | the invariant holds after every run |
| ProcSafety.BootedInv | kernel/proc.c:247-272 | the state after userinit satisfies it |
| ProcSafety.SafeExit | kernel/proc.c:392-405 | when a process becomes a zombie its parent has been woken and cannot have committed to sleep again |
| ProcSafety.SafeCommit | kernel/proc.c:450-457 | a process that commits to sleep has seen no zombie child and none has appeared since |
| ProcSafety.WokenUp | kernel/proc.c:716-732 | the slot that wakeup has passed is no longer asleep on the channel |
| ProcHistory.ClockExact | kernel/trap.c:163-172 | the clock counts the ticks of the run |
| ProcHistory.CpuExact | kernel/proc.c:528-532 | a processor is at the process it was last given and has not come back from |
| ProcHistory.GoingExact | kernel/proc.c:506-707 | in every run a process is running just from its dispatch to its yield, sleep or exit |
| ProcHistory.SleepExact | kernel/proc.c:680-758 | in every run a process sleeps, and on what, just from its sleep to the next wakeup of that channel that comes to it, or kill |
| ProcHistory.NoSlotLost | kernel/proc.c:296-345 | in every run a slot that fork has allocated and not filled has its fork still at work on it |
| ProcKill.KilledExact | kernel/proc.c:738-777 | in every run the killed flag is set if and only if the slot was killed since it was last freed |
| ProcKill.KillWakes | kernel/proc.c:738-758 | right after kill the process has the flag and does not sleep |
| ProcKill.KillRace | kernel/proc.c:450-457 | in every run a process asleep in wait, or bound to sleep there, has been killed if and only if that was after its look at the flag and before it had its lock |
| KillRuns.SleepsKilled | kernel/proc.c:450-457 | a run in which a killed process sleeps in wait |
| KillRuns.BornExact | kernel/proc.c:112-163 | a process is born killed if and only if its slot was killed since it was last freed |
| KillRuns.BornKilled | kernel/proc.c:738-758 | a run in which kill(0) marks an unused slot and the next process there is born killed |
| ProcLife.WholeLife | kernel/proc.c:296-459 | a run through fork, exit and wait that ends with the child reaped and its slot free |
| Scheduler.PrecedesTotal | kernel/proc.c:540-608 | the order of each policy, slot last, is total, so there is never a tie |
| Scheduler.PrecedesTrans | kernel/proc.c:540-608 | that order is transitive |
| Scheduler.FirstUnique | kernel/proc.c:540-608 | at most one process can be first |
| Scheduler.FirstMeans | kernel/proc.c:540-608 | first is the oldest under FCFS; under PRIORITY the one of the least number, and among equals the oldest; then the lower slot |
| Scheduler.FirstStep | kernel/proc.c:545-555 | the scan's comparison keeps the candidate first among the slots seen |
| Scheduler.Cpu.Acquire | kernel/proc.c:545-546 | processes not locked may have changed arbitrarily by the time a lock is obtained |
| Scheduler.Cpu.Scan | kernel/proc.c:540-608 | ends holding exactly the winner's lock or none, locks taken in ascending order; the winner is runnable still and, of those seen runnable, has the least creation time under FCFS, the least priority number and then creation time under PRIORITY |
| BufRing.UnlinkRing | kernel/bio.c:128-129 | taking a buffer out leaves a ring of the others in the same order |
| BufRing.PushRing | kernel/bio.c:130-133 | putting it behind the head gives a ring with it in front |
| BufRing.MoveRing | kernel/bio.c:128-133 | both together permute the ring, moving one buffer to the front |
| BufRing.RecentPush | kernel/bio.c:116-137 | the ring stays ordered by when each buffer was last moved |
| BufRing.CompleteHas | kernel/bio.c:36-53 | the ring holds every buffer |
| Bio.LatestUnique | kernel/bio.c:58-89 | a block has one current contents |
| Bio.LatestExists | kernel/bio.c:58-89 | every block of a real device has a current contents, in its one buffer or on disk |
| Bio.Recycled | kernel/bio.c:77-86 | giving an unreferenced buffer to another block changes no block's current contents |
| Bio.LastIsLeast | kernel/bio.c:77-87 | the victim found from the tail is the unreferenced buffer moved longest ago |
| Bio.Cache.constructor | kernel/bio.c:36-53 | binit builds a ring of all buffers |
| Bio.Cache.Lookup | kernel/bio.c:66-73 | the buffer that caches the block, or -1 if and only if none does |
| Bio.Cache.Victim | kernel/bio.c:77-88 | the least recently used unreferenced buffer, or -1 if and only if all are referenced |
| Bio.Cache.Bget | kernel/bio.c:58-89 | a reference to the block's buffer or to a recycled one; panics exactly when the block is not cached and every buffer is referenced; no block's contents change |
| Bio.Cache.Fill | kernel/bio.c:92-103 | what bread returns holds the block's latest contents |
| Bio.Cache.Bwrite | kernel/bio.c:106-112 | the disk holds the buffer's contents and no block's current contents change |
| Bio.Cache.Brelse | kernel/bio.c:116-137 | its two sections with nobody in between: lock and reference given up; with the last reference the buffer is in front |
| Bio.Cache.Unlock | kernel/bio.c:119-122 | the sleep lock is free for another client and nothing else changes |
| Bio.Cache.Drop | kernel/bio.c:124-136 | a reference less, whoever holds the lock by then; with the last one the buffer is in front; no block's current contents change |
| Bio.Cache.MoveToFront | kernel/bio.c:126-134 | the six pointer updates keep the ring and put the buffer in front |
| Bio.Cache.Bpin | kernel/bio.c:139-144 | one more reference, so that the buffer is not recycled |
| Bio.Cache.Bunpin | kernel/bio.c:146-151 | one reference less |
| LogBuffers.PinsSize | kernel/log.c:225-233 | the blocks in the log are pinned in as many buffers |
| LogBuffers.FreeExact | kernel/bio.c:77-88 | there is an unreferenced buffer if and only if logged blocks and buffers held by clients are fewer than the buffers |
| LogBuffers.BesideLog | kernel/param.h:10-11 | after any run of the log bget finds a buffer while clients hold fewer than all but 29 |
| LogBuffers.FullLog | kernel/param.h:10-11 | a run of the log in which 29 blocks are in it |
| LogBuffers.LogNext | kernel/log.c:225-233 | a block read, changed and passed to log_write stays in its buffer after brelse |
| LogBuffers.NoBuffers | kernel/bio.c:77-88 | with 29 blocks pinned and one buffer held the next bget of a block not cached panics |
| Virtio.IdxSlot | kernel/virtio_disk.c:272-277 | 16-bit indices address the right slot across their wrap |
| Virtio.IdxDiffers | kernel/virtio_disk.c:312-314 | with at most eight entries under way, equal indices mean an empty ring |
| Virtio.RoomInRing | kernel/virtio_disk.c:272-277 | distinct heads never overrun a ring |
| Virtio.OfferedOk | kernel/virtio_disk.c:215-292 | a submitted request keeps: every descriptor is free or in exactly one chain of three |
| Virtio.CompletedOk | kernel/virtio_disk.c:294-327 | a completion in any order keeps the rings and chains consistent |
| Virtio.SeenOk | kernel/virtio_disk.c:312-324 | the entry the handler reads belongs to a finished request of the buffer recorded with it |
| Virtio.Driver.constructor | kernel/virtio_disk.c:120-146 | all descriptors free and both rings empty |
| Virtio.Driver.AllocDesc | kernel/virtio_disk.c:156-166 | a free descriptor, or -1 if and only if there is none |
| Virtio.Driver.FreeDesc | kernel/virtio_disk.c:169-182 | its two panics cannot happen |
| Virtio.Driver.Alloc3 | kernel/virtio_disk.c:201-213 | three distinct free descriptors, or all put back exactly when fewer than three are free |
| Virtio.Driver.UndoAlloc | kernel/virtio_disk.c:204-210 | the failure path frees exactly what was taken |
| Virtio.Driver.Submit | kernel/virtio_disk.c:235-281 | the chain is formed and offered, the request recorded with its direction and sector, and the buffer marked as in flight |
| Virtio.Driver.DeviceFetch | kernel/virtio_disk.c:272-281 | the device takes requests in the order offered |
| Virtio.Driver.DeviceComplete | kernel/virtio_disk.c:309-314 | the device may finish any request it has taken, and doing what header and descriptors say moves just that buffer to its sector or that sector to its buffer |
| Virtio.Driver.Transfer | kernel/virtio_disk.c:235-264 | following the chain, the device finds header, data and status as one request, with the data open to it in the right direction |
| Virtio.Driver.Intr | kernel/virtio_disk.c:294-327 | clears the flag of exactly the buffers whose own requests have completed |
| Virtio.Driver.IntrOne | kernel/virtio_disk.c:312-324 | one used entry clears exactly one buffer's flag |
| Virtio.Driver.UsedHead | kernel/virtio_disk.c:314-318 | the entry read is the oldest completion not seen, and its status is 0 |
| Virtio.Driver.Finish | kernel/virtio_disk.c:283-291 | exactly the descriptors of the finished chain become free |
| Virtio.Driver.FreeChain | kernel/virtio_disk.c:185-197 | follows the links through all three descriptors and frees each once |
| Virtio.Driver.Rw | kernel/virtio_disk.c:215-292 | with an idle device: done exactly if three descriptors are free, which are free again afterwards; the sector holds the buffer or the buffer the sector, and nothing else changes |
| Virtio.Driver.ReadBack | kernel/virtio_disk.c:215-292 | a block written and read into another buffer is the same |
| Pipe.CountSlot | kernel/pipe.c:76-130 | the wrapped 32-bit counters address the right slot |
| Pipe.FullEmpty | kernel/pipe.c:88-121 | the full and empty tests are right across the wrap |
| Pipe.HoldsPut | kernel/pipe.c:95-96 | a byte put in overwrites none still to be read |
| Pipe.Pipe.constructor | kernel/pipe.c:22-56 | an empty pipe with both ends open |
| Pipe.Pipe.Put | kernel/pipe.c:95-96 | the byte is enqueued last |
| Pipe.Pipe.Get | kernel/pipe.c:121-123 | the byte is the oldest not yet dequeued |
| Pipe.Pipe.PutAll | kernel/pipe.c:84-99 | pipewrite's loop enqueues the source in order up to the kill, the fault, the end or a full pipe, whichever comes first, and says which |
| Pipe.Pipe.GetAll | kernel/pipe.c:120-127 | piperead's loop dequeues in order up to the count, the fault or an empty pipe; exactly a fault at a byte it would have returned loses one |
| Pipe.Pipe.Write | kernel/pipe.c:76-103 | the bytes enqueued are a prefix of the source, in order; it sleeps only on a full pipe, having woken readers; it fails if and only if no reader is left or the kill comes before the pipe is full, the fault or the end; then, and only if bytes were written by it, a sleeping reader stays asleep beside data |
| Pipe.Pipe.Read | kernel/pipe.c:105-130 | the bytes returned are the next ones enqueued; it sleeps exactly on an empty pipe still open for writing, and fails exactly when killed there; a byte is lost if and only if the fault is at a byte it would have returned |
| Pipe.Pipe.Dup | kernel/file.c:47-56 | one more reference to one end |
| Pipe.Pipe.Close | kernel/pipe.c:58-74 | the last reference closes an end and wakes the other; the page is freed exactly once, when both are closed |
| Pipe.Pipe.Interrupt | kernel/proc.c:738-758 | a killed thread no longer sleeps on the pipe; everybody else does |
| Pipe.KilledWriter | kernel/pipe.c:84-87 | a run in which a killed writer leaves a reader asleep beside a byte |
| Pipe.LostByte | kernel/pipe.c:120-126 | a run in which a faulting reader loses a byte |
| Pipe.KilledSleeper | kernel/pipe.c:84-87 | a writer killed while it sleeps returns -1, having written nothing more |
| HeapTiling.TiledDisjoint | user/umalloc.c:24-90 | blocks do not overlap |
| HeapTiling.TiledCovers | user/umalloc.c:24-90 | the units obtained from sbrk are exactly those of the blocks |
| Heap.FreedOrdered | user/umalloc.c:24-44 | free keeps the list ordered and the blocks a tiling of the memory obtained |
| Heap.FreedGaps | user/umalloc.c:33-42 | free leaves no two free blocks touching |
| Heap.FreedMem | user/umalloc.c:24-44 | the pointer surgery realizes linking in and joining, for all four cases of neighbours |
| Heap.UnlinkOk | user/umalloc.c:76-77 | a block taken whole keeps order, tiling and coalescing |
| Heap.CarveOk | user/umalloc.c:78-82 | a block cut at its tail keeps order, tiling and coalescing |
| Heap.GrowOk | user/umalloc.c:46-61 | memory from sbrk becomes a block of its own |
| Heap.DataIsNotHeader | user/umalloc.c:24-90 | what a program writes into a block it was given is no header |
| HeapCanonical.CoalescedUnique | user/umalloc.c:24-44 | a coalesced list is determined by the units it covers |
| HeapCanonical.CoversExactly | user/umalloc.c:24-90 | the list covers exactly the units obtained and not handed out |
| HeapCanonical.NoFragmentation | user/umalloc.c:24-90 | whatever happened before, the free list depends only on what is handed out now; free undoes malloc and the order of frees does not matter |
| Umalloc.NUnitsExact | user/umalloc.c:69 | the unit count is the least that holds header and data |
| Umalloc.SbrkExact | user/umalloc.c:46-61 | the byte count reaches sbrk intact if and only if fewer than 2^27 units are asked for |
| Umalloc.SbrkWraps | user/umalloc.c:46-61 | the request of 0xFFFFFFFF bytes asks sbrk for 16 |
| Umalloc.BacksExact | user/umalloc.c:46-61 | after a granted call of sbrk the headers claim just the memory obtained if and only if fewer than 2^27 units were asked for; otherwise the last unit claimed is not there |
| Umalloc.FirstTooLarge | user/umalloc.c:69 | these are the requests of more than 0x7FFFFFE0 bytes |
| Umalloc.Allocator.constructor | user/umalloc.c:21-22 | the allocator before its first call |
| Umalloc.Allocator.FindPlace | user/umalloc.c:29-32 | the walk ends, at the one place in address order where the block belongs |
| Umalloc.Allocator.Start | user/umalloc.c:70-73 | the first call makes the list of the empty base block; later calls change nothing |
| Umalloc.Allocator.LinkIn | user/umalloc.c:33-42 | the four pointer updates in the order of the code |
| Umalloc.Allocator.Free | user/umalloc.c:24-44 | exactly that block is no longer handed out, and the invariant with full coalescing holds |
| Umalloc.Allocator.Morecore | user/umalloc.c:46-61 | at least 4096 units join the list, for every request; null exactly when sbrk refuses |
| Umalloc.Allocator.TakeWhole | user/umalloc.c:75-84 | the block leaves the list |
| Umalloc.Allocator.TakeTail | user/umalloc.c:78-84 | its tail becomes a new block handed out |
| Umalloc.Allocator.Refill | user/umalloc.c:86-88 | sbrk is asked only after the whole list was seen too small, and its block is then met next |
| Umalloc.Allocator.Search | user/umalloc.c:74-89 | the loop ends; outcome as for malloc |
| Umalloc.Allocator.Malloc | user/umalloc.c:63-90 | asks sbrk, once, exactly when no free block is large enough; fails exactly when sbrk then refuses; otherwise one new block of the needed size is handed out, disjoint from all others; the headers then claim just the memory obtained, except exactly for granted requests of 2^27 units or more |
| Umalloc.Overclaims | user/umalloc.c:63-90 | a first request of 2^32 - 1 bytes, granted, hands out memory that is not there |
| ShellGrammar.RoundTrip | user/sh.c:328-447 | every command with at most nine arguments each is read back from its printed form |
| ShellGrammar.Normalizes | user/sh.c:328-447 | parsing, printing and parsing again changes nothing |
| ShellGrammar.ParsedLegal | user/sh.c:416-447 | whatever the parser builds has at most nine arguments a command |
| ShellGrammar.LineRead | user/sh.c:345-360 | a printed line followed by anything that may follow is read back with that rest |
| ShellSyntax.ParsesExactly | user/sh.c:328-447 | on all sequences of tokens: the parser accepts just the lines of the grammar and builds the command each stands for |
| ShellSyntax.MixedRead | user/sh.c:375-447 | in a simple command redirections are applied in order wherever they stand and the other words are the arguments; exactly a tenth argument fails |
| ShellSyntax.LineReads | user/sh.c:345-360 | every tree of the grammar is read, whatever may follow it |
| ShellSyntax.LineTree | user/sh.c:345-360 | whatever is read has a tree |
| ShellLex.LexText | user/sh.c:266-309 | tokens printed as text are read back |
| ShellText.LexExact | user/sh.c:266-309 | on all texts without NUL: the tokens are those of its spelling, blanks optional, words as long as they can be, ">>" one token |
| ShellText.LineExact | user/sh.c:266-447 | a line is taken for a command if and only if it spells a sentence of the grammar that means it |
| ShellLex.TextRoundTrip | user/sh.c:266-447 | printing a command as text and parsing the text gives the command |
| Shell.Parser.Gettoken | user/sh.c:266-309 | delivers the first token of the rest of the line and the place of a word |
| Shell.Parser.Peek | user/sh.c:311-321 | tells whether the next token begins with one of the symbols, consuming only blanks |
| Shell.Parser.Scan | user/sh.c:276-300 | from a place that is no blank: the first token of the text there, its kind and its end |
| Shell.Parser.ParseRedirs | user/sh.c:375-398 | wraps the command in exactly the redirections that follow |
| Shell.Parser.ParseArgs | user/sh.c:432-446 | the loop of parseexec yields the grammar's arguments and redirections |
| Shell.Parser.ParseExec | user/sh.c:416-447 | accepts and builds what the grammar does |
| Shell.Parser.ParseBlock | user/sh.c:400-414 | the same for a block in parentheses |
| Shell.Parser.ParsePipe | user/sh.c:362-373 | the same for pipelines |
| Shell.Parser.ParseLine | user/sh.c:345-360 | the same for lines |
| Shell.Parser.Nulterminate | user/sh.c:450-494 | a NUL at the end of every word of the tree and nowhere else |
| Shell.Parser.ParseCmd | user/sh.c:328-343 | succeeds exactly when the grammar accepts the whole line, with its command, on every input; afterwards every word read as a C string is exactly that word |
| Shell.EndOutside | user/sh.c:450-494 | no word's end falls inside another word |
| Shell.SpanReads | user/sh.c:450-494 | after the NULs are written every word reads as it was |
| Grep.AtCons | user/grep.c:84-96 | matching a pattern is matching its first atom and then the rest |
| Grep.StarStep | user/grep.c:98-106 | a starred character matches nothing or one character more |
| Grep.MatchHere | user/grep.c:84-96 | true if and only if the text at that place begins with a string of the pattern's language |
| Grep.MatchStar | user/grep.c:98-106 | the same for a starred character followed by a pattern |
| Grep.Match | user/grep.c:72-82 | true if and only if some substring, at the start for "^", is in the language of the pattern |

## Left out

- Pipe.Pipe.Write: the promise that no reader sleeps beside data excepts bytes left by writers killed in the middle of a write, because the code does not wake anyone then; the contract says exactly when.
- Mkfs.Mkfs.Build: takes names already stripped of directory and underscore, at most DIRSIZ characters, which mkfs asserts, and at most 206 files, beyond which their inodes lie in the map block (`Mkfs.InodesExact`) and the map, written last, overwrites them.
- Vm.Memory.Uvmdealloc: takes old sizes up to the trapframe's page; callers pass a process size, and `PageSpace.SpaceBound` shows that those lie below it.
- SysFile.FileTree.Make: a directory under construction is not shown between its two first entries, when its inode is locked and no one else can see it.
- SysFile.FileTree.Iget: the table of in-memory inodes is not bounded; the code panics when all of its fifty are in use.
- SysFile.FileTree.Link: counts without bound, which is the code's count for as long as `LinkLimit.InShort` holds; that a failing link shows others a count one too high in between is not modelled.
- LogBuffers.BesideLog: that the buffers pinned are those of the blocks in the log is its premise; `LogBuffers.LogNext` shows that logging keeps it, and the unpinning after an install is not modelled.
- ProcSafety.ReapedOnce: pids are unbounded; the code's counter is an int.
- Path lookup (namex, skipelem), the search of the table of in-memory inodes and the failure paths of sys_open, sys_pipe, fdalloc and pipealloc: calls are given inodes already found, with their references.
- Faults of user memory in the middle of a writei or readi.
- copyinstr, uvmclear, uvmfirst, kvmmake and exec: they use the operations modelled here in the same way.
- Addresses that the code requires to be page aligned are page numbers, and the allocator's addresses are in units of its 16-byte header.
- In the driver, lengths of descriptors, memory barriers, and requests the device rejects.
- update_time and its run time metric, and choose_next_process, which nothing calls.
- Round robin's order among processes, and that yield does nothing under FCFS; any runnable process may be dispatched and any running one may yield, which covers both.
- The status that exit leaves for wait, and what fork copies besides memory: registers, open files, directory and name.
- Spinlocks and sleep locks: mutual exclusion is assumed, and a critical section is one step or a few.
- Boot, traps, context switch, console, UART, printing, the remaining system calls and user programs.
