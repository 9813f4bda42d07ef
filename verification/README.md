# Verified models of NuttX state machines

This project models ten stateful parts of NuttX and its shell in Dafny, and proves what they
promise over every input, every run and every reachable state. `dafny verify dfyconfig.toml`
checks all of it.

| file | part | main results |
|---|---|---|
| `Common.dfy`, `Strings.dfy`, `Spaces.dfy`, `FileSystem.dfy`, `FsRuns.dfy`, `FsSessions.dfy` | the inode tree of the pseudo-filesystem | the pointer tree is a sorted image of a map from paths to nodes; search, reservation, removal and deferred deletion act on it as that map; counts equal holders and each node is freed once, over whole runs |
| `Files.dfy`, `FileRuns.dfy` | the descriptor table | every reference is held by a slot, by a call in progress or by someone else: on every exit of a call that has the table to itself, and, with threads that share it, up to the first region that does not find what it relies on and no further |
| `DirStreams.dfy` | streams on the root directory | reads list the peers in order, seek is rewind and reads, close leaves no reference, exactly when the first node is no mountpoint |
| `NshScript.dfy`, `NshTokens.dfy`, `NshTexts.dfy` | the shell's if/then/else/fi machine and its line parser | the machine refines a recursive interpreter; the parser undoes a printer; a nested program written down as text and read back runs as the interpreter says |
| `RwBuffer.dfy` | the block read/write buffer | it is a plain block array for all data if and only if read-ahead stays clear of pending writes |
| `Rings.dfy`, `Can.dfy` | the CAN transmit and receive FIFOs | accepted = completed + in flight + waiting under re-entrant completion, exactly as long as no writer sleeps while another moves the tail; reads take the longest run that fits |
| `RamLog.dfy`, `RamLogWriters.dfy` | the RAM log | read so far + held = stored, up to an exact condition on a reader's two stores; each call stores a prefix of its expansion; line ends stay whole exactly when no one gets between |
| `Pwm.dfy` | the PWM start/wait/expire protocol | STOP never meets a waiter; a blocking START returns after the end of its train; no wake-up is lost |
| `Dd.dfy` | the transfer loop of dd | the output is the asked-for sectors of the padded input, for all splits of reads and writes |
| `Symtab.dfy` | symbol lookup | binary search agrees with linear search |

How things are modelled. Objects whose fields the source updates are classes, and their methods
are tied to pure functions or ghost histories. The heap of inodes is described by a ghost value,
`View`, that mirrors the fields of every node not yet freed. Regions under a semaphore or with
interrupts disabled are atomic. The outside world (the hardware, drivers, commands, the results of
system calls, allocation, other threads while one sleeps) is a free choice at each point where the
source consults it, or a parameter. Blocking calls carry a bound on the number of waits, after
which the wait fails; the results hold for every bound.

What the proofs show about the source:

- Removing a node frees everything below it without a look at the counts there
  (`nuttx/fs/fs_inode.c:306-314`). References stay safe if and only if nothing below the node is
  held; `FileSystemSessions.HeldBelow` shows the failure.
- `open` sets its descriptor up, lets the driver open it with no lock held, and undoes the descriptor by
  number when the driver fails (`nuttx/fs/fs_open.c:141-189`). If another thread of the table has closed
  that number meanwhile, the inode is released twice. `FileRuns.UndoIsGood` gives the exact condition,
  `FileRuns.CloseInOpen` a run from the empty tree, `FileRuns.FreedWhileOpen` what it leads to.
- `file_dup` reads its slot up to four times without a lock (`nuttx/fs/fs_filedup.c:92-115`), and `dup2`
  tests its descriptors before it takes one (`nuttx/fs/fs_files.c:274-294`). `FileRuns.DupTakeIsGood`,
  `FileRuns.DupAllocIsGood` and `FileRuns.DupGiveIsGood` give the conditions under which each read does
  no harm, `FileRuns.OnlyFaults` the steps that may use an inode that is gone.
- `dup2` returns 0 and not the new descriptor on success, and a target whose close, or whose new
  open, fails stays closed (`nuttx/fs/fs_filedup2.c:78-118`, `nuttx/fs/fs_files.c:267-365`).
- A `seekdir` with a negative offset goes to the end of the stream. `seekdir` and `rewinddir` look only
  at the kind of the first node, while `readdir` and `closedir` also look at the flag that `opendir` set
  (`nuttx/fs/fs_seekdir.c:218`, `nuttx/fs/fs_rewinddir.c:125`). The results about streams hold exactly
  when the first node is no mountpoint; `DirStreams.MountedStays` and `DirStreams.MountedLeaks` show what
  goes wrong in every other tree.
- `readdir` copies at most NAME_MAX + 1 characters of a name and then leaves no terminator.
- `rwb_read` flushes only for the blocks requested, but a reload fetches up to `rhmaxblocks`
  (`nuttx/drivers/rwbuffer.c:520`, `nuttx/drivers/rwbuffer.c:348`); `RwBuffers.StaleRead` shows a
  stale read. `Config.KeptApart`, on block numbers only, is the condition that rules it out:
  `RwBuffers.Session` shows that it is enough, `RwBuffers.Diverge` that it is needed.
- `rwbuffer.c` is modelled by its intended steps. Its text slips in four places: `startblock` is
  shadowed by an uninitialised local (line 538), `rwb_bufferread` gets the advanced block number
  (line 564), `wrsem` is taken twice (lines 519-523 and 162), and the arguments of the flush method
  come in two orders (lines 173 and 633). With `rhmaxblocks` zero the read loop would not end, so a
  positive size is required when read-ahead is on.
- `can_write` works out the next tail before it sleeps and stores it after (`nuttx/drivers/can.c:473-541`).
  If another writer has moved the tail meanwhile, the message is lost or entries out of use are sent;
  `Can.TxFifo.Store` and `Can.TxFifo.Turn` give the exact condition, `Can.LostMessage` a run.
- A nonblocking `can_write` that fills the FIFO returns without starting idle hardware
  (`nuttx/drivers/can.c:485-496`), so what it accepted waits for someone else's start.
- RAM-log writers may interrupt one another (`nuttx/drivers/ramlog.c:428-435`). A line feed then loses its
  carriage return exactly when something was stored between the two; `RamLogWriters.LinesOfRuns` proves
  it for all interleavings, `RamLogWriters.SplitLineEnd` shows it.
- A RAM-log reader moves the tail by two stores with interrupts enabled (`nuttx/drivers/ramlog.c:377-380`).
  A writer that comes between them while the tail is past the end of the ring is never refused;
  `RamLogs.RamLog.TakeChar` gives the exact condition, `RamLogs.LostInBetween` a run.
- `dd` numbers sectors with 32 bits: with skip + count above 2^32 and a longer input it skips again
  after the wrap. It also refuses a skip larger than the count, though the two are independent.
- `symtab_findorderedbyname` reads the first entry of an empty table, so a non-empty one is
  required.

## Model

| member | source | states |
|---|---|---|
| `Strings.LtIsStrictTotalOrder` | nuttx/fs/fs_inode.c:75-136 | the order of names is irreflexive, transitive and total |
| `PathNames.Segment` | nuttx/fs/fs_inodereserve.c:70-84 | the first segment is a prefix of the name and holds no separator |
| `PathNames.NextName` | nuttx/fs/fs_inode.c:325-330 | the next name is strictly shorter, and empty for an empty name |
| `PathNames.SegmentSplit` | nuttx/fs/fs_inode.c:325-330 | a name is its first segment followed by nothing, or by a separator and the next name |
| `PathNames.CompareOrdersSegments` | nuttx/fs/fs_inode.c:75-136 | the three-way scan is zero, negative or positive exactly when the first segment equals, precedes or follows the node name |
| `Spaces.ResolveMeaning` | nuttx/fs/fs_inode.c:208-300 | resolution stops at the shortest prefix that is a mountpoint or the whole path, or at the shortest prefix that does not exist, and what is left over is exactly what follows the consumed segments |
| `Spaces.ResolveWhole` | nuttx/fs/fs_inode.c:208-300 | a path whose prefixes all exist and are no mountpoints resolves to its own node |
| `Spaces.MissingNamesTheSame` | nuttx/fs/fs_inode.c:208-300 | the missing rest below the directory reached names the same place as the whole path |
| `Spaces.ScanMisses` | nuttx/fs/fs_inode.c:219-236 | leaving a sorted list at a greater name, or at its end, loses nothing, and the node passed last is the true left neighbour |
| `Spaces.Search` | nuttx/fs/fs_inode.c:208-300 | on every sorted tree the search returns the node, left neighbour, parent, remaining name and relpath that resolution on the abstract namespace gives |
| `Spaces.InsertLinked` | nuttx/fs/fs_inodereserve.c:106-137 | linking a node in after its left neighbour, or first, gives exactly the tree of the space with that node added |
| `FileSystems.FileSystem.Insert` | nuttx/fs/fs_inodereserve.c:106-137 | the pointer writes put the node to the right of its peer, first below its parent, or at the root |
| `FileSystems.FileSystem.Add` | nuttx/fs/fs_inodereserve.c:91-137 | a node is allocated with the first segment as its name and linked in; without memory nothing changes |
| `FileSystems.InsertConsistent` | nuttx/fs/fs_inodereserve.c:106-137 | insertion keeps the tree, every detached subtree and all counts in order |
| `FileSystems.FileSystem.Turn` | nuttx/fs/fs_inodereserve.c:194-235 | one turn of the loop creates the next missing prefix and is ready for the one after it |
| `FileSystems.FileSystem.Grow` | nuttx/fs/fs_inodereserve.c:194-235 | the loop creates the missing prefixes in order, as many as there is memory for, and the tree is in order |
| `FileSystems.FileSystem.Reserve` | nuttx/fs/fs_inodereserve.c:165-236 | EINVAL and EEXIST with no change; otherwise exactly as many of the missing prefixes exist as there was memory for, and with all of them the path resolves to the new leaf, else ENOMEM |
| `FileSystems.OtherLookupsUnchanged` | nuttx/fs/fs_inodereserve.c:165-236 | every lookup but those of the added paths gives the same result as before |
| `FileSystems.ReservedResolves` | nuttx/fs/fs_inodereserve.c:165-236 | once its missing prefixes exist, a path resolves in full to the last of them |
| `FileSystems.FileSystem.AddRef` | nuttx/fs/fs_inodeaddref.c:75-83 | one more reference on a node, safe for a node of the tree or a node already held |
| `FileSystems.FileSystem.Find` | nuttx/fs/fs_inodefind.c:76-97 | the node that the path resolves to, with exactly one reference taken, or no change at all |
| `FileSystems.Taken` | nuttx/fs/fs_inodefind.c:76-97 | taking a reference keeps the view consistent, and safe for a node of the tree or one already held |
| `FileSystems.FileSystem.Release` | nuttx/fs/fs_inoderelease.c:78-106 | one reference is given back; the last one to a removed node frees it with all that is below it |
| `FileSystems.Dropped` | nuttx/fs/fs_inoderelease.c:78-106 | giving a reference back keeps the view consistent up to the freeing that is then due, and keeps safety |
| `FileSystems.FileSystem.InodeFree` | nuttx/fs/fs_inode.c:306-314 | the walk frees every node right of and below its start, each once |
| `FileSystems.FileSystem.KFree` | nuttx/fs/fs_inode.c:306-314 | a node is handed to kfree at most once |
| `FileSystems.FileSystem.FreeDetached` | nuttx/fs/fs_inoderelease.c:92-105 | a subtree cut off from the tree is freed exactly, and nothing else |
| `FileSystems.FreeConsistent` | nuttx/fs/fs_inode.c:306-314 | freeing a detached subtree keeps the rest in order |
| `Spaces.CutLinked` | nuttx/fs/fs_inoderemove.c:69-98 | after unlinking, the rest is exactly the tree of the space without that subtree |
| `Spaces.BelowLinked` | nuttx/fs/fs_inoderemove.c:69-98 | the part cut off is still a sorted tree below the removed node |
| `Spaces.RegionSplits` | nuttx/fs/fs_inode.c:306-314 | a walk from a node is the node, what is below it and what is right of it, all disjoint |
| `Spaces.WalkVisitsAll` | nuttx/fs/fs_inode.c:306-314 | a walk from the first child visits every node of a subtree |
| `FileSystems.FileSystem.Unlink` | nuttx/fs/fs_inoderemove.c:69-98 | the pointer writes close the gap that the node leaves |
| `FileSystems.UnlinkConsistent` | nuttx/fs/fs_inoderemove.c:69-98 | unlinking keeps tree, detached subtrees and counts in order but for the mark on the node itself |
| `FileSystems.FileSystem.Remove` | nuttx/fs/fs_inoderemove.c:110-156 | EINVAL, ENOENT, EBUSY and OK in their cases; exactly one subtree leaves the namespace, freed now or kept for its holders; references stay safe if and only if none is below the node |
| `FileSystems.RemoveMeans` | nuttx/fs/fs_inoderemove.c:110-156 | removal cuts one subtree out of the namespace and detaches it if the node is held, else frees it |
| `FileSystems.Removed` | nuttx/fs/fs_inoderemove.c:110-156 | removal keeps the view consistent, and safe if and only if nothing below the node is referenced |
| `FileSystemRuns.StepIsGood` | nuttx/fs/fs_inoderemove.c:110-156 | every insertion, reference and removal keeps the tree in order; it keeps references safe if and only if a removal spares the references below the node |
| `FileSystemRuns.RunIsGood` | nuttx/fs/fs_inoderelease.c:78-106 | after any run from the empty tree all counts equal their holders and the lists are sorted; all references are safe while removals spare those below them |
| `FileSystemRuns.FreedAtTheEnd` | nuttx/fs/fs_inoderelease.c:78-106 | a removed node is freed at the later of its removal and its last release, and is held until then |
| `FileSystemRuns.FreedForGood` | nuttx/fs/fs_inode.c:306-314 | a freed node stays freed and never comes back |
| `FileSystemSessions.Perform` | nuttx/fs/fs_inodefind.c:76-97 | every request does exactly the calls it asks for, which lead from the state before to the state after: one insertion for each missing prefix as far as memory goes, one reference on the node that the path resolves to, or one removal of it, and none where the path does not resolve |
| `FileSystemSessions.Session` | nuttx/fs/fs_inoderelease.c:78-106 | from the first reservation on, every wish of a client is fulfilled in turn, and all that is done together is a run of the machine; a client that unlinks only while it holds top-level nodes holds exactly the references that are out, all safe |
| `FileSystemRuns.LiveStep` | nuttx/fs/fs_inoderelease.c:90-100 | a call keeps every referenced node allocated if and only if nothing that it frees, besides the node it is about, is referenced |
| `FileSystemRuns.RunIsLive` | nuttx/fs/fs_inoderelease.c:90-100 | over any run of such calls every referenced node is allocated |
| `FileSystemSessions.HeldBelow` | nuttx/fs/fs_inode.c:306-314 | with /a/b held, removing /a frees b while it is referenced |
| `FileSystemSessions.HeldBelowFromStart` | nuttx/fs/fs_inode.c:306-314 | that state is reached from the empty tree by reserving /a/b, finding it and removing /a |
| `Files.RefsUpdate` | nuttx/fs/fs_files.c:377-400 | replacing a slot trades its reference for that of the new one |
| `Files.FillBalanced` | nuttx/fs/fs_files.c:377-400 | filling a free slot moves a reference from the caller to the slot |
| `Files.CloseBalanced` | nuttx/fs/fs_files.c:109-138 | freeing a slot and releasing its inode give up one and the same reference |
| `Files.ReleaseUndoesTake` | nuttx/fs/fs_open.c:175-189 | a reference taken and given back leaves no trace |
| `Files.LowestFreeIsLowest` | nuttx/fs/fs_files.c:377-400 | the descriptor is the lowest free one at or above minfd |
| `Files.ClosedHoldsNothing` | nuttx/fs/fs_files.c:213-257 | a table with every slot free holds no reference |
| `Files.FileTable.constructor` | nuttx/fs/fs_files.c:163-180 | a new table has every slot free and one user |
| `Files.FileTable.ScanFree` | nuttx/fs/fs_files.c:377-400 | the scan stops at the lowest free slot at or above minfd |
| `Files.FileTable.Allocate` | nuttx/fs/fs_files.c:377-400 | the lowest free slot takes the reference over, or EMFILE with no change |
| `Files.FileTable.CloseSlot` | nuttx/fs/fs_files.c:109-138 | the slot is freed and its reference given back whatever the driver says |
| `Files.FileTable.Forget` | nuttx/fs/fs_files.c:450-465 | the slot is freed and its reference left to the caller |
| `Files.FileTable.Open` | nuttx/fs/fs_open.c:76-189 | when no other thread uses the table meanwhile: the lowest descriptor with one reference on the inode; on every error exit table and counts are as before |
| `Files.FileTable.OpenInode` | nuttx/fs/fs_open.c:127-189 | when no other thread uses the table meanwhile: the reference of the caller ends up in a slot or is given back, in each order of failures |
| `Files.FileTable.Close` | nuttx/fs/fs_files.c:413-439 | EBADF with no change, or the slot and its reference are given up |
| `Files.FileTable.Dup` | nuttx/fs/fs_filedup.c:78-117 | when no other thread uses the table meanwhile: the lowest descriptor at or above minfd shares the inode with one more reference; on error nothing changes |
| `Files.FileTable.Dup2` | nuttx/fs/fs_filedup2.c:78-118 | when no other thread uses the table meanwhile: each exit in order; the target is closed first and stays closed if its close or the new open fails; success yields 0 |
| `Files.FileTable.Clone` | nuttx/fs/fs_files.c:309-359 | the free target slot becomes a copy with its own reference, or the reference taken is given back |
| `Files.FileTable.AddRefList` | nuttx/fs/fs_files.c:187-205 | one more user of the table, which keeps its references |
| `Files.FileTable.ReleaseList` | nuttx/fs/fs_files.c:213-257 | with its last user the table gives back every reference it held |
| `FileRuns.StepKeeps` | nuttx/fs/fs_files.c:267-465 | threads share a table; a step of any of them, from one region without a lock to the next, keeps every reference held by a slot, a call in progress or someone else if and only if it finds what it relies on |
| `FileRuns.UndoIsGood` | nuttx/fs/fs_open.c:175-189 | the error exit of open keeps the balance if and only if the slot still holds the inode that files_allocate put there |
| `FileRuns.DupTakeIsGood` | nuttx/fs/fs_filedup.c:100-102 | file_dup takes a safe reference if and only if the inode that it read from the slot is still referenced or in the tree |
| `FileRuns.DupAllocIsGood` | nuttx/fs/fs_filedup.c:104-109 | file_dup fills the new slot in balance if and only if the old slot, read again, still has the inode referenced; a full table does no harm yet |
| `FileRuns.DupGiveIsGood` | nuttx/fs/fs_filedup.c:110-115 | its error exit keeps the balance if and only if the slot, read once more, still has that inode |
| `FileRuns.LockKept` | nuttx/fs/fs_files.c:290-365 | one thread at most keeps the list semaphore between two regions of dup2, and the slot that it closed stays free until it is filled |
| `FileRuns.RunKeeps` | nuttx/fs/fs_files.c:267-465 | over any run the balance is kept up to the first step that does not find what it relies on, and broken by that step |
| `FileRuns.OnlyFaults` | nuttx/fs/fs_filedup.c:78-117 | while the balance is kept, the only steps that use a freed inode, or none, are those of file_dup and dup2 that read a slot again after it has changed |
| `FileRuns.CalmRunIsGood` | nuttx/fs/fs_files.c:267-465 | over any run in which no thread closes or replaces a descriptor that a call of another works on, the balance is kept and no step uses a freed inode |
| `FileRuns.AloneIsCalm` | nuttx/fs/fs_files.c:267-465 | in particular while one thread at a time is inside a call |
| `FileRuns.Perform` | nuttx/fs/fs_open.c:114-189 | every step of such a run is what the table and the tree do in that region |
| `FileRuns.Play` | nuttx/fs/fs_open.c:114-189 | every such run is one that the table and the tree go through |
| `FileRuns.CloseInOpen` | nuttx/fs/fs_open.c:175-189 | a run from the empty tree: a descriptor is closed by another thread while open waits for the driver, which fails; the inode loses the reference of an earlier descriptor that is still open |
| `FileRuns.FreedWhileOpen` | nuttx/fs/fs_inoderemove.c:110-156 | after that run, removing the file frees the inode under the open descriptor |
| `DirStreams.ListingIsSorted` | nuttx/fs/fs_readdir.c:59-133 | following the peers from the first lists every child of a directory once, in ascending order |
| `DirStreams.ListingFollowsPeers` | nuttx/fs/fs_readdir.c:59-133 | each entry's peer is the next entry |
| `DirStreams.EntriesAreThePeers` | nuttx/fs/fs_readdir.c:59-133 | the entries of the root are all top-level nodes, ascending, none missing |
| `DirStreams.Moved` | nuttx/fs/fs_seekdir.c:91-109 | every move trades the reference on the old position for one on the new, and changes nothing else |
| `DirStreams.SeekIsRewindAndReads` | nuttx/fs/fs_seekdir.c:59-110 | seekdir(k) leads where rewind and k reads lead, for every k |
| `DirStreams.Closed` | nuttx/fs/fs_closedir.c:118-138 | closing gives back both references of the stream |
| `DirStreams.DirStream.constructor` | nuttx/fs/fs_opendir.c:140-156 | opening the root takes two references and stands before the first entry |
| `DirStreams.OpenRoot` | nuttx/fs/fs_opendir.c:188-313 | ENOTDIR exactly for an empty tree, ENOMEM exactly without memory and with no change, or a stream at the first entry |
| `DirStreams.DirStream.Move` | nuttx/fs/fs_seekdir.c:91-109 | the stream goes to another entry and keeps its balance of references |
| `DirStreams.DirName` | nuttx/fs/fs_readdir.c:75-77 | what strncpy leaves of a name: all of it, or its first NAME_MAX + 1 characters |
| `DirStreams.DirStream.Read` | nuttx/fs/fs_readdir.c:59-133 | the name at the position, as far as d_name takes it; the position then moves on by one; nothing at the end |
| `DirStreams.DirStream.RewindPseudo` | nuttx/fs/fs_rewinddir.c:58-83 | back to the first entry |
| `DirStreams.DirStream.Rewind` | nuttx/fs/fs_rewinddir.c:105-145 | the same, unless the first node is a mountpoint: then what its method does, or nothing without one |
| `DirStreams.DirStream.Walk` | nuttx/fs/fs_seekdir.c:71-89 | the walk along the peers stops at the offset or at the end |
| `DirStreams.DirStream.SeekPseudo` | nuttx/fs/fs_seekdir.c:59-110 | forwards or from the start, to the entry with that number or to the end |
| `DirStreams.DirStream.SeekMountpt` | nuttx/fs/fs_seekdir.c:117-172 | what the mountpoint methods leave: no seek backwards without a rewind method, else as many reads as succeed |
| `DirStreams.DirStream.Seek` | nuttx/fs/fs_seekdir.c:202-230 | the first, unless the first node is a mountpoint, then the second |
| `DirStreams.DirStream.GiveBack` | nuttx/fs/fs_closedir.c:118-138 | the references on what fd_next and fd_root name are given back, whatever the state |
| `DirStreams.DirStream.Close` | nuttx/fs/fs_closedir.c:118-138 | for a stream in order, the counts are then those of everyone else |
| `DirStreams.Browse` | nuttx/fs/fs_closedir.c:118-138 | unless the first node is a mountpoint, or all moves are reads: any run of reads, rewinds and seeks between open and close tells the entries where the moves lead and leaves all references as they were |
| `DirStreams.MountedStays` | nuttx/fs/fs_rewinddir.c:105-145 | with any mountpoint as first node that has no rewind method, a stream is still at its second entry after rewinddir |
| `DirStreams.MountedLeaks` | nuttx/fs/fs_rewinddir.c:105-145 | with any mountpoint as first node whose method clears the shared storage, closing leaves a reference behind |
| `DirStreams.MountedFirst` | nuttx/fs/fs_rewinddir.c:105-145 | such a tree is reached by one reservation and one mount |
| `NshScript.MachineRefinesInterpreter` | apps/nshlib/nsh_parse.c:1053-1089 | a nested program of fitting depth, fed line by line, runs the commands of a recursive interpreter with the same status and restores the stack; in a branch not taken it changes nothing |
| `NshScript.IfRefines` | apps/nshlib/nsh_parse.c:811-942 | the same for a conditional with or without else |
| `NshScript.VerdictIsWellStacked` | apps/nshlib/nsh_parse.c:811-942 | the keyword machine keeps the stack in order and within its bound |
| `NshScript.ReachableIsWellStacked` | apps/nshlib/nsh_parse.c:780-942 | in every reachable state level 0 is normal, only the top is between if and then, and a level is disabled exactly when commands are not enabled below it |
| `NshScript.EnabledWhenAllTaken` | apps/nshlib/nsh_parse.c:780-803 | commands are enabled exactly when every level is in its taken branch |
| `NshScript.RunsWhenAllTaken` | apps/nshlib/nsh_parse.c:1053-1089 | a line runs its command exactly when every enclosing branch is the taken one |
| `NshScript.MisplacedResets` | apps/nshlib/nsh_parse.c:928-941 | a misplaced keyword brings back the initial stack with a failed status and runs nothing |
| `NshScript.NshParser.CmdEnabled` | apps/nshlib/nsh_parse.c:780-803 | enabled at the top level of the stack |
| `NshScript.NshParser.DoIfThenElse` | apps/nshlib/nsh_parse.c:811-942 | the stack array after a keyword line, or its reset after an error |
| `NshScript.NshParser.DoSaveResult` | apps/nshlib/nsh_parse.c:949-966 | the result of a condition goes to its level and clears the status; any other sets the status |
| `NshScript.NshParser.Parse` | apps/nshlib/nsh_parse.c:1053-1089 | one line is one step of the machine, and the stack stays in order |
| `NshScript.NshParser.RunScript` | apps/nshlib/nsh_parse.c:1053-1089 | a whole script is a run of the machine |
| `NshTokens.ArgumentAdvances` | apps/nshlib/nsh_parse.c:638-773 | every word uses up part of the line, and once there is none there never is another |
| `NshTokens.NshArgument` | apps/nshlib/nsh_parse.c:638-773 | the scan over line and position yields the next word and the position after it |
| `NshTokens.FindEnd` | apps/nshlib/nsh_parse.c:712-727 | the token ends at the first delimiter, or closing quote, after its first character |
| `NshTokens.FillArgv` | apps/nshlib/nsh_parse.c:1104-1114 | argv[] holds the words of the line, expanded, as far as there is room |
| `NshTokens.ReadArgv` | apps/nshlib/nsh_parse.c:1116-1150 | background and redirection are read off the end of argv[] |
| `NshTokens.ParseArguments` | apps/nshlib/nsh_parse.c:1104-1150 | a line becomes its words, redirection and background flag |
| `NshTokens.PieceIsOneWord` | apps/nshlib/nsh_parse.c:638-773 | the tokenizer takes exactly one printed piece off the front of a line |
| `NshTokens.WordsOfJoin` | apps/nshlib/nsh_parse.c:638-773 | the words of a printed line are the words that were printed |
| `NshTokens.DecodeUndoesEncode` | apps/nshlib/nsh_parse.c:1116-1150 | reading argv[] gives a command back if and only if no word stands where an operator would |
| `NshTokens.ParseUndoesPrint` | apps/nshlib/nsh_parse.c:1104-1150 | parsing a printed command recovers words, redirection and background flag if and only if it is unambiguous |
| `NshTexts.WritableIfLegible` | apps/nshlib/nsh_parse.c:638-773 | there is a text that reads as a given line if and only if each of its words is legible: not empty, with no quote after the first character of a word that needs quotes, and with no delimiter in the name of a variable |
| `NshTexts.WordsOfShow` | apps/nshlib/nsh_parse.c:638-773 | a legible line, written down, reads back as it was, variables included |
| `NshTexts.FirstWordsDecide` | apps/nshlib/nsh_parse.c:1097-1114 | the first eleven words decide what a line does, whether an if stands before the command or not |
| `NshTexts.ParseLine` | apps/nshlib/nsh_parse.c:1031-1114 | the parser on the text of one line: tokens, keywords, and the command cut off where argv[] ends |
| `NshTexts.RunLines` | apps/nshlib/nsh_parse.c:1031-1114 | the same for a script given as texts |
| `NshTexts.TextIsStep` | apps/nshlib/nsh_parse.c:1031-1114 | on a line whose first word cannot turn into a keyword the parser is the line machine on the words that fit |
| `NshTexts.TextsRunProgram` | apps/nshlib/nsh_parse.c:1031-1114 | texts that read as the lines of a nested program run as the interpreter says of the program with its commands cut off where argv[] ends |
| `NshTexts.WrittenProgramRuns` | apps/nshlib/nsh_parse.c:1031-1114 | any nested program of legible words, flattened, written down and read back by the shell, runs as the interpreter says |
| `NshTexts.ClipKeepsShort` | apps/nshlib/nsh_parse.c:1104-1114 | nothing is cut off if and only if every command has at most ten words |
| `RwBuffers.OverlapIsSafe` | nuttx/drivers/rwbuffer.c:117-134 | two runs that do not test as overlapping have no block in common |
| `RwBuffers.AppendOverlay` | nuttx/drivers/rwbuffer.c:274-283 | writing on where the pending run ends is one longer run |
| `RwBuffers.RwBuffer.constructor` | nuttx/drivers/rwbuffer.c:390-470 | both buffers are empty and the contents are the media |
| `RwBuffers.RwBuffer.WrFlush` | nuttx/drivers/rwbuffer.c:156-183 | the pending run goes to the media and the contents stay the same |
| `RwBuffers.RwBuffer.WriteBuffer` | nuttx/drivers/rwbuffer.c:233-286 | the contents are overlaid with the data, whether the run is extended, flushed or new |
| `RwBuffers.RwBuffer.Write` | nuttx/drivers/rwbuffer.c:598-654 | the same for every write, and a read-ahead run that was right stays right or is dropped |
| `RwBuffers.RwBuffer.RhReload` | nuttx/drivers/rwbuffer.c:342-380 | the read-ahead run is what the media holds from a block on, clipped at the end of the device |
| `RwBuffers.RwBuffer.CountBuffered` | nuttx/drivers/rwbuffer.c:548-560 | how many of the next blocks are in the read-ahead run |
| `RwBuffers.RwBuffer.BufferRead` | nuttx/drivers/rwbuffer.c:309-334 | exactly those blocks are copied |
| `RwBuffers.RwBuffer.ReadTurn` | nuttx/drivers/rwbuffer.c:531-582 | one turn copies what the run has and reloads from the first block that it lacks; what is still to be seen does not change |
| `RwBuffers.RwBuffer.ReadLoop` | nuttx/drivers/rwbuffer.c:531-587 | the loop ends with exactly the blocks of the run and the media, across any number of reloads; the last one starts where computed |
| `RwBuffers.RwBuffer.FlushForRead` | nuttx/drivers/rwbuffer.c:505-526 | afterwards the media shows the contents on the requested blocks |
| `RwBuffers.RwBuffer.SeenMeans` | nuttx/drivers/rwbuffer.c:531-587 | a read sees the contents if and only if the blocks that it takes from the read-ahead run do |
| `RwBuffers.RwBuffer.LoadedCoherent` | nuttx/drivers/rwbuffer.c:342-380 | a fresh read-ahead run is right if and only if the media shows the contents there |
| `RwBuffers.RwBuffer.ApartIsClean` | nuttx/drivers/rwbuffer.c:505-526 | away from the pending run the media shows the contents |
| `RwBuffers.RwBuffer.Read` | nuttx/drivers/rwbuffer.c:498-591 | the result is the contents if and only if the read-ahead run was right where it was used; the run left is right if and only if it was kept right or was fetched from a clean range |
| `RwBuffers.Session` | nuttx/drivers/rwbuffer.c:498-654 | any run of writes, reads and timeout flushes whose reloads stay clear of the pending blocks is a run of a plain block array |
| `RwBuffers.ReadAcross` | nuttx/drivers/rwbuffer.c:498-591 | from any coherent state, a read whose window meets the pending blocks leaves a block that is pending and read ahead; if its data are new, the next read of it returns the old ones |
| `RwBuffers.Diverge` | nuttx/drivers/rwbuffer.c:498-654 | conversely, for any calls that do not stay clear there are data for which they, up to the first that does not, and one more read are no run of a plain block array |
| `RwBuffers.OneBufferKeepsApart` | nuttx/drivers/rwbuffer.c:498-654 | with the write buffer alone or read-ahead alone nothing has to be kept clear |
| `RwBuffers.StaleRead` | nuttx/drivers/rwbuffer.c:520-524 | with both, a read can return a block that was overwritten before |
| `Rings.Append` | nuttx/drivers/can.c:533-545 | storing at the end of a ring appends, and leaves shorter runs alone |
| `Rings.StoreAt` | nuttx/drivers/can.c:534-541 | storing at one end index and setting the end to another index adds one entry exactly when it is the next one; else the run is cut short, or goes on behind the new entry |
| `Rings.Remove` | nuttx/drivers/can.c:823-828 | moving the start of a ring on removes the first entry |
| `Rings.FullMeans` | nuttx/drivers/can.c:723-727 | the next end index meets the start exactly when all entries but one are used |
| `Can.TxFifo.InOrder` | nuttx/drivers/can.c:390-400 | completed messages, then those in flight, then those waiting are what was accepted; the hardware has seen the first two |
| `Can.TxFifo.Xmit` | nuttx/drivers/can.c:372-431 | messages go to the hardware in order, each once, whatever completions come in between; the assertions hold; EIO for an empty FIFO, EBUSY if nothing went out |
| `Can.TxFifo.DevSend` | nuttx/drivers/can.c:406-424 | handing over a message, with any number of completions reported from inside |
| `Can.TxFifo.TxDone` | nuttx/drivers/can.c:809-843 | the first message in flight is completed and sending goes on, with the result and interrupt state that this gives; a waiter is posted when something was sent; a stray report on an empty FIFO changes nothing |
| `Can.TxFifo.SendOne` | nuttx/drivers/can.c:411-424 | one message goes to the hardware, whatever completions it reports meanwhile |
| `Can.TxFifo.Store` | nuttx/drivers/can.c:534-541 | the ring shows what was accepted, and the order is kept, if and only if the tail is where it was when the writer worked out the next one; else the message is lost, or entries out of use follow it |
| `Can.TxFifo.Wait` | nuttx/drivers/can.c:510-523 | a wait, with completions and other writers meanwhile, that succeeds, is interrupted or fails |
| `Can.TxFifo.AwaitSpace` | nuttx/drivers/can.c:481-528 | after the loop the next tail, as worked out before it, is not the head, or the wait failed; without a wait nothing changes |
| `Can.TxFifo.Turn` | nuttx/drivers/can.c:473-545 | one turn: its store is the last one made, with the next tail as worked out before the wait; where all earlier stores found the tail that they had looked at, the order is kept if and only if this one does; a writer that is alone adds exactly its message |
| `Can.TxFifo.Write` | nuttx/drivers/can.c:437-563 | in the history of all stores, those of the call are its messages in order; the order is kept if and only if it was before, every store of another writer found the tail that it had looked at, and no store of the call found the tail moved; a writer that is alone keeps it and adds its messages in one piece; a nonblocking call adds as many as there is room for, and without having started the hardware if that is not all |
| `Can.TxFifo.AddAll` | nuttx/drivers/can.c:473-545 | the loop: one store for each message until one finds no room or a wait fails, with the number of bytes that they take |
| `Can.KeptMeans` | nuttx/drivers/can.c:473-545 | in any history of stores the order is kept exactly when each found the tail that its writer had looked at |
| `Can.AddAndAdd` | nuttx/drivers/can.c:473-541 | two writers with the same next tail: the message of the second is accepted, but neither completed nor in the ring |
| `Can.LostMessage` | nuttx/drivers/can.c:473-541 | such a loss, from an empty FIFO of three on |
| `Can.StopsAtLongest` | nuttx/drivers/can.c:322-353 | stopping at the first message that does not fit gives the longest run that fits |
| `Can.RxFifo.Receive` | nuttx/drivers/can.c:769-789 | a message is refused exactly when all entries but one are held, else it is last in line |
| `Can.RxFifo.Drain` | nuttx/drivers/can.c:322-353 | the longest run of whole messages that fits is returned and removed, in arrival order |
| `Can.RxFifo.Read` | nuttx/drivers/can.c:279-358 | the same once there are messages; nothing for a buffer smaller than a header; EAGAIN exactly for an empty FIFO |
| `RamLogs.ExpandPrefix` | nuttx/drivers/ramlog.c:437-480 | the expansion of a prefix is a prefix of the expansion |
| `RamLogs.RamLog.AddChar` | nuttx/drivers/ramlog.c:203-236 | the character is stored last unless all entries but one are used; with a reader between its two stores and the tail past the end nothing is refused, and the order is kept if and only if there was room |
| `RamLogs.RamLog.TakeFirst` | nuttx/drivers/ramlog.c:373-377 | the oldest character is taken and the 16-bit tail moved on, possibly past the end |
| `RamLogs.RamLog.TakeReset` | nuttx/drivers/ramlog.c:377-380 | a tail past the end goes back to the start |
| `RamLogs.RamLog.TakeChar` | nuttx/drivers/ramlog.c:373-380 | with writers between the two stores, the order is kept if and only if the tail is not then past the end or no more was added than there was room for |
| `RamLogs.RamLog.Write` | nuttx/drivers/ramlog.c:437-480 | among the characters of other writers, the call stores a prefix of its expanded input in order, all of it unless the ring fills; alone, in one piece, with every line feed directly behind a carriage return; the order of the ring is kept when no reader stands between its two stores |
| `RamLogs.RamLog.Read` | nuttx/drivers/ramlog.c:271-387 | as many characters as asked for or until the ring is empty; while the order is kept they are consecutive ones of what was stored; it is kept when no writer comes between the two stores to the tail |
| `RamLogs.LostInBetween` | nuttx/drivers/ramlog.c:373-380 | a run in which two characters stored between those two stores are lost |
| `RamLogWriters.EachStoresItsPrefix` | nuttx/drivers/ramlog.c:437-480 | over any interleaving of calls, each has stored, in order, a prefix of its expanded input |
| `RamLogWriters.ReachableIsPaired` | nuttx/drivers/ramlog.c:437-480 | in every reachable state each line feed comes after its own carriage return, and each carriage return has its line feed or its writer is in between |
| `RamLogWriters.LinesMeans` | nuttx/drivers/ramlog.c:437-480 | while no writer is inside a line end, every line feed directly follows a carriage return if and only if nothing landed between the two of any line end |
| `RamLogWriters.TogetherMeans` | nuttx/drivers/ramlog.c:437-480 | nothing landed between the two if and only if no writer stored a line feed after another had stored something since its carriage return |
| `RamLogWriters.LinesOfRuns` | nuttx/drivers/ramlog.c:437-480 | both together, for every run of interleaved calls |
| `RamLogWriters.TurnOn` | nuttx/drivers/ramlog.c:437-480 | a step of a writer on the ring is a step of such a run |
| `RamLogWriters.Interleave` | nuttx/drivers/ramlog.c:437-480 | any interleaving of calls and of a reader's two stores, played on the ring, ends with the log and the indices that these steps give; the order is kept if and only if it was before and no character was stored into a full ring with the tail past the end |
| `RamLogWriters.PlayedIsRun` | nuttx/drivers/ramlog.c:437-480 | what these steps give is a run of the writers, to which all results on runs apply |
| `RamLogWriters.SplitLineEnd` | nuttx/drivers/ramlog.c:437-480 | two calls, one interrupting the other inside a line end, leave a line feed behind something else |
| `RamLogWriters.SpareReturn` | nuttx/drivers/ramlog.c:437-480 | a writer refused inside a line end leaves a carriage return that the line feed of another may follow, so the condition on writers inside one is needed |
| `Pwm.StepKeepsInv` | nuttx/drivers/pwm.c:301-366 | each step keeps: one holder of the mutex, a waiter holds it and its train runs, a waiter whose train has ended will get a count |
| `Pwm.Reachable` | nuttx/drivers/pwm.c:301-366 | that holds in every reachable state |
| `Pwm.StopFindsNoWaiter` | nuttx/drivers/pwm.c:521-538 | waiting implies started and a starter that holds the mutex, so the waiting branch of STOP is never taken |
| `Pwm.StartWaitsForExpiry` | nuttx/drivers/pwm.c:301-366 | a blocking START that starts a counted train leaves its wait only after a later pwm_expired, despite interrupted waits and left-over counts |
| `Pwm.EndedTrainReleases` | nuttx/drivers/pwm.c:649-673 | no wake-up is lost: after the end of its train a waiter gets a count and returns OK |
| `Pwm.LeftOverCount` | nuttx/drivers/pwm.c:342-351 | a run that leaves a count behind on the wait semaphore |
| `DdCommand.SectorsAreTheInput` | apps/nshlib/nsh_ddcmd.c:596-601 | the sectors are the input zero-padded by less than a sector |
| `DdCommand.CopiesTheRange` | apps/nshlib/nsh_ddcmd.c:581-622 | the sectors copied are skip .. skip + count if and only if the 32-bit sector number does not wrap on the way |
| `DdCommand.OutputOfRange` | apps/nshlib/nsh_ddcmd.c:581-622 | copying a range of sectors writes that stretch of the padded input |
| `DdCommand.Dd.ReadCh` | apps/nshlib/nsh_ddcmd.c:302-325 | a whole sector or what is left, however reads split it; it fails exactly where one of the reads that this takes does |
| `DdCommand.Dd.Pad` | apps/nshlib/nsh_ddcmd.c:596-601 | the rest of the sector is zero |
| `DdCommand.Dd.WriteCh` | apps/nshlib/nsh_ddcmd.c:245-270 | the whole sector is written however writes split it, or a part of it exactly where one of the writes fails |
| `DdCommand.Dd.Transfer` | apps/nshlib/nsh_ddcmd.c:581-622 | the loop ends; the output is the picked sectors, or, exactly where a call that it makes fails, a part of them |
| `DdCommand.Copy` | apps/nshlib/nsh_ddcmd.c:547-622 | failure exactly for a skip beyond the count or where a call that is made fails; otherwise, without wrap, the output is sectors skip .. skip + count of the padded input |
| `DdCommand.TransferSucceeds` | apps/nshlib/nsh_ddcmd.c:581-622 | if no call fails, neither does the transfer |
| `Symtab.FindByName` | nuttx/binfmt/symtab_findbyname.c:88-95 | the first entry with the name, or none if there is none |
| `Symtab.FindsIsUnique` | nuttx/binfmt/symtab_findbyname.c:88-95 | there is one such answer only |
| `Symtab.FindOrderedByName` | nuttx/binfmt/symtab_findorderedbyname.c:91-137 | never outside a non-empty table; every entry returned has the name, and on a strictly ordered table the answer is that of the linear search |

## Left out

- Files.FileTable.Dup: one step for a caller that has the table to itself (other threads are the subject of FileRuns); minfd is not negative, and only inode counts are modelled; the driver's open method is never called by file_dup, so driver open counts are not claimed.
- Files.FileTable.OpenInode: one step for a caller that has the table to itself; other threads are the subject of FileRuns.
- Files.FileTable.Dup2: one step for a caller that has the table to itself; other threads are the subject of FileRuns.
- FileRuns.Perform: the tests of the inode in open are a free choice there; a step of file_dup reads the fields of a slot all at once; a call to close that fails is a close, since it frees the slot as well; the release of the whole list is only in Files.FileTable.ReleaseList.
- Files.FileTable.Open: one step for a caller that has the table to itself (other threads are the subject of FileRuns); the mode argument and the creation flags are not modelled; a failing sched_getfiles is not part of this model.
- FileSystems.FileSystem.AddRef: counts are unbounded; the 16-bit width of i_crefs is not modelled.
- DirStreams.DirStream.Read: the entry type that readdir reports is not modelled, and neither are streams below the root, where open_pseudodir counts on the first child, nor the inside of mountpoint directories.
- NshScript.NshParser.Parse: works on words, so the limit on the number of words does not apply to it; NshTexts.ParseLine has it. `nice`, and `sh` as a condition, are left out.
- NshTexts.ParseLine: the words of a line are cut and expanded before the keyword is looked at, not as they are needed; what a variable holds does not change in between.
- NshTokens.NshArgument: works on positions in an unchanged line and returns copies; the source writes terminators into the line buffer. A line that ends in a lone opening quote is excluded, because the source then reads past its end.
- NshTokens.ParseUndoesPrint: words that are empty, and words that need quotes but hold a quote after their first character, cannot be printed.
- RwBuffers.RwBuffer.WrFlush: flushes and reloads succeed; on failure the source drops data. Media removal, timer ticks and allocation are not modelled.
- Can.TxFifo.DevSend: sends succeed; after a failed send the source counts the message as sent. Completions are reported only for messages in flight.
- Can.TxFifo.TxDone: the semaphore count is kept, but no wake-up of writers is claimed, since the source posts only when something more was sent.
- Can.TxFifo.Write: the buffer holds whole messages with at most 8 data bytes, and fewer bytes than a header after them; at most 254 other writers wait.
- Can.TxFifo.Store: a message that is lost or followed by entries out of use stays counted as accepted; what the hardware is then sent is not followed further.
- Can.RxFifo.Read: the receive semaphore is a wait that may end at any time; remote requests and open counts are left out.
- RamLogs.RamLog.Write: waking and polling readers are left out.
- RamLogs.RamLog.Read: the waiter and poll bookkeeping is left out.
- Pwm.StartWaitsForExpiry: open, close and the characteristics other than the pulse count are left out; the lower half does not report the end of a train from inside its start method.
- DdCommand.Copy: block devices, option parsing and opening of the files are left out; each write moves at least one byte.
- Symtab.FindOrderedByName: the sum of two indices does not overflow; the searches by value are left out.
- Names compare as sequences of characters ordered by code; the signedness of char is not modelled.
- mount, umount, the filesystem bind callbacks, poll and select, networking, and the other shell commands are left out.
