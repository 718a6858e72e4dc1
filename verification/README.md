# Operating-system course projects: a verified model

Four programs share this repository, and nothing else: a demand-paged virtual memory (Project_2), a
bounded message buffer in a kernel module (Project_4), a user-level thread library (Project_1) and a
simulated Unix file system (Project_3). Each is modelled here by its own modules.

Code that works by changing things is written as classes over arrays and fields (`VirtualMemory`,
`Device`, `ReadyQueue`, `Library`, `FileSystem`, `FileDescriptor`, `Kernel`), with the loops of the
source. Every such method is proved equal to a function on values, or to a statement about them, and the
theorems are about those values over all inputs, all runs and all reachable states.

**Demand paging.** `PagingMachine` says what one fault does to page table, frame table, frames, disk,
ring and counters; `PagingMemory` does it in place. `PagingRuns` proves that a program cannot tell the
paged memory from a flat one: a read returns what was last written to its address; `PagingAccounts` that
the counters mean what they say and that FIFO reads no page twice while the working set fits.

**Message buffer.** `ScullRing` is the memory of the device; `ScullProtocol` is the system of any number
of processes, one atomic step at a time, blocking on four semaphores; `ScullTheorems` proves exactly
when the system is stuck and what the semaphores count, and `ScullCalls`, from call to call, that what a
read delivers is the front of the buffer some write was made with, once and in order. Three promises
fail and are stated with their exact conditions: `full` counts the items exactly while no signal has
made line 282 skip a down; a read's result is the bytes it delivered exactly when it asked for the whole
message (`DownCanBeSkipped` is a run from the start in which both go wrong); and once no writer is open
or opening, a parked read stays parked, whatever the others do short of opening for writing or a signal
to it, exactly when `full` is zero and no read is in its turnstile (`ReaderIsStranded`;
`ReaderCanBeStranded` reaches such a state).

**Threads.** `UthreadModel` is the status machine over a queue with stale and duplicate entries;
`UthreadLibrary` has the linked queue; `UthreadTheorems` proves that no ready thread is lost and how
long one can wait, and what each call leaves thread by thread. A running caller of yield goes to the
back of the queue, unless an old entry of its own is the first to be found: then it runs on
(`CallerGoesLast`; `CallerRunsOn` is a run from the start in which it does). Whether a terminated thread
stays terminated is answered exactly: not when it is still the current one and creates, returns, or
yields with nothing ready; `TerminatedIsRevived` is a run from the start in which that happens.

**File system.** From the bytes up:

- `FsCodec` and `FsFormat` (bytes), `FsGeometry` (what a disk image says), `FsVolume` (bitmap allocator
  and node table behind one-block buffers), `FsFile` (block pointers and who owns which block);
- `FsDescriptor` (block access of an open file), `FsKernel` (read and write), `FsTruncate` (giving
  blocks back), `DirectoryEntries` and `FsDirectory` (sorted directories edited in place), `FsUnlink`
  (the whole of unlink, in its order), `FsCells` (directory entries written as bytes);
- `LinkLaw` and `LinkPaths` (link counts, and where paths lead, on volumes: nodes with links, kinds and
  listings), `FsView` (the volume a disk holds, and the room it has for a name), `FsPaths`,
  `DiskKernel`, `DiskMkdir` and `DiskWrite` (lookup, creat, unlink, mkdir and a write on the disk, each
  doing to the volume what the law says);
- `MkfsLayout` and `MkfsImage` (the bytes of a fresh disk and what they mean), `Fsck` (the traversal on
  a graph), `FsckBlocks`, `DiskFsck` (fsck on the disk) and `FsckVerdict` (what it says);
- `DiskRuns` (runs of requests, from mkfs to fsck) and `DiskWitnesses` (runs from mkfs on which
  something goes wrong).

What a request does can be told from the disk before it: whether an entry goes in (`FsView.HasRoomFor`:
its block is there, or some block is free), what mkdir has room for (`DiskMkdir.MkdirSpace`, from the
number of free blocks), whether a write succeeds (`FsKernel.Spare`, the free blocks less the ones it
needs). With these, a request keeps the link law exactly when it is harmless on the disk it finds
(`DiskRuns.LawAfter`), a run does exactly when each of its requests is, and `DiskRuns.MkfsRequestsFsck`
goes the whole way: mkfs, any requests that are safe to make, fsck, and what fsck reports. For creats,
free space at the start is enough to be safe (`DiskRuns.CreatsAreSafe`).

Block ownership is kept with an exact account of what is lost: the allocated blocks are the disjoint
union of the blocks of the live files and a set of lost ones, no request but unlink loses a block, and
unlink of a last link loses exactly what `FsTruncate.Remains` says. Properties that the code does not
have on all inputs are stated with the exact condition under which it has them:

- unlink of the last link keeps block ownership exactly when the file has no indirect block and no block
  beyond its size (`FsUnlink.Unlink`, `FsTruncate.DeadOwnership`): an indirect block is never freed, and
  fsck reports it (`DiskWitnesses.IndirectBlockLeaks`);
- a directory that loses an entry keeps a block beyond its size exactly when the entry was the first of
  its block (`FsDirectory.ShrunkCover`), and fsck reports that block
  (`DiskWitnesses.DirectoryBlockIsReported`);
- fsck's scan asks the free list about every block number of the disk, and beyond the end of the list it
  reads index nodes: it reports nothing exactly when no block is lost, no file has a block beyond its
  size, and no number beyond the list happens to read as set (`FsckVerdict.ScanIsClean`); with the mode
  mkfs gives the root, the last means at most six blocks more than the list has bits
  (`ScanIsCleanWhen`). A fresh disk of 600 blocks of 64 bytes has more (`MkfsImage.FreshDiskAccused`);
- a block write that needs an indirect block reports success and loses the block exactly when just one
  block is free (`FsDescriptor.FileDescriptor.WriteBlock`, `FsDescriptor.LossShows`;
  `DiskWitnesses.BlockLossHappens` is such a write);
- creat does not look at the result of writedir: where no block is free and the last entry of the
  directory needs a new one, that entry is lost (`FsDirectory.Insert`), and then the link law is broken,
  always (`LinkLaw.ShortCounts`; `DiskWitnesses.LostEntryHappens` gets there with two mkdirs);
- a write is the string write one expects exactly when the bytes it jumps over are zero
  (`FsKernel.WriteRefinesString`); a write of no bytes within a block puts the stale buffer over that
  block (`FsKernel.WroteNothing`), and a later write can uncover it (`DiskWitnesses.StaleBytesShow`);
- a name of fourteen characters or more is written beyond its cell: exactly when that shows is
  `DirectoryEntries.StaysInCell`, what it does to the next entry `NextNumberCut`;
- mkdir over an existing regular file breaks the link law but in one case (`LinkLaw.MkdirOverFile`;
  `DiskWitnesses.MkdirOverFileHappens` on any fresh disk with a block to spare).

Where documentation and code disagree the code is followed: the indirect block is indexed by the file
block number, not by what exceeds the ten direct ones (IndexNode.cc:149 and 205), so a file has
blockSize/4 usable blocks; the path of a new directory in the root is looked for under the working
directory `/root` when its parent is recorded (mkdir.cc:85-90).

## Model

| member | source | states |
|---|---|---|
| PagingMemory.VirtualMemory.constructor | Project_2/main.c:236-276 | the machine starts with all frames free, the disk as given and nothing counted, whatever malloc left in the tables |
| PagingMemory.VirtualMemory.PageTableSetEntry | Project_2/page_table.c:101-118 | one page gets a frame and bits; nothing else of the machine changes |
| PagingMemory.VirtualMemory.EvictPage | Project_2/main.c:58-69 | the frame's page goes to its disk block exactly when the frame has the write bit, the page loses its bits, the frame is free |
| PagingMemory.VirtualMemory.FindFreeFrame | Project_2/main.c:78-86 | the lowest free frame, or -1 when there is none |
| PagingMemory.VirtualMemory.ReadIn | Project_2/main.c:104-111 | disk block copied, one disk read counted, page and frame tied read-only |
| PagingMemory.VirtualMemory.RandHandler | Project_2/main.c:115-146 | any frame in range may be the victim |
| PagingMemory.VirtualMemory.FindLeastEvicted | Project_2/main.c:90-98 | the scan from INT_MAX ends at the victim of the policy |
| PagingMemory.VirtualMemory.CustomHandler | Project_2/main.c:72-112 | the whole new machine under the least-evictions policy |
| PagingMemory.VirtualMemory.FifoHandler | Project_2/main.c:149-190 | the whole new machine under FIFO, ring included |
| PagingMemory.VirtualMemory.PageFaultHandler | Project_2/main.c:192-227 | one fault: count it, then load an absent page or add the write bit to a read-only one |
| PagingMemory.VirtualMemory.RetryUntilPermitted | Project_2/page_table.c:24-46 | an access retried through the handler ends, in the settled machine |
| PagingMemory.VirtualMemory.ReadByte | Project_2/main.c:192-227 | the byte read is the one the memory, its pages put one after another, has at that address, and no byte changes |
| PagingMemory.VirtualMemory.WriteByte | Project_2/main.c:192-227 | the byte at the address written changes, and no other |
| PagingTheorems.EvictIsInvisible | Project_2/main.c:58-69 | eviction changes no byte of the flat memory and keeps pages and frames in step |
| PagingTheorems.LoadIsInvisible | Project_2/main.c:104-111 | so does reading a page in |
| PagingTheorems.UpgradeIsInvisible | Project_2/main.c:215-221 | so does the write bit |
| PagingTheorems.RingGrows | Project_2/main.c:178-180 | while frames are free the ring lists the used ones in order |
| PagingTheorems.RingTurns | Project_2/main.c:166-180 | a full ring has front at back, and replacing its oldest frame keeps the order |
| PagingTheorems.FaultKeepsInv | Project_2/main.c:192-227 | every fault, under every policy and choice, keeps the invariant and the flat memory |
| PagingTheorems.BootedInv | Project_2/main.c:265-276 | the machine at boot has the invariant |
| PagingTheorems.ErrorBranchesUnreachable | Project_2/main.c:172-175 | neither printed error can happen: a full ring has front at back, and a page that is mapped and not read-only permits every access |
| PagingTheorems.FaultPlaces | Project_2/main.c:72-190 | a missing page goes to the lowest free frame, else to the frame drawn, the one at the front of the ring, or the lowest of those whose page has been evicted least |
| PagingRuns.PermissionLadder | Project_2/main.c:201-226 | a page's bits are none, read, or both, and decide exactly which accesses are permitted |
| PagingRuns.SettleGrantsAccess | Project_2/main.c:192-227 | two faults are always enough |
| PagingRuns.StepByAddress | Project_2/page_table.c:36-116 | one access, faults and all, reads or writes the byte at its address, and changes no other byte |
| PagingRuns.ReadsReturnLastWrite | Project_2/main.c:192-227 | for every sequence of accesses from boot, policy, number of frames and random choice: a read of an address returns what the last earlier write to that address stored, and the byte the disk had there if there was none |
| PagingRuns.PoliciesAgree | Project_2/main.c:203-212 | any two policies give a program the same bytes, whatever the numbers of frames |
| PagingAccounts.RunCounts | Project_2/main.c:58-227 | reads are the loads of absent pages, less the frames in use they are the evictions, and each access costs at most two faults |
| PagingAccounts.ExactAccounts | Project_2/main.c:195-227 | from boot: faults = reads + writes + dirty frames, reads = evictions + used frames, and eviction counts add up to the evictions |
| PagingAccounts.EnoughFrames | Project_2/main.c:78-86 | with a frame for every page, at most one read a page and no write |
| PagingAccounts.QueueAfterStep | Project_2/main.c:149-190 | the ring buffer refines a plain queue of resident pages |
| PagingAccounts.LoadsOfTheQueue | Project_2/main.c:149-190 | the pages read from disk are the misses of that queue |
| PagingAccounts.NoReload | Project_2/main.c:149-190 | a queue as long as the working set misses no page of it twice |
| PagingAccounts.FifoWorkingSetBound | Project_2/main.c:149-190 | from any reachable state, accesses to at most nframes distinct pages read each at most once |
| PagingAccounts.CustomVictimIsLeastEvicted | Project_2/main.c:88-102 | the victim has the least count, in the lowest frame among equals; its count and no other goes up |
| ScullRing.PutAppends | Project_4/scullBuffer.c:204-213 | storing an item appends it to the queued items |
| ScullRing.TakeDropsFirst | Project_4/scullBuffer.c:269-285 | fetching takes the first item and leaves the others as they were |
| ScullRing.ScribbleKeepsContents | Project_4/scullBuffer.c:206-210 | a copy from user space that faults overwrites no queued item |
| ScullRing.BlocksAfterCopy | Project_4/scullBuffer.c:206-206 | bytes copied at a slot's address change that slot only |
| ScullRing.Device.CopyIn | Project_4/scullBuffer.c:206-206 | the flat buffer changes in one slot, at its front |
| ScullRing.Device.StoreItem | Project_4/scullBuffer.c:204-217 | the device memory after the writer's critical section, and its result, also on a fault |
| ScullRing.Device.FetchItem | Project_4/scullBuffer.c:266-286 | the bytes delivered, the result, and the device memory after the reader's critical section, also on a fault |
| ScullTheorems.StepBalances | Project_4/scullBuffer.c:174-291 | every step moves semaphores, items, program counters and user counts together |
| ScullTheorems.StepKeepsInv | Project_4/scullBuffer.c:122-291 | every atomic step of any process keeps the invariant |
| ScullTheorems.InitInv | Project_4/scullBuffer.c:31-77 | the initial values have it |
| ScullTheorems.DeadlockFreedom | Project_4/scullBuffer.c:174-291 | in every reachable state with a call in progress some call can move, unless all are reads parked with no item or all are writes parked on a full buffer, never a mix |
| ScullTheorems.NoLostWakeup | Project_4/scullBuffer.c:196-215 | while items wait and `full` is zero, some process is on its way to raise it; likewise for free slots and `empty` |
| ScullTheorems.SemaphoresCountItems | Project_4/scullBuffer.c:211-284 | with the device free, `full` and its turnstile count the items exactly when no down was skipped; `empty` and its turnstile always count the rest |
| ScullCalls.WriteStoresItsBytes | Project_4/scullBuffer.c:178-213 | in every run, what joins the items is the front of the buffer its call of write was made with, of its length or 512, and that length is the result |
| ScullCalls.WriteReturnsItsLength | Project_4/scullBuffer.c:206-220 | a call that has stored its bytes returns that length |
| ScullCalls.OneCommitACall | Project_4/scullBuffer.c:174-220 | no call stores twice |
| ScullCalls.EachEntryIsAWrite | Project_4/scullBuffer.c:174-220 | every item stored was stored by a call of write made before |
| ScullCalls.ReadAsksForItsCount | Project_4/scullBuffer.c:241-285 | a read asks for the count its call was made with or 512, takes the oldest item not yet read, delivers that much of its front, and its result is the item's size |
| ScullCalls.ReadReturnsTheSize | Project_4/scullBuffer.c:266-292 | a call that has taken an item returns that size |
| ScullCalls.BranchesTaken | Project_4/scullBuffer.c:182-260 | a write copies exactly with a slot free, else gives up with 0 exactly with no reader open, else parks; a read copies exactly with an item there, else parks exactly with a writer open, else gives up with 0; a signal gives -ERESTARTSYS, a faulted copy -EFAULT with nothing stored or taken |
| ScullCalls.RestWaitsInRing | Project_4/scullBuffer.c:204-285 | in any state of any run what has been written and not read is what the ring holds, in order |
| ScullCalls.FifoDelivery | Project_4/scullBuffer.c:204-285 | from call to call: receipt k delivers the front of the buffer of the write that committed as number k, as much as was asked for and stored, and its result is the length stored; the rest is in the ring |
| ScullTheorems.ReaderCanBeStranded | Project_4/scullBuffer.c:147-161 | two processes reach a state in which a read is parked, no writer is open or opening, and it stays parked |
| ScullTheorems.ReaderIsStranded | Project_4/scullBuffer.c:249-257 | in every reachable state with no writer open or opening, a parked read stays parked along every run without an open for writing and without a signal to it exactly when `full` is zero and no read is in the turnstile |
| ScullTheorems.DownCanBeSkipped | Project_4/scullBuffer.c:282-284 | from the initial state: a signal makes a read skip its down, and a read that asked for less than the message returns the whole length |
| UthreadTheorems.StepKeepsInv | Project_1/uthread.c:60-206 | every library call keeps: ready threads but the current are queued, only the current thread runs |
| UthreadTheorems.YieldDoes | Project_1/uthread.c:122-157 | the first entry that names a ready thread, or the running caller, is dispatched; what stood before it is gone, what stood behind stays, a running caller comes last and is ready; no other status changes; without such an entry the caller runs on and the queue is empty |
| UthreadTheorems.YieldDispatchesReady | Project_1/uthread.c:122-157 | with another thread ready the first such entry is dispatched, and never a thread but the caller that is not ready |
| UthreadTheorems.CallerGoesLast | Project_1/uthread.c:131-151 | with some queued thread ready, a running caller ends ready and last in the queue with that thread running, exactly when no old entry of its own stands before that thread's |
| UthreadTheorems.CallerRunsOn | Project_1/uthread.c:131-151 | from the start: a thread suspended and resumed while it waits, dispatched, yields with another ready and is dispatched again |
| UthreadTheorems.CallsDo | Project_1/time_slicing.c:74-115 | create, suspend, resume, terminate and the end of a join, thread by thread: which status each leaves, what joins the queue, and that nothing else changes |
| UthreadTheorems.ReturnDoes | Project_1/uthread.c:200-203 | a thread whose routine ends is returned and not queued, and the first other ready thread of the queue runs; without one it goes on as running |
| UthreadTheorems.StepAdvances | Project_1/uthread.c:122-157 | no call by others moves a waiting thread back, and every switch moves it up or runs it |
| UthreadTheorems.NoReadyThreadIsLost | Project_1/uthread.c:60-206 | after any run from the start every ready thread but the current has a queue entry |
| UthreadTheorems.BoundedWaiting | Project_1/uthread.c:122-157 | a ready thread at place j runs within j + 1 yields of any run that does not suspend or terminate it |
| UthreadTheorems.TerminatedStays | Project_1/time_slicing.c:74-82 | a terminated thread stays so, except exactly when it is current and creates, returns, or yields with none ready |
| UthreadTheorems.TerminatedIsRevived | Project_1/time_slicing.c:74-82 | from the start: the main thread terminates itself, creates a thread, and is ready and queued again |
| UthreadLibrary.ReadyQueue.Push | Project_1/uthread.c:60-71 | the linked list gains the thread at its end |
| UthreadLibrary.ReadyQueue.Pop | Project_1/uthread.c:73-89 | the list loses its head, which is returned; -1 when empty |
| UthreadLibrary.Library.PopReady | Project_1/uthread.c:140-146 | stale entries are dropped up to the first ready one |
| UthreadLibrary.Library.RequeueIfRunning | Project_1/uthread.c:130-134 | a running thread becomes ready and joins the end of the queue; otherwise nothing changes |
| UthreadLibrary.Library.UthreadYield | Project_1/uthread.c:122-157 | the whole new state of a yield; the thread it leaves, if it was running, is ready and last in the queue |
| UthreadLibrary.Library.UthreadCreate | Project_1/uthread.c:163-206 | the new thread runs at once and the creator is queued |
| UthreadLibrary.Library.ThreadReturned | Project_1/uthread.c:200-203 | a thread whose routine ends is marked returned and yields |
| UthreadTheorems.WaitingIsQueued | Project_1/uthread.c:60-71 | a ready thread that is not the current one waits at some place of the queue |
| UthreadLibrary.Library.UthreadTerminate | Project_1/time_slicing.c:74-82 | only the status changes; the entry stays behind |
| UthreadLibrary.Library.UthreadSuspend | Project_1/time_slicing.c:84-99 | refused for a finished thread; otherwise only the status changes |
| UthreadLibrary.Library.UthreadResume | Project_1/time_slicing.c:101-115 | a suspended thread becomes ready with a new entry, which may be a second one |
| UthreadLibrary.Library.UthreadJoinPass | Project_1/uthread.c:91-120 | one pass of the join loop: done, refused, or a yield |
| FsCodec.BlockBitAt | Project_3/BitBlock.cc:8-33 | setting or clearing a bit changes that bit and no other |
| FsCodec.NodeRoundTrip | Project_3/IndexNode.cc:253-356 | a node comes back with its pointers cut to 24 bits, so unchanged exactly when they fit |
| FsCodec.Store | Project_3/IndexNode.cc:253-300 | a field goes into a buffer at its place and the rest is kept |
| FsGeometry.WriteListBlock | Project_3/FileSystem.cc:205-258 | writing a bitmap block changes the allocation of one data block and nothing else on disk |
| FsGeometry.WriteNodeBlock | Project_3/FileSystem.cc:339-344 | writing a node block changes one node of the table and nothing else on disk |
| FsGeometry.WriteDataBlock | Project_3/FileSystem.cc:193-197 | writing a data block changes that block and nothing else on disk |
| FsVolume.FileSystem.LoadFreeListBlock | Project_3/FileSystem.cc:266-276 | the buffer holds the bitmap block asked for and still equals its disk block |
| FsVolume.FileSystem.FreeBlock | Project_3/FileSystem.cc:205-212 | exactly that block is free again |
| FsVolume.FileSystem.AllocateBlock | Project_3/FileSystem.cc:221-258 | the first free block going round from the cursor becomes allocated; -1 exactly when every data block is; ends within one round |
| FsVolume.FileSystem.LoadIndexNodeBlock | Project_3/FileSystem.cc:352-361 | the buffer holds the node block asked for and still equals its disk block |
| FsVolume.FileSystem.ReadIndexNode | Project_3/FileSystem.cc:326-330 | the node last written under that number |
| FsVolume.FileSystem.WriteIndexNode | Project_3/FileSystem.cc:339-344 | that node is replaced, its pointers cut to 24 bits, and no other |
| FsVolume.FileSystem.AllocateIndexNode | Project_3/FileSystem.cc:285-317 | the first node with no link going round from the cursor; -1 exactly when there is none |
| FsVolume.ReadNode | Project_3/IndexNode.cc:304-356 | reading the bytes of a buffer is decoding them |
| FsVolume.WriteNode | Project_3/IndexNode.cc:253-300 | writing a node patches its bytes and leaves the rest of the buffer |
| FsFormat.EntryBytes | Project_3/DirectoryEntry.cc:71-86 | byte by byte: number high byte first, name, zero |
| FsFormat.NodeBytes | Project_3/IndexNode.cc:253-300 | byte by byte: five fields high byte first, eleven pointers of three bytes |
| FsFormat.PointerBytes | Project_3/IndexNode.cc:202-210 | a pointer past the tenth lies in the indirect block at four times the file block number, low byte first |
| FsFormat.BitOfBlock | Project_3/BitBlock.cc:8-33 | a data block is allocated exactly if its bit, counted from the low end of each byte of the list, is one |
| FsFormat.PlaceOfNode | Project_3/FileSystem.cc:326-344 | node n lies 64 * n bytes from the start of the nodes |
| FsFormat.LessIs | Project_3/Kernel.cc:657-657 | strcmp: the first byte that differs decides, and a name goes before those it begins |
| FsFile.SlotSet | Project_3/IndexNode.cc:164-212 | setting one block pointer changes that pointer and no other |
| FsFile.AssignBlock | Project_3/IndexNode.cc:164-212 | filling a hole gives the file that block, owned once, and changes its contents there only |
| FsFile.RewriteBlock | Project_3/FileDescriptor.cc:154-156 | writing over a block changes the contents there only and ownership not at all |
| FsFile.AddIndirect | Project_3/IndexNode.cc:176-200 | a new indirect block changes nothing in the file but that it is owned |
| FsFile.ClearSlot | Project_3/Kernel.cc:171-177 | emptying a pointer gives up exactly that block |
| FsFile.SameOwnedSameFile | Project_3/FileDescriptor.cc:97-126 | a file depends only on the blocks it owns |
| FsFile.OwnershipAfter | Project_3/FileSystem.cc:205-258 | a file that takes free blocks and gives up its own keeps the allocated blocks the disjoint union of what the files own, and no other file changes |
| FsDescriptor.GetBlockAddress | Project_3/IndexNode.cc:133-162 | direct, indirect or missing pointer |
| FsDescriptor.SetSlot | Project_3/IndexNode.cc:164-212 | the pointer is set in the node or in the indirect block on disk |
| FsDescriptor.SetFirstIndirect | Project_3/IndexNode.cc:176-212 | a fresh indirect block holds that pointer and no other; on a full disk the node in memory gets the pointer -1 and nothing is written |
| FsDescriptor.Placed | Project_3/FileDescriptor.cc:140-156 | linking a new block keeps ownership and changes one block of one file |
| FsDescriptor.PlacedWithIndirect | Project_3/FileDescriptor.cc:140-156 | the same where the indirect block is new as well |
| FsDescriptor.FileDescriptor.ReadBlock | Project_3/FileDescriptor.cc:97-126 | the buffer holds that block of the file, zeros for a hole; refused exactly beyond the limit |
| FsDescriptor.FileDescriptor.WriteBlock | Project_3/FileDescriptor.cc:128-159 | the file changes in that block only and no other file changes; refused exactly beyond the limit or for a hole on a full disk, and then nothing changes; success with the block lost exactly where an indirect block is needed and one block is free |
| FsDescriptor.LossShows | Project_3/IndexNode.cc:176-188 | the lost block is allocated and no file's, and every file on disk is as it was, the one written to included |
| FsDescriptor.FileDescriptor.SetSize | Project_3/FileDescriptor.cc:74-80 | only the size changes, in memory and on disk, and no other file |
| FsKernel.SpliceAt | Project_3/Kernel.cc:1187-1222 | a splice holds the new bytes where they were put and the old ones elsewhere |
| FsKernel.Read | Project_3/Kernel.cc:964-1000 | the bytes from the offset to the end of the request or of the file, and the offset after them |
| FsKernel.FlushBlock | Project_3/Kernel.cc:1206-1218 | the file on disk catches up with the buffer, the size with the offset |
| FsKernel.FillByte | Project_3/Kernel.cc:1189-1202 | one byte into the buffer, after loading the block it belongs to |
| FsKernel.EndByte | Project_3/Kernel.cc:1203-1219 | at the end of a block the buffer goes to disk |
| FsKernel.Write | Project_3/Kernel.cc:1167-1247 | at any offset: the bytes are spliced in, the size covers them, no other file changes; it succeeds exactly when before it there were as many free blocks as the holes in its range and the indirect block it comes to need, and leaves the difference free; a failed write left the bytes before the first block the file does not have, with the size covering them; a write of no bytes within a block writes the stale buffer |
| FsKernel.WriteRefinesString | Project_3/Kernel.cc:1167-1247 | the file as a string: zero-extended as far as needed, then the bytes replaced, exactly when the bytes jumped over are zero; bytes beyond the size that are zero stay so |
| FsKernel.FailedWriteRefinesString | Project_3/Kernel.cc:1204-1234 | a write that fails has done a string write of a prefix, under the same condition, or nothing |
| FsKernel.ReadRefinesString | Project_3/Kernel.cc:964-1000 | a read is a slice of that string clipped at the size |
| FsKernel.ReadAfterWrite | Project_3/Kernel.cc:964-1247 | what was written is what is read back |
| FsKernel.ReadElsewhere | Project_3/Kernel.cc:964-1247 | what was not written reads as before |
| FsTruncate.FreeBlocks | Project_3/Kernel.cc:168-177 | the loop empties every slot within the size and frees exactly those blocks; no other file changes; the disk is full afterwards exactly if it was and there were none |
| FsTruncate.Truncate | Project_3/Kernel.cc:721-738 | creat over a file keeps block ownership and leaves it empty, all zeros if no block lay beyond its size; no other file changes |
| FsTruncate.FreeUnlinked | Project_3/Kernel.cc:166-181 | the end of unlink of a last link: the node is free, no other file changes, and ownership holds exactly when there was no indirect block and no block beyond the size; else exactly those blocks are lost |
| FsTruncate.DeadOwnership | Project_3/Kernel.cc:161-181 | with its last link a file loses exactly the blocks it still owns |
| FsTruncate.WhatIsLeft | Project_3/Kernel.cc:168-177 | after the loop a file owns exactly its indirect block and the blocks beyond its size |
| FsTruncate.OwnershipIsUnique | Project_3/FileSystem.cc:205-258 | the allocated blocks that files own are determined by the files |
| FsTruncate.CreateNode | Project_3/Kernel.cc:586-606 | creat of a new file takes a free node with the mode asked for, one link, owner and group 0, no size and no block, field by field, and changes no other file |
| DirectoryEntries.EntryRoundTrip | Project_3/DirectoryEntry.cc:71-112 | an entry that fits comes back from its cell, whatever was there before |
| DirectoryEntries.StaysInCell | Project_3/DirectoryEntry.cc:74-83 | writing leaves the bytes outside the cell alone exactly when the name is shorter than fourteen or what runs over is there already |
| DirectoryEntries.NextNumberCut | Project_3/DirectoryEntry.cc:74-83 | the terminator of a fourteen-character name takes the high byte of the next entry's number and nothing else; that entry is unharmed exactly when the byte was zero |
| DirectoryEntries.LastCellOverrun | Project_3/DirectoryEntry.cc:74-83 | in the last cell of a block an entry stays in the buffer exactly when its name is shorter than fourteen |
| DirectoryEntries.PatchElsewhere | Project_3/DirectoryEntry.cc:71-86 | bytes written to one cell leave the others as they were |
| DirectoryEntries.OtherCellKept | Project_3/DirectoryEntry.cc:71-86 | the other cells of the block read as before |
| DirectoryEntries.ReadEntry | Project_3/DirectoryEntry.cc:96-112 | reading the bytes of a buffer is decoding them |
| DirectoryEntries.WriteEntry | Project_3/DirectoryEntry.cc:71-86 | writing an entry patches its bytes and leaves the rest of the buffer |
| DirectoryEntries.LessIsTotal | Project_3/Kernel.cc:657-657 | the order of strcmp is total and strict |
| DirectoryEntries.InsertKeepsSorted | Project_3/Kernel.cc:636-671 | the place creat picks keeps the directory sorted |
| DirectoryEntries.InsertAddsOne | Project_3/Kernel.cc:636-700 | the directory gains exactly the new entry |
| DirectoryEntries.InsertAddsTheName | Project_3/Kernel.cc:636-700 | after which the new name, and every old one, is there, and no other |
| DirectoryEntries.RemoveKeepsSorted | Project_3/Kernel.cc:104-159 | a removal keeps the directory sorted |
| DirectoryEntries.RemoveTakesOne | Project_3/Kernel.cc:104-159 | the directory loses exactly the entry found |
| DirectoryEntries.RemoveTakesTheName | Project_3/Kernel.cc:104-159 | after which that name, and no other, is gone |
| DirectoryEntries.UnlinkUndoesCreat | Project_3/Kernel.cc:104-159 | creat of a new name and unlink of it give back the very listing there was |
| FsDirectory.ListingWritten | Project_3/Kernel.cc:1265-1313 | writing a cell of the file is changing or appending one entry of the listing |
| FsDirectory.ReadDir | Project_3/Kernel.cc:1017-1059 | the entry at the offset, across block boundaries; 0 exactly at the end |
| FsDirectory.WriteDir | Project_3/Kernel.cc:1265-1313 | the listing with that entry replaced or appended, no other file changed; it succeeds exactly when before the call the entry's block was there or some block was free, and takes the blocks counted; else nothing changes |
| FsDirectory.PutNew | Project_3/Kernel.cc:636-671 | creat's scan puts the new entry at its place and holds the displaced one |
| FsDirectory.ShiftUp | Project_3/Kernel.cc:673-700 | the one-entry-lookahead shift moves the rest one place on |
| FsDirectory.Insert | Project_3/Kernel.cc:620-703 | the directory lists its old entries with the new one at its place, across block boundaries, and no other file changes; without the last entry exactly when before the call the block of that entry was missing and no block was free; the blocks taken are counted |
| FsDirectory.ShiftDown | Project_3/Kernel.cc:130-159 | the two-back shift closes the gap and the last entry goes |
| FsUnlink.Unlink | Project_3/Kernel.cc:100-182 | unlink in its order, the link count on disk before the shift and the blocks freed after it: the directory lists its entries without the name, no file but the two changes, the file has a link less, and for a last link ownership holds exactly when there was no indirect block and no block beyond the size |
| FsDirectory.ShrunkCover | Project_3/Kernel.cc:137-142 | a removal leaves a block beyond the size exactly when the entry was the first of its block |
| FsCells.SpliceInBlock | Project_3/Kernel.cc:1187-1222 | a write within one block is a patch of that block |
| FsCells.ListingAppended | Project_3/mkdir.cc:67-95 | sixteen bytes written by Kernel::write at the end of a directory append the entry to its listing |
| FsView.NewNodeView | Project_3/Kernel.cc:586-606 | the new node of creat is a new node of the volume the disk holds |
| FsView.ListingChanged | Project_3/Kernel.cc:620-703 | an edit of one directory on disk is that edit of the volume |
| FsView.EmptiedView | Project_3/Kernel.cc:721-738 | creat over a file does not change the volume |
| FsView.RoomOnceEmptied | Project_3/Kernel.cc:721-738 | whether the emptied file has, or can get, a first block, from the file and the free blocks before |
| FsView.UnlinkedView | Project_3/Kernel.cc:58-182 | unlink on disk is one link and one entry less of the volume, and the disk stays sound with exactly the remains lost |
| FsPaths.CopyLists | Project_3/Kernel.cc:1658-1665 | a directory read through an old copy of its node shows its first entries as they are now |
| FsPaths.FindNextIndexNode | Project_3/Kernel.cc:1579-1650 | the number of the entry of that name and its node from disk, -1 exactly when there is none or the node is no directory |
| DiskKernel.Kernel.FindIndexNode | Project_3/Kernel.cc:1658-1710 | the walk along a path over the disk, from the root as copied at boot |
| DiskKernel.Kernel.FindBoth | Project_3/Kernel.cc:520-572 | where creat's walk ends: the directory and what the last name is in it |
| DiskKernel.Kernel.MakeEntry | Project_3/Kernel.cc:608-704 | the directory is opened again and gets the entry exactly if on the disk before there was room for it, with the blocks it takes counted, or loses its last one; no other file changes |
| DiskKernel.Kernel.Creat | Project_3/Kernel.cc:513-746 | new node and entry, emptied file, or refusal with nothing changed, each exactly when; the new node has the mode asked for, one link, owner and group 0 and no block, the emptied one the mode, links and owner it had; the entry is lost exactly if on the disk before there was no room for it (`HasRoomFor`), and else the path leads to the new node and every path that led anywhere still does; every other file keeps node and contents |
| DiskKernel.Kernel.Unlink | Project_3/Kernel.cc:58-182 | the volume of `UnlinkResult`, exactly for a regular file, with exactly the remains of a last link lost; its path leads nowhere and the law holds |
| DiskMkdir.PutCell | Project_3/mkdir.cc:67-95 | one of mkdir's entries is written exactly if its block was there or some block was free, with the blocks taken counted; else the file is as it was |
| DiskMkdir.RecordedIsLinked | Project_3/mkdir.cc:80-91 | the node recorded as parent has links |
| DiskMkdir.Mkdir | Project_3/mkdir.cc:45-121 | the volume of `MkdirResult` for the room the disk had before (`MkdirSpace`), with the exit status for each and the blocks taken; a new directory has mode S_IFDIR and owner and group 0, its path leads to it, its ".." to the directory it is in (`MadeIsFound` for those in the root), and that directory has the link more; every file but the parent and the new one keeps its contents and all of its node but the link count |
| DiskWrite.WriteFile | Project_3/Kernel.cc:807-1247 | open of an existing file, lseek and one write: the file's blocks and size as the write leaves them, success exactly when there were free blocks enough before, no other file changed, the volume as it was; -1 and nothing changed where there is no file |
| MkfsLayout.ChooseLayout | Project_3/mkfs.cc:29-80 | the search ends with the greatest number of data blocks that fits; the regions add up to the disk, every data block has a bit, and there are at least as many nodes |
| MkfsLayout.CeilDivHolds | Project_3/mkfs.cc:41-47 | the rounded-up quotient is the least number of groups that holds |
| MkfsImage.LayoutIsValid | Project_3/mkfs.cc:105-115 | the chosen layout is a valid geometry |
| MkfsImage.RootFields | Project_3/mkfs.cc:147-162 | the root's node: a directory with three links, two entries, the first data block, owner and group 0 |
| MkfsImage.WriteImage | Project_3/mkfs.cc:100-195 | block by block the bytes mkfs writes |
| MkfsImage.MkfsDiskAgrees | Project_3/mkfs.cc:119-190 | what they say: one allocated block, the root's node and free nodes, the root's block |
| MkfsImage.FreshOwnership | Project_3/mkfs.cc:124-166 | the tables of the image mkfs writes have block ownership and no block beyond a size |
| MkfsImage.FreshRootListing | Project_3/mkfs.cc:179-190 | its root lists "." and ".." |
| MkfsImage.FreshView | Project_3/mkfs.cc:124-190 | the fresh disk is sound and holds the volume the link law starts from |
| MkfsImage.Format | Project_3/mkfs.cc:100-195 | mkfs and the first boot: a file system in that state |
| MkfsImage.FreshScan | Project_3/FileSystem.cc:58-76 | fsck of a fresh disk reports no leaked block exactly when the disk has at most six blocks more than free list bits |
| MkfsImage.FreshDiskAccused | Project_3/FileSystem.cc:58-76 | the fresh disk of 600 blocks of 64 bytes: block 518, which is none of the data blocks, is reported |
| FsckBlocks.GetBlocks | Project_3/IndexNode.cc:33-49 | the pointers in use within the size, then the indirect block |
| FsckBlocks.ListedIsOwned | Project_3/IndexNode.cc:33-49 | every listed block is the file's, and one of the file's is missed exactly when it lies beyond the size |
| Fsck.CompareLinks | Project_3/Kernel.cc:362-372 | the nodes whose stored and counted links differ, and only those |
| DiskFsck.CheckBlocks | Project_3/Kernel.cc:317-330 | the blocks listed for a node are marked found, and those the free list calls free are reported, and only those |
| DiskFsck.CountEntries | Project_3/Kernel.cc:333-356 | a directory read entry by entry adds one to each name's count and pushes each new node once |
| DiskFsck.Traverse | Project_3/Kernel.cc:298-357 | over any graph of directories on disk, cycles included, the stack traversal ends having visited exactly what is reachable, with the counts and blocks of exactly that |
| DiskFsck.Scan | Project_3/FileSystem.cc:58-76 | every number below the block count whose bit reads as set, wherever that bit is, and that was not found in a file |
| DiskFsck.Check | Project_3/Kernel.cc:298-377 | what is reported is exactly what is wrong: link counts, free blocks in use, and set bits of no file |
| FsckVerdict.ReachesTheLive | Project_3/Kernel.cc:298-357 | on a disk that keeps the law fsck reaches exactly the nodes with links |
| FsckVerdict.SoundIsCheckable | Project_3/Kernel.cc:298-357 | and can read all of them |
| FsckVerdict.NoCountIsWrong | Project_3/Kernel.cc:359-372 | there it reports no link count |
| FsckVerdict.NoneFreeButUsed | Project_3/Kernel.cc:317-330 | and no free block in a file |
| FsckVerdict.Unfound | Project_3/Kernel.cc:317-330 | an allocated block is in no file fsck finds exactly when it is lost or beyond the size of its file |
| FsckVerdict.ScanIsClean | Project_3/FileSystem.cc:58-76 | the scan reports nothing exactly when no block is lost, none is beyond a size, and no number beyond the list reads as set |
| FsckVerdict.PhantomsOfTheRoot | Project_3/FileSystem.cc:73-76 | with a root of mode S_IFDIR no number beyond the list reads as set exactly when the disk has at most six blocks more than the list has bits |
| FsckVerdict.ScanIsCleanWhen | Project_3/FileSystem.cc:58-76 | the two together |
| LinkLaw.CreatedKeepsInv | Project_3/Kernel.cc:586-704 | creat of a missing name keeps the link law, the order of directories, and every directory reachable |
| LinkLaw.ShortCounts | Project_3/Kernel.cc:636-700 | creat where the directory cannot grow breaks the law, whatever entry is lost |
| LinkLaw.MadeDirKeepsInv | Project_3/mkdir.cc:45-121 | so does mkdir of a missing name, whichever node it records as its parent |
| LinkLaw.RecordedInRange | Project_3/mkdir.cc:80-91 | the node recorded as parent exists, also where stat fails or finds another directory |
| LinkPaths.CreatedIsFound | Project_3/Kernel.cc:513-746 | after creat the path leads to the new node, and every path that led anywhere leads there still |
| LinkPaths.DeepParent | Project_3/mkdir.cc:82-91 | for two names or more the parent recorded is the directory the path leads to, also where the grown root hides the way: that happens only when it is the root |
| LinkPaths.TopParent | Project_3/mkdir.cc:82-91 | for one name it is the node of /root, unless that is the root's last entry and the new name goes before it; the new directory itself if it is /root and not last; else the root |
| LinkPaths.MadeIsFound | Project_3/mkdir.cc:45-121 | after mkdir the path leads to the new directory, its "." to itself, its ".." to that parent, which alone has a link more, and every path that led anywhere leads there still |
| LinkPaths.UnlinkedIsGone | Project_3/Kernel.cc:58-181 | after unlink the path leads nowhere, the file has a link less, and every other name in a directory that can be reached leads where it led |
| LinkLaw.MkdirOverFile | Project_3/mkdir.cc:45-121 | mkdir over a regular file keeps the law exactly when the file is its own recorded parent and had three links |
| LinkLaw.MkdirOverFileHappens | Project_3/mkdir.cc:45-121 | from a fresh disk: creat of a file keeps the law, mkdir of the same path then breaks it |
| LinkLaw.UnlinkCounts | Project_3/Kernel.cc:58-181 | unlink of a regular file keeps the law |
| LinkLaw.AdditionKeepsInv | Project_3/Kernel.cc:513-746 | creat or mkdir of a new name keeps the invariant exactly when there is room for its entry |
| LinkLaw.MkfsInv | Project_3/mkfs.cc:137-190 | the fresh image has it, the root with three links |
| LinkLaw.ReachableIsLinked | Project_3/Kernel.cc:298-357 | what fsck reaches is exactly what has links |
| LinkLaw.CountsAreRight | Project_3/Kernel.cc:359-372 | under the invariant every stored count is the one fsck computes |
| DiskRuns.VolumeAfter | Project_3/Kernel.cc:58-746 | creat, mkdir, unlink and a write do to the volume what the link law says of them, with the room taken from the disk before |
| DiskRuns.LawAfter | Project_3/Kernel.cc:58-746 | the law holds after a request exactly when the request was harmless on the disk before: room for a new entry, and no mkdir over a file (but in the one case, or where the emptied file gets no block) |
| DiskRuns.OthersAreKept | Project_3/Kernel.cc:58-746 | every file a request does not name, nor its directory, keeps its contents in the same blocks and all of its node but the link count |
| DiskRuns.Perform | Project_3/Kernel.cc:58-746 | boot, one request, exit: what it does to the disk, its exit status from the disk before, the disk sound, the law as `LawAfter` says |
| DiskRuns.RunsKeepTheLaw | Project_3/Kernel.cc:58-746 | every disk of a run is sound and keeps the law exactly if every request was harmless on the disk before it |
| DiskRuns.PerformAll | Project_3/Kernel.cc:58-746 | a loop over requests that are safe to make makes such a run: each disk sound, each law kept, each request harmless |
| DiskRuns.CreatsAreSafe | Project_3/Kernel.cc:513-746 | with two free blocks for each creat and twelve more at the start, and no directory outgrowing its pointers, any list of creats with names that fit is safe to make, whatever the paths |
| DiskRuns.FsckAfterAnyRun | Project_3/Kernel.cc:298-377 | after any run of harmless requests from the disk mkfs writes fsck reaches exactly the live files, has no link count and no free block to report, and misses exactly the lost blocks and those beyond a size |
| DiskRuns.MkfsRequestsFsck | Project_3/Kernel.cc:298-377 | mkfs, requests, fsck, one after the other: the report has no link count and no free block, counts exactly the live files, and of the allocated blocks accuses exactly the lost and those beyond a size |
| DiskRuns.LostByRuns | Project_3/Kernel.cc:166-181 | a run loses blocks exactly when one of its unlinks leaves some |
| DiskRuns.LeavesNothing | Project_3/Kernel.cc:166-181 | an unlink of a last link leaves none exactly when the file had no indirect block and no block beyond its size |
| DiskWitnesses.NoRoomLeft | Project_3/Kernel.cc:636-700 | after mkfs of nine blocks and any two mkdirs as the code may carry them out, creat of a third name can be asked for, has a free node, and has no room for its entry |
| DiskWitnesses.LostEntryHappens | Project_3/Kernel.cc:636-700 | that run carried out: creat reports success and the law is broken |
| DiskWitnesses.MkdirOverFileBreaks | Project_3/mkdir.cc:45-121 | after creat on any fresh disk with a block to spare, mkdir of the same path is not harmless |
| DiskWitnesses.MkdirOverFileHappens | Project_3/mkdir.cc:45-121 | that run carried out: mkdir exits with success and the law is broken |
| DiskWitnesses.BlockLossHappens | Project_3/IndexNode.cc:176-188 | mkfs of seven blocks, creat, a write to file block ten: success is reported and the block is lost |
| DiskWitnesses.StaleBytesShow | Project_3/Kernel.cc:1225-1234 | on any disk of four data blocks: three bytes, then none beyond the first block, then one further on; the file is not what the string write gives |
| DiskWitnesses.IndirectThere | Project_3/IndexNode.cc:176-200 | after creat and a write to file block ten the file has an indirect block |
| DiskWitnesses.IndirectBlockLeaks | Project_3/Kernel.cc:166-181 | mkfs, creat, that write, unlink, fsck: a block is lost, and fsck reports it |
| DiskWitnesses.DirectoryBlockIsReported | Project_3/Kernel.cc:137-142 | mkfs, creat of three files, unlink of the last, fsck: the root's second block, beyond its size, is reported |

## Left out

- signals, timers and signal masks, `sigsetjmp` and `siglongjmp`, address translation, `async_read`: a context switch is the change of the current thread and a preemption is a yield at any point
- PopReady: does not model the read of threads[-1] when the queue runs out, because its value cannot matter
- UthreadJoinPass: one pass of the join loop, because the loop ends only if others run
- UthreadCreate: does not model a create past the hundredth slot, which writes beyond the thread table
- UthreadResume: does not model resuming a slot that was never created and was suspended before, whose context was never saved
- `mmap`, `mprotect`, `remap_file_pages`, `pread`, `pwrite` and `fstream`: frames, disk and image are arrays and sequences
- programs that use the paged memory: any sequence of accesses stands for them; `lrand48() % nframes` is any choice in range
- ExactAccounts: the counters are unbounded; the in-place methods require them below INT_MAX
- frame bits left unset by malloc: the frames start free
- kernel module registration, `cleanup`, and the insides of user copies: a copy succeeds or faults after any number of bytes
- StoreItem: an item size is a natural number, at most 512
- Kernel::defrag, which copies blocks without the data offset and hard-codes forty blocks and nodes
- Kernel::link, whose append branch overwrites the source node with an empty one, and BreakFilesystem, which damages the image on purpose
- file descriptor tables and `check_fd`, `exit`, `finalize`, errno texts, `strtok`: a path is a sequence of names, one open descriptor at a time changes a file; a command that exits is one that is refused
- GetBlockAddress: does not model file blocks from blockSize/4 to the limit ten further on, whose pointers are read outside the buffer of the indirect block
- SetSlot: the same, written outside the buffer
- ReadBlock: the same ten block numbers
- WriteBlock: the same ten block numbers
- SetFirstIndirect: the same ten block numbers
- GetBlocks: sizes that reach them
- Read: sizes that reach them
- Write: sizes that reach them, and writes that would come to need an indirect block with exactly one block free, after which the descriptor's node has a pointer that is none (`FsDescriptor.LossShows` is the block write that does it)
- WriteDir: those two cases for a directory entry (`CanPut`)
- Insert: the same for the entry creat appends
- MakeEntry: the same
- Creat: the same (`RoomAt`), and names of fourteen characters or more, which are the subject of `StaysInCell`
- Mkdir: the same, link counts at the limit of a short, and more than one path to a boot, because the root node the kernel copied at boot is not refreshed
- Unlink: reads a directory through readdir only where the parent is one; for any other parent the source exits, which is refusal here
- WriteFile: the two cases of Write, and writing to a directory, which Kernel::open does not refuse
- Perform: requests as `Feasible` has them, which excludes what the lines on Creat, Mkdir and WriteFile exclude
- WriteImage: the fields of the super block, which is any block
- Stat, ProcessContext, getters and setters, atime and its kin, and the mains of cat, cp, ls, tee, dump, rm and ln
- owner, group and permission fields: stored and read back, never looked at by the code modelled
