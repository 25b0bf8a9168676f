# Verified models of the xv6 and FAT labs

A Dafny 4.11 project beside the course repository. It models the hard cores of the xv6 kernel and
user library (LAB2) and of the FAT file system (LAB4) and proves what they are for: crash safety,
refinement of flat views, conservation, protocols without lost wakeups, round trips. Check it with
`dafny verify dfyconfig.toml`; every member also fits `--resource-limit 2000000`, with and without
`--warn-contradictory-assumptions`.

Most components come in two layers. A protocol or layout module describes states and steps as
values and proves invariants over every run. A class module holds the fields that the C code
updates in place, and each of its methods is proved to do what the first layer says.

| component | modules |
|---|---|
| write-ahead log | LogProtocol, LogTheorems, Log |
| file writes through the log | LogClient, FilesOnLog, SharedFiles |
| buffer cache | CacheProtocol, BufferCache |
| bitmap, block maps, file contents | FsLayout, FsSteps, FileSystem, FileContent |
| pages, page tables, copies to and from users | PageTree, VirtualMemory, UserCopy |
| K&R allocator | Malloc |
| process table | ProcProtocol, ProcTable |
| virtio disk | VirtioProtocol, VirtioDriver |
| pipes, semaphores, ping-pong | PipeRing, PipeProtocol, Semaphore, PingPong |
| FAT chains and files | FatChains, FatVolume, FatFiles |
| hierarchy tree | SearchTree, Hierarchy, HierarchyTree |
| shell parser, matcher | ShellGrammar, ShellRoundTrip, ShellText, Shell, Grep |
| shared | Basics |

How the layers fit together: FileContent shows that a transaction of filewrite logs at most seven
blocks and changes no other. LogClient runs a list of transactions on the log, and FilesOnLog puts
the two together: the blocks and inodes of a file system become words of the log's disk, and a
filewrite that a crash cuts off leaves whole transactions (FilesOnLog.FilewriteSurvives), which the
next boot reads back as a consistent file system (FilesOnLog.FilewriteReadBack). SharedFiles has any
number of writers at once, whose steps on blocks and inodes interleave: a crash leaves the changes of
whole operations (SharedFiles.SharedSurvives, SharedFiles.SharedReadBack). FileSystem treats
a change of a buffer followed by log_write as a change of the block, which is what CacheProtocol
proves of a cache whose changed buffers are pinned by the log.

Modelling conventions. A region that holds one spinlock is one step. A disk write is atomic. Time,
scheduling, the device and memory contents handed out by the system are arbitrary choices or
parameters. Panics are results, or branches shown not to be taken. Fixed-width arithmetic is
written out where it matters: 32-bit pipe counters and file offsets, 16-bit ring indices, 32-bit
words of an indirect block, 64-bit page table entries as words. "Held" pages and blocks are those
that an operation under way has taken and not yet linked.

## What the code does not do

Properties that fail of the code are stated as exact conditions, with a witness where they fail.

- Operations that really use the MAXOPBLOCKS blocks which begin_op reserves can reach the panic of
  log_write: the log area holds one block less, and fullness is tested before absorption
  (LogTheorems.FullOpsPanic). The panic is unreachable exactly for smaller operations
  (LogTheorems.NoPanicIff).
- bget panics for want of a buffer. It cannot while uses and pins together are fewer than NBUF
  (CacheProtocol.EnoughBuffers), and whatever share of NBUF a group has pinned, as many uses as are
  left reach the panic (CacheProtocol.NotEnoughBuffers). NBUF is LOGSIZE: a full group leaves next
  to nothing for others.
- malloc loses requests above 0x7FFFFFE0 bytes in the int argument of sbrk: if no free block fits, it
  hands out a block that was not obtained (Malloc.Allocator.Malloc, Malloc.ReachesIff). An example is
  0xFFFFFFFF bytes on a fresh heap (Malloc.TooLarge). Or the process is killed at the store to the
  header, when sbrk has given nothing.
- pingpong closes its semaphores after waiting for one child, so the last Pong can be lost
  (PingPong.LastPongCanBeLost). A run is complete exactly when semaphore_ping holds no token when
  it is closed (PingPong.Rally).
- fat_file_truncate does nothing unless the number of clusters shrinks, and keeps one cluster too
  many exactly at positive multiples of the cluster size (FatFiles.TruncateKeepsNeededIff); a volume
  where it does is FatFiles.ExtraClusterStays.
- fat_file_pwrite never adds a cluster, so it is cut at the end of the chain. Everything is written
  exactly when it fits there (FatFiles.Fatfs.Pwrite); FatFiles.WriteIsCut is a file where it
  does not. A write that ends at 2^32 or beyond wraps the size (FatFiles.SizeWraps).
- fat_table_get_next_free_cluster reads on behind the table exactly when the volume is full
  (FatFiles.Fatfs.NextFree); its test for a valid cluster comes too late.
- kill takes pid 0 for that of an unused slot (ProcProtocol.FreeIffPidZero), and the mark stays for
  the process that fork puts there (ProcProtocol.KillsCount).
- sys_sem_open lets the index behind the table through (Semaphore.Table.Open).
- delete_root destroys the tree exactly when the successor is two or more left steps below the right
  child (HierarchyTree.HTree.DeleteEntry); five insertions build a tree where a deletion does
  (HierarchyTree.FiveEntries, HierarchyTree.DeletionLosesTheTree). The children that the node had in
  the hierarchy still name it as their parent. delete_root calls data_destroy twice exactly when the successor
  is not the right child itself (HierarchyTree.HTree.DeleteRoot). The comment on
  remove_child_from_h says that the child's parent is set to NULL; the code leaves it, and so does
  the model.

## Model

| member | source | states |
|---|---|---|
| LogTheorems.CrashAtomicity | LAB2/kernel/log.c:69-123 | Crash at any point of any interleaving and recover, with recovery itself crashed and rerun any number of times: the home blocks are those after some whole number of committed groups, each operation all in or all out |
| LogProtocol.RecoveryMayCrashRepeatedly | LAB2/kernel/log.c:69-123 | A recovery cut off after any write, any number of times, ends with the same disk as one that was never interrupted |
| LogProtocol.InterruptedRecovery | LAB2/kernel/log.c:69-123 | The disk after any part of a recovery recovers to the same home blocks |
| LogProtocol.HeaderWords | LAB2/kernel/log.c:33-116 | The header block is the count and then the block numbers, word by word, what lies behind stays; logged block i is in block 3 + i |
| LogTheorems.HeaderWriteCommits | LAB2/kernel/log.c:194-203 | What recovery would give changes in one step only, the completion of the first write_head of a commit, and then by exactly the writes of the whole current group |
| LogTheorems.CommittedForGood | LAB2/kernel/log.c:194-203 | Committed writes are a prefix of the committed writes of every later state of the run |
| LogTheorems.QuiescentMeansInstalled | LAB2/kernel/log.c:147-203 | With no operation running and no commit under way the home blocks are the committed ones and the list is empty |
| LogTheorems.SleepersAreWoken | LAB2/kernel/log.c:127-175 | Whoever sleeps in begin_op has a committer or a running operation that will wake it |
| LogTheorems.SleepsForAReason | LAB2/kernel/log.c:127-142 | In every run a process goes to sleep in begin_op only while a commit is under way or lh.n + (outstanding + 1) * 10 exceeds 30; in any other running state begin_op adds an operation and no sleeper |
| LogTheorems.RunReserves | LAB2/kernel/log.c:127-175 | Along every run each operation stays within its budget and the reservation account of begin_op balances |
| LogTheorems.ReservationBound | LAB2/kernel/log.c:127-235 | In every reachable state, lh.n plus what the active operations may still log is at most LOGSIZE; logged numbers are distinct; committing implies no operation outstanding |
| LogTheorems.SmallOpsNeverPanic | LAB2/kernel/log.c:215-235 | Operations of at most MAXOPBLOCKS - 1 distinct blocks never reach a panic of log_write, in any run |
| LogTheorems.FullOpsPanic | LAB2/kernel/log.c:215-235 | A run in which operations use the MAXOPBLOCKS blocks that begin_op reserves for and log_write panics: the log holds one block less, and fullness is tested before absorption |
| LogTheorems.NoPanicIff | LAB2/mkfs/mkfs.c:25 | The panics of log_write are unreachable if and only if operations are limited to fewer than MAXOPBLOCKS distinct blocks |
| LogProtocol.StepKeeps | LAB2/kernel/log.c:127-235 | Every step of every operation, of the committer, of a crash and of recovery keeps the invariant (shape, exclusion, no lost wakeup, durability, whole operations) |
| Log.CommitIsAtomic | LAB2/kernel/log.c:179-203 | The images of commit's 2n + 2 writes: recovery gives the old home blocks before the header write and the cached ones from it on |
| Log.ProtocolWritesTheseImages | LAB2/kernel/log.c:179-203 | The steps of the state machine through a commit write exactly the images of the loops of log.c |
| Log.ImagesCrashSafe | LAB2/kernel/log.c:179-203 | At every image of a commit a crash is safe |
| Log.Log.constructor | LAB2/kernel/log.c:55-65 | The log starts empty on a recovered disk |
| Log.Log.BeginOp | LAB2/kernel/log.c:127-142 | Admitted if and only if no commit runs and lh.n + (outstanding + 1) * 10 <= 30; otherwise there is one sleeper more and nothing else changes |
| Log.Log.EndOp | LAB2/kernel/log.c:147-175 | The last operation out starts the commit, and sleepers stay asleep till it is done; any other wakes them all |
| Log.Log.EndCommit | LAB2/kernel/log.c:167-174 | After the commit the log is open again and every sleeper is woken |
| Log.Log.LogWrite | LAB2/kernel/log.c:215-235 | Panics exactly on a full log or outside an operation; else the block is in the list once and pinned once |
| Log.Log.WriteLog | LAB2/kernel/log.c:179-191 | The log area holds the cached blocks in list order and nothing else on the disk changes |
| Log.Log.WriteHead | LAB2/kernel/log.c:103-114 | The header block on disk reads back as the list, by one atomic write |
| Log.Log.InstallTrans | LAB2/kernel/log.c:69-83 | Home blocks of the list become their log copies, in order, one write each |
| Log.Log.ReadHead | LAB2/kernel/log.c:87-97 | The list in memory is the one on disk |
| Log.Log.RecoverFromLog | LAB2/kernel/log.c:117-123 | The disk becomes its recovered form, and at every write in between a crash recovers to it too |
| Log.Log.Commit | LAB2/kernel/log.c:194-203 | All blocks of the group are home and the header is clear; at every write in between a crash is all or nothing |
| FilesOnLog.FilewriteSurvives | LAB2/kernel/file.c:150-172 | Crash a filewrite at any moment, crash its recovery any number of times: the recovered disk is the file system after a whole number of its transactions, the saved ones, and the log never panics |
| FilesOnLog.FilewriteReadBack | LAB2/kernel/file.c:150-172 | After the reboot the file system is consistent, the file holds exactly the bytes of the saved transactions over its old content, and every other file has its own bytes |
| FilesOnLog.AfterReboot | LAB2/kernel/fs.c:41-48 | The home blocks alone determine the inodes, the ownership of every block and the bytes of every file |
| FilesOnLog.ImageTells | LAB2/kernel/fs.h:29-39 | Two file systems with the same home blocks on disk have the same inodes and the same data blocks |
| FilesOnLog.CanIssue | LAB2/kernel/log.c:215-235 | Every filewrite can be issued as operations of the log, each of its blocks once |
| FilesOnLog.IsProgram | LAB2/kernel/file.c:150-158 | The transactions of a filewrite are operations of at most seven home blocks |
| LogClient.WholePartsSurvive | LAB2/kernel/log.c:127-203 | For a process that runs transactions one after the other: whatever crashes, exactly the first saved ones are on the disk |
| LogClient.ReturnedMeansSaved | LAB2/kernel/log.c:147-175 | When end_op has returned and the log is idle, all that the process wrote is saved |
| LogClient.SavedForGood | LAB2/kernel/log.c:194-203 | What is saved stays saved, through crashes too |
| LogClient.NoPanic | LAB2/kernel/log.c:215-235 | Transactions of fewer than MAXOPBLOCKS blocks never meet a panic of the log |
| LogClient.WorldStepKeeps | LAB2/kernel/log.c:127-235 | Each step of the process, of the log and of a crash keeps: the committed writes are those of the saved transactions, and committed and current ones together are all that was issued |
| SharedFiles.SharedSurvives | LAB2/kernel/log.c:69-203 | Any number of operations interleaved block by block, a crash at any moment and in the recovery: what is left is a whole file system with the changes of whole operations only |
| SharedFiles.SharedReadBack | LAB2/kernel/fs.c:41-48 | After the reboot a bitmap bit is set exactly for metadata and referenced blocks, and every file has the bytes and size that the saved changes give |
| SharedFiles.StepKeeps | LAB2/kernel/fs.c:383-539 | Every step of any operation, of the log, of a crash and of recovery keeps ownership, exclusion, the cache as the image of the file system, and the saved part |
| SharedFiles.DoesKeeps | LAB2/kernel/fs.c:66-539 | A step of one operation changes on disk only what it passes to log_write, takes nothing from other operations and shows in the files exactly its own change |
| SharedFiles.IdleMeansSaved | LAB2/kernel/log.c:147-203 | With no operation running and the log idle the disk is the image of the file system |
| SharedFiles.SavedForGood | LAB2/kernel/log.c:194-203 | Saved changes are a prefix of the saved changes of every later state |
| SharedFiles.NoPanic | LAB2/kernel/log.c:215-235 | Overlapping operations of fewer than MAXOPBLOCKS blocks never meet a panic of the log |
| SharedFiles.TwoAtOnce | LAB2/kernel/log.c:127-142 | Two operations are admitted at once and lock two inodes |
| CacheProtocol.StepKeeps | LAB2/kernel/bio.c:59-151 | Every step of bget, the sleep-locks, transfers, pins and brelse keeps: the list is a permutation, at most one buffer per block, reference counts equal uses plus pins, valid buffers that are unlocked and unpinned equal their disk block |
| CacheProtocol.ReadsAgree | LAB2/kernel/bio.c:93-103 | In every run, what the holder of a buffer finds in it is what a store without a cache has for that block |
| CacheProtocol.ReferencedNotRecycled | LAB2/kernel/bio.c:59-89 | No step recycles a buffer that has a user or a pin |
| CacheProtocol.QuietMeansWritten | LAB2/kernel/bio.c:107-151 | With nothing locked and nothing pinned the disk is the store the users know |
| CacheProtocol.GetFailsIff | LAB2/kernel/bio.c:59-89 | bget panics if and only if the block is in no buffer and every buffer is referenced |
| CacheProtocol.EnoughBuffers | LAB2/kernel/bio.c:59-89 | In every run, bget does not panic while uses and pins together are fewer than NBUF |
| CacheProtocol.NotEnoughBuffers | LAB2/kernel/bio.c:59-89 | The bound is sharp: for every n up to NBUF there is a run with n pinned blocks and NBUF - n uses after which bget of one more block panics |
| CacheProtocol.RecycledIsOldest | LAB2/kernel/bio.c:76-88 | The buffer that bget recycles is the last one without references in the list |
| CacheProtocol.RecyclesLeastRecent | LAB2/kernel/bio.c:61-137 | In every run, of all buffers without references bget recycles the one whose count fell to 0 longest ago; those never released come before all others |
| CacheProtocol.OrderIsRelease | LAB2/kernel/bio.c:117-137 | In every run the unreferenced buffers stand in the list by the time of their last release, latest first |
| CacheProtocol.GetMeans | LAB2/kernel/bio.c:61-92 | What bget does to the buffers, without the functions of the model: a hit raises one count, a miss takes over the last unreferenced buffer, invalid |
| CacheProtocol.DropMeans | LAB2/kernel/bio.c:117-137 | What brelse does: one count less, and at 0 the buffer is first and the others keep their order |
| CacheProtocol.MissedMeansAbsent | LAB2/kernel/bio.c:66-74 | When the scan misses, no buffer at all has the block |
| CacheProtocol.ToFrontPermutes | LAB2/kernel/bio.c:125-134 | Moving a buffer to the front keeps the list a permutation of all buffers |
| BufferCache.InsertFront | LAB2/kernel/bio.c:44-52 | The four pointer writes of an insertion behind the head give the ring of the longer list |
| BufferCache.Unlink | LAB2/kernel/bio.c:127-128 | The two pointer writes of an unlinking give the ring of the list without the node |
| BufferCache.MoveToFront | LAB2/kernel/bio.c:125-134 | The six pointer writes of brelse give the ring with the buffer first and the others in their order |
| BufferCache.Bcache.constructor | LAB2/kernel/bio.c:37-53 | binit links all buffers, the last one first |
| BufferCache.Bcache.Cached | LAB2/kernel/bio.c:66-74 | The walk along next finds the buffer of the block, or comes back to the head |
| BufferCache.Bcache.Oldest | LAB2/kernel/bio.c:76-88 | The walk along prev finds the least recently used unreferenced buffer, or comes back to the head |
| BufferCache.Bcache.Bget | LAB2/kernel/bio.c:59-89 | One more reference to the cached buffer, else the recycled one for the block, invalid; None where it panics, and then nothing changed |
| BufferCache.Bcache.Bread | LAB2/kernel/bio.c:93-103 | The buffer is valid afterwards, read from the disk only if it was not |
| BufferCache.Bcache.Brelse | LAB2/kernel/bio.c:117-137 | One reference less; at none the buffer is first in the ring and the others keep their order, otherwise the ring stays |
| BufferCache.Bcache.Bpin | LAB2/kernel/bio.c:140-144 | One reference more and nothing else |
| BufferCache.Bcache.Bunpin | LAB2/kernel/bio.c:147-151 | One reference less and nothing else |
| FsLayout.BitIffReferenced | LAB2/kernel/fs.c:66-105 | Between operations a bitmap bit is set if and only if the block is metadata or is in some slot (direct, indirect entry, indirect block) of some inode |
| FsLayout.ReferencedOnce | LAB2/kernel/fs.c:383-421 | No block is referenced twice among all slots of all inodes |
| FsLayout.BytesLie | LAB2/kernel/fs.c:373-421 | Byte p of a file is byte p % 1024 of the block that the inode names for p < 12288, and else of the one that the little-endian word p / 1024 - 12 of the indirect block names |
| FsLayout.BitsLie | LAB2/kernel/fs.c:64-105 | The bit of block b is bit b % 8 of byte b % 8192 / 8 of bitmap block b / 8192 |
| FsLayout.SetBitAt | LAB2/kernel/fs.c:74-77 | Setting or clearing the bit of a block in its bitmap byte changes the bit of no other block |
| FsLayout.WordPut | LAB2/kernel/fs.c:408-414 | A word put into an indirect block reads back, and the other words are as before |
| FsSteps.WriteData | LAB2/kernel/fs.c:520-528 | Writing a block of a file changes that file at that block only, no other file, no block map and no ownership |
| FsSteps.TakeKeepsOwned | LAB2/kernel/fs.c:74-82 | Marking a free block keeps ownership |
| FsSteps.DropKeepsOwned | LAB2/kernel/fs.c:92-105 | The bit of a block in use is set, and clearing it keeps ownership |
| FsSteps.LinkEntryOwned | LAB2/kernel/fs.c:408-414 | A zeroed block linked into an indirect block keeps ownership and no file shows a difference |
| FsSteps.LinkAddrOwned | LAB2/kernel/fs.c:388-407 | The same for a block linked into the inode, direct or indirect |
| FileSystem.FileSys.constructor | LAB2/mkfs/mkfs.c:234-250 | An empty file system whose set bits are exactly the metadata blocks satisfies the invariant |
| FileSystem.FileSys.Balloc | LAB2/kernel/fs.c:66-88 | The first block whose bit is clear, marked, zeroed and in no file; 0 exactly when no bit is clear |
| FileSystem.FileSys.Bzero | LAB2/kernel/fs.c:51-59 | The block is all zeros and logged |
| FileSystem.FileSys.Bfree | LAB2/kernel/fs.c:92-105 | Panics exactly when the bit is clear; else clears that bit only |
| FileSystem.FileSys.Bmap | LAB2/kernel/fs.c:383-421 | The block of the slot, allocated if need be: no byte of any file changes, no other slot changes, 0 only when the disk is full |
| FileSystem.FileSys.AddrOrAlloc | LAB2/kernel/fs.c:388-407 | The same for a pointer in the inode |
| FileSystem.FileSys.EntryOrAlloc | LAB2/kernel/fs.c:408-416 | The same for an entry of the indirect block |
| FileSystem.FileSys.Itrunc | LAB2/kernel/fs.c:426-453 | A bitmap bit stays set if and only if it was set and its block was in no slot of the inode; "freeing free block" is not reached, and no other file changes |
| FileSystem.FileSys.FreeEntries | LAB2/kernel/fs.c:437-447 | The entries of the indirect block and the block itself are freed, each once |
| FileSystem.FileSys.Iupdate | LAB2/kernel/fs.c:226-241 | The inode on disk is the one in memory |
| FileContent.Writei | LAB2/kernel/fs.c:506-539 | Refused with -1 if and only if off lies beyond the end or off + n beyond 274432, a sum that wraps included; else the content has bytes off.. replaced by the returned prefix, longer if need be, short only on a full disk; no other inode changes, and no block that was not logged |
| FileContent.WriteBlock | LAB2/kernel/fs.c:516-529 | One turn: the piece is in the file, or no block is to be had and no byte changed |
| FileContent.Readi | LAB2/kernel/fs.c:472-496 | Returns the slice of the content, cut at the size; allocates nothing, logs nothing, changes nothing |
| FileContent.ContentWrote | LAB2/kernel/fs.c:506-539 | The file as a byte sequence after a write: replaced in place and extended |
| FileContent.InBlock | LAB2/kernel/fs.c:482-485 | Every position below the size lies in an allocated block |
| FileContent.Transaction | LAB2/kernel/file.c:160-172 | One chunk of filewrite advances the offset by what was written; it logs at most seven blocks, and no block or inode that it did not log has changed |
| FileContent.Filewrite | LAB2/kernel/file.c:135-181 | The content is the old one with the written prefix at the offset; n is returned exactly when all is written; it stops early only on a full disk or at the size limit; every transaction logs at most seven blocks and leaves a consistent file system with a longer prefix written |
| FileContent.ChunkLogsSeven | LAB2/kernel/file.c:150-158 | With one bitmap block, a chunk of 3072 bytes at any alignment logs at most seven distinct blocks |
| VirtualMemory.Kernel.constructor | LAB2/kernel/kalloc.c:27-40 | After kinit every page above the kernel is free and nothing else is |
| VirtualMemory.Kernel.Kalloc | LAB2/kernel/kalloc.c:69-82 | A page that was free, held by the caller alone; 0 exactly when none is free |
| VirtualMemory.Kernel.Kfree | LAB2/kernel/kalloc.c:47-63 | The page is the head of the free list and of no other use |
| VirtualMemory.Kernel.Walk | LAB2/kernel/vm.c:86-103 | Finds the entry of an address; tables made on the way change no translation of any tree; it fails to allocate only with fewer than two free pages, and without alloc changes nothing |
| VirtualMemory.Kernel.WalkAddr | LAB2/kernel/vm.c:109-126 | The frame of a valid user page, else 0 |
| VirtualMemory.Kernel.MapPages | LAB2/kernel/vm.c:143-165 | The touched pages map to consecutive frames with the given flags and every other address of every tree translates as before; on failure a prefix is mapped and memory was short |
| VirtualMemory.Kernel.UvmUnmap | LAB2/kernel/vm.c:171-192 | Exactly the pages of the range lose their entries, their frames are freed or handed back, all else translates as before |
| VirtualMemory.Kernel.UvmCreate | LAB2/kernel/vm.c:197-205 | An empty tree of one page, or 0 with nothing taken |
| VirtualMemory.Kernel.UvmAlloc | LAB2/kernel/vm.c:226-249 | Maps fresh frames of its own for all new pages, every word of them 0, with exactly the flags V, R, U and xperm; or on a shortage none: no new mapping remains and the frames are free again |
| VirtualMemory.Kernel.UvmDealloc | LAB2/kernel/vm.c:256-267 | Unmaps and frees exactly the pages above the new size |
| VirtualMemory.Kernel.FreeWalk | LAB2/kernel/vm.c:272-287 | Frees exactly the table pages below, without the panic on a leaf |
| VirtualMemory.Kernel.UvmFree | LAB2/kernel/vm.c:292-297 | Every frame and table of the tree is free, and no other tree, frame or table changes |
| VirtualMemory.Kernel.UvmCopy | LAB2/kernel/vm.c:306-333 | On success each page of the child has the words and flags of the parent's page, in another frame; on failure no new mapping remains |
| UserCopy.Copyout | LAB2/kernel/vm.c:349-370 | 0 if and only if every address is mapped for the user; the bytes up to the first page that is not there are then those given, and no other byte of any address space changes |
| UserCopy.Copyin | LAB2/kernel/vm.c:375-396 | 0 if and only if every address is mapped for the user; what is returned are the bytes there |
| UserCopy.Copyinstr | LAB2/kernel/vm.c:402-439 | 0 if and only if a string with its NUL is there within the limit; it is that string |
| UserCopy.CopyChars | LAB2/kernel/vm.c:418-432 | The bytes of a page up to a NUL or the limit |
| UserCopy.OutAndIn | LAB2/kernel/vm.c:349-396 | What is copied out can be copied in again, and both fail together |
| UserCopy.GrownReadsZero | LAB2/kernel/vm.c:226-396 | After a successful uvmalloc, copyin from any range of the new pages gives zero bytes only |
| UserCopy.ChildReadsTheSame | LAB2/kernel/vm.c:306-396 | After a successful uvmcopy, copyin from the child gives what copyin from the parent gives |
| UserCopy.PutBytesAt | LAB2/kernel/vm.c:362-363 | memmove into a page changes exactly its bytes |
| UserCopy.NoString | LAB2/kernel/vm.c:402-439 | Without a NUL among the bytes that can be read there is no string |
| PageTree.LeafWriteKeepsTree | LAB2/kernel/vm.c:143-165 | Writing one leaf entry keeps the trees and the partition of pages into free, held, frames and tables |
| PageTree.EntryIs | LAB2/kernel/vm.c:78-103 | The entry of page v is found in three steps of nine bits, 0 where a table is missing |
| PageTree.TableWriteKeepsTree | LAB2/kernel/vm.c:86-103 | Hanging a zeroed table into an interior entry changes no translation and keeps the partition |
| PageTree.PruneKeepsTree | LAB2/kernel/vm.c:272-287 | Cutting off an emptied subtree keeps the trees and the partition |
| PageTree.RootFreed | LAB2/kernel/vm.c:272-297 | Freeing an emptied root page keeps all other trees |
| Malloc.Canonical | LAB2/user/umalloc.c:25-44 | The list is determined by the set of free units: address-ordered and coalesced, so two heaps with the same free memory have the same list and sizes |
| Malloc.FreeKeeps | LAB2/user/umalloc.c:25-44 | free gives back exactly the units of the block, keeps the ordered coalesced cycle and the partition of all memory, and touches no other data |
| Malloc.UnlinkKeeps | LAB2/user/umalloc.c:31-34 | Merging away the next block keeps the cycle |
| Malloc.InsertKeeps | LAB2/user/umalloc.c:35-36 | Linking a block between its neighbours keeps the cycle and its order |
| Malloc.JoinKeeps | LAB2/user/umalloc.c:37-41 | Merging a block with its neighbour keeps the cycle and the units |
| Malloc.CarveKeeps | LAB2/user/umalloc.c:78-83 | Cutting the tail off a free block keeps the invariant and the remaining memory |
| Malloc.ObtainKeeps | LAB2/user/umalloc.c:47-61 | Memory from sbrk, wherever above the heap it lies, becomes an allocated block of its own |
| Malloc.RunInOneBlock | LAB2/user/umalloc.c:25-44 | Free units in a row lie in one free block: no adjacent free blocks |
| Malloc.StalePointer | LAB2/user/umalloc.c:25-44 | The pointer field left in an allocated block does not matter |
| Malloc.Allocator.constructor | LAB2/user/umalloc.c:69-72 | The list starts with the base block alone |
| Malloc.Allocator.Free | LAB2/user/umalloc.c:25-44 | The units of the block are free, all other memory and data as before; freep is the last free block that was below, and the search ends |
| Malloc.Allocator.Locate | LAB2/user/umalloc.c:30-33 | The walk from freep ends between the two neighbours of the block |
| Malloc.Allocator.MoreCore | LAB2/user/umalloc.c:46-60 | sbrk gets the bytes as an int: at least 4096 units are freed into the list, and the break moves by what was really asked; nothing changes when sbrk fails or the store to the header is fatal |
| Malloc.Allocator.Search | LAB2/user/umalloc.c:73-89 | The walk ends: the block cut is the tail of the first fit behind the old freep in cyclic order, and freep is the block before it; or every block was seen, and after sbrk the search goes on from the last one |
| Malloc.Allocator.Malloc | LAB2/user/umalloc.c:64-90 | First fit behind the old freep. The block returned is new, large enough and disjoint from all others, and free and allocated blocks partition what the list accounts for; all of it is memory obtained if and only if a block did fit or the request is at most 0x7FFFFFE0 bytes |
| Malloc.ReachesIff | LAB2/user/umalloc.c:46-60 | A request reaches sbrk unchanged if and only if it is for at most 0x7FFFFFE0 bytes |
| Malloc.AskedIff | LAB2/kernel/sysproc.c:39-50 | n units reach the int argument of sbrk unchanged if and only if their bytes are at most 0x7FFFFFFF; otherwise fewer are asked for |
| Malloc.TooLarge | LAB2/user/umalloc.c:46-60 | malloc of 0xFFFFFFFF bytes on a fresh heap returns a block of 2^28 + 1 units for which sbrk gave one |
| Malloc.Allocator.Store | LAB2/user/umalloc.c:15-22 | What a program stores in its block behind the header keeps the allocator intact |
| Malloc.StoredStays | LAB2/user/umalloc.c:25-90 | What a program stored is still there, and still its own, after it freed another block and asked for one |
| Malloc.FreedIsNext | LAB2/user/umalloc.c:25-90 | A block given back between blocks in use is the one that the next malloc of its size returns, wherever else there is room |
| Malloc.NextIsFreed | LAB2/user/umalloc.c:25-44 | After free, a block that touches no free one stands right behind freep in the list |
| Malloc.GrownCut | LAB2/user/umalloc.c:46-89 | When nothing did fit and sbrk was asked, the block is the end of the new memory |
| ProcProtocol.StepKeeps | LAB2/kernel/proc.c:280-435 | Every step of fork, exit, wait, kill, sleep, the scheduler and each turn of wakeup keeps the invariant of the process table, also between the steps that hold wait_lock |
| ProcProtocol.NobodyIsOrphaned | LAB2/kernel/proc.c:331-386 | In every reachable state each living or zombie process but initproc has a parent that is alive |
| ProcProtocol.WaitersAreWoken | LAB2/kernel/proc.c:331-435 | A process asleep in wait has a child that is alive, and no zombie child; initproc may have been given children only by an exit whose wakeup is on its way |
| ProcProtocol.AdoptersWake | LAB2/kernel/proc.c:331-341 | That exit runs, holds wait_lock and makes initproc runnable at its next turn |
| ProcProtocol.ReapedOnceWithItsStatus | LAB2/kernel/proc.c:347-435 | Each exited process is reaped at most once, with the status it passed to exit |
| ProcProtocol.OneHolder | LAB2/kernel/proc.c:347-435 | At most one process is inside the parts of exit and wait that hold wait_lock |
| ProcProtocol.KilledForGood | LAB2/kernel/proc.c:155-174 | In every run, who is killed stays killed until wait has reaped it and its pid is gone |
| ProcProtocol.FreeIffPidZero | LAB2/kernel/proc.c:586-604 | In every run a slot is unused if and only if its pid is 0: kill(0) marks a slot that nobody uses, kill of any other pid a process |
| ProcProtocol.KillsCount | LAB2/kernel/proc.c:586-604 | kill marks one process and ends its sleep; who is marked does not sleep in wait after its scan; fork leaves the mark that kill(0) put on a free slot |
| ProcTable.ReparentedIs | LAB2/kernel/proc.c:331-341 | What the loop comes to: exactly the caller's children go to initproc, which is woken if there are any |
| ProcTable.WakeTurnsAre | LAB2/kernel/proc.c:567-580 | The turns of the loop of wakeup together make exactly the sleepers on the channel but the caller runnable |
| ProcTable.Table.constructor | LAB2/kernel/proc.c:48-59 | All slots are unused |
| ProcTable.Table.Wakeup | LAB2/kernel/proc.c:567-580 | Exactly the sleepers on the channel, other than the caller, become runnable |
| ProcTable.Table.Reparent | LAB2/kernel/proc.c:331-341 | Exactly the children of p have initproc as parent; if there are any, it is runnable where it slept in wait; nothing else changes |
| ProcTable.Table.Allocproc | LAB2/kernel/proc.c:110-150 | The first unused slot has the next pid and is USED, no other changes; it is free again when memory is short; None exactly when there is none or no memory |
| ProcTable.Table.Kill | LAB2/kernel/proc.c:586-604 | The first slot with the pid has killed set and is RUNNABLE if it slept, all else as before; -1 exactly when there is no such slot |
| ProcTable.Table.WaitPass | LAB2/kernel/proc.c:400-433 | Frees the first zombie child and returns its pid and status; without one gives up when there are no children or the caller is killed; else sleeps on itself |
| VirtioProtocol.StepKeeps | LAB2/kernel/virtio_disk.c:157-327 | Every step of callers, interrupt handler and device keeps: descriptors are free or in exactly one three-element chain, each chain says what its caller wished, no lost wakeup, each request done once |
| VirtioProtocol.RequestsCompleteOnce | LAB2/kernel/virtio_disk.c:216-327 | In every run no panic of the driver is reached, and each finished request was carried out by the device exactly once, on its own buffer, block and direction |
| VirtioProtocol.StatusTells | LAB2/kernel/virtio_disk.c:252-327 | In every run the status byte of a request is 0 if and only if the device has carried it out |
| VirtioProtocol.StarvedAreFed | LAB2/kernel/virtio_disk.c:216-236 | Whoever sleeps for descriptors has a request under way whose end wakes it |
| VirtioProtocol.ReadsTheWish | LAB2/kernel/virtio_disk.c:238-268 | Following the chain, the device finds lengths 16, 1024 and 1, the caller's request, a block that it writes exactly if the caller reads, and the status byte |
| VirtioProtocol.FinishFrees | LAB2/kernel/virtio_disk.c:284-291 | The end of a request meets none of the panics of free_desc and frees exactly its three descriptors |
| VirtioProtocol.ThreeIffThreeFree | LAB2/kernel/virtio_disk.c:202-213 | alloc3_desc succeeds if and only if three descriptors are free |
| VirtioDriver.AvailHasRoom | LAB2/kernel/virtio_disk.c:270-277 | Whenever three descriptors are free the available ring has room |
| VirtioDriver.UsedHasRoom | LAB2/kernel/virtio_disk.c:309-324 | The device cannot overrun the used ring |
| VirtioDriver.FreesThree | LAB2/kernel/virtio_disk.c:186-197 | On the chain of a finished request the loop of free_chain is the Finish step of the protocol |
| VirtioDriver.Disk.constructor | LAB2/kernel/virtio_disk.c:129-146 | All descriptors free, both rings empty |
| VirtioDriver.Disk.AllocDesc | LAB2/kernel/virtio_disk.c:157-166 | Takes the lowest free descriptor, -1 exactly when there is none |
| VirtioDriver.Disk.FreeOne | LAB2/kernel/virtio_disk.c:170-182 | Panics exactly on a bad index or a free descriptor; else clears and frees this one |
| VirtioDriver.Disk.FreeChain | LAB2/kernel/virtio_disk.c:186-197 | Ends on every memory contents; frees what the chain names, panicking exactly where free_desc does |
| VirtioDriver.Disk.Alloc3Desc | LAB2/kernel/virtio_disk.c:202-213 | The three lowest free descriptors; on failure the free set and the descriptors are as before |
| VirtioDriver.Disk.StartRequest | LAB2/kernel/virtio_disk.c:216-277 | Without three descriptors nothing changes; else the chain is formatted, the buffer marked and the head appended to the available queue |
| VirtioDriver.Disk.Interrupt | LAB2/kernel/virtio_disk.c:295-327 | Empties the used queue and releases exactly the buffers of its requests, unless some status is not 0 |
| VirtioDriver.Disk.FinishRequest | LAB2/kernel/virtio_disk.c:284-291 | Clears the note and frees the chain |
| PipeProtocol.Stream | LAB2/kernel/pipe.c:77-130 | In every run the bytes read are a prefix of the bytes written, at most 512 behind; a sleeping reader means empty and write end open, a sleeping writer full and read end open |
| PipeProtocol.CallsInOrder | LAB2/kernel/pipe.c:77-103 | In every run, whoever else writes, the bytes of each write in the stream are in order the first part of its buffer, as far as it has come, and all of it once it returned complete |
| PipeProtocol.OneWriter | LAB2/kernel/pipe.c:77-103 | With one write in the run the stream is its buffer as far as it has come |
| PipeProtocol.BrokenMeansClosed | LAB2/kernel/pipe.c:82-87 | A write returns incomplete only when the read end is closed |
| PipeProtocol.ReadsAreTheStream | LAB2/kernel/pipe.c:106-130 | What the reads returned, one after the other, is what was taken from the stream, none more than it asked for |
| PipeProtocol.ReadTakesAll | LAB2/kernel/pipe.c:117-129 | A read that returns takes min(n, what is there) bytes |
| PipeProtocol.HistoryGrows | LAB2/kernel/pipe.c:77-130 | Bytes are neither lost nor reordered between any two moments of a run |
| PipeProtocol.EndOfFile | LAB2/kernel/pipe.c:106-130 | A read of n > 0 bytes returns none if and only if the write end is closed and all is read |
| PipeProtocol.StepKeeps | LAB2/kernel/pipe.c:59-130 | Every step of writers, readers and closers keeps the invariant |
| PipeRing.FullMeansFull | LAB2/kernel/pipe.c:88-91 | The test nwrite == nread + PIPESIZE on wrapping counters holds exactly when 512 bytes are unread |
| PipeRing.Appended | LAB2/kernel/pipe.c:91-96 | Storing at nwrite++ % PIPESIZE appends to the unread bytes, across the wrap of the counters |
| PipeRing.Taken | LAB2/kernel/pipe.c:119-124 | Reading at nread++ % PIPESIZE takes the oldest byte, across the wrap |
| PipeRing.Pipe.constructor | LAB2/kernel/pipe.c:23-56 | Empty, both ends open |
| PipeRing.Pipe.Write | LAB2/kernel/pipe.c:77-103 | Appends as many bytes as fit, and ends asleep, done or broken accordingly |
| PipeRing.Pipe.Read | LAB2/kernel/pipe.c:106-130 | Sleeps exactly when empty with the write end open; else takes min(n, unread) bytes from the front |
| PipeRing.Pipe.Close | LAB2/kernel/pipe.c:59-74 | Closes one end, keeps the bytes, frees exactly when both ends are closed |
| Semaphore.Balance | LAB2/kernel/sysproc.c:159-199 | In every run a value is initial plus ups minus completed downs, never negative, and a sleeper on a semaphore means value 0 |
| Semaphore.Table.constructor | LAB2/kernel/sysproc.c:97-105 | All semaphores closed |
| Semaphore.Table.Open | LAB2/kernel/sysproc.c:107-139 | Refused out of range or when open; only a closed semaphore takes the new value; index MAX_SEMAPHORES passes the range test and lies outside the table |
| Semaphore.Table.Close | LAB2/kernel/sysproc.c:142-156 | Only an open one is reset |
| Semaphore.Table.SemUp | LAB2/kernel/sysproc.c:159-176 | One more, and sleepers woken if it was 0 |
| Semaphore.Table.SemDown | LAB2/kernel/sysproc.c:179-199 | One less, or asleep on 0 |
| PingPong.Rally | LAB2/user/pingpong.c:8-105 | Every run prints strict Ping, Pong alternation and is over after a bounded number of steps; it is complete if and only if semaphore_ping was not closed with a token in it |
| PingPong.NoDeadlock | LAB2/user/pingpong.c:8-62 | Until the semaphores are closed some child can always move |
| PingPong.LastPongCanBeLost | LAB2/user/pingpong.c:90-102 | The parent waits for one child only, so a run exists that loses the last Pong |
| FatChains.TrailIsReachable | LAB4/esqueleto/fat_file.c:30-36 | On every table, cyclic or not, the freeing loop visits exactly the clusters reachable from its start |
| FatChains.ChainsApart | LAB4/esqueleto/fat_table.c:16-27 | No chain meets itself or another |
| FatChains.TrailInChain | LAB4/esqueleto/fat_file.c:30-36 | On a chain the loop visits its clusters in order, each once |
| FatChains.UnlinkKeeps | LAB4/esqueleto/fat_file.c:25-40 | Freeing a file's chain leaves every other chain linked, disjoint and acyclic |
| FatChains.CutKeeps | LAB4/esqueleto/fat_file.c:508-524 | Ending a chain at a cluster and freeing the rest keeps its first part and every other chain |
| FatChains.TakeKeeps | LAB4/esqueleto/fat_file.c:197-226 | A free cluster as a new chain keeps the volume |
| FatVolume.ClustersForLeast | LAB4/esqueleto/fat_table.c:46-49 | The least number of clusters that hold a size |
| FatVolume.ContentWrote | LAB4/esqueleto/fat_file.c:533-584 | The file as a byte sequence after a write: replaced in place and extended |
| FatFiles.Fatfs.GetNext | LAB4/esqueleto/fat_table.c:16-27 | The next cluster, or the end for every value out of range |
| FatFiles.Fatfs.NextFree | LAB4/esqueleto/fat_table.c:51-67 | The least free cluster; none exactly on a full volume, where the loop reads on behind the table |
| FatFiles.Fatfs.Seek | LAB4/esqueleto/fat_table.c:94-106 | The cluster offset >> order links on; EOVERFLOW exactly when the chain ends before |
| FatFiles.Fatfs.FreeFrom | LAB4/esqueleto/fat_file.c:30-36 | Ends on every table and frees exactly what is reachable |
| FatFiles.Fatfs.Unlink | LAB4/esqueleto/fat_file.c:25-40 | Exactly the file's clusters become free |
| FatFiles.Fatfs.Init | LAB4/esqueleto/fat_file.c:197-226 | The least free cluster becomes a new chain of one cluster; nothing changes on a full volume |
| FatFiles.Fatfs.constructor | LAB4/esqueleto/fat_volume.c:246-290 | An empty volume satisfies the invariant |
| FatFiles.Fatfs.Mount | LAB4/esqueleto/fat_volume.c:246-290 | A volume whose table holds these chains can be mounted |
| FatFiles.OneFile | LAB4/esqueleto/fat_volume.c:246-290 | A volume all taken by one file of any number of clusters and any size that fits |
| FatFiles.Fatfs.Truncate | LAB4/esqueleto/fat_file.c:488-531 | Nothing at all unless the number of clusters shrinks; then the first (offset >> order) + 1 clusters stay, the rest is free, the size is offset and the kept bytes are unchanged |
| FatFiles.TruncateKeepsNeededIff | LAB4/esqueleto/fat_file.c:492-513 | It keeps as many clusters as needed if and only if the offset is 0 or not a multiple of the cluster size; else exactly one too many |
| FatFiles.ExtraClusterStays | LAB4/esqueleto/fat_file.c:488-524 | A file of three full clusters, truncated to the size of one, keeps two |
| FatFiles.Fatfs.Pread | LAB4/esqueleto/fat_file.c:446-486 | The slice of the content, cut at the size |
| FatFiles.Fatfs.Pwrite | LAB4/esqueleto/fat_file.c:533-584 | What fits the clusters already in the chain is written, everything exactly when the write ends within them; the content is the old one overwritten if and only if the write ends below 2^32, else cut by the wrapped size |
| FatFiles.WriteIsCut | LAB4/esqueleto/fat_file.c:533-584 | A write of 513 bytes to a new file with clusters of 512 writes 512 |
| FatFiles.SizeWraps | LAB4/esqueleto/fat_file.c:572-576 | The last byte of a file of 2^17 clusters with 32768 bytes each is written, and the size becomes 0 |
| FatFiles.OthersUnchanged | LAB4/esqueleto/fat_file.c:533-584 | A write to one file is invisible in every other |
| FatFiles.SeekInChain | LAB4/esqueleto/fat_table.c:94-106 | Seeking on a file's chain gives its k-th cluster, and the end without error right behind the last |
| SearchTree.FindIs | LAB4/esqueleto/hierarchy_tree.c:102-119 | In an ordered tree the search finds the node with the key wherever it is |
| SearchTree.InsertedInOrder | LAB4/esqueleto/hierarchy_tree.c:126-145 | Insertion adds the new node at one place of the order and changes nothing else, or nothing at all if the data is there |
| SearchTree.Replanted | LAB4/esqueleto/hierarchy_tree.c:126-145 | Inserting the flattened data one after the other builds the same tree again |
| SearchTree.PreOrderSlots | LAB4/esqueleto/hierarchy_tree.c:261-269 | Flattened, the root comes first, then as many smaller data as the left part has, then the greater ones |
| SearchTree.DeletedInOrder | LAB4/esqueleto/hierarchy_tree.c:220-241 | Deletion takes exactly the node with the key out of the order |
| SearchTree.DeletedOrdered | LAB4/esqueleto/hierarchy_tree.c:220-241 | Search order and distinctness survive a deletion |
| SearchTree.LoopedIsNoTree | LAB4/esqueleto/hierarchy_tree.c:204-216 | Pointers with a loop through left steps form no tree |
| SearchTree.LiftShape | LAB4/esqueleto/hierarchy_tree.c:204-216 | Where the successor is one left step down, the pointers after delete_root form the tree without the root, with exact sizes |
| Hierarchy.AddsKeeps | LAB4/esqueleto/hierarchy_tree.c:46-63 | A new node is the first child of its parent; every other list of children stays |
| Hierarchy.UnlinksKeeps | LAB4/esqueleto/hierarchy_tree.c:164-183 | Removing a node leaves every other list of children exact; only its own children still name it |
| Hierarchy.HierIff | LAB4/esqueleto/hierarchy_tree.c:164-183 | When a node is gone, the rest is a hierarchy if and only if it had no children |
| HierarchyTree.InsertKeepsSound | LAB4/esqueleto/hierarchy_tree.c:126-145 | Insertion keeps both structures: ordered tree with exact sizes, and children newest first |
| HierarchyTree.HTree.constructor | LAB4/esqueleto/hierarchy_tree.c:46-63 | No node yet |
| HierarchyTree.HTree.NodeInit | LAB4/esqueleto/hierarchy_tree.c:46-63 | The node is new and the first child of its parent |
| HierarchyTree.HTree.Search | LAB4/esqueleto/hierarchy_tree.c:102-119 | Returns the node that FindIs speaks of, or NULL |
| HierarchyTree.HTree.Insert | LAB4/esqueleto/hierarchy_tree.c:126-145 | The pointers form the tree with the insertion, sizes exact; other nodes keep everything but their first child |
| HierarchyTree.HTree.SwapNodes | LAB4/esqueleto/hierarchy_tree.c:149-159 | The two nodes change places, with their sizes recomputed |
| HierarchyTree.HTree.RemoveChild | LAB4/esqueleto/hierarchy_tree.c:164-183 | The node is out of its parent's list and nothing else changes |
| HierarchyTree.HTree.DeleteRoot | LAB4/esqueleto/hierarchy_tree.c:185-217 | The tree without its root, or no tree in the deep case; the data is destroyed twice exactly when the successor is not the right child |
| HierarchyTree.HTree.Delete | LAB4/esqueleto/hierarchy_tree.c:220-241 | The same for the node found from any root; nothing changes if the key is absent; in the hierarchy every list stays exact, and children of the node keep naming it |
| HierarchyTree.HTree.DeleteEntry | LAB4/esqueleto/hierarchy_tree.c:185-241 | Deletion leaves a tree if and only if the node does not have two children with a successor two or more left steps below its right child; then both structures hold if and only if the node had no children in the hierarchy |
| HierarchyTree.HTree.InsertEntry | LAB4/esqueleto/hierarchy_tree.c:126-145 | An insertion keeps both structures; the node is first among its siblings in the hierarchy |
| HierarchyTree.FiveEntries | LAB4/esqueleto/hierarchy_tree.c:126-145 | Five insertions build the tree of their five keys |
| HierarchyTree.DeletionLosesTheTree | LAB4/esqueleto/hierarchy_tree.c:209-215 | From a heap with these five entries the deletion of the root, a deep node, leaves no tree |
| HierarchyTree.HTree.FlattenPreorder | LAB4/esqueleto/hierarchy_tree.c:261-269 | The node's data is in the first slot, the smaller data fill the next Count(left) slots and the greater ones those behind; exactly size slots are filled, and no other |
| HierarchyTree.HTree.FlattenChildren | LAB4/esqueleto/hierarchy_tree.c:271-282 | The children in list order, then NULL, and no other slot |
| ShellRoundTrip.ParseRebuilds | LAB2/user/sh.c:329-447 | parsecmd on the fully parenthesised text of any command tree, with words free of blanks and symbols and at most nine of them in a command, rebuilds exactly that tree |
| ShellRoundTrip.LineAt | LAB2/user/sh.c:346-360 | The same for a text inside any line, ending where it ends |
| ShellText.TypedIff | LAB2/user/sh.c:329-447 | parsecmd accepts a line if and only if it spells, with any blanks, a text of the grammar: words and redirections in any mix, pipes, &, ; and parentheses, at most nine words a command; and it builds what the text means, the last redirection outermost |
| ShellText.ParseTyped | LAB2/user/sh.c:329-447 | Every line that spells a text of the grammar is parsed to its meaning, with every word and every redirection in its place |
| ShellText.TypedIsSeen | LAB2/user/sh.c:329-494 | After nulterminate the C strings that the command points to are the words and files that were typed |
| ShellText.OutputToFile | LAB2/user/sh.c:376-447 | "a > f b" is parsed to the command a b with its output to f |
| Shell.EachWordIsItsString | LAB2/user/sh.c:451-494 | For every line that parses, each word of the command is a C string of the buffer afterwards, equal to its token; none is damaged |
| ShellGrammar.LineGood | LAB2/user/sh.c:346-447 | Every word of a parsed command is a maximal run of word characters of the line, at most nine in a command |
| Shell.Parser.GetTok | LAB2/user/sh.c:267-309 | The next token of the line and the place behind it |
| Shell.Parser.constructor | LAB2/user/sh.c:329-336 | A buffer that holds the line |
| Shell.Parser.PeekFor | LAB2/user/sh.c:312-321 | Whether the next character that is not blank is one of these |
| Shell.Parser.ParseRedirs | LAB2/user/sh.c:376-398 | All redirections in a row; fails exactly where a file is missing |
| Shell.Parser.ParseExecs | LAB2/user/sh.c:417-447 | Ends on every line with the command of the grammar, which ShellText.TypedIff pins down, or where the code panics |
| Shell.Parser.ParseBlocks | LAB2/user/sh.c:401-414 | The same for a command in parentheses |
| Shell.Parser.ParsePipes | LAB2/user/sh.c:363-373 | The same for pipes |
| Shell.Parser.ParseLines | LAB2/user/sh.c:346-360 | The same for lists and background commands |
| Shell.Parser.Nulterminate | LAB2/user/sh.c:451-494 | Writes NUL at the end of every word and nowhere else |
| Shell.Parser.ParseCmds | LAB2/user/sh.c:329-343 | Parses the line and terminates its words; on a syntax error the buffer is untouched |
| Grep.Match | LAB2/user/grep.c:72-81 | True if and only if some suffix of the text (the text itself after ^) has a prefix in the language of the pattern |
| Grep.MatchHere | LAB2/user/grep.c:84-95 | True if and only if the text has a prefix in the language of the pattern, the whole text with a final $ |
| Grep.MatchStar | LAB2/user/grep.c:98-105 | True if and only if the text splits into a run of the starred character and a rest that matches |
| Grep.HereStep | LAB2/user/grep.c:84-95 | The meaning of a pattern in terms of its first token and the rest |
| Grep.PlainStep | LAB2/user/grep.c:84-95 | A character without * takes one of the text, . any, and the rest matches behind |
| Grep.StarStep | LAB2/user/grep.c:98-105 | A starred character takes none, or one and then perhaps more |
| Grep.LongerText | LAB2/user/grep.c:72-105 | A pattern without $ that matches a text matches every longer text |

## Left out

- UserCopy.Copyout: memmove is one change of the page; readi, writei and pipes take the copy to and from user memory as successful.
- Kernel page tables, devices, traps, assembly, spinlock and sleep-lock internals: a locked region is one step.
- Log.Log.LogWrite: changing the buffer and log_write are one step; CacheProtocol has the buffer's side with separate steps.
- Inode allocation, reference counts in the inode table, directories and path names (LAB2/kernel/fs.c:199-370, 544-697): the file layer starts from an inode that the caller holds locked.
- FileSystem.FileSys.Iupdate: inodes on disk are records, not bytes of an inode block; type, device and link fields are not modelled.
- FileSystem.FileSys.constructor: mkfs also writes a root directory and programs; here the new file system is empty.
- Offsets and sizes of xv6 files stay below 2^32 by their types, and the 32-bit additions of writei and readi are modelled.
- FsLayout.GeoOk: a file system has at most 2^31 - 8192 blocks, which balloc can count with an int; block numbers of disk requests are below 2^31 for the same reason (VirtioProtocol.BlockNo).
- FileContent.Filewrite: nobody else changes the inode or the offset between two transactions, where the code holds no lock; the branches for pipes and devices are not modelled.
- FilesOnLog.FilewriteSurvives: the writing process has the log to itself, and so in FilesOnLog.FilewriteReadBack and LogClient.WholePartsSurvive; SharedFiles has the others, without what filewrite returns.
- SharedFiles.SharedSurvives: operations add and overwrite; freeing blocks, as itrunc does, is not among the steps, and how far writei gets is not followed.
- FilesOnLog.Image: the type, device and link fields of an inode are 0 on disk.
- VirtualMemory.Kernel.UvmCopy: the panics on missing mappings are preconditions, as are those of uvmunmap and mappages.
- VirtualMemory.Kernel.FreeWalk: requires that no leaf mapping is left, where the code panics.
- Malloc.Allocator.Malloc: other uses of sbrk move the break up by any gap, in units of 16 bytes; a failing sbrk is a parameter. After a request that was cut, nothing more is promised of the next one. No free block reaches 2^32 units.
- ProcProtocol.StepKeeps: pids do not overflow, and what fork copies besides the process table is not modelled.
- PipeProtocol.Stream: no reader or writer is killed; pipewrite returns without a wakeup then.
- Semaphore.Table.Open: what is written behind the table for index 100 is not modelled. The call sets up the lock of a live semaphore again, which a model without lock internals does not show.
- Semaphore.Table.Close, SemUp and SemDown: the index is in range; the code leaves the test to the caller.
- Semaphore.Balance: the value does not overflow 32 bits.
- VirtioProtocol.StepKeeps: the device carries out every request with status 0; a nonzero status panics in virtio_disk_intr.
- VirtioDriver.Disk.Interrupt: entries that the device adds while the handler runs are seen by its next call.
- FatFiles.Fatfs.NextFree: on a full volume, what the loop finds behind the table is not modelled.
- FatFiles.Fatfs.FreeFrom: writes of the table to the volume succeed; a failing write leaves the entry and the loop need not end on a cyclic table.
- FatFiles.Fatfs.Pwrite: cluster bytes are modelled by cluster, not by their offset in the volume; times and directory entries are left out.
- HierarchyTree.HTree.Insert: data is never NULL and the comparison is that of numbers; node memory is never exhausted and never reused.
- h_tree_destroy frees every node, and the two iterators of the hierarchy tree call a function on each; they change no pointer and are not modelled.
- Shell.Parser.ParseCmds: commands are values with word positions instead of allocated structures; runcmd is not modelled.
- grep's buffering of lines (LAB2/user/grep.c:11-34) and everything in LAB1 and LAB3; LAB3's copies of these files are the same code.
