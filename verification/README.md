# xv6 in Dafny

A model of the hard core of this xv6 kernel (x86, with a ticket lock added) and of the user programs `sh`, `grep` and `mkfs`, and proofs of what that code is for.

Concurrent parts are step systems: a step is one critical section, one disk block write or one interrupt, theorems hold for every run of every length, and constants such as NPROC, NBUF, LOGSIZE and the disk size are parameters. Code that loops over mutable structures is also written as Dafny classes and methods over the same fields, arrays and link pointers, and each method is proved to take exactly the steps of the step system or to meet a specification given by functions on the old state.

| modules | source | subject |
|---|---|---|
| Log, LogInvariant, LogTheorems, LogRegion, LogTrace, LogCode | log.c, bio.c | redo log with group commit, crashes and recovery |
| BufferCache | bio.c | the linked list of buffers, reference counts, choice of victim |
| CacheLog | bio.c, log.c | the buffers under the log: recycling a buffer is evicting its block |
| Ide, IdeCode | ide.c, memide.c | the interrupt-driven disk queue against the synchronous disk |
| Fs, FsEffects, FsCode, FileCode | fs.c, file.c | free map, direct and indirect blocks, files as byte sequences |
| FileCrash | file.c, log.c | the file system on the log: a crash in the middle of a write |
| Directory, DirectoryCode | fs.c, sysfile.c | directories as finite maps, path names |
| Mkfs | mkfs.c | the initial image |
| Heap, HeapCode | umalloc.c | the allocator of user programs |
| Vm, VmEffects, VmCode, KallocCode | vm.c, kalloc.c, proc.c | two-level page tables, page conservation |
| TicketLock, TicketLockCode | ticket_lock.c, proc.c | ticket lock over sleep, wakeup and kill |
| Proc, ProcInvariant, ProcTheorems, ProcCode | proc.c | process table: fork, exit, wait, kill, scheduling |
| Pipe, PipeCalls, PipeCode | pipe.c | ring buffer with wrapping counters, and what its callers see |
| Shell, ShellGrammar, ShellDerives, ShellRoundTrip, ShellSpans, ShellCode | sh.c | command-line parser and the language it accepts |
| Grep | grep.c | regular-expression matcher |

`dafny verify dfyconfig.toml` checks everything.

## Where the code does less than one would expect

The model follows the code as it is. Where an expected property fails, the exact condition under which it holds is proved.

- **Log region.** `log_write` tests the room left before it takes the log's lock (log.c:218-221), and mkfs gives the log LOGSIZE blocks including its header (mkfs.c:25, mkfs.c:100). Two operations can pass the test on the last slot together, and `write_log` then copies a block over the first block after the region, before anything is committed. With LOGSIZE = 3 * MAXOPBLOCKS, recovery after a crash gives exactly the committed groups in every run if and only if the region has more than LOGSIZE blocks or no data block at all (`LogRegion.AtomicIff`, `LogRegion.RegionSafeIff`); the layout of mkfs is a concrete failing one (`LogRegion.MkfsLayoutOverrun`). When each test is followed at once by its append, no layout fails (`LogRegion.SerialRunsFit`).
- **Pipe and kill.** A killed writer that fills the pipe returns without waking the reader (pipe.c:87-90). That stretch, and no other step, leads from a state without lost wakeups to one with a lost wakeup (`Pipe.LosesWakeupIff`; a concrete run is `Pipe.KillLosesWakeup`).
- **Kill of a free entry.** `kill` looks at entries whatever their state, and `allocproc` does not clear `killed`, so a child can be born killed (`ProcTheorems.KillZeroMarksNewborn`). `ProcTheorems.CleanIff` says exactly which steps mark a free entry.
- **A read that allocates.** `readi` fills the holes it meets. It changes nothing if and only if every block of the clipped range is there (`FsCode.FileSystem.Readi`), and `fileread`, which starts no operation, panics with none in progress if and only if one is missing (`FileCode.File.Read`).
- **Stale disk inode.** `readi` never writes the inode through, so the disk inode is out of date after it if and only if an address it needed in the inode was missing (`FsEffects.ReadCurrentIff`). `writei` writes the inode through only when the file grows (fs.c:508-511). The disk inode is out of date afterwards if and only if the write stayed inside the file and one of the addresses it needed in the inode was missing (`FsEffects.DiskInodeCurrentIff`). Files without holes never are, and `writei` leaves files without holes without holes; mkfs rounds the root directory up and leaves a hole in it if and only if its size was a multiple of the block size (`Mkfs.RootHole`). With 32 entries that is so, and every read or write of an entry behind them leaves the root's disk inode out of date (`Mkfs.RootGoesStale`).
- **allocuvm** panics on a page that is mapped already if and only if memory lasts up to that page (`VmCode.Memory.Allocuvm`). Its rollback restores the user map if and only if nothing was mapped in the range before (`VmEffects.ClearedRestoresIff`). `growproc` refuses to shrink a process to size 0 after its pages are gone.
- **malloc's size** wraps around exactly when nbytes + 7 reaches 2^32 (`HeapCode.RoomIff`), and from 2^28 units on, the argument of `sbrk` is not positive (`HeapCode.SbrkArgumentIff`), so that no memory comes however it answers.
- **readi** fails when off + n wraps around, and does not clip in that case.
- In sh.c `>>` opens its file as `>` does, so the parsed tree does not distinguish them.
- mkfs does not check that the inode blocks and the image have room, and stops when the blocks in use do not fit one map block; `Mkfs.Build` answers false only in these cases and for files that are too long.
- `dirlink` cuts inode numbers to 16 bits; a number whose low bits are zero makes a free entry (`Directory.LinkNothing`).

## Model

| member | source | states |
|---|---|---|
| `LogTheorems.CrashAtomicity` | log.c:69-202 | For every run with crashes anywhere, also during commit and recovery: recovering the disk as it is now gives, on all home blocks, exactly the committed groups applied in order to the initial disk; with no commit running the home blocks already are that. |
| `LogTheorems.CommitPoint` | log.c:102-113 | What a crash would recover to changes only at the write of a non-empty header, which adds exactly the open group; no other step changes it. |
| `LogTheorems.NoOperationSplit` | log.c:125-202 | In every run an operation with one block in a committed group has all its log_writes in that group and none in any other. |
| `LogTheorems.HomeWrites` | log.c:69-82 | No step except installing a logged block changes a home block on disk. |
| `LogTheorems.LoggedNotRecycled` | bio.c:78-91 | A logged block stays in the cache, dirty, through every step until it is installed or the machine crashes. |
| `LogTheorems.CacheAgrees` | bio.c:61-116 | In every run an unlocked buffer that is not dirty holds exactly what its disk block holds, and is not a block waiting for a commit. |
| `LogTheorems.Reservation` | log.c:125-141 | In every run the logged blocks plus the unused reservations of all operations in progress stay within LOGSIZE, and the logged block numbers are distinct. |
| `LogTheorems.NoLostWakeup` | log.c:125-174 | In every run whoever sleeps in begin_op still has to wait: no wakeup is missed. |
| `LogTheorems.RecoveredIsDurable` | log.c:116-122 | From the invariant: replaying the header's slots in order yields the committed groups, although slots and home blocks share one disk. |
| `LogInvariant.StepKeeps` | log.c:69-233 | Every step of every process, of the committing thread, of a crash and of recovery keeps the invariant tying disk, header, cache, open group and history together. |
| `LogRegion.AtomicIff` | log.c:214-233 | Crash atomicity holds in all runs from an initial state if and only if the log region has more than LOGSIZE blocks or no room for data, given LOGSIZE = 3 * MAXOPBLOCKS and as many blocks behind the region as in it. |
| `LogRegion.TornRun` | log.c:178-190 | Otherwise there is a run after which a crash leaves a home block with contents no committed group gave it. |
| `LogRegion.RegionSafeIff` | log.c:214-233 | The logged blocks fit the log region in every state of every run under the same condition and no other. |
| `LogRegion.Overrun` | log.c:214-233 | Two operations that test the last slot before either appends overrun the region. |
| `LogRegion.MkfsLayoutOverrun` | mkfs.c:23-27 | The layout mkfs writes (1000 blocks, log of 30 at block 2) allows an overrun and a crash that is not atomic. |
| `LogRegion.SerialRunsFit` | log.c:218-231 | If every test is followed at once by its append, the region is never overrun, whatever its size. |
| `LogTrace.CommittedPrefix` | log.c:126-202 | In every run without a crash of operations that follow each other, the committed groups are exactly the log_writes of the first m operations, whole, and operation m is the last one that has begun. |
| `LogTrace.SequentialFits` | log.c:214-233 | Such runs never overrun the log region, whatever its size. |
| `LogTrace.CrashBetweenOperations` | log.c:69-202 | A crash at any point of such a run recovers to the disk after the first m operations: at most the operation that began last is lost. |
| `LogTrace.QuiescentDurable` | log.c:146-202 | In every run without a crash, of operations that overlap in any way: when none is in progress and no commit runs, a crash recovers to the disk with all log_writes made so far, in order. |
| `LogCode.Kernel.BeginOp` | log.c:126-141 | One round of the loop: it sleeps exactly when a commit runs or the logged blocks and the reservations of all operations with this one would exceed LOGSIZE, and otherwise begins; the counters stay those of the step system. |
| `LogCode.Kernel.TestSpace` | log.c:130-135 | The two tests decide exactly whether the operation must wait. |
| `LogCode.Kernel.EndOp` | log.c:146-174 | Takes exactly the steps of ending an operation, of the whole commit when it was the last one, and of waking the sleepers; it never panics, and after the last operation the home blocks on disk hold everything that had been logged. |
| `LogCode.Kernel.LogWrite` | log.c:214-233 | Panics exactly when the header is full or one short of the region; otherwise absorbs or appends, pins the block, and is the guard step followed by the append step. |
| `LogCode.Kernel.Mark` | log.c:223-231 | The critical section: the block is in the header, added only if it was not there, and its buffer is marked; nothing else changes. |
| `LogCode.Kernel.FindLogged` | log.c:224-227 | Finds where a block is in the header, or its end exactly when it is absent. |
| `LogCode.Kernel.Absorb` | log.c:224-230 | The entry of a block is found or appended: the header gains it exactly when it lacked it. |
| `LogCode.Kernel.WriteLogLoop` | log.c:178-190 | Makes exactly the block writes of the log-copy steps, in order. |
| `LogCode.Kernel.LogBlockAt` | log.c:183-188 | One round copies one logged block into its slot on disk, a log-copy step. |
| `LogCode.Kernel.InstallTrans` | log.c:70-82 | Makes exactly the block writes of the install steps, in order, in commit as in recovery. |
| `LogCode.Kernel.InstallBlockAt` | log.c:75-80 | One round copies one slot to its home block on disk, an install step. |
| `LogCode.Kernel.ReadHead` | log.c:86-96 | The loop copies the header block into memory, the first step of recovery. |
| `LogCode.Kernel.CopyHead` | log.c:107-110 | The loop of write_head fills the buffer with exactly the logged block numbers. |
| `LogCode.Kernel.WriteHead` | log.c:102-113 | The filled buffer is written in one go, which is the commit step: the header on disk becomes the logged blocks. |
| `LogCode.Kernel.EraseLog` | log.c:199-200 | Is the erase step, after which the home blocks on disk are the committed groups. |
| `LogCode.Kernel.Commit` | log.c:193-202 | Copies, commits, installs and erases in that order, each block write a step: the open group becomes the last committed one, and the home blocks on disk hold it and all before it; nothing happens for an empty group. |
| `LogCode.Kernel.RecoverFromLog` | log.c:116-122 | From any state a crash leaves: reads, installs and erases, and leaves the home blocks equal to the committed groups. |
| `LogCode.Kernel.Bread` | bio.c:97-106 | The cached contents if the block is cached, else the disk's, which are then cached. |
| `LogCode.Kernel.Bwrite` | bio.c:110-116 | Disk block and clean buffer both become the new contents, and no other block changes. |
| `BufferCache.Cache.Bget` | bio.c:62-93 | A buffer of that device and block gets one more reference and nothing else changes. When there is none, the buffer taken over has no reference and is not dirty and was released longest ago of all such, and it fails exactly when every buffer has a reference or is dirty; at most one buffer exists for each block but (0, 0), which all buffers start with. |
| `BufferCache.Cache.Find` | bio.c:68-76 | The forward scan finds a buffer of the block exactly when one exists. |
| `BufferCache.Cache.Victim` | bio.c:78-91 | The backward scan finds, of all buffers without a reference and not dirty, the one released longest ago, and none exactly when every buffer has a reference or is dirty. |
| `BufferCache.Cache.Brelse` | bio.c:121-141 | Drops one reference; at zero the buffer moves to the front of the ring and becomes the most recently released, and all other buffers keep their order. |
| `BufferCache.Cache.Requeue` | bio.c:130-138 | The buffer becomes the first of the ring and the one released last, and the others keep their order. |
| `BufferCache.Cache.MoveToFront` | bio.c:132-137 | The six pointer writes turn the ring into the same ring with the buffer first. |
| `BufferCache.Cache.constructor` | bio.c:39-56 | The loop builds a ring that holds every buffer once; every reading of it lists the buffers from the last to the first. |
| `BufferCache.RingRemove` | bio.c:132-133 | Two pointer writes turn a ring into the ring without the buffer. |
| `BufferCache.RingInsert` | bio.c:134-137 | Four pointer writes put a buffer right behind the head of the ring. |
| `BufferCache.RingUnique` | bio.c:29-35 | The pointers determine the order: two sequences described by the same ring are equal. |
| `BufferCache.OldestFirst` | bio.c:81-91 | The first recyclable buffer met from the back is the one released longest ago. |
| `CacheLog.BuffersFollowLog` | bio.c:61-141 | Whatever processes do with the buffers (bget, reading, locking, changing, log_write, brelse, the writes of commit) is a run of the log's step system, at whose end its cache holds exactly the blocks of the valid buffers, dirty where they are dirty. |
| `CacheLog.RecyclingIsEvict` | bio.c:78-91 | In every reachable state, bget's taking over of a buffer is the log system's eviction of the block it held: the block is not waiting for a commit, nobody has it locked, and its contents are on the disk. |
| `CacheLog.LoggedKeepsBuffer` | bio.c:78-82 | In every reachable state a block waiting for its commit has a buffer, marked dirty, and no bget of any block takes that buffer over. |
| `CacheLog.EventIsStep` | bio.c:61-141 | Every action on the buffers is an enabled step of the log's system, or none. |
| `CacheLog.AgreeKept` | bio.c:61-141 | Every action keeps buffers and cache in agreement, and every reference count is the number of processes with a reference. |
| `CacheLog.GetStep` | bio.c:62-93 | The linked-list bget makes exactly such a move, for every log over the same buffers, and fails exactly when there is none. |
| `Ide.AsynchronousRefinesSynchronous` | ide.c:74-169 | In every run the buffers, and with no finished command unhandled also the disk, are what memide.c's synchronous transfers give when made in the order the requests finish. |
| `Ide.FirstComeFirstServed` | ide.c:105-169 | In every run requests finish in the order they were made, no buffer is queued twice, and the head of the queue is the command the disk works on. |
| `Ide.NoLostRequest` | ide.c:139-169 | In every run a process inside iderw has its buffer queued or may return. |
| `Ide.RunRefines` | memide.c:39-60 | Every run of the queue maps to a run of synchronous transfers with equal results. |
| `Ide.StepRefines` | memide.c:39-60 | Every step of the queue is one synchronous transfer, a change by the caller, or nothing. |
| `Ide.TransferSyncs` | memide.c:39-60 | The reference: after a transfer buffer and block agree, on the buffer's contents if it was dirty and on the block's if not, and nothing else changes. |
| `IdeCode.Driver.Enqueue` | ide.c:150-160 | Queueing is the request step, and the disk is started exactly when the queue was empty. |
| `IdeCode.Driver.Append` | ide.c:152-156 | Following the links to the end of the queue and writing the last one appends the buffer. |
| `IdeCode.Driver.Link` | ide.c:154 | Following one link reaches the next queued buffer. |
| `IdeCode.Driver.Intr` | ide.c:105-132 | Takes the head off, completes it with the data read, and starts exactly the next queued buffer. |
| `IdeCode.ChainAppend` | ide.c:154-156 | Writing a buffer into the last link of a chain of distinct buffers appends it. |
| `IdeCode.Driver.constructor` | ide.c:33-34 | The driver starts with an empty queue, an initial state of the step system. |
| `FsCode.FileSystem.Balloc` | fs.c:58-79 | Returns the first free block, marks it, zeroes it and logs both blocks; panics, exactly when every bit is set or no operation is in progress. |
| `FsCode.FileSystem.Bfree` | fs.c:83-97 | Clears the bit of a block in use and logs its map block; panics exactly on a free one. |
| `FsCode.FileSystem.Iupdate` | fs.c:223-238 | The disk inode becomes the inode in memory, and its block is logged. |
| `FsCode.FileSystem.Grow` | fs.c:381-395 | Gives an empty direct, indirect or index pointer a fresh zeroed block, keeps every block owned by one pointer, and logs every block it changes. |
| `FsCode.FileSystem.Bmap` | fs.c:375-402 | Returns the block of a slot, allocating it and any missing index block; every other pointer and every byte of every file stay, ownership is kept, and a slot that has a block is left alone. Inside an operation it fails only beyond the largest file or with the free map full; outside one it fails exactly when the slot is empty. |
| `FsCode.FileSystem.Lookup` | fs.c:391-398 | The same once the index block is there. |
| `FsCode.FileSystem.Readi` | fs.c:455-478 | Returns -1, changing nothing, for an offset past the end or a sum that wraps; else exactly the clipped slice of the file's contents. Exactly the missing blocks of the clipped range are allocated; everything stays as it was if and only if none was missing, and the inode's addresses stay if and only if those it needs in the inode were there. |
| `FsCode.FileSystem.ReadLoop` | fs.c:471-476 | The loop delivers exactly the file's bytes in the range and allocates exactly the missing blocks of it; without an operation it succeeds exactly when none is missing. |
| `FsCode.FileSystem.ReadBlock` | fs.c:472-475 | One round delivers the bytes of one block, zeroes where there is none. |
| `FsCode.FileSystem.Writei` | fs.c:484-513 | Returns -1, changing nothing, exactly for an offset past the end or a result beyond the largest file; else exactly the bytes from the offset on become the source bytes, the size the larger of the old one and the end, no other file changes, ownership is kept, a grown file is written through, and every changed block is logged and among those touched. |
| `FsCode.FileSystem.WriteLoop` | fs.c:500-506 | The loop writes exactly the source bytes at the offset and allocates exactly the missing slots of the range. |
| `FsCode.FileSystem.WriteBlock` | fs.c:501-505 | One round changes exactly the bytes it covers. |
| `FsCode.FileSystem.Itrunc` | fs.c:410-437 | Frees exactly the blocks of the inode and none twice, leaves it empty and written through, changes no other file, keeps ownership, and logs every block it changes. |
| `FsCode.FileSystem.FreeDirect` | fs.c:416-421 | The first loop frees exactly the direct blocks. |
| `FsCode.FileSystem.FreeIndirect` | fs.c:423-433 | The walk over the index block frees exactly its entries and the block itself. |
| `Fs.AttachKeeps` | fs.c:58-79 | Allocation keeps: a bit is set if and only if the block is metadata or owned by exactly one pointer. |
| `Fs.AttachBytes` | fs.c:375-402 | Allocation changes no byte of any file: the new block is zero as the hole was. |
| `Fs.PokeKeeps` | fs.c:501-505 | Writing a data block changes no pointer of any inode, so ownership is kept. |
| `Fs.ChunkWrites` | fs.c:500-506 | Copying bytes into one block of a file changes exactly those bytes of that file. |
| `Fs.ContentWritten` | fs.c:484-513 | The byte-wise effect of the writes is content[..off] + src + content[off + n..]. |
| `Fs.DetachKeeps` | fs.c:416-421 | Freeing a direct block and clearing its address keeps ownership. |
| `Fs.IndexFreedKeeps` | fs.c:423-433 | Freeing an index block with all its entries keeps ownership, although the block still holds them. |
| `Fs.WordSet` | fs.c:392-395 | Storing a little-endian word in an index block changes that word and no other. |
| `Fs.FileLayout` | fs.c:374-402 | Where each byte of a file is on disk: 12 addresses in the inode, then 128 little-endian words in the block the 13th names, 512 bytes each, address 0 reading as zeros. |
| `FsEffects.WroteNoHoles` | fs.c:484-513 | writei leaves every file without holes without holes. |
| `FsEffects.WroteAddrs` | fs.c:484-513 | writei changes the inode's addresses if and only if one of those it needs is missing. |
| `FsEffects.MappedAddrs` | fs.c:375-402 | bmap over the blocks of a range changes the inode's addresses if and only if one of those it needs is missing. |
| `FsEffects.DiskInodeCurrentIff` | fs.c:508-511 | After writei the disk inode is current if and only if the file grew or no needed address was missing; always for a file without holes. |
| `FsEffects.ReadChangesIff` | fs.c:471-476 | A read leaves everything as it was only if every block it needs was there. |
| `FsEffects.ReadCurrentIff` | fs.c:471-476 | After a read the disk inodes are current if and only if no address it needed in the inode was missing. |
| `FsEffects.WroteThen` | file.c:134-152 | Two writes in a row have the effect of one write of both pieces. |
| `FsEffects.WroteBytes` | fs.c:484-513 | The effect of writei byte by byte, and its size. |
| `FsEffects.TruncatedAll` | fs.c:410-437 | Freeing direct blocks, then the index, then setting the size frees exactly the inode's blocks and keeps ownership and all other contents. |
| `FsEffects.ChunkBound` | file.c:127-138 | A write of one chunk at any alignment touches at most the free map's blocks and six others. |
| `FileCode.File.Read` | file.c:97-113 | Delivers the file's bytes at the offset and moves it past them; changes nothing exactly when every block it needs is there. With no operation in progress it panics exactly when one is missing. |
| `FileCode.File.WriteChunk` | file.c:136-145 | One transaction: the bytes are written as by writei, and the blocks it logs are boundedly many and include every block it changes. |
| `FileCode.File.WriteChunks` | file.c:134-152 | The loop accepts exactly the bytes that precede the first chunk past the largest file, and its chunks add up to one write of them. |
| `FileCode.File.Write` | file.c:118-156 | The accepted bytes are spliced in at the offset as if by one write, each transaction is bounded, the result is n or -1 accordingly, and the disk inodes stay current for a file without holes. After each chunk the file holds the bytes of the chunks so far, and each chunk logs every block it changes. |
| `FileCode.Accepted` | file.c:134-153 | All n bytes are accepted if and only if the offset is inside the file and the end within the largest file. |
| `FileCode.WroteCurrent` | file.c:134-152 | Chunk by chunk, the disk inode of a file without holes stays current. |
| `FileCode.ChunkFitsReservation` | file.c:127-138 | With at most four free-map blocks every chunk's touched blocks fit MAXOPBLOCKS. |
| `FileCrash.CrashedWrite` | file.c:126-153 | A crash at any point of a filewrite to a file without holes leaves on disk the file system after a whole number of chunks, all but at most the one begun last: the old contents with those chunks' bytes written, current disk inodes, and no other file changed. |
| `FileCrash.CrashedOperations` | log.c:126-202 | A crash at any point of a sequence of file system operations leaves on disk the file system after the first m of them, operation m being the last one begun. |
| `FileCrash.OperationApplied` | log.c:214-233 | The log_writes of one operation, which name every block it changes, turn the disk before it into the disk after it. |
| `FileCrash.EncDetermines` | mkfs.c:20-27 | The home blocks determine the free map, the disk inodes and the data blocks. |
| `FileCrash.DiskDeterminesFiles` | fs.c:455-478 | And so the contents of every file. |
| `DirectoryCode.Dirlookup` | fs.c:527-550 | Finds the first entry with the name, its inode and offset, or none exactly when the directory's map lacks the name; no file's contents change. |
| `DirectoryCode.Dirlink` | fs.c:554-580 | Succeeds exactly for an absent name; then the first free or a new slot holds it and the directory, as a map, gains exactly that binding with the inode number cut to 16 bits, names stay unique and no other file changes. |
| `DirectoryCode.FindFree` | fs.c:566-572 | Finds the first free slot, or the end. |
| `DirectoryCode.ReadEntry` | fs.c:535-537 | Reads exactly the k-th entry. |
| `DirectoryCode.WriteEntry` | fs.c:574-577 | Replaces or appends exactly one entry and changes no other file. |
| `DirectoryCode.Isdirempty` | sysfile.c:170-182 | True exactly when no entry from the third on is in use. |
| `DirectoryCode.UnlinkEntry` | sysfile.c:204-221 | Refuses dot names, absent names and non-empty directories; else the first entry with the name is cleared and no other, and a directory with unique names loses exactly that binding. |
| `DirectoryCode.Namex` | fs.c:627-659 | Resolves a path to the fold of lookup over its non-empty components, from inode 1 when its first byte is a slash and from the current directory otherwise; for the parent form, to the directory of the last component and its name. |
| `DirectoryCode.Skipelem` | fs.c:598-620 | Delivers the first component, cut to DIRSIZ, and a position whose components are the rest; fails exactly when there is none. |
| `DirectoryCode.ElementEnd` | fs.c:608-609 | Finds the first slash or the end. |
| `DirectoryCode.SlashesFrom` | fs.c:603-604 | Skips exactly the leading slashes. |
| `DirectoryCode.WalkParentIs` | fs.c:636-658 | The parent walk is the walk of all but the last component when that ends in a directory, and fails otherwise. |
| `DirectoryCode.PathThen` | fs.c:627-659 | Looking up a/b is looking up a, and b from there; if a is not found, neither is a/b. |
| `DirectoryCode.WalkOne` | fs.c:627-659 | Looking up one name in a directory is its first entry in use with that name. |
| `DirectoryCode.WalkNone` | fs.c:627-659 | And nothing when there is no such entry or no directory. |
| `Directory.SameKeyIff` | fs.c:519-522 | namecmp is zero if and only if both names are equal up to NUL and DIRSIZ. |
| `Directory.KeyIs` | fs.c:519-522 | What a name means: its longest prefix without NUL, cut at 14 bytes. |
| `Directory.FieldKey` | fs.c:574 | Copying a name into a DIRSIZ field keeps its meaning. |
| `Directory.EncodeDecodes` | fs.c:574-576 | The bytes of an entry, a little-endian number and the name padded with NULs, decode to its inode number and name. |
| `Directory.EntriesSplice` | fs.c:574-577 | Writing one entry's bytes changes that entry and no other. |
| `Directory.MapOfHas` | fs.c:527-550 | A name is bound if and only if some entry in use holds it. |
| `Directory.MapOfFirst` | fs.c:527-550 | The first such entry gives the binding. |
| `Directory.LinkAdds` | fs.c:554-580 | An absent name in a free or new slot is exactly one more binding, and names stay unique. |
| `Directory.LinkNothing` | fs.c:574-577 | An inode number whose low 16 bits are zero makes a free entry: no binding changes. |
| `Directory.UnlinkRemoves` | sysfile.c:219-221 | Clearing the entry of a name removes exactly that binding. |
| `Directory.FirstComponent` | fs.c:598-620 | Skipping slashes and cutting at the next one splits off the first of the path's non-empty components, which are defined by splitting at every slash. |
| `Directory.SkipKeeps` | fs.c:603-604 | Leading slashes do not change the components. |
| `Directory.ComponentsCat` | fs.c:586-620 | The components of two paths joined by a slash are those of the first, then those of the second. |
| `Directory.ComponentAlone` | fs.c:586-620 | A non-empty path without a slash is its own only component. |
| `Mkfs.Build` | mkfs.c:68-168 | The image has one owner for each block in use, a free map that says so, a root directory with dot entries and one entry for each file in order, each file's exact contents, and the root rounded up; false only when inodes, blocks, file size or the one map block run out. |
| `Mkfs.RootEntries` | mkfs.c:127-172 | The root directory read as entries: . and .. are inode 1, and the k-th file is bound by its name to inode k + 2. |
| `Mkfs.RegionsApart` | mkfs.c:94-103 | Log, inode blocks, free map and data of the computed layout do not overlap. |
| `Mkfs.Image.Iappend` | mkfs.c:256-297 | Appends exactly the bytes to the file, keeps ownership, and changes no other file. |
| `Mkfs.Image.BlockFor` | mkfs.c:269-286 | Gives a slot its block and any missing index block, and changes no byte of any file. |
| `Mkfs.Image.SlotBlock` | mkfs.c:271-286 | The same once the index block is there. |
| `Mkfs.Image.PutChunk` | mkfs.c:269-293 | One round changes exactly the bytes it covers. |
| `Mkfs.Image.Ialloc` | mkfs.c:224-235 | The next inode becomes an empty file of the kind, and no contents change. |
| `Mkfs.Image.AddFile` | mkfs.c:130-156 | One round of the main loop adds one inode, its root entry and its contents, and nothing else. |
| `Mkfs.Image.Copy` | mkfs.c:152-153 | Appending a file in buffers of at most one block appends exactly its bytes. |
| `Mkfs.Image.RoundRoot` | mkfs.c:158-163 | The root grows to the next block boundary, reads as zeros there, and keeps ownership. |
| `Mkfs.Image.Balloc` | mkfs.c:238-251 | The loop sets exactly the bits of the blocks in use; it fails exactly when they do not fit one map block. |
| `Mkfs.Image.constructor` | mkfs.c:108-111 | The zeroed image has all blocks up to the data in use and none owned twice. |
| `Mkfs.TakeNext` | mkfs.c:271-285 | Taking the next block keeps: the blocks in use are exactly those below freeblock, and each has one owner. |
| `Mkfs.RoundKeeps` | mkfs.c:158-163 | Rounding keeps ownership and all contents but the root's zero tail. |
| `Mkfs.RootHole` | mkfs.c:158-163 | The rounded root has no hole if and only if its size was not a multiple of the block size. |
| `Mkfs.RootGoesStale` | mkfs.c:158-163 | From the image of any layout with 30 empty files, every read and every write of an entry at offset 512 of the root makes its disk inode out of date; that image meets everything Build promises. |
| `Mkfs.OwnLayoutGoesStale` | mkfs.c:158-163 | So it is for the layout of 1000 blocks, a log of 30 and 200 inodes. |
| `HeapCode.Allocator.Malloc` | umalloc.c:64-90 | Returns 0 exactly when no free block is large enough and sbrk fails; else a block of exactly the units asked for, cut from the end of the first large enough block behind freep if there is one, disjoint from all live blocks, and the free memory is the old free memory plus what sbrk gave minus the block; ring order, coalescing and conservation of units are kept. |
| `HeapCode.Allocator.Search` | umalloc.c:74-89 | The search ends: it finds the first large enough block behind freep, or one after growing the list when there was none, also when the new memory merged into the block freep points to. |
| `HeapCode.Allocator.TakeBlock` | umalloc.c:76-84 | Hands out the tail of a larger block or the whole of an exact one. |
| `HeapCode.Allocator.MoreCore` | umalloc.c:47-61 | Adds exactly the memory sbrk returns, at least 4096 units, and leaves a block of the size asked for at freep or right behind it. |
| `HeapCode.Allocator.Free` | umalloc.c:25-44 | Exactly the memory of the block becomes free, the ring stays address-ordered with no two blocks touching, and units are conserved. |
| `HeapCode.Allocator.FindPlace` | umalloc.c:30-32 | The pointer-chasing loop ends, at the one place where the block belongs. |
| `HeapCode.Allocator.Coalesce` | umalloc.c:33-43 | The pointer surgery turns the ring into the ring with the block inserted and merged with both neighbours it touches. |
| `HeapCode.Allocator.Raise` | umalloc.c:33-37 | The freed block takes over what follows it, merged with it exactly if they touch. |
| `HeapCode.Allocator.Close` | umalloc.c:38-42 | The block before points to it, or is merged with it exactly if they touch. |
| `HeapCode.RoomIff` | umalloc.c:69 | The block has room for nbytes if and only if the sum did not wrap around; it is then a header and the fewest units with room, and otherwise a header alone. |
| `HeapCode.SbrkArgumentIff` | umalloc.c:52-54 | sbrk is asked for the memory wanted if and only if that is less than 2^28 units; from there on its argument is not positive. |
| `Heap.FreeKeeps` | umalloc.c:25-44 | Free keeps: ordered ring, live blocks disjoint from it and from each other, units from sbrk = free + live units. |
| `Heap.TakeKeeps` | umalloc.c:76-84 | Handing out keeps the same. |
| `Heap.GrowKeeps` | umalloc.c:47-61 | New memory keeps the same. |
| `Heap.InsertOrdered` | umalloc.c:33-42 | Inserting and merging keeps the ring ordered with no two blocks touching. |
| `Heap.TakeOrdered` | umalloc.c:76-82 | Taking keeps the ring ordered, and what is taken is clear of it. |
| `Heap.InsertCovers` | umalloc.c:33-42 | An address is free afterwards if and only if it was or belongs to the block. |
| `Heap.TakeCovers` | umalloc.c:76-82 | An address is free afterwards if and only if it was and does not belong to the block. |
| `Heap.SlotIsExit` | umalloc.c:30-32 | The two exits of free's loop are taken at the right place and nowhere else in the ring. |
| `Heap.OrderedIff` | umalloc.c:33-42 | A ring is fully coalesced if and only if it is ordered and no two blocks touch. |
| `VmCode.Memory.Walk` | vm.c:37-56 | Returns the table that covers a page, creating a zeroed one when asked, which no address space shows and whose directory entry is present, writable and the user's; fails exactly when it is missing and memory is out or none was asked for. |
| `VmCode.Memory.MapPage` | vm.c:70-74 | One round sets exactly one entry; it panics exactly on a present one. |
| `VmCode.Memory.Mappages` | vm.c:62-81 | Panics only on a page of the range already mapped. Maps exactly the pages of the range to consecutive frames with the permissions; nothing outside the range changes in any address space, also when memory runs out; the pages it takes are exactly the missing tables. |
| `VmCode.Memory.Deallocuvm` | vm.c:257-280 | Unmaps exactly the pages between the sizes, skipping whole tables included, and returns exactly their frames to the free list. |
| `VmCode.Memory.DropPages` | vm.c:266-278 | The loop that skips absent tables does what a page-by-page loop would. |
| `VmCode.Memory.Drop` | vm.c:270-276 | Frees one page and clears its entry. |
| `VmCode.Memory.Freevm` | vm.c:285-299 | Every page of the address space, its tables and its directory become free, each once, and nothing else does; other address spaces do not change. |
| `VmCode.Memory.Allocuvm` | vm.c:223-250 | Returns 0 from KERNBASE on and the old size when not growing. Otherwise it panics exactly when it gets as far as a page already mapped, that is, when the free pages last for all before the first such page and one more; else it succeeds exactly when they cover the new pages and missing tables; then exactly the new range maps fresh zeroed pages, and otherwise the range is unmapped again. |
| `VmCode.Memory.GrowPages` | vm.c:233-248 | The loop adds pages until it is done, meets a mapped page, or the exact number needed exceeds what was free. |
| `VmCode.Memory.Setupkvm` | vm.c:120-137 | Succeeds exactly with 65 free pages. Then a new directory maps kernel addresses below 0x8E000000 to physical memory from 0 on, device addresses to themselves, writable except from 0x80100000 up to the kernel's data, none to the user, and nothing else; otherwise the same pages are free and mapped as before. |
| `VmCode.Memory.Copyuvm` | vm.c:317-346 | Panics exactly when memory lasts up to the first missing page below the size; succeeds exactly when no page is missing and the free pages cover the directory, the kernel's tables, the pages and their tables; then a new address space has equal contents and flags on fresh pages, the kernel's entries word for word as in setupkvm, nothing else mapped, and the old one is unchanged. Otherwise the same pages are free and mapped as before. |
| `VmCode.Memory.CopyPage` | vm.c:331-339 | One round copies one page to a fresh one with the same flags. |
| `VmCode.Memory.Growproc` | proc.c:165-181 | Growth panics exactly as allocuvm does and otherwise succeeds exactly below KERNBASE with enough free pages, a failure leaving the range unmapped; shrinking to 0 is refused after the pages are gone; a negative sum that wraps changes nothing. |
| `VmCode.Memory.Kalloc` | kalloc.c:83-95 | Takes the head of the free list, or fails exactly when it is empty. |
| `VmCode.Memory.Kzalloc` | vm.c:46-49 | A fresh zeroed page that no address space shows. |
| `VmCode.Memory.Kfree` | kalloc.c:60-77 | Fills the page and puts it on the list; panics exactly outside the allocator's memory. |
| `VmCode.Memory.constructor` | kalloc.c:32-44 | After kinit1 and kinit2 every page of the allocator is free, in the order freerange leaves, and the partition of pages holds. |
| `VmCode.Memory.Freerange` | kalloc.c:47-53 | Puts exactly the pages of the range on the list and keeps the partition. |
| `Vm.AllocKeeps` | kalloc.c:83-95 | Allocation keeps: every page is free, held, or owned by exactly one directory, table or user entry. |
| `Vm.FreeKeeps` | kalloc.c:60-77 | Freeing a held page keeps the same and changes no address space. |
| `Vm.LinkKeeps` | vm.c:46-53 | Hooking in a zeroed table keeps the same and no address space changes. |
| `Vm.MapUserKeeps` | vm.c:70-74 | Mapping a held page keeps the same and changes that page of that address space only. |
| `Vm.UnmapUserKeeps` | vm.c:270-276 | Unmapping keeps the same and changes that page only. |
| `Vm.MapKernelKeeps` | vm.c:106-116 | Kernel entries name pages without owning them. |
| `Vm.AddDirKeeps` | vm.c:125-127 | A zeroed page as a new directory keeps the same and shows nothing. |
| `Vm.RetireKeeps` | vm.c:292-298 | Taking an emptied address space apart keeps the same. |
| `Vm.FreeIff` | kalloc.c:20-24 | A page is free if and only if it is neither held nor owned. |
| `Vm.FreeSame` | kalloc.c:20-24 | If no address space changed, the same pages are free. |
| `VmEffects.DroppedFrees` | vm.c:257-280 | The pages freed are exactly those the range mapped. |
| `VmEffects.BootOwned` | kalloc.c:26-31 | Before kinit1, with every page in the boot code's hands and no address space, the partition of pages holds. |
| `VmEffects.DestroyedFrees` | vm.c:285-299 | The pages freed are exactly those the address space owned. |
| `VmEffects.ClearedRestoresIff` | vm.c:236-247 | The rollback restores the address space if and only if nothing was mapped in the range before. |
| `VmEffects.NoCollision` | vm.c:234-248 | Growing that runs out of memory has met no mapped page, and would meet none with that memory. |
| `VmEffects.CreatedDestroyed` | vm.c:343-345 | Creating and then destroying an address space leaves memory as it was. |
| `VmEffects.CopiedMore` | vm.c:326-340 | One more copied page extends the copy by exactly that page. |
| `VmEffects.CopyCost` | vm.c:317-346 | Copying n pages takes one directory, 64 kernel tables, n pages and one table for every 1024 of them. |
| `VmEffects.NeededMore` | vm.c:234-248 | Each further page needs at least one more free page. |
| `VmEffects.KmapIsOk` | vm.c:106-116 | The kernel's four ranges lie above user space and do not overlap. |
| `VmEffects.KernelPages` | vm.c:109-116 | The kernel map page by page, as words: frame, write permission, and nothing outside its ranges. |
| `VmEffects.GrownWords` | vm.c:235-248 | New pages are present, writable, the user's and full of zeros, word for word. |
| `VmEffects.CopiedWords` | vm.c:325-339 | Copied pages have the flags and the words of the originals. |
| `VmEffects.KmapTables` | vm.c:106-116 | The kernel map takes 64 page tables wherever the kernel's data begins, and none of them covers a user page. |
| `KallocCode.Allocator.Kfree` | kalloc.c:60-77 | Pushes the page on the intrusive list, or panics exactly outside the allocator's memory. |
| `KallocCode.Allocator.Kalloc` | kalloc.c:83-95 | Pops the head, which is then on the list no more; 0 exactly when the list is empty. |
| `KallocCode.Allocator.Freerange` | kalloc.c:47-53 | Every page of the range is on the list once, last first, before what was there. |
| `KallocCode.Allocator.constructor` | kalloc.c:32-44 | All pages of the range are free. |
| `TicketLock.MutualExclusion` | ticket_lock.c:22-49 | In every interleaving with sleep, wakeup and kill at most one process is between acquire and release. |
| `TicketLock.FirstComeFirstServed` | ticket_lock.c:22-36 | In every run the processes enter in the order they drew tickets. |
| `TicketLock.OutstandingTickets` | ticket_lock.c:22-49 | In every run the outstanding tickets are turn .. ticket - 1 modulo 2^32 and each is held by exactly one process, also across the wrap-around. |
| `TicketLock.NoLostWakeup` | ticket_lock.c:38-49 | In every run, whenever the inner spinlock is free, no process whose turn it is sleeps, kill or not. |
| `TicketLock.NoPanic` | ticket_lock.c:51-53 | A caller that does not hold the lock never panics in acquire, and its holder never panics in release. |
| `TicketLock.TurnIff` | ticket_lock.c:30-33 | The wrapped counters agree exactly for the process at the head of the queue. |
| `TicketLock.OneHolder` | ticket_lock.c:26-28 | Each outstanding number is held by exactly one process. |
| `TicketLock.RunKeeps` | ticket_lock.c:22-53 | Every run keeps the invariant over both spinlocks, the counters, the queue and the sleepers. |
| `TicketLockCode.Lock.AcquireStart` | ticket_lock.c:22-28 | Does not panic and is the ticket-drawing step. |
| `TicketLockCode.Lock.AcquireTest` | ticket_lock.c:30-35 | One test: enters exactly for the head of the queue, and otherwise starts to sleep. |
| `TicketLockCode.Lock.ReleaseStart` | ticket_lock.c:38-45 | Does not panic and is the step that advances turn. |
| `TicketLockCode.Lock.Wakeup1` | proc.c:464-471 | The loop wakes exactly the processes that sleep on the lock. |
| `TicketLockCode.Lock.Holding` | ticket_lock.c:51-53 | True exactly when some ticket is out and the caller's pid is recorded. |
| `TicketLockCode.Lock.constructor` | ticket_lock.c:14-20 | Starts the step system in an initial state. |
| `ProcTheorems.RunningOnOneCpu` | proc.c:329-398 | In every run each running process is on exactly one CPU, no two CPUs share one, and a CPU's process is running. |
| `ProcTheorems.DistinctPids` | proc.c:75-122 | In every run processes in use have distinct pids. |
| `ProcTheorems.ParentsAlive` | proc.c:234-274 | In every run no process has an exited, free or unfinished parent, and every exited process has one. |
| `ProcTheorems.NoLostExit` | proc.c:279-318 | In every run no process sleeps in wait while it has an exited child. |
| `ProcTheorems.ReapedOnce` | proc.c:279-318 | In every run wait returns each pid at most once, and only pids that exited. |
| `ProcTheorems.StatusChanges` | proc.c:75-480 | Every step from a reachable state changes a process's status only along the moves of the source: in particular the scheduler runs only runnable processes, and a sleeper wakes only by a wakeup on its channel, a kill of its pid, or an exit of a child (for init, of a parent of an exited child). |
| `ProcTheorems.NoExitForgotten` | proc.c:234-318 | In every run each pid that exited has been returned by wait or is in the table, exited, with a living parent. |
| `ProcTheorems.WaitOutcome` | proc.c:285-317 | A running process in wait reaps exactly when it has an exited child, returns -1 exactly when it has none and has no child or is killed, and sleeps exactly when it has a child, none exited, and is not killed. |
| `ProcTheorems.KillReaches` | proc.c:586-603 | In every reachable state kill of a process in use marks that process, makes it runnable if it sleeps, whatever on, and changes nothing else. |
| `ProcTheorems.CleanIff` | proc.c:586-603 | From a state where no free entry is marked killed, exactly a kill that hits a free entry or a fork that fails on a killed child marks one. |
| `ProcTheorems.CarefulRunsClean` | proc.c:586-603 | Runs without such steps never start a process that is already killed. |
| `ProcTheorems.KillZeroMarksNewborn` | proc.c:586-603 | A three-step run in which kill(0) makes the next child start killed. |
| `ProcInvariant.StepKeeps` | proc.c:75-480 | Every step keeps the invariant over CPUs, families, forks in progress, pids, history and waiting parents. |
| `ProcInvariant.RunKeeps` | proc.c:75-480 | So does every run. |
| `ProcCode.Table.Allocproc` | proc.c:75-98 | Takes the first free entry as the allocation step; fails exactly when there is none. |
| `ProcCode.Table.Exit` | proc.c:256-271 | The scanning loops are the exit step: the parent is woken, every child goes to init, init is woken exactly when one of them has exited, and nobody else changes. |
| `ProcCode.Table.AdoptChildren` | proc.c:262-268 | The loop hands over all children and wakes init exactly when one is a zombie, although it changes the table it scans. |
| `ProcCode.Table.Wait` | proc.c:279-318 | One round reaps the lowest exited child and clears its entry, returns -1 with nothing changed when none has exited and there is no child or the caller is killed, or sleeps on itself; each is the corresponding step. |
| `ProcCode.Table.ScanChildren` | proc.c:287-307 | Finds the first exited child, or says whether there is any child. |
| `ProcCode.Table.Kill` | proc.c:586-603 | Marks the first entry with the pid, makes it runnable if asleep, changes no other, and fails exactly when no entry has the pid. |
| `ProcCode.Table.Wakeup1` | proc.c:464-471 | The loop makes exactly the sleepers on the channel runnable. |
| `ProcCode.Table.constructor` | proc.c:127-160 | The table starts with the first process runnable and all other entries free, an initial state of the step system. |
| `Pipe.FirstInFirstOut` | pipe.c:80-122 | In every interleaving of readers, writers, closes and kills the bytes delivered are a prefix of the bytes stored, at most PIPESIZE behind, and the wrapping counters tell full and empty correctly. |
| `PipeCalls.WritesInterleave` | pipe.c:80-99 | In every run with any number of writers, readers, closes and kills, each byte stored belongs to one call of write, and what a call has put is in order the beginning of what it was given: all of it when it returned its count, less when it returned -1, and all but the rest it holds while it is in progress, asleep or not. |
| `PipeCalls.ReadsInOrder` | pipe.c:102-122 | In every run the results of all reads put together are the beginning of what the writes stored, at most PIPESIZE behind, and no read returns more than it asked for. |
| `PipeCalls.WriteReturns` | pipe.c:85-99 | A stretch of pipewrite by the room in the pipe: what fits is stored, and the call returns its count, returns -1 or sleeps with exactly the rest left; readers are woken unless it fails. |
| `PipeCalls.ReadReturns` | pipe.c:107-122 | A stretch of piperead by what is in the pipe: it delivers the next bytes, none only at the end of the stream, or it returns -1 or sleeps on an empty pipe open for writing. |
| `PipeCalls.RunKeepsCalls` | pipe.c:80-122 | Every call of write is in progress or has returned, once. |
| `Pipe.LosesWakeupIff` | pipe.c:85-92 | A step leads to a lost wakeup if and only if it is a killed writer's stretch that fills the pipe while a reader sleeps. |
| `Pipe.CarefulRunsWake` | pipe.c:60-122 | Runs without such a stretch never lose a wakeup. |
| `Pipe.WithoutKillNoLostWakeup` | pipe.c:60-122 | In every run without kill no reader sleeps on a non-empty or write-closed pipe and no writer on a non-full or read-closed one. |
| `Pipe.KillLosesWakeup` | pipe.c:87-90 | A concrete run with a killed writer of 513 bytes that leaves a reader asleep on a full pipe. |
| `Pipe.PutAllHolds` | pipe.c:85-94 | A stretch of pipewrite stores a prefix of its bytes in order and stops early only when full, across the counter's wrap-around. |
| `Pipe.PutAllLeft` | pipe.c:85-94 | What is left to write is the rest of the bytes. |
| `Pipe.GetAllHolds` | pipe.c:114-118 | A stretch of piperead delivers exactly the next bytes stored, as many as asked for or present. |
| `PipeCode.Buffer.Write` | pipe.c:80-99 | The loop stores exactly what the stretch stores, and ends, fails or sleeps under exactly the source's conditions. |
| `PipeCode.Buffer.Read` | pipe.c:102-122 | Fails or sleeps exactly on an empty pipe still open for writing; else delivers exactly the stretch's bytes. |
| `PipeCode.Buffer.WriteStretch` | pipe.c:85-99 | The loop of pipewrite on the buffer is the step of its process in the step system, and its outcome says which way the step went. |
| `PipeCode.Buffer.ReadStretch` | pipe.c:107-122 | So for piperead. |
| `PipeCode.Buffer.Store` | pipe.c:94 | Stores a byte in the next cell and advances the counter modulo 2^32. |
| `PipeCode.Buffer.constructor` | pipe.c:24-58 | A new pipe is empty and open at both ends. |
| `ShellRoundTrip.RoundTrip` | sh.c:328-446 | Parsing the parenthesised rendering of any writable command tree gives that tree back. |
| `ShellRoundTrip.LineRound` | sh.c:345-446 | The same anywhere inside a line, up to where a command can end, for every nonterminal. |
| `ShellDerives.AcceptsIff` | sh.c:328-446 | The parser answers with a tree if and only if the line's tokens derive that tree in a grammar stated apart from it: words and redirections in any order, pipes over lists, & and ;, parentheses, at most nine words. |
| `ShellDerives.PanicsIff` | sh.c:328-446 | It panics if and only if no tree is derived. |
| `ShellDerives.Unambiguous` | sh.c:328-446 | No line stands for two trees. |
| `ShellDerives.LineSound` | sh.c:345-446 | What parseline takes off a line derives the tree it returns. |
| `ShellDerives.LineComplete` | sh.c:345-446 | Wherever the tokens ahead derive a tree and the end or a parenthesis follows, parseline returns that tree and stops there. |
| `ShellGrammar.LexIsLexed` | sh.c:266-308 | The tokens gettoken delivers are those of the line: longest words, >> before >, blanks between. |
| `ShellGrammar.LexedOnce` | sh.c:266-308 | A line falls into tokens in one way. |
| `ShellSpans.ParsedSpans` | sh.c:266-446 | Every argument and file pointer pair of every parsed line delimits a whole word of it. |
| `ShellSpans.WordSurvives` | sh.c:450-493 | Whole words never touch, so a NUL behind each leaves every word readable. |
| `ShellSpans.TerminatedReads` | sh.c:450-493 | After nulterminate every argument and file pointer of the tree reads exactly its own word. |
| `ShellCode.Parser.Parse` | sh.c:328-342 | On every line: the result is the tree the line stands for in the grammar, with a panic exactly when there is none; and the C strings in the buffer afterwards spell exactly the words of the tree, a panic leaving the buffer alone. |
| `ShellCode.Parser.ParseSequence` | sh.c:345-359 | The cursor-moving parser computes the recursive one, whose language AcceptsIff gives, result and cursor, and ends. |
| `ShellCode.Parser.ParseBackground` | sh.c:350-353 | The loop over ampersands computes the recursive definition. |
| `ShellCode.Parser.ParsePipeline` | sh.c:362-372 | Computes the recursive definition, result and cursor, and ends. |
| `ShellCode.Parser.ParseRedirections` | sh.c:375-397 | The loop computes the recursive definition and wraps redirections in its order. |
| `ShellCode.Parser.ParseParens` | sh.c:400-413 | Computes the recursive definition, result and cursor, and ends. |
| `ShellCode.Parser.ParseUnit` | sh.c:416-430 | Computes the recursive definition, result and cursor, and ends. |
| `ShellCode.Parser.ParseArguments` | sh.c:429-445 | The argument loop computes the recursive definition, its limit and panics included. |
| `ShellCode.Parser.Next` | sh.c:266-308 | The token read, its span and the new cursor are those of the recursive definition, whose tokens LexIsLexed describes. |
| `ShellCode.Parser.Look` | sh.c:311-320 | Answers as the recursive definition's lookahead does and skips exactly the spaces. |
| `ShellCode.Parser.Spaces` | sh.c:271-273 | Skips exactly the spaces. |
| `ShellCode.Parser.NulTerminate` | sh.c:450-493 | Writes one NUL behind every word of the tree and nothing else. |
| `ShellCode.RoundTripInPlace` | sh.c:328-493 | Running the whole parser on a rendering in a buffer leaves that tree in the buffer. |
| `Shell.ParseLine` | sh.c:345-359 | Parsing ends on every line, the cursor moves forward and stays inside the line; so for the other nonterminals. |
| `Grep.MatchIff` | grep.c:73-82 | match answers yes if and only if a string of the pattern's language, anchored as the pattern says, occurs in the text. |
| `Grep.HereIff` | grep.c:85-96 | matchhere answers yes if and only if the text begins with a string of the pattern's language. |
| `Grep.StarIff` | grep.c:99-106 | matchstar answers yes if and only if some number of repetitions and then the rest begin the text. |
| `Grep.AnywhereIff` | grep.c:77-80 | The loop of match tries exactly the suffixes of the text. |
| `Grep.ParseIff` | grep.c:85-96 | The pattern read from an expression is the one that is written so: a star repeats the character before it and a last dollar sign is the end anchor. |
| `Grep.MatchMethod` | grep.c:73-82 | The loop computes the recursive definition whose meaning MatchIff gives. |
| `Grep.MatchHereMethod` | grep.c:85-96 | Computes the recursive definition whose meaning HereIff gives. |
| `Grep.MatchStarMethod` | grep.c:99-106 | The loop computes the recursive definition whose meaning StarIff gives. |

## Left out

- LogTheorems.CrashAtomicity: assumes that the logged blocks fit the log region throughout the run; LogRegion.AtomicIff says for which regions that assumption is not needed, LogRegion.TornRun that it is needed for the others.
- LogTheorems.CommitPoint: from states whose logged blocks fit the region, for the same reason.
- LogTheorems.HomeWrites: from states whose logged blocks fit the region; an overrunning write_log does change a home block.
- LogTheorems.LoggedNotRecycled: one step at a time, from states whose logged blocks fit the region.
- CacheLog.RecyclingIsEvict: in runs whose logged blocks fit the region; a process has at most one reference to a buffer, since a second one would wait for its own lock, and the log header's buffer is kept decoded.
- CacheLog.GetStep: for a process that has no reference to the block yet.
- LogTrace.QuiescentDurable: in runs whose logged blocks fit the region.
- LogTheorems.CacheAgrees: on runs whose logged blocks fit the region.
- FileCrash.CrashedWrite: one process writes and no other operation runs meanwhile; the operations of several processes are in the log model, at the level of blocks.
- LogTheorems.Reservation: each operation logs at most MAXOPBLOCKS new blocks, the limit param.h states for callers; FileCode.ChunkFitsReservation proves it for filewrite.
- LogRegion.AtomicIff: the layout has at least as many blocks behind the log as in it, as every layout of mkfs does; the counterexample run logs that many distinct blocks.
- LogCode.Kernel.BeginOp: one round of the loop with the lock held; that a sleeper is woken is LogTheorems.NoLostWakeup, and scheduling fairness is not modelled.
- LogCode.Kernel.EndOp: the last operation of a group finds no buffer locked, where the code would wait for it.
- FsCode.FileSystem.Readi: calls on device inodes end in the driver, which is not part of this model; so for Writei.
- FileCode.File.Write: operations on one file system are run one after the other; the interleaving of operations is in the log model, at the level of blocks.
- DirectoryCode.Namex: entries name inodes inside the inode table, which the source takes for granted when it reads their blocks.
- DirectoryCode.UnlinkEntry: the entry found names an inode inside the table; the link counts changed beside the entry are left out.
- HeapCode.Allocator.Malloc: when sbrk is needed and succeeds, the request is below 2^28 units, since from there on sbrk gives no memory; sbrk returns memory above all it returned before, and the list header lies below it.
- VmCode.Memory.constructor: kinit1 and kinit2 in one go, with no address space set up between them.
- VmCode.Memory.Mappages: addresses and sizes are in whole pages, and user ranges are mapped one page at a time, as all callers do.
- VmCode.Memory.Setupkvm: the kernel's data begins on a page boundary.
- ShellRoundTrip.RoundTrip: a writable tree has at most nine arguments for each command, words without blanks and symbols, and redirections by `<` and `>`.
- ShellCode.Parser.Parse: the line holds no NUL before its end, as a C string; command nodes are values, and an exec node is built after its arguments are read.
- Ide.AsynchronousRefinesSynchronous: one error-free interrupt for each command, one disk.
- ProcTheorems.DistinctPids: pids are unbounded, as in ProcCode.Table.Allocproc below.
- ProcCode.Table.Allocproc: pids are unbounded, so the wrap-around of nextpid after 2^31 forks is not modelled; nor are kernel stacks and trap frames.
- TicketLock.MutualExclusion: the lock is initialised once, before its first use, and fewer than 2^32 processes use it.
- Pipe.LosesWakeupIff: a kill between a stretch's test of the killed flag and its sleep is a step of its own, allowed at any time while the process sleeps.
- Pipe.WithoutKillNoLostWakeup: an end of the pipe is closed only when no call uses it, which the file's reference count ensures.
- The header block, the free map and the disk inodes are kept decoded: bit masks and the byte layout of inodes are not modelled, index blocks and directory entries are.
- Reference counts of buffers are in BufferCache and CacheLog; the log model by itself lets any unlocked, clean block be evicted at any time.
- Panics for lack of resources (balloc, bget) are modelled as calls that do not return.
- The inode cache (iget, iput, ialloc), link counts, create, link and open: their directory part is Dirlink and UnlinkEntry, the rest would only add easy members.
- inituvm, loaduvm, copyout and exec: page-by-page copies that add nothing to the page-table properties.
- scheduler, sched, yield and sleep appear as steps of module Proc, not as methods; context switches and interrupt state are not modelled.
- The buffered reader of grep, which drops a last line without a newline.
- Spinlocks and sleep locks: their holders are part of the states, their implementation is not.
- Console, traps, interrupt controllers, the system-call log and its list, and the other user programs.
