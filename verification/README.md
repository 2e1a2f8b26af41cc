# Verified models of an xv6 kernel with memory-pressure accounting

The system is xv6 for RISC-V, a small Unix kernel, extended with an allocator that blocks when memory
runs out and with averages of how often processes stall on it, together with its shell, its `grep` and
its C allocator. The Dafny modules here model the parts of it with the most intricate behaviour and prove
what those parts promise.

Every lemma is marked `{:induction false}`, so an induction is always a recursive call that can be read in the
body. Many bodies start with `hide`, which keeps definitions that a proof does not need out of it.

## Reading guide

**Write-ahead log and buffer cache.** `cache_model`, `log_model` and `log_invariant` are a step machine:
any number of threads run file-system operations on the cache, the last one to end an operation commits,
the disk step is one block write, and the machine may crash between any two steps. `log_theorems` states
what follows for every run: atomicity at every crash point, recovery that may itself crash, one logical
disk, room in the log, consistency after every crash; `log_reads` which buffers hold torn copies; `log_view`
computes from a run's actions alone what every buffer, the logical disk and the recovered disk hold. `log_capacity` says
when `bget` finds a buffer; `log_progress` and `log_full` when a thread that waits in `begin_op` can still be
admitted; `log_runs` has runs that get a commit stuck or commit what nobody logged. `log_disk` and `bio` are the
loops of `log.c` and the ring of `bio.c` in place. `param` and `common` hold what several models share.

**File system.** `fs_blocks` and `fs_model` say what the bytes of the free map, the inodes and the indirect
blocks mean; `fs_ops` has `balloc` and `bmap` as functions on that; `fs_content` and `fs_write` files as byte
sequences and what a write logs; `fs_trunc` the states inside `itrunc` and what it logs; `fs_share` when that is
too much; `fs_torn` what copies that fault half-way leave in the cache; `fs_room` how many blocks a write needs;
`fs_turns` what `filewrite` does, one operation at a time. `fs_code` is the code, in place, against these. `fs_dir` and `fs_path` are directories and path names on top of it.

**Page tables.** `vm_model` relates three-level trees to a map from pages to entries, `vm_range` states
what ranges of mappings and whole trees do to the pages of the machine, and `vm_code` is `vm.c` on the free
list.

**Protocols.** `virtio_model`, `virtio_steps` and `virtio_code` are the disk queue, `virtio_data` the blocks that
go through it; `kmem_sleep` is `sleep`/`wakeup` as the page allocator uses it, one lock operation per step, and
`kmem_pages` where its pages go; `pipe` is the pipe.

**The rest.** `psi` is the pressure average, `umalloc` the C allocator, `grep` the matcher and its input
loop, and `sh_lex`, `sh_grammar`, `sh_code` and `sh_terminate` the shell's parser; `sh_run` says what its result
executes.

## What turned out differently from what one might expect

- `log_write` tests for a full log before it looks for the block, so a call that would only be absorbed
  fails on a full log as well (`LogDisk.Log.LogWrite`; `LogRuns.AbsorbHalts` is a run from power-on). Calls that append, within the operation's share, never
  meet a full log (`LogTheorems.AppendHasRoom`).
- There are as many buffers as log blocks. `bget` finds a buffer for a block that is not cached exactly when the
  blocks pinned by the log and those in anybody's use are fewer than the buffers (`LogCapacity.FreeBuffer`,
  `LogCapacity.CommitterGets`). So a commit of a full log halts, whatever else happens (`LogRuns.FullLogStops` is a run
  from power-on), and a commit of one block less halts if another thread has a block to itself just then
  (`LogRuns.ReaderStops`). In general a thread waiting for the log can still be admitted, without a crash, exactly when
  the blocks logged, or changed and about to be, leave a buffer over (`LogFull.WaitEnds`).
- `pipewrite` returns -1 without waking anybody when the writer has been killed, even if it has just put bytes
  in. A reader that was asleep then stays asleep beside them. `Pipe.ReaderLeftAsleep` is an instance,
  `Pipe.LeavesAsleep` the exact condition, `Pipe.RunReaders` what it means for whole runs. Writers are never left that
  way (`Pipe.RunGood`).
- `malloc` passes its byte count to `sbrk` as an `int`. Requests above 2^31 - 32 bytes turn into something
  else (`Umalloc.RequestFits`): the largest asks for 16 bytes (`Umalloc.LargestRequest`). Such a request, unless a free
  block is large enough, leaves a heap whose blocks reach beyond the break, or traps (`Umalloc.Heap.Malloc`).
- `grep` prints the matching lines exactly if none of them is, or comes after, a line without a newline, of 1023 or
  more characters, or with a NUL in it (`Grep.PrintsAll`). `Grep.LastLineMissed` and `Grep.LongLineMissed` are
  instances of lines it misses.
- Of several redirections of the same kind the first one counts, because `runcmd` performs the last one first; all the
  files are opened, and created or truncated (`ShRun.LineMeans`).
- `dirlink` keeps 16 bits of the inode number: the name is bound to the number it was called with exactly if that is
  between 1 and 65535 (`FsDir.DirLink`; `FsDir.LinkWraps` is an instance).
- `itrunc` logs one block more than the free-map blocks it touches. Some file's truncation overruns an operation's
  share of the log exactly if more than nine blocks of the free map have bits of data blocks (`FsShare.OverrunsIff`).
- When a copy from user memory faults half-way into a block, `writei` releases the buffer as it is, with the bytes
  copied so far and without `log_write`. If the block is in the log, these bytes are committed although no `log_write`
  passed them on (`LogView.RunMeans`; `LogRuns.TornCommits` is a run from power-on). If it is not, they are what
  `bread` returns until the block is logged, the buffer recycled or the machine crashes (`LogView.RunMeans`). The
  file that `bread` shows is then the one the result promises exactly if the torn bytes it reaches are the bytes it
  had (`FsContent.TornIff`; `FsContent.TornChanges` is an instance), as when no copy faults inside a block; the logical
  file is the promised one if the block is not in the log, and the one `bread` shows if it is
  (`FsCode.FileSystem.WriteI`).

## Conventions

A `panic` is a halt: a result such as `halted` where the model says exactly when it happens, a step that is not
enabled in the step machines, an assertion that it does not happen where it cannot. What comes from outside is a
parameter: how far copies to and from user memory get before they fault, which pieces a read returns, when a process
is killed, what the device reports. In `vm_code` `kalloc` fails exactly when the free list is empty; the kernel waits
first, and fails if the process is killed meanwhile (`kmem_sleep`). Integer widths are written out where the code depends on them: 16-bit ring indices, 32-bit offsets,
counters and block numbers, the conversion to `int` in the C allocator.

In the log machine a change to a buffer is one step: `Modify` when it is completed, after which the code always calls
`log_write` before it releases the buffer, and `Tear` when it is a copy from user memory that faults half-way.

In `fs_code` the disk is what `bread` returns and `under` what the log has where that is different, so that
`FsTorn.Logical` of the two is the logical disk of the log machine; `log` collects the blocks given to `log_write`. The
bound that `FsCode.FileSystem.FileWrite` proves for each transaction is the share that `log_model` gives each
operation, and that every operation leaves a valid logical file system is what `LogTheorems.RunValid` asks of
transactions.

## Model

| member | source | states |
|---|---|---|
| LogTheorems.RunAtomic | kernel/log.c:146-204 | Stop any run of any number of threads at any step: the disk then recovers to exactly the logical disk of the last commit before that step, never a mixture of old and new home blocks. |
| LogTheorems.RunRecovers | kernel/log.c:117-124 | Recovery, itself cut short by any number of crashes, ends with every home block equal to what the disk recovered to when it began, and with an empty log. |
| LogTheorems.StepDurable | kernel/log.c:179-204 | Of all steps only the header write of a commit changes what the disk recovers to; it replaces it by the logical disk, when no operation is in progress. |
| LogTheorems.RecoversLogical | kernel/log.c:66-124 | From the commit point on, and whenever the log is idle, the disk recovers to the logical disk. |
| LogTheorems.RecoveryKeeps | kernel/log.c:66-124 | While recovery runs, crashes included, the recovered contents of every home block stay the same (recovery is idempotent). |
| LogTheorems.ReadsLatest | kernel/bio.c:91-103 | A buffer that bread has filled, its owner has not changed and no copy was torn into holds the latest logged contents of its block. |
| LogView.RunMeans | kernel/log.c:206-236 | Over every run from power-on, from its actions alone: the logical disk is the one at the start changed by each log_write to what its caller stored last, by each copy torn into a logged block, and by each crash to what is recovered; the disk recovers to it as of the last commit; and every held home buffer holds what its owner stored last, what a torn copy left, or the logical contents. |
| LogView.StoredIsLogged | kernel/log.c:206-236 | If an operation stores d into a buffer and then passes it to log_write, having done nothing else to it, the logical disk has d in that block, whatever all other threads did in between. |
| LogView.StoredIsCommitted | kernel/log.c:179-204 | And the header write of the commit, if nothing was logged or torn into that block in between, makes the disk recover to d there. |
| LogReads.StepTorn | kernel/bio.c:75-137 | Each step changes which buffers hold torn copies, and what they hold, as it should: a faulting copy into an unlogged block tears its buffer; logging the block, recycling the buffer or a crash ends it; no other step does anything to it. |
| LogTheorems.PinnedStays | kernel/bio.c:75-87 | bget never recycles the buffer of a block that is logged and not yet installed. |
| LogTheorems.RunValid | kernel/log.c:146-204 | Any property of the home blocks that every transaction keeps holds of what the disk recovers to, wherever a run is stopped. |
| LogTheorems.AppendHasRoom | kernel/log.c:126-144 | An operation that has not appended its MAXOPBLOCKS blocks never meets a full log, and the log does not commit while an operation is in progress. |
| LogTheorems.RunInv | kernel/log.c:126-236 | Every state of every run satisfies the invariant of cache, log and admission. |
| LogTheorems.PoweredOnInv | kernel/log.c:53-63 | A machine switched on with any good disk image satisfies the invariant. |
| LogInvariant.StepInv | kernel/log.c:126-236 | Every step (begin, end, bget, lock, read, modify, log_write, brelse, each half of write_log, write_head, install_trans, crash, read_head) keeps the invariant. |
| LogInvariant.HeaderRoundTrip | kernel/log.c:86-115 | read_head gives back what write_head wrote, whatever stale entries follow it in the block. |
| LogInvariant.StepLogWrite | kernel/log.c:215-236 | log_write keeps cache, pins, log and admission in step, whether it appends or absorbs. |
| LogInvariant.StepTear | kernel/fs.c:545-548 | A copy from user memory that faults half-way into a buffer, released without log_write, keeps the invariant, whether or not the block is in the log. |
| LogInvariant.StepWriteHead | kernel/log.c:102-115 | The commit point keeps the invariant: header on disk, logged contents in the log blocks, home blocks still old. |
| LogInvariant.StepCrash | kernel/log.c:117-124 | From any state, losing memory leaves a state from which recovery can start. |
| CacheModel.KeepMiss | kernel/bio.c:75-87 | Recycling an unused buffer keeps at most one buffer per block of a device other than 0 and every pinned block resident. |
| CacheModel.KeepPublish | kernel/log.c:215-236 | Pinning in log_write keeps reference counts, residence and contents right. |
| CacheModel.KeepWrite | kernel/bio.c:105-112 | Writing the staged buffer keeps every buffer equal to what its block should hold. |
| LogCapacity.FreeBuffer | kernel/bio.c:75-88 | In every state of the invariant some buffer can be recycled exactly when the blocks pinned by the log together with those in anybody's use are fewer than the buffers. |
| LogCapacity.CommitterGets | kernel/bio.c:55-89 | The committer's bget of a cached block goes on unless it has that block already; of any other block, exactly when a buffer can be recycled. |
| LogCapacity.FullLogGetsNone | kernel/log.c:178-192 | While a full log is being written no block of the log is cached and bget finds no buffer for one. |
| LogProgress.Completes | kernel/log.c:65-204 | From any point of a commit or a recovery at which fewer than NBUF blocks are pinned (or one is about to be installed), some continuation without a crash completes it, whoever holds which buffers now. |
| LogProgress.CrashEnds | kernel/log.c:53-124 | In every state the machine may crash; some recovery then completes, after which the logical disk is exactly what the disk recovered to. |
| LogProgress.AdmitsIff | kernel/log.c:126-144 | begin_op admits a thread exactly if no commit or recovery is under way and the log has room for the full share of every operation in progress and of this one. |
| LogProgress.MayChange | kernel/log.c:206-214 | An operation may change a home block that it holds in any way, whether the block is in the log or not, and a copy may be torn into it. |
| LogProgress.Flush | kernel/log.c:206-236 | Operations that keep to their shares can log everything they have changed. |
| LogFull.JammedRun | kernel/log.c:126-204 | When the blocks logged, or changed and about to be logged, are as many as the buffers, this stays so in every continuation without a crash, torn copies included. |
| LogFull.WaitEnds | kernel/log.c:126-176 | From every state whose operations keep to their shares, some continuation without a crash admits the waiting thread exactly if the blocks logged, or changed and about to be logged, leave a buffer over; blocks with torn copies do not count. |
| LogRuns.CommitStarts | kernel/log.c:53-176 | From power-on, for every good image and every list of at most LOGBLOCKS home blocks, a run comes to a commit of exactly these. |
| LogRuns.FullLogStops | kernel/param.h:9-11 | With LOGBLOCKS of them, a run to a commit that gets no buffer and after which nobody is ever admitted without a crash. |
| LogRuns.ReaderStops | kernel/file.c:120-124 | With one less, a run to a commit that gets no buffer while another thread, outside any operation, has an unlogged block; it gets through if that thread lets go before the commit asks. |
| LogRuns.TornCommits | kernel/fs.c:545-548 | For every good image, home block and contents, a run from power-on without a crash in which no log_write passes these contents on and which ends with them committed and installed in the block. |
| LogRuns.AbsorbHalts | kernel/log.c:215-223 | A run from power-on to a full log and an operation that holds a block of it: the log_write that would be absorbed halts. |
| LogDisk.Log.LogWrite | kernel/log.c:215-236 | Records the block unless it is there already; fails exactly when the log is full, also for a block it would have absorbed. |
| LogDisk.Log.WriteLog | kernel/log.c:178-192 | The log blocks get the cached contents; every crash point recovers to the old home blocks. |
| LogDisk.Log.WriteHead | kernel/log.c:102-115 | One block write, after which the header reads back as the in-memory list. |
| LogDisk.Log.InstallTrans | kernel/log.c:65-84 | Every home block of the transaction is installed; every crash point on the way recovers to the same home blocks. |
| LogDisk.Log.Commit | kernel/log.c:194-204 | Every crash point recovers either to the old home blocks or to the old ones overwritten by the whole transaction, the switch being the header write; it ends installed with an empty log. |
| LogDisk.Log.RecoverFromLog | kernel/log.c:117-124 | Every crash point recovers to the same home blocks, which are in place at the end, with an empty log. |
| LogDisk.InstallOne | kernel/log.c:65-84 | Copying the next logged block home does not change what the disk recovers to. |
| Bio.BufferCache.constructor | kernel/bio.c:36-53 | binit builds a ring of all buffers. |
| Bio.BufferCache.Bget | kernel/bio.c:55-89 | Finds the block if cached; otherwise recycles the least recently released of the unused buffers; fails exactly when there is none; (device, block) stays unique for devices other than 0. |
| Bio.BufferCache.Brelse | kernel/bio.c:114-137 | The last reference moves the buffer to the front and leaves the others in order; the ring and its order by recency are kept. |
| Bio.BufferCache.Bpin | kernel/bio.c:139-144 | One reference more; ring, order and contents stay. |
| Bio.BufferCache.Bunpin | kernel/bio.c:146-151 | One reference less; unlike brelse it leaves the order alone even for the last one. |
| Bio.BufferCache.FindUnused | kernel/bio.c:75-88 | The backward search returns an unused buffer with the oldest last release, or none exactly if all are in use. |
| Bio.Unlink | kernel/bio.c:128-129 | Taking a node out of the prev/next ring leaves the ring of the others. |
| Bio.LinkFront | kernel/bio.c:130-133 | Putting a node in front gives the ring with it in front. |
| Bio.MoveRecency | kernel/bio.c:117-137 | After the move to the front the list is still ordered by last release. |
| FsModel.AllocatedTidy | kernel/fs.c:64-89 | Marking and zeroing a free block leaves every slot alone and marks that block, which nobody owned. |
| FsModel.SetAddrTidy | kernel/fs.c:411-429 | Giving the block to an inode address restores: each block has at most one owner slot and the map marks exactly metadata and owned blocks. |
| FsModel.SetEntryTidy | kernel/fs.c:430-438 | The same for an entry of the indirect block. |
| FsModel.FlippedUsed | kernel/fs.c:75-104 | Changing one bit of the free map changes whether that block is marked, and no other. |
| FsOps.BallocTidy | kernel/fs.c:64-89 | balloc returns the lowest unmarked block, zeroed, owned by nobody; 0 exactly when every block is marked. |
| FsOps.BmapMapped | kernel/fs.c:402-444 | bmap returns the file's block, allocating it and the indirect block if missing; no slot loses its block, no other block in use changes; 0 only on a full disk. |
| FsOps.BmapLogs | kernel/fs.c:402-444 | bmap logs only the block, the indirect block, and one free-map block per allocation. |
| FsContent.WrittenStep | kernel/fs.c:539-551 | One more block's worth of writei extends what the file has by those bytes and changes nothing else that existed. |
| FsContent.WrittenContent | kernel/fs.c:539-554 | After the loop and the size update the file is the old one with the written bytes spliced in, and those of a torn copy as far as the file reaches. |
| FsContent.TornIff | kernel/fs.c:545-554 | The file after a torn write is the old one with the counted bytes spliced in exactly if the torn bytes within the file are the bytes it had. |
| FsContent.TornChanges | kernel/fs.c:545-548 | An instance: 100 bytes of a block change although the result is 0. |
| FsContent.OthersKeepContent | kernel/fs.c:528-562 | Every other inode's bytes are the same. |
| FsContent.SpliceSplice | kernel/file.c:148-173 | Two writes one after the other are one write of both. |
| FsWrite.BudgetFits | kernel/file.c:148-158 | A write of at most three blocks' worth of bytes, at any alignment, logs at most MAXOPBLOCKS distinct blocks, inode block included, however many free-map blocks there are. |
| FsWrite.BmapCharged | kernel/fs.c:402-444 | Per block: one data block, the indirect block, and a free-map block for each block that is new. |
| FsWrite.FirstBlock | kernel/fs.c:534-540 | In a file without holes an unaligned first block is never new. |
| FsCode.FileSystem.FirstFree | kernel/fs.c:73-86 | The nested loops over free-map blocks and bits find the first clear bit. |
| FsCode.FileSystem.Balloc | kernel/fs.c:64-89 | The code computes FsOps.Balloc, and logs the map block and the block. |
| FsCode.FileSystem.Bmap | kernel/fs.c:402-444 | The code computes FsOps.Bmap. |
| FsCode.FileSystem.WriteI | kernel/fs.c:521-562 | Refused exactly beyond the end or past the maximal size (32-bit wrap included), with no change; otherwise the first r bytes replace those at the offset, the file grows as needed, stays hole-free, all other files keep their bytes, the inode is written back; short only when a copy faults or the next byte has no block on a full disk: if no copy faults, all is written exactly if the disk has a free block for every slot that lacks one. Bytes of a torn copy are in what bread returns, as far as the file reaches; the logical file is without them if the block is not in the log, and the same if it is; none are torn if no copy faults inside a block. Up to three blocks' worth stays within MAXOPBLOCKS distinct blocks. |
| FsCode.FileSystem.Recycle | kernel/bio.c:75-87 | Recycling the buffer of a torn block brings back what the log has; the file system stays valid and the logical one does not change. |
| FsTorn.LogicalValid | kernel/fs.c:545-548 | With copies torn into data blocks only, the logical file system is valid whenever the one bread shows is. |
| FsTorn.BmapData | kernel/fs.c:402-444 | bmap never makes an indirect block of a block with an unlogged torn copy. |
| FsCode.FileSystem.ReadI | kernel/fs.c:490-519 | Returns the matching slice of the file's bytes across direct and indirect blocks, cut at the end of the file; changes nothing. |
| FsCode.FileSystem.Bfree | kernel/fs.c:91-106 | Halts exactly when the block is free already; otherwise clears that bit. |
| FsCode.FileSystem.Itrunc | kernel/fs.c:446-476 | Frees exactly the inode's blocks, never one that is free already, leaves the file empty and every other file as it was; logs exactly the free-map blocks of those blocks and the inode's block; torn copies stay where they are. |
| FsCode.FileSystem.FileWrite | kernel/file.c:148-173 | One transaction per three blocks' worth, each within MAXOPBLOCKS distinct blocks and each splicing its part in at the offset it finds, whatever others do to the file system and the offset in between; the parts are a prefix of the data in order; the result is the length if they are all of it, and otherwise -1, and then the last transaction was refused, met a full disk without a block for its next byte, or had a copy fault where the caller's memory does. |
| FsTurns.Alone | kernel/file.c:148-173 | If nobody else acts in between, the file is the old one with that prefix spliced in at the offset, and so is the logical file, without torn bytes in an unlogged block. |
| FsTurns.AloneWhole | kernel/file.c:148-173 | If moreover no copy faults, all is written exactly if the write starts within the file, ends within the largest file, and the disk has a free block for every slot that lacks one; the file is then the old one with the data spliced in. |
| FsRoom.Conserved | kernel/fs.c:402-444 | A write uses up as many blocks of the disk as it fills slots of the inode on the way to its bytes, the indirect block included. |
| FsRoom.RoomWas | kernel/fs.c:539-551 | A write that got all its blocks had room. |
| FsRoom.NoRoomWas | kernel/fs.c:540-542 | A write that met a full disk while it lacked a block had none. |
| FsTurns.WorldRecovers | kernel/file.c:148-173 | Before and after each of these transactions the logical file system is valid. |
| FsTrunc.FreeingStep | kernel/fs.c:455-472 | Part-way through itrunc, the inode's blocks not freed yet are still marked. |
| FsTrunc.TruncDone | kernel/fs.c:448-476 | When all are freed and the inode cleared, the ownership and free-map invariants hold again. |
| FsTrunc.AllAreOwned | kernel/fs.c:455-472 | The blocks the two loops visit are exactly those the inode owns. |
| FsTrunc.TruncLogs | kernel/fs.c:446-476 | What itrunc logs is one block more than the free-map blocks it touches, and at most one more than those that have bits of data blocks. |
| FsShare.OverrunsIff | kernel/fs.c:446-476 | For every geometry there is a valid file system with a file whose truncation logs more than MAXOPBLOCKS distinct blocks exactly if there are inodes and more than nine blocks of the free map have bits of data blocks. |
| FsDir.Strncmp | kernel/string.c:60-68 | Returns 0 exactly when the two strings are the same name, cut at a NUL or n bytes. |
| FsDir.Strncpy | kernel/string.c:70-81 | Writes the name and then NULs, n bytes in all. |
| FsDir.DirentMeans | kernel/fs.c:623-625 | A written entry reads back as the name cut to DIRSIZ bytes and the inode number in 16 bits. |
| FsDir.LinkAdds | kernel/fs.c:615-627 | Writing an absent name's entry into the first empty slot adds exactly that binding to the directory's map. |
| FsDir.LinkDone | kernel/fs.c:623-627 | An entry lies within one block, so it is written whole or not at all. |
| FsDir.DirLookup | kernel/fs.c:572-598 | Returns the map's value for the name and the offset of its first entry, or absent; halts only on a file that is not a whole number of entries. |
| FsDir.DirLink | kernel/fs.c:600-629 | Succeeds exactly if the name is absent, its entry would lie within the largest file and the disk has the blocks it lacks; then binds the name, in the first empty slot, to the number's low 16 bits, which is the number itself exactly if it is between 1 and 65535; a failure leaves the directory unchanged; no other file changes. |
| FsDir.LinkWraps | kernel/fs.c:623-625 | An instance: linking a name to inode 65537 binds it to inode 1. |
| FsPath.TakeElement | kernel/fs.c:655-658 | A run of bytes up to a slash or the end is the first element of the path. |
| FsPath.SkipElem | kernel/fs.c:631-668 | Repeated calls give the pieces between slashes with empty ones dropped, each cut to DIRSIZ bytes; the rest is empty exactly when none is left. |
| FsPath.Namex | kernel/fs.c:670-707 | Returns the inode that following the path's elements through the directories' maps leads to, or the directory for the last element together with that element. |
| Umalloc.MergedSorted | user/umalloc.c:33-42 | Inserting a freed block keeps the list sorted by address and fully coalesced. |
| Umalloc.MergedUnits | user/umalloc.c:33-42 | Freeing adds exactly the block's units to the free ones. |
| Umalloc.CarvedUnits | user/umalloc.c:75-84 | Allocating removes exactly the units of the block handed out. |
| Umalloc.LinkedMerged | user/umalloc.c:33-43 | The header writes of free leave a circular list of the merged blocks. |
| Umalloc.LinkedCarved | user/umalloc.c:75-84 | The header writes of malloc leave a circular list of the remaining blocks. |
| Umalloc.FreeKeeps | user/umalloc.c:24-44 | free keeps: sorted with one wrap, coalesced, live and free disjoint, together exactly the units obtained from sbrk. |
| Umalloc.MallocKeeps | user/umalloc.c:63-90 | malloc keeps the same, and the block handed out was nobody's. |
| Umalloc.StopsAt | user/umalloc.c:30-32 | free's loop condition stops exactly at the block's predecessor, the wrap included. |
| Umalloc.RequestFits | user/umalloc.c:54-69 | The byte count given to sbrk survives its conversion to int exactly for requests up to 2^31 - 32. |
| Umalloc.LargestRequest | user/umalloc.c:52-69 | A request of 2^32 - 1 bytes makes 2^28 + 1 units and a call of sbrk for 16 bytes. |
| Umalloc.Heap.Free | user/umalloc.c:24-44 | The block joins the list after its predecessor, merged with whichever neighbours it touches; the search terminates. |
| Umalloc.Heap.Fit | user/umalloc.c:74-86 | Once around from freep finds the first block that is large enough, exactly if there is one. |
| Umalloc.Heap.Morecore | user/umalloc.c:46-61 | Adds at least the requested units, and at least 4096, to the list; nothing exactly if sbrk refuses; the process has the memory for them exactly if the byte count survived its conversion to int. |
| Umalloc.Heap.Sbrk | kernel/proc.c:304-323 | Moves the break; refuses exactly to grow beyond the trap frame or without pages. |
| Umalloc.Heap.Malloc | user/umalloc.c:63-90 | Returns a block of enough units that was not live: the end of the first free block that is large enough, or one from sbrk; null exactly if none is large enough and sbrk refuses; afterwards the heap is all memory of the process exactly if the request is at most 2^31 - 32 bytes or a free block was large enough, and otherwise the block ends beyond the break. |
| VmModel.PxInjective | kernel/riscv.h:372-380 | The three index fields determine the page number. |
| VmModel.TranslateIsLeaf | kernel/vm.c:85-115 | What a three-level walk of memory reads is what the map says, for every page of every table. |
| VmModel.AddGood | kernel/vm.c:107-112 | A new page-table page changes no page's mapping. |
| VmModel.SetGood | kernel/vm.c:162-166 | Writing one last-level entry changes that page's mapping and no other, in any table. |
| VmRange.MapRangeGet | kernel/vm.c:145-173 | After mapping a range, exactly its pages map to the given pages; all others as before. |
| VmRange.AddedUndone | kernel/vm.c:226-238 | Undoing what a failed operation added gives back every mapping and data page as it was. |
| VmRange.CutGood | kernel/vm.c:261-278 | Removing one table's pages leaves all other tables as they were. |
| VmCode.Vm.Kalloc | kernel/kalloc.c:67-105 | Takes the head of the free list, filled with 5s; fails exactly on an empty list. |
| VmCode.Vm.Kfree | kernel/kalloc.c:43-65 | Puts the page on the free list; halts exactly for a page outside the allocator's range. |
| VmCode.Vm.Walk | kernel/vm.c:85-115 | Returns the page holding the entry, adding missing levels if asked; maps nothing; page-table pages it adds come from the free list and go to that table. |
| VmCode.Vm.WalkAddr | kernel/vm.c:117-138 | The mapped page for user pages below the limit, 0 otherwise. |
| VmCode.Vm.MapPages | kernel/vm.c:140-173 | Maps the pages of the range in order and nothing else; halts exactly on an empty range or at the first page that is mapped already or out of bounds; fails, that page still unmapped, only when page-table pages run out, for which two a page are enough. |
| VmCode.Vm.UvmUnmap | kernel/vm.c:189-212 | Unmaps exactly the range; with do_free each mapped page goes to the free list once. |
| VmCode.Vm.UvmAlloc | kernel/vm.c:214-240 | Either every page up to the new size has a zeroed page of its own, or nothing is mapped that was not before and every data page taken is free again; in both cases no page that was not free changes; three free pages for each new one are enough. |
| VmCode.Vm.UvmDealloc | kernel/vm.c:242-257 | Unmaps and frees exactly the pages between the two rounded sizes. |
| VmCode.Vm.UvmCopy | kernel/vm.c:291-324 | Either every mapped page below the size has a copy of its contents with the same flags in a page of the child's own, or nothing is mapped that was not before and every data page taken is free again; in both cases no page that was not free changes; three free pages for each one copied are enough. |
| VmRange.DataKept | kernel/vm.c:214-324 | If nothing changed but pages that were free before or are free now, every data page that keeps its place keeps its contents. |
| VmCode.Vm.VmFault | kernel/vm.c:448-473 | Maps a zeroed page at an unmapped address below the size; otherwise maps nothing, as when fewer than three pages are free and that is too few. |
| VmCode.Vm.FreeWalk | kernel/vm.c:259-278 | Of a tree that maps nothing, every page goes to the free list once; the leaf halt is unreachable; no other table is touched. |
| VmCode.Vm.UvmFree | kernel/vm.c:280-288 | A table whose mappings are below the size is returned whole, data and page-table pages; no page changes but those that are free now. |
| VmCode.Vm.ProcPagetable | kernel/proc.c:242-272 | A table mapping trampoline and trap frame, or failure with every page, page-table pages included, back where it was; in both cases no page that was not free changes; five free pages are enough. |
| VmCode.Vm.ProcFreePagetable | kernel/proc.c:274-282 | A table that maps, besides its own pages below the size, at most trampoline and trap frame is returned whole; pages are conserved; no page changes but those that are free now. |
| VirtioSteps.RunInv | kernel/virtio_disk.c:155-327 | Over every run of driver, device and handler steps: three descriptors per request, none shared, the rest free and cleared; rings hold exactly the posted and the completed requests. |
| VirtioSteps.ExactlyOnce | kernel/virtio_disk.c:283-324 | While a request is in flight the device completes it at most once and the handler consumes that completion at most once, after it; a done request has had one of each. |
| VirtioSteps.Conserved | kernel/virtio_disk.c:155-213 | Free descriptors plus three per request are always NUM, so at most two requests are in flight. |
| VirtioSteps.CompleteRequest | kernel/virtio_disk.c:226-265 | A device following the formatted chain transfers exactly the requested block to or from the requested buffer and sets that request's status; a write leaves alone every block whose number does not differ by a multiple of 2^31. |
| VirtioModel.SectorSame | kernel/virtio_disk.c:218-218 | Two blocks share a sector, computed in 32 bits, exactly if their numbers differ by a multiple of 2^31. |
| VirtioSteps.HandleInv | kernel/virtio_disk.c:309-324 | The handler's step takes the oldest completion and marks the buffer of that request, and only that one, as done. |
| VirtioSteps.SubmitInv | kernel/virtio_disk.c:226-281 | Posting a request keeps the invariant. |
| VirtioSteps.FinishInv | kernel/virtio_disk.c:283-289 | Freeing a finished request's chain keeps the invariant. |
| VirtioData.RunData | kernel/virtio_disk.c:215-327 | After any run, computed from its actions alone: each completed write moved the contents its buffer had to its own sector, each completed read those of its sector to its own buffer, and nothing else moved anything. |
| VirtioData.WriteArrives | kernel/virtio_disk.c:215-291 | From the completion of a write on, until another write to the sector completes, the sector holds what the buffer held when the request was submitted. |
| VirtioData.ReadArrives | kernel/virtio_disk.c:215-291 | From the completion of a read on, until its request is over, the buffer holds what the sector held at that completion. |
| VirtioModel.RingPush | kernel/virtio_disk.c:271-277 | A new ring entry goes behind the others and overwrites none, past the wrap of the 16-bit index too. |
| VirtioModel.RingPop | kernel/virtio_disk.c:312-324 | The indices are equal exactly when the ring is empty; otherwise the oldest entry is next. |
| VirtioCode.Driver.AllocDesc | kernel/virtio_disk.c:155-166 | The lowest free descriptor; -1 exactly when there is none. |
| VirtioCode.Driver.FreeDesc | kernel/virtio_disk.c:168-182 | Halts exactly for a free or nonexistent descriptor; otherwise clears and frees it. |
| VirtioCode.Driver.FreeChain | kernel/virtio_disk.c:184-197 | Frees exactly the three descriptors of the chain. |
| VirtioCode.Driver.Alloc3Desc | kernel/virtio_disk.c:199-213 | The three lowest free descriptors, or, exactly when fewer are free, the queue back as it was. |
| VirtioCode.Driver.Post | kernel/virtio_disk.c:215-281 | Posts the request exactly when three descriptors are free; otherwise changes nothing; the disk and every buffer's block and data stay as they are. |
| VirtioCode.Driver.Reap | kernel/virtio_disk.c:288-291 | Frees the request's descriptors and leaves buffers and disk alone. |
| VirtioCode.Driver.Intr | kernel/virtio_disk.c:294-327 | Consumes every completion in the used ring; halts exactly when the device reported an error for one of them; the disk and every buffer's block and data stay as they are. |
| KmemSleep.NoLostWakeup | kernel/kalloc.c:47-105 | In every state of every interleaving of kalloc, kfree, sleep, wakeup and kkill in which kmem.lock is free, a process SLEEPING on the allocator implies an empty free list. |
| KmemSleep.StepInv | kernel/proc.c:616-675 | Each lock step keeps the invariant: lock ownership, process states, and nobody asleep or about to sleep beside a free page unless a wakeup is still on its way. |
| KmemSleep.StepNoneLost | kernel/proc.c:616-660 | The same for the part about wakeups. |
| KmemSleep.StepLocks | kernel/proc.c:616-675 | Each process lock is held exactly by the process whose code position says so. |
| KmemPages.RunPages | kernel/kalloc.c:47-105 | Over every interleaving, for every page: how often it is free, on its way inside kalloc or kfree, or was returned by kalloc and not freed since, adds up to what it was at the start. |
| KmemPages.OnePlace | kernel/kalloc.c:47-105 | So if the free pages are distinct at the start and callers free only what they were given, a page is always in exactly one place. |
| KmemPages.KfreeAdds | kernel/kalloc.c:58-64 | From putting its page on the list until it releases kmem.lock, kfree adds that page in front, and nothing else happens to the list. |
| KmemPages.RunNone | kernel/kalloc.c:78-91 | Over every interleaving kalloc returns without a page only to a process that has been killed. |
| KmemPages.RunKilled | kernel/proc.c:664-685 | A process is marked killed exactly from the first kkill of it on. |
| KmemPages.KillWakes | kernel/proc.c:664-685 | kkill leaves the process not asleep. |
| KmemPages.WakesWhom | kernel/proc.c:647-685 | A sleeping process is woken by a kkill of it, by the wakeup of a kfree exactly if it sleeps on the allocator, or by whoever wakes the other channel; by nothing else. |
| KmemPages.RunAsked | kernel/kalloc.c:47-65 | Over every interleaving the page that kfree puts on the list, and the process that kkill marks, are those it was called with. |
| KmemPages.NoDeadlock | kernel/proc.c:616-685 | In every state in which a process is in kalloc, kfree, sleep, wakeup or kkill and not asleep, some process can go on: itself, the holder of the lock it waits for, or the holder of the one that one waits for. |
| KmemPages.MayCall | kernel/kalloc.c:47-105 | A process outside may call kalloc, kfree or kkill in every state, and one that is done may return. |
| KmemPages.KilledGoesWithout | kernel/kalloc.c:83-90 | Back from sleep, a process goes without a page exactly if it has been killed, pages or not. |
| Pipe.RunGood | kernel/pipe.c:58-134 | Over every interleaving: delivered bytes are a prefix of accepted ones, at most PIPESIZE wait, and no writer sleeps beside room. |
| Pipe.WriteAppends | kernel/pipe.c:76-103 | A writer's bytes are accepted in order and nothing else is; it fails exactly at a byte before which it finds the read end closed or itself killed, sleeps only when the pipe is full, and stops short otherwise only at a byte it cannot copy. |
| Pipe.ReadDelivers | kernel/pipe.c:105-134 | A read delivers the next bytes in order, as many as are asked for and there, up to a copy that faults; it sleeps, or fails if killed, exactly when the pipe is empty and the write end open; otherwise for n > 0 it returns 0 exactly when the pipe is empty and -1 exactly when its first copy faults. |
| Pipe.Counters | kernel/pipe.c:86-95 | The 32-bit counters tell empty from full and give the ring positions, past their wrap too. |
| Pipe.LeavesAsleep | kernel/pipe.c:83-100 | pipewrite leaves a reader asleep beside bytes it could read exactly when readers were asleep and the writer is killed after its first byte, before anything else stops it. |
| Pipe.ReaderLeftAsleep | kernel/pipe.c:83-88 | An instance: a reader stays asleep on a pipe with one byte in it. |
| Pipe.ReadSleepers | kernel/pipe.c:105-134 | Reading leaves no writer asleep beside room and no reader asleep beside bytes. |
| Pipe.RunReaders | kernel/pipe.c:58-134 | Over every interleaving no reader is asleep beside bytes or a closed end exactly if no write in it is killed after its first byte while readers sleep. |
| Pipe.Ring.WriteOnce | kernel/pipe.c:76-103 | The ring code does what the queue's Write does. |
| Pipe.Ring.ReadOnce | kernel/pipe.c:105-134 | The ring code does what the queue's Read does. |
| Pipe.Ring.CloseEnd | kernel/pipe.c:58-74 | Closing an end wakes the other side; the pipe is freed when both are closed. |
| Psi.FullAtMostSome | kernel/proc.c:97-108 | Over every history of the process table, full_avg10 <= some_avg10 <= 925. |
| Psi.AvgExact | kernel/proc.c:100-108 | The stored average is at most the exact one and less than 99 below it, after every history. |
| Psi.Climbs | kernel/proc.c:107-108 | Constant pressure raises it by at least one a tick until it stays at 925. |
| Psi.Decays | kernel/proc.c:107-108 | No pressure lowers it by at least one a tick until it stays at 0. |
| Psi.AvgMonotone | kernel/proc.c:107-108 | More pressure at every tick, a higher average. |
| Psi.Stats.Update | kernel/proc.c:72-110 | The counting loop and the two updates are one tick by whether some process is stalled, and whether none could run. |
| Grep.Match | user/grep.c:72-82 | Accepts exactly the texts some part of which (the front, after ^) is in the language of the pattern. |
| Grep.MatchHere | user/grep.c:84-96 | Accepts exactly the texts some prefix of which is in the language. |
| Grep.MatchStar | user/grep.c:98-106 | Accepts exactly when a run of the character followed by a word of the rest is a prefix. |
| Grep.ParseShow | user/grep.c:84-96 | Every pattern has a reading, quirks included, that says all of it: no character before a star stands for itself, and a dollar is the end exactly as the last character. |
| Grep.ShowParse | user/grep.c:84-96 | It is the only such reading. |
| Grep.HereStar | user/grep.c:98-106 | A starred item matches any number of fitting characters, zero included. |
| Grep.Run | user/grep.c:11-35 | Whatever pieces the input is read in, what is printed followed by what is missed is the matching lines in order, and it is all of them exactly if they are all in reach. |
| Grep.LinesShow | user/grep.c:22-29 | The lines of an input, put back together, are the input. |
| Grep.PrintsAndMisses | user/grep.c:18-34 | What grep prints, followed by the matching lines from the first line that stops it on, is all matching lines. |
| Grep.PrintsAll | user/grep.c:18-34 | It prints all matching lines exactly if no matching line is, or follows, a line without a newline, of 1023 or more characters, or with a NUL. |
| Grep.LastLineMissed | user/grep.c:22-22 | An instance: a last line without a newline. |
| Grep.LongLineMissed | user/grep.c:18-18 | An instance: a line of 1023 characters is missed, and so is the one after it. |
| ShLex.LexOrder | user/sh.c:271-314 | Tokens are nonempty, in order, disjoint; words are maximal and free of white space and symbols. |
| ShLex.GetToken | user/sh.c:271-314 | Returns the next token and leaves the rest. |
| ShLex.Peek | user/sh.c:316-326 | Says whether the next token begins with one of the characters, and consumes only white space. |
| ShGrammar.Accepts | user/sh.c:333-451 | The descent accepts a token sequence exactly when a tree of the grammar is written with it, and returns that tree. |
| ShGrammar.LineSound | user/sh.c:350-451 | A tree returned is well-formed and written with exactly the tokens consumed. |
| ShGrammar.LineComplete | user/sh.c:350-451 | Every well-formed tree comes back from the tokens it is written with. |
| ShCode.ParseLineCmd | user/sh.c:350-365 | The parser over the characters terminates and builds the command that the tree of the line's tokens means; fails exactly when there is none. |
| ShCode.ParseExecCmd | user/sh.c:405-451 | The same for a simple command or a block. |
| ShCode.ParseRedirs | user/sh.c:380-403 | The same for redirections. |
| ShTerminate.LineWords | user/sh.c:333-451 | The command's argument and file spans are exactly the words of the line, each as often as there. |
| ShTerminate.NotInside | user/sh.c:454-499 | The end of one word is never inside another word. |
| ShTerminate.SpanIsString | user/sh.c:454-499 | With NULs at the words' ends, the string at each span's start is the word. |
| ShTerminate.NulTerminate | user/sh.c:453-499 | Writes a NUL at the end of each span and nothing else. |
| ShTerminate.ParseCmd | user/sh.c:333-348 | Fails exactly on lines not in the grammar, leaving the buffer alone; otherwise consumes the whole line, and every argument and file string equals its word. |
| ShRun.LineMeans | user/sh.c:57-132 | Running the command that the parser builds executes what the line asks for: each command with its words in order, its input and output the neighbours in its pipeline, or the file of its first redirection of that kind; redirections of a block apply to all its commands; & says not to wait. |
| ShRun.WrapRuns | user/sh.c:83-91 | Running nested redirections opens all the files, the last one first, and leaves descriptors 0 and 1 with the first of each kind. |

## Left out

- FsCode.FileSystem.WriteI: whether other operations have the torn block in the log is a parameter; when several writes are torn, the logical file is stated block by block in under, and as a whole only for a file system without torn copies before.
- LogTheorems.RunValid: the property is of whole transactions; that concurrent operations on one file system are serialised by inode and buffer locks is not modelled, and the bytes of fs_code and the words of log_model are not converted into each other.
- FsDir.DirLink: the reference that dirlookup takes on an existing entry's inode, and gives back, is not modelled.
- FsPath.Namex: locks and references on the inodes along the path are not modelled; which inodes are directories is a parameter, and directories are assumed to be whole numbers of entries naming inodes that exist.
- VmCode.Vm.MapPages: addresses are page numbers, so the alignment halts do not arise; permissions include at least one of read, write and execute, as in every call in the kernel; an entry with none of them would look like a pointer to freewalk.
- VmCode.Vm.UvmCopy: the parent's pages below the size are its own, as everything that maps user memory leaves them.
- VmCode.Vm.Kalloc: waiting for a page is in KmemSleep; here the call fails where the kernel waits and, if killed, fails.
- KmemSleep.NoLostWakeup: kfree is called without holding a process's lock; freeing a child's pages inside wait, which does hold one, is not covered, and neither is sleeping in kalloc with another spin lock held.
- Pipe.LeavesAsleep: what a reader that stays asleep does later (another write or a close wakes it) is not modelled.
- Umalloc.Heap.Malloc: what later calls do to a heap that reaches beyond the break.
- Inodes on disk are kept as values beside the blocks; their layout inside the inode blocks, ialloc, and the in-memory table with its reference counts are not modelled.
- Link counts, unlink, create and the other system calls on top of directories.
- Virtio feature negotiation and device registers; memory-order fences and the atomic swap in spin locks.
- Scheduling, traps, context switches, exec, wait and exit, boot, console, and the interrupt controllers.
- copyin, copyout and copyinstr, whose page arithmetic only adds easy members to what walkaddr and vmfault state.
- ShRun.LineMeans: a file that cannot be opened ends the process, and a failing pipe or fork the shell, which is left out; so is when processes run relative to each other.
- The shell's input loop and cd, and the other user programs.
- The Linux daemon under coomd, mkfs, and all tests and documentation.
- LogFull.WaitEnds: says that a continuation admits the thread, not that a scheduler takes it; and operations keep to their shares, as AppendHasRoom needs too.
- Progress under a fair scheduler: statements about waiting say who wakes a sleeper or that it can be admitted, not that it eventually runs.
