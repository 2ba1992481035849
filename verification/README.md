# A verified model of the xv6-pdx kernel

This project models the parts of xv6 (the Portland State variant, built with `CS333_PROJECT=2`) whose
correctness rests on an invariant that no single function shows, and proves what those parts promise.

| area | modules |
|---|---|
| write-ahead log and crash recovery | `LogFormat`, `LogProtocol`, `LogSafety`, `LogTheorems`, `LogDurability`, `LogProgress`, `LogReservation`, `LogDistinct`, `LogReservationGap`, `LogOverrun`, `Log` |
| buffer cache and its LRU ring | `BufferRing`, `BufferCache` |
| files: block ownership, block map, reading and writing, truncation, the initial image | `FsBlocks`, `Fs`, `FsLogged`, `Mkfs` |
| inode cache: references, locks, freeing | `InodeCache`, `InodeHistory` |
| page tables, page allocator, address spaces | `PageTable`, `Vm` |
| user heap allocator | `Umalloc` |
| sleep, wakeup and pipes | `SleepWakeup`, `Pipe`, `PipeProtocol`, `PipeCalls` |
| processes: fork, exit, wait, kill | `ProcTable`, `ProcLife`, `ProcSleep` |
| shell: its language and its parser | `ShellSyntax`, `ShellParser`, `ShellAccepts`, `ShellRoundTrip`, `ShellWords`, `Shell` |
| regular expressions of grep | `Grep` |

Protocols with several processes are state machines over their atomic steps, and their theorems are about
every run. Code that works in place is a class whose methods are proved against functions and predicates
on values; the properties of those are lemmas. Where a property that the code is meant to have fails, a
lemma gives a run or a state that shows it and another the exact condition under which it holds:

- The reservation in `begin_op` counts on one data block more than the shipped log has
  (`LogReservationGap.QuotaSufficesIff`, `LogReservationGap.ShippedLogIsOneShort`), and `log_write` panics on a
  full log even for a block that needs no room (`LogReservationGap.AbsorbedWritePanicsWhenFull`). On a log
  of the size counted on, with the allowance counted in different blocks, that is the only way it panics
  (`LogDistinct.OnlyRelogPanics`).
- `log_write` tests the length of the list before it takes the lock, so two processes can take the last slot
  together. Crash atomicity and no-steal then depend on the sizes (`LogOverrun.AtomicIff`). The shipped sizes
  are safe because NBUF = nlog: the commit of a list that is too long finds no buffer and panics before it
  writes (`LogOverrun.ShippedIsAtomic`, `LogOverrun.ShippedOverrun`; when a commit can be finished at all:
  `LogProgress.CommitCompletesIff`). One buffer more and it overwrites a home
  block (`LogOverrun.OneMoreBufferBreaks`).
- A full chunk of `filewrite` logs 13 to 17 blocks where an operation is allowed 10; a chunk keeps to that at
  every offset only up to 3073 bytes (`FsLogged.ChunkFitsIff`, `FsLogged.SafeChunkIff`).
- A killed writer that returns early leaves readers asleep before bytes it has stored
  (`PipeProtocol.ReadersKeptIff`, `PipeProtocol.ReaderLeftAsleep`).
- `sleep` without a lock can miss its wakeup (`SleepWakeup.LockIsExactlyWhatIsNeeded`).
- `allocuvm` and `copyuvm` lose a frame when the last one goes to a page whose table cannot be made, and
  `allocuvm` reports success if that page was the last (`Vm.Machine.AllocUvm`, `Vm.CopyStuck`). `setupkvm` loses
  all it took when it fails (`Vm.Machine.SetupKvm`). Shrinking a process to nothing frees its pages and leaves
  its size (`Vm.Machine.GrowProc`).
- The 4 MB step of `deallocuvm` steps over mapped pages when it starts unaligned where no table is and the
  next table has pages nearer to its start (`Vm.VisitsIff`, `Vm.AllReachedIff`, `Vm.MissedPage`). It misses none
  where the mapped pages are a prefix (`Vm.PrefixVisited`), which they are until `growproc` leaves a hole.
- `growproc` reports success with its last page unmapped when one frame is left and the page needs a table
  (`Vm.Machine.GrowProc`). The hole stays until the process shrinks below it (`Vm.HolesHistory`), and a fork with
  frames enough to come to it panics (`Vm.ForkMeetsHole`, `Vm.Machine.CopyUvm`).
- `malloc` hands out a block without room for the bytes if and only if its 32-bit rounding wraps
  (`Umalloc.NUnitsExact`, `Umalloc.Allocator.Malloc`).
- A lookup leads to the panic "ilock: no type" unless it names an inode that has a type and is neither being made
  nor being freed (`InodeCache.LookupSafeIff`). The ".." of a removed directory can name one that is not
  (`InodeCache.StaleEntryPanics`).
- A file that is unlinked while open stays on disk for ever after a crash (`InodeCache.RebootOrphansIff`,
  `InodeCache.OrphanAfterCrash`, `InodeCache.OrphanForever`).
- `kill` also marks an unused slot, and the next process there starts out killed (`ProcLife.BornKilledIff`,
  `ProcLife.BornKilled`).
- `mkfs` gives a root directory that fills its blocks exactly a size one block too large (`Mkfs.RootFixed`).

## Model

| member | source | states |
|---|---|---|
| `LogFormat.HeadRoundTrip` | xv6-pdx/log.c:83-112 | the block list written into a log header is the one read back from it, and the rest of the header block keeps its content |
| `LogFormat.InstalledAt` | xv6-pdx/log.c:67-81 | installing the first k log slots changes exactly the home blocks they name, each to the content of its slot |
| `LogFormat.ReplayAt` | xv6-pdx/log.c:114-121 | after recovery each home block named in the header holds its slot, every other home block its old content |
| `LogFormat.ReplayClears` | xv6-pdx/log.c:114-121 | recovery leaves an empty log header |
| `LogFormat.RecoverableIffReplay` | xv6-pdx/log.c:114-121 | a disk is recoverable to an image if and only if recovering it gives that image on every home block; either way the header is empty after |
| `LogFormat.ReplayIdempotent` | xv6-pdx/log.c:114-121 | recovering twice is recovering once, so a completed recovery may be repeated |
| `LogSafety.WrittenConcat` | xv6-pdx/log.c:189-230 | the image of two runs of logged writes is the second applied to the image of the first |
| `LogSafety.LoggedOk` | xv6-pdx/log.c:201-230 | with absorption the block list stays free of duplicates and of log blocks, holds the written block and grows by at most one |
| `LogSafety.InstallDisk` | xv6-pdx/log.c:67-81 | one installed block keeps the disk recoverable to the committed image and extends the part already home |
| `LogSafety.ClearDisk` | xv6-pdx/log.c:189-199 | erasing the header after the last install leaves the committed image on the home blocks |
| `LogSafety.CrashKeeps` | xv6-pdx/log.c:52-121 | a crash in any reachable state, recovery included, leaves a state from which boot recovers the same committed image |
| `LogSafety.ProcessStepKeeps` | xv6-pdx/bio.c:59-142 | every step of a process (bget, bread, the test of log_write, its append, brelse, begin_op, end_op) keeps the invariant of log, cache and disk, an append that finds room |
| `LogSafety.StepKeeps` | xv6-pdx/log.c:52-230 | every step of every process, of the committer, of recovery, and a crash keep the invariant, where an append finds room |
| `LogSafety.CopyFits` | xv6-pdx/log.c:173-187 | a commit that gets as far as its first copy has a list that fits the log: a list of as many blocks as there are buffers leaves none for the log block |
| `LogTheorems.RunCache` | xv6-pdx/bio.c:59-96 | in every run at most NBUF buffers are assigned |
| `LogTheorems.RunInv` | xv6-pdx/log.c:52-230 | the invariant holds in every state of every interleaved run with any number of crashes in which each append finds room |
| `LogTheorems.RunHistory` | xv6-pdx/log.c:123-199 | in every run, whatever the sizes, the committed writes are whole groups |
| `LogTheorems.WholeOperations` | xv6-pdx/log.c:123-199 | in every run no operation is split over two commits |
| `LogTheorems.CrashAtomicity` | xv6-pdx/log.c:67-199 | whatever state such a run reaches, recovering its disk gives exactly the image of the committed writes, all of a commit or none of it, with an empty header, and the listed blocks are distinct and outside the log |
| `LogTheorems.CommitsArePrefix` | xv6-pdx/log.c:123-199 | later states extend the committed history of earlier ones, crashes included: what was committed stays committed |
| `LogTheorems.QuiescentIsCommitted` | xv6-pdx/log.c:142-199 | in such a run, with no operation outstanding and no commit running, nothing is pending: the open group and the log are empty, the committed writes are in place on disk, and a waiting begin_op is admitted |
| `LogTheorems.CommitIsQuiet` | xv6-pdx/log.c:123-171 | in every run a running commit implies no outstanding operation |
| `LogTheorems.NoSteal` | xv6-pdx/log.c:173-230 | in such a run, until the header of a commit is written, no home block on disk differs from the last committed image, and every logged block is pinned in the cache |
| `LogTheorems.ReadsSeeLastWrite` | xv6-pdx/bio.c:98-119 | in such a run a process holding a valid buffer it has not modified sees the last value logged for that block, whatever was evicted, committed or recovered between |
| `LogDurability.NothingForgotten` | xv6-pdx/log.c:123-230 | between two states of any run without a crash in between, committed and open writes together grow by exactly the log_write calls made, each with its operation, its block and what its buffer holds, in order |
| `LogDurability.QuietHoldsAll` | xv6-pdx/log.c:142-199 | so in every quiet state everything logged since the last crash is committed, in order, and is what the home blocks on disk hold |
| `LogDurability.OwnWriteStays` | xv6-pdx/bio.c:59-142 | in every run what a process writes into its buffer stays there until the process itself changes it, releases it or ends its operation |
| `LogDurability.WriteSurvives` | xv6-pdx/log.c:52-230 | from end to end: a block that a process changes and logs, and no later call logs, is on disk with that change as soon as the log is quiet, and from then on recovery gives it back after any steps and any number of crashes |
| `LogProgress.CommitCompletesIff` | xv6-pdx/log.c:142-199 | a commit that starts with no buffer held can be finished without a crash, everything logged then being committed and in place, if and only if its list is empty or shorter than both the buffer cache and the words of the header |
| `LogProgress.RecoveryCompletes` | xv6-pdx/log.c:52-121 | after a crash two buffers are enough for recovery to be finished, with the committed image at home and an empty log |
| `LogReservation.StepReserved` | xv6-pdx/log.c:123-230 | each step of an operation within its quota keeps logged blocks plus unused allowance within LOGSIZE |
| `LogReservation.RunReserved` | xv6-pdx/log.c:123-230 | the reservation bound holds in every state of every run within quota, whatever the sizes and however test and append interleave |
| `LogReservation.NoPanic` | xv6-pdx/log.c:211-230 | if every operation keeps to MAXOPBLOCKS log_write calls and the log has LOGSIZE data blocks, the panic in log_write is unreachable |
| `LogReservation.QuotaRunRoomy` | xv6-pdx/log.c:211-230 | with LOGSIZE < nlog, or NBUF <= nlog, or LOGSIZE < 2 * MAXOPBLOCKS, or a log without slots, every append of a run within quota finds room although the length was tested outside the lock |
| `LogReservation.SmallCacheRoomy` | xv6-pdx/log.c:211-230 | with no more buffers than log blocks and LOGSIZE, every append finds room in every run, quota or not: the buffers run out first |
| `LogDistinct.RunDistinct` | xv6-pdx/log.c:123-230 | in every run in which each operation logs at most MAXOPBLOCKS different blocks, however often each, the list stays within LOGSIZE: what the reservation is meant to promise |
| `LogDistinct.OnlyRelogPanics` | xv6-pdx/log.c:201-230 | with the log as large as promised, log_write panics in such a run only for a block that is already on a list of LOGSIZE blocks |
| `LogReservationGap.PanicReachable` | xv6-pdx/log.c:211-230 | with fewer than LOGSIZE data blocks in the log, a run in which every operation keeps to its quota reaches the panic: the run is built |
| `LogReservationGap.QuotaSufficesIff` | xv6-pdx/log.c:123-230 | runs in which every operation keeps to its quota never panic if and only if LOGSIZE < nlog, the header included |
| `LogReservationGap.ShippedLogIsOneShort` | xv6-pdx/mkfs.c:25 | the shipped sizes are on the failing side of that condition |
| `LogReservationGap.AbsorbedWritePanicsWhenFull` | xv6-pdx/log.c:211-230 | a block already in a full log cannot be logged again although it would need no slot: the size test runs before absorption |
| `LogOverrun.CommitStarts` | xv6-pdx/log.c:211-230 | two processes pass the test of log_write together and both append: a run within quota whose list is one block longer than the log has slots, at the start of its commit |
| `LogOverrun.OverrunBreaks` | xv6-pdx/log.c:173-187 | with a buffer to spare that commit writes past the log over the first home block behind it, with the header on disk still empty: the run is built, and neither crash atomicity nor no-steal holds in its last state |
| `LogOverrun.AtomicIff` | xv6-pdx/log.c:201-230 | every run within quota is crash atomic, and none steals, if and only if LOGSIZE < nlog, or NBUF <= nlog, or LOGSIZE < 2 * MAXOPBLOCKS, or nlog < 2 |
| `LogOverrun.ShippedIsAtomic` | xv6-pdx/param.h:10-12 | on the shipped sizes every run is crash atomic and none steals, quota or not, because NBUF = nlog |
| `LogOverrun.ShippedOverrun` | xv6-pdx/bio.c:84-95 | on the shipped sizes the list can outgrow the log all the same; then bget finds no buffer for the first log block of the commit and panics, before anything is written |
| `LogOverrun.OneMoreBufferBreaks` | xv6-pdx/param.h:12 | with NBUF larger by one, crash atomicity and no-steal fail on the shipped sizes |
| `BufferRing.Unlink` | xv6-pdx/bio.c:121-142 | taking a buffer out of the doubly linked ring leaves the ring of the others in order |
| `BufferRing.PushFront` | xv6-pdx/bio.c:39-57 | linking a buffer after the head puts it first and keeps the order of the others |
| `BufferCache.BCache.constructor` | xv6-pdx/bio.c:39-57 | binit links every buffer exactly once |
| `BufferCache.BCache.FindCached` | xv6-pdx/bio.c:59-96 | the first scan of bget finds the buffer of (dev, blockno) if and only if one is assigned to it |
| `BufferCache.BCache.FindVictim` | xv6-pdx/bio.c:59-96 | the second scan of bget returns the least recently released buffer that is neither busy nor dirty, or none if there is none |
| `BufferCache.BCache.BGet` | xv6-pdx/bio.c:59-96 | hit, sleep, recycle or fail exactly as the cache holds the block free, busy, not but a victim exists, or neither; assigned buffers stay unique and dirty ones are never recycled |
| `BufferCache.BCache.IdeRw` | xv6-pdx/memide.c:34-59 | a dirty buffer is written out, a clean invalid one is read in, and it ends valid and clean |
| `BufferCache.BCache.Bread` | xv6-pdx/bio.c:98-109 | the returned buffer is busy and valid and, unless it was already valid, holds the disk block |
| `BufferCache.BCache.Bwrite` | xv6-pdx/bio.c:111-119 | the disk block takes the buffer's content and the buffer becomes clean; no other block changes |
| `BufferCache.BCache.Brelse` | xv6-pdx/bio.c:121-142 | the buffer is free and moves to the front of the ring, which stays one ring in order of last release |
| `BufferCache.VictimLast` | xv6-pdx/bio.c:59-96 | in a ring in order of last release, the last recyclable buffer is the one released longest ago |
| `BufferCache.MoveFront` | xv6-pdx/bio.c:121-142 | unlinking and relinking at the front gives a ring holding each buffer once |
| `Log.FsLog.WriteLog` | xv6-pdx/log.c:173-187 | after the loop each slot of the log holds the cached content of its block and no home block has changed on disk |
| `Log.FsLog.InstallTrans` | xv6-pdx/log.c:67-81 | after the loop every home block of the list holds its slot; on the way every disk state is recoverable to the committed image |
| `Log.FsLog.WriteHead` | xv6-pdx/log.c:97-112 | one block write replaces the on-disk list by the one in memory |
| `Log.FsLog.ReadHead` | xv6-pdx/log.c:83-95 | the list in memory becomes the one on disk |
| `Log.FsLog.Commit` | xv6-pdx/log.c:189-199 | every disk state passed through recovers to the old image before a single cut point and to the new image from it on; at the end the home blocks hold the new image and the header is empty |
| `Log.FsLog.RecoverFromLog` | xv6-pdx/log.c:114-121 | the loops compute exactly the specified recovery of the disk |
| `Log.FsLog.LogWrite` | xv6-pdx/log.c:201-230 | refused exactly when the log is full or one short of its size; otherwise the block is listed once and its buffer pinned |
| `Log.FsLog.Update` | xv6-pdx/log.c:201-230 | bread, modify, log_write, brelse change the cached image at that block only and leave the disk's home blocks alone |
| `Log.FsLog.BeginOp` | xv6-pdx/log.c:123-140 | an operation is admitted exactly when no commit runs and the reservation fits |
| `Log.FsLog.EndOp` | xv6-pdx/log.c:142-171 | the last operation commits: all of the group reaches the disk atomically and the log is empty again; earlier ones change nothing on disk |
| `Log.SomeRecyclable` | xv6-pdx/bio.c:59-96 | with fewer pinned blocks than buffers and none busy, some buffer can be recycled, so the commit's reads never find the cache full |
| `Umalloc.FreeHeap` | xv6-pdx/umalloc.c:24-44 | freeing at its place in address order with both joins keeps the list circular, ordered, disjoint and fully joined, and the block's units pass from live to free |
| `Umalloc.TakeWhole` | xv6-pdx/umalloc.c:63-90 | unlinking an exact fit keeps the heap invariant and makes the block live |
| `Umalloc.TakeTail` | xv6-pdx/umalloc.c:63-90 | cutting the tail off a larger block keeps the heap invariant and makes the tail live |
| `Umalloc.RegionSound` | xv6-pdx/umalloc.c:46-61 | a region from sbrk enters the heap as one live block beside the others |
| `Umalloc.Conservation` | xv6-pdx/umalloc.c:24-90 | free units plus live units are exactly the units obtained from sbrk |
| `Umalloc.LiveDisjoint` | xv6-pdx/umalloc.c:24-90 | two live blocks never share a unit |
| `Umalloc.LiveNotFree` | xv6-pdx/umalloc.c:24-90 | a live block shares no unit with a free one |
| `Umalloc.NUnitsExact` | xv6-pdx/umalloc.c:63-90 | the rounded size is the least number of units that holds the bytes and a header |
| `Umalloc.Allocator.FindPlace` | xv6-pdx/umalloc.c:24-44 | the walk ends at the one place where the block belongs in address order, the wrap-around included |
| `Umalloc.Allocator.Free` | xv6-pdx/umalloc.c:24-44 | the block leaves the live set, nothing else does, and the heap invariant holds |
| `Umalloc.Allocator.Morecore` | xv6-pdx/umalloc.c:46-61 | fails exactly when sbrk does; otherwise the new units are free and nothing else changed |
| `Umalloc.Allocator.Search` | xv6-pdx/umalloc.c:63-90 | succeeds if and only if the free list has a block that fits or sbrk does not refuse; a region is added if and only if no block fits and sbrk gives one; no live block changes |
| `Umalloc.Allocator.Malloc` | xv6-pdx/umalloc.c:63-90 | returns null if and only if no free block fits and sbrk refuses; otherwise a block disjoint from all live blocks, which keep their extents, and with room for the bytes if and only if the 32-bit sum in the rounding does not wrap |
| `SleepWakeup.StepKeeps` | xv6-pdx/proc.c:418-478 | every step of lock, test, sleep, signal and wakeup keeps the invariant |
| `SleepWakeup.NoLostWakeup` | xv6-pdx/proc.c:418-478 | a process that tested before the condition was signalled is not asleep once the wakeup after that signal is done |
| `SleepWakeup.NobodyLeftAsleep` | xv6-pdx/proc.c:418-478 | when the condition is true and a wakeup was called since it last became true, nobody is asleep |
| `SleepWakeup.MutualExclusion` | xv6-pdx/spinlock.c:25-64 | at most one process is inside the lock in every run |
| `SleepWakeup.SleepReturnsLocked` | xv6-pdx/proc.c:418-448 | in every run a process that found the condition false under the lock and called sleep takes no step outside sleep before it holds the lock again |
| `SleepWakeup.BareSleepReturns` | xv6-pdx/proc.c:418-448 | in every run a process that called sleep without a lock comes back without one |
| `SleepWakeup.WakesAll` | xv6-pdx/proc.c:450-502 | in every run a process asleep after a wakeup, or after a kill of it, has gone to sleep again since |
| `SleepWakeup.BareSleepLosesWakeup` | xv6-pdx/proc.c:418-478 | without the lock a run exists that leaves a process asleep after its wakeup |
| `SleepWakeup.LockIsExactlyWhatIsNeeded` | xv6-pdx/proc.c:418-478 | no wakeup is lost in any run if and only if the condition is tested under the lock passed to sleep |
| `Pipe.TestsAreExact` | xv6-pdx/pipe.c:77-120 | on 32-bit counters that wrap, the full and empty tests say exactly whether 512 or no bytes are in flight |
| `Pipe.WrapIndex` | xv6-pdx/pipe.c:77-120 | the ring index of a wrapped counter is the index of the unwrapped count |
| `Pipe.Put` | xv6-pdx/pipe.c:77-97 | storing a byte appends it to what was accepted and leaves the bytes in flight intact |
| `Pipe.Get` | xv6-pdx/pipe.c:99-120 | the byte read is the next one accepted and not yet delivered |
| `Pipe.Ring.WriteSome` | xv6-pdx/pipe.c:77-97 | the copying loop accepts bytes in order until the buffer is full or the input ends |
| `Pipe.Ring.ReadSome` | xv6-pdx/pipe.c:99-120 | the copying loop delivers the next bytes in order until the buffer is empty or the request is met |
| `PipeProtocol.Fifo` | xv6-pdx/pipe.c:58-120 | in every interleaving the delivered bytes are a prefix of the accepted ones and at most 512 are in flight |
| `PipeProtocol.ZeroReadIsEof` | xv6-pdx/pipe.c:99-120 | a zero-byte read means the write end is closed and everything accepted was delivered |
| `PipeProtocol.SleepingWriterMeansFull` | xv6-pdx/pipe.c:58-120 | a writer asleep with the lock free implies a full buffer and an open read end |
| `PipeProtocol.ReadersKeptIff` | xv6-pdx/pipe.c:58-120 | a step keeps "a sleeping reader means an empty buffer" unless it is the early return of a killed writer that has accepted bytes, and that step breaks it |
| `PipeProtocol.SleepingReaderMeansEmpty` | xv6-pdx/pipe.c:58-120 | without such a return, a reader asleep with the lock free implies an empty buffer and an open write end |
| `PipeProtocol.ReaderLeftAsleep` | xv6-pdx/pipe.c:85-87 | a run in which a killed writer returns early leaves a reader asleep before a non-empty buffer |
| `PipeCalls.WriteCall` | xv6-pdx/pipe.c:77-97 | in every state of a write call, among the bytes accepted since it began those stored by this process are exactly the first ones it was given, however calls interleave |
| `PipeCalls.WriteReturns` | xv6-pdx/pipe.c:77-97 | a write that returns its count has stored all its bytes, in order and once; one that fails has stored a proper prefix, on a full pipe whose reader is gone or whose writer was killed |
| `PipeCalls.ReadCall` | xv6-pdx/pipe.c:99-120 | in every state of a read call its buffer holds exactly the bytes this process took off the pipe since the call began, no more than it asked for |
| `PipeCalls.ReadReturns` | xv6-pdx/pipe.c:99-120 | a read returns the bytes it took, which are the last ones delivered and consecutive, and either as many as it asked for or all there were |
| `PipeCalls.NobodySleepsOn` | xv6-pdx/pipe.c:58-120 | from the moment an end is closed no process sleeps on the other end, and from a kill on that process sleeps in no pipe |
| `ProcTable.PTable.Wakeup1` | xv6-pdx/proc.c:454-462 | exactly the processes sleeping on the channel become runnable, and nothing else changes |
| `ProcTable.PTable.Exit` | xv6-pdx/proc.c:198-238 | slot by slot: the children go to init, a sleeping parent is woken, a sleeping init too if it inherits a zombie, and the caller is a zombie; nothing else changes |
| `ProcTable.PTable.Kill` | xv6-pdx/proc.c:484-502 | the first slot with the pid is marked, used or not, and is runnable if it slept; it keeps everything else, every other slot keeps everything, and false means that there is none |
| `ProcTable.PTable.AllocProc` | xv6-pdx/proc.c:42-89 | the first unused slot becomes an embryo with the next pid; none exactly when the table is full |
| `ProcTable.PTable.Wait` | xv6-pdx/proc.c:250-289 | reaps a zombie child if there is one, fails if there is no child or the caller was killed, and otherwise sleeps |
| `ProcLife.FamilyKept` | xv6-pdx/proc.c:149-289 | every step keeps parents live and parent chains leading to init |
| `ProcLife.WaitersKept` | xv6-pdx/proc.c:198-289 | every step keeps "no process asleep in wait has a zombie child" |
| `ProcLife.PagesKept` | xv6-pdx/proc.c:149-289 | every step keeps each stack and page directory owned by exactly one process and freed once |
| `ProcLife.ParentsLead` | xv6-pdx/proc.c:93-289 | in every run the parent chain of each live process reaches init through live processes |
| `ProcLife.NoWaitPastZombie` | xv6-pdx/proc.c:198-289 | in every run no process sleeps in wait while a child of it is a zombie |
| `ProcLife.ReapedByParent` | xv6-pdx/proc.c:198-289 | a zombie leaves the table only when its current parent reaps it |
| `ProcLife.PidsAreFresh` | xv6-pdx/proc.c:42-89 | a step that puts a process into a slot gives it the next number, and no step changes the number of a process |
| `ProcLife.PidsNeverReused` | xv6-pdx/proc.c:42-89 | over a run: a process that exists later has a number not handed out before, or it was in that slot all the time, so no number comes back after its process is gone |
| `ProcLife.PidsDistinct` | xv6-pdx/proc.c:42-89 | in every run a number other than 0 is in one slot at most, numbers left in unused slots included, so the first slot kill finds is the only one |
| `ProcLife.KilledIff` | xv6-pdx/proc.c:250-289 | in every run a slot is marked killed if and only if kill hit it and wait has not given it up since: nothing else sets or clears the mark |
| `ProcLife.BornKilledIff` | xv6-pdx/proc.c:42-89 | a process starts out killed if and only if kill hit its slot while the slot held no process past its fork, since wait last gave the slot up |
| `ProcLife.BornKilled` | xv6-pdx/proc.c:485-502 | a run in which kill finds the number of an unused slot and the next process there starts out killed |
| `ProcSleep.LifeCycle` | xv6-pdx/proc.c:42-289 | which step takes a process from which state to which, and that nothing else does |
| `ProcSleep.SleepEndsIff` | xv6-pdx/proc.c:198-238 | a sleep ends exactly by kill, by a wakeup of its channel, or by an exit it waits for, that of a child or of a process that leaves init a zombie |
| `ProcSleep.KillEndsSleep` | xv6-pdx/proc.c:485-502 | in every run no process hit by kill is still in the sleep it was in: asleep later, it has gone to sleep since |
| `ProcSleep.WakeupEndsSleep` | xv6-pdx/proc.c:454-478 | likewise for a process sleeping on a channel that was woken up |
| `ProcSleep.KilledNeverWaits` | xv6-pdx/proc.c:250-289 | in every run no killed process sleeps in wait |
| `ShellSyntax.LineParse` | xv6-pdx/sh.c:443-545 | a line that stands anywhere, with any blanks, redirections before, between and after the words, blocks, pipes, lists and any number of &, is read up to its end as the tree it means |
| `ShellSyntax.LineIs` | xv6-pdx/sh.c:443-545 | a line stands at a position in that sense if and only if it is well-formed and its text is there |
| `ShellSyntax.ReadsAsMeant` | xv6-pdx/sh.c:426-545 | parsecmd reads every command as it is meant, however it is written: the words in order, each redirection with its file and descriptor, the last one outermost |
| `ShellSyntax.OneMeaning` | xv6-pdx/sh.c:426-545 | a line that can be taken apart in two ways means the same in both |
| `ShellAccepts.AcceptsExactly` | xv6-pdx/sh.c:426-545 | parsecmd accepts a line if and only if it is a command of the language written out, with at most nine words to a simple command, and then gives its meaning |
| `ShellRoundTrip.RoundTrip` | xv6-pdx/sh.c:364-545 | parsing the parenthesised printing of any command with symbol-free words and at most nine arguments gives the command back |
| `ShellRoundTrip.LineTrip` | xv6-pdx/sh.c:443-545 | the same for a command printed anywhere in a longer line, with the position after it |
| `ShellWords.WordsExact` | xv6-pdx/sh.c:364-545 | the spans a successful parse records are exactly the maximal words of the line, each of them and nothing else |
| `ShellWords.LineWords` | xv6-pdx/sh.c:443-458 | what parseline records between two positions is exactly the words between them |
| `ShellWords.TerminatedAt` | xv6-pdx/sh.c:547-592 | nulterminate overwrites exactly the ends of the recorded spans with NUL |
| `ShellWords.EndsOutside` | xv6-pdx/sh.c:547-592 | no end pointer lies inside a recorded word |
| `ShellWords.TokensReadBack` | xv6-pdx/sh.c:547-592 | after nulterminate every argument and file name reads back as exactly its token |
| `Shell.Parser.GetToken` | xv6-pdx/sh.c:364-407 | the cursor loop computes the specified token and leaves the cursor after the blanks behind it |
| `Shell.Parser.Peek` | xv6-pdx/sh.c:409-419 | true exactly when the next character other than blanks is one asked for; the blanks are skipped |
| `Shell.Parser.ParseRedirs` | xv6-pdx/sh.c:473-496 | the loop computes the specified redirections or the specified failure |
| `Shell.Parser.ParseArgs` | xv6-pdx/sh.c:514-545 | the argument loop computes the specified command, failure on the tenth argument included |
| `Shell.Parser.ParseLine` | xv6-pdx/sh.c:443-458 | the recursive parser over the shared cursor terminates on every input and computes the specified result |
| `Shell.Parser.ParsePipe` | xv6-pdx/sh.c:460-471 | likewise for a pipeline |
| `Shell.Parser.ParseExec` | xv6-pdx/sh.c:514-545 | likewise for a simple command or block |
| `Shell.Parser.ParseBlock` | xv6-pdx/sh.c:498-512 | likewise for a command in parentheses |
| `Shell.Parser.NulTerminate` | xv6-pdx/sh.c:547-592 | the recursive walk overwrites the buffer as specified |
| `Shell.Parser.ParseCmd` | xv6-pdx/sh.c:426-441 | the buffer is left with every word of the parsed command as a C string, and untouched when parsing fails |
| `Grep.HereLit` | xv6-pdx/grep.c:84-96 | a literal or dot matches here exactly when the first character fits and the rest matches |
| `Grep.HereStar` | xv6-pdx/grep.c:98-106 | a starred character matches here exactly when the rest matches after some number of fitting characters |
| `Grep.HereEnd` | xv6-pdx/grep.c:84-96 | a final dollar matches exactly at the end of the text |
| `Grep.MatchHere` | xv6-pdx/grep.c:84-96 | true exactly when a prefix of the text is in the language of the pattern |
| `Grep.MatchStar` | xv6-pdx/grep.c:98-106 | true exactly when some number of fitting characters is followed by a match of the rest |
| `Grep.Match` | xv6-pdx/grep.c:72-82 | true exactly when some substring, anchored as written, is in the language of the pattern |
| `PageTable.FramesDistinct` | xv6-pdx/vm.c:45-90 | in any state that keeps the invariant, no two pages of any address spaces show the same frame, and no page shows a directory or a table |
| `PageTable.AllowedBits` | xv6-pdx/mmu.h:132-146 | a page may be written, or used by the user, exactly if the entries of both levels say so |
| `PageTable.FlagsCount` | xv6-pdx/vm.c:45-65 | in any state that keeps the invariant no directory entry takes away what a page entry allows |
| `PageTable.LinkTable` | xv6-pdx/vm.c:45-65 | hooking a zeroed frame into a directory as a page table, present, writable and for the user, keeps one use per frame and these bits in every directory entry, and changes no page of any address space |
| `PageTable.SetPage` | xv6-pdx/vm.c:70-90 | entering a held frame maps exactly that page, with its flags and content; every other page of every space shows the same |
| `PageTable.ClearPage` | xv6-pdx/vm.c:249-273 | clearing an entry unmaps exactly that page and releases exactly its frame |
| `PageTable.SetKernelPage` | xv6-pdx/vm.c:70-90 | entries above KERNBASE never change what a user page shows |
| `PageTable.RetireDir` | xv6-pdx/vm.c:277-292 | a directory without user pages can be given up with its tables and nothing else loses its use |
| `Vm.AlignedVisits` | xv6-pdx/vm.c:249-273 | from an aligned address, or one whose table exists, deallocuvm's loop looks at a page if and only if the page is in range and has a table |
| `Vm.SkipLands` | xv6-pdx/vm.c:249-273 | from an address without a table the loop comes down in the next table as far into it as it was before, and looks at exactly the pages from there on that have a table |
| `Vm.VisitsIff` | xv6-pdx/vm.c:249-273 | from any address the loop looks at a page if and only if the page is in range, has a table and is not among those stepped over: the first pages of the next table, up to the offset the loop started with |
| `Vm.AllReachedIff` | xv6-pdx/vm.c:249-273 | the loop looks at every mapped page if and only if none is mapped past its end and none is stepped over |
| `Vm.MissedByLoop` | xv6-pdx/vm.c:249-273 | a memory that keeps all invariants with a mapped page that is stepped over |
| `Vm.MissedPage` | xv6-pdx/vm.c:249-273 | deallocuvm from 1025 pages down to one on that memory leaves page 1024 mapped |
| `Vm.PrefixVisited` | xv6-pdx/vm.c:249-273 | where the mapped pages are a prefix, the step misses none of them, aligned or not |
| `Vm.Machine.FreeRange` | xv6-pdx/kalloc.c:45-52 | exactly the frames of the range join the free list |
| `Vm.Machine.Kalloc` | xv6-pdx/kalloc.c:82-95 | pops the head of the chain through the free frames, and fails exactly when no frame is free |
| `Vm.Machine.Kfree` | xv6-pdx/kalloc.c:59-77 | pushes the frame; with one use per frame its panic is unreachable and no page of any space changes |
| `Vm.Machine.Walk` | xv6-pdx/vm.c:45-65 | finds or makes the table, fails exactly when there is none and none may or can be made, and changes no page; a directory entry it makes allows all that page entries may |
| `Vm.Machine.MapUser` | xv6-pdx/vm.c:70-90 | maps the page with what its entry allows allowed at both levels, or fails with nothing changed exactly when its table is missing and no frame is free |
| `Vm.Machine.MapKernel` | xv6-pdx/vm.c:70-90 | maps the whole range, or runs the free list dry, as the frames for its tables suffice or not |
| `Vm.Machine.SetupKvm` | xv6-pdx/vm.c:128-144 | with 65 free frames the kernel part is mapped as specified and nothing else; with fewer it fails and every free frame is lost |
| `Vm.KernelAccess` | xv6-pdx/vm.c:103-144 | at both levels: exactly the pages of memory and devices are there, each at its frame; the kernel may write all of them but its text, and the user may use none |
| `Vm.CountTables` | xv6-pdx/vm.c:70-90 | the number of tables a range of pages takes |
| `Vm.Machine.AllocUvm` | xv6-pdx/vm.c:220-243 | the exact outcome by the number of free frames, on a space with or without holes: all pages mapped and zeroed, or all pages given back while the tables made stay with the directory, or one frame lost for want of a table, in the last page with success reported |
| `Vm.GrownUsable` | xv6-pdx/vm.c:220-243 | the pages a growth adds hold zeros, and the user may read and write them |
| `Vm.Machine.DropPages` | xv6-pdx/vm.c:249-273 | exactly the pages the loop looks at are unmapped and exactly their frames are freed, whatever is mapped |
| `Vm.Machine.DeallocUvm` | xv6-pdx/vm.c:249-273 | on any space: exactly the pages between the sizes that are not stepped over are unmapped and exactly their frames freed; everything from the new size on is gone if and only if the loop reaches every mapped page |
| `Vm.Machine.FreeVm` | xv6-pdx/vm.c:277-292 | every frame of the space, pages, tables and directory, is free again, each freed once, and no other frame changes use |
| `Vm.Machine.CopyUvm` | xv6-pdx/vm.c:309-337 | on any space, by the first page that is not mapped and the number of free frames: panics if and only if the frames last to a page that is not mapped, fails if and only if they do not, and otherwise the copy has equal flags and contents in frames that were free and the original is untouched; on failure at most one frame is lost, exactly when the frames left leave none for a table |
| `Vm.CopyStuck` | xv6-pdx/vm.c:309-337 | the closed form of when a failing copy loses a frame: the frames available are one more than a multiple of 1025 |
| `Vm.Machine.GrowProc` | xv6-pdx/proc.c:126-144 | the exact outcome on a space with the holes earlier calls left: growing succeeds with the frames it needs, or with one frame less when the last page needs a table, and then that page is a hole; otherwise it fails and no page and not the size changes; shrinking unmaps exactly the pages above the new size that its loop reaches, and the space is the smaller one if and only if it reaches them all, which it does when there are no holes; shrinking to nothing frees the pages and leaves the size |
| `Vm.HolesHistory` | xv6-pdx/proc.c:126-144 | over any sequence of growproc calls in which no shrinking steps over a mapped page, with other processes taking and freeing frames between, the pages below the size are mapped but for the holes, and a page is a hole if and only if some call made it one and the size has covered it since |
| `Vm.ForkMeetsHole` | xv6-pdx/vm.c:309-337 | after such a sequence copyuvm comes to an unmapped page if and only if some call made a hole that is still there |
| `Vm.FirstHole` | xv6-pdx/vm.c:309-337 | the page where copyuvm panics is the lowest hole, and there is one if and only if there is a hole |
| `FsBlocks.WithWordAt` | xv6-pdx/fs.c:369-384 | a block number written into an indirect block is read back, and the other entries stay |
| `FsBlocks.SlotsDistinct` | xv6-pdx/fs.c:349-384 | no block is in two places: equal addresses mean the same file and the same block of it |
| `FsBlocks.BitSetIff` | xv6-pdx/fs.c:53-93 | a bit of the bitmap is set if and only if its block is metadata or in a place of a file, never both, and then in one place of one file |
| `FsBlocks.ContentSame` | xv6-pdx/fs.c:434-458 | a file whose blocks are untouched has the same content |
| `FsBlocks.LinkAddr` | xv6-pdx/fs.c:356-384 | giving a new block to an address slot keeps one use per block and changes no other file |
| `FsBlocks.LinkEntry` | xv6-pdx/fs.c:367-380 | giving a new block to an entry of an indirect block keeps one use per block and changes no other file |
| `FsBlocks.WriteSlot` | xv6-pdx/fs.c:462-492 | rewriting a data block changes that block of that file only |
| `FsBlocks.DropIndirect` | xv6-pdx/fs.c:391-419 | detaching an indirect block releases it and exactly the blocks it names |
| `Fs.FileSys.BAlloc` | xv6-pdx/fs.c:53-75 | the first block whose bit is clear, marked and zeroed; none exactly when all are in use |
| `Fs.FileSys.BFree` | xv6-pdx/fs.c:78-93 | the bit is set when it is cleared: "freeing free block" cannot happen for a block in use |
| `Fs.FileSys.BMap` | xv6-pdx/fs.c:356-384 | an existing block is returned with nothing changed; otherwise exactly that block of the file is new, taken with its indirect block from the free blocks and from nothing else; it panics if and only if fewer are free than the one or two it needs |
| `Fs.FileSys.ReadI` | xv6-pdx/fs.c:434-458 | returns the slice of the file's bytes clipped to its size, fails exactly past the end or on 32-bit overflow, and changes nothing: no block is allocated and nothing is logged |
| `Fs.FileSys.WriteI` | xv6-pdx/fs.c:462-492 | fails with nothing changed, or panics if and only if fewer blocks are free than the closed-form cost of the write, or splices the bytes into the file; it takes exactly that many free blocks, all into places of this file; no other file and no other block changes use, the invariants are kept, and the copy on disk is current also when iupdate is skipped |
| `Fs.FileSys.WriteThenRead` | xv6-pdx/fs.c:434-492 | what writei has written, readi reads back |
| `Fs.FileSys.ITrunc` | xv6-pdx/fs.c:391-419 | the file is empty and exactly its blocks are free |
| `Fs.FileSys.IFree` | xv6-pdx/fs.c:317-336 | iput's last step frees the inode and exactly its blocks |
| `Fs.FileSys.IAlloc` | xv6-pdx/fs.c:176-196 | the first free inode is marked with the type asked for and is zero otherwise; none exactly when all are in use; no block is lost with it |
| `Fs.FileSys.FileWrite` | xv6-pdx/file.c:117-155 | all bytes are written, or whole chunks up to the size limit, or nothing when the offset is past the end, as a closed form says; the bytes are spliced in and no other file changes; it panics if and only if the free blocks do not suffice for that many |
| `FsLogged.ChunkCount` | xv6-pdx/file.c:125-132 | the exact number of blocks a write logs: those it reaches, the bitmap for new ones and the indirect block if they need it, the inode if the file grows, none counted twice |
| `FsLogged.ChunkFitsIff` | xv6-pdx/file.c:125-132 | a chunk keeps to the 10 blocks an operation may log if and only if it reaches at most 10 blocks, 9, 8 or 7, as the file keeps its size, grows within its last block, into new direct or into new indirect blocks |
| `FsLogged.FullChunkExceeds` | xv6-pdx/file.c:125-132 | no full chunk of filewrite keeps to it: it logs 13 to 17 blocks, and 17 when appended at the end of the last direct block |
| `FsLogged.SafeChunkIff` | xv6-pdx/file.c:125-132 | a chunk size keeps to it at every offset if and only if it is at most 3073 bytes, where filewrite uses 6656 |
| `Mkfs.Image.IAppend` | xv6-pdx/mkfs.c:253-297 | fails if and only if the largest file or the image would be exceeded; otherwise the bytes are appended to the file, no other file changes, and blocks are handed out in order to exactly one slot each, as many as the closed form says |
| `Mkfs.Image.Bitmap` | xv6-pdx/mkfs.c:237-251 | the bitmap marks exactly the blocks in use |
| `Mkfs.RootFixed` | xv6-pdx/mkfs.c:158-163 | rounding the root size up keeps every file with exactly the blocks of its size if and only if the directory does not fill its last block |
| `Mkfs.Image.Build` | xv6-pdx/mkfs.c:68-168 | succeeds if and only if the root directory and every file stay within the largest file, all of them within the image, and the blocks used within one bitmap block; then the image keeps one use per block and the bitmap of it, no block is lost, the blocks set aside are metadata, the root is a directory and every argument a file, each with one link, a free inode holds nothing, it holds the files given, and is sound if and only if the number of root entries is not a multiple of 32 |
| `Mkfs.MakeAndMount` | xv6-pdx/mkfs.c:18-168 | mkfs with its layout and the kernel mounting the image: exactly when the image is built and sound, the file system starts with every invariant that reading and writing rely on, bitmap and inode blocks are metadata, the inodes have their types and one link each, and it holds the files given |
| `InodeCache.StepKeeps` | xv6-pdx/fs.c:170-336 | every step of iget, ilock, iunlock, iupdate, iput and ialloc keeps the invariant of cache and disk, whatever inode number iget is given |
| `InodeCache.OneSlot` | xv6-pdx/fs.c:217-251 | in every run an inode is in at most one slot and whoever has it locked holds a reference |
| `InodeCache.NeverStale` | xv6-pdx/fs.c:264-336 | in every run what a process sees of an inode it has locked and read is what was last written to disk for it |
| `InodeCache.NoTypePanic` | xv6-pdx/fs.c:264-295 | ilock never finds an inode without a type in a run whose lookups each name an inode that has a type and is neither being made by ialloc nor being freed by iput |
| `InodeCache.LookupSafeIff` | xv6-pdx/fs.c:217-295 | after such a run, one more lookup leads to no panic of ilock if and only if it names an inode of that kind too |
| `InodeCache.LinkedIsAlive` | xv6-pdx/fs.c:505-529 | an inode with links is of that kind, so finding it in a directory that counts it is safe |
| `InodeCache.StaleEntryPanics` | xv6-pdx/sysfile.c:182-236 | a run that panics: a directory is removed and given up, and a process whose working directory was inside it follows the ".." that still names it |
| `InodeCache.NoBusyPanic` | xv6-pdx/fs.c:310-336 | iput never finds its inode busy |
| `InodeCache.ReuseWaitsAndRereads` | xv6-pdx/fs.c:176-336 | in every run whoever gets an inode number that iput is still freeing waits for the lock and then has to read the inode from disk |
| `InodeCache.ReuseFindsNew` | xv6-pdx/fs.c:176-336 | and with lookups of that kind only, what it finds there is the new inode that ialloc has put there |
| `InodeCache.NoOrphan` | xv6-pdx/fs.c:310-336 | in every run without a crash an inode in use without links is referenced or about to be, so its last iput frees it, unless it was left over on the disk the run started from |
| `InodeCache.RebootOrphansIff` | xv6-pdx/fs.c:310-336 | a crash, which undoes what was not committed, leaves an inode in use that nobody will free and that was none before if and only if some process had an inode without links open at the last commit |
| `InodeCache.OrphanAfterCrash` | xv6-pdx/fs.c:310-336 | a run whose crash leaves such an inode: the last link of an open file goes, that is committed, and the machine goes down |
| `InodeCache.OrphanStays` | xv6-pdx/fs.c:217-336 | in every run from a disk with such an inode, with lookups of inodes with links, no step changes it or puts it into the cache, so it is never freed |
| `InodeCache.OrphanForever` | xv6-pdx/fs.c:217-336 | nor over any number of further crashes and reboots |
| `InodeHistory.RefsAreCounted` | xv6-pdx/fs.c:217-336 | in every run a process has exactly as many references to a slot as it took by iget and idup and did not give back by iput |
| `InodeHistory.ChangeReachesDisk` | xv6-pdx/fs.c:198-295 | in every run what a process makes of an inode it has locked stays until it changes it again or unlocks it, and iupdate writes exactly that to the inode on disk |
| `InodeHistory.FreedAreEmpty` | xv6-pdx/fs.c:310-336 | in every run an inode is truncated before it is freed: no free inode has data, if none had at the start |
| `InodeHistory.NewIsUntouched` | xv6-pdx/fs.c:176-251 | in every run whose lookups find inodes with links, a new inode stays as ialloc made it, and nobody else gets at it, until its maker locks it |
| `InodeHistory.NewReachesMaker` | xv6-pdx/fs.c:176-295 | so what the maker reads when it has the lock is that inode |
| `InodeCache.ICache.IGet` | xv6-pdx/fs.c:217-251 | the scan returns the slot in use for the inode or else the first empty one, and fails exactly when there is neither |
| `InodeCache.IGetIsLookup` | xv6-pdx/fs.c:217-251 | what that scan does is a step of the protocol |

## Left out

- Device drivers, boot code and assembly: the disk is the one of `memide.c`, a context switch is one atomic transfer of control.
- Console input and output, `procdump`, `ps`, `time` and `date`: display only.
- The `CS333_P3P4` and `CS333_P5` branches: not part of the default build.
- System call dispatch and argument fetching, `exec` and `loaduvm`, `inituvm`, `clearpteu`, `uva2ka` and `copyout`: they would add easy members around the modelled functions.
- Directories and path names (`dirlookup`, `dirlink`, `namex`): an inode is found by its number, and a lookup may name any inode; which numbers a path leads to is not modelled.
- Device inodes: `readi` and `writei` are modelled for files that are not devices.
- `runcmd` and the shell's builtins, grep's read buffer: process effects and input, not parsing or matching.
- Interrupt masking in `pushcli` and `popcli`, and the order of memory accesses between processors: a lock is taken and released in one step.
- The scheduler's choice of process and its tick accounting: any runnable process may be dispatched.
- Open files, the trap frame and the user id in `fork`: only state, parent, stack and page directory of a process are modelled.
- The packing of bitmap bits into bytes: the bitmap is a sequence of bits, scanned in the source's order.
- Log.FsLog.Commit: one process at a time; the interleavings are in `LogProtocol`.
- LogProtocol: what appending past LOGSIZE would do to the memory behind the list; runs within quota do not get there (`LogReservation.RunReserved`), nor does any run on the shipped sizes (`LogReservation.SmallCacheRoomy`).
- FsLogged.ChunkCount: counts distinct blocks, with one bitmap block as in the shipped image; `log_write` calls for a block already listed are not counted (what that count is good for: `LogDistinct`).
- ProcLife.PidsNeverReused: the counter of process numbers does not wrap around.
- Umalloc.Allocator.Malloc: requests whose units come to 2 GB or more are not modelled, since the argument of `sbrk` would turn negative; the answer of `sbrk` is a parameter.
- Fs.FileSys.WriteI: says nothing about the state after the panic for lack of blocks.
- Fs.FileSys.ITrunc: the address of the indirect block is cleared before the blocks it leads to are freed, not after; nobody sees the inode in between.
- Vm.Machine.DropPages: a page's entry is cleared before its frame is handed back, not after; nobody uses the space in between.
- Vm.Machine.Walk: a frame is 1024 words, so bytes within a page are not told apart.
- Shell.Parser.ParseExec: the redirections are collected and wrapped around the command when its words are known; the source wraps the record first and fills it through a pointer.
- InodeCache.StepKeeps: `ialloc` takes any free inode here, the first one in `Fs.FileSys.IAlloc`.
- Mkfs.Image.Build: the content of a file is appended at once, not in reads of 512 bytes; that there are inodes enough is required, since `mkfs` does not look.
- Vm.Machine.GrowProc: the pages below the size are mapped but for holes, and none above it is; every call leaves the space so, except a shrink that steps over mapped pages, and calls after such a shrink are not modelled.
- InodeCache.OrphanStays: that no lookup leads to the inode is taken from the lookups naming inodes with links; that a path leads to no other is not modelled, since directories are not.
- Mkfs.MakeAndMount: an image whose root directory fills its last block is not mounted.
- InodeHistory.NewIsUntouched: likewise for runs whose lookups name inodes with links; a stale ".." can lead to the new inode before its maker has it (`InodeCache.LookupSafeIff`).
- SleepWakeup: sleep with ptable.lock itself, as in `wait`, is one step here (`ProcLife`).
