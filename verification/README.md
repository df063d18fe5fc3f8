# A verified model of xv6

This project models the core of the xv6 kernel and of two of its user programs in
Dafny and proves what that code is for.  The code lives under `xv6/`; each module
says which files it models.

The parts, and the results to read first:

* **Crash-safe log over the buffer cache** (`Blocks`, `Crash`, `Bio`, `Log`,
  `LogRun`, `CacheRun`, `Reservation`).  The classes `Bcache` and `RedoLog` work in place on
  the buffer array, its linked ring and the in-memory header; their commit and
  recovery issue exactly the disk writes that `Crash.CrashAtomicity` is about.
  `LogRun` puts any number of processes and crashes into one step system:
  `BreadReturnsLatest` and `CrashRecoversLastCommit` hold over all its runs.
  `CacheRun` ties the two together: operations of the classes are runs of steps, and
  in every run a commit makes the disk writes of `RedoLog.Commit`.
  `Reservation.NeverPanicsIff` gives the exact size of operation that is safe.
* **Files** (`Bitmap`, `Inodes`, `Files`, `FileWrite`).  Byte-level bitmap, inode
  and indirect blocks.  A ghost record of the one use of every block is tied to
  bitmap and inodes in both directions.  `Writei` is a splice of the byte sequence
  of the file, `Readi` a slice, `Itrunc` the inverse of growth; each panics exactly
  when fewer blocks are free than it needs.  A sound system, in which every file has
  exactly the blocks of its size and every inode is on disk as in core, stays sound.
  Operations of `FileWrite` never fill the log (`WritesNeverPanic`).
* **Names** (`Links`, `Dirents`).  Link counts, unique names and the directory tree
  over all runs, and exactly when creating in an unlinked directory breaks them.
  `Dirents` carries this to the bytes on disk: link, unlink, create and the end of
  iput, done with `Readi` and `Writei` on sixteen-byte records, are the operations of
  `Links`.
* **Memory** (`Vm`).  Two-level page tables stored in the pages they map refine a
  flat map; every page has one use; failures give back what was taken, and each
  operation succeeds exactly when the pages it needs are free.
* **Processes and locks** (`Proc`, `ProcRun`, `ProcHistory`, `SleepLock`,
  `PriorityLock`).  fork, exit, wait, kill, sleep and wakeup over all runs: families
  and marks are what the history of calls says, `WaitIff` gives what wait returns, and
  no exit or kill is missed by a process asleep in wait.
* **Pipes** (`Pipe`, `PipeHistory`).  With every byte labelled by the call that wrote
  it, the bytes of a call go in once, in order and, unless it is cut short, all of them
  (`WritesInOrder`, `WriteCompletes`); readers get them in that order (`Conservation`).
* **Shell parser** (`Shell`, `ShellPrint`, `ShellTally`).  Every way to print a command
  tree parses back to it (`RoundTrip`), and every accepted line keeps all its words,
  redirections and operators (`CommandTally`).
* **User heap** (`Heap`) and **regular expressions** (`Regex`).

State that the source changes in place is a class with arrays and fields; its
methods are tied to functions on values, and the theorems are about those
functions.  Protocols between processes are step systems: a step is what the
source does from taking a spin lock to giving it up, and theorems quantify over
all runs.  `Basics` holds shared definitions.

Five promises of the code or its comments hold only under a condition.  Each has
its exact condition and a concrete failing case:

* `xv6/param.h` names MAXOPBLOCKS as the number of blocks an operation may write;
  the log is safe for one block less (`Reservation.NeverPanicsIff`,
  `Reservation.TenIsNotSafe`).
* A process may start out killed, in two ways: `kill` compares the pids of unused
  slots too, so `kill(0)` or the pid of a fork that failed marks a free slot; and a
  fork that fails after its new process was killed leaves the mark behind
  (`ProcRun.UnmarkedIff` and over runs `ProcRun.UnmarkedRun`; `ProcRun.BornKilled`,
  `ProcRun.BornKilledByFailedFork`).
* `writei` and `readi` leave the inode on disk behind the one in memory when they
  fill a hole below the size that needs a new address in the inode
  (`Files.FileSystem.Writei`, `Files.FileSystem.Readi`; `FileWrite.ReadLosesInode` is
  such a read, on an image as mkfs makes it; `Files.ExactHasAddrs` shows that files
  without holes are not affected, and `FileWrite.RoundedExactIff` when mkfs leaves
  such a hole).
* `create` and `link` in an unlinked directory break the link counts
  (`Links.CreateIff`, `Links.LinkEndIff`, with the runs `Links.CreateInUnlinked` and
  `Links.LinkInUnlinked`).  So would counting past the largest short
  (`Links.LinkBeginIff`); on the image mkfs builds, of 1000 blocks with 32 entries
  each, there are too few entries for that (`Links.CountFits`).
* A writer that is killed on a full pipe returns without waking readers
  (`Pipe.ReadersIff` and over runs `Pipe.ReadersRun`; `Pipe.ReaderLeftAsleep`).

`dafny verify dfyconfig.toml` checks the project.

## Model

| member | source | states |
|---|---|---|
| `Crash.HeadRoundTrip` | xv6/log.c:85-113 | the list write_head stores is the list read_head reads, whatever the header block held before |
| `Crash.RecoverPrefix` | xv6/log.c:69-82 | a crash after any number of the copies install_trans makes in recovery changes neither the header nor what the disk means; after all of them the home blocks hold the committed contents |
| `Crash.RecoverAll` | xv6/log.c:115-122 | a finished recovery installs the committed contents and clears the header |
| `Crash.CommitPrefix` | xv6/log.c:192-202 | after any prefix of the disk writes of commit the disk means the old home blocks up to the header write, and the old blocks overlaid with the whole transaction from it on |
| `Crash.CrashAtomicity` | xv6/log.c:69-202 | a crash after any prefix of the writes of commit, then any number of crashes inside recovery, then a finished recovery: every home block is old, or every home block is as the whole transaction leaves it; which of the two depends on the header write alone |
| `Bio.ReadKeeps` | xv6/bio.c:96-106 | reading a block keeps the cache coherent and one buffer per block, and changes no content and no pin |
| `Bio.WriteKeeps` | xv6/bio.c:109-116 | copying a buffer to disk keeps coherence and changes no content a reader sees |
| `Bio.FillKeeps` | xv6/log.c:77 | filling a held buffer changes the content of its own block only |
| `Bio.PinKeeps` | xv6/log.c:231 | setting B_DIRTY on a held buffer pins its block and nothing else |
| `Bio.ReleaseKeeps` | xv6/bio.c:120-141 | releasing a buffer that agrees with the disk or is pinned keeps the cache coherent |
| `Bio.BusyIsFew` | xv6/bio.c:78-92 | fewer pinned blocks and held buffers than NBUF leave a buffer that is neither |
| `Bio.VictimExists` | xv6/bio.c:78-92 | with pinned blocks and held buffers together below NBUF, the second loop of bget finds a victim |
| `Bio.ToFrontPermutes` | xv6/bio.c:129-138 | moving a buffer to the front keeps the order a permutation of all buffers |
| `Bio.ToFrontIs` | xv6/bio.c:129-138 | the buffer moved is first, and any two others keep their order |
| `Bio.Recency` | xv6/bio.c:118-141 | after any releases from boot on, one buffer is ahead of another in the ring if and only if its last release was later; buffers never released are behind, in the order binit left |
| `Bio.VictimIsOldest` | xv6/bio.c:78-92 | the buffer the second loop of bget takes is, of those that are unreferenced and clean, the one released longest ago |
| `Bio.LinkFirst` | xv6/bio.c:134-137 | the four assignments of binit and brelse put a detached buffer first in a ring whose prev is the inverse of its next |
| `Bio.LinkOut` | xv6/bio.c:132-133 | the two assignments of brelse take a buffer out of the ring and leave the order of the rest |
| `Bio.Bcache.constructor` | xv6/bio.c:38-56 | binit leaves a valid cache over the given disk with nothing cached and the ring through all buffers |
| `Bio.Bcache.Lookup` | xv6/bio.c:68-76 | the first loop returns the one buffer that caches the block, or the list head if none does |
| `Bio.Bcache.Oldest` | xv6/bio.c:78-92 | the second loop returns, among the buffers that are unreferenced and clean, the one whose last release is oldest in the history of all releases |
| `Bio.Bcache.BGet` | xv6/bio.c:61-93 | the cached buffer, else the least recently released recyclable one rekeyed, else the panic; the disk and all other buffers stay |
| `Bio.Bcache.Iderw` | xv6/memide.c:35-60 | a dirty buffer goes to its disk block and becomes clean, a clean one is filled from it; either way it ends valid |
| `Bio.Bcache.BRead` | xv6/bio.c:95-106 | returns the locked buffer filled for the block, as the value lemma ReadKeeps describes it; the disk stays; refuses exactly when the block is not cached and no buffer is recyclable |
| `Bio.Bcache.BWrite` | xv6/bio.c:108-116 | the disk block becomes the data of the buffer; one write is added to the trace |
| `Bio.Bcache.BRelse` | xv6/bio.c:118-141 | unlocks; the last release moves the buffer to the front of the ring and is added to the history of releases that the ring order follows; contents, pins and disk stay |
| `Log.SlotExists` | xv6/bio.c:61-93 | a bread finds a buffer while fewer than NBUF blocks are pinned and buffers held |
| `Log.RedoLog.BeginOp` | xv6/log.c:125-141 | admits exactly when not committing and the reservation of all open operations and one more fits LOGSIZE |
| `Log.RedoLog.Search` | xv6/log.c:224-227 | the position of the block in the header list, or its end |
| `Log.RedoLog.LogWrite` | xv6/log.c:213-233 | absorbs: the block is in the list once and pinned, all else as before; refuses exactly where the source panics |
| `Log.RedoLog.WriteLog` | xv6/log.c:176-190 | issues one write per logged block, of its cached content, to consecutive log blocks, and disturbs no home content |
| `Log.RedoLog.WriteHead` | xv6/log.c:101-113 | issues the one write of the header block with the in-memory list |
| `Log.RedoLog.InstallTrans` | xv6/log.c:69-82 | issues one write per logged block, from the log to its home, and unpins exactly those blocks |
| `Log.RedoLog.Commit` | xv6/log.c:192-202 | issues exactly the writes of the crash theorem, in order, never lacks a buffer, and leaves every home block on disk as readers saw it |
| `Log.RedoLog.ReadHead` | xv6/log.c:84-96 | the in-memory list becomes the list of the header block |
| `Log.RedoLog.RecoverFromLog` | xv6/log.c:115-122 | issues exactly the writes of the recovery theorem and leaves an empty log |
| `Log.RedoLog.EndOp` | xv6/log.c:143-174 | the last open operation commits; any other only lowers the count |
| `Log.CommitComposes` | xv6/log.c:192-202 | the four phases of commit, run after each other, are its write sequence |
| `Log.CommitEnds` | xv6/log.c:192-202 | after all of commit the header is clear and home blocks hold what readers saw |
| `Log.RecoverComposes` | xv6/log.c:115-122 | the phases of recovery, run after each other, are its write sequence |
| `LogRun.RunInv` | xv6/log.c:125-233 | in every interleaving of any number of processes with crashes anywhere: one buffer per block, filled unchanged buffers show the latest content, the dirty blocks are exactly those logged and not yet home, and the disk recovers the last commit |
| `LogRun.LatestIsLastLogged` | xv6/log.c:213-233 | the content the invariant calls latest is what the history of the run last gave to log_write, or what the last crash recovered |
| `LogRun.BreadReturnsLatest` | xv6/bio.c:96-106 | every filled, unchanged buffer of a home block holds what was last given to log_write for it, in every run |
| `LogRun.BufferStays` | xv6/bio.c:61-93 | a process waiting for or holding a buffer keeps it for the same block until it releases it |
| `LogRun.RecoversCommitted` | xv6/log.c:115-122 | what a reboot finds at any moment is the committed content |
| `LogRun.CommittedStep` | xv6/log.c:192-202 | the committed content changes only at the header write of a commit |
| `LogRun.CrashRecoversLastCommit` | xv6/log.c:125-202 | in every run, a crash at any moment and any number of crashes in recovery bring back exactly the contents at the last commit, taken when no operation was open |
| `CacheRun.InvShows` | xv6/log.c:125-233 | in every state of the interleaved system between commits the buffers meet what the sequential classes require: one coherent buffer per block, pins exactly the logged blocks, a clear header |
| `CacheRun.ReadSteps` | xv6/bio.c:95-106 | what BRead leaves is what a run of bget, acquiresleep and the disk read leaves |
| `CacheRun.ReleaseSteps` | xv6/bio.c:118-141 | brelse is one step, and the agreement with the disk that BRelse requires holds before it |
| `CacheRun.WriteSteps` | xv6/log.c:213-233 | a change of a buffer and log_write are one step each |
| `CacheRun.CommitStep` | xv6/log.c:192-202 | any step taken during a commit makes the next disk write of the commit or none |
| `CacheRun.CommitTrace` | xv6/log.c:192-202 | in every run the disk writes since a commit began are a prefix of those RedoLog.Commit makes, and all of them at its end, whatever other processes do meanwhile |
| `Reservation.ReservationHolds` | xv6/log.c:125-141 | in every interleaving the blocks logged plus the unused shares of open operations are at most LOGSIZE, and no operation is open during a commit |
| `Reservation.NineIsSafe` | xv6/log.c:213-233 | operations of at most MAXOPBLOCKS - 1 blocks never reach the panic of log_write, though it tests the size outside the lock |
| `Reservation.TenIsNotSafe` | xv6/log.c:218-219 | a run of three operations of MAXOPBLOCKS blocks each that reaches the panic |
| `Reservation.NeverPanicsIff` | xv6/param.h:10-11 | log_write never panics if and only if operations keep to MAXOPBLOCKS - 1 blocks |
| `Heap.NUnitsEnough` | xv6/umalloc.c:69 | the unit count covers the request exactly when the 32-bit addition does not wrap |
| `Heap.SbrkArgExact` | xv6/umalloc.c:54 | sbrk is asked for the right number of bytes exactly below 2^28 units |
| `Heap.FreedOk` | xv6/umalloc.c:24-44 | free keeps free and live blocks a tiling of all units from sbrk, the list sorted and without touching neighbours, and every other live block |
| `Heap.FreeGap` | xv6/umalloc.c:33-42 | no two free blocks touch: a unit lies between them |
| `Heap.MaximalRun` | xv6/umalloc.c:33-42 | a free block is a maximal run of free units |
| `Heap.FreeListCanonical` | xv6/umalloc.c:24-44 | two sound heaps with the same free units have the same list with the same sizes |
| `Heap.FreeUnitIs` | xv6/umalloc.c:24-90 | the free units are the units of the arena outside every live block |
| `Heap.SameLiveSameList` | xv6/umalloc.c:24-90 | the free list depends on the arena and the live blocks only |
| `Heap.FreesCommute` | xv6/umalloc.c:24-44 | freeing two blocks in either order leaves the same list |
| `Heap.TakeWhole` | xv6/umalloc.c:76-77 | unlinking a block of the exact size keeps a sound heap |
| `Heap.TakeTail` | xv6/umalloc.c:78-82 | carving the tail keeps a sound heap |
| `Heap.FreeLinks` | xv6/umalloc.c:33-43 | the assignments of free to pointers and sizes describe the list and blocks it should leave |
| `Heap.FullTurn` | xv6/umalloc.c:74-88 | back at freep with nothing found, no block of the list fits |
| `Heap.GrownFree` | xv6/umalloc.c:86-89 | a run of n units that no live block covers lies in one free block, so the search after morecore finds a fit |
| `Heap.Allocator.constructor` | xv6/umalloc.c:21-22 | a heap that has obtained nothing is sound |
| `Heap.Allocator.FindSlot` | xv6/umalloc.c:29-32 | the search of free ends, at the list position the block falls after |
| `Heap.Allocator.Free` | xv6/umalloc.c:24-44 | the block leaves the live set, all other live blocks and the arena stay, and the heap is sound |
| `Heap.Allocator.MoreCore` | xv6/umalloc.c:46-61 | the arena grows by at least 4096 units, all of them free, exactly when sbrk grants them |
| `Heap.Allocator.Malloc` | xv6/umalloc.c:63-90 | the search ends also after morecore; a fresh live block of exactly the needed units; fails exactly when nothing fits and sbrk refuses; other live blocks stay |
| `Regex.TokensEndLast` | xv6/grep.c:85-96 | the end anchor is an anchor only as the last element of a pattern |
| `Regex.Unfold` | xv6/grep.c:85-96 | a piece for the first element and a match of the rest behind it make a match |
| `Regex.Fold` | xv6/grep.c:85-96 | a match splits into a piece for the first element and a match of the rest |
| `Regex.MatchesStar` | xv6/grep.c:98-106 | c* then the rest matches exactly when the rest matches here, or one c matches and the same holds behind it |
| `Regex.Match` | xv6/grep.c:72-82 | true exactly when the declarative meaning of the pattern holds for some part of the text |
| `Regex.MatchHere` | xv6/grep.c:84-96 | true exactly when the text begins with what the pattern describes; ends by a measure over text and pattern |
| `Regex.MatchStar` | xv6/grep.c:98-106 | true exactly when the text begins with c* followed by what the pattern describes |
| `PriorityLock.InsertSorted` | xv6/spinlock.c:62-91 | adding a new pid keeps the queue strictly descending and adds exactly that pid |
| `PriorityLock.RemoveHead` | xv6/spinlock.c:93-120 | removing a queued pid keeps the queue strictly descending and takes out exactly that pid |
| `PriorityLock.Waiters.LastAbove` | xv6/spinlock.c:81-85 | the loop stops at the last node the new one goes behind |
| `PriorityLock.Waiters.AddQueue` | xv6/spinlock.c:62-91 | the linked list becomes the old one with a fresh node where Insert puts it |
| `PriorityLock.Waiters.RmQueue` | xv6/spinlock.c:93-120 | the linked list loses exactly the node of the pid; fails exactly where the source panics |
| `PriorityLock.RunInv` | xv6/spinlock.c:62-154 | in every run the queue is strictly descending and holds each waiter once, and at most one process has the lock |
| `PriorityLock.NoPanic` | xv6/spinlock.c:122-154 | a pass of prior_acquire finds a nonempty queue and rm_queue finds the pid it removes |
| `PriorityLock.GrantToHighest` | xv6/spinlock.c:122-154 | each grant goes to the highest pid then queued |
| `PriorityLock.GrantIff` | xv6/spinlock.c:122-154 | in every run a pass of prior_acquire gets the lock if and only if nobody has it and no higher pid is queued, and then exactly that pid leaves the queue |
| `PriorityLock.StaysQueued` | xv6/spinlock.c:122-154 | a waiter stays queued until it is granted the lock itself |
| `PriorityLock.OvertakenOnlyByHigher` | xv6/spinlock.c:122-184 | between the arrival of a process and its grant only higher pids get the lock |
| `SleepLock.RunInv` | xv6/proc.c:417-474 | in every interleaving, with sleep split at its hand-over of locks: spin locks name their holders, pid names the owner exactly while locked, and every sleeper waits for a locked lock or has its wakeup coming |
| `SleepLock.NoLostWakeup` | xv6/sleeplock.c:21-48 | a process asleep on a sleep lock whose spin lock is free implies that it is locked |
| `SleepLock.MutualExclusion` | xv6/sleeplock.c:21-31 | at most one process has acquired a sleep lock, and its fields name that process |
| `SleepLock.OnlyOwnerReleases` | xv6/sleeplock.c:33-48 | the fields change only by an acquisition of a free lock or a release by the owner; any other release changes nothing |
| `SleepLock.AcquireReturns` | xv6/sleeplock.c:21-31 | in every run a call of acquiresleep is under way until it returns, and it returns only with the lock held by the caller |
| `SleepLock.ReleaseReturns` | xv6/sleeplock.c:33-48 | in every run a call of releasesleep returns only when the caller does not hold the lock |
| `Proc.ProcTable.AllocProc` | xv6/proc.c:73-116 | the first unused slot becomes an embryo with the next pid, or nothing changes when there is none |
| `Proc.ProcTable.Wakeup1` | xv6/proc.c:454-465 | exactly the sleepers on the channel become runnable |
| `Proc.ProcTable.Kill` | xv6/proc.c:476-497 | marks the first slot with the pid, used or not, and wakes it if it sleeps; reports whether there is one |
| `Proc.ProcTable.WaitOnce` | xv6/proc.c:270-312 | one pass: reaps the first exited child, or reports no children or kill, or goes to sleep on its own slot |
| `Proc.ProcTable.Exit` | xv6/proc.c:250-265 | the table becomes the one where the parent is woken, children belong to init, init is woken for an exited child, and the caller is a zombie |
| `Proc.OrphanStep` | xv6/proc.c:255-262 | one round of the loop of exit over the table extends the hand-over by one slot |
| `ProcRun.RunInv` | xv6/proc.c:73-312 | in every run of any number of processes: pids in use are distinct, each parent is live, sleepers in wait have no exited child, and exited but unreaped pids are exactly those of zombies |
| `ProcRun.NoMissedExit` | xv6/proc.c:270-312 | a process asleep in wait has no exited child, and each exited process has a live parent |
| `ProcRun.PidsDiffer` | xv6/proc.c:73-116 | two slots in use never have the same pid |
| `ProcRun.Records` | xv6/proc.c:228-312 | the recorded exits and reapings are those of the steps so far |
| `ProcRun.ReapedOnce` | xv6/proc.c:270-312 | a pid that wait returns exited before and is returned at no other step of the run |
| `ProcRun.ExitedStays` | xv6/proc.c:228-312 | an exited process that was not reaped is still there as a zombie |
| `ProcRun.UnmarkedIff` | xv6/proc.c:94-198 | a step keeps free slots unmarked if and only if it is neither a kill whose first slot with that pid is free nor the failure of a fork whose new process has been killed |
| `ProcRun.UnmarkedRun` | xv6/proc.c:73-497 | in every run no free slot has been marked so far if and only if no such step has been taken |
| `ProcRun.NewbornUnkilled` | xv6/proc.c:73-116 | as long as no such step was taken, every new process starts out not killed |
| `ProcRun.FreePids` | xv6/proc.c:94-198 | in every run the pid of a free slot is 0 or that of a fork that failed |
| `ProcRun.KillMarksIff` | xv6/proc.c:480-497 | in every run a kill marks a free slot if and only if the first slot with that pid is free, and then the pid is 0 or that of a fork that failed |
| `ProcRun.BornKilled` | xv6/proc.c:73-116 | a run of three steps in which a new process starts out killed, since kill(0) marked its free slot |
| `ProcRun.BornKilledByFailedFork` | xv6/proc.c:181-197 | a run of five steps in which a new process starts out killed, since the one killed before in its slot was a fork that then failed |
| `ProcHistory.KillSlot` | xv6/proc.c:480-497 | kill marks the first slot with the pid, which is the process of that pid if there is one, makes it runnable if it was asleep, and changes no other slot and no other field |
| `ProcHistory.NoKilledWaiter` | xv6/proc.c:270-312 | in every run a process asleep in wait has not been killed |
| `ProcHistory.AsleepIff` | xv6/proc.c:417-497 | a sleeping process becomes runnable at a wakeup of its channel, a kill of its pid or an exit it waits for, and at no other step; a process falls asleep exactly in sleep and in a wait with nothing to return, on the right channel |
| `ProcHistory.StateIff` | xv6/proc.c:73-497 | which steps, and only those, give a process the CPU or take it away, make it a zombie, take a slot or free one |
| `ProcHistory.WaitIff` | xv6/proc.c:270-312 | in every run, with the children counted from the forks, exits and waits so far: wait returns a child that has exited if there is one, else -1 if and only if there is no child or the caller has been killed, else sleeps |
| `ProcHistory.KinRun` | xv6/proc.c:181-312 | in every run the parent fields are the family that the history of forks, exits and waits gives, with init in place of an exited parent |
| `ProcHistory.ForkMakes` | xv6/proc.c:181-223 | in every run the process fork publishes is runnable, in the first slot that was free, with the next pid and the caller as parent |
| `ProcHistory.NoLostEmbryo` | xv6/proc.c:73-223 | in every run a half-made process belongs to a process that is inside fork |
| `ProcHistory.KilledIff` | xv6/proc.c:480-497 | in every run in which no free slot was marked, a process is marked killed if and only if kill was called with its pid while it was there |
| `Vm.MkPte` | xv6/vm.c:71 | an entry gives back its frame and its flags with the present bit |
| `Vm.TableAdded` | xv6/vm.c:43-52 | adding a zeroed page as a missing table changes the mapping of no directory |
| `Vm.EntryWritten` | xv6/vm.c:53-71 | writing one entry through its table changes the flat mapping at that page of that directory and nowhere else |
| `Vm.Machine.constructor` | xv6/kalloc.c:20-31 | a machine at boot is consistent and has no free page |
| `Vm.Machine.FreeRange` | xv6/kalloc.c:46-53 | exactly the pages of the range become free |
| `Vm.Machine.Kalloc` | xv6/kalloc.c:79-95 | takes the head of the free list, or reports none and changes nothing when it is empty |
| `Vm.Machine.Kfree` | xv6/kalloc.c:55-77 | puts a page that is not in use first on the free list; every mapping stays |
| `Vm.Machine.WalkPgdir` | xv6/vm.c:32-54 | the table of the page, made from a free page if absent and asked for; every mapping stays |
| `Vm.MissingNext` | xv6/vm.c:36-52 | mapping one page more of a range takes one table more if and only if no table is there for it yet |
| `Vm.MissingRest` | xv6/vm.c:217-247 | how many tables a range lacks when only its first may be there |
| `Vm.Machine.MapOne` | xv6/vm.c:66-76 | one entry is set and everything else maps as before; fails exactly when the table is absent and no page is free, and then nothing has changed |
| `Vm.Machine.MapPages` | xv6/vm.c:56-78 | succeeds if and only if as many pages are free as the range lacks tables, and takes exactly those; the pages map to consecutive frames with the given flags and all else maps as before; on failure a prefix of them |
| `Vm.Machine.DropOne` | xv6/vm.c:267-274 | one present user page is unmapped and its frame freed; all else stays |
| `Vm.Machine.DeallocUvm` | xv6/vm.c:249-277 | ends, also when it skips absent tables; frees exactly the frames of the present pages of the range, and all else maps as before |
| `Vm.Machine.FreeVm` | xv6/vm.c:279-296 | every user page, table and the directory itself become free, each once; all other pages keep use and contents |
| `Vm.Machine.AllocUvm` | xv6/vm.c:217-247 | succeeds if and only if the new pages and the tables they lack are free, and takes exactly those; then the range maps to fresh zeroed pages with user flags; on failure every mapping is as before and only tables were taken |
| `Vm.Machine.SetupKvm` | xv6/vm.c:115-134 | succeeds if and only if 65 pages are free, the directory and 64 tables; then a new directory maps exactly the kernel half; on failure the same pages are free as before |
| `Vm.KmapIs` | xv6/vm.c:101-113 | the four ranges of kmap together map physical memory from KERNBASE up, read-only below data, and the devices in place |
| `Vm.Machine.CopyUvm` | xv6/vm.c:311-343 | succeeds if and only if the pages of the process, their tables and the 65 of the kernel half are free, and takes exactly those; then each page has the flags and contents of the page of the parent in a fresh frame; on failure the same pages are free as before; the parent keeps mapping and contents |
| `Vm.TakenBack` | xv6/vm.c:311-343 | freeing a directory gives back every page taken for it, and everything else is as before |
| `Vm.Undone` | xv6/vm.c:233-244 | unmapping the range again after a failure leaves the old mapping and only new tables |
| `Vm.NoUsersLeft` | xv6/vm.c:288 | after deallocuvm of the whole user half no page is recorded as used by the directory |
| `Bitmap.MarkedBits` | xv6/fs.c:66-68 | setting or clearing the bit of a block changes that bit and no other |
| `Inodes.DinodeRoundTrip` | xv6/fs.c:220-236 | what iupdate stores in its slot ilock loads back, and the other inodes of the block stay |
| `Inodes.AllocatedOk` | xv6/fs.c:56-78 | marking and zeroing a free block keeps bitmap and ownership in step and no file reads differently |
| `Inodes.DataWritten` | xv6/fs.c:498-504 | writing one data block changes that block of that file only, since no block is shared |
| `Inodes.LinkedOk` | xv6/fs.c:372-400 | giving a file a zeroed block keeps ownership, and no file reads differently |
| `Inodes.TruncatedOk` | xv6/fs.c:402-435 | with its bits cleared and its addresses gone a file owns nothing and all other files read as before |
| `Inodes.DropStep` | xv6/fs.c:414-427 | each block itrunc frees is in use when it is freed, so bfree does not panic |
| `Files.FileSystem.constructor` | xv6/mkfs.c:93-116 | a fresh image is consistent and sound: the blocks before the data are marked, the rest is free, all inodes are empty |
| `Files.FileSystem.Balloc` | xv6/fs.c:55-78 | the lowest free block, marked and zeroed; reports none if and only if none is free |
| `Files.FileSystem.Bfree` | xv6/fs.c:80-95 | clears the bit of a block that is in use, and no other |
| `Files.FileSystem.Bmap` | xv6/fs.c:370-400 | the address of the block, a fresh one if it was missing; no file reads differently; ip->addrs changes exactly when the direct address or the indirect block was missing; it fails exactly when fewer blocks are free than it must allocate, and otherwise takes exactly those |
| `Files.FileSystem.Itrunc` | xv6/fs.c:402-435 | frees exactly the blocks of the file, each once, without panic; the emptied inode is on disk; other files are untouched, and a sound system stays sound |
| `Files.FileSystem.Iupdate` | xv6/fs.c:216-236 | the inode on disk becomes the one in memory; other inodes and all files stay |
| `Files.FileSystem.ReadBlocks` | xv6/fs.c:467-474 | the loop collects exactly the bytes of the blocks it passes; it runs out of blocks exactly when its holes are more than the free blocks; ip->addrs changes exactly when a block needed a new address |
| `Files.FileSystem.Readi` | xv6/fs.c:449-476 | returns exactly the slice of the bytes of the file, clipped at its size, across direct and indirect blocks; errors and panics exactly as the source; changes nothing if and only if the range has no hole, which is so for a file with exactly its blocks; the inode on disk stays right if and only if no block of the range needed a new address in the inode |
| `Files.FileSystem.WriteChunk` | xv6/fs.c:498-504 | one round of the loop: the bytes go into one block of one file, and every other block of every file reads as before |
| `Files.FileSystem.WriteBlocks` | xv6/fs.c:498-504 | the loop puts src at off and changes no other byte of any file; it fails exactly when its holes are more than the free blocks, and otherwise takes exactly as many |
| `Files.FileSystem.Writei` | xv6/fs.c:478-511 | the bytes of the file become the splice at off, size the larger of old and off + n, other files stay; errors and panics exactly as the source; the inode on disk stays right if and only if the file grew or no block needed a new address in the inode; a file in use with exactly its blocks and its inode on disk stays so, and so does the whole system |
| `Files.ExactKept` | xv6/fs.c:481-511 | writei keeps a file with exactly the blocks its size calls for |
| `Files.ExactHasAddrs` | xv6/fs.c:449-511 | without holes, a transfer inside the file needs no new block and no new address |
| `Files.ExactNeedsNone` | xv6/fs.c:449-511 | without holes, a transfer inside the file cannot run out of blocks |
| `Files.SoundKept` | xv6/fs.c:216-236 | an operation on one file that leaves it sound leaves the whole system sound |
| `FileWrite.OpenFile.WriteOp` | xv6/file.c:140-145 | one operation writes its chunk or fails whole, logs at most six blocks besides those of the free map, and leaves no hole and no inode out of date on disk where there was none |
| `FileWrite.OpenFile.FileWrite` | xv6/file.c:115-156 | a write of any length is one splice; it fails exactly past the largest file, after whole chunks; each operation logs at most six blocks besides those of the free map; a file without holes whose inode is on disk stays so, and so does the whole system |
| `FileWrite.ChunkFits` | xv6/file.c:126-133 | a chunk at any offset touches at most four data blocks, the indirect block, the inode block and the free map |
| `FileWrite.WritesNeverPanic` | xv6/file.c:126-133 | in every interleaving of operations whose blocks lie within sets like those FileWrite returns, and of any other operations of at most nine blocks, log_write never panics |
| `FileWrite.TruncRestores` | xv6/fs.c:402-435 | truncating a file that owned nothing before it grew gives back exactly the blocks it took |
| `FileWrite.RoundedExactIff` | xv6/mkfs.c:158-163 | the rounded root directory of mkfs has no hole if and only if its length was not a multiple of the block size |
| `FileWrite.ReadLosesInode` | xv6/mkfs.c:158-163 | on an image as mkfs makes it with 32 root entries, readi of the 33rd gives the root a block that is not in its inode on disk |
| `Links.Names.DirLookup` | xv6/fs.c:522-548 | the first entry in use whose first 14 characters agree with the name |
| `Links.Names.DirLink` | xv6/fs.c:550-578 | refuses exactly a name that is there, panics exactly when it is not and every place up to the largest file is taken; otherwise the first empty entry, or one at the end |
| `Links.Names.IsDirEmpty` | xv6/sysfile.c:167-181 | true exactly when no entry after the dots is in use |
| `Links.Names.LinkBegin` | xv6/sysfile.c:133-142 | raises the count of anything but a directory |
| `Links.Names.LinkEnd` | xv6/sysfile.c:144-165 | makes the entry, or takes the count back exactly when the name is there; the panic of dirlink exactly for a full directory |
| `Links.Names.Unlink` | xv6/sysfile.c:184-239 | clears the entry and lowers the counts, refuses exactly for dots, missing names and directories in use, and panics exactly for an inode with count zero |
| `Links.Names.Ialloc` | xv6/fs.c:194-214 | the lowest free inode number from 1 on |
| `Links.Names.Create` | xv6/sysfile.c:241-283 | returns the existing inode if and only if a file is asked for and is there, fails exactly for any other name that is there, panics exactly when the directory or the inode table is full; otherwise the lowest free inode gets count 1, its dots and its entry, and the parent of a directory counts one more |
| `Links.UnlinkFinds` | xv6/sysfile.c:207-212 | the inode unlink finds has a count of at least one, so it does not panic |
| `Links.UnlinkFindsDir` | xv6/sysfile.c:213-227 | an empty directory has count one and no live child, so unlink leaves it at zero |
| `Links.EnterLeads` | xv6/fs.c:550-578 | a new entry makes its name lead to the inode and leaves every other name where it led |
| `Links.ClearLeads` | xv6/sysfile.c:218-221 | clearing an entry makes its name lead nowhere and leaves every other name where it led |
| `Links.CreateLeads` | xv6/sysfile.c:241-283 | create adds exactly one name to the directory, for an inode of the kind asked for with one link and, for a directory, its two dots; all other inodes stay |
| `Links.UnlinkRemoves` | xv6/sysfile.c:203-228 | in every state the runs keep to, unlink of a name that is there, other than the dots, refuses exactly a directory with entries; else that name and no other is gone and the count is one less |
| `Links.RunInv` | xv6/sysfile.c:118-283 | in every run of link, in its two locked halves, unlink, create and reclaim, with live parents: counts, unique names, dots and tree all hold |
| `Links.LinkCounts` | xv6/sysfile.c:118-283 | nlink is the number of entries other than "." naming the inode in live directories, plus links under way |
| `Links.NoDangling` | xv6/fs.c:522-578 | an entry of a live directory names an inode in use, and no other entry there has the same first 14 characters |
| `Links.Tree` | xv6/sysfile.c:241-283 | every live directory but the root is named exactly once, and following ".." from it reaches the root |
| `Links.NamedByParent` | xv6/sysfile.c:269-278 | the directory that names a directory is the one its ".." names |
| `Links.LinkBeginIff` | xv6/sysfile.c:140 | counts hold after the increment if and only if it does not pass the largest short |
| `Links.LinkEndIff` | xv6/sysfile.c:144-151 | counts hold after the new entry if and only if the directory has not been unlinked |
| `Links.CreateIff` | xv6/sysfile.c:241-283 | counts hold after create if and only if the parent is linked and, for a directory, its count does not pass the largest short |
| `Links.LinkInUnlinked` | xv6/sysfile.c:144-151 | a run of four steps after which the entry sys_link makes goes into an unlinked directory and leaves a count too high |
| `Links.CreateInUnlinked` | xv6/sysfile.c:241-283 | a run of two steps after which create goes into an unlinked directory and leaves a count too high |
| `Links.CountFits` | xv6/sysfile.c:140 | no count reaches the largest short while the entries of all directories and the links under way are fewer |
| `Dirents.NameCmp` | xv6/string.c:58-66 | strncmp over 14 bytes says equal exactly when the name in the field is the name cut to 14 characters |
| `Dirents.NameField` | xv6/string.c:68-79 | strncpy fills the field with the characters of the name, then zeros |
| `Dirents.FieldText` | xv6/fs.c:572 | a name stored in a record reads back cut to 14 characters |
| `Dirents.RecordPut` | xv6/fs.c:572-575 | writing sixteen bytes at a multiple of sixteen changes one entry, or adds one at the end |
| `Dirents.GrownNodes` | xv6/fs.c:531-533 | reading a directory changes no name, even where readi fills holes |
| `Dirents.DirLookup` | xv6/fs.c:522-548 | scanning the bytes of the directory finds the entry that Links.Find finds in its entries; it panics only on a size that is no whole number of records, or out of blocks on a file with holes |
| `Dirents.IsDirEmpty` | xv6/sysfile.c:167-181 | scanning the bytes after the dots decides whether the entries are bare |
| `Dirents.FindEmpty` | xv6/fs.c:564-570 | the offset of the first record not in use, or the end |
| `Dirents.PutRecord` | xv6/fs.c:574-575 | one record on disk is one entry of one directory; no other name and no other file changes; succeeds if and only if it ends within the largest file and the blocks it needs are free |
| `Dirents.DirLink` | xv6/fs.c:550-578 | on the bytes of the disk dirlink is Links.Entered, or refuses exactly a name that is there; in a directory without holes it panics exactly on a size that is no whole number of records or for want of room or blocks; a sound system stays sound |
| `Dirents.AddLink` | xv6/sysfile.c:140-141 | a count in a 16-bit field with iupdate is Links.Counted |
| `Dirents.Reclaim` | xv6/fs.c:335-345 | the inode becomes unused and empty, on disk too, and its blocks go back |
| `Dirents.LinkBegin` | xv6/sysfile.c:133-142 | on the bytes of the disk the first half of sys_link is Links.Counted for anything but a directory |
| `Dirents.LinkEnd` | xv6/sysfile.c:144-165 | on the bytes of the disk the second half of sys_link is Links.LinkEnded, with the exact panics of dirlink; a sound system stays sound |
| `Dirents.UnlinkFinds` | xv6/sysfile.c:203-216 | the tests of sys_unlink refuse exactly where Links.Refuses does and change no name; in a sound system they panic exactly on a torn directory, an unused inode or a count of zero |
| `Dirents.Unlink` | xv6/sysfile.c:184-239 | on the bytes of the disk sys_unlink is Links.Unlinked, and in a sound system panics exactly on a torn directory, an unused inode or a count of zero; a sound system stays sound |
| `Dirents.Ialloc` | xv6/fs.c:194-214 | the lowest inode number whose inode on disk is unused becomes a fresh inode |
| `Dirents.Fill` | xv6/sysfile.c:263-278 | the fields, the dots and the entry of a new inode together are Links.Created |
| `Dirents.Create` | xv6/sysfile.c:241-283 | on the bytes of the disk create is Links.Created with the lowest unused inode, of the kind and device numbers asked for, if and only if the name is not there; the file that is there if and only if a file is asked for and found; panics exactly when no inode, no place in the directory or too few blocks are left, or a directory is torn |
| `Shell.Parser.GetToken` | xv6/sh.c:265-308 | returns the next token of the line with its place, and leaves the rest |
| `Shell.Parser.Peek` | xv6/sh.c:310-320 | tells whether the next token starts with one of the characters, and consumes only white space |
| `Shell.Parser.ParseRedirs` | xv6/sh.c:374-397 | follows the grammar of redirections, in which > and >> mean the same |
| `Shell.Parser.ParseLine` | xv6/sh.c:344-359 | the recursion ends; follows the grammar of lines on the tokens of the rest of the line |
| `Shell.Parser.ParsePipe` | xv6/sh.c:361-372 | follows the grammar of pipes |
| `Shell.Parser.ParseBlock` | xv6/sh.c:399-413 | follows the grammar of parenthesised lines |
| `Shell.Parser.ParseExec` | xv6/sh.c:415-446 | follows the grammar of simple commands |
| `Shell.Parser.ParseWords` | xv6/sh.c:429-445 | the loop over words and redirections follows the grammar and refuses exactly stray symbols and ten words |
| `Shell.Nulterminate` | xv6/sh.c:448-493 | writes a NUL after every word of the command and changes nothing else |
| `Shell.LineWords` | xv6/sh.c:344-446 | every word of a parsed command is a maximal run of word characters of the line |
| `Shell.WordsReadBack` | xv6/sh.c:448-493 | no mark falls inside a word, so each argument and file reads back as exactly its text |
| `Shell.ParseCmd` | xv6/sh.c:327-342 | returns the command of the grammar for the whole line or refuses; afterwards each word is NUL-terminated in the buffer and reads as its text |
| `ShellPrint.ExecReads` | xv6/sh.c:415-446 | a simple command or block, printed, parses back at its level |
| `ShellPrint.PipeReads` | xv6/sh.c:361-372 | a pipe, printed, parses back at its level |
| `ShellPrint.LineReads` | xv6/sh.c:344-359 | a line, printed with parentheses only where needed, parses back at its level |
| `ShellPrint.SpellReads` | xv6/sh.c:265-308 | lexing any lexemes, written with any white space that keeps words and > apart, gives those lexemes |
| `ShellPrint.RoundTrip` | xv6/sh.c:265-446 | for every command tree within MAXARGS, any white space between its tokens and any choice of > or >> for each output redirection, parsing the printed line gives back that tree |
| `ShellTally.LineTally` | xv6/sh.c:344-446 | what the parser takes from the tokens is in the command it builds: each word, redirection and operator as often, with balanced parentheses |
| `ShellTally.CommandTally` | xv6/sh.c:327-446 | every accepted line has all its words, redirections and operators in the command, each as often as in the line, and balanced parentheses |
| `Pipe.CountersAgree` | xv6/pipe.c:85-116 | with counters wrapped to 32 bits, the tests for full and empty and the places in the ring come out as for the unbounded counts |
| `Pipe.WriteMostOk` | xv6/pipe.c:83-94 | as many bytes go in as there is room for, in order |
| `Pipe.ReadMostOk` | xv6/pipe.c:113-117 | as many bytes come out as there are, the oldest first |
| `Pipe.Buffer.Write` | xv6/pipe.c:83-94 | copies until done or full |
| `Pipe.Buffer.Read` | xv6/pipe.c:113-117 | copies until n bytes or empty |
| `Pipe.RunInv` | xv6/pipe.c:59-121 | in every interleaving of any number of readers and writers, with kill waking sleepers, the ring holds exactly the bytes written and not read |
| `Pipe.Conservation` | xv6/pipe.c:77-121 | in every run, all bytes read followed by those in the ring are all bytes written; a sleeping writer implies a full pipe with an open reader |
| `Pipe.ReadersIff` | xv6/pipe.c:85-92 | a step leaves readers asleep only on an empty pipe with an open writer if and only if it is not the turn, past a sleeping reader, of a writer with more than 512 bytes left that is killed or has no reader end |
| `Pipe.ReadersRun` | xv6/pipe.c:77-121 | in every run readers have slept only on an empty pipe with an open writer if and only if no such turn has been taken |
| `Pipe.ReaderLeftAsleep` | xv6/pipe.c:85-92 | a run of four steps in which a killed writer leaves a full pipe and a reader asleep |
| `PipeHistory.WriteTurn` | xv6/pipe.c:77-98 | in a reachable state a turn of a writer puts in the next bytes of its source, as many as fit, then returns if all are in, if it is killed or if the reader end is closed, and else sleeps with its place kept |
| `PipeHistory.ReadTurn` | xv6/pipe.c:100-121 | in a reachable state a turn of a reader takes the oldest bytes, up to n, or on an empty pipe with a writer sleeps, or returns if killed |
| `PipeHistory.WritesInOrder` | xv6/pipe.c:77-98 | in every run, with each byte labelled by the call of pipewrite it came from, the bytes of a call are a prefix of its source |
| `PipeHistory.WriteCompletes` | xv6/pipe.c:77-98 | in every run a call of pipewrite that has returned without kill or a closed reader end has put in its whole source, once and in order |
| `PipeHistory.EveryByteHasCall` | xv6/pipe.c:77-98 | in every run each byte that went in is labelled with a call of pipewrite made before |
| `PipeHistory.LoneWriter` | xv6/pipe.c:77-98 | in every run with one writing process that is not cut short, what went in is the sources of its calls one after the other |

## Left out

Parts of the repository without a model here:

- Boot, traps, interrupts, the scheduler and hardware access (`xv6/bootmain.c`, `xv6/trap.c`, `xv6/lapic.c`, `xv6/x86.h` and the like): `xchg`, `cli` and context switches are primitive steps.
- `xv6/ide.c`: the disk under the cache is the one of `xv6/memide.c`, with one block written at a time.
- Path walking, the inode cache and its reference counts (`iget`, `namex`): operations start at the directory `nameiparent` found, in-core inodes are indexed by inode number, and freeing an inode with no links is a step that may happen at any time (`Dirents.Reclaim`).
- `exec`, system-call argument fetching, the console, printing, user programs other than the shell parser and the matcher, and `xv6/sysutils.c`: mostly plumbing.
- `inituvm`, `loaduvm`, `clearpteu`, `copyout` and `switchuvm` of `xv6/vm.c`: copies into mapped pages and hardware registers.
- Liveness and fairness: the code gives no bounds, so only safety is stated.
- The read loop of `grep` (`xv6/grep.c:10-36`).

Where a model says less or differs from the code:

- Bio.Bcache.BGet: device 1 only, the one `xv6/param.h` names ROOTDEV; buffers start with key (0,0) and count as unkeyed until used.
- Bio.Bcache.BRead: one caller at a time in the class; waiting for a locked buffer is in the step system of `LogRun`, which lets any recyclable buffer be the victim.
- Log.RedoLog.WriteLog: no other reference to a buffer while it runs; with other processes at work the same writes are shown for `LogRun` by `CacheRun.CommitTrace`.
- Log.RedoLog.EndOp: the last operation to end finds no buffer referenced, for the class only, as for Commit.
- Log.RedoLog.Commit: needs fewer than NBUF logged blocks, which the reservation gives, and no other reference to a buffer, as `end_op` runs it when no operation is open.
- LogRun.RunInv: clients change blocks only through `log_write`, and a commit step is one disk write with its two reads; `log.lh.n = 0` happens together with the clearing header write.
- Heap.Allocator.Malloc: requests below 2^28 units, the exact limit `Heap.SbrkArgExact` gives; sbrk only grows, its success is a parameter, and callers do not write over headers.
- PriorityLock.Waiters.AddQueue: the page for the node is always there; the source does not look at the result of kalloc.
- Proc.ProcTable.AllocProc: pids are unbounded; the kernel stack and trap frame are not modelled.
- ProcHistory.StateIff: which runnable process the scheduler picks is not modelled; any may be scheduled at any time.
- Vm.Machine.DropOne: clears the entry before freeing the frame; the source does it in the other order with nothing in between.
- Vm.Machine.MapPages: user ranges are one page long, as every caller in `xv6/vm.c` has them, and not yet mapped, where the source panics.
- Vm.Machine.AllocUvm: needs the new range unmapped, and a failure keeps page-table pages it made, as the source does; for both sizes 0 the result 0 stands for success and for failure alike.
- Vm.Machine.CopyUvm: needs every page below sz present, where the source panics.
- Vm.Machine.SetupKvm: the page of the symbol `data` is a parameter; the end of the device range, 2^32, is not wrapped to 0.
- Vm.Machine.FreeRange: takes page numbers, so rounding of the bounds is left to the caller.
- Files.FileSystem.Balloc: running out of blocks is a result in place of the panic, and so on up to filewrite; after it the state is only known to be consistent.
- Files.FileSystem.Readi: files and directories only; the device switch is not modelled.
- Files.FileSystem.Writei: files and directories only; the device switch is not modelled.
- Files.FileSystem.Itrunc: the reference test of iput is not modelled.
- CacheRun.CommitTrace: relates whole commits by their disk writes; the two reads and releases around each write are steps of `LogRun` that the class makes in a fixed order.
- Dirents.Create: starts from a sound system, since ialloc looks for a free inode on disk, and from inode numbers that fit the 16 bits of a record; its panics are results, as for Balloc.
- Dirents.LinkEnd: the inode number fits the 16 bits of a record.
- Dirents.Unlink: entries name inodes that exist; the source would read past the inode table.
- FileWrite.WritesNeverPanic: with what FileWrite ensures, this covers file systems whose free map has at most three blocks; mkfs makes one.
- FileWrite.OpenFile.FileWrite: one process; ilock and the interleaving of operations are covered by the reservation results only.
- Links.Names.Create: a full directory is a result in place of the panic; directories as bytes are in `Dirents`.
- Links.RunInv: each half of link, and each of unlink and create, is one step. link and create hold the lock of the directory throughout; unlink gives it up before it lowers the count of the file, but keeps the file locked, and no other process sees the count without that lock; parents are live and counts below the largest short, the conditions the lemmas LinkEndIff, CreateIff and LinkBeginIff show to be exact.
- Shell.Parser.ParseExec: the source fills argv through a pointer while redirections wrap the command; here words and redirections are collected and joined at the end. Error exits are a missing result.
- ShellPrint.RoundTrip: covers the white space and the spellings of `>` the lexer accepts, but no parentheses beyond those the tree needs; that parentheses in any accepted line balance is `ShellTally.CommandTally`.
- Pipe.RunInv: the two copies are made in one step each while the lock is held; whether the process has been killed is a parameter of the step.
