/**
 Every interleaving of processes that use the buffer cache and the log, with
 crashes at any moment.

 A process reaches a buffer through bget, acquiresleep and the disk read, may
 change it inside an operation, must log_write what it changed before brelse,
 and commits when it ends the last outstanding operation.  commit()'s rounds are
 atomic at their disk write: the two buffers involved are locked throughout.
 */
module LogRun {
  import opened Basics
  import opened Blocks
  import opened Crash
  import Log

  type Pid = p: int | 0 < p witness 1

  /** struct buf; waiters are the processes between bget and the sleep lock. */
  datatype Buffer = Buffer(used: bool, blockno: nat, valid: bool, dirty: bool, refcnt: nat,
                           waiters: set<Pid>, owner: int, data: Block, changed: bool)

  /** What log.committing and the position inside commit() amount to. */
  datatype Phase = Open | WriteLog(tail: nat) | Install(tail: nat) | Done

  datatype State = State(
    disk: Disk,
    bufs: seq<Buffer>,
    lh: seq<nat>,
    ops: set<Pid>,          // processes with an outstanding operation
    phase: Phase,
    committer: int,
    latest: Disk,           // last content logged or written for each block
    committed: Disk)        // latest, as it was when the last header was written

  datatype Action =
    | BgetHit(p: Pid, i: nat)
    | BgetMiss(p: Pid, a: nat, i: nat)
    | AcquireSleep(p: Pid, i: nat)
    | ReadIn(p: Pid, i: nat)
    | Change(p: Pid, i: nat, data: Block)
    | LogWrite(p: Pid, i: nat)
    | Brelse(p: Pid, i: nat)
    | BeginOp(p: Pid)
    | EndOp(p: Pid)
    | CopyToLog(i: nat, j: nat)
    | WriteHeader(i: nat)
    | CopyHome(i: nat, j: nat)
    | ClearHeader(i: nat)
    | SkipCommit
    | EndCommit
    | PowerFail(cuts: seq<nat>)

  const FREE := Buffer(false, 0, false, false, 0, {}, 0, seq(BSIZE, _ => 0), false)

  /** The calling process holds buffer i, filled, for block a. */
  ghost predicate Holds(s: State, p: int, i: nat, a: nat) {
    i < |s.bufs| && s.bufs[i].used && s.bufs[i].blockno == a && s.bufs[i].owner == p && s.bufs[i].valid
  }

  ghost predicate Enabled(l: Layout, s: State, act: Action) {
    match act
    case BgetHit(p, i) =>
      i < |s.bufs| && s.bufs[i].used && p !in s.bufs[i].waiters && s.bufs[i].owner != p
    case BgetMiss(p, a, i) =>
      && a < |s.disk| && i < |s.bufs| && s.bufs[i].refcnt == 0 && !s.bufs[i].dirty
      && forall j :: 0 <= j < |s.bufs| && s.bufs[j].used ==> s.bufs[j].blockno != a
    case AcquireSleep(p, i) => i < |s.bufs| && p in s.bufs[i].waiters && s.bufs[i].owner == 0
    case ReadIn(p, i) => i < |s.bufs| && s.bufs[i].owner == p && !s.bufs[i].valid
    case Change(p, i, data) =>
      i < |s.bufs| && s.bufs[i].owner == p && s.bufs[i].valid && p in s.ops && !InLog(l, s.bufs[i].blockno)
    case LogWrite(p, i) =>
      && i < |s.bufs| && s.bufs[i].owner == p && s.bufs[i].valid && p in s.ops
      && !InLog(l, s.bufs[i].blockno) && |s.lh| < Capacity(l)
    case Brelse(p, i) => i < |s.bufs| && s.bufs[i].owner == p && s.bufs[i].valid && !s.bufs[i].changed
    case BeginOp(p) =>
      p !in s.ops && s.phase.Open? && |s.lh| + (|s.ops| + 1) * MAXOPBLOCKS <= LOGSIZE
    case EndOp(p) =>
      p in s.ops && forall i :: 0 <= i < |s.bufs| && s.bufs[i].owner == p ==> !s.bufs[i].changed
    case CopyToLog(i, j) =>
      && s.phase.WriteLog? && s.phase.tail < |s.lh|
      && Holds(s, s.committer, i, l.start + 1 + s.phase.tail) && Holds(s, s.committer, j, s.lh[s.phase.tail])
    case WriteHeader(i) =>
      s.phase == WriteLog(|s.lh|) && s.lh != [] && Holds(s, s.committer, i, l.start)
    case CopyHome(i, j) =>
      && s.phase.Install? && s.phase.tail < |s.lh|
      && Holds(s, s.committer, i, l.start + 1 + s.phase.tail) && Holds(s, s.committer, j, s.lh[s.phase.tail])
    case ClearHeader(i) => s.phase == Install(|s.lh|) && Holds(s, s.committer, i, l.start)
    case SkipCommit => s.phase == WriteLog(0) && s.lh == []
    case EndCommit => s.phase.Done?
    case PowerFail(cuts) => HeadOk(l, s.disk)
  }

  /** A disk write of buffer i with new data. */
  ghost function Put(s: State, i: nat, data: Block): State
    requires i < |s.bufs| && s.bufs[i].blockno < |s.disk| && |s.latest| == |s.disk|
  {
    var a := s.bufs[i].blockno;
    s.(disk := s.disk[a := data], latest := s.latest[a := data],
       bufs := s.bufs[i := s.bufs[i].(data := data, dirty := false)])
  }

  ghost predicate Shape(l: Layout, s: State) {
    && Fits(l, s.disk) && |s.disk| <= 0x1_0000_0000 && |s.latest| == |s.committed| == |s.disk|
    && Loggable(l, s.lh, |s.disk|)
    && forall i :: 0 <= i < |s.bufs| && s.bufs[i].used ==> s.bufs[i].blockno < |s.disk|
  }

  ghost function Do(l: Layout, s: State, act: Action): (r: State)
    requires Shape(l, s) && Enabled(l, s, act)
    ensures |r.bufs| == |s.bufs| && |r.disk| == |s.disk|
  {
    match act
    case BgetHit(p, i) =>
      s.(bufs := s.bufs[i := s.bufs[i].(refcnt := s.bufs[i].refcnt + 1, waiters := s.bufs[i].waiters + {p})])
    case BgetMiss(p, a, i) =>
      s.(bufs := s.bufs[i := Buffer(true, a, false, false, 1, {p}, 0, s.bufs[i].data, false)])
    case AcquireSleep(p, i) =>
      s.(bufs := s.bufs[i := s.bufs[i].(owner := p, waiters := s.bufs[i].waiters - {p})])
    case ReadIn(p, i) =>
      if s.bufs[i].blockno < |s.disk| then
        s.(bufs := s.bufs[i := s.bufs[i].(data := s.disk[s.bufs[i].blockno], valid := true)])
      else s
    case Change(p, i, data) => s.(bufs := s.bufs[i := s.bufs[i].(data := data, changed := true)])
    case LogWrite(p, i) =>
      if s.bufs[i].blockno < |s.latest| then
        s.(lh := Log.Absorb(s.lh, s.bufs[i].blockno),
           latest := s.latest[s.bufs[i].blockno := s.bufs[i].data],
           bufs := s.bufs[i := s.bufs[i].(dirty := true, changed := false)])
      else s
    case Brelse(p, i) =>
      if s.bufs[i].refcnt > 0 then
        s.(bufs := s.bufs[i := s.bufs[i].(owner := 0, refcnt := s.bufs[i].refcnt - 1)])
      else s
    case BeginOp(p) => s.(ops := s.ops + {p})
    case EndOp(p) =>
      if s.ops == {p} then s.(ops := {}, phase := WriteLog(0), committer := p) else s.(ops := s.ops - {p})
    case CopyToLog(i, j) => Put(s, i, s.bufs[j].data).(phase := WriteLog(s.phase.tail + 1))
    case WriteHeader(i) => Put(s, i, PutHead(s.bufs[i].data, s.lh)).(phase := Install(0), committed := s.latest)
    case CopyHome(i, j) => Put(s, j, s.bufs[i].data).(phase := Install(s.phase.tail + 1))
    case ClearHeader(i) => Put(s, i, PutHead(s.bufs[i].data, [])).(phase := Done, lh := [])
    case SkipCommit => s.(phase := Done)
    case EndCommit => s.(phase := Open)
    case PowerFail(cuts) =>
      var d := Reboot(l, s.disk, cuts);
      State(d, seq(|s.bufs|, _ => FREE), [], {}, Open, 0, d, d)
  }

  // ----- the invariant -----

  ghost predicate BufferOk(l: Layout, ops: set<Pid>, b: Buffer) {
    && b.refcnt == |b.waiters| + (if b.owner == 0 then 0 else 1)
    && (b.owner != 0 ==> b.owner > 0 && b.owner !in b.waiters)
    && (!b.used ==> b.refcnt == 0 && !b.valid && !b.dirty)
    && (b.dirty ==> b.valid)
    && (b.changed ==> b.valid && b.owner in ops && !InLog(l, b.blockno))
  }

  /** No block has two buffers. */
  ghost predicate Unique(bufs: seq<Buffer>) {
    forall i, j :: 0 <= i < j < |bufs| && bufs[i].used && bufs[j].used ==> bufs[i].blockno != bufs[j].blockno
  }

  ghost predicate BufsOk(l: Layout, ops: set<Pid>, bufs: seq<Buffer>) {
    Unique(bufs) && forall i :: 0 <= i < |bufs| ==> BufferOk(l, ops, bufs[i])
  }

  /** Logged blocks whose home copy on disk is not yet current. */
  ghost function Pending(s: State): seq<nat> {
    if s.phase.Install? && s.phase.tail <= |s.lh| then s.lh[s.phase.tail..] else s.lh
  }

  ghost predicate PinnedIn(bufs: seq<Buffer>, a: nat) {
    exists i :: 0 <= i < |bufs| && bufs[i].used && bufs[i].dirty && bufs[i].blockno == a
  }

  /** The dirty blocks are exactly the pending ones. */
  ghost predicate PinsOk(bufs: seq<Buffer>, pending: seq<nat>) {
    && (forall i :: 0 <= i < |bufs| && bufs[i].dirty ==> bufs[i].blockno in pending)
    && (forall a :: a in pending ==> PinnedIn(bufs, a))
  }

  /** Filled buffers and unpending disk blocks show the latest content. */
  ghost predicate Coherent(bufs: seq<Buffer>, disk: Disk, latest: Disk, pending: seq<nat>) {
    && |latest| == |disk|
    && (forall i :: 0 <= i < |bufs| && bufs[i].valid && !bufs[i].changed ==>
          bufs[i].blockno < |latest| && bufs[i].data == latest[bufs[i].blockno])
    && (forall a: nat :: a < |disk| && a !in pending ==> disk[a] == latest[a])
  }

  /** Where commit stands, and what a crash would recover. */
  ghost predicate CommitOk(l: Layout, s: State)
    requires Shape(l, s)
  {
    && HeadOk(l, s.disk)
    && (s.phase.Open? || s.ops == {})
    && (s.phase.Open? || s.phase.Done? ==> Head(l, s.disk) == [])
    && (s.phase.Open? && s.ops == {} ==> s.lh == [])
    && (s.phase.Done? ==> s.lh == [])
    && (s.phase.WriteLog? ==> s.phase.tail <= |s.lh| && Head(l, s.disk) == [] && LoggedTo(l, s, s.phase.tail))
    && (s.phase.Install? ==>
          s.lh != [] && s.phase.tail <= |s.lh| && Head(l, s.disk) == s.lh && LoggedTo(l, s, |s.lh|))
    && (if s.phase.Install? || s.phase.Done? then
          forall a: nat :: a < |s.disk| && !InLog(l, a) ==> s.committed[a] == s.latest[a]
        else
          forall a: nat :: a < |s.disk| && !InLog(l, a) ==>
            s.committed[a] == s.disk[a] && (a !in s.lh ==> s.committed[a] == s.latest[a]))
  }

  /** The first n log blocks hold the latest contents of the first n logged blocks. */
  ghost predicate LoggedTo(l: Layout, s: State, n: nat)
    requires Shape(l, s)
  {
    forall k :: 0 <= k < n && k < |s.lh| ==> s.disk[l.start + 1 + k] == s.latest[s.lh[k]]
  }

  ghost predicate Inv(l: Layout, s: State) {
    && Shape(l, s)
    && BufsOk(l, s.ops, s.bufs)
    && PinsOk(s.bufs, Pending(s))
    && Coherent(s.bufs, s.disk, s.latest, Pending(s))
    && CommitOk(l, s)
  }

  // ----- every step of a client keeps it -----

  /** Pins stay when dirty buffers keep their block and their mark. */
  lemma PinsSame(bufs: seq<Buffer>, bufs': seq<Buffer>, pending: seq<nat>)
    requires PinsOk(bufs, pending) && |bufs'| == |bufs|
    requires forall j :: 0 <= j < |bufs| && bufs[j].dirty ==>
               bufs'[j].dirty && bufs'[j].blockno == bufs[j].blockno && bufs'[j].used == bufs[j].used
    requires forall j :: 0 <= j < |bufs| && bufs'[j].dirty ==> bufs[j].dirty
    ensures PinsOk(bufs', pending)
  {
    forall a | a in pending ensures PinnedIn(bufs', a) {
      assert PinnedIn(bufs, a);
      var i :| 0 <= i < |bufs| && bufs[i].used && bufs[i].dirty && bufs[i].blockno == a;
      assert bufs'[i].dirty;
    }
  }

  /** Replacing one buffer by a sound one that keeps the pin keeps the invariant. */
  lemma SwapBuffer(l: Layout, s: State, i: nat, b: Buffer)
    requires Inv(l, s) && i < |s.bufs| && BufferOk(l, s.ops, b) && b.dirty == s.bufs[i].dirty
    requires b.used ==> b.blockno < |s.disk|
    requires (b.used && s.bufs[i].used && b.blockno == s.bufs[i].blockno) ||
             (!b.dirty && forall j :: 0 <= j < |s.bufs| && s.bufs[j].used ==> s.bufs[j].blockno != b.blockno)
    requires b.valid && !b.changed ==> b.blockno < |s.latest| && b.data == s.latest[b.blockno]
    ensures Inv(l, s.(bufs := s.bufs[i := b]))
  {
    hide HeadOk, Head, Loggable, PinsOk;
    PinsSame(s.bufs, s.bufs[i := b], Pending(s));
  }

  lemma KeepBget(l: Layout, s: State, act: Action)
    requires Inv(l, s) && Enabled(l, s, act) && (act.BgetHit? || act.BgetMiss?)
    ensures Inv(l, Do(l, s, act))
  {
    hide CommitOk, PinsOk, Loggable;
    assert BufferOk(l, s.ops, s.bufs[act.i]);
    assert |{act.p}| == 1;
    SwapBuffer(l, s, act.i, Do(l, s, act).bufs[act.i]);
  }

  lemma KeepLock(l: Layout, s: State, act: Action)
    requires Inv(l, s) && Enabled(l, s, act) && (act.AcquireSleep? || act.Brelse?)
    ensures Inv(l, Do(l, s, act))
  {
    hide CommitOk, PinsOk, Loggable;
    assert BufferOk(l, s.ops, s.bufs[act.i]);
    SwapBuffer(l, s, act.i, Do(l, s, act).bufs[act.i]);
  }

  lemma KeepReadIn(l: Layout, s: State, p: Pid, i: nat)
    requires Inv(l, s) && Enabled(l, s, ReadIn(p, i))
    ensures Inv(l, Do(l, s, ReadIn(p, i)))
  {
    hide CommitOk, Loggable;
    var a := s.bufs[i].blockno;
    assert BufferOk(l, s.ops, s.bufs[i]);
    assert a in Pending(s) ==> PinnedIn(s.bufs, a);
    SwapBuffer(l, s, i, s.bufs[i].(data := s.disk[a], valid := true));
  }

  lemma KeepChange(l: Layout, s: State, p: Pid, i: nat, data: Block)
    requires Inv(l, s) && Enabled(l, s, Change(p, i, data))
    ensures Inv(l, Do(l, s, Change(p, i, data)))
  {
    hide CommitOk, PinsOk, Loggable;
    assert BufferOk(l, s.ops, s.bufs[i]);
    SwapBuffer(l, s, i, s.bufs[i].(data := data, changed := true));
  }

  lemma PinsAdd(bufs: seq<Buffer>, i: nat, lh: seq<nat>)
    requires PinsOk(bufs, lh) && i < |bufs| && bufs[i].used
    ensures PinsOk(bufs[i := bufs[i].(dirty := true, changed := false)], Log.Absorb(lh, bufs[i].blockno))
  {
    var bufs' := bufs[i := bufs[i].(dirty := true, changed := false)];
    forall c | c in Log.Absorb(lh, bufs[i].blockno) ensures PinnedIn(bufs', c) {
      if c == bufs[i].blockno {
        assert bufs'[i].dirty;
      } else {
        assert PinnedIn(bufs, c);
        var j :| 0 <= j < |bufs| && bufs[j].used && bufs[j].dirty && bufs[j].blockno == c;
        assert bufs'[j].dirty;
      }
    }
  }

  lemma AbsorbLoggable(l: Layout, lh: seq<nat>, a: nat, disksize: nat)
    requires Loggable(l, lh, disksize) && |lh| < Capacity(l) && a < disksize && !InLog(l, a)
    ensures Loggable(l, Log.Absorb(lh, a), disksize)
  {
  }

  lemma LogWriteCoherent(l: Layout, s: State, i: nat)
    requires Shape(l, s) && BufsOk(l, s.ops, s.bufs) && Coherent(s.bufs, s.disk, s.latest, s.lh)
    requires i < |s.bufs| && s.bufs[i].used && s.bufs[i].valid
    ensures var a, b := s.bufs[i].blockno, s.bufs[i].(dirty := true, changed := false);
            BufsOk(l, s.ops, s.bufs[i := b]) &&
            Coherent(s.bufs[i := b], s.disk, s.latest[a := b.data], Log.Absorb(s.lh, a))
  {
    hide Loggable;
    assert BufferOk(l, s.ops, s.bufs[i]);
  }

  lemma LogWriteCommit(l: Layout, s: State, a: nat, data: Block, bufs: seq<Buffer>)
    requires Shape(l, s) && CommitOk(l, s) && s.phase.Open? && s.ops != {} && a < |s.disk|
    requires Shape(l, s.(lh := Log.Absorb(s.lh, a), latest := s.latest[a := data], bufs := bufs))
    ensures CommitOk(l, s.(lh := Log.Absorb(s.lh, a), latest := s.latest[a := data], bufs := bufs))
  {
    hide HeadOk, Head, Loggable;
  }

  lemma KeepLogWrite(l: Layout, s: State, p: Pid, i: nat)
    requires Inv(l, s) && Enabled(l, s, LogWrite(p, i))
    ensures Inv(l, Do(l, s, LogWrite(p, i)))
  {
    hide HeadOk, Head, Loggable, PinsOk, PinnedIn, Coherent, LoggedTo;
    assert BufferOk(l, s.ops, s.bufs[i]) && s.phase.Open?;
    var s' := Do(l, s, LogWrite(p, i));
    PinsAdd(s.bufs, i, s.lh);
    AbsorbLoggable(l, s.lh, s.bufs[i].blockno, |s.disk|);
    LogWriteCoherent(l, s, i);
    LogWriteCommit(l, s, s.bufs[i].blockno, s.bufs[i].data, s'.bufs);
  }

  lemma KeepOps(l: Layout, s: State, act: Action)
    requires Inv(l, s) && Enabled(l, s, act)
    requires act.BeginOp? || act.EndOp? || act.SkipCommit? || act.EndCommit?
    ensures Inv(l, Do(l, s, act))
  {
    hide HeadOk, Head, Loggable, PinsOk, PinnedIn;
    var s' := Do(l, s, act);
    forall i | 0 <= i < |s.bufs| ensures BufferOk(l, s'.ops, s'.bufs[i]) {
      assert BufferOk(l, s.ops, s.bufs[i]);
    }
  }

  // ----- the steps of commit -----

  /** In commit a held, filled buffer shows the latest content of its block. */
  lemma HeldIsLatest(l: Layout, s: State, p: int, i: nat, a: nat)
    requires Inv(l, s) && !s.phase.Open? && Holds(s, p, i, a)
    ensures a < |s.disk| && s.bufs[i].data == s.latest[a] && !s.bufs[i].changed
  {
    assert BufferOk(l, s.ops, s.bufs[i]);
  }

  /** A disk write keeps buffers and coherence, and settles its own block. */
  lemma PutKeeps(l: Layout, s: State, i: nat, data: Block, pending: seq<nat>)
    requires Shape(l, s) && BufsOk(l, s.ops, s.bufs) && Coherent(s.bufs, s.disk, s.latest, Pending(s))
    requires i < |s.bufs| && s.bufs[i].used && s.bufs[i].valid && !s.bufs[i].changed
    requires forall c :: c in Pending(s) && c != s.bufs[i].blockno ==> c in pending
    ensures var s' := Put(s, i, data);
            Shape(l, s') && BufsOk(l, s.ops, s'.bufs) && Coherent(s'.bufs, s'.disk, s'.latest, pending)
  {
    hide Loggable;
    var s' := Put(s, i, data);
    forall j | 0 <= j < |s.bufs| ensures BufferOk(l, s.ops, s'.bufs[j]) {
      assert BufferOk(l, s.ops, s.bufs[j]);
    }
  }

  /** No dirty buffer holds a log block. */
  lemma LogBlockClean(l: Layout, s: State, i: nat)
    requires Inv(l, s) && i < |s.bufs| && InLog(l, s.bufs[i].blockno)
    ensures !s.bufs[i].dirty && s.bufs[i].blockno !in s.lh
  {
  }

  /** CopyToLog changes one log block, which readers of the header and of home blocks do not see. */
  lemma CopyToLogCommit(l: Layout, s: State, s': State)
    requires Shape(l, s) && CommitOk(l, s) && s.phase.WriteLog? && s.phase.tail < |s.lh| && Shape(l, s')
    requires var a, v := l.start + 1 + s.phase.tail, s.latest[s.lh[s.phase.tail]];
             s' == s.(disk := s.disk[a := v], latest := s.latest[a := v], phase := WriteLog(s.phase.tail + 1),
                      bufs := s'.bufs)
    ensures CommitOk(l, s')
  {
    assert s'.disk[l.start] == s.disk[l.start];
    assert HeadOk(l, s'.disk) && Head(l, s'.disk) == [];
    hide HeadOk, Head;
    forall k | 0 <= k <= s.phase.tail ensures s'.disk[l.start + 1 + k] == s'.latest[s.lh[k]] {
      assert !InLog(l, s.lh[k]);
    }
  }

  lemma KeepCopyToLog(l: Layout, s: State, i: nat, j: nat)
    requires Inv(l, s) && Enabled(l, s, CopyToLog(i, j))
    ensures Inv(l, Do(l, s, CopyToLog(i, j)))
  {
    hide HeadOk, Head, PinsOk, PinnedIn, Coherent, LoggedTo, BufsOk;
    var t := s.phase.tail;
    HeldIsLatest(l, s, s.committer, i, l.start + 1 + t);
    HeldIsLatest(l, s, s.committer, j, s.lh[t]);
    LogBlockClean(l, s, i);
    var s' := Do(l, s, CopyToLog(i, j));
    PutKeeps(l, s, i, s.bufs[j].data, s.lh);
    PinsSame(s.bufs, s'.bufs, s.lh);
    CopyToLogCommit(l, s, s');
  }

  lemma HeaderCommit(l: Layout, s: State, s': State)
    requires Shape(l, s) && CommitOk(l, s) && s.phase == WriteLog(|s.lh|) && s.lh != [] && Shape(l, s')
    requires var v := PutHead(s.disk[l.start], s.lh);
             s' == s.(disk := s.disk[l.start := v], latest := s.latest[l.start := v], phase := Install(0),
                      committed := s.latest, bufs := s'.bufs)
    ensures CommitOk(l, s')
  {
    HeadRoundTrip(s.disk[l.start], s.lh);
    assert HeadOk(l, s'.disk) && Head(l, s'.disk) == s.lh;
    hide HeadOk, Head, PutHead;
    forall k | 0 <= k < |s.lh| ensures s'.disk[l.start + 1 + k] == s'.latest[s.lh[k]] {
      assert !InLog(l, s.lh[k]);
    }
  }

  lemma KeepWriteHeader(l: Layout, s: State, i: nat)
    requires Inv(l, s) && Enabled(l, s, WriteHeader(i))
    ensures Inv(l, Do(l, s, WriteHeader(i)))
  {
    hide HeadOk, Head, PinsOk, PinnedIn, LoggedTo, BufsOk, PutHead;
    HeldIsLatest(l, s, s.committer, i, l.start);
    LogBlockClean(l, s, i);
    var s' := Do(l, s, WriteHeader(i));
    assert s.lh[0..] == s.lh;
    PutKeeps(l, s, i, PutHead(s.bufs[i].data, s.lh), s.lh);
    PinsSame(s.bufs, s'.bufs, s.lh);
    HeaderCommit(l, s, s');
  }

  /** Writing block lh[t] home unpins it and nothing else. */
  lemma PinsRemove(bufs: seq<Buffer>, j: nat, lh: seq<nat>, t: nat, b: Buffer)
    requires Unique(bufs) && Distinct(lh) && t < |lh| && PinsOk(bufs, lh[t..])
    requires j < |bufs| && bufs[j].used && bufs[j].blockno == lh[t]
    requires forall i :: 0 <= i < |bufs| && bufs[i].dirty ==> bufs[i].used
    requires !b.dirty
    ensures PinsOk(bufs[j := b], lh[t + 1..])
  {
    var bufs' := bufs[j := b];
    Log.TailSet(lh, t);
    forall c | c in lh[t + 1..] ensures PinnedIn(bufs', c) {
      assert PinnedIn(bufs, c);
      var i :| 0 <= i < |bufs| && bufs[i].used && bufs[i].dirty && bufs[i].blockno == c;
      assert bufs'[i].dirty;
    }
  }

  lemma CopyHomeCommit(l: Layout, s: State, s': State)
    requires Shape(l, s) && CommitOk(l, s) && s.phase.Install? && s.phase.tail < |s.lh| && Shape(l, s')
    requires var a := s.lh[s.phase.tail];
             s' == s.(disk := s.disk[a := s.latest[a]], phase := Install(s.phase.tail + 1), bufs := s'.bufs)
    ensures CommitOk(l, s')
  {
    assert !InLog(l, s.lh[s.phase.tail]);
    assert s'.disk[l.start] == s.disk[l.start];
    assert HeadOk(l, s'.disk) && Head(l, s'.disk) == s.lh;
    hide HeadOk, Head;
    forall k | 0 <= k < |s.lh| ensures s'.disk[l.start + 1 + k] == s'.latest[s.lh[k]] {
      assert InLog(l, l.start + 1 + k);
    }
  }

  lemma KeepCopyHome(l: Layout, s: State, i: nat, j: nat)
    requires Inv(l, s) && Enabled(l, s, CopyHome(i, j))
    ensures Inv(l, Do(l, s, CopyHome(i, j)))
  {
    hide HeadOk, Head, PinsOk, PinnedIn, PutHead, Coherent, CommitOk, BufferOk, Enabled, Do, Unique, Distinct;
    CopyHomeIs(l, s, i, j);
    var t := s.phase.tail;
    var a := s.lh[t];
    var s' := Do(l, s, CopyHome(i, j));
    Log.TailSet(s.lh, t);
    PutKeeps(l, s, j, s.latest[a], s.lh[t + 1..]);
    BufferUsed(l, s);
    PinsRemove(s.bufs, j, s.lh, t, s'.bufs[j]);
    CopyHomeCommit(l, s, s');
  }

  /** CopyHome is a disk write of a logged block with the content it should have. */
  lemma {:induction false} CopyHomeIs(l: Layout, s: State, i: nat, j: nat)
    requires Inv(l, s) && Enabled(l, s, CopyHome(i, j))
    ensures s.phase.Install? && s.phase.tail < |s.lh| && j < |s.bufs| && s.bufs[j].used && s.bufs[j].valid &&
            !s.bufs[j].changed
    ensures s.bufs[j].blockno == s.lh[s.phase.tail] < |s.latest|
    ensures var a := s.lh[s.phase.tail]; var s' := Do(l, s, CopyHome(i, j));
            s' == Put(s, j, s.latest[a]).(phase := Install(s.phase.tail + 1)) && s'.latest == s.latest
  {
    hide HeadOk, Head, PinsOk, PinnedIn, PutHead;
    var t := s.phase.tail;
    var a := s.lh[t];
    HeldIsLatest(l, s, s.committer, i, l.start + 1 + t);
    HeldIsLatest(l, s, s.committer, j, a);
    LogBlockClean(l, s, i);
    assert s.bufs[i].data == s.latest[a];
    assert s.latest[a := s.latest[a]] == s.latest;
  }

  lemma BufferUsed(l: Layout, s: State)
    requires BufsOk(l, s.ops, s.bufs)
    ensures forall i :: 0 <= i < |s.bufs| && s.bufs[i].dirty ==> s.bufs[i].used
  {
    forall i | 0 <= i < |s.bufs| && s.bufs[i].dirty ensures s.bufs[i].used {
      assert BufferOk(l, s.ops, s.bufs[i]);
    }
  }

  lemma ClearCommit(l: Layout, s: State, s': State)
    requires Shape(l, s) && CommitOk(l, s) && s.phase == Install(|s.lh|) && Shape(l, s')
    requires var v := PutHead(s.disk[l.start], []);
             s' == s.(disk := s.disk[l.start := v], latest := s.latest[l.start := v], phase := Done, lh := [],
                      bufs := s'.bufs)
    ensures CommitOk(l, s')
  {
    HeadRoundTrip(s.disk[l.start], []);
    assert HeadOk(l, s'.disk) && Head(l, s'.disk) == [];
    hide HeadOk, Head, PutHead;
  }

  lemma KeepClearHeader(l: Layout, s: State, i: nat)
    requires Inv(l, s) && Enabled(l, s, ClearHeader(i))
    ensures Inv(l, Do(l, s, ClearHeader(i)))
  {
    hide HeadOk, Head, PinsOk, PinnedIn, BufsOk, PutHead, LoggedTo;
    HeldIsLatest(l, s, s.committer, i, l.start);
    LogBlockClean(l, s, i);
    var s' := Do(l, s, ClearHeader(i));
    assert s.lh[|s.lh|..] == [];
    PutKeeps(l, s, i, PutHead(s.bufs[i].data, []), []);
    PinsSame(s.bufs, s'.bufs, []);
    ClearCommit(l, s, s');
  }

  lemma KeepPowerFail(l: Layout, s: State, cuts: seq<nat>)
    requires Inv(l, s) && Enabled(l, s, PowerFail(cuts))
    ensures Inv(l, Do(l, s, PowerFail(cuts)))
  {
    var s' := Do(l, s, PowerFail(cuts));
    assert |s'.disk| == |s.disk|;
  }

  lemma Keep(l: Layout, s: State, act: Action)
    requires Inv(l, s) && Enabled(l, s, act)
    ensures Inv(l, Do(l, s, act))
  {
    hide *;
    match act
    case BgetHit(_, _) => KeepBget(l, s, act);
    case BgetMiss(_, _, _) => KeepBget(l, s, act);
    case AcquireSleep(_, _) => KeepLock(l, s, act);
    case ReadIn(p, i) => KeepReadIn(l, s, p, i);
    case Change(p, i, data) => KeepChange(l, s, p, i, data);
    case LogWrite(p, i) => KeepLogWrite(l, s, p, i);
    case Brelse(_, _) => KeepLock(l, s, act);
    case BeginOp(_) => KeepOps(l, s, act);
    case EndOp(_) => KeepOps(l, s, act);
    case CopyToLog(i, j) => KeepCopyToLog(l, s, i, j);
    case WriteHeader(i) => KeepWriteHeader(l, s, i);
    case CopyHome(i, j) => KeepCopyHome(l, s, i, j);
    case ClearHeader(i) => KeepClearHeader(l, s, i);
    case SkipCommit => KeepOps(l, s, act);
    case EndCommit => KeepOps(l, s, act);
    case PowerFail(cuts) => KeepPowerFail(l, s, cuts);
  }

  // ----- whole runs -----

  /** A booted machine: the log is clear and nothing is cached. */
  ghost predicate Init(l: Layout, s: State) {
    && HeadOk(l, s.disk) && Head(l, s.disk) == [] && |s.disk| <= 0x1_0000_0000
    && s == State(s.disk, seq(|s.bufs|, _ => FREE), [], {}, Open, 0, s.disk, s.disk)
  }

  ghost predicate Run(l: Layout, states: seq<State>, acts: seq<Action>) {
    && |states| == |acts| + 1 && Init(l, states[0])
    && forall k :: 0 <= k < |acts| ==>
         Shape(l, states[k]) && Enabled(l, states[k], acts[k]) && states[k + 1] == Do(l, states[k], acts[k])
  }

  lemma InitInv(l: Layout, s: State)
    requires Init(l, s)
    ensures Inv(l, s)
  {
    assert forall i :: 0 <= i < |s.bufs| ==> s.bufs[i] == FREE;
  }

  /** The invariant holds at every moment of every run. */
  lemma {:induction false} RunInv(l: Layout, states: seq<State>, acts: seq<Action>, k: nat)
    requires Run(l, states, acts) && k < |states|
    ensures Inv(l, states[k])
  {
    hide Inv, Enabled, Do, Init;
    if k == 0 {
      InitInv(l, states[0]);
    } else {
      RunInv(l, states, acts, k - 1);
      Keep(l, states[k - 1], acts[k - 1]);
    }
  }

  /** What the history of a run says home block a should read as at moment k. */
  ghost function LastLogged(l: Layout, states: seq<State>, acts: seq<Action>, k: nat, a: nat): Block
    requires k < |states| == |acts| + 1 && forall j :: 0 <= j < |states| ==> a < |states[j].disk|
  {
    if k == 0 || acts[k - 1].PowerFail? then states[k].disk[a]
    else if acts[k - 1].LogWrite? && acts[k - 1].i < |states[k - 1].bufs| &&
         states[k - 1].bufs[acts[k - 1].i].blockno == a
    then states[k - 1].bufs[acts[k - 1].i].data
    else LastLogged(l, states, acts, k - 1, a)
  }

  lemma {:induction false} RunSize(l: Layout, states: seq<State>, acts: seq<Action>, k: nat)
    requires Run(l, states, acts) && k < |states|
    ensures |states[k].disk| == |states[0].disk|
  {
    if k > 0 {
      hide Enabled, Do, Init, Shape;
      RunSize(l, states, acts, k - 1);
    }
  }

  /** Only log_write changes what a home block should read as. */
  lemma LatestStep(l: Layout, s: State, act: Action, a: nat)
    requires Inv(l, s) && Enabled(l, s, act) && a < |s.disk| && !InLog(l, a) && !act.PowerFail?
    ensures var s' := Do(l, s, act);
            |s'.latest| == |s.latest| &&
            s'.latest[a] == if act.LogWrite? && s.bufs[act.i].blockno == a then s.bufs[act.i].data else s.latest[a]
  {
    hide HeadOk, Head, PinsOk, BufsOk, PutHead, Loggable, LoggedTo, Coherent;
    if act.CopyHome? {
      CopyHomeData(l, s, act.i, act.j);
    } else if act.CopyToLog? {
      TailInLog(l, s);
    }
  }

  lemma TailInLog(l: Layout, s: State)
    requires Shape(l, s)
    ensures forall k :: 0 <= k < |s.lh| ==> !InLog(l, s.lh[k]) && l.start + 1 + k < l.start + l.size
  {
  }

  /** The log block copied home holds what its home block should read as. */
  lemma CopyHomeData(l: Layout, s: State, i: nat, j: nat)
    requires Inv(l, s) && Enabled(l, s, CopyHome(i, j))
    ensures s.bufs[j].blockno < |s.disk| && s.bufs[i].data == s.latest[s.bufs[j].blockno]
  {
    hide HeadOk, Head, PinsOk, BufsOk, PutHead;
    HeldIsLatest(l, s, s.committer, i, l.start + 1 + s.phase.tail);
    LogBlockClean(l, s, i);
  }

  lemma {:induction false} LatestIsLastLogged(l: Layout, states: seq<State>, acts: seq<Action>, k: nat, a: nat)
    requires Run(l, states, acts) && k < |states| && a < |states[0].disk| && !InLog(l, a)
    ensures forall j :: 0 <= j < |states| ==> a < |states[j].disk|
    ensures a < |states[k].latest| && states[k].latest[a] == LastLogged(l, states, acts, k, a)
  {
    hide Enabled, Shape, Inv, Init, HeadOk;
    forall j | 0 <= j < |states| ensures a < |states[j].disk| {
      RunSize(l, states, acts, j);
    }
    RunLatest(l, states, acts, k);
    if k > 0 && !acts[k - 1].PowerFail? {
      LatestIsLastLogged(l, states, acts, k - 1, a);
      RunInv(l, states, acts, k - 1);
      LatestStep(l, states[k - 1], acts[k - 1], a);
      if acts[k - 1].LogWrite? {
        EnabledBuffer(l, states[k - 1], acts[k - 1]);
      }
    }
  }

  lemma EnabledBuffer(l: Layout, s: State, act: Action)
    requires Enabled(l, s, act) && act.LogWrite?
    ensures act.i < |s.bufs|
  {
  }

  lemma RunLatest(l: Layout, states: seq<State>, acts: seq<Action>, k: nat)
    requires Run(l, states, acts) && k < |states|
    ensures |states[k].latest| == |states[k].disk|
    ensures (k == 0 || acts[k - 1].PowerFail?) ==> states[k].latest == states[k].disk
  {
    hide HeadOk, Head, Loggable, PinsOk, BufsOk, CommitOk;
    RunInv(l, states, acts, k);
  }

  /**
   bread returns the latest content.  At any moment of any run, a process that
   holds a filled buffer of a home block and has not itself changed it sees what
   the last log_write of that block recorded, or what recovery left on the disk.
   */
  lemma BreadReturnsLatest(l: Layout, states: seq<State>, acts: seq<Action>, k: nat, i: nat)
    requires Run(l, states, acts) && k < |states| && i < |states[k].bufs|
    requires var b := states[k].bufs[i]; b.used && b.valid && !b.changed && !InLog(l, b.blockno)
    ensures states[k].bufs[i].blockno < |states[0].disk|
    ensures forall j :: 0 <= j < |states| ==> states[k].bufs[i].blockno < |states[j].disk|
    ensures states[k].bufs[i].data == LastLogged(l, states, acts, k, states[k].bufs[i].blockno)
  {
    RunInv(l, states, acts, k);
    RunSize(l, states, acts, k);
    hide HeadOk, Head, Loggable, PinsOk, BufsOk, CommitOk, Enabled, Do, LastLogged;
    LatestIsLastLogged(l, states, acts, k, states[k].bufs[i].blockno);
  }

  /** A process that waits for or holds a buffer keeps it for the same block until it lets go. */
  lemma BufferStays(l: Layout, s: State, act: Action, p: Pid, i: nat)
    requires Inv(l, s) && Enabled(l, s, act) && i < |s.bufs| && !act.PowerFail?
    requires p in s.bufs[i].waiters || s.bufs[i].owner == p
    ensures var b := Do(l, s, act).bufs[i];
            b.used && b.blockno == s.bufs[i].blockno &&
            (p in b.waiters || b.owner == p || act == Brelse(p, i))
  {
    hide HeadOk, Head, Loggable, PinsOk, CommitOk, Coherent, PutHead;
    assert BufferOk(l, s.ops, s.bufs[i]);
  }

  /** The most recent header write of a transaction before moment k, or the boot. */
  ghost function LastCommit(acts: seq<Action>, k: nat): (j: nat)
    requires k <= |acts|
    ensures j <= k && (j > 0 ==> j < k && acts[j].WriteHeader?)
    ensures forall m :: j < m < k ==> !acts[m].WriteHeader?
  {
    if k == 0 then 0 else if acts[k - 1].WriteHeader? then k - 1 else LastCommit(acts, k - 1)
  }

  ghost predicate SameHome(l: Layout, d: Disk, e: Disk) {
    |d| == |e| && forall a: nat :: a < |d| && !InLog(l, a) ==> d[a] == e[a]
  }

  /** What a reboot would find is the committed content. */
  lemma {:induction false} RecoversCommitted(l: Layout, s: State, cuts: seq<nat>)
    requires Inv(l, s)
    ensures HeadOk(l, s.disk) && SameHome(l, Reboot(l, s.disk, cuts), s.committed)
  {
    var d := Reboot(l, s.disk, cuts);
    forall a: nat | a < |d| && !InLog(l, a) ensures d[a] == s.committed[a] {
      assert d[a] == LogicalAt(l, s.disk, a);
      CommittedAt(l, s, a);
    }
  }

  lemma {:induction false} CommittedAt(l: Layout, s: State, a: nat)
    requires Inv(l, s) && a < |s.disk| && !InLog(l, a)
    ensures LogicalAt(l, s.disk, a) == s.committed[a]
  {
    hide BufsOk, PinsOk, HeadOk, Head, IndexOf, Distinct;
    if s.phase.Install? {
      var k := IndexOf(s.lh, a);
      assert Head(l, s.disk) == s.lh;
      if k < |s.lh| {
        assert LogContents(l, s.disk, |s.lh|)[k] == s.disk[l.start + 1 + k];
      } else {
        assert a !in Pending(s);
      }
    } else {
      assert Head(l, s.disk) == [];
    }
  }

  lemma {:induction false} CommittedStep(l: Layout, s: State, act: Action)
    requires Inv(l, s) && Enabled(l, s, act)
    ensures act.WriteHeader? ==> s.ops == {} && SameHome(l, Do(l, s, act).committed, s.latest)
    ensures !act.WriteHeader? ==> SameHome(l, Do(l, s, act).committed, s.committed)
  {
    hide HeadOk, Head, Loggable, PinsOk, BufsOk, Coherent, PutHead, Reboot, InLog;
    if act.PowerFail? {
      RecoversCommitted(l, s, act.cuts);
    }
  }

  /**
   Atomicity and durability over whole runs.  Crash at any moment k of any run,
   with any number of crashes during recovery: the home blocks come back exactly
   as they read at the last header write before k, a moment at which no
   operation was in progress.
   */
  lemma {:induction false} CrashRecoversLastCommit(l: Layout, states: seq<State>, acts: seq<Action>, k: nat,
                                                   cuts: seq<nat>)
    requires Run(l, states, acts) && k < |states|
    ensures HeadOk(l, states[k].disk)
    ensures var j := LastCommit(acts, k);
            states[j].ops == {} && SameHome(l, Reboot(l, states[k].disk, cuts), states[j].latest)
  {
    RunInv(l, states, acts, k);
    RecoversCommitted(l, states[k], cuts);
    LastCommitIs(l, states, acts, k);
    hide Run, Inv, Enabled, Do;
  }

  lemma {:induction false} LastCommitIs(l: Layout, states: seq<State>, acts: seq<Action>, k: nat)
    requires Run(l, states, acts) && k < |states|
    ensures var j := LastCommit(acts, k);
            states[j].ops == {} && SameHome(l, states[k].committed, states[j].latest)
  {
    hide Enabled, Do, Inv, Shape;
    if k > 0 {
      RunInv(l, states, acts, k - 1);
      CommittedStep(l, states[k - 1], acts[k - 1]);
      LastCommitIs(l, states, acts, k - 1);
    }
  }
}
