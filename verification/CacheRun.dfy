/**
 The sequential cache and log (modules Bio and Log) against the interleaved ones
 (module LogRun): operations of the classes are runs of steps, what the classes
 assume of each other holds in every run, and commit issues the same disk writes
 whatever other processes do meanwhile.
 */
module CacheRun {

  import opened Basics
  import opened Blocks
  import opened Crash
  import Bio
  import Log
  import opened LogRun

  /** A buffer of the class as a buffer of the step system, with nobody waiting for it. */
  ghost predicate ShowsBuf(x: Bio.Buf, y: Buffer) {
    && x.dev <= Bio.ROOTDEV && (y.used <==> x.dev == Bio.ROOTDEV) && (y.used ==> y.blockno == x.blockno)
    && y.valid == x.valid && y.dirty == x.dirty && y.refcnt == x.refcnt && (y.valid ==> y.data == x.data)
    && (y.owner != 0 <==> x.locked) && y.waiters == {}
  }

  ghost predicate Shows(b: seq<Bio.Buf>, d: Disk, lh: seq<nat>, s: State) {
    s.disk == d && s.lh == lh && |s.bufs| == |b| == NBUF && forall i :: 0 <= i < NBUF ==> ShowsBuf(b[i], s.bufs[i])
  }

  /** The steps acts lead from s to t. */
  ghost predicate Leads(l: Layout, s: State, acts: seq<Action>, t: State)
    decreases |acts|
  {
    if acts == [] then s == t
    else Shape(l, s) && Enabled(l, s, acts[0]) && Leads(l, Do(l, s, acts[0]), acts[1..], t)
  }

  lemma LeadsOne(l: Layout, s: State, act: Action)
    requires Shape(l, s) && Enabled(l, s, act)
    ensures Leads(l, s, [act], Do(l, s, act))
  {
  }

  lemma LeadsMore(l: Layout, s: State, act: Action, acts: seq<Action>, t: State)
    requires Shape(l, s) && Enabled(l, s, act) && Leads(l, Do(l, s, act), acts, t)
    ensures Leads(l, s, [act] + acts, t)
  {
    assert ([act] + acts)[1..] == acts;
  }

  /**
   Whatever processes have done, the cache meets what the class requires of it, and between commits its pins
   are the logged blocks.
   */
  lemma {:induction false} InvShows(l: Layout, s: State, b: seq<Bio.Buf>, d: Disk, lh: seq<nat>)
    requires Inv(l, s) && Shows(b, d, lh, s)
    ensures Bio.CacheOk(b, d)
    ensures s.phase.Open? ==> Log.PinnedAre(b, d, lh) && HeadOk(l, d) && Head(l, d) == []
  {
    hide HeadOk, Head, Loggable, LoggedTo;
    forall i | 0 <= i < NBUF ensures Bio.BufOk(b[i], d) {
      assert BufferOk(l, s.ops, s.bufs[i]) && ShowsBuf(b[i], s.bufs[i]);
    }
    assert Bio.Unique(b) by {
      forall i, j | 0 <= i < j < |b| && b[i].dev == b[j].dev == Bio.ROOTDEV ensures b[i].blockno != b[j].blockno {
        assert ShowsBuf(b[i], s.bufs[i]) && ShowsBuf(b[j], s.bufs[j]);
      }
    }
    if s.phase.Open? {
      forall c: nat | c < |d| ensures Bio.Pinned(b, c) <==> c in lh {
        PinShown(l, s, b, d, lh, c);
      }
    }
  }

  lemma {:induction false} PinShown(l: Layout, s: State, b: seq<Bio.Buf>, d: Disk, lh: seq<nat>, c: nat)
    requires Inv(l, s) && Shows(b, d, lh, s) && s.phase.Open? && Bio.Unique(b) && c < |d|
    ensures Bio.Pinned(b, c) <==> c in lh
  {
    hide HeadOk, Head, Loggable, LoggedTo, CommitOk;
    var i := Bio.Find(b, c);
    if i < |b| {
      assert ShowsBuf(b[i], s.bufs[i]);
    }
    if c in lh {
      assert PinnedIn(s.bufs, c);
      var j :| 0 <= j < |s.bufs| && s.bufs[j].used && s.bufs[j].dirty && s.bufs[j].blockno == c;
      assert ShowsBuf(b[j], s.bufs[j]);
      Bio.FindUnique(b, c, j);
    }
  }

  /** A buffer once bget and acquiresleep have given it to p for block a. */
  ghost function Taken(y: Buffer, a: nat, p: Pid): Buffer {
    if y.used && y.blockno == a then y.(refcnt := y.refcnt + 1, owner := p)
    else Buffer(true, a, false, false, 1, {}, p, y.data, false)
  }

  lemma {:induction false} TakeSteps(l: Layout, s: State, b: seq<Bio.Buf>, d: Disk, lh: seq<nat>, a: nat, i: nat,
                                     p: Pid)
    returns (acts: seq<Action>, t: State)
    requires Inv(l, s) && Shows(b, d, lh, s) && Bio.Readable(b, d, a, i)
    ensures Leads(l, s, acts, t) && Inv(l, t) && t == s.(bufs := s.bufs[i := Taken(s.bufs[i], a, p)])
  {
    hide HeadOk, Head, Loggable, CommitOk, PinsOk, Coherent, Bio.CacheOk, Bio.Content;
    assert ShowsBuf(b[i], s.bufs[i]) && BufferOk(l, s.ops, s.bufs[i]);
    var get, lock := if Bio.Keyed(b[i], a) then BgetHit(p, i) else BgetMiss(p, a, i), AcquireSleep(p, i);
    if !Bio.Keyed(b[i], a) {
      NotCached(s, b, d, lh, a, i);
    }
    Keep(l, s, get);
    var s1 := Do(l, s, get);
    Keep(l, s1, lock);
    t := Do(l, s1, lock);
    assert t.bufs[i].waiters == {};
    acts := [get] + [lock];
    LeadsOne(l, s1, lock);
    LeadsMore(l, s, get, [lock], t);
  }

  lemma {:induction false} LeadsJoin(l: Layout, s: State, acts: seq<Action>, t: State, acts': seq<Action>, u: State)
    requires Leads(l, s, acts, t) && Leads(l, t, acts', u)
    ensures Leads(l, s, acts + acts', u)
    decreases |acts|
  {
    hide Shape, Enabled, Do;
    if acts == [] {
      assert acts + acts' == acts';
    } else {
      LeadsJoin(l, Do(l, s, acts[0]), acts[1..], t, acts', u);
      assert (acts + acts')[1..] == acts[1..] + acts';
    }
  }

  /** bread is bget, acquiresleep and, where the buffer is not filled, the disk read. */
  lemma {:induction false} ReadSteps(l: Layout, s: State, b: seq<Bio.Buf>, d: Disk, lh: seq<nat>, a: nat, i: nat,
                                     p: Pid)
    returns (acts: seq<Action>, t: State)
    requires Inv(l, s) && Shows(b, d, lh, s) && Bio.Readable(b, d, a, i)
    ensures Leads(l, s, acts, t) && Inv(l, t)
    ensures Shows(Bio.AfterRead(b, d, a, i), d, lh, t) && t.bufs[i].owner == p && !t.bufs[i].changed
    ensures t == s.(bufs := s.bufs[i := t.bufs[i]])
  {
    hide HeadOk, Head, Loggable, CommitOk, PinsOk, Coherent, Bio.CacheOk, Bio.Content, Leads;
    assert ShowsBuf(b[i], s.bufs[i]) && BufferOk(l, s.ops, s.bufs[i]);
    ContentIs(b, d, a, i);
    acts, t := TakeSteps(l, s, b, d, lh, a, i, p);
    if !t.bufs[i].valid {
      var read := ReadIn(p, i);
      Keep(l, t, read);
      LeadsOne(l, t, read);
      LeadsJoin(l, s, acts, t, [read], Do(l, t, read));
      acts, t := acts + [read], Do(l, t, read);
    }
  }

  lemma NotCached(s: State, b: seq<Bio.Buf>, d: Disk, lh: seq<nat>, a: nat, i: nat)
    requires Shows(b, d, lh, s) && Bio.Readable(b, d, a, i) && !Bio.Keyed(b[i], a)
    ensures forall j :: 0 <= j < |s.bufs| && s.bufs[j].used ==> s.bufs[j].blockno != a
  {
    forall j | 0 <= j < |s.bufs| && s.bufs[j].used ensures s.bufs[j].blockno != a {
      assert ShowsBuf(b[j], s.bufs[j]) && !Bio.Keyed(b[j], a);
    }
  }

  lemma ContentIs(b: seq<Bio.Buf>, d: Disk, a: nat, i: nat)
    requires Bio.Readable(b, d, a, i)
    ensures Bio.Content(b, d, a) == if Bio.Keyed(b[i], a) && b[i].valid then b[i].data else d[a]
  {
  }

  /** brelse is one step, and what the class demands before it holds. */
  lemma {:induction false} ReleaseSteps(l: Layout, s: State, b: seq<Bio.Buf>, d: Disk, lh: seq<nat>, i: nat, p: Pid)
    requires Inv(l, s) && Shows(b, d, lh, s) && i < NBUF && s.bufs[i].owner == p && s.bufs[i].valid &&
             !s.bufs[i].changed
    ensures b[i].locked && b[i].refcnt > 0 && b[i].blockno < |d| && (!b[i].dirty ==> b[i].data == d[b[i].blockno])
    ensures Leads(l, s, [Brelse(p, i)], Do(l, s, Brelse(p, i))) &&
            Shows(Bio.AfterRelease(b, i), d, lh, Do(l, s, Brelse(p, i)))
  {
    hide HeadOk, Head, Loggable, CommitOk;
    assert ShowsBuf(b[i], s.bufs[i]) && BufferOk(l, s.ops, s.bufs[i]);
    LeadsOne(l, s, Brelse(p, i));
    Unpinned(s.bufs, Pending(s), i);
  }

  lemma Unpinned(bufs: seq<Buffer>, pending: seq<nat>, i: nat)
    requires PinsOk(bufs, pending) && Unique(bufs) && i < |bufs| && bufs[i].used
    ensures bufs[i].dirty <==> bufs[i].blockno in pending
  {
    assert bufs[i].blockno in pending ==> PinnedIn(bufs, bufs[i].blockno);
  }

  /** A change of the data inside an operation, and log_write, are one step each. */
  lemma {:induction false} WriteSteps(l: Layout, s: State, b: seq<Bio.Buf>, d: Disk, lh: seq<nat>, i: nat, p: Pid,
                                      data: Block)
    requires Inv(l, s) && Shows(b, d, lh, s) && i < NBUF && s.bufs[i].owner == p && s.bufs[i].valid && p in s.ops
    requires !InLog(l, b[i].blockno)
    ensures Leads(l, s, [Change(p, i, data)], Do(l, s, Change(p, i, data)))
    ensures Shows(b[i := b[i].(data := data)], d, lh, Do(l, s, Change(p, i, data)))
    ensures |lh| < Capacity(l) ==> Leads(l, s, [LogWrite(p, i)], Do(l, s, LogWrite(p, i))) &&
                                   Shows(b[i := b[i].(dirty := true)], d, Log.Absorb(lh, b[i].blockno),
                                         Do(l, s, LogWrite(p, i)))
  {
    hide HeadOk, Head, Loggable, CommitOk, PinsOk, Coherent;
    assert ShowsBuf(b[i], s.bufs[i]) && BufferOk(l, s.ops, s.bufs[i]);
    LeadsOne(l, s, Change(p, i, data));
    if |lh| < Capacity(l) {
      LeadsOne(l, s, LogWrite(p, i));
    }
  }

  // ----- commit -----

  /** The disk writes of a step. */
  ghost function Writes(l: Layout, s: State, act: Action): seq<Write>
    requires Shape(l, s) && Enabled(l, s, act)
  {
    match act
    case CopyToLog(i, j) => [Write(s.bufs[i].blockno, s.bufs[j].data)]
    case WriteHeader(i) => [Write(s.bufs[i].blockno, PutHead(s.bufs[i].data, s.lh))]
    case CopyHome(i, j) => [Write(s.bufs[j].blockno, s.bufs[i].data)]
    case ClearHeader(i) => [Write(s.bufs[i].blockno, PutHead(s.bufs[i].data, []))]
    case _ => []
  }

  /** The disk writes of a run between moments j and k. */
  ghost function Trace(l: Layout, states: seq<State>, acts: seq<Action>, j: nat, k: nat): seq<Write>
    requires Run(l, states, acts) && j <= k <= |acts|
    decreases k
  {
    if j == k then [] else Trace(l, states, acts, j, k - 1) + Writes(l, states[k - 1], acts[k - 1])
  }

  /** The contents that blocks should have. */
  ghost function LatestOf(s: State, lh: seq<nat>): (c: seq<Block>)
    requires forall k :: 0 <= k < |lh| ==> lh[k] < |s.latest|
  {
    seq(|lh|, k requires 0 <= k < |lh| => s.latest[lh[k]])
  }

  ghost function Writing(l: Layout, s: State): seq<Write>
    requires Shape(l, s)
  {
    CommitWrites(l, s.disk, s.lh, LatestOf(s, s.lh))
  }

  /** How many of the n + 1 + n + 1 writes have been made. */
  ghost function Made(s: State, n: nat): nat {
    match s.phase
    case WriteLog(tail) => tail
    case Install(tail) => n + 1 + tail
    case _ => if n == 0 then 0 else 2 * n + 2
  }

  /** A commit that began at s0 has come to s. */
  ghost predicate Committing(l: Layout, s0: State, s: State)
    requires Shape(l, s0)
  {
    && Inv(l, s) && |s.disk| == |s0.disk| && !s.phase.Open?
    && (s.phase.Done? || s.lh == s0.lh)
    && (s.phase.WriteLog? ==> s.latest[l.start] == s0.disk[l.start])
    && (s.phase.Install? ==> s.latest[l.start] == PutHead(s0.disk[l.start], s0.lh))
    && (forall a: nat :: a < |s.latest| && !InLog(l, a) ==> s.latest[a] == s0.latest[a])
  }

  lemma {:induction false} CommitBegins(l: Layout, s: State)
    requires Inv(l, s) && s.phase == WriteLog(0)
    ensures Committing(l, s, s) && Made(s, |s.lh|) == 0
  {
    hide HeadOk, Head, BufsOk, PinsOk;
    assert InLog(l, l.start) && l.start !in s.lh;
  }

  /** A step during a commit makes the next write of the commit, or none. */
  lemma {:induction false} CommitStep(l: Layout, s0: State, s: State, act: Action)
    requires Shape(l, s0) && Committing(l, s0, s) && Enabled(l, s, act) && !act.PowerFail? && !act.EndCommit?
    ensures Committing(l, s0, Do(l, s, act))
    ensures NextWrites(l, s0, s, act)
  {
    hide HeadOk, Head, BufsOk, PinsOk, Coherent, PutHead, LoggedTo, NextWrites, Inv;
    Keep(l, s, act);
    StepKeeps(l, s0, s, act);
    match act
    case CopyToLog(i, j) => NextLog(l, s0, s, i, j);
    case WriteHeader(i) => NextHeader(l, s0, s, i);
    case CopyHome(i, j) => NextHome(l, s0, s, i, j);
    case ClearHeader(i) => NextClear(l, s0, s, i);
    case _ => NextNone(l, s0, s, act);
  }

  ghost predicate NextWrites(l: Layout, s0: State, s: State, act: Action)
    requires Shape(l, s0) && Shape(l, s) && Enabled(l, s, act)
  {
    var ws, m, m' := Writing(l, s0), Made(s, |s0.lh|), Made(Do(l, s, act), |s0.lh|);
    m <= m' <= |ws| && Writes(l, s, act) == ws[m..m']
  }

  lemma {:induction false} WritingAt(l: Layout, s: State)
    requires Shape(l, s)
    ensures var ws, n, h := Writing(l, s), |s.lh|, PutHead(s.disk[l.start], s.lh);
            |ws| == (if n == 0 then 0 else 2 * n + 2) &&
            (forall k :: 0 <= k < n ==> ws[k] == Write(l.start + 1 + k, s.latest[s.lh[k]]) &&
                                        ws[n + 1 + k] == Write(s.lh[k], s.latest[s.lh[k]])) &&
            (n > 0 ==> ws[n] == Write(l.start, h) && ws[2 * n + 1] == Write(l.start, PutHead(h, [])))
  {
    hide PutHead;
  }

  lemma {:induction false} NextLog(l: Layout, s0: State, s: State, i: nat, j: nat)
    requires Shape(l, s0) && Committing(l, s0, s) && Enabled(l, s, CopyToLog(i, j))
    ensures NextWrites(l, s0, s, CopyToLog(i, j))
  {
    hide HeadOk, Head, BufsOk, PinsOk, Coherent, PutHead, LoggedTo, Writing;
    WritingAt(l, s0);
    TailInLog(l, s);
    HeldIsLatest(l, s, s.committer, j, s.lh[s.phase.tail]);
  }

  lemma {:induction false} NextHeader(l: Layout, s0: State, s: State, i: nat)
    requires Shape(l, s0) && Committing(l, s0, s) && Enabled(l, s, WriteHeader(i))
    ensures NextWrites(l, s0, s, WriteHeader(i))
  {
    hide HeadOk, Head, BufsOk, PinsOk, Coherent, PutHead, LoggedTo, Writing;
    WritingAt(l, s0);
    HeldIsLatest(l, s, s.committer, i, l.start);
  }

  lemma {:induction false} NextHome(l: Layout, s0: State, s: State, i: nat, j: nat)
    requires Shape(l, s0) && Committing(l, s0, s) && Enabled(l, s, CopyHome(i, j))
    ensures NextWrites(l, s0, s, CopyHome(i, j))
  {
    hide HeadOk, Head, BufsOk, PinsOk, Coherent, PutHead, LoggedTo, Writing;
    WritingAt(l, s0);
    TailInLog(l, s);
    CopyHomeData(l, s, i, j);
  }

  lemma {:induction false} NextClear(l: Layout, s0: State, s: State, i: nat)
    requires Shape(l, s0) && Committing(l, s0, s) && Enabled(l, s, ClearHeader(i))
    ensures NextWrites(l, s0, s, ClearHeader(i))
  {
    hide HeadOk, Head, BufsOk, PinsOk, Coherent, PutHead, LoggedTo, Writing;
    WritingAt(l, s0);
    HeldIsLatest(l, s, s.committer, i, l.start);
  }

  lemma {:induction false} NextNone(l: Layout, s0: State, s: State, act: Action)
    requires Shape(l, s0) && Committing(l, s0, s) && Enabled(l, s, act) && !act.PowerFail? && !act.EndCommit?
    requires !act.CopyToLog? && !act.WriteHeader? && !act.CopyHome? && !act.ClearHeader?
    ensures NextWrites(l, s0, s, act)
  {
    hide HeadOk, Head, BufsOk, PinsOk, Coherent, PutHead, LoggedTo, Writing;
    WritingAt(l, s0);
  }

  lemma {:induction false} StepKeeps(l: Layout, s0: State, s: State, act: Action)
    requires Shape(l, s0) && Committing(l, s0, s) && Enabled(l, s, act) && !act.PowerFail? && !act.EndCommit?
    requires Inv(l, Do(l, s, act))
    ensures Committing(l, s0, Do(l, s, act))
  {
    hide HeadOk, Head, BufsOk, PinsOk, Coherent, PutHead, LoggedTo;
    var t := Do(l, s, act);
    if act.WriteHeader? {
      HeldIsLatest(l, s, s.committer, act.i, l.start);
    }
    TailInLog(l, s);
    forall a: nat | a < |t.latest| && !InLog(l, a) ensures t.latest[a] == s0.latest[a] {
      LatestStep(l, s, act, a);
    }
  }

  /**
   In every run, from the moment a commit begins and up to its end, the disk writes made so
   far are the first so many of the writes that RedoLog.Commit makes and that crash
   atomicity is about, whatever readers do in between.
   */
  lemma {:induction false} CommitTrace(l: Layout, states: seq<State>, acts: seq<Action>, j: nat, k: nat)
    requires Run(l, states, acts) && j <= k <= |acts| && states[j].phase == WriteLog(0)
    requires forall m :: j <= m < k ==> !acts[m].PowerFail? && !acts[m].EndCommit?
    ensures Inv(l, states[j]) && Committing(l, states[j], states[k])
    ensures var ws, m := Writing(l, states[j]), Made(states[k], |states[j].lh|);
            m <= |ws| && Trace(l, states, acts, j, k) == ws[..m] && (states[k].phase.Done? ==> m == |ws|)
    decreases k
  {
    hide Inv, Enabled, Do, Init, Committing, Writes, Writing, HeadOk, Shape;
    RunInv(l, states, acts, j);
    InvShape(l, states[j]);
    WritingAt(l, states[j]);
    if j == k {
      CommitBegins(l, states[j]);
    } else {
      CommitTrace(l, states, acts, j, k - 1);
      var ws := Writing(l, states[j]);
      var s, act := states[k - 1], acts[k - 1];
      CommitStep(l, states[j], s, act);
      var m, m' := Made(s, |states[j].lh|), Made(states[k], |states[j].lh|);
      assert ws[..m] + ws[m..m'] == ws[..m'];
    }
  }

  lemma InvShape(l: Layout, s: State)
    requires Inv(l, s)
    ensures Shape(l, s)
  {
  }
}
