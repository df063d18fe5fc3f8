/**
 The redo log of log.c, executed over the buffer cache.  Each routine is proved
 to issue exactly the disk writes that module Crash reasons about, and never to
 run out of buffers.
 */
module Log {
  import opened Basics
  import opened Blocks
  import opened Crash
  import opened Bio

  /** log absorption: a block joins the transaction once. */
  function Absorb(lh: seq<nat>, a: nat): (r: seq<nat>)
    ensures a in r && lh <= r && |r| <= |lh| + 1
    ensures Distinct(lh) ==> Distinct(r)
    ensures forall c :: c in r <==> c in lh || c == a
  {
    if a in lh then lh else lh + [a]
  }

  /** No buffer is referenced. */
  ghost predicate Quiet(b: seq<Buf>) {
    forall i :: 0 <= i < |b| ==> b[i].refcnt == 0
  }

  /** Exactly the listed blocks are pinned. */
  ghost predicate PinnedAre(b: seq<Buf>, d: Disk, lh: seq<nat>) {
    forall c: nat :: c < |d| ==> (Pinned(b, c) <==> c in lh)
  }

  /** An unpinned block of a quiet cache reads as the disk has it. */
  lemma CleanContent(b: seq<Buf>, d: Disk, a: nat)
    requires CacheOk(b, d) && Quiet(b) && a < |d| && !Pinned(b, a)
    ensures Content(b, d, a) == d[a]
  {
  }

  /** bread of block a finds a buffer while fewer than NBUF blocks are pinned and buffers held. */
  lemma SlotExists(b: seq<Buf>, d: Disk, order: seq<nat>, a: nat, pinned: seq<nat>, held: set<nat>)
    requires CacheOk(b, d) && Permutation(order)
    requires forall c: nat :: c < |d| && Pinned(b, c) ==> c in pinned
    requires forall i :: 0 <= i < NBUF && b[i].refcnt > 0 ==> i in held
    requires forall i :: i in held ==> 0 <= i < NBUF && !Keyed(b[i], a)
    requires |pinned| + |held| < NBUF || Pinned(b, a)
    ensures Slot(b, order, a) < NBUF && !b[Slot(b, order, a)].locked
  {
    if Find(b, a) == NBUF {
      forall i | 0 <= i < NBUF && b[i].dirty ensures b[i].blockno in pinned {
        FindUnique(b, b[i].blockno, i);
      }
      VictimExists(b, d, order, pinned, held);
    }
  }

  /** Buffer i is held once, for block a, and agrees with the disk unless pinned. */
  ghost predicate HeldFor(b: seq<Buf>, d: Disk, i: nat, a: nat) {
    && i < |b| && a < |d| && Keyed(b[i], a)
    && b[i].locked && b[i].valid && b[i].refcnt == 1 && (b[i].dirty || b[i].data == d[a])
  }

  /** Block y now has content v, on disk and in the cache, and is unpinned; nothing else changed. */
  ghost predicate Stored(b: seq<Buf>, d: Disk, b': seq<Buf>, d': Disk, y: nat, v: Block)
    requires y < |d|
  {
    && d' == d[y := v]
    && (forall c: nat :: c < |d| ==> Content(b', d', c) == if c == y then v else Content(b, d, c))
    && (forall c: nat :: c < |d| ==> (Pinned(b', c) <==> Pinned(b, c) && c != y))
  }

  /** bread on a quiet cache. */
  lemma ReadFirst(b: seq<Buf>, d: Disk, a: nat, i: nat)
    requires Readable(b, d, a, i) && Quiet(b)
    ensures var b' := AfterRead(b, d, a, i);
            CacheOk(b', d) && SameView(b, d, b', d) && HeldFor(b', d, i, a) &&
            forall k :: 0 <= k < NBUF && k != i ==> b'[k] == b[k]
  {
    ReadKeeps(b, d, a, i);
    if !Pinned(b, a) {
      CleanContent(b, d, a);
    }
  }

  /** bread of a second block y while one buffer is held for another block. */
  lemma ReadSecond(b: seq<Buf>, d: Disk, x: nat, y: nat, i: nat, j: nat)
    requires Readable(b, d, y, j) && HeldFor(b, d, i, x) && x != y
    requires forall k :: 0 <= k < NBUF && k != i ==> b[k].refcnt == 0
    ensures var b' := AfterRead(b, d, y, j);
            i != j && CacheOk(b', d) && SameView(b, d, b', d) && HeldFor(b', d, i, x) && HeldFor(b', d, j, y) &&
            forall k :: 0 <= k < NBUF && k != i && k != j ==> b'[k].refcnt == 0
  {
    ReadKeeps(b, d, y, j);
  }

  lemma HeldContent(b: seq<Buf>, d: Disk, i: nat, x: nat)
    requires CacheOk(b, d) && HeldFor(b, d, i, x)
    ensures Content(b, d, x) == b[i].data
  {
    FindUnique(b, x, i);
  }

  /** The cache after held buffer j takes new data, is written out and released. */
  ghost function AfterStore(b: seq<Buf>, j: nat, v: Block): (r: seq<Buf>)
    requires j < |b| && b[j].refcnt > 0
  {
    AfterRelease(b[j := b[j].(data := v, dirty := false)], j)
  }

  lemma StoreAt(b: seq<Buf>, d: Disk, b': seq<Buf>, j: nat, y: nat, v: Block, c: nat)
    requires CacheOk(b, d) && HeldFor(b, d, j, y) && c < |d| && |b'| == |b|
    requires forall k :: 0 <= k < |b| ==> b'[k].dev == b[k].dev && b'[k].blockno == b[k].blockno &&
                                          b'[k].valid == b[k].valid
    requires forall k :: 0 <= k < |b| ==> b'[k].data == if k == j then v else b[k].data
    requires forall k :: 0 <= k < |b| ==> b'[k].dirty == (b[k].dirty && k != j)
    ensures Content(b', d[y := v], c) == if c == y then v else Content(b, d, c)
    ensures Pinned(b', c) <==> Pinned(b, c) && c != y
  {
    FindUnique(b, y, j);
    SameKeys(b, b', c);
    hide Find;
  }

  lemma StoreKeeps(b: seq<Buf>, d: Disk, b': seq<Buf>, j: nat, y: nat, v: Block)
    requires CacheOk(b, d) && HeldFor(b, d, j, y) && |b'| == |b|
    requires forall k :: 0 <= k < |b| ==> b'[k].dev == b[k].dev && b'[k].blockno == b[k].blockno &&
                                          b'[k].valid == b[k].valid
    requires forall k :: 0 <= k < |b| ==> b'[k].data == if k == j then v else b[k].data
    requires forall k :: 0 <= k < |b| ==> b'[k].dirty == (b[k].dirty && k != j)
    ensures Stored(b, d, b', d[y := v], y, v)
  {
    hide Find;
    forall c: nat | c < |d|
      ensures Content(b', d[y := v], c) == if c == y then v else Content(b, d, c)
      ensures Pinned(b', c) <==> Pinned(b, c) && c != y
    {
      StoreAt(b, d, b', j, y, v, c);
    }
  }

  lemma StoredAfterView(b: seq<Buf>, d: Disk, b1: seq<Buf>, b2: seq<Buf>, d2: Disk, y: nat, v: Block, pinned: seq<nat>)
    requires y < |d| && SameView(b, d, b1, d) && Stored(b1, d, b2, d2, y, v)
    requires PinnedAre(b, d, pinned) && y !in pinned
    ensures Stored(b, d, b2, d2, y, v) && PinnedAre(b2, d2, pinned)
  {
    hide Find, Content, Pinned;
  }

  lemma AbsorbKeeps(l: Layout, lh: seq<nat>, b: seq<Buf>, d: Disk, i: nat)
    requires CacheOk(b, d) && i < NBUF && b[i].locked && b[i].valid && !InLog(l, b[i].blockno)
    requires Loggable(l, lh, |d|) && |lh| < Capacity(l) && PinnedAre(b, d, lh)
    ensures Loggable(l, Absorb(lh, b[i].blockno), |d|)
    ensures PinnedAre(b[i := b[i].(dirty := true)], d, Absorb(lh, b[i].blockno))
  {
    PinKeeps(b, d, i);
  }

  class RedoLog {
    const bc: Bcache
    const start: nat
    const size: nat
    const block: array<nat>      // log.lh.block
    var n: nat                   // log.lh.n
    var outstanding: nat
    var committing: bool

    ghost function L(): Layout {
      Layout(start, size)
    }

    ghost function Lh(): seq<nat>
      reads this, block
      requires n <= block.Length
    {
      block[..n]
    }

    /** Shape of the structure, at rest and during a commit alike. */
    ghost predicate Valid()
      reads this, block, bc, bc.buf, bc.next, bc.prev, bc.disk
    {
      && block != bc.next && block != bc.prev
      && block.Length == LOGSIZE && n <= LOGSIZE
      && bc.Valid() && Fits(L(), bc.disk[..]) && bc.disk.Length <= 0x1_0000_0000
      && Loggable(L(), Lh(), bc.disk.Length)
    }

    /** Between commits: the pinned blocks are the logged ones and the disk's header is clear. */
    ghost predicate AtRest()
      reads this, block, bc, bc.buf, bc.next, bc.prev, bc.disk
    {
      && Valid()
      && PinnedAre(bc.buf[..], bc.disk[..], Lh())
      && HeadOk(L(), bc.disk[..]) && Head(L(), bc.disk[..]) == []
    }

    constructor (bc: Bcache, start: nat, size: nat)
      requires bc.Valid() && 1 <= size && start + size <= bc.disk.Length <= 0x1_0000_0000
      ensures Valid() && fresh(block) && this.bc == bc && L() == Layout(start, size)
      ensures n == 0 && outstanding == 0 && !committing
    {
      this.bc, this.start, this.size := bc, start, size;
      block := new nat[LOGSIZE](_ => 0);
      n, outstanding, committing := 0, 0, false;
    }

    /** One pass of begin_op's loop: admit the operation or go to sleep. */
    method BeginOp() returns (admitted: bool)
      modifies this`outstanding
      ensures admitted <==> !committing && n + (old(outstanding) + 1) * MAXOPBLOCKS <= LOGSIZE
      ensures outstanding == old(outstanding) + if admitted then 1 else 0
    {
      if committing {
        admitted := false;
      } else if n + (outstanding + 1) * MAXOPBLOCKS > LOGSIZE {
        admitted := false;
      } else {
        outstanding := outstanding + 1;
        admitted := true;
      }
    }

    /** log_write's loop: the position of block a in the header list, or its end. */
    method Search(a: nat) returns (i: nat)
      requires n <= block.Length
      ensures i == IndexOf(Lh(), a)
    {
      i := 0;
      while i < n && block[i] != a
        invariant 0 <= i <= n && a !in Lh()[..i]
      {
        i := i + 1;
      }
      assert forall j :: 0 <= j < i ==> Lh()[j] in Lh()[..i];
    }

    /** log_write: record the held buffer's block once and pin it; false stands for a panic. */
    method LogWrite(b: nat) returns (ok: bool)
      requires AtRest() && b < NBUF && bc.buf[b].locked && bc.buf[b].valid && !InLog(L(), bc.buf[b].blockno)
      modifies this`n, block, bc.buf
      ensures ok <==> old(n) < Capacity(L()) && outstanding >= 1
      ensures AtRest()
      ensures ok ==> Lh() == Absorb(old(Lh()), bc.buf[b].blockno)
      ensures ok ==> bc.buf[..] == old(bc.buf[..])[b := old(bc.buf[b]).(dirty := true)]
      ensures !ok ==> Lh() == old(Lh()) && bc.buf[..] == old(bc.buf[..])
    {
      hide OrderAfter, Buffers, Permutation, Ring, Find, Content, Pinned, BufOk, Unique, Word, GetHead;
      if n >= LOGSIZE || n >= size - 1 {
        return false;
      }
      if outstanding < 1 {
        return false;
      }
      var a := bc.buf[b].blockno;
      var i := Search(a);
      block[i] := a;
      if i == n {
        n := n + 1;
      }
      assert Lh() == Absorb(old(Lh()), a);
      AbsorbKeeps(L(), old(Lh()), bc.buf[..], bc.disk[..], b);
      bc.Pin(b);
      return true;
    }

    /** bread of a log block and of a home block, as every round of write_log and install_trans begins. */
    method ReadBoth(x: nat, y: nat, ghost pinned: seq<nat>) returns (lb: nat, hb: nat)
      requires bc.Valid() && Quiet(bc.buf[..]) && x != y && x < bc.disk.Length && y < bc.disk.Length
      requires forall c: nat :: c < bc.disk.Length && Pinned(bc.buf[..], c) ==> c in pinned
      requires |pinned| < NBUF && (Pinned(bc.buf[..], y) || |pinned| + 1 < NBUF)
      modifies bc`trace, bc.buf, bc.disk
      ensures bc.Valid() && bc.disk[..] == old(bc.disk[..]) && bc.trace == old(bc.trace)
      ensures SameView(old(bc.buf[..]), old(bc.disk[..]), bc.buf[..], bc.disk[..])
      ensures HeldFor(bc.buf[..], bc.disk[..], lb, x) && HeldFor(bc.buf[..], bc.disk[..], hb, y)
      ensures forall i :: 0 <= i < NBUF && i != lb && i != hb ==> bc.buf[..][i].refcnt == 0
    {
      hide OrderAfter, Buffers, Permutation, Ring, Find, Content, Pinned, BufOk, Unique, IndexOf;
      ghost var b0, d0 := bc.buf[..], bc.disk[..];
      SlotExists(b0, d0, bc.order, x, pinned, {});
      var rx := bc.BRead(x);
      lb := rx.value;
      ReadFirst(b0, d0, x, lb);
      ghost var b1 := bc.buf[..];
      SlotExists(b1, d0, bc.order, y, pinned, {lb});
      var ry := bc.BRead(y);
      hb := ry.value;
      ReadSecond(b1, d0, x, y, lb, hb);
    }

    /** memmove, bwrite and the two brelse that end every such round. */
    method CopyOut(src: nat, dst: nat, ghost x: nat, ghost y: nat)
      requires bc.Valid() && x != y
      requires HeldFor(bc.buf[..], bc.disk[..], src, x) && HeldFor(bc.buf[..], bc.disk[..], dst, y)
      requires forall i :: 0 <= i < NBUF && i != src && i != dst ==> bc.buf[..][i].refcnt == 0
      modifies bc`order, bc`released, bc`trace, bc.buf, bc.next, bc.prev, bc.disk
      ensures bc.Valid() && Quiet(bc.buf[..])
      ensures var v := Content(old(bc.buf[..]), old(bc.disk[..]), x);
              Stored(old(bc.buf[..]), old(bc.disk[..]), bc.buf[..], bc.disk[..], y, v) &&
              bc.trace == old(bc.trace) + [Write(y, v)]
    {
      hide OrderAfter, Buffers, Permutation, Ring, Find, Content, Pinned, BufOk, Unique, ToFront, IndexOf, Stored;
      ghost var b0, d0 := bc.buf[..], bc.disk[..];
      HeldContent(b0, d0, src, x);
      ghost var v := bc.buf[src].data;
      bc.SetData(dst, bc.buf[src].data);
      bc.BWrite(dst);
      bc.BRelse(src);
      bc.BRelse(dst);
      assert bc.buf[..] == AfterStore(AfterRelease(b0, src), dst, v);
      StoreKeeps(b0, d0, bc.buf[..], dst, y, v);
    }

    /** write_head's assignments to the held header buffer. */
    method FillHead(hb: nat)
      requires Valid() && hb < NBUF && bc.buf[hb].locked && bc.buf[hb].valid
      modifies bc.buf
      ensures bc.Valid()
      ensures bc.buf[..] == old(bc.buf[..])[hb := old(bc.buf[hb]).(data := PutHead(old(bc.buf[hb]).data, Lh()))]
    {
      hide OrderAfter, Buffers, Permutation, Ring, CacheOk, IndexOf, Word, PutWord;
      ghost var b1, lh := bc.buf[..], Lh();
      bc.SetData(hb, PutWord(bc.buf[hb].data, 0, n));
      ghost var v0 := bc.buf[hb].data;
      for i := 0 to n
        invariant bc.Valid() && Lh() == lh
        invariant bc.buf[..] == b1[hb := b1[hb].(data := PutBlocks(v0, lh[..i]))]
      {
        assert lh[..i + 1][..i] == lh[..i];
        bc.SetData(hb, PutWord(bc.buf[hb].data, i + 1, block[i]));
      }
      assert lh[..n] == lh;
    }

    /** write_head: the in-memory list goes over the first words of the header block. */
    method WriteHead(ghost pinned: seq<nat>)
      requires Valid() && Quiet(bc.buf[..]) && PinnedAre(bc.buf[..], bc.disk[..], pinned)
      requires |pinned| < NBUF && start !in pinned
      modifies bc`order, bc`released, bc`trace, bc.buf, bc.next, bc.prev, bc.disk
      ensures Valid() && Quiet(bc.buf[..]) && PinnedAre(bc.buf[..], bc.disk[..], pinned)
      ensures var v := PutHead(old(bc.disk[..])[start], Lh());
              Stored(old(bc.buf[..]), old(bc.disk[..]), bc.buf[..], bc.disk[..], start, v) &&
              bc.trace == old(bc.trace) + [Write(start, v)]
    {
      hide OrderAfter, Buffers, Permutation, Ring, Find, Content, Pinned, BufOk, Unique, IndexOf, ToFront, PutHead;
      hide Stored;
      ghost var b0, d0, lh := bc.buf[..], bc.disk[..], Lh();
      SlotExists(b0, d0, bc.order, start, pinned, {});
      var r := bc.BRead(start);
      var hb := r.value;
      ReadFirst(b0, d0, start, hb);
      ghost var b1 := bc.buf[..];
      assert bc.buf[hb].data == d0[start] by {
        CleanContent(b0, d0, start);
      }
      FillHead(hb);
      ghost var v := bc.buf[hb].data;
      bc.BWrite(hb);
      bc.BRelse(hb);
      assert bc.buf[..] == AfterStore(b1, hb, v);
      StoreKeeps(b1, d0, bc.buf[..], hb, start, v);
      StoredAfterView(b0, d0, b1, bc.buf[..], bc.disk[..], start, v, pinned);
    }

    /** write_log: cache contents of the logged blocks go to the log area, one write each. */
    method WriteLog()
      requires Valid() && Quiet(bc.buf[..]) && PinnedAre(bc.buf[..], bc.disk[..], Lh()) && n < NBUF
      modifies bc`order, bc`released, bc`trace, bc.buf, bc.next, bc.prev, bc.disk
      ensures Valid() && Quiet(bc.buf[..])
      ensures LogProgress(L(), old(bc.buf[..]), old(bc.disk[..]), Lh(), n, bc.buf[..], bc.disk[..])
      ensures bc.trace == old(bc.trace) + LogWrites(L(), Contents(old(bc.buf[..]), old(bc.disk[..]), Lh()))
    {
      hide OrderAfter, Buffers, Permutation, Ring, Find, Content, Pinned, BufOk, Unique, IndexOf, LogProgress, HeldFor;
      hide Stored, SameView;
      ghost var b0, d0, lh := bc.buf[..], bc.disk[..], Lh();
      ghost var ws := LogWrites(L(), Contents(b0, d0, lh));
      LogNone(L(), b0, d0, lh);
      var tail := 0;
      while tail < n
        invariant 0 <= tail <= n && Lh() == lh
        invariant Valid() && Quiet(bc.buf[..])
        invariant LogProgress(L(), b0, d0, lh, tail, bc.buf[..], bc.disk[..])
        invariant bc.trace == old(bc.trace) + ws[..tail]
      {
        ghost var b1, d1 := bc.buf[..], bc.disk[..];
        LogPinned(L(), b0, d0, lh, tail, b1, d1);
        var to, from := ReadBoth(start + tail + 1, block[tail], lh);
        ghost var b2 := bc.buf[..];
        CopyOut(from, to, block[tail], start + tail + 1);
        LogRound(L(), b0, d0, lh, tail, b1, d1, b2, bc.buf[..], bc.disk[..]);
        tail := tail + 1;
      }
      assert ws[..n] == ws;
    }

    /** install_trans: the log area's contents go to the home blocks, one write each, and unpin them. */
    method InstallTrans(ghost pinned: seq<nat>)
      requires Valid() && Quiet(bc.buf[..]) && PinnedAre(bc.buf[..], bc.disk[..], pinned)
      requires pinned == [] || (pinned == Lh() && n < NBUF)
      modifies bc`order, bc`released, bc`trace, bc.buf, bc.next, bc.prev, bc.disk
      ensures Valid() && Quiet(bc.buf[..])
      ensures InstallProgress(L(), old(bc.disk[..]), Lh(), pinned, n, bc.buf[..], bc.disk[..])
      ensures bc.trace == old(bc.trace) + HomeWrites(Lh(), LogContents(L(), old(bc.disk[..]), n))
    {
      hide OrderAfter, Buffers, Permutation, Ring, Find, Content, Pinned, BufOk, Unique, IndexOf, InstallProgress;
      hide HeldFor, Stored, SameView;
      ghost var d0, lh := bc.disk[..], Lh();
      ghost var ws := HomeWrites(lh, LogContents(L(), d0, n));
      InstallNone(L(), bc.buf[..], d0, lh, pinned);
      var tail := 0;
      while tail < n
        invariant 0 <= tail <= n && Lh() == lh
        invariant Valid() && Quiet(bc.buf[..])
        invariant InstallProgress(L(), d0, lh, pinned, tail, bc.buf[..], bc.disk[..])
        invariant bc.trace == old(bc.trace) + ws[..tail]
      {
        ghost var b1, d1 := bc.buf[..], bc.disk[..];
        InstallPinned(L(), d0, lh, pinned, tail, b1, d1);
        var lbuf, dbuf := ReadBoth(start + tail + 1, block[tail], if pinned == [] then [] else lh[tail..]);
        ghost var b2 := bc.buf[..];
        CopyOut(lbuf, dbuf, start + tail + 1, block[tail]);
        InstallRound(L(), d0, lh, pinned, tail, b1, d1, b2, bc.buf[..], bc.disk[..]);
        tail := tail + 1;
      }
      assert ws[..n] == ws;
    }

    /** commit: issues exactly CommitWrites, never lacks a buffer, and leaves readers' view alone. */
    method Commit()
      requires AtRest() && Quiet(bc.buf[..]) && n < NBUF
      modifies this`n, bc`order, bc`released, bc`trace, bc.buf, bc.next, bc.prev, bc.disk
      ensures AtRest() && Quiet(bc.buf[..]) && Lh() == []
      ensures var ws := CommitWrites(L(), old(bc.disk[..]), old(Lh()),
                                     Contents(old(bc.buf[..]), old(bc.disk[..]), old(Lh())));
              bc.trace == old(bc.trace) + ws && Wrote(old(bc.disk[..]), bc.disk[..], ws)
      ensures forall c: nat :: c < bc.disk.Length && !InLog(L(), c) ==>
                bc.disk[..][c] == Content(old(bc.buf[..]), old(bc.disk[..]), c)
    {
      hide OrderAfter, Buffers, Permutation, Ring, Find, Content, Pinned, BufOk, Unique, IndexOf, Word, GetHead, Apply;
      hide PutHead, Stored;
      hide LogProgress, InstallProgress, HomeWrites, LogWrites;
      ghost var b0, d0, lh := bc.buf[..], bc.disk[..], Lh();
      if n > 0 {
        WriteLog();
        ghost var b1, d1 := bc.buf[..], bc.disk[..];
        LogPins(L(), b0, d0, lh, b1, d1);
        WriteHead(lh);
        ghost var b2, d2 := bc.buf[..], bc.disk[..];
        InstallTrans(lh);
        ghost var b3, d3 := bc.buf[..], bc.disk[..];
        InstallPinsNone(L(), d2, lh, lh, b3, d3);
        n := 0;
        WriteHead([]);
        CommitComposes(L(), b0, d0, lh, b1, d1, b2, d2, b3, d3, bc.buf[..], bc.disk[..]);
      } else {
        assert lh == [] && CommitWrites(L(), d0, lh, Contents(b0, d0, lh)) == [];
        WroteNone(d0, []);
      }
      CommitEnds(L(), b0, d0, lh, bc.disk[..]);
    }

    /** read_head: the header block's list becomes the in-memory one. */
    method ReadHead()
      requires Valid() && Quiet(bc.buf[..]) && PinnedAre(bc.buf[..], bc.disk[..], []) && HeadOk(L(), bc.disk[..])
      modifies this`n, block, bc`order, bc`released, bc`trace, bc.buf, bc.next, bc.prev, bc.disk
      ensures Valid() && Quiet(bc.buf[..]) && PinnedAre(bc.buf[..], bc.disk[..], [])
      ensures bc.disk[..] == old(bc.disk[..]) && bc.trace == old(bc.trace)
      ensures Lh() == Head(L(), bc.disk[..])
    {
      hide OrderAfter, Buffers, Permutation, Ring, Find, Content, Pinned, BufOk, Unique, IndexOf, Word;
      ghost var b0, d0 := bc.buf[..], bc.disk[..];
      SlotExists(b0, d0, bc.order, start, [], {});
      var r := bc.BRead(start);
      var hb := r.value;
      ReadFirst(b0, d0, start, hb);
      CleanContent(b0, d0, start);
      ghost var b1 := bc.buf[..];
      var data := bc.buf[hb].data;
      assert data == d0[start];
      n := Word(data, 0);
      for i := 0 to n
        invariant n == Word(data, 0) && forall k :: 0 <= k < i ==> block[k] == Word(data, k + 1)
        invariant bc.Valid() && bc.buf[..] == b1 && bc.disk[..] == d0 && bc.trace == old(bc.trace)
      {
        block[i] := Word(data, i + 1);
      }
      assert Lh() == GetHead(data);
      bc.BRelse(hb);
      ReleaseKeeps(b1, d0, hb);
    }

    /** recover_from_log on a cache with nothing pinned: issues exactly RecoverWrites. */
    method RecoverFromLog()
      requires Valid() && Quiet(bc.buf[..]) && PinnedAre(bc.buf[..], bc.disk[..], []) && HeadOk(L(), bc.disk[..])
      modifies this`n, block, bc`order, bc`released, bc`trace, bc.buf, bc.next, bc.prev, bc.disk
      ensures AtRest() && Quiet(bc.buf[..]) && Lh() == []
      ensures var ws := RecoverWrites(L(), old(bc.disk[..]));
              bc.trace == old(bc.trace) + ws && Wrote(old(bc.disk[..]), bc.disk[..], ws)
    {
      hide OrderAfter, Buffers, Permutation, Ring, Find, Content, Pinned, BufOk, Unique, IndexOf, Word, GetHead, Apply;
      hide PutHead, Stored;
      hide InstallProgress, HomeWrites;
      ghost var d0 := bc.disk[..];
      ReadHead();
      ghost var lh := Lh();
      InstallTrans([]);
      ghost var b1, d1 := bc.buf[..], bc.disk[..];
      InstallPinsNone(L(), d0, lh, [], b1, d1);
      n := 0;
      WriteHead([]);
      RecoverComposes(L(), d0, b1, d1, bc.buf[..], bc.disk[..]);
    }

    /** end_op: the last outstanding operation commits. */
    method EndOp()
      requires AtRest() && outstanding > 0 && !committing && n < NBUF
      requires outstanding == 1 ==> Quiet(bc.buf[..])
      modifies this`n, this`outstanding, this`committing, bc`order, bc`released, bc`trace, bc.buf, bc.next, bc.prev,
               bc.disk
      ensures AtRest() && outstanding == old(outstanding) - 1 && !committing
      ensures outstanding > 0 ==> Lh() == old(Lh()) && bc.trace == old(bc.trace) && bc.disk[..] == old(bc.disk[..]) &&
                                  bc.buf[..] == old(bc.buf[..])
      ensures outstanding == 0 ==> Lh() == []
      ensures outstanding == 0 ==>
                var ws := CommitWrites(L(), old(bc.disk[..]), old(Lh()),
                                       Contents(old(bc.buf[..]), old(bc.disk[..]), old(Lh())));
                bc.trace == old(bc.trace) + ws && Wrote(old(bc.disk[..]), bc.disk[..], ws)
    {
      hide OrderAfter, Buffers, Permutation, Ring, CacheOk, PinnedAre, HeadOk, Loggable, CommitWrites;
      outstanding := outstanding - 1;
      if outstanding == 0 {
        committing := true;
        Commit();
        committing := false;
      }
    }
  }

  ghost function Contents(b: seq<Buf>, d: Disk, lh: seq<nat>): (c: seq<Block>)
    requires forall i :: 0 <= i < |lh| ==> lh[i] < |d|
  {
    seq(|lh|, i requires 0 <= i < |lh| => Content(b, d, lh[i]))
  }

  ghost predicate Wrote(d: Disk, d': Disk, ws: seq<Write>) {
    InRange(ws, |d|) && d' == Apply(d, ws)
  }

  /** Readers see every home block as before. */
  ghost predicate HomeViewKept(l: Layout, b: seq<Buf>, d: Disk, b': seq<Buf>, d': Disk) {
    |d| == |d'| && forall c: nat :: c < |d| && !InLog(l, c) ==> Content(b', d', c) == Content(b, d, c)
  }

  lemma WroteNone(d: Disk, ws: seq<Write>)
    ensures Wrote(d, d, ws[..0])
  {
  }

  lemma WroteMore(d: Disk, d': Disk, ws: seq<Write>, k: nat)
    requires k < |ws| && Wrote(d, d', ws[..k]) && ws[k].addr < |d|
    ensures Wrote(d, d'[ws[k].addr := ws[k].data], ws[..k + 1])
  {
    assert ws[..k + 1][..k] == ws[..k];
  }

  /** State of write_log before round tail, started on cache b0 and disk d0. */
  ghost predicate LogProgress(l: Layout, b0: seq<Buf>, d0: Disk, lh: seq<nat>, tail: nat, b: seq<Buf>, d: Disk) {
    && Loggable(l, lh, |d0|) && Fits(l, d0) && tail <= |lh| && |d| == |d0|
    && PinnedAre(b, d, lh)
    && Wrote(d0, d, LogWrites(l, Contents(b0, d0, lh))[..tail])
    && HomeViewKept(l, b0, d0, b, d)
    && d[l.start] == d0[l.start]
    && forall i :: 0 <= i < tail ==> d[l.start + 1 + i] == Contents(b0, d0, lh)[i]
  }

  lemma LogNone(l: Layout, b: seq<Buf>, d: Disk, lh: seq<nat>)
    requires Loggable(l, lh, |d|) && Fits(l, d) && PinnedAre(b, d, lh)
    ensures LogProgress(l, b, d, lh, 0, b, d)
  {
    WroteNone(d, LogWrites(l, Contents(b, d, lh)));
  }

  lemma LogPinned(l: Layout, b0: seq<Buf>, d0: Disk, lh: seq<nat>, tail: nat, b: seq<Buf>, d: Disk)
    requires LogProgress(l, b0, d0, lh, tail, b, d) && tail < |lh|
    ensures l.start + tail + 1 < |d| && lh[tail] < |d| && l.start + tail + 1 != lh[tail] && Pinned(b, lh[tail])
    ensures forall c: nat :: c < |d| && Pinned(b, c) ==> c in lh
  {
    assert lh[tail] in lh;
  }

  lemma LogRound(l: Layout, b0: seq<Buf>, d0: Disk, lh: seq<nat>, tail: nat,
                 b1: seq<Buf>, d1: Disk, b2: seq<Buf>, b3: seq<Buf>, d3: Disk)
    requires LogProgress(l, b0, d0, lh, tail, b1, d1) && tail < |lh|
    requires SameView(b1, d1, b2, d1)
    requires Stored(b2, d1, b3, d3, l.start + tail + 1, Content(b2, d1, lh[tail]))
    ensures LogProgress(l, b0, d0, lh, tail + 1, b3, d3)
    ensures LogWrites(l, Contents(b0, d0, lh))[tail] == Write(l.start + tail + 1, Content(b2, d1, lh[tail]))
  {
    hide Find, Content, Pinned, Apply, IndexOf;
    var ws := LogWrites(l, Contents(b0, d0, lh));
    WroteMore(d0, d1, ws, tail);
    assert !InLog(l, lh[tail]);
  }

  /** State of install_trans before round tail, started on disk d0. */
  ghost predicate InstallProgress(l: Layout, d0: Disk, lh: seq<nat>, pinned: seq<nat>, tail: nat, b: seq<Buf>,
                                  d: Disk) {
    && Loggable(l, lh, |d0|) && Fits(l, d0) && tail <= |lh| && |d| == |d0|
    && (pinned == [] || pinned == lh)
    && PinnedAre(b, d, if pinned == [] then [] else lh[tail..])
    && Wrote(d0, d, HomeWrites(lh, LogContents(l, d0, |lh|))[..tail])
    && forall a: nat :: a < |d0| && InLog(l, a) ==> d[a] == d0[a]
  }

  lemma InstallNone(l: Layout, b: seq<Buf>, d: Disk, lh: seq<nat>, pinned: seq<nat>)
    requires Loggable(l, lh, |d|) && Fits(l, d) && PinnedAre(b, d, pinned) && (pinned == [] || pinned == lh)
    ensures InstallProgress(l, d, lh, pinned, 0, b, d)
  {
    WroteNone(d, HomeWrites(lh, LogContents(l, d, |lh|)));
    assert lh[0..] == lh;
  }

  lemma InstallPinned(l: Layout, d0: Disk, lh: seq<nat>, pinned: seq<nat>, tail: nat, b: seq<Buf>, d: Disk)
    requires InstallProgress(l, d0, lh, pinned, tail, b, d) && tail < |lh|
    ensures l.start + tail + 1 < |d| && lh[tail] < |d| && l.start + tail + 1 != lh[tail]
    ensures pinned != [] ==> Pinned(b, lh[tail])
    ensures forall c: nat :: c < |d| && Pinned(b, c) ==> c in (if pinned == [] then [] else lh[tail..])
  {
    assert lh[tail] in lh[tail..];
  }

  lemma TailSet(lh: seq<nat>, k: nat)
    requires Distinct(lh) && k < |lh|
    ensures forall c :: c in lh[k + 1..] <==> c in lh[k..] && c != lh[k]
  {
    assert lh[k..] == [lh[k]] + lh[k + 1..];
  }

  lemma InstallPins(lh: seq<nat>, k: nat, b: seq<Buf>, d: Disk, b': seq<Buf>, d': Disk, v: Block)
    requires Distinct(lh) && k < |lh| && lh[k] < |d| && PinnedAre(b, d, lh[k..]) && Stored(b, d, b', d', lh[k], v)
    ensures PinnedAre(b', d', lh[k + 1..])
  {
    hide Find, Content, Pinned;
    TailSet(lh, k);
  }

  lemma InstallRound(l: Layout, d0: Disk, lh: seq<nat>, pinned: seq<nat>, tail: nat,
                     b1: seq<Buf>, d1: Disk, b2: seq<Buf>, b3: seq<Buf>, d3: Disk)
    requires InstallProgress(l, d0, lh, pinned, tail, b1, d1) && tail < |lh|
    requires CacheOk(b1, d1) && Quiet(b1) && SameView(b1, d1, b2, d1)
    requires Stored(b2, d1, b3, d3, lh[tail], Content(b2, d1, l.start + tail + 1))
    ensures InstallProgress(l, d0, lh, pinned, tail + 1, b3, d3)
    ensures HomeWrites(lh, LogContents(l, d0, |lh|))[tail] == Write(lh[tail], Content(b2, d1, l.start + tail + 1))
  {
    hide Find, Content, Pinned, Apply, IndexOf, BufOk, Unique;
    var x, ws := l.start + tail + 1, HomeWrites(lh, LogContents(l, d0, |lh|));
    assert InLog(l, x) && x !in lh;
    CleanContent(b1, d1, x);
    assert ws[tail] == Write(lh[tail], d1[x]);
    WroteMore(d0, d1, ws, tail);
    if pinned != [] {
      InstallPins(lh, tail, b2, d1, b3, d3, d1[x]);
    }
  }

  lemma LogPins(l: Layout, b0: seq<Buf>, d0: Disk, lh: seq<nat>, b: seq<Buf>, d: Disk)
    requires LogProgress(l, b0, d0, lh, |lh|, b, d)
    ensures PinnedAre(b, d, lh) && l.start !in lh
  {
    hide Find, Content, Pinned, Apply;
    assert InLog(l, l.start);
  }

  lemma InstallPinsNone(l: Layout, d0: Disk, lh: seq<nat>, pinned: seq<nat>, b: seq<Buf>, d: Disk)
    requires InstallProgress(l, d0, lh, pinned, |lh|, b, d)
    ensures PinnedAre(b, d, [])
  {
    hide Find, Content, Pinned, Apply;
    assert lh[|lh|..] == [];
  }

  lemma WroteOne(d: Disk, a: nat, v: Block)
    requires a < |d|
    ensures Wrote(d, d[a := v], [Write(a, v)])
  {
    var ws := [Write(a, v)];
    assert ws[..|ws| - 1] == [];
  }

  lemma WroteBoth(d: Disk, d1: Disk, d2: Disk, ws: seq<Write>, vs: seq<Write>)
    requires Wrote(d, d1, ws) && Wrote(d1, d2, vs)
    ensures Wrote(d, d2, ws + vs)
  {
    ApplyConcat(d, ws, vs);
  }

  /** The four phases of commit, in order, are CommitWrites. */
  lemma CommitComposes(l: Layout, b0: seq<Buf>, d0: Disk, lh: seq<nat>, b1: seq<Buf>, d1: Disk,
                       b2: seq<Buf>, d2: Disk, b3: seq<Buf>, d3: Disk, b4: seq<Buf>, d4: Disk)
    requires |d0| <= 0x1_0000_0000 && lh != []
    requires LogProgress(l, b0, d0, lh, |lh|, b1, d1)
    requires Stored(b1, d1, b2, d2, l.start, PutHead(d1[l.start], lh))
    requires InstallProgress(l, d2, lh, lh, |lh|, b3, d3)
    requires Stored(b3, d3, b4, d4, l.start, PutHead(d3[l.start], []))
    ensures var contents := Contents(b0, d0, lh);
            var h := PutHead(d0[l.start], lh);
            Wrote(d0, d4, CommitWrites(l, d0, lh, contents)) &&
            d1[l.start] == d0[l.start] && d3[l.start] == h && LogContents(l, d2, |lh|) == contents
  {
    hide Find, Content, Pinned, Apply, IndexOf, PutHead;
    var contents := Contents(b0, d0, lh);
    var h := PutHead(d0[l.start], lh);
    assert LogContents(l, d2, |lh|) == contents;
    assert InLog(l, l.start);
    var lw, hw := LogWrites(l, contents), HomeWrites(lh, contents);
    assert lw[..|lh|] == lw && hw[..|lh|] == hw;
    WroteOne(d1, l.start, h);
    WroteBoth(d0, d1, d2, lw, [Write(l.start, h)]);
    WroteBoth(d0, d2, d3, lw + [Write(l.start, h)], hw);
    WroteOne(d3, l.start, PutHead(h, []));
    WroteBoth(d0, d3, d4, lw + [Write(l.start, h)] + hw, [Write(l.start, PutHead(h, []))]);
  }

  /** After the whole of commit the header is clear and the home blocks hold what readers saw. */
  lemma CommitEnds(l: Layout, b: seq<Buf>, d: Disk, lh: seq<nat>, e: Disk)
    requires CacheOk(b, d) && Quiet(b) && PinnedAre(b, d, lh) && Loggable(l, lh, |d|)
    requires HeadOk(l, d) && Head(l, d) == [] && |d| <= 0x1_0000_0000
    requires Wrote(d, e, CommitWrites(l, d, lh, Contents(b, d, lh)))
    ensures HeadOk(l, e) && Head(l, e) == []
    ensures forall c: nat :: c < |d| && !InLog(l, c) ==> e[c] == Content(b, d, c)
  {
    hide Apply, GetHead, Word, PutHead, Find, Pinned, BufOk, Unique;
    var contents := Contents(b, d, lh);
    var ws := CommitWrites(l, d, lh, contents);
    assert ws[..|ws|] == ws;
    CommitPrefix(l, d, lh, contents, |ws|);
    CommitDisk(l, d, lh, contents, |ws|);
    forall c: nat | c < |d| && !InLog(l, c) ensures e[c] == Content(b, d, c) {
      if c !in lh {
        CleanContent(b, d, c);
      }
    }
  }

  lemma RecoverComposes(l: Layout, d0: Disk, b1: seq<Buf>, d1: Disk, b2: seq<Buf>, d2: Disk)
    requires HeadOk(l, d0) && InstallProgress(l, d0, Head(l, d0), [], |Head(l, d0)|, b1, d1)
    requires Stored(b1, d1, b2, d2, l.start, PutHead(d1[l.start], []))
    ensures Wrote(d0, d2, RecoverWrites(l, d0)) && d1[l.start] == d0[l.start]
    ensures HeadOk(l, d2) && Head(l, d2) == []
  {
    var lh := Head(l, d0);
    var hw := HomeWrites(lh, LogContents(l, d0, |lh|));
    assert hw[..|lh|] == hw;
    assert InLog(l, l.start);
    WroteOne(d1, l.start, PutHead(d1[l.start], []));
    WroteBoth(d0, d1, d2, hw, [Write(l.start, PutHead(d1[l.start], []))]);
    RecoverAll(l, d0);
  }
}
