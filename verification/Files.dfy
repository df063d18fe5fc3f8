/**
 Block allocation, block maps and file contents (fs.c, file.c).

 The disk array holds what bread returns for each block; a changed block goes to
 log_write, whose block numbers since begin_op are collected in a ghost set.  The
 in-core inodes are indexed by inode number.
 */
module Files {

  import opened Blocks
  import opened Basics
  import opened Inodes
  import Bitmap

  /** A block of the free map. */
  ghost predicate IsMap(sb: Super, c: nat) {
    sb.bmapstart <= c <= sb.bmapstart + sb.size / Bitmap.BPB
  }

  /** bmap must write ip->addrs to provide block bn. */
  ghost predicate AddrHole(a: Addrs, bn: nat) {
    if bn < NDIRECT then a[bn] == 0 else a[NDIRECT] == 0
  }

  /** Addresses are only added. */
  ghost predicate AddrsGrow(a: Addrs, a': Addrs) {
    forall k :: 0 <= k <= NDIRECT && a[k] != 0 ==> a'[k] == a[k]
  }

  /** Blocks change use only from free to being part of file i. */
  ghost predicate UsesGrow(use: seq<Use>, use': seq<Use>, i: nat) {
    |use'| == |use| &&
    forall b :: 0 <= b < |use| ==> use'[b] == use[b] || (use[b] == Free && InFile(use'[b]) && use'[b].i == i)
  }

  // ----- counting free blocks -----

  ghost function FreeSet(use: seq<Use>): set<nat> {
    set b: nat | b < |use| && use[b] == Free
  }

  ghost function FreeCount(use: seq<Use>): nat {
    |FreeSet(use)|
  }

  lemma {:induction false} FreeTaken(use: seq<Use>, b: nat, u: Use)
    requires b < |use| && use[b] == Free && u != Free
    ensures FreeCount(use[b := u]) + 1 == FreeCount(use)
  {
    assert FreeSet(use[b := u]) == FreeSet(use) - {b};
  }

  lemma {:induction false} NoneFree(use: seq<Use>)
    ensures (forall b :: 0 <= b < |use| ==> use[b] != Free) <==> FreeCount(use) == 0
  {
    if b: nat :| b < |use| && use[b] == Free {
      assert b in FreeSet(use);
    } else {
      assert FreeSet(use) == {};
    }
  }

  /** How many blocks bmap must allocate to provide block bn. */
  ghost function NeedAt(d: seq<Block>, a: Addrs, bn: nat): nat
    requires bn < MAXFILE
  {
    One(Ptr(d, a, bn) == 0) + One(bn >= NDIRECT && a[NDIRECT] == 0)
  }

  /** How many of the blocks lo..hi are missing. */
  ghost function Holes(d: seq<Block>, a: Addrs, lo: nat, hi: nat): nat
    decreases hi
  {
    if lo >= hi then 0 else Holes(d, a, lo, hi - 1) + One(hi - 1 < MAXFILE && Ptr(d, a, hi - 1) == 0)
  }

  /** How many blocks a transfer over the blocks lo..hi must allocate. */
  ghost function Need(d: seq<Block>, a: Addrs, lo: nat, hi: nat): nat {
    Holes(d, a, lo, hi) + One(lo < hi && hi > NDIRECT && a[NDIRECT] == 0)
  }

  lemma {:induction false} NeedMore(d: seq<Block>, a: Addrs, lo: nat, hi: nat, end: nat)
    requires hi <= end
    ensures Need(d, a, lo, hi) <= Need(d, a, lo, end)
    decreases end
  {
    if hi < end {
      NeedMore(d, a, lo, hi, end - 1);
    }
  }

  lemma SpentAll(d0: seq<Block>, a0: Addrs, use0: seq<Use>, a: Addrs, use: seq<Use>, lo: nat, hi: nat)
    requires Spent(d0, a0, use0, a, use, lo, hi)
    ensures FreeCount(use) == FreeCount(use0) - Need(d0, a0, lo, hi)
  {
  }

  /** A transfer has allocated just what the blocks lo..hi needed. */
  ghost predicate Spent(d0: seq<Block>, a0: Addrs, use0: seq<Use>, a: Addrs, use: seq<Use>, lo: nat, hi: nat) {
    && FreeCount(use) + Need(d0, a0, lo, hi) == FreeCount(use0)
    && (a[NDIRECT] == 0 <==> a0[NDIRECT] == 0 && !(lo < hi && hi > NDIRECT))
  }

  /** What bmap of block bn allocates; it fails exactly when too little is free. */
  ghost predicate MapSpent(d1: seq<Block>, a1: Addrs, use1: seq<Use>, a2: Addrs, use2: seq<Use>, bn: nat, ok: bool) {
    && bn < MAXFILE && (ok <==> FreeCount(use1) >= NeedAt(d1, a1, bn))
    && (ok ==> FreeCount(use2) + NeedAt(d1, a1, bn) == FreeCount(use1))
    && (ok ==> if bn < NDIRECT then a2[NDIRECT] == a1[NDIRECT] else a2[NDIRECT] != 0)
  }

  lemma {:induction false} SpentStep(d0: seq<Block>, a0: Addrs, use0: seq<Use>, d1: seq<Block>, a1: Addrs,
                                     use1: seq<Use>,
                                     a2: Addrs, use2: seq<Use>, lo: nat, hi: nat, end: nat, ok: bool)
    requires Spent(d0, a0, use0, a1, use1, lo, hi) && lo <= hi < end && hi < MAXFILE
    requires Ptr(d1, a1, hi) == Ptr(d0, a0, hi) && MapSpent(d1, a1, use1, a2, use2, hi, ok)
    ensures ok ==> Spent(d0, a0, use0, a2, use2, lo, hi + 1)
    ensures !ok ==> FreeCount(use0) < Need(d0, a0, lo, end)
  {
    hide FreeCount, Ptr;
    NeedMore(d0, a0, lo, hi + 1, end);
  }

  const T_DEV: nat := 3
  const WRAP: nat := 0x1_0000_0000

  datatype WriteResult = WritePanic | WriteError | Wrote
  datatype ReadResult = ReadPanic | ReadError | Bytes(data: seq<byte>)

  const NO_INODE: Inode := Inode(0, 0, 0, 0, 0, NO_ADDRS)

  /** The uses while mkfs has marked the first k blocks. */
  ghost function FreshUse(sb: Super, k: nat): (r: seq<Use>)
    ensures |r| == sb.size
  {
    seq(sb.size, b => if b < k then Meta else Free)
  }

  lemma FreshNext(sb: Super, b: nat)
    requires b < sb.size
    ensures FreshUse(sb, b)[b := Meta] == FreshUse(sb, b + 1)
  {
  }

  ghost predicate OnDiskIs(sb: Super, d: seq<Block>, i: nat, ip: Inode) {
    sb.inodestart + i / IPB < |d| && OnDisk(sb, d, i) == ip
  }

  lemma {:induction false} ZeroByte(k: nat)
    ensures !Bitmap.Test(0, k)
  {
    if k > 0 {
      ZeroByte(k - 1);
    }
  }

  lemma {:induction false} FreshBits(sb: Super, d: seq<Block>)
    requires SuperOk(sb, |d|) && forall c :: 0 <= c < |d| ==> d[c] == Zero()
    ensures BitsOk(sb, d, FreshUse(sb, 0))
  {
    hide Bitmap.Test;
    forall b: nat | b < sb.size ensures !Bitmap.Used(d, sb.bmapstart, b) {
      MapBlock(sb, b);
      ZeroByte(b % 8);
    }
  }

  lemma {:induction false} FreshOk(sb: Super, d: seq<Block>, ino: seq<Inode>)
    requires SuperOk(sb, |d|) && BitsOk(sb, d, FreshUse(sb, sb.datastart)) && |ino| == sb.ninodes
    requires forall c :: 0 <= c < |d| && (c < sb.bmapstart || sb.datastart <= c) ==> d[c] == Zero()
    requires forall i :: 0 <= i < |ino| ==> ino[i] == NO_INODE
    ensures OwnOk(sb, d, ino, FreshUse(sb, sb.datastart))
    ensures forall i :: 0 <= i < |ino| ==> OnDiskIs(sb, d, i, NO_INODE)
  {
    hide Bitmap.Used;
    forall i | 0 <= i < |ino| ensures OnDiskIs(sb, d, i, NO_INODE) {
      InodeBlock(sb, i);
      ZeroInode(i % IPB);
    }
  }

  lemma ZeroInode(slot: nat)
    requires slot < IPB
    ensures GetDinode(Zero(), slot) == NO_INODE
  {
    assert forall k: nat :: k < WORDS ==> Word(Zero(), k) == 0;
    assert GetDinode(Zero(), slot).addrs == NO_ADDRS;
  }

  // ----- files as byte sequences -----

  function ByteAt(d: seq<Block>, a: Addrs, k: nat): (x: byte)
    requires k < MAXFILE * BSIZE
  {
    BlockOf(d, a, k / BSIZE)[k % BSIZE]
  }

  /** The bytes of a file. */
  ghost function Contents(d: seq<Block>, ip: Inode): (s: seq<byte>)
    requires ip.size <= MAXFILE * BSIZE
    ensures |s| == ip.size
  {
    seq(ip.size, k requires 0 <= k < ip.size => ByteAt(d, ip.addrs, k))
  }

  /** How much readi reads: what is asked for, or up to the end. */
  function Clipped(off: nat, n: nat, size: nat): (m: nat)
    requires off <= size
    ensures m <= n && off + m <= size && (m == n || off + m == size)
  {
    if off + n > size then size - off else n
  }

  /** One past the last block that n bytes from off on touch. */
  function SpanEnds(off: nat, n: nat): nat {
    if n == 0 then off / BSIZE else (off + n - 1) / BSIZE + 1
  }

  /** Blocks lo..hi of a file are all there. */
  ghost predicate Filled(d: seq<Block>, a: Addrs, lo: nat, hi: nat) {
    forall bn: nat :: lo <= bn < hi && bn < MAXFILE ==> Ptr(d, a, bn) != 0
  }

  /** None of the blocks that n bytes from off on touch is missing. */
  ghost predicate NoHole(d: seq<Block>, a: Addrs, off: nat, n: nat) {
    Filled(d, a, off / BSIZE, SpanEnds(off, n))
  }

  /** What readi must allocate. */
  ghost function ReadNeed(d: seq<Block>, ip: Inode, off: nat, n: nat): nat {
    if off > ip.size then 0 else Need(d, ip.addrs, off / BSIZE, SpanEnds(off, Clipped(off, n, ip.size)))
  }

  /** A file has exactly the blocks its size calls for. */
  ghost predicate Exact(d: seq<Block>, ip: Inode) {
    forall bn: nat :: bn < MAXFILE ==> (Ptr(d, ip.addrs, bn) != 0 <==> bn * BSIZE < ip.size)
  }

  ghost predicate NoBlocks(ip: Inode) {
    ip.size == 0 && forall k :: 0 <= k <= NDIRECT ==> ip.addrs[k] == 0
  }

  lemma NoBlocksIs(ip: Inode)
    ensures NoBlocks(ip) <==> ip.addrs == NO_ADDRS && ip.size == 0
  {
    assert NoBlocks(ip) ==> ip.addrs == NO_ADDRS;
  }

  /** File i has exactly its blocks, none if it is unused, and its inode is on disk as it is in core. */
  ghost predicate SoundFile(sb: Super, d: seq<Block>, ino: seq<Inode>, i: nat) {
    i < |ino| && Exact(d, ino[i]) && OnDiskIs(sb, d, i, ino[i]) && (ino[i].kind == 0 ==> NoBlocks(ino[i]))
  }

  ghost predicate Sound(sb: Super, d: seq<Block>, ino: seq<Inode>) {
    forall i: nat :: i < |ino| ==> SoundFile(sb, d, ino, i)
  }

  lemma InSpan(off: nat, n: nat, bn: nat)
    ensures off / BSIZE <= bn < SpanEnds(off, n) <==> n > 0 && bn * BSIZE < off + n && off < (bn + 1) * BSIZE
  {
  }

  /** Without holes, a transfer that does not reach past the end needs no new block. */
  lemma {:induction false} ExactHasAddrs(d: seq<Block>, ip: Inode, off: nat, n: nat)
    requires Exact(d, ip) && off + n <= ip.size <= MAXFILE * BSIZE
    ensures NoAddrHole(ip.addrs, off / BSIZE, SpanEnds(off, n)) && NoHole(d, ip.addrs, off, n)
  {
    forall bn: nat | off / BSIZE <= bn < SpanEnds(off, n)
      ensures bn < MAXFILE && Ptr(d, ip.addrs, bn) != 0 && !AddrHole(ip.addrs, bn)
    {
      InSpan(off, n, bn);
    }
  }

  lemma {:induction false} NoHoleNoNeed(d: seq<Block>, a: Addrs, lo: nat, hi: nat)
    requires Filled(d, a, lo, hi) && hi <= MAXFILE
    ensures Need(d, a, lo, hi) == 0
    decreases hi
  {
    if lo < hi {
      NoHoleNoNeed(d, a, lo, hi - 1);
    }
  }

  /** So it cannot run out of blocks. */
  lemma {:induction false} ExactNeedsNone(d: seq<Block>, ip: Inode, off: nat, n: nat)
    requires Exact(d, ip) && off + n <= ip.size <= MAXFILE * BSIZE
    ensures Need(d, ip.addrs, off / BSIZE, SpanEnds(off, n)) == 0
  {
    hide Ptr, Need, Exact;
    ExactHasAddrs(d, ip, off, n);
    NoHoleNoNeed(d, ip.addrs, off / BSIZE, SpanEnds(off, n));
  }

  /** writei keeps a file free of holes and of blocks past its end. */
  lemma {:induction false} ExactKept(d0: seq<Block>, ino0: seq<Inode>, d: seq<Block>, ino: seq<Inode>, i: nat, off: nat,
                                     n: nat)
    requires i < |ino0| == |ino| && Exact(d0, ino0[i]) && off <= ino0[i].size && off + n <= MAXFILE * BSIZE
    requires PtrsSpan(d0, ino0, d, ino, i, off / BSIZE, SpanEnds(off, n)) && ino[i].size == Max(ino0[i].size, off + n)
    ensures Exact(d, ino[i])
  {
    hide Ptr;
    forall bn: nat | bn < MAXFILE ensures Ptr(d, ino[i].addrs, bn) != 0 <==> bn * BSIZE < ino[i].size {
      InSpan(off, n, bn);
    }
  }

  lemma {:induction false} ExactWritten(d0: seq<Block>, ino0: seq<Inode>, d: seq<Block>, ino: seq<Inode>, i: nat,
                                        off: nat, n: nat)
    requires i < |ino0| == |ino| && Exact(d0, ino0[i]) && off <= ino0[i].size <= MAXFILE * BSIZE &&
             off + n <= MAXFILE * BSIZE
    requires PtrsSpan(d0, ino0, d, ino, i, off / BSIZE, SpanEnds(off, n)) && ino[i].size == Max(ino0[i].size, off + n)
    ensures Exact(d, ino[i]) && (off + n <= ino0[i].size ==> NoAddrHole(ino0[i].addrs, off / BSIZE, SpanEnds(off, n)))
  {
    hide Exact, PtrsSpan, NoAddrHole;
    ExactKept(d0, ino0, d, ino, i, off, n);
    if off + n <= ino0[i].size {
      ExactHasAddrs(d0, ino0[i], off, n);
    }
  }

  lemma {:induction false} EmptyExact(d: seq<Block>, ip: Inode)
    requires ip.addrs == NO_ADDRS && ip.size == 0
    ensures Exact(d, ip)
  {
  }

  lemma {:induction false} FreshSound(sb: Super, d: seq<Block>, ino: seq<Inode>)
    requires forall i :: 0 <= i < |ino| ==> ino[i] == NO_INODE && OnDiskIs(sb, d, i, NO_INODE)
    ensures Sound(sb, d, ino)
  {
    hide OnDiskIs, Exact;
    EmptyExact(d, NO_INODE);
  }

  /** An operation on one file that leaves it as it should be leaves the whole system so. */
  lemma {:induction false} SoundKept(sb: Super, d0: seq<Block>, ino0: seq<Inode>, d: seq<Block>, ino: seq<Inode>,
                                     i: nat)
    requires i < |ino| && |d| == |d0| && OthersSame(d0, ino0, d, ino, i)
    requires forall j: nat :: j < |ino| && j != i && sb.inodestart + j / IPB < |d| ==>
                              OnDisk(sb, d, j) == OnDisk(sb, d0, j)
    requires Sound(sb, d0, ino0) ==> SoundFile(sb, d, ino, i)
    ensures Sound(sb, d0, ino0) ==> Sound(sb, d, ino)
  {
    hide OnDisk, Ptr, BlockOf;
    if Sound(sb, d0, ino0) {
      forall j: nat | j < |ino| && j != i ensures SoundFile(sb, d, ino, j) {
        assert SoundFile(sb, d0, ino0, j);
      }
    }
  }

  /** A transfer of count bytes from off on, tot of them done, has dealt with the blocks before hi. */
  predicate InStep(off: nat, tot: nat, count: nat, hi: nat) {
    (tot == 0 ==> hi == off / BSIZE) &&
    (tot > 0 ==> hi > 0 && (hi - 1) * BSIZE < off + tot <= hi * BSIZE) &&
    (tot < count ==> (off + tot) / BSIZE == hi)
  }

  lemma {:induction false} StepBlock(off: nat, tot: nat, count: nat, hi: nat)
    requires InStep(off, tot, count, hi) && tot < count && off + count <= MAXFILE * BSIZE
    ensures (off + tot) / BSIZE == hi < MAXFILE && off / BSIZE <= hi < SpanEnds(off, count)
  {
  }

  lemma {:induction false} StepEnd(off: nat, tot: nat, count: nat, hi: nat, m: nat)
    requires InStep(off, tot, count, hi) && tot < count && m == Min(count - tot, BSIZE - (off + tot) % BSIZE)
    ensures m > 0 && InStep(off, tot + m, count, hi + 1)
  {
    var pos := off + tot;
    assert pos == hi * BSIZE + pos % BSIZE;
  }

  lemma {:induction false} SpanEnd(off: nat, count: nat, hi: nat)
    requires InStep(off, count, count, hi)
    ensures hi == SpanEnds(off, count)
  {
  }

  /** The bytes read so far. */
  ghost predicate BytesFrom(d: seq<Block>, a: Addrs, off: nat, dst: seq<byte>) {
    off + |dst| <= MAXFILE * BSIZE && forall k :: 0 <= k < |dst| ==> dst[k] == ByteAt(d, a, off + k)
  }

  lemma InBlock(pos: nat, x: nat)
    requires pos % BSIZE + x < BSIZE
    ensures (pos + x) / BSIZE == pos / BSIZE && (pos + x) % BSIZE == pos % BSIZE + x
  {
  }

  lemma {:induction false} BytesMore(d: seq<Block>, a: Addrs, off: nat, dst: seq<byte>, pos: nat, m: nat, blk: Block)
    requires BytesFrom(d, a, off, dst) && pos == off + |dst| && pos + m <= MAXFILE * BSIZE && pos % BSIZE + m <= BSIZE
    requires pos / BSIZE < MAXFILE && blk == BlockOf(d, a, pos / BSIZE)
    ensures BytesFrom(d, a, off, dst + blk[pos % BSIZE..pos % BSIZE + m])
  {
    hide BlockOf;
    var dst' := dst + blk[pos % BSIZE..pos % BSIZE + m];
    forall k | 0 <= k < |dst'| ensures dst'[k] == ByteAt(d, a, off + k) {
      if k >= |dst| {
        InBlock(pos, k - |dst|);
      }
    }
  }

  lemma {:induction false} ContentsAre(d: seq<Block>, ip: Inode, off: nat, dst: seq<byte>)
    requires ip.size <= MAXFILE * BSIZE && BytesFrom(d, ip.addrs, off, dst) && off + |dst| <= ip.size
    ensures dst == Contents(d, ip)[off..off + |dst|]
  {
    hide ByteAt;
  }

  /** From block hi on, the addresses of file i are still the first ones. */
  ghost predicate PtrsFrom(d0: seq<Block>, ino0: seq<Inode>, d: seq<Block>, ino: seq<Inode>, i: nat, hi: nat) {
    i < |ino0| == |ino| && forall bn: nat :: hi <= bn < MAXFILE ==>
                                             Ptr(d, ino[i].addrs, bn) == Ptr(d0, ino0[i].addrs, bn)
  }

  class FileSystem {
    const sb: Super
    const disk: array<Block>
    const inodes: array<Inode>
    ghost var use: seq<Use>
    ghost var logged: set<nat>

    ghost predicate Valid()
      reads this, disk, inodes
    {
      OwnOk(sb, disk[..], inodes[..], use) && inodes.Length == sb.ninodes &&
      forall i :: 0 <= i < inodes.Length ==> inodes[i].size <= MAXFILE * BSIZE
    }

    /** An image as mkfs lays it out, before any file: zeroed, with the blocks before the data marked in the bitmap. */
    constructor (sb: Super, blocks: nat)
      requires SuperOk(sb, blocks)
      ensures Valid() && this.sb == sb && fresh(disk) && disk.Length == blocks && fresh(inodes) &&
              use == FreshUse(sb, sb.datastart)
      ensures forall i :: 0 <= i < inodes.Length ==> inodes[i] == NO_INODE && OnDiskIs(sb, disk[..], i, NO_INODE)
      ensures Sound(sb, disk[..], inodes[..])
    {
      this.sb := sb;
      disk := new Block[blocks](_ => Zero());
      inodes := new Inode[sb.ninodes](_ => NO_INODE);
      use := FreshUse(sb, 0);
      logged := {};
      new;
      ghost var d0 := disk[..];
      FreshBits(sb, d0);
      for b := 0 to sb.datastart
        invariant BitsOk(sb, disk[..], FreshUse(sb, b))
        invariant forall c :: 0 <= c < blocks && (c < sb.bmapstart || sb.datastart <= c) ==> disk[c] == Zero()
        invariant forall i :: 0 <= i < inodes.Length ==> inodes[i] == NO_INODE
      {
        hide Bitmap.Used, Bitmap.MarkByte, FreshUse;
        BitMarked(sb, disk[..], FreshUse(sb, b), b, true, Meta);
        MapBlock(sb, b);
        FreshNext(sb, b);
        var q := sb.bmapstart + b / Bitmap.BPB;
        ghost var d1 := disk[..];
        disk[q] := disk[q][b % Bitmap.BPB / 8 := Bitmap.MarkByte(disk[q][b % Bitmap.BPB / 8], b % 8, true)];
        assert disk[..] == Bitmap.Marked(d1, sb.bmapstart, b, true);
      }
      use := FreshUse(sb, sb.datastart);
      FreshOk(sb, disk[..], inodes[..]);
      FreshSound(sb, disk[..], inodes[..]);
    }

    /** bread, a change of the whole buffer, log_write and brelse. */
    method LogWrite(b: nat, blk: Block)
      requires b < disk.Length
      modifies disk, this`logged
      ensures disk[..] == old(disk[..])[b := blk] && logged == old(logged) + {b}
    {
      disk[b] := blk;
      logged := logged + {b};
    }

    /** The end of balloc: the bit found is set and the block is zeroed. */
    method Claim(b: nat, bi: nat)
      requires Valid() && b % Bitmap.BPB == 0 && bi < Bitmap.BPB && b + bi < sb.size == |use| && use[b + bi] == Free
      modifies disk, this`use, this`logged
      ensures Valid() && Bitmap.InMap(old(disk[..]), sb.bmapstart, b + bi) && b + bi < disk.Length
      ensures disk[..] == Allocated(sb, old(disk[..]), b + bi) && use == old(use)[b + bi := Held]
      ensures logged == old(logged) + {sb.bmapstart + (b + bi) / Bitmap.BPB, b + bi}
      ensures SameFiles(old(disk[..]), inodes[..], disk[..], inodes[..])
      ensures SamePtrs(old(disk[..]), inodes[..], disk[..], inodes[..])
    {
      hide OwnOk, Bitmap.Used, Bitmap.Marked, SameFiles, SamePtrs, Allocated;
      var q, x := sb.bmapstart + b / Bitmap.BPB, b + bi;
      ghost var d0 := disk[..];
      BitAt(sb, d0, inodes[..], use, b, bi);
      AllocatedOk(sb, d0, inodes[..], use, x);
      MarkAt(sb, d0, b, bi);
      Offset(b, bi);
      LogWrite(q, disk[q][bi / 8 := Bitmap.MarkByte(disk[q][bi / 8], bi % 8, true)]);
      LogWrite(x, Zero());
      use := use[x := Held];
    }

    /** balloc: the lowest free block, marked and zeroed. */
    method Balloc() returns (r: Option<nat>)
      requires Valid()
      modifies disk, this`use, this`logged
      ensures Valid()
      ensures r.None? ==> disk[..] == old(disk[..]) && use == old(use) && logged == old(logged) && NoFree()
      ensures r.None? <==> FreeCount(old(use)) == 0
      ensures r.Some? ==> r.value < sb.size && old(use)[r.value] == Free &&
                          (forall c :: 0 <= c < r.value ==> old(use)[c] != Free)
      ensures r.Some? ==> disk[..] == Allocated(sb, old(disk[..]), r.value) && use == old(use)[r.value := Held] &&
                          logged == old(logged) + {sb.bmapstart + r.value / Bitmap.BPB, r.value} &&
                            sb.datastart <= r.value
      ensures r.Some? ==> SameFiles(old(disk[..]), inodes[..], disk[..], inodes[..]) &&
                          SamePtrs(old(disk[..]), inodes[..], disk[..], inodes[..])
    {
      hide OwnOk, Bitmap.Used, Bitmap.Marked, SameFiles, SamePtrs, Allocated, Bitmap.Test, FreeCount;
      var b := 0;
      NoneFree(use);
      SizeOf(sb, disk[..], inodes[..], use);
      while b < sb.size
        invariant b % Bitmap.BPB == 0
        invariant Valid() && disk[..] == old(disk[..]) && use == old(use) && logged == old(logged)
        invariant forall c :: 0 <= c < b && c < sb.size ==> use[c] != Free
      {
        var bi := ScanBlock(b);
        if bi < Bitmap.BPB && b + bi < sb.size {
          Claim(b, bi);
          return Some(b + bi);
        }
        b := b + Bitmap.BPB;
      }
      return None;
    }

    /** balloc's inner loop: the first clear bit of one bitmap block, or where it stops. */
    method ScanBlock(b: nat) returns (bi: nat)
      requires Valid() && b % Bitmap.BPB == 0 && b < sb.size == |use|
      ensures bi <= Bitmap.BPB && forall c :: b <= c < b + bi && c < sb.size ==> use[c] != Free
      ensures bi < Bitmap.BPB && b + bi < sb.size ==> use[b + bi] == Free && sb.datastart <= b + bi
    {
      hide OwnOk, Bitmap.Test;
      bi := 0;
      while bi < Bitmap.BPB && b + bi < sb.size
        invariant bi <= Bitmap.BPB
        invariant forall c :: b <= c < b + bi && c < sb.size ==> use[c] != Free
      {
        BitAt(sb, disk[..], inodes[..], use, b, bi);
        if !Bitmap.Test(disk[sb.bmapstart + b / Bitmap.BPB][bi / 8], bi % 8) {
          return;
        }
        bi := bi + 1;
      }
    }

    /** bfree of a block whose bit is set. */
    method Bfree(b: nat)
      requires Bitmap.InMap(disk[..], sb.bmapstart, b) && Bitmap.Used(disk[..], sb.bmapstart, b)
      modifies disk, this`logged
      ensures disk[..] == Bitmap.Marked(old(disk[..]), sb.bmapstart, b, false)
      ensures logged == old(logged) + {sb.bmapstart + b / Bitmap.BPB}
    {
      var q, bi := sb.bmapstart + b / Bitmap.BPB, b % Bitmap.BPB;
      assert bi % 8 == b % 8;
      LogWrite(q, disk[q][bi / 8 := Bitmap.MarkByte(disk[q][bi / 8], bi % 8, false)]);
    }

    /** bmap for a direct block. */
    method MapDirect(i: nat, bn: nat) returns (r: Option<nat>)
      requires Valid() && i < inodes.Length && bn < NDIRECT
      modifies disk, inodes, this`use, this`logged
      ensures Valid() && Grown(sb, old(disk[..]), old(inodes[..]), old(use), disk[..], inodes[..], use, i)
      ensures r.None? ==> NoFree()
      ensures r.Some? ==> MappedAt(old(disk[..]), old(inodes[..]), disk[..], inodes[..], i, bn, r.value)
      ensures r.Some? ==> MapLogged(sb, old(logged), logged, r.value, r.value)
      ensures r.Some? ==> (inodes[i].addrs == old(inodes[i].addrs) <==> !AddrHole(old(inodes[i].addrs), bn))
      ensures MapSpent(old(disk[..]), old(inodes[i].addrs), old(use), inodes[i].addrs, use, bn, r.Some?)
      ensures old(inodes[i].addrs[bn]) != 0 ==> r.Some? && disk[..] == old(disk[..]) && inodes[..] == old(inodes[..]) &&
                                                use == old(use) && logged == old(logged)
    {
      hide OwnOk, SameFiles, SamePtrs, PtrAdded, Allocated, Ptr, FreeCount;
      ghost var d0, ino0, use0 := disk[..], inodes[..], use;
      SizeOf(sb, d0, ino0, use0);
      GrownNone(sb, d0, ino0, use0, i);
      DirectAt(d0, ino0, i, bn);
      var addr: nat := inodes[i].addrs[bn];
      if addr == 0 {
        var b := Balloc();
        if b.None? {
          return None;
        }
        addr := b.value;
        ghost var d1, use1 := disk[..], use;
        AllocGrown(sb, d0, ino0, use0, d1, addr, i);
        LinkDirect(sb, d1, ino0, use1, i, bn, addr);
        inodes[i] := inodes[i].(addrs := inodes[i].addrs[bn := addr]);
        assert inodes[..] == ino0[i := ino0[i].(addrs := ino0[i].addrs[bn := addr])];
        use := use[addr := Data(i, bn)];
        FreeTaken(use0, addr, Data(i, bn));
        LinkGrown(sb, d0, ino0, use0, d1, disk[..], inodes[..], use, i, bn, addr);
        assert use == use0[addr := Data(i, bn)];
      }
      return Some(addr);
    }

    /** bmap's first step for an indirect block: make sure there is a block of addresses. */
    method NeedIndirect(i: nat) returns (ok: bool)
      requires Valid() && i < inodes.Length
      modifies disk, inodes, this`use, this`logged
      ensures Valid() && Grown(sb, old(disk[..]), old(inodes[..]), old(use), disk[..], inodes[..], use, i)
      ensures !ok ==> NoFree()
      ensures SamePtrs(old(disk[..]), old(inodes[..]), disk[..], inodes[..])
      ensures ok ==> inodes[i].addrs[NDIRECT] != 0 && MapLogged(sb, old(logged), logged, inodes[i].addrs[NDIRECT],
                                                                inodes[i].addrs[NDIRECT])
      ensures ok ==> (inodes[i].addrs == old(inodes[i].addrs) <==> old(inodes[i].addrs[NDIRECT]) != 0)
      ensures ok <==> FreeCount(old(use)) >= One(old(inodes[i].addrs[NDIRECT]) == 0)
      ensures ok ==> FreeCount(use) + One(old(inodes[i].addrs[NDIRECT]) == 0) == FreeCount(old(use))
      ensures old(inodes[i].addrs[NDIRECT]) != 0 ==> ok && disk[..] == old(disk[..]) && inodes[..] == old(inodes[..]) &&
                                                     use == old(use) && logged == old(logged)
    {
      hide OwnOk, SameFiles, PtrAdded, Allocated, Ptr, FreeCount;
      ghost var d0, ino0, use0 := disk[..], inodes[..], use;
      SizeOf(sb, d0, ino0, use0);
      GrownNone(sb, d0, ino0, use0, i);
      if inodes[i].addrs[NDIRECT] != 0 {
        return true;
      }
      var b := Balloc();
      if b.None? {
        return false;
      }
      ghost var d1, use1 := disk[..], use;
      AllocGrown(sb, d0, ino0, use0, d1, b.value, i);
      LinkIndirect(sb, d1, ino0, use1, i, b.value);
      inodes[i] := inodes[i].(addrs := inodes[i].addrs[NDIRECT := b.value]);
      assert inodes[..] == ino0[i := ino0[i].(addrs := ino0[i].addrs[NDIRECT := b.value])];
      use := use[b.value := Indirect(i)];
      FreeTaken(use0, b.value, Indirect(i));
      assert use == use0[b.value := Indirect(i)];
      IndirectGrown(sb, d0, ino0, use0, d1, inodes[..], use, i, b.value);
      return true;
    }

    /** bmap's second step: the entry in the block of addresses. */
    method MapEntry(i: nat, bn: nat) returns (r: Option<nat>)
      requires Valid() && i < inodes.Length && NDIRECT <= bn < MAXFILE && inodes[i].addrs[NDIRECT] != 0
      modifies disk, this`use, this`logged
      ensures Valid() && Grown(sb, old(disk[..]), inodes[..], old(use), disk[..], inodes[..], use, i)
      ensures r.None? ==> NoFree()
      ensures r.Some? ==> MappedAt(old(disk[..]), inodes[..], disk[..], inodes[..], i, bn, r.value)
      ensures r.Some? ==> MapLogged(sb, old(logged), logged, r.value, inodes[i].addrs[NDIRECT])
      ensures r.Some? <==> FreeCount(old(use)) >= One(Ptr(old(disk[..]), inodes[i].addrs, bn) == 0)
      ensures r.Some? ==> FreeCount(use) + One(Ptr(old(disk[..]), inodes[i].addrs, bn) == 0) == FreeCount(old(use))
      ensures Ptr(old(disk[..]), inodes[i].addrs, bn) != 0 ==>
              r.Some? && disk[..] == old(disk[..]) && use == old(use) && logged == old(logged)
    {
      hide OwnOk, SameFiles, SamePtrs, PtrAdded, Allocated, Ptr, Word, PutWord, FreeCount;
      ghost var d0, ino0, use0 := disk[..], inodes[..], use;
      SizeOf(sb, d0, ino0, use0);
      GrownNone(sb, d0, ino0, use0, i);
      var q: nat := inodes[i].addrs[NDIRECT];
      EntryAt(sb, d0, ino0, use0, i, bn);
      var addr: nat := Word(disk[q], bn - NDIRECT);
      if addr != 0 {
        return Some(addr);
      }
      var b := Balloc();
      if b.None? {
        return None;
      }
      ghost var d1, use1 := disk[..], use;
      AllocGrown(sb, d0, ino0, use0, d1, b.value, i);
      SamePtr(d0, ino0, d1, ino0, i, bn);
      LinkEntry(sb, d1, ino0, use1, i, bn, b.value);
      LogWrite(q, PutWord(disk[q], bn - NDIRECT, b.value));
      use := use[b.value := Data(i, bn)];
      FreeTaken(use0, b.value, Data(i, bn));
      assert use == use0[b.value := Data(i, bn)];
      assert ino0 == ino0[i := ino0[i].(addrs := ino0[i].addrs)];
      LinkGrown(sb, d0, ino0, use0, d1, disk[..], ino0, use, i, bn, b.value);
      return b;
    }

    /** bmap: the address of block bn of file i, allocated if there was none. */
    method Bmap(i: nat, bn: nat) returns (r: Option<nat>)
      requires Valid() && i < inodes.Length && bn < MAXFILE
      modifies disk, inodes, this`use, this`logged
      ensures Valid() && Grown(sb, old(disk[..]), old(inodes[..]), old(use), disk[..], inodes[..], use, i)
      ensures r.None? ==> NoFree()
      ensures r.Some? ==> MappedAt(old(disk[..]), old(inodes[..]), disk[..], inodes[..], i, bn, r.value)
      ensures r.Some? ==> MapLogged(sb, old(logged), logged, r.value, if bn < NDIRECT then
                                      r.value else inodes[i].addrs[NDIRECT])
      ensures r.Some? ==> (inodes[i].addrs == old(inodes[i].addrs) <==> !AddrHole(old(inodes[i].addrs), bn))
      ensures MapSpent(old(disk[..]), old(inodes[i].addrs), old(use), inodes[i].addrs, use, bn, r.Some?)
      ensures Ptr(old(disk[..]), old(inodes[i].addrs), bn) != 0 ==>
                r.Some? && disk[..] == old(disk[..]) && inodes[..] == old(inodes[..]) && use == old(use) &&
                  logged == old(logged)
    {
      hide OwnOk, SameFiles, Ptr, FreeCount;
      ghost var d0, ino0, use0 := disk[..], inodes[..], use;
      if bn < NDIRECT {
        DirectAt(d0, ino0, i, bn);
        r := MapDirect(i, bn);
        return;
      }
      if Ptr(d0, ino0[i].addrs, bn) != 0 {
        PtrNeeds(d0, ino0[i].addrs, bn);
      }
      var ok := NeedIndirect(i);
      if !ok {
        return None;
      }
      ghost var d1, ino1, use1 := disk[..], inodes[..], use;
      SamePtr(d0, ino0, d1, ino1, i, bn);
      r := MapEntry(i, bn);
      ExtendedTrans(sb, d0, ino0, use0, d1, ino1, use1, disk[..], inodes[..], use, i);
    }

    /** iupdate: the in-core inode goes to its slot on disk. */
    method Iupdate(i: nat)
      requires Valid() && i < inodes.Length
      modifies disk, this`logged
      ensures Valid() && |old(disk[..])| == disk.Length && SameFiles(old(disk[..]), inodes[..], disk[..], inodes[..])
      ensures SamePtrs(old(disk[..]), inodes[..], disk[..], inodes[..])
      ensures InodesOnDisk(sb, old(disk[..]), disk[..], i, inodes[i], inodes.Length)
      ensures sb.inodestart + i / IPB < sb.bmapstart && logged == old(logged) + {sb.inodestart + i / IPB}
      ensures forall c :: sb.bmapstart <= c < disk.Length ==> disk[c] == old(disk[c])
    {
      hide OwnOk, SameFiles, SamePtrs, PutDinode;
      SizeOf(sb, disk[..], inodes[..], use);
      InodeBlock(sb, i);
      var q := sb.inodestart + i / IPB;
      IupdateOk(sb, disk[..], inodes[..], use, i, inodes[i]);
      LogWrite(q, PutDinode(disk[q], i % IPB, inodes[i]));
    }

    /** itrunc's second half: the blocks listed in the indirect block, and then that block. */
    method FreeIndirect(i: nat, ghost d0: seq<Block>, ghost ino0: seq<Inode>, ghost use0: seq<Use>)
      requires OwnOk(sb, d0, ino0, use0) && Freeing(sb, d0, disk[..], use0, i, NDIRECT) && i < inodes.Length == |ino0|
      requires inodes[i].addrs[NDIRECT] == ino0[i].addrs[NDIRECT] != 0
      modifies disk, inodes, this`logged
      ensures inodes[..] == old(inodes[..])[i := old(inodes[i]).(addrs := old(inodes[i].addrs)[NDIRECT := 0])]
      ensures disk.Length == |d0| && SuperOk(sb, |d0|) && BitsOk(sb, disk[..], Dropped(use0, i))
      ensures forall c :: 0 <= c < disk.Length && (c < sb.bmapstart || sb.datastart <= c) ==> disk[c] == d0[c]
    {
      hide OwnOk, Ptr, Word, Bitmap.Used, Bitmap.Marked, SuperOk, BitsOk;
      SizeOf(sb, d0, ino0, use0);
      EntryAt(sb, d0, ino0, use0, i, NDIRECT);
      var q: nat := inodes[i].addrs[NDIRECT];
      var a := disk[q];
      for j := 0 to NINDIRECT
        invariant Freeing(sb, d0, disk[..], use0, i, NDIRECT + j)
        invariant inodes[..] == old(inodes[..])
      {
        EntryAt(sb, d0, ino0, use0, i, NDIRECT + j);
        DropStep(sb, d0, ino0, use0, i, NDIRECT + j);
        ghost var d1 := disk[..];
        if Word(a, j) != 0 {
          InUse(sb, d0, d1, use0, i, NDIRECT + j, Word(a, j));
          Bfree(Word(a, j));
          FreedOne(sb, d0, d1, disk[..], use0, i, NDIRECT + j, Word(a, j));
        }
      }
      DropIndirect(sb, d0, ino0, use0, i);
      ghost var d1 := disk[..];
      InUse(sb, d0, d1, use0, i, MAXFILE, q);
      Bfree(q);
      FreedOne(sb, d0, d1, disk[..], use0, i, MAXFILE, q);
      inodes[i] := inodes[i].(addrs := inodes[i].addrs[NDIRECT := 0]);
    }

    /** itrunc: every block of the file is freed, each once, and then its inode is emptied. */
    method Itrunc(i: nat)
      requires Valid() && i < inodes.Length
      modifies disk, inodes, this`use, this`logged
      ensures Valid() && use == Dropped(old(use), i)
      ensures inodes[..] == old(inodes[..])[i := old(inodes[i]).(addrs := NO_ADDRS, size := 0)]
      ensures OthersSame(old(disk[..]), old(inodes[..]), disk[..], inodes[..], i)
      ensures InodesOnDisk(sb, old(disk[..]), disk[..], i, inodes[i], inodes.Length)
      ensures SoundFile(sb, disk[..], inodes[..], i)
      ensures Sound(sb, old(disk[..]), old(inodes[..])) ==> Sound(sb, disk[..], inodes[..])
    {
      hide OwnOk, Ptr, Word, Bitmap.Used, Bitmap.Marked, Exact, Sound, OnDisk;
      ghost var d0, ino0, use0 := disk[..], inodes[..], use;
      SizeOf(sb, d0, ino0, use0);
      DroppedNone(sb, d0, ino0, use0, i);
      for k := 0 to NDIRECT
        invariant Freeing(sb, d0, disk[..], use0, i, k)
        invariant inodes[..] == ino0[i := ino0[i].(addrs := Emptied(ino0[i].addrs, k))]
      {
        DirectAt(d0, ino0, i, k);
        DropStep(sb, d0, ino0, use0, i, k);
        ghost var d1 := disk[..];
        if inodes[i].addrs[k] != 0 {
          InUse(sb, d0, d1, use0, i, k, inodes[i].addrs[k]);
          Bfree(inodes[i].addrs[k]);
          FreedOne(sb, d0, d1, disk[..], use0, i, k, ino0[i].addrs[k]);
          inodes[i] := inodes[i].(addrs := inodes[i].addrs[k := 0]);
        }
        assert inodes[i].addrs == Emptied(ino0[i].addrs, k + 1);
      }
      if inodes[i].addrs[NDIRECT] != 0 {
        FreeIndirect(i, d0, ino0, use0);
      } else {
        NoIndirect(sb, d0, ino0, use0, i, MAXFILE);
        DropIndirect(sb, d0, ino0, use0, i);
      }
      inodes[i] := inodes[i].(size := 0);
      assert inodes[i].addrs == NO_ADDRS;
      assert inodes[..] == ino0[i := ino0[i].(addrs := NO_ADDRS, size := 0)];
      TruncatedOk(sb, d0, disk[..], ino0, use0, i);
      use := Dropped(use0, i);
      ghost var d2 := disk[..];
      Iupdate(i);
      TruncSame(sb, d0, d2, disk[..], ino0, inodes[..], i);
      EmptyExact(disk[..], inodes[i]);
      InodeBlock(sb, i);
      SoundKept(sb, d0, ino0, disk[..], inodes[..], i);
    }

    ghost predicate NoFree()
      reads this
    {
      forall b :: 0 <= b < |use| ==> use[b] != Free
    }

    /** readi's loop. */
    method ReadBlocks(i: nat, off: nat, count: nat) returns (r: Option<seq<byte>>)
      requires Valid() && i < inodes.Length && off + count <= MAXFILE * BSIZE
      modifies disk, inodes, this`use, this`logged
      ensures Valid() && Grown(sb, old(disk[..]), old(inodes[..]), old(use), disk[..], inodes[..], use, i)
      ensures r.None? ==> NoFree() && !NoHole(old(disk[..]), old(inodes[i].addrs), off, count)
      ensures r.Some? <==> FreeCount(old(use)) >= Need(old(disk[..]), old(inodes[i].addrs), off / BSIZE,
                                                       SpanEnds(off, count))
      ensures r.Some? ==> |r.value| == count && BytesFrom(old(disk[..]), old(inodes[i].addrs), off, r.value)
      ensures r.Some? ==> Touched(old(disk[..]), old(inodes[..]), old(use), old(logged), disk[..], inodes[..], use,
                                  logged,
                                  i, off / BSIZE, SpanEnds(off, count))
      ensures r.Some? ==> (inodes[i].addrs == old(inodes[i].addrs) <==>
                           NoAddrHole(old(inodes[i].addrs), off / BSIZE, SpanEnds(off, count)))
    {
      hide OwnOk, SameFiles, Ptr, BlockOf, Extended, PtrsFrom, BytesFrom, MappedAt, MapLogged, InStep;
      hide Touched, Filled, NoAddrHole, AddrHole, Spent, MapSpent, Need, FreeCount;
      ghost var d0, ino0, use0, logged0, lo, end := disk[..], inodes[..], use, logged, off / BSIZE,
        SpanEnds(off, count);
      GrownNone(sb, d0, ino0, use0, i);
      var tot, pos, dst: seq<byte> := 0, off, [];
      ghost var hi: nat := lo;
      StepStart(d0, ino0, use0, logged0, i, off, count);
      while tot < count
        invariant 0 <= tot <= count && pos == off + tot && InStep(off, tot, count, hi)
        invariant Valid() && Grown(sb, d0, ino0, use0, disk[..], inodes[..], use, i)
        invariant BytesFrom(d0, ino0[i].addrs, off, dst) && |dst| == tot
        invariant PtrsFrom(d0, ino0, disk[..], inodes[..], i, hi)
        invariant Touched(d0, ino0, use0, logged0, disk[..], inodes[..], use, logged, i, lo, hi)
        invariant inodes[i].addrs == ino0[i].addrs <==> NoAddrHole(ino0[i].addrs, lo, hi)
        invariant Spent(d0, ino0[i].addrs, use0, inodes[i].addrs, use, lo, hi)
      {
        ghost var d1, ino1, use1, logged1 := disk[..], inodes[..], use, logged;
        StepBlock(off, tot, count, hi);
        PtrHere(d0, ino0, d1, ino1, i, hi);
        var b := Bmap(i, pos / BSIZE);
        SpentStep(d0, ino0[i].addrs, use0, d1, ino1[i].addrs, use1, inodes[i].addrs, use, lo, hi, end, b.Some?);
        ReadStep(sb, d0, ino0, use0, logged0, d1, ino1, use1, logged1, disk[..], inodes[..], use, logged, i, lo, hi, b,
                 end);
        if b.None? {
          return None;
        }
        AddrStep(sb, d0, ino0, use0, d1, ino1, use1, disk[..], inodes[..], use, i, lo, hi);
        var m := Min(count - tot, BSIZE - pos % BSIZE);
        BytesMore(d0, ino0[i].addrs, off, dst, pos, m, disk[b.value]);
        dst := dst + disk[b.value][pos % BSIZE..pos % BSIZE + m];
        StepEnd(off, tot, count, hi, m);
        tot, pos, hi := tot + m, pos + m, hi + 1;
      }
      SpanEnd(off, count, hi);
      SpentAll(d0, ino0[i].addrs, use0, inodes[i].addrs, use, lo, hi);
      return Some(dst);
    }

    /** readi of a file or directory. */
    method Readi(i: nat, off: word, n: word) returns (r: ReadResult)
      requires Valid() && i < inodes.Length && inodes[i].kind != T_DEV
      modifies disk, inodes, this`use, this`logged
      ensures Valid() && Grown(sb, old(disk[..]), old(inodes[..]), old(use), disk[..], inodes[..], use, i)
      ensures sb.inodestart + i / IPB < sb.bmapstart <= disk.Length
      ensures r.ReadError? <==> off > old(inodes[i].size) || (off + n) % WRAP < off
      ensures !r.ReadError? ==>
                (r.ReadPanic? <==> FreeCount(old(use)) < ReadNeed(old(disk[..]), old(inodes[i]), off, n))
      ensures r.ReadPanic? ==> NoFree()
      ensures r.Bytes? ==> r.data == Contents(old(disk[..]),
                                              old(inodes[i]))[off..off + Clipped(off, n, old(inodes[i].size))]
      ensures r.ReadError? ==> disk[..] == old(disk[..]) && inodes[..] == old(inodes[..]) && use == old(use) &&
                               logged == old(logged)
      ensures !r.ReadError? && NoHole(old(disk[..]), old(inodes[i].addrs), off,
                                      Clipped(off, n, old(inodes[i].size))) ==>
                r.Bytes? && disk[..] == old(disk[..]) && inodes[..] == old(inodes[..]) && use == old(use) &&
                  logged == old(logged)
      ensures r.Bytes? && !NoHole(old(disk[..]), old(inodes[i].addrs), off, Clipped(off, n, old(inodes[i].size))) ==>
              use != old(use)
      ensures r.Bytes? && old(Synced(i)) ==>
                (Synced(i) <==> NoAddrHole(old(inodes[i].addrs), off / BSIZE,
                                           SpanEnds(off, Clipped(off, n, old(inodes[i].size)))))
      ensures !r.ReadError? && Exact(old(disk[..]), old(inodes[i])) ==>
                r.Bytes? && disk[..] == old(disk[..]) && inodes[..] == old(inodes[..]) && use == old(use) &&
                  logged == old(logged)
    {
      hide OwnOk, SameFiles, Ptr, BlockOf, Extended, BytesFrom, NoAddrHole, FreeCount, Need, Contents, OnDisk, Filled;
      hide Exact;
      ghost var d0, ino0, use0 := disk[..], inodes[..], use;
      SizeOf(sb, d0, ino0, use0);
      InodeBlock(sb, i);
      GrownNone(sb, d0, ino0, use0, i);
      if off > inodes[i].size || (off + n) % WRAP < off {
        return ReadError;
      }
      var count := Clipped(off, n, inodes[i].size);
      if Exact(d0, ino0[i]) {
        ExactHasAddrs(d0, ino0[i], off, count);
      }
      var dst := ReadBlocks(i, off, count);
      ExtendedUses(sb, d0, ino0, use0, disk[..], inodes[..], use, i);
      if dst.None? {
        return ReadPanic;
      }
      DiskKept(sb, d0, disk[..], i, inodes.Length);
      ContentsAre(d0, ino0[i], off, dst.value);
      return Bytes(dst.value);
    }

    /** One round of writei's loop: bmap, then the bytes that fall into that block. */
    method WriteChunk(i: nat, pos: nat, piece: seq<byte>) returns (ok: bool)
      requires Valid() && i < inodes.Length && pos / BSIZE < MAXFILE && pos % BSIZE + |piece| <= BSIZE
      modifies disk, inodes, this`use, this`logged
      ensures Valid() && Extended(sb, old(disk[..]), old(inodes[..]), old(use), disk[..], inodes[..], use, i)
      ensures !ok ==> NoFree()
      ensures ok ==> MappedAt(old(disk[..]), old(inodes[..]), disk[..], inodes[..], i, pos / BSIZE,
                              Ptr(disk[..], inodes[i].addrs, pos / BSIZE))
      ensures ok ==> Patched(old(disk[..]), old(inodes[..]), disk[..], inodes[..], i, pos / BSIZE, pos % BSIZE, piece)
      ensures ok ==> ChunkLogged(sb, old(logged), logged, disk[..], inodes[i].addrs, pos / BSIZE)
      ensures ok ==> (inodes[i].addrs == old(inodes[i].addrs) <==> !AddrHole(old(inodes[i].addrs), pos / BSIZE))
      ensures MapSpent(old(disk[..]), old(inodes[i].addrs), old(use), inodes[i].addrs, use, pos / BSIZE, ok)
    {
      hide OwnOk, SameFiles, Ptr, BlockOf, Extended, PtrAdded, MapSpent;
      ghost var d0, ino0, use0, bn := disk[..], inodes[..], use, pos / BSIZE;
      var b := Bmap(i, pos / BSIZE);
      if b.None? {
        return false;
      }
      ghost var d1, ino1 := disk[..], inodes[..];
      var q := b.value;
      SizeOf(sb, d1, ino1, use);
      ReadBlock(sb, d1, ino1, use, i, bn, q);
      if bn >= NDIRECT {
        PtrNeeds(d1, ino1[i].addrs, bn);
      }
      var blk := Patch(disk[q], pos % BSIZE, piece);
      DataWritten(sb, d1, ino1, use, i, bn, blk);
      LogWrite(q, blk);
      ChunkDone(sb, d0, ino0, use0, d1, disk[..], ino1, use, i, bn, q, pos % BSIZE, piece);
      return true;
    }

    /** The in-core inode is the one on disk. */
    ghost predicate Synced(i: nat)
      requires i < inodes.Length && sb.inodestart + i / IPB < disk.Length
      reads disk, inodes
    {
      OnDisk(sb, disk[..], i) == inodes[i]
    }

    /** writei's loop. */
    method WriteBlocks(i: nat, off: nat, src: seq<byte>) returns (ok: bool)
      requires Valid() && i < inodes.Length && off + |src| <= MAXFILE * BSIZE
      modifies disk, inodes, this`use, this`logged
      ensures Valid() && Extended(sb, old(disk[..]), old(inodes[..]), old(use), disk[..], inodes[..], use, i)
      ensures !ok ==> NoFree()
      ensures ok <==> FreeCount(old(use)) >= Need(old(disk[..]), old(inodes[i].addrs), off / BSIZE,
                                                  SpanEnds(off, |src|))
      ensures ok ==> FreeCount(use) == FreeCount(old(use)) - Need(old(disk[..]), old(inodes[i].addrs), off / BSIZE,
                                                                  SpanEnds(off, |src|))
      ensures ok ==> Writing(old(disk[..]), old(inodes[..]), disk[..], inodes[..], i, off, src, |src|)
      ensures ok ==> PtrsSpan(old(disk[..]), old(inodes[..]), disk[..], inodes[..], i, off / BSIZE,
                              SpanEnds(off, |src|))
      ensures ok ==> (inodes[i].addrs == old(inodes[i].addrs) <==>
                      NoAddrHole(old(inodes[i].addrs), off / BSIZE, SpanEnds(off, |src|)))
      ensures ok ==> WriteLogged(sb, old(logged), logged, disk[..], inodes[i].addrs, off / BSIZE, SpanEnds(off, |src|),
                                 i)
    {
      hide OwnOk, Ptr, BlockOf, Extended, MappedAt, Patched, ChunkLogged, InStep, Writing, PtrsSpan, WriteLogged;
      hide NoAddrHole;
      hide Spent, MapSpent, Need, FreeCount, AddrHole;
      ghost var d0, ino0, use0, logged0 := disk[..], inodes[..], use, logged;
      var n := |src|;
      ok := true;
      var tot, pos := 0, off;
      ghost var hi: nat := off / BSIZE;
      WriteStart(sb, d0, ino0, use0, logged0, i, off, src);
      while tot < n
        invariant 0 <= tot <= n && pos == off + tot && InStep(off, tot, n, hi)
        invariant Valid() && Extended(sb, d0, ino0, use0, disk[..], inodes[..], use, i)
        invariant Writing(d0, ino0, disk[..], inodes[..], i, off, src, tot)
        invariant PtrsSpan(d0, ino0, disk[..], inodes[..], i, off / BSIZE, hi)
        invariant inodes[i].addrs == ino0[i].addrs <==> NoAddrHole(ino0[i].addrs, off / BSIZE, hi)
        invariant WriteLogged(sb, logged0, logged, disk[..], inodes[i].addrs, off / BSIZE, hi, i)
        invariant Spent(d0, ino0[i].addrs, use0, inodes[i].addrs, use, off / BSIZE, hi)
      {
        ghost var d1, ino1, use1, logged1 := disk[..], inodes[..], use, logged;
        StepBlock(off, tot, n, hi);
        StepEnd(off, tot, n, hi, Min(n - tot, BSIZE - pos % BSIZE));
        var m := Min(n - tot, BSIZE - pos % BSIZE);
        PtrHereSpan(d0, ino0, d1, ino1, i, off / BSIZE, hi);
        ok := WriteChunk(i, pos, src[tot..tot + m]);
        SpentStep(d0, ino0[i].addrs, use0, d1, ino1[i].addrs, use1, inodes[i].addrs, use, off / BSIZE, hi,
                  SpanEnds(off, n), ok);
        ExtendedTrans(sb, d0, ino0, use0, d1, ino1, use1, disk[..], inodes[..], use, i);
        ExtendedUses(sb, d0, ino0, use0, disk[..], inodes[..], use, i);
        if !ok {
          return;
        }
        WriteStep(d0, ino0, d1, ino1, disk[..], inodes[..], i, off, src, tot, m);
        SpanStep(sb, d0, ino0, logged0, d1, ino1, use1, logged1, disk[..], inodes[..], use, logged, i, off / BSIZE, hi);
        AddrStep(sb, d0, ino0, use0, d1, ino1, use1, disk[..], inodes[..], use, i, off / BSIZE, hi);
        tot, pos, hi := tot + m, pos + m, hi + 1;
      }
      SpanEnd(off, n, hi);
      SpentAll(d0, ino0[i].addrs, use0, inodes[i].addrs, use, off / BSIZE, hi);
    }

    /** writei to a file or directory. */
    method Writei(i: nat, off: word, src: seq<byte>) returns (r: WriteResult)
      requires Valid() && i < inodes.Length && inodes[i].kind != T_DEV && |src| < WRAP
      modifies disk, inodes, this`use, this`logged
      ensures Valid() && sb.inodestart + i / IPB < sb.bmapstart <= disk.Length
      ensures r.WriteError? <==> off > old(inodes[i].size) || (off + |src|) % WRAP < off ||
                                 off + |src| > MAXFILE * BSIZE
      ensures r.WriteError? ==> disk[..] == old(disk[..]) && inodes[..] == old(inodes[..]) && use == old(use) &&
                                logged == old(logged)
      ensures r.WritePanic? ==> NoFree()
      ensures !r.WriteError? ==>
                (r.WritePanic? <==> FreeCount(old(use)) < Need(old(disk[..]), old(inodes[i].addrs), off / BSIZE,
                                                               SpanEnds(off, |src|)))
      ensures r.Wrote? ==>
                FreeCount(use) == FreeCount(old(use)) - Need(old(disk[..]), old(inodes[i].addrs), off / BSIZE,
                                                             SpanEnds(off, |src|))
      ensures UsesGrow(old(use), use, i)
      ensures r.Wrote? ==> inodes[i] == old(inodes[i]).(addrs := inodes[i].addrs,
                                                        size := Max(old(inodes[i].size), off + |src|))
      ensures r.Wrote? ==> Contents(disk[..], inodes[i]) == Splice(Contents(old(disk[..]), old(inodes[i])), off, src)
      ensures r.Wrote? ==> OthersSame(old(disk[..]), old(inodes[..]), disk[..], inodes[..], i)
      ensures r.Wrote? ==> InodesOnDisk(sb, old(disk[..]), disk[..], i, OnDisk(sb, disk[..], i), inodes.Length)
      ensures r.Wrote? ==> PtrsSpan(old(disk[..]), old(inodes[..]), disk[..], inodes[..], i, off / BSIZE,
                                    SpanEnds(off, |src|))
      ensures r.Wrote? && old(Synced(i)) ==>
                (Synced(i) <==> off + |src| > old(inodes[i].size) ||
                                NoAddrHole(old(inodes[i].addrs), off / BSIZE, SpanEnds(off, |src|)))
      ensures r.Wrote? ==> WriteLogged(sb, old(logged), logged, disk[..], inodes[i].addrs, off / BSIZE,
                                       SpanEnds(off, |src|), i)
      ensures r.Wrote? && inodes[i].kind != 0 && SoundFile(sb, old(disk[..]), old(inodes[..]), i) ==>
              SoundFile(sb, disk[..], inodes[..], i)
      ensures r.Wrote? && inodes[i].kind != 0 && Sound(sb, old(disk[..]), old(inodes[..])) ==>
              Sound(sb, disk[..], inodes[..])
    {
      hide OwnOk, Ptr, BlockOf, Extended, MappedAt, Patched, ChunkLogged, InStep, Writing, PtrsSpan, WriteLogged;
      hide NoAddrHole, OnDisk;
      hide Need, FreeCount, Exact, Sound, OthersSame, InodesOnDisk;
      ghost var d0, ino0, use0, logged0 := disk[..], inodes[..], use, logged;
      var n := |src|;
      SizeOf(sb, d0, ino0, use0);
      InodeBlock(sb, i);
      if off > inodes[i].size || (off + n) % WRAP < off {
        return WriteError;
      }
      if off + n > MAXFILE * BSIZE {
        return WriteError;
      }
      var ok := WriteBlocks(i, off, src);
      ExtendedUses(sb, d0, ino0, use0, disk[..], inodes[..], use, i);
      if !ok {
        return WritePanic;
      }
      var pos := off + n;
      ghost var hi := SpanEnds(off, n);
      ghost var d1, ino1, logged1 := disk[..], inodes[..], logged;
      ExtendedUses(sb, d0, ino0, use0, d1, ino1, use, i);
      if n > 0 && pos > inodes[i].size {
        OtherFields(sb, d1, ino1, use, i, ino1[i].(size := pos));
        inodes[i] := inodes[i].(size := pos);
        assert inodes[..] == ino1[i := ino1[i].(size := pos)];
        Iupdate(i);
        DiskEnd(sb, d0, d1, disk[..], i, inodes[i], inodes.Length);
      } else {
        FilesAsTheyAre(d1, ino1);
        DiskKept(sb, d0, d1, i, inodes.Length);
      }
      WriteEnd(sb, d0, ino0, d1, ino1, disk[..], inodes[..], i, off, src, logged0, logged1, logged, hi);
      if Exact(d0, ino0[i]) {
        ExactWritten(d0, ino0, disk[..], inodes[..], i, off, n);
      }
      if Sound(sb, d0, ino0) && inodes[i].kind != 0 {
        SoundAt(sb, d0, ino0, i);
        OthersOnDisk(sb, d0, disk[..], i, OnDisk(sb, disk[..], i), inodes.Length);
        SoundKept(sb, d0, ino0, disk[..], inodes[..], i);
      }
      return Wrote;
    }
  }

  /** File i gains blocks and loses none; the inodes on disk stay. */
  ghost predicate Extended(sb: Super, d0: seq<Block>, ino0: seq<Inode>, use0: seq<Use>, d: seq<Block>, ino: seq<Inode>,
                           use: seq<Use>, i: nat) {
    && |ino| == |ino0| && |d| == |d0| && i < |ino| && ino == ino0[i := ino0[i].(addrs := ino[i].addrs)]
    && AddrsGrow(ino0[i].addrs, ino[i].addrs) && UsesGrow(use0, use, i)
    && (forall j, bn: nat :: 0 <= j < |ino| && bn < MAXFILE && (j != i || Ptr(d0, ino0[j].addrs, bn) != 0) ==>
          Ptr(d, ino[j].addrs, bn) == Ptr(d0, ino0[j].addrs, bn))
    && (forall c :: 0 <= c < |d| && c < sb.bmapstart ==> d[c] == d0[c])
  }

  /** What bmap may do: file i gains blocks, and no file reads differently. */
  ghost predicate Grown(sb: Super, d0: seq<Block>, ino0: seq<Inode>, use0: seq<Use>, d: seq<Block>, ino: seq<Inode>,
                        use: seq<Use>, i: nat) {
    Extended(sb, d0, ino0, use0, d, ino, use, i) && SameFiles(d0, ino0, d, ino)
  }

  /** Block bn of file i is at b; the other addresses are as before. */
  ghost predicate MappedAt(d0: seq<Block>, ino0: seq<Inode>, d: seq<Block>, ino: seq<Inode>, i: nat, bn: nat, b: nat) {
    i < |ino| && bn < MAXFILE && b != 0 && Ptr(d, ino[i].addrs, bn) == b && PtrAdded(d0, ino0, d, ino, i, bn, b)
  }

  /** Only map blocks and the two given blocks were added to the operation's log. */
  ghost predicate MapLogged(sb: Super, logged0: set<nat>, logged: set<nat>, b: nat, q: nat) {
    logged0 <= logged && forall c :: c in logged ==> c in logged0 || IsMap(sb, c) || c == b || c == q
  }

  lemma GrownNone(sb: Super, d: seq<Block>, ino: seq<Inode>, use: seq<Use>, i: nat)
    requires i < |ino|
    ensures Grown(sb, d, ino, use, d, ino, use, i)
  {
    hide Ptr, BlockOf;
    assert ino == ino[i := ino[i].(addrs := ino[i].addrs)];
  }

  lemma DirectAt(d: seq<Block>, ino: seq<Inode>, i: nat, bn: nat)
    requires i < |ino| && bn < NDIRECT
    ensures Ptr(d, ino[i].addrs, bn) == ino[i].addrs[bn]
    ensures ino[i].addrs[bn] != 0 ==> MappedAt(d, ino, d, ino, i, bn, ino[i].addrs[bn])
  {
  }

  lemma ExtendedTrans(sb: Super, d0: seq<Block>, ino0: seq<Inode>, use0: seq<Use>, d1: seq<Block>, ino1: seq<Inode>,
                      use1: seq<Use>,
                   d2: seq<Block>, ino2: seq<Inode>, use2: seq<Use>, i: nat)
    requires Extended(sb, d0, ino0, use0, d1, ino1, use1, i) && Extended(sb, d1, ino1, use1, d2, ino2, use2, i)
    ensures Extended(sb, d0, ino0, use0, d2, ino2, use2, i)
    ensures SameFiles(d0, ino0, d1, ino1) && SameFiles(d1, ino1, d2, ino2) ==> SameFiles(d0, ino0, d2, ino2)
  {
    hide Ptr, BlockOf;
  }

  lemma IndirectGrown(sb: Super, d0: seq<Block>, ino0: seq<Inode>, use0: seq<Use>, d: seq<Block>, ino: seq<Inode>,
                      use: seq<Use>, i: nat, b: nat)
    requires i < |ino0| && |d| == |d0| && |ino| == |ino0| && 0 < b < |use0| && use0[b] == Free
    requires ino == ino0[i := ino0[i].(addrs := ino[i].addrs)] && AddrsGrow(ino0[i].addrs, ino[i].addrs)
    requires use == use0[b := Indirect(i)]
    requires SameFiles(d0, ino0, d, ino0) && SamePtrs(d0, ino0, d, ino0) && SameFiles(d, ino0, d, ino) &&
             SamePtrs(d, ino0, d, ino)
    requires forall c :: 0 <= c < |d| && c < sb.bmapstart ==> d[c] == d0[c]
    ensures Grown(sb, d0, ino0, use0, d, ino, use, i) && SamePtrs(d0, ino0, d, ino)
  {
    hide Ptr, BlockOf;
  }

  lemma SamePtr(d: seq<Block>, ino: seq<Inode>, d': seq<Block>, ino': seq<Inode>, i: nat, bn: nat)
    requires SamePtrs(d, ino, d', ino') && i < |ino| && bn < MAXFILE
    ensures Ptr(d', ino'[i].addrs, bn) == Ptr(d, ino[i].addrs, bn)
  {
  }

  lemma PtrNeeds(d: seq<Block>, a: Addrs, bn: nat)
    requires NDIRECT <= bn < MAXFILE && Ptr(d, a, bn) != 0
    ensures a[NDIRECT] != 0
  {
  }

  lemma EntryAt(sb: Super, d: seq<Block>, ino: seq<Inode>, use: seq<Use>, i: nat, bn: nat)
    requires OwnOk(sb, d, ino, use) && i < |ino| && NDIRECT <= bn < MAXFILE && ino[i].addrs[NDIRECT] != 0
    ensures var q := ino[i].addrs[NDIRECT];
            sb.datastart <= q < sb.size <= |d| && Ptr(d, ino[i].addrs, bn) == Word(d[q], bn - NDIRECT)
    ensures Ptr(d, ino[i].addrs, bn) != 0 ==> MappedAt(d, ino, d, ino, i, bn, Ptr(d, ino[i].addrs, bn))
  {
    assert InodeOk(d, ino[i], use, i);
  }

  /** A use that has changed does not change back. */
  lemma UsesDiffer(use0: seq<Use>, use1: seq<Use>, use2: seq<Use>, i: nat)
    requires UsesGrow(use0, use1, i) && UsesGrow(use1, use2, i) && use1 != use0
    ensures use2 != use0
  {
    var b :| 0 <= b < |use0| && use1[b] != use0[b];
    assert use2[b] == use1[b];
  }

  /** Giving a file a block it did not have changes the uses. */
  lemma {:induction false} HoleUses(sb: Super, d1: seq<Block>, ino1: seq<Inode>, use1: seq<Use>, d2: seq<Block>,
                                    ino2: seq<Inode>, use2: seq<Use>,
                 i: nat, bn: nat)
    requires OwnOk(sb, d1, ino1, use1) && OwnOk(sb, d2, ino2, use2) && |ino1| == |ino2| && i < |ino1| && bn < MAXFILE
    requires Ptr(d1, ino1[i].addrs, bn) == 0 && Ptr(d2, ino2[i].addrs, bn) != 0
    ensures use2 != use1
  {
    hide Ptr;
    var b := Ptr(d2, ino2[i].addrs, bn);
    assert InodeOk(d2, ino2[i], use2, i);
    assert UseOk(d1, ino1, use1[b], b);
  }

  /** Nothing has changed unless one of the blocks lo..hi was missing, and then the uses have. */
  ghost predicate Touched(d0: seq<Block>, ino0: seq<Inode>, use0: seq<Use>, logged0: set<nat>, d: seq<Block>,
                          ino: seq<Inode>,
                          use: seq<Use>, logged: set<nat>, i: nat, lo: nat, hi: nat)
  {
    i < |ino0| && if Filled(d0, ino0[i].addrs, lo, hi) then d == d0 && ino == ino0 && use == use0 &&
                                                            logged == logged0 else use != use0
  }

  /** One bmap of a transfer: what is known about holes and uses carries on. */
  lemma {:induction false} ReadStep(sb: Super, d0: seq<Block>, ino0: seq<Inode>, use0: seq<Use>, logged0: set<nat>,
                                    d1: seq<Block>, ino1: seq<Inode>,
                 use1: seq<Use>, logged1: set<nat>, d2: seq<Block>, ino2: seq<Inode>, use2: seq<Use>, logged2: set<nat>,
                 i: nat, lo: nat, hi: nat, b: Option<nat>, end: nat)
    requires OwnOk(sb, d1, ino1, use1) && OwnOk(sb, d2, ino2, use2) && i < |ino0| && lo <= hi < MAXFILE && hi < end
    requires Grown(sb, d0, ino0, use0, d1, ino1, use1, i) && Grown(sb, d1, ino1, use1, d2, ino2, use2, i)
    requires PtrsFrom(d0, ino0, d1, ino1, i, hi)
    requires b.Some? ==> MappedAt(d1, ino1, d2, ino2, i, hi, b.value)
    requires Ptr(d1, ino1[i].addrs, hi) != 0 ==> b.Some? && d2 == d1 && ino2 == ino1 && use2 == use1 &&
                                                 logged2 == logged1
    requires Touched(d0, ino0, use0, logged0, d1, ino1, use1, logged1, i, lo, hi)
    ensures Grown(sb, d0, ino0, use0, d2, ino2, use2, i)
    ensures b.Some? ==> PtrsFrom(d0, ino0, d2, ino2, i, hi + 1) && b.value < |d2| &&
                        d2[b.value] == BlockOf(d0, ino0[i].addrs, hi)
    ensures b.Some? ==> Touched(d0, ino0, use0, logged0, d2, ino2, use2, logged2, i, lo, hi + 1)
    ensures b.None? ==> !Filled(d0, ino0[i].addrs, lo, end)
  {
    ExtendedTrans(sb, d0, ino0, use0, d1, ino1, use1, d2, ino2, use2, i);
    hide Ptr, OwnOk;
    if b.Some? {
      ReadBlock(sb, d2, ino2, use2, i, hi, b.value);
      assert BlockOf(d2, ino2[i].addrs, hi) == BlockOf(d0, ino0[i].addrs, hi);
      if !Filled(d0, ino0[i].addrs, lo, hi + 1) {
        if Filled(d0, ino0[i].addrs, lo, hi) {
          HoleUses(sb, d1, ino1, use1, d2, ino2, use2, i, hi);
        } else {
          UsesDiffer(use0, use1, use2, i);
        }
      }
    } else {
      assert Ptr(d0, ino0[i].addrs, hi) == 0;
    }
  }

  lemma ReadBlock(sb: Super, d: seq<Block>, ino: seq<Inode>, use: seq<Use>, i: nat, bn: nat, b: nat)
    requires OwnOk(sb, d, ino, use) && i < |ino| && bn < MAXFILE && Ptr(d, ino[i].addrs, bn) == b && b != 0
    ensures sb.datastart <= b < sb.size <= |d| && d[b] == BlockOf(d, ino[i].addrs, bn)
  {
    assert InodeOk(d, ino[i], use, i);
  }

  lemma StepStart(d: seq<Block>, ino: seq<Inode>, use: seq<Use>, logged: set<nat>, i: nat, off: nat, count: nat)
    requires i < |ino| && off <= MAXFILE * BSIZE
    ensures NoAddrHole(ino[i].addrs, off / BSIZE, off / BSIZE)
    ensures Spent(d, ino[i].addrs, use, ino[i].addrs, use, off / BSIZE, off / BSIZE)
    ensures InStep(off, 0, count, off / BSIZE) && PtrsFrom(d, ino, d, ino, i, off / BSIZE) &&
            BytesFrom(d, ino[i].addrs, off, [])
    ensures Touched(d, ino, use, logged, d, ino, use, logged, i, off / BSIZE, off / BSIZE)
  {
  }

  // ----- writing -----

  /** A block with some bytes replaced. */
  function Patch(b: Block, at: nat, piece: seq<byte>): (r: Block)
    requires at + |piece| <= BSIZE
    ensures forall x :: 0 <= x < BSIZE ==> r[x] == if at <= x < at + |piece| then piece[x - at] else b[x]
  {
    b[..at] + piece + b[at + |piece|..]
  }

  /** One block of one file has some bytes replaced; every other file block reads as before. */
  ghost predicate Patched(d0: seq<Block>, ino0: seq<Inode>, d: seq<Block>, ino: seq<Inode>, i: nat, bn: nat, at: nat,
                          piece: seq<byte>) {
    |ino| == |ino0| && i < |ino| && bn < MAXFILE && at + |piece| <= BSIZE &&
    forall j, bm: nat :: 0 <= j < |ino| && bm < MAXFILE ==>
      BlockOf(d, ino[j].addrs, bm) ==
      if j == i && bm == bn then Patch(BlockOf(d0, ino0[i].addrs, bn), at, piece) else BlockOf(d0, ino0[j].addrs, bm)
  }

  /** What one round adds to the log: map blocks, the data block, the indirect block. */
  ghost predicate ChunkLogged(sb: Super, logged0: set<nat>, logged: set<nat>, d: seq<Block>, a: Addrs, bn: nat) {
    bn < MAXFILE && forall c :: c in logged ==>
      c in logged0 || IsMap(sb, c) || c == Ptr(d, a, bn) || (c != 0 && c == a[NDIRECT])
  }

  lemma {:induction false} ChunkDone(sb: Super, d0: seq<Block>, ino0: seq<Inode>, use0: seq<Use>, d1: seq<Block>,
                                     d2: seq<Block>, ino: seq<Inode>,
                  use: seq<Use>, i: nat, bn: nat, q: nat, at: nat, piece: seq<byte>)
    requires SuperOk(sb, |d1|) && at + |piece| <= BSIZE && Grown(sb, d0, ino0, use0, d1, ino, use, i)
    requires MappedAt(d0, ino0, d1, ino, i, bn, q) && sb.datastart <= q < |d1| && d1[q] == BlockOf(d1, ino[i].addrs, bn)
    requires d2 == d1[q := Patch(d1[q], at, piece)] && SamePtrs(d1, ino, d2, ino)
    requires forall j, bm: nat :: 0 <= j < |ino| && bm < MAXFILE ==>
               BlockOf(d2, ino[j].addrs, bm) == if j == i && bm == bn then d2[q] else BlockOf(d1, ino[j].addrs, bm)
    ensures Extended(sb, d0, ino0, use0, d2, ino, use, i) && MappedAt(d0, ino0, d2, ino, i, bn, q)
    ensures Patched(d0, ino0, d2, ino, i, bn, at, piece)
  {
    hide Ptr, BlockOf, Patch;
  }

  /** A byte sequence with src put at off, longer if need be. */
  function Splice(s: seq<byte>, off: nat, src: seq<byte>): (r: seq<byte>)
    requires off <= |s|
    ensures |r| == Max(|s|, off + |src|)
  {
    if off + |src| <= |s| then s[..off] + src + s[off + |src|..] else s[..off] + src
  }

  /** None of the blocks lo..hi needs a new address in the inode. */
  ghost predicate NoAddrHole(a: Addrs, lo: nat, hi: nat) {
    forall bn: nat :: lo <= bn < hi ==> !AddrHole(a, bn)
  }

  /** tot bytes of src are in file i from off on; all other bytes of all files are as before. */
  ghost predicate Writing(d0: seq<Block>, ino0: seq<Inode>, d: seq<Block>, ino: seq<Inode>, i: nat, off: nat,
                          src: seq<byte>, tot: nat) {
    && |ino| == |ino0| && i < |ino| && tot <= |src| && off + |src| <= MAXFILE * BSIZE
    && (forall j, bm: nat :: 0 <= j < |ino| && j != i && bm < MAXFILE ==>
                             BlockOf(d, ino[j].addrs, bm) == BlockOf(d0, ino0[j].addrs, bm))
    && (forall k: nat :: k < MAXFILE * BSIZE ==>
          ByteAt(d, ino[i].addrs, k) == if off <= k < off + tot then src[k - off] else ByteAt(d0, ino0[i].addrs, k))
  }

  /** Blocks lo..hi of file i are there; the other addresses are as before. */
  ghost predicate PtrsSpan(d0: seq<Block>, ino0: seq<Inode>, d: seq<Block>, ino: seq<Inode>, i: nat, lo: nat, hi: nat) {
    i < |ino0| == |ino| && forall bn: nat :: bn < MAXFILE ==>
      if lo <= bn < hi then Ptr(d, ino[i].addrs, bn) != 0 else Ptr(d, ino[i].addrs, bn) == Ptr(d0, ino0[i].addrs, bn)
  }

  /** The data blocks lo..hi of a file. */
  ghost function DataSet(d: seq<Block>, a: Addrs, lo: nat, hi: nat): (s: set<nat>)
    ensures |s| <= if lo < hi then hi - lo else 0
    decreases hi
  {
    if lo >= hi then {} else DataSet(d, a, lo, hi - 1) + (if hi - 1 < MAXFILE then {Ptr(d, a, hi - 1)} else {})
  }

  /** What writei adds to the log: map blocks, its data blocks, the indirect block, the inode's block. */
  ghost predicate WriteLogged(sb: Super, logged0: set<nat>, logged: set<nat>, d: seq<Block>, a: Addrs, lo: nat, hi: nat,
                              i: nat) {
    forall c :: c in logged ==>
      c in logged0 || IsMap(sb, c) || c in DataSet(d, a, lo, hi) || (c != 0 && c == a[NDIRECT]) ||
        c == sb.inodestart + i / IPB
  }

  lemma WriteStart(sb: Super, d: seq<Block>, ino: seq<Inode>, use: seq<Use>, logged: set<nat>, i: nat, off: nat,
                   src: seq<byte>)
    requires i < |ino| && off + |src| <= MAXFILE * BSIZE
    ensures InStep(off, 0, |src|, off / BSIZE) && Extended(sb, d, ino, use, d, ino, use, i)
    ensures Writing(d, ino, d, ino, i, off, src, 0) && PtrsSpan(d, ino, d, ino, i, off / BSIZE, off / BSIZE)
    ensures NoAddrHole(ino[i].addrs, off / BSIZE, off / BSIZE)
    ensures Spent(d, ino[i].addrs, use, ino[i].addrs, use, off / BSIZE, off / BSIZE)
    ensures WriteLogged(sb, logged, logged, d, ino[i].addrs, off / BSIZE, off / BSIZE, i)
  {
    hide Ptr, BlockOf;
    GrownNone(sb, d, ino, use, i);
  }

  lemma PtrHere(d0: seq<Block>, ino0: seq<Inode>, d: seq<Block>, ino: seq<Inode>, i: nat, hi: nat)
    requires PtrsFrom(d0, ino0, d, ino, i, hi) && hi < MAXFILE
    ensures Ptr(d, ino[i].addrs, hi) == Ptr(d0, ino0[i].addrs, hi)
  {
  }

  lemma PtrHereSpan(d0: seq<Block>, ino0: seq<Inode>, d: seq<Block>, ino: seq<Inode>, i: nat, lo: nat, hi: nat)
    requires PtrsSpan(d0, ino0, d, ino, i, lo, hi) && hi < MAXFILE
    ensures Ptr(d, ino[i].addrs, hi) == Ptr(d0, ino0[i].addrs, hi)
  {
  }

  lemma SoundAt(sb: Super, d: seq<Block>, ino: seq<Inode>, i: nat)
    requires Sound(sb, d, ino) && i < |ino|
    ensures SoundFile(sb, d, ino, i)
  {
  }

  lemma OthersOnDisk(sb: Super, d: seq<Block>, d': seq<Block>, i: nat, ip: Inode, n: nat)
    requires InodesOnDisk(sb, d, d', i, ip, n)
    ensures |d'| == |d|
    ensures forall j: nat :: j < n && j != i && sb.inodestart + j / IPB < |d| ==> OnDisk(sb, d', j) == OnDisk(sb, d, j)
  {
  }

  lemma ExtendedUses(sb: Super, d0: seq<Block>, ino0: seq<Inode>, use0: seq<Use>, d: seq<Block>, ino: seq<Inode>,
                     use: seq<Use>, i: nat)
    requires Extended(sb, d0, ino0, use0, d, ino, use, i)
    ensures UsesGrow(use0, use, i) && |ino| == |ino0| && |d| == |d0| && i < |ino| &&
            ino == ino0[i := ino0[i].(addrs := ino[i].addrs)]
    ensures forall c :: 0 <= c < |d| && c < sb.bmapstart ==> d[c] == d0[c]
    ensures OtherPtrs(d0, ino0, d, ino, i)
  {
    hide Ptr;
  }

  lemma {:induction false} WriteStep(d0: seq<Block>, ino0: seq<Inode>, d1: seq<Block>, ino1: seq<Inode>, d2: seq<Block>,
                                     ino2: seq<Inode>, i: nat,
                  off: nat, src: seq<byte>, tot: nat, m: nat)
    requires Writing(d0, ino0, d1, ino1, i, off, src, tot) && tot + m <= |src|
    requires Patched(d1, ino1, d2, ino2, i, (off + tot) / BSIZE, (off + tot) % BSIZE, src[tot..tot + m])
    ensures Writing(d0, ino0, d2, ino2, i, off, src, tot + m)
  {
    hide BlockOf, ByteAt, Patch;
    forall k: nat | k < MAXFILE * BSIZE
      ensures ByteAt(d2, ino2[i].addrs, k) == if off <= k < off + (tot + m) then
                src[k - off] else ByteAt(d0, ino0[i].addrs, k)
    {
      PatchedByte(d1, ino1, d2, ino2, i, off + tot, src[tot..tot + m], k);
    }
  }

  lemma {:induction false} PatchedByte(d1: seq<Block>, ino1: seq<Inode>, d2: seq<Block>, ino2: seq<Inode>, i: nat,
                                       pos: nat, piece: seq<byte>, k: nat)
    requires Patched(d1, ino1, d2, ino2, i, pos / BSIZE, pos % BSIZE, piece) && k < MAXFILE * BSIZE
    ensures |ino1| == |ino2| && i < |ino1| &&
            ByteAt(d2, ino2[i].addrs, k) == if pos <= k < pos + |piece| then
              piece[k - pos] else ByteAt(d1, ino1[i].addrs, k)
  {
    hide BlockOf;
    PatchByte(pos, |piece|, k);
    var bn := k / BSIZE;
    assert BlockOf(d2, ino2[i].addrs, bn) ==
      if bn == pos / BSIZE then Patch(BlockOf(d1, ino1[i].addrs, pos / BSIZE), pos % BSIZE, piece)
      else BlockOf(d1, ino1[i].addrs, bn);
  }

  /** Which bytes of a file a patch within one block changes. */
  lemma {:induction false} PatchByte(pos: nat, m: nat, k: nat)
    requires pos % BSIZE + m <= BSIZE
    ensures pos <= k < pos + m <==> k / BSIZE == pos / BSIZE && pos % BSIZE <= k % BSIZE < pos % BSIZE + m
    ensures k / BSIZE == pos / BSIZE ==> k - pos == k % BSIZE - pos % BSIZE
  {
    assert k == k / BSIZE * BSIZE + k % BSIZE && pos == pos / BSIZE * BSIZE + pos % BSIZE;
  }

  lemma {:induction false} SpanStep(sb: Super, d0: seq<Block>, ino0: seq<Inode>, logged0: set<nat>, d1: seq<Block>,
                                    ino1: seq<Inode>,
                                    use1: seq<Use>, logged1: set<nat>, d2: seq<Block>, ino2: seq<Inode>, use2: seq<Use>,
                                    logged2: set<nat>, i: nat, lo: nat, hi: nat)
    requires Extended(sb, d1, ino1, use1, d2, ino2, use2, i) && lo <= hi < MAXFILE
    requires MappedAt(d1, ino1, d2, ino2, i, hi, Ptr(d2, ino2[i].addrs, hi)) && PtrsSpan(d0, ino0, d1, ino1, i, lo, hi)
    requires WriteLogged(sb, logged0, logged1, d1, ino1[i].addrs, lo, hi, i) &&
             ChunkLogged(sb, logged1, logged2, d2, ino2[i].addrs, hi)
    ensures PtrsSpan(d0, ino0, d2, ino2, i, lo, hi + 1)
    ensures WriteLogged(sb, logged0, logged2, d2, ino2[i].addrs, lo, hi + 1, i)
  {
    hide Ptr;
    DataSame(d1, ino1, d2, ino2, i, lo, hi, hi);
    assert DataSet(d2, ino2[i].addrs, lo, hi + 1) == DataSet(d1, ino1[i].addrs, lo, hi) + {Ptr(d2, ino2[i].addrs, hi)};
  }

  /** One bmap of a transfer: the inode's addresses have changed just if one of the blocks needed a new one. */
  lemma {:induction false} AddrStep(sb: Super, d0: seq<Block>, ino0: seq<Inode>, use0: seq<Use>, d1: seq<Block>,
                                    ino1: seq<Inode>,
                                    use1: seq<Use>, d2: seq<Block>, ino2: seq<Inode>, use2: seq<Use>,
                                    i: nat, lo: nat, hi: nat)
    requires Extended(sb, d0, ino0, use0, d1, ino1, use1, i) && Extended(sb, d1, ino1, use1, d2, ino2, use2, i) &&
             lo <= hi < MAXFILE
    requires ino1[i].addrs == ino0[i].addrs <==> NoAddrHole(ino0[i].addrs, lo, hi)
    requires ino2[i].addrs == ino1[i].addrs <==> !AddrHole(ino1[i].addrs, hi)
    ensures ino2[i].addrs == ino0[i].addrs <==> NoAddrHole(ino0[i].addrs, lo, hi + 1)
  {
    hide Ptr;
    if ino1[i].addrs != ino0[i].addrs {
      AddrsDiffer(ino0[i].addrs, ino1[i].addrs, ino2[i].addrs);
    }
  }

  lemma AddrsDiffer(a0: Addrs, a1: Addrs, a2: Addrs)
    requires AddrsGrow(a0, a1) && AddrsGrow(a1, a2) && a1 != a0
    ensures a2 != a0
  {
    var k :| 0 <= k <= NDIRECT && a1[k] != a0[k];
    assert a2[k] == a1[k];
  }

  lemma {:induction false} DataSame(d1: seq<Block>, ino1: seq<Inode>, d2: seq<Block>, ino2: seq<Inode>, i: nat, lo: nat,
                                    hi: nat, bn: nat)
    requires i < |ino1| == |ino2| && hi <= bn < MAXFILE && MappedAt(d1, ino1, d2, ino2, i, bn,
                                                                    Ptr(d2, ino2[i].addrs, bn))
    ensures DataSet(d2, ino2[i].addrs, lo, hi) == DataSet(d1, ino1[i].addrs, lo, hi)
    decreases hi
  {
    hide Ptr;
    if lo < hi {
      DataSame(d1, ino1, d2, ino2, i, lo, hi - 1, bn);
    }
  }

  /** Ownership depends on the addresses in an inode only. */
  lemma {:induction false} OtherFields(sb: Super, d: seq<Block>, ino: seq<Inode>, use: seq<Use>, i: nat, ip: Inode)
    requires OwnOk(sb, d, ino, use) && i < |ino| && ip.addrs == ino[i].addrs
    ensures OwnOk(sb, d, ino[i := ip], use)
  {
    hide Ptr, Bitmap.Used;
    var ino' := ino[i := ip];
    forall j | 0 <= j < |ino'| ensures InodeOk(d, ino'[j], use, j) {
      assert InodeOk(d, ino[j], use, j);
    }
    forall b | 0 <= b < |use| ensures UseOk(d, ino', use[b], b) {
      assert UseOk(d, ino, use[b], b);
    }
  }

  /** The bytes written, as a splice of the file. */
  lemma {:induction false} WrittenIs(d0: seq<Block>, ip0: Inode, d: seq<Block>, ip: Inode, off: nat, src: seq<byte>)
    requires ip0.size <= MAXFILE * BSIZE && off <= ip0.size && off + |src| <= MAXFILE * BSIZE &&
             ip.size == Max(ip0.size, off + |src|)
    requires forall k: nat :: k < MAXFILE * BSIZE ==>
               ByteAt(d, ip.addrs, k) == if off <= k < off + |src| then src[k - off] else ByteAt(d0, ip0.addrs, k)
    ensures Contents(d, ip) == Splice(Contents(d0, ip0), off, src)
  {
    hide ByteAt;
    var r := Splice(Contents(d0, ip0), off, src);
    forall k | 0 <= k < ip.size ensures Contents(d, ip)[k] == r[k] {
    }
  }

  lemma FilesAsTheyAre(d: seq<Block>, ino: seq<Inode>)
    ensures SameFiles(d, ino, d, ino) && SamePtrs(d, ino, d, ino)
  {
  }

  lemma {:induction false} DataKept(d1: seq<Block>, d2: seq<Block>, a: Addrs, lo: nat, hi: nat)
    requires forall bn: nat :: bn < MAXFILE ==> Ptr(d2, a, bn) == Ptr(d1, a, bn)
    ensures DataSet(d2, a, lo, hi) == DataSet(d1, a, lo, hi)
    decreases hi
  {
    hide Ptr;
    if lo < hi {
      DataKept(d1, d2, a, lo, hi - 1);
    }
  }

  /** Setting the size and writing the inode disturb no bytes and no addresses. */
  lemma {:induction false} WriteEnd(sb: Super, d0: seq<Block>, ino0: seq<Inode>, d1: seq<Block>, ino1: seq<Inode>,
                                    d2: seq<Block>, ino2: seq<Inode>,
                 i: nat, off: nat, src: seq<byte>, logged0: set<nat>, logged1: set<nat>, logged2: set<nat>, hi: nat)
    requires Writing(d0, ino0, d1, ino1, i, off, src, |src|) && ino1 == ino0[i := ino0[i].(addrs := ino1[i].addrs)]
    requires off <= ino0[i].size <= MAXFILE * BSIZE
    requires ino2 == ino1[i := ino1[i].(size := Max(ino0[i].size, off + |src|))]
    requires SameFiles(d1, ino2, d2, ino2) && SamePtrs(d1, ino2, d2, ino2) && OtherPtrs(d0, ino0, d1, ino1, i)
    requires PtrsSpan(d0, ino0, d1, ino1, i, off / BSIZE, hi)
    requires WriteLogged(sb, logged0, logged1, d1, ino1[i].addrs, off / BSIZE, hi, i) &&
             logged2 <= logged1 + {sb.inodestart + i / IPB}
    ensures Contents(d2, ino2[i]) == Splice(Contents(d0, ino0[i]), off, src)
    ensures OthersSame(d0, ino0, d2, ino2, i) && PtrsSpan(d0, ino0, d2, ino2, i, off / BSIZE, hi)
    ensures WriteLogged(sb, logged0, logged2, d2, ino2[i].addrs, off / BSIZE, hi, i)
  {
    hide Ptr, BlockOf, DataSet;
    forall k: nat | k < MAXFILE * BSIZE ensures ByteAt(d2, ino2[i].addrs, k) == ByteAt(d1, ino1[i].addrs, k) {
      assert BlockOf(d2, ino2[i].addrs, k / BSIZE) == BlockOf(d1, ino2[i].addrs, k / BSIZE);
    }
    WrittenIs(d0, ino0[i], d2, ino2[i], off, src);
    forall bn: nat | bn < MAXFILE ensures Ptr(d2, ino2[i].addrs, bn) == Ptr(d1, ino1[i].addrs, bn) {
      assert Ptr(d2, ino2[i].addrs, bn) == Ptr(d1, ino2[i].addrs, bn);
    }
    DataKept(d1, d2, ino1[i].addrs, off / BSIZE, hi);
    forall j, bn: nat | 0 <= j < |ino2| && j != i && bn < MAXFILE
      ensures Ptr(d2, ino2[j].addrs, bn) == Ptr(d0, ino0[j].addrs, bn)
    {
      assert Ptr(d2, ino2[j].addrs, bn) == Ptr(d1, ino2[j].addrs, bn) == Ptr(d1, ino1[j].addrs, bn);
    }
  }

  // ----- inodes on disk -----

  /** Inodes on disk do not depend on the blocks from the bitmap on. */
  lemma {:induction false} DiskKept(sb: Super, d0: seq<Block>, d1: seq<Block>, i: nat, n: nat)
    requires |d0| == |d1| && sb.inodestart + sb.ninodes / IPB < sb.bmapstart <= |d0| && n == sb.ninodes && i < n
    requires forall c :: 0 <= c < |d1| && c < sb.bmapstart ==> d1[c] == d0[c]
    ensures sb.inodestart + i / IPB < |d0| && OnDisk(sb, d1, i) == OnDisk(sb, d0, i)
    ensures InodesOnDisk(sb, d0, d1, i, OnDisk(sb, d1, i), n)
  {
    hide GetDinode;
    InodeBlock(sb, i);
    forall j: nat | j < n && sb.inodestart + j / IPB < |d0| ensures OnDisk(sb, d1, j) == OnDisk(sb, d0, j) {
      InodeBlock(sb, j);
    }
  }

  lemma {:induction false} DiskEnd(sb: Super, d0: seq<Block>, d1: seq<Block>, d2: seq<Block>, i: nat, ip: Inode, n: nat)
    requires |d0| == |d1| && sb.inodestart + sb.ninodes / IPB < sb.bmapstart <= |d0| && n == sb.ninodes && i < n
    requires forall c :: 0 <= c < |d1| && c < sb.bmapstart ==> d1[c] == d0[c]
    requires InodesOnDisk(sb, d1, d2, i, ip, n)
    ensures sb.inodestart + i / IPB < |d0| && OnDisk(sb, d2, i) == ip && InodesOnDisk(sb, d0, d2, i, ip, n)
  {
    hide OnDisk;
    DiskKept(sb, d0, d1, i, n);
  }

  lemma InodeBlock(sb: Super, i: nat)
    requires sb.inodestart + sb.ninodes / IPB < sb.bmapstart && i < sb.ninodes
    ensures sb.inodestart + i / IPB < sb.bmapstart
  {
    assert i / IPB <= sb.ninodes / IPB;
  }

  /** On disk inode i is ip, and the others are as before. */
  ghost predicate InodesOnDisk(sb: Super, d: seq<Block>, d': seq<Block>, i: nat, ip: Inode, n: nat) {
    |d'| == |d| && forall j: nat :: j < n && sb.inodestart + j / IPB < |d| ==>
      OnDisk(sb, d', j) == if j == i then ip else OnDisk(sb, d, j)
  }

  lemma {:induction false} IupdateOk(sb: Super, d: seq<Block>, ino: seq<Inode>, use: seq<Use>, i: nat, ip: Inode)
    requires OwnOk(sb, d, ino, use) && i < sb.ninodes && sb.inodestart + i / IPB < |d|
    ensures var q := sb.inodestart + i / IPB; var d' := d[q := PutDinode(d[q], i % IPB, ip)];
            OwnOk(sb, d', ino, use) && SameFiles(d, ino, d', ino) && SamePtrs(d, ino, d', ino) &&
            InodesOnDisk(sb, d, d', i, ip, sb.ninodes)
  {
    hide Ptr, BlockOf, InodeOk, UseOk, PutDinode, OnDisk, Bitmap.Used;
    var q := sb.inodestart + i / IPB;
    var d' := d[q := PutDinode(d[q], i % IPB, ip)];
    InodeBlock(sb, i);
    BitsKept(sb, d, d', use);
    OutsideWritten(sb, d, d', ino, use, use);
    forall j: nat | j < sb.ninodes && sb.inodestart + j / IPB < |d|
      ensures OnDisk(sb, d', j) == if j == i then ip else OnDisk(sb, d, j)
    {
      OnDiskPut(sb, d, i, ip, j);
    }
  }

  lemma {:induction false} OnDiskPut(sb: Super, d: seq<Block>, i: nat, ip: Inode, j: nat)
    requires sb.inodestart + i / IPB < |d| && sb.inodestart + j / IPB < |d|
    ensures var q := sb.inodestart + i / IPB;
            OnDisk(sb, d[q := PutDinode(d[q], i % IPB, ip)], j) == if j == i then ip else OnDisk(sb, d, j)
  {
    hide PutDinode, GetDinode;
    DinodeRoundTrip(d[sb.inodestart + i / IPB], i % IPB, ip, j % IPB);
    assert i == i / IPB * IPB + i % IPB && j == j / IPB * IPB + j % IPB;
  }

  // ----- truncation -----

  /** Files other than i, and their inodes, are as before. */
  ghost predicate OthersSame(d: seq<Block>, ino: seq<Inode>, d': seq<Block>, ino': seq<Inode>, i: nat) {
    && |ino'| == |ino|
    && (forall j :: 0 <= j < |ino| && j != i ==> ino'[j] == ino[j])
    && (forall j, bn: nat :: 0 <= j < |ino| && j != i && bn < MAXFILE ==>
          BlockOf(d', ino'[j].addrs, bn) == BlockOf(d, ino[j].addrs, bn))
    && OtherPtrs(d, ino, d', ino', i)
  }

  /** Files other than i have the same block addresses. */
  ghost predicate OtherPtrs(d: seq<Block>, ino: seq<Inode>, d': seq<Block>, ino': seq<Inode>, i: nat) {
    |ino'| == |ino| && forall j, bn: nat :: 0 <= j < |ino| && j != i && bn < MAXFILE ==>
      Ptr(d', ino'[j].addrs, bn) == Ptr(d, ino[j].addrs, bn)
  }

  /** Addresses with the first k direct ones cleared. */
  function Emptied(a: Addrs, k: nat): (r: Addrs)
    requires k <= NDIRECT
  {
    seq(NDIRECT + 1, n requires 0 <= n < NDIRECT + 1 => if n < k then 0 else a[n])
  }

  /** itrunc after k blocks: their bits are clear, and only the bitmap has changed. */
  ghost predicate Freeing(sb: Super, d0: seq<Block>, d: seq<Block>, use0: seq<Use>, i: nat, k: nat) {
    |d| == |d0| && SuperOk(sb, |d|) && BitsOk(sb, d, DroppedTo(use0, i, k)) &&
    forall c :: 0 <= c < |d| && (c < sb.bmapstart || sb.datastart <= c) ==> d[c] == d0[c]
  }

  lemma DroppedNone(sb: Super, d: seq<Block>, ino: seq<Inode>, use: seq<Use>, i: nat)
    requires OwnOk(sb, d, ino, use) && i < |ino|
    ensures Freeing(sb, d, d, use, i, 0) && ino == ino[i := ino[i].(addrs := Emptied(ino[i].addrs, 0))]
  {
    hide Ptr, Bitmap.Used;
    assert DroppedTo(use, i, 0) == use;
    assert Emptied(ino[i].addrs, 0) == ino[i].addrs;
  }

  lemma InUse(sb: Super, d0: seq<Block>, d1: seq<Block>, use0: seq<Use>, i: nat, k: nat, p: nat)
    requires Freeing(sb, d0, d1, use0, i, k) && p < sb.size == |use0| && DroppedTo(use0, i, k)[p] != Free
    ensures Bitmap.InMap(d1, sb.bmapstart, p) && Bitmap.Used(d1, sb.bmapstart, p)
  {
    hide Bitmap.Used;
    MapBlock(sb, p);
  }

  lemma FreedOne(sb: Super, d0: seq<Block>, d1: seq<Block>, d2: seq<Block>, use0: seq<Use>, i: nat, k: nat, p: nat)
    requires Freeing(sb, d0, d1, use0, i, k) && p < sb.size == |use0| && Bitmap.InMap(d1, sb.bmapstart, p)
    requires d2 == Bitmap.Marked(d1, sb.bmapstart, p, false)
    ensures BitsOk(sb, d2, DroppedTo(use0, i, k)[p := Free])
    ensures forall c :: 0 <= c < |d2| && (c < sb.bmapstart || sb.datastart <= c) ==> d2[c] == d0[c]
  {
    hide Bitmap.Used, DroppedTo, Bitmap.Marked;
    MapBlock(sb, p);
    BitMarked(sb, d1, DroppedTo(use0, i, k), p, false, Free);
  }

  lemma {:induction false} TruncSame(sb: Super, d0: seq<Block>, d1: seq<Block>, d2: seq<Block>, ino0: seq<Inode>,
                                     ino: seq<Inode>, i: nat)
    requires i < |ino0| == |ino| && ino == ino0[i := ino[i]] && |d0| == |d1| == |d2|
    requires forall j, bm: nat :: 0 <= j < |ino0| && j != i && bm < MAXFILE ==>
               BlockOf(d1, ino0[j].addrs, bm) == BlockOf(d0, ino0[j].addrs, bm) &&
                 Ptr(d1, ino0[j].addrs, bm) == Ptr(d0, ino0[j].addrs, bm)
    requires SameFiles(d1, ino, d2, ino) && SamePtrs(d1, ino, d2, ino) && InodesOnDisk(sb, d1, d2, i, ino[i], |ino|)
    requires forall c :: 0 <= c < |d1| && c < sb.bmapstart ==> d1[c] == d0[c]
    requires forall j: nat :: j < |ino| ==> sb.inodestart + j / IPB < sb.bmapstart
    ensures OthersSame(d0, ino0, d2, ino, i) && InodesOnDisk(sb, d0, d2, i, ino[i], |ino|)
  {
    hide BlockOf, GetDinode, Ptr;
    forall j, bn: nat | 0 <= j < |ino| && j != i && bn < MAXFILE
      ensures ino[j] == ino0[j] && BlockOf(d2, ino[j].addrs, bn) == BlockOf(d0, ino0[j].addrs, bn)
      ensures Ptr(d2, ino[j].addrs, bn) == Ptr(d0, ino0[j].addrs, bn)
    {
      assert BlockOf(d2, ino[j].addrs, bn) == BlockOf(d1, ino[j].addrs, bn);
      assert Ptr(d2, ino[j].addrs, bn) == Ptr(d1, ino[j].addrs, bn);
    }
  }

  /** balloc leaves everything before the bitmap alone. */
  lemma AllocGrown(sb: Super, d0: seq<Block>, ino0: seq<Inode>, use0: seq<Use>, d1: seq<Block>, b: nat, i: nat)
    requires SuperOk(sb, |d0|) && sb.datastart <= b < sb.size && Bitmap.InMap(d0, sb.bmapstart, b) &&
             d1 == Allocated(sb, d0, b)
    requires i < |ino0|
    ensures forall c :: 0 <= c < |d0| && c < sb.bmapstart ==> d1[c] == d0[c]
    ensures IsMap(sb, sb.bmapstart + b / Bitmap.BPB) && d1[b] == Zero()
  {
    MapBlock(sb, b);
    assert b / Bitmap.BPB <= sb.size / Bitmap.BPB;
  }

  lemma {:induction false} LinkGrown(sb: Super, d0: seq<Block>, ino0: seq<Inode>, use0: seq<Use>, d1: seq<Block>,
                                     d: seq<Block>, ino: seq<Inode>,
                  use: seq<Use>, i: nat, bn: nat, b: nat)
    requires i < |ino0| && |d| == |d1| == |d0| && |ino| == |ino0| && bn < MAXFILE && 0 < b < |use0| && use0[b] == Free
    requires ino == ino0[i := ino0[i].(addrs := ino[i].addrs)] && AddrsGrow(ino0[i].addrs, ino[i].addrs)
    requires use == use0[b := Data(i, bn)] && Ptr(d0, ino0[i].addrs, bn) == 0
    requires SameFiles(d0, ino0, d1, ino0) && SamePtrs(d0, ino0, d1, ino0)
    requires SameFiles(d1, ino0, d, ino) && PtrAdded(d1, ino0, d, ino, i, bn, b)
    requires forall c :: 0 <= c < |d| && c < sb.bmapstart ==> d[c] == d0[c]
    ensures Grown(sb, d0, ino0, use0, d, ino, use, i) && MappedAt(d0, ino0, d, ino, i, bn, b)
  {
    hide Ptr, BlockOf;
  }

  lemma SizeOf(sb: Super, d: seq<Block>, ino: seq<Inode>, use: seq<Use>)
    requires OwnOk(sb, d, ino, use)
    ensures |use| == sb.size <= |d| && 0 < sb.datastart <= sb.size && SuperOk(sb, |d|)
  {
  }

  /** The bit balloc looks at is the one of block b + bi. */
  lemma BitAt(sb: Super, d: seq<Block>, ino: seq<Inode>, use: seq<Use>, b: nat, bi: nat)
    requires OwnOk(sb, d, ino, use) && b % Bitmap.BPB == 0 && bi < Bitmap.BPB && b + bi < sb.size
    ensures sb.bmapstart + b / Bitmap.BPB < sb.datastart <= |d| && |use| == sb.size
    ensures Bitmap.Test(d[sb.bmapstart + b / Bitmap.BPB][bi / 8], bi % 8) <==> use[b + bi] != Free
    ensures use[b + bi] == Free ==> sb.datastart <= b + bi < |d|
  {
    hide Bitmap.Test;
    MapBlock(sb, b);
    Offset(b, bi);
    assert Bitmap.Used(d, sb.bmapstart, b + bi) <==> use[b + bi] != Free;
  }

  lemma {:induction false} Offset(b: nat, bi: nat)
    requires b % Bitmap.BPB == 0 && bi < Bitmap.BPB
    ensures (b + bi) / Bitmap.BPB == b / Bitmap.BPB && (b + bi) % Bitmap.BPB == bi && (b + bi) % 8 == bi % 8
  {
  }

  lemma MarkAt(sb: Super, d: seq<Block>, b: nat, bi: nat)
    requires b % Bitmap.BPB == 0 && bi < Bitmap.BPB && sb.bmapstart + b / Bitmap.BPB < |d| && b + bi < |d|
    ensures var q := sb.bmapstart + b / Bitmap.BPB;
            Bitmap.InMap(d, sb.bmapstart, b + bi) &&
            Allocated(sb, d, b + bi) == d[q := d[q][bi / 8 := Bitmap.MarkByte(d[q][bi / 8], bi % 8, true)]][b +
                  bi := Zero()]
  {
    hide Bitmap.MarkByte;
    Offset(b, bi);
  }
}
