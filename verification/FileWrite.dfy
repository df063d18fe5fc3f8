/**
 filewrite (file.c): a write of any length as a series of log operations, each
 small enough for the space begin_op reserves, none of which leaves a hole or an
 inode that is out of date on disk; the image on which readi does; and truncation
 as the inverse of growth.
 */
module FileWrite {

  import opened Basics
  import opened Blocks
  import opened Inodes
  import opened Files
  import Bitmap
  import Reservation

  const T_DIR: nat := 1
  const CHUNK: nat := 1536  // ((MAXOPBLOCKS - 1 - 1 - 2) / 2) * 512

  datatype FileResult = FilePanic | Failed | Written

  class OpenFile {
    const ip: nat
    var off: word

    /** begin_op, one writei of at most a chunk, end_op. */
    method WriteOp(fs: FileSystem, src: seq<byte>, j: nat, n: nat, ghost d0: seq<Block>, ghost ino0: seq<Inode>,
                   ghost use0: seq<Use>)
      returns (w: WriteResult)
      requires fs.Valid() && ip < fs.inodes.Length && fs.inodes[ip].kind != T_DEV
      requires 0 < n <= CHUNK && j + n <= |src| && off >= j
      requires Sofar(d0, ino0, use0, fs.disk[..], fs.inodes[..], fs.use, ip, off - j, src, j)
      modifies fs`use, fs`logged, fs.disk, fs.inodes
      ensures fs.Valid() && (w.WritePanic? ==> fs.NoFree() && UsesGrow(use0, fs.use, ip))
      ensures !w.WritePanic? ==> Sofar(d0, ino0, use0, fs.disk[..], fs.inodes[..], fs.use, ip, off - j, src,
                                       if w.Wrote? then j + n else j)
      ensures w.WriteError? <==> off > old(fs.inodes[ip].size) || off + n > MAXFILE * BSIZE
      ensures !w.WritePanic? ==> |fs.logged| <= 7 + fs.sb.size / Bitmap.BPB
      ensures !w.WritePanic? ==> Keeps(fs.sb, old(fs.disk[..]), old(fs.inodes[..]), fs.disk[..], fs.inodes[..], ip)
    {
      hide OwnOk, Contents, OthersSame, Splice, WriteLogged, PtrsSpan, InodesOnDisk, UsesGrow, OnDisk, NoAddrHole;
      hide Sofar;
      hide SoundFile, Sound, FreeCount, Need;
      fs.logged := {};
      ghost var d1, ino1, use1 := fs.disk[..], fs.inodes[..], fs.use;
      SofarNow(d0, ino0, use0, d1, ino1, use1, ip, off - j, src, j);
      w := fs.Writei(ip, off, src[j..j + n]);
      UsesTrans(use0, use1, fs.use, ip);
      if w.Wrote? {
        ChunkFits(fs.sb, fs.logged, fs.disk[..], fs.inodes[ip].addrs, off, n, ip);
        SofarMore(d0, ino0, use0, d1, ino1, use1, fs.disk[..], fs.inodes[..], fs.use, ip, off - j, src, j, n);
      }
    }

    /** filewrite to an inode; ops lists the blocks each operation gave to log_write. */
    method FileWrite(fs: FileSystem, src: seq<byte>) returns (r: FileResult, ghost ops: seq<set<nat>>)
      requires fs.Valid() && ip < fs.inodes.Length && fs.inodes[ip].kind != T_DEV && |src| < 0x8000_0000
      modifies this`off, fs`use, fs`logged, fs.disk, fs.inodes
      ensures fs.Valid() && UsesGrow(old(fs.use), fs.use, ip)
      ensures r.FilePanic? ==> fs.NoFree()
      ensures !r.FilePanic? ==> (r.Written? <==> src == [] ||
                                                 (old(off) <= old(fs.inodes[ip].size) &&
                                                  old(off) + |src| <= MAXFILE * BSIZE))
      ensures !r.FilePanic? ==> off >= old(off) && off - old(off) <= |src| && (r.Written? <==> off == old(off) + |src|)
      ensures !r.FilePanic? && off > old(off) ==> old(off) <= old(fs.inodes[ip].size)
      ensures !r.FilePanic? && old(off) <= old(fs.inodes[ip].size) ==>
                Contents(fs.disk[..], fs.inodes[ip]) ==
                Splice(Contents(old(fs.disk[..]), old(fs.inodes[ip])), old(off), src[..off - old(off)])
      ensures !r.FilePanic? ==> OthersSame(old(fs.disk[..]), old(fs.inodes[..]), fs.disk[..], fs.inodes[..], ip)
      ensures r.Failed? && old(off) <= old(fs.inodes[ip].size) ==>
              (off - old(off)) % CHUNK == 0 && off + CHUNK > MAXFILE * BSIZE
      ensures !r.FilePanic? ==> Keeps(fs.sb, old(fs.disk[..]), old(fs.inodes[..]), fs.disk[..], fs.inodes[..], ip)
      ensures OpsFit(ops, 7 + fs.sb.size / Bitmap.BPB)
    {
      hide OwnOk, Contents, OthersSame, Splice, WriteLogged, PtrsSpan, InodesOnDisk, UsesGrow, OnDisk, NoAddrHole;
      hide Sofar;
      hide SoundFile, Sound, FreeCount, Need;
      ghost var d0, ino0, use0, off0 := fs.disk[..], fs.inodes[..], fs.use, off;
      ops := [];
      var j := 0;
      SofarStart(d0, ino0, use0, ip, off0, src);
      while j < |src|
        invariant 0 <= j <= |src| && fs.Valid() && off == off0 + j && (j % CHUNK == 0 || j == |src|)
        invariant Sofar(d0, ino0, use0, fs.disk[..], fs.inodes[..], fs.use, ip, off0, src, j)
        invariant Keeps(fs.sb, d0, ino0, fs.disk[..], fs.inodes[..], ip)
        invariant OpsFit(ops, 7 + fs.sb.size / Bitmap.BPB)
        decreases |src| - j
      {
        var n1 := Min(|src| - j, CHUNK);
        SofarNow(d0, ino0, use0, fs.disk[..], fs.inodes[..], fs.use, ip, off0, src, j);
        var w := WriteOp(fs, src, j, n1, d0, ino0, use0);
        if w.WritePanic? {
          return FilePanic, ops;
        }
        SofarNow(d0, ino0, use0, fs.disk[..], fs.inodes[..], fs.use, ip, off0, src, if w.Wrote? then j + n1 else j);
        ops := ops + [fs.logged];
        if w.WriteError? {
          return Failed, ops;
        }
        off := off + n1;
        j := j + n1;
      }
      SofarNow(d0, ino0, use0, fs.disk[..], fs.inodes[..], fs.use, ip, off0, src, j);
      return Written, ops;
    }
  }

  /** What was sound stays sound: file i if it is in use, and with it the whole system. */
  ghost predicate Keeps(sb: Super, d0: seq<Block>, ino0: seq<Inode>, d: seq<Block>, ino: seq<Inode>, i: nat) {
    i < |ino0| && ino0[i].kind != 0 ==>
      (SoundFile(sb, d0, ino0, i) ==> SoundFile(sb, d, ino, i)) && (Sound(sb, d0, ino0) ==> Sound(sb, d, ino))
  }

  /** No operation gives log_write more than limit blocks. */
  ghost predicate OpsFit(ops: seq<set<nat>>, limit: nat) {
    forall k :: 0 <= k < |ops| ==> |ops[k]| <= limit
  }

  /** j bytes of src have been written to file i from off on. */
  ghost predicate Sofar(d0: seq<Block>, ino0: seq<Inode>, use0: seq<Use>, d: seq<Block>, ino: seq<Inode>, use: seq<Use>,
                        i: nat,
                        off: nat, src: seq<byte>, j: nat)
  {
    && i < |ino0| == |ino| && j <= |src| && ino[i].kind == ino0[i].kind && UsesGrow(use0, use, i) &&
       OthersSame(d0, ino0, d, ino, i)
    && ino0[i].size <= MAXFILE * BSIZE && ino[i].size <= MAXFILE * BSIZE
    && (j > 0 ==> off <= ino0[i].size && off + j <= MAXFILE * BSIZE)
    && ino[i].size == (if j == 0 then ino0[i].size else Max(ino0[i].size, off + j))
    && (off <= ino0[i].size ==> Contents(d, ino[i]) == Splice(Contents(d0, ino0[i]), off, src[..j]))
  }

  lemma SofarStart(d: seq<Block>, ino: seq<Inode>, use: seq<Use>, i: nat, off: nat, src: seq<byte>)
    requires i < |ino| && ino[i].size <= MAXFILE * BSIZE
    ensures Sofar(d, ino, use, d, ino, use, i, off, src, 0)
  {
    hide BlockOf, Ptr;
  }

  lemma SofarNow(d0: seq<Block>, ino0: seq<Inode>, use0: seq<Use>, d: seq<Block>, ino: seq<Inode>, use: seq<Use>,
                 i: nat,
                 off: nat, src: seq<byte>, j: nat)
    requires Sofar(d0, ino0, use0, d, ino, use, i, off, src, j)
    ensures i < |ino0| == |ino| && ino[i].kind == ino0[i].kind && UsesGrow(use0, use, i) &&
            OthersSame(d0, ino0, d, ino, i)
    ensures ino0[i].size <= MAXFILE * BSIZE && ino[i].size <= MAXFILE * BSIZE
    ensures j > 0 ==> off <= ino0[i].size && off + j <= MAXFILE * BSIZE
    ensures ino[i].size == if j == 0 then ino0[i].size else Max(ino0[i].size, off + j)
    ensures off <= ino0[i].size ==> Contents(d, ino[i]) == Splice(Contents(d0, ino0[i]), off, src[..j])
  {
  }

  lemma SofarMore(d0: seq<Block>, ino0: seq<Inode>, use0: seq<Use>, d1: seq<Block>, ino1: seq<Inode>, use1: seq<Use>,
                  d2: seq<Block>, ino2: seq<Inode>, use2: seq<Use>, i: nat, off: nat, src: seq<byte>, j: nat, n: nat)
    requires Sofar(d0, ino0, use0, d1, ino1, use1, i, off, src, j) && 0 < n && j + n <= |src| && UsesGrow(use1, use2, i)
    requires OthersSame(d1, ino1, d2, ino2, i) && off + j <= ino1[i].size && off + (j + n) <= MAXFILE * BSIZE
    requires ino2[i].kind == ino1[i].kind && ino2[i].size == Max(ino1[i].size, off + (j + n))
    requires Contents(d2, ino2[i]) == Splice(Contents(d1, ino1[i]), off + j, src[j..j + n])
    ensures Sofar(d0, ino0, use0, d2, ino2, use2, i, off, src, j + n)
  {
    hide Contents, Splice, OthersSame, UsesGrow;
    UsesTrans(use0, use1, use2, i);
    OthersTrans(d0, ino0, d1, ino1, d2, ino2, i);
    SpliceMore(Contents(d0, ino0[i]), off, src, j, n);
  }

  lemma UsesTrans(use0: seq<Use>, use1: seq<Use>, use2: seq<Use>, i: nat)
    requires UsesGrow(use0, use1, i) && UsesGrow(use1, use2, i)
    ensures UsesGrow(use0, use2, i)
  {
  }

  lemma OthersTrans(d0: seq<Block>, ino0: seq<Inode>, d1: seq<Block>, ino1: seq<Inode>, d2: seq<Block>,
                    ino2: seq<Inode>, i: nat)
    requires OthersSame(d0, ino0, d1, ino1, i) && OthersSame(d1, ino1, d2, ino2, i)
    ensures |ino2| == |ino0| && OthersSame(d0, ino0, d2, ino2, i)
  {
    hide BlockOf, Ptr;
    forall j, bn: nat | 0 <= j < |ino0| && j != i && bn < MAXFILE
      ensures BlockOf(d2, ino2[j].addrs, bn) == BlockOf(d0, ino0[j].addrs, bn)
      ensures Ptr(d2, ino2[j].addrs, bn) == Ptr(d0, ino0[j].addrs, bn)
    {
      assert BlockOf(d1, ino1[j].addrs, bn) == BlockOf(d0, ino0[j].addrs, bn);
      assert BlockOf(d2, ino2[j].addrs, bn) == BlockOf(d1, ino1[j].addrs, bn);
      assert Ptr(d1, ino1[j].addrs, bn) == Ptr(d0, ino0[j].addrs, bn);
    }
  }

  /** Two adjacent splices make one. */
  lemma SpliceMore(s: seq<byte>, off: nat, src: seq<byte>, j: nat, n: nat)
    requires j + n <= |src|
    ensures off <= |s| ==> Splice(Splice(s, off, src[..j]), off + j, src[j..j + n]) == Splice(s, off, src[..j + n])
  {
    if off <= |s| {
      assert src[..j + n] == src[..j] + src[j..j + n];
      assert Splice(Splice(s, off, src[..j]), off + j, src[j..j + n]) == Splice(s, off, src[..j + n]);
    }
  }

  /** A chunk at any offset logs at most six blocks besides those of the free map. */
  lemma ChunkFits(sb: Super, logged: set<nat>, d: seq<Block>, a: Addrs, off: nat, n: nat, i: nat)
    requires n <= CHUNK && WriteLogged(sb, {}, logged, d, a, off / BSIZE, SpanEnds(off, n), i)
    ensures |logged| <= 7 + sb.size / Bitmap.BPB
  {
    hide DataSet;
    var data := DataSet(d, a, off / BSIZE, SpanEnds(off, n));
    var maps := Range(sb.bmapstart, sb.size / Bitmap.BPB + 1);
    var rest: set<nat> := {a[NDIRECT], sb.inodestart + i / IPB};
    assert logged <= data + maps + rest;
    SubsetSize(logged, data + maps + rest);
  }

  // ----- writes never fill the log -----

  /** What an operation has written so far is part of one of ops, or within what is always safe. */
  ghost predicate Doing(ops: seq<set<nat>>, written: set<nat>) {
    |written| <= MAXOPBLOCKS - 1 || exists k :: 0 <= k < |ops| && written <= ops[k]
  }

  /** Each block about to be logged belongs to one of ops, or to an operation of at most nine blocks. */
  ghost predicate RunOf(ops: seq<set<nat>>, states: seq<Reservation.State>, acts: seq<Reservation.Action>) {
    |states| == |acts| + 1 && forall k :: 0 <= k < |acts| ==>
      (acts[k].Test? && acts[k].p < |states[k].slots| && states[k].slots[acts[k].p].Inside? ==>
         Doing(ops, states[k].slots[acts[k].p].written + {acts[k].a}))
  }

  lemma {:induction false} DoingFits(ops: seq<set<nat>>, written: set<nat>)
    requires OpsFit(ops, MAXOPBLOCKS - 1) && Doing(ops, written)
    ensures |written| <= MAXOPBLOCKS - 1
  {
    if |written| > MAXOPBLOCKS - 1 {
      var k :| 0 <= k < |ops| && written <= ops[k];
      SubsetSize(written, ops[k]);
    }
  }

  /**
   However operations of filewrite interleave with each other and with other operations
   of at most nine blocks, log_write never panics: with what FileWrite ensures about ops,
   this holds for every file system whose free map has at most three blocks.
   */
  lemma {:induction false} WritesNeverPanic(size: nat, budget: nat, ops: seq<set<nat>>, states: seq<Reservation.State>,
                                            acts: seq<Reservation.Action>)
    requires size >= LOGSIZE && OpsFit(ops, MAXOPBLOCKS - 1)
    requires Reservation.Run(size, budget, states, acts) && RunOf(ops, states, acts)
    ensures !states[|acts|].panicked
  {
    forall k | 0 <= k < |acts| ensures Reservation.Enabled(MAXOPBLOCKS - 1, states[k], acts[k]) &&
        states[k + 1] == Reservation.Do(size, MAXOPBLOCKS - 1, states[k], acts[k])
    {
      assert Reservation.Enabled(budget, states[k], acts[k]);
      if acts[k].Test? {
        DoingFits(ops, states[k].slots[acts[k].p].written + {acts[k].a});
      }
    }
    Reservation.NineIsSafe(size, MAXOPBLOCKS - 1, states, acts);
  }

  // ----- holes -----

  /** The size mkfs gives the root directory. */
  function Rounded(size: nat): nat {
    (size / BSIZE + 1) * BSIZE
  }

  /**
   mkfs's rounding leaves the root directory without a hole if and only if its length was not a multiple of
   the block size.
   */
  lemma RoundedExactIff(d: seq<Block>, ip: Inode)
    requires Exact(d, ip) && Rounded(ip.size) <= MAXFILE * BSIZE
    ensures Exact(d, ip.(size := Rounded(ip.size))) <==> ip.size % BSIZE != 0
  {
    hide Ptr;
    var last := ip.size / BSIZE;
    assert Ptr(d, ip.addrs, last) != 0 <==> last * BSIZE < ip.size;
    forall bn: nat | bn < MAXFILE && bn != last ensures bn * BSIZE < Rounded(ip.size) <==> bn * BSIZE < ip.size {
    }
  }

  lemma {:induction false} TwoFree(sb: Super, k: nat)
    requires k + 2 <= sb.size
    ensures FreeCount(FreshUse(sb, k)) >= 2
  {
    assert {k, k + 1} <= FreeSet(FreshUse(sb, k));
    SubsetSize({k, k + 1}, FreeSet(FreshUse(sb, k)));
  }

  lemma {:induction false} NeedOne(d: seq<Block>, a: Addrs, bn: nat)
    requires bn < NDIRECT
    ensures Need(d, a, bn, bn + 1) <= 1
  {
    hide Ptr;
    assert Holes(d, a, bn, bn) == 0;
  }

  /**
   The promise that the inode on disk is the one in core fails for readi: a root
   directory of 32 entries fills one block, mkfs rounds its size to two, and reading
   the 33rd entry gives the file a block that only the inode in core knows.  d and ino
   are the disk and the inodes before the read.
   */
  method ReadLosesInode(entries: seq<byte>) returns (fs: FileSystem, r: ReadResult, ghost d: seq<Block>,
                                                     ghost ino: seq<Inode>)
    requires |entries| == BSIZE
    ensures fs.Valid() && fs.inodes.Length == |ino| == 200 && |d| == fs.disk.Length == 1000
    ensures ino[1].size == Rounded(BSIZE) && Ptr(d, ino[1].addrs, 0) != 0 && OnDiskIs(fs.sb, d, 1, ino[1])
    ensures r == Bytes(Zero()[..16]) && !fs.Synced(1)
  {
    hide OwnOk, Contents, OthersSame, Splice, WriteLogged, InodesOnDisk, UsesGrow, OnDisk, SoundFile, Sound, FreeCount;
    hide Need, Ptr;
    hide PtrsSpan, Extended, SameFiles, NoAddrHole;
    var sb := Super(1000, 200, 32, 58, 59);
    fs := new FileSystem(sb, 1000);
    TwoFree(sb, 59);
    ghost var d0 := fs.disk[..];
    SetFields(fs, 1, fs.inodes[1].(kind := T_DIR));
    NeedOne(d0, fs.inodes[1].addrs, 0);
    ghost var ino1 := fs.inodes[..];
    var w := fs.Writei(1, 0, entries);
    RootPtrs(d0, ino1, fs.disk[..], fs.inodes[..], 1);
    SetFields(fs, 1, fs.inodes[1].(size := Rounded(BSIZE)));
    ghost var d1 := fs.disk[..];
    fs.Iupdate(1);
    d, ino := fs.disk[..], fs.inodes[..];
    SamePtr(d1, ino, d, ino, 1, 0);
    SamePtr(d1, ino, d, ino, 1, 1);
    NowOnDisk(fs.sb, d1, d, 1, ino[1], 200);
    HoleReads(d, ino[1]);
    NeedOne(d, ino[1].addrs, 1);
    r := fs.Readi(1, BSIZE, 16);
  }

  /** A change of fields other than the addresses. */
  method SetFields(fs: FileSystem, i: nat, ip: Inode)
    requires fs.Valid() && i < fs.inodes.Length && ip.addrs == fs.inodes[i].addrs && ip.size <= MAXFILE * BSIZE
    modifies fs.inodes
    ensures fs.Valid() && fs.inodes[..] == old(fs.inodes[..])[i := ip]
  {
    hide OwnOk;
    OtherFields(fs.sb, fs.disk[..], fs.inodes[..], fs.use, i, ip);
    ghost var ino := fs.inodes[..];
    fs.inodes[i] := ip;
    assert fs.inodes[..] == ino[i := ip];
  }

  lemma RootPtrs(d0: seq<Block>, ino0: seq<Inode>, d: seq<Block>, ino: seq<Inode>, i: nat)
    requires i < |ino0| == |ino| && ino0[i].addrs == NO_ADDRS && PtrsSpan(d0, ino0, d, ino, i, 0, 1)
    ensures Ptr(d, ino[i].addrs, 0) != 0 && Ptr(d, ino[i].addrs, 1) == 0
  {
    assert Ptr(d0, ino0[i].addrs, 1) == 0;
  }

  lemma NowOnDisk(sb: Super, d: seq<Block>, d': seq<Block>, i: nat, ip: Inode, n: nat)
    requires InodesOnDisk(sb, d, d', i, ip, n) && i < n && sb.inodestart + i / IPB < |d|
    ensures OnDiskIs(sb, d', i, ip)
  {
  }

  lemma HoleReads(d: seq<Block>, ip: Inode)
    requires ip.size == Rounded(BSIZE) && Ptr(d, ip.addrs, 1) == 0
    ensures Contents(d, ip)[BSIZE..BSIZE + 16] == Zero()[..16]
    ensures !NoAddrHole(ip.addrs, 1, 2)
  {
    assert AddrHole(ip.addrs, 1);
    var s := Contents(d, ip)[BSIZE..BSIZE + 16];
    forall k | 0 <= k < 16 ensures s[k] == 0 {
      InBlock(BSIZE, k);
    }
  }

  // ----- truncation undoes growth -----

  /** Truncating a file that owned nothing before it grew gives every block back. */
  lemma TruncRestores(use0: seq<Use>, use1: seq<Use>, i: nat)
    requires UsesGrow(use0, use1, i) && forall b :: 0 <= b < |use0| ==> !(InFile(use0[b]) && use0[b].i == i)
    ensures Dropped(use1, i) == use0
  {
  }
}
