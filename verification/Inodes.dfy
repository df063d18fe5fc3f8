/**
 Inodes, their block maps, and who owns each block of the disk (fs.h, fs.c).

 A ghost record gives the one use of every block; it is tied to the bitmap and to
 the inodes' direct, indirect and indirect-entry addresses in both directions.
 */
module Inodes {

  import opened Blocks
  import Bitmap

  const NDIRECT: nat := 12
  const NINDIRECT: nat := 128
  const MAXFILE: nat := 140
  const IPB: nat := 8          // inodes per block, 64 bytes each
  const INODE_WORDS: nat := 16

  type short = s: int | 0 <= s < 0x1_0000
  type Addrs = a: seq<word> | |a| == NDIRECT + 1 witness seq(NDIRECT + 1, _ => 0)

  datatype Inode = Inode(kind: short, major: short, minor: short, nlink: short, size: word, addrs: Addrs)

  function Zero(): (b: Block) {
    seq(BSIZE, _ => 0)
  }

  // ----- the inode on disk -----

  /** struct dinode as sixteen little-endian words. */
  function Fields(ip: Inode): (ws: seq<word>)
    ensures |ws| == INODE_WORDS
  {
    [ip.kind + 0x1_0000 * ip.major, ip.minor + 0x1_0000 * ip.nlink, ip.size] + ip.addrs
  }

  function PutWords(b: Block, at: nat, ws: seq<word>): (r: Block)
    requires at + |ws| <= WORDS
  {
    if ws == [] then b else PutWord(PutWords(b, at, ws[..|ws| - 1]), at + |ws| - 1, ws[|ws| - 1])
  }

  lemma {:induction false} PutWordsGet(b: Block, at: nat, ws: seq<word>)
    requires at + |ws| <= WORDS
    ensures forall k: nat :: k < WORDS ==> Word(PutWords(b, at, ws), k) == if at <= k < at + |ws| then
                                             ws[k - at] else Word(b, k)
  {
    hide Word, PutWord;
    if ws != [] {
      PutWordsGet(b, at, ws[..|ws| - 1]);
      PutWordGet(PutWords(b, at, ws[..|ws| - 1]), at + |ws| - 1, ws[|ws| - 1]);
    }
  }

  function PutDinode(b: Block, slot: nat, ip: Inode): (r: Block)
    requires slot < IPB
  {
    PutWords(b, INODE_WORDS * slot, Fields(ip))
  }

  function GetDinode(b: Block, slot: nat): (ip: Inode)
    requires slot < IPB
  {
    var w := k requires 0 <= k < INODE_WORDS => Word(b, INODE_WORDS * slot + k);
    Inode(w(0) % 0x1_0000, w(0) / 0x1_0000, w(1) % 0x1_0000, w(1) / 0x1_0000, w(2),
          seq(NDIRECT + 1, k requires 0 <= k < NDIRECT + 1 => w(3 + k)))
  }

  /** What iupdate stores, ilock loads, and the other inodes of the block stay. */
  lemma DinodeRoundTrip(b: Block, slot: nat, ip: Inode, other: nat)
    requires slot < IPB && other < IPB
    ensures GetDinode(PutDinode(b, slot, ip), other) == if other == slot then ip else GetDinode(b, other)
  {
    hide Word, PutWord, PutWords;
    PutWordsGet(b, INODE_WORDS * slot, Fields(ip));
    var r := PutDinode(b, slot, ip);
    assert GetDinode(r, other).addrs == (if other == slot then ip else GetDinode(b, other)).addrs;
  }

  // ----- layout -----

  /** The parts of the super block that place inodes, bitmap and data. */
  datatype Super = Super(size: nat, ninodes: nat, inodestart: nat, bmapstart: nat, datastart: nat)

  ghost predicate SuperOk(sb: Super, blocks: nat) {
    && 0 < sb.inodestart && sb.inodestart + sb.ninodes / IPB < sb.bmapstart
    && sb.bmapstart + sb.size / Bitmap.BPB < sb.datastart <= sb.size <= blocks && sb.size < 0x1_0000_0000
  }

  /** Inode i as the disk has it. */
  function OnDisk(sb: Super, d: seq<Block>, i: nat): (ip: Inode)
    requires sb.inodestart + i / IPB < |d|
  {
    GetDinode(d[sb.inodestart + i / IPB], i % IPB)
  }

  // ----- the block map of a file -----

  /** The address of block bn of a file, 0 where there is none. */
  function Ptr(d: seq<Block>, a: Addrs, bn: nat): (p: nat)
    requires bn < MAXFILE
  {
    if bn < NDIRECT then a[bn]
    else if a[NDIRECT] == 0 || a[NDIRECT] >= |d| then 0
    else Word(d[a[NDIRECT]], bn - NDIRECT)
  }

  /** The contents of block bn of a file; a missing block reads as zeroes. */
  function BlockOf(d: seq<Block>, a: Addrs, bn: nat): (b: Block)
    requires bn < MAXFILE
  {
    var p := Ptr(d, a, bn);
    if p == 0 || p >= |d| then Zero() else d[p]
  }

  // ----- ownership -----

  datatype Use = Meta | Free | Held | Data(i: nat, bn: nat) | Indirect(i: nat)

  ghost predicate BitsOk(sb: Super, d: seq<Block>, use: seq<Use>)
    requires SuperOk(sb, |d|)
  {
    |use| == sb.size && forall b: nat :: b < sb.size ==> (Bitmap.Used(d, sb.bmapstart, b) <==> use[b] != Free)
  }

  /** Every address in inode i is recorded as its own. */
  ghost predicate InodeOk(d: seq<Block>, ip: Inode, use: seq<Use>, i: nat) {
    && (ip.addrs[NDIRECT] != 0 ==> ip.addrs[NDIRECT] < |use| && use[ip.addrs[NDIRECT]] == Indirect(i))
    && (forall bn: nat :: bn < MAXFILE && Ptr(d, ip.addrs, bn) != 0 ==>
          Ptr(d, ip.addrs, bn) < |use| && use[Ptr(d, ip.addrs, bn)] == Data(i, bn))
  }

  /** A block recorded as part of a file is. */
  ghost predicate UseOk(d: seq<Block>, ino: seq<Inode>, u: Use, b: nat) {
    match u
    case Data(i, bn) => i < |ino| && bn < MAXFILE && Ptr(d, ino[i].addrs, bn) == b
    case Indirect(i) => i < |ino| && ino[i].addrs[NDIRECT] == b
    case _ => true
  }

  ghost predicate OwnOk(sb: Super, d: seq<Block>, ino: seq<Inode>, use: seq<Use>) {
    && SuperOk(sb, |d|) && BitsOk(sb, d, use)
    && (forall b :: 0 <= b < |use| ==> (use[b] == Meta <==> b < sb.datastart))
    && (forall i :: 0 <= i < |ino| ==> InodeOk(d, ino[i], use, i))
    && (forall b :: 0 <= b < |use| ==> UseOk(d, ino, use[b], b))
  }

  /** Every file has the same blocks with the same contents. */
  ghost predicate SameFiles(d: seq<Block>, ino: seq<Inode>, d': seq<Block>, ino': seq<Inode>) {
    |ino'| == |ino| &&
    forall i, bn: nat :: 0 <= i < |ino| && bn < MAXFILE ==> BlockOf(d', ino'[i].addrs, bn) ==
                                                            BlockOf(d, ino[i].addrs, bn)
  }

  /** No file's addresses change when blocks that are not its indirect block are written. */
  lemma PtrSame(d: seq<Block>, d': seq<Block>, a: Addrs, bn: nat)
    requires |d'| == |d| && bn < MAXFILE
    requires a[NDIRECT] != 0 && a[NDIRECT] < |d| ==> d'[a[NDIRECT]] == d[a[NDIRECT]]
    ensures Ptr(d', a, bn) == Ptr(d, a, bn)
  {
  }

  /** The bitmap lies before the data blocks. */
  lemma MapBlock(sb: Super, c: nat)
    requires sb.bmapstart + sb.size / Bitmap.BPB < sb.datastart && c < sb.size
    ensures sb.bmapstart + c / Bitmap.BPB < sb.datastart
  {
    assert c / Bitmap.BPB <= sb.size / Bitmap.BPB;
  }

  lemma BitsKept(sb: Super, d: seq<Block>, d': seq<Block>, use: seq<Use>)
    requires SuperOk(sb, |d|) && |d'| == |d| && BitsOk(sb, d, use)
    requires forall c :: sb.bmapstart <= c < sb.datastart ==> d'[c] == d[c]
    ensures BitsOk(sb, d', use)
  {
    hide Bitmap.Test;
    forall c: nat | c < sb.size ensures Bitmap.Used(d', sb.bmapstart, c) == Bitmap.Used(d, sb.bmapstart, c) {
      MapBlock(sb, c);
    }
  }

  lemma BitMarked(sb: Super, d: seq<Block>, use: seq<Use>, b: nat, on: bool, u: Use)
    requires SuperOk(sb, |d|) && BitsOk(sb, d, use) && b < sb.size && (on <==> u != Free)
    ensures Bitmap.InMap(d, sb.bmapstart, b) && BitsOk(sb, Bitmap.Marked(d, sb.bmapstart, b, on), use[b := u])
  {
    hide Bitmap.Used, Bitmap.Marked;
    MapBlock(sb, b);
    forall c: nat | c < sb.size ensures Bitmap.Used(Bitmap.Marked(d, sb.bmapstart, b, on), sb.bmapstart, c) <==>
      use[b := u][c] != Free {
      MapBlock(sb, c);
      Bitmap.MarkedBits(d, sb.bmapstart, b, on, c);
    }
  }

  ghost predicate InFile(u: Use) {
    u.Data? || u.Indirect?
  }

  /** Writing blocks that belong to no file leaves ownership and all files alone. */
  lemma OutsideWritten(sb: Super, d: seq<Block>, d': seq<Block>, ino: seq<Inode>, use: seq<Use>, use': seq<Use>)
    requires OwnOk(sb, d, ino, use) && |d'| == |d| && BitsOk(sb, d', use')
    requires forall b :: 0 <= b < |use| && (InFile(use[b]) || InFile(use'[b])) ==> use'[b] == use[b] && d'[b] == d[b]
    requires forall b :: 0 <= b < |use| ==> (use'[b] == Meta <==> use[b] == Meta)
    ensures OwnOk(sb, d', ino, use') && SameFiles(d, ino, d', ino) && SamePtrs(d, ino, d', ino)
  {
    hide Word, Bitmap.Used;
    forall i, bn: nat | 0 <= i < |ino| && bn < MAXFILE
      ensures Ptr(d', ino[i].addrs, bn) == Ptr(d, ino[i].addrs, bn) &&
              BlockOf(d', ino[i].addrs, bn) == BlockOf(d, ino[i].addrs, bn)
    {
      assert InodeOk(d, ino[i], use, i);
      PtrSame(d, d', ino[i].addrs, bn);
    }
    hide Ptr;
    forall i | 0 <= i < |ino| ensures InodeOk(d', ino[i], use', i) {
      assert InodeOk(d, ino[i], use, i);
    }
    forall b | 0 <= b < |use| ensures UseOk(d', ino, use'[b], b) {
      assert UseOk(d, ino, use[b], b);
    }
  }

  /** Every file has the same block addresses. */
  ghost predicate SamePtrs(d: seq<Block>, ino: seq<Inode>, d': seq<Block>, ino': seq<Inode>) {
    |ino'| == |ino| &&
    forall i, bn: nat :: 0 <= i < |ino| && bn < MAXFILE ==> Ptr(d', ino'[i].addrs, bn) == Ptr(d, ino[i].addrs, bn)
  }

  /** The disk after balloc takes block b: its bit set and its contents zeroed. */
  function Allocated(sb: Super, d: seq<Block>, b: nat): (d': seq<Block>)
    requires Bitmap.InMap(d, sb.bmapstart, b) && b < |d|
    ensures |d'| == |d|
  {
    Bitmap.Marked(d, sb.bmapstart, b, true)[b := Zero()]
  }

  lemma AllocatedOk(sb: Super, d: seq<Block>, ino: seq<Inode>, use: seq<Use>, b: nat)
    requires OwnOk(sb, d, ino, use) && b < sb.size && use[b] == Free
    ensures OwnOk(sb, Allocated(sb, d, b), ino, use[b := Held])
    ensures SameFiles(d, ino, Allocated(sb, d, b), ino) && SamePtrs(d, ino, Allocated(sb, d, b), ino)
  {
    hide Ptr, BlockOf, InodeOk, UseOk, Bitmap.Used, Bitmap.Marked;
    var d', use' := Allocated(sb, d, b), use[b := Held];
    BitMarked(sb, d, use, b, true, Held);
    BitsKept(sb, Bitmap.Marked(d, sb.bmapstart, b, true), d', use');
    MapBlock(sb, b);
    OutsideWritten(sb, d, d', ino, use, use');
  }

  /** Writing the contents of one file block changes that block of that file only. */
  lemma DataWritten(sb: Super, d: seq<Block>, ino: seq<Inode>, use: seq<Use>, i: nat, bn: nat, blk: Block)
    requires OwnOk(sb, d, ino, use) && i < |ino| && bn < MAXFILE && Ptr(d, ino[i].addrs, bn) != 0
    ensures var p := Ptr(d, ino[i].addrs, bn);
            p < |d| && OwnOk(sb, d[p := blk], ino, use) && SamePtrs(d, ino, d[p := blk], ino) &&
            forall j, bm: nat :: 0 <= j < |ino| && bm < MAXFILE ==>
              BlockOf(d[p := blk], ino[j].addrs, bm) == if j == i && bm == bn then blk else BlockOf(d, ino[j].addrs, bm)
  {
    hide Word;
    assert InodeOk(d, ino[i], use, i);
    var p := Ptr(d, ino[i].addrs, bn);
    var d' := d[p := blk];
    forall j, bm: nat | 0 <= j < |ino| && bm < MAXFILE
      ensures Ptr(d', ino[j].addrs, bm) == Ptr(d, ino[j].addrs, bm)
      ensures BlockOf(d', ino[j].addrs, bm) == if j == i && bm == bn then blk else BlockOf(d, ino[j].addrs, bm)
    {
      assert InodeOk(d, ino[j], use, j);
      PtrSame(d, d', ino[j].addrs, bm);
    }
    hide Ptr, BlockOf;
    forall j | 0 <= j < |ino| ensures InodeOk(d', ino[j], use, j) {
      assert InodeOk(d, ino[j], use, j);
    }
    forall b | 0 <= b < |use| ensures UseOk(d', ino, use[b], b) {
      assert UseOk(d, ino, use[b], b);
    }
    BitsKept(sb, d, d', use);
  }

  // ----- linking a new block into a file -----

  /** Block bn of file i gains address b; all other addresses stay. */
  ghost predicate PtrAdded(d: seq<Block>, ino: seq<Inode>, d': seq<Block>, ino': seq<Inode>, i: nat, bn: nat, b: nat) {
    |ino'| == |ino| &&
    forall j, bm: nat :: 0 <= j < |ino| && bm < MAXFILE ==>
      Ptr(d', ino'[j].addrs, bm) == if j == i && bm == bn then b else Ptr(d, ino[j].addrs, bm)
  }

  /** A zeroed block that nothing owns becomes block bn of file i: ownership holds and no file reads differently. */
  lemma LinkedOk(sb: Super, d: seq<Block>, ino: seq<Inode>, use: seq<Use>, d': seq<Block>, ino': seq<Inode>, i: nat,
                 bn: nat, b: nat)
    requires OwnOk(sb, d, ino, use) && |d'| == |d| && i < |ino| && bn < MAXFILE
    requires b < sb.size && use[b] == Held && d[b] == Zero() && Ptr(d, ino[i].addrs, bn) == 0
    requires PtrAdded(d, ino, d', ino', i, bn, b)
    requires forall j :: 0 <= j < |ino| ==> ino'[j].addrs[NDIRECT] == ino[j].addrs[NDIRECT]
    requires forall c :: 0 <= c < |d| && !(c < |use| && use[c].Indirect?) ==> d'[c] == d[c]
    ensures OwnOk(sb, d', ino', use[b := Data(i, bn)]) && SameFiles(d, ino, d', ino')
  {
    hide Ptr;
    var use' := use[b := Data(i, bn)];
    assert BitsOk(sb, d, use');
    forall j | 0 <= j < |ino| ensures InodeOk(d', ino'[j], use', j) {
      assert InodeOk(d, ino[j], use, j);
    }
    forall j, bm: nat | 0 <= j < |ino| && bm < MAXFILE ensures BlockOf(d', ino'[j].addrs, bm) ==
      BlockOf(d, ino[j].addrs, bm) {
      assert InodeOk(d, ino[j], use, j);
    }
    forall c | 0 <= c < |use| ensures UseOk(d', ino', use'[c], c) {
      assert UseOk(d, ino, use[c], c);
    }
    BitsKept(sb, d, d', use');
  }

  /** ip->addrs[bn] = b. */
  lemma LinkDirect(sb: Super, d: seq<Block>, ino: seq<Inode>, use: seq<Use>, i: nat, bn: nat, b: nat)
    requires OwnOk(sb, d, ino, use) && i < |ino| && bn < NDIRECT && ino[i].addrs[bn] == 0
    requires b < sb.size && use[b] == Held && d[b] == Zero()
    ensures var ino' := ino[i := ino[i].(addrs := ino[i].addrs[bn := b])];
            OwnOk(sb, d, ino', use[b := Data(i, bn)]) && SameFiles(d, ino, d, ino') &&
              PtrAdded(d, ino, d, ino', i, bn, b)
  {
    var ino' := ino[i := ino[i].(addrs := ino[i].addrs[bn := b])];
    LinkedOk(sb, d, ino, use, d, ino', i, bn, b);
  }

  /** a[bn - NDIRECT] = b in the indirect block. */
  lemma LinkEntry(sb: Super, d: seq<Block>, ino: seq<Inode>, use: seq<Use>, i: nat, bn: nat, b: nat)
    requires OwnOk(sb, d, ino, use) && i < |ino| && NDIRECT <= bn < MAXFILE && ino[i].addrs[NDIRECT] != 0
    requires b < sb.size && use[b] == Held && d[b] == Zero() && Ptr(d, ino[i].addrs, bn) == 0
    ensures var q := ino[i].addrs[NDIRECT];
            q < |d| && var d' := d[q := PutWord(d[q], bn - NDIRECT, b)];
            OwnOk(sb, d', ino, use[b := Data(i, bn)]) && SameFiles(d, ino, d', ino) &&
              PtrAdded(d, ino, d', ino, i, bn, b)
  {
    assert InodeOk(d, ino[i], use, i);
    var q := ino[i].addrs[NDIRECT];
    var d' := d[q := PutWord(d[q], bn - NDIRECT, b)];
    PutWordGet(d[q], bn - NDIRECT, b);
    hide Word, PutWord;
    forall j, bm: nat | 0 <= j < |ino| && bm < MAXFILE
      ensures Ptr(d', ino[j].addrs, bm) == if j == i && bm == bn then b else Ptr(d, ino[j].addrs, bm)
    {
      assert InodeOk(d, ino[j], use, j);
    }
    LinkedOk(sb, d, ino, use, d', ino, i, bn, b);
  }

  /** ip->addrs[NDIRECT] = b, a zeroed block: no file gains or loses a block. */
  lemma LinkIndirect(sb: Super, d: seq<Block>, ino: seq<Inode>, use: seq<Use>, i: nat, b: nat)
    requires OwnOk(sb, d, ino, use) && i < |ino| && ino[i].addrs[NDIRECT] == 0
    requires b < sb.size && use[b] == Held && d[b] == Zero()
    ensures var ino' := ino[i := ino[i].(addrs := ino[i].addrs[NDIRECT := b])];
            OwnOk(sb, d, ino', use[b := Indirect(i)]) && SameFiles(d, ino, d, ino') && SamePtrs(d, ino, d, ino')
  {
    var ino', use' := ino[i := ino[i].(addrs := ino[i].addrs[NDIRECT := b])], use[b := Indirect(i)];
    forall j, bm: nat | 0 <= j < |ino| && bm < MAXFILE ensures Ptr(d, ino'[j].addrs, bm) == Ptr(d, ino[j].addrs, bm) {
    }
    hide Ptr;
    forall j | 0 <= j < |ino| ensures InodeOk(d, ino'[j], use', j) {
      assert InodeOk(d, ino[j], use, j);
    }
    forall c | 0 <= c < |use| ensures UseOk(d, ino', use'[c], c) {
      assert UseOk(d, ino, use[c], c);
    }
  }

  // ----- truncation -----

  /** The uses after the first k blocks of file i are freed. */
  ghost function DroppedTo(use: seq<Use>, i: nat, k: nat): (r: seq<Use>)
    ensures |r| == |use|
  {
    seq(|use|, b requires 0 <= b < |use| => if use[b].Data? && use[b].i == i && use[b].bn < k then Free else use[b])
  }

  /** The uses after all of file i is freed. */
  ghost function Dropped(use: seq<Use>, i: nat): (r: seq<Use>)
    ensures |r| == |use|
  {
    seq(|use|, b requires 0 <= b < |use| => if InFile(use[b]) && use[b].i == i then Free else use[b])
  }

  /** Freeing one more block; it was in use, so bfree does not panic. */
  lemma DropStep(sb: Super, d: seq<Block>, ino: seq<Inode>, use: seq<Use>, i: nat, k: nat)
    requires OwnOk(sb, d, ino, use) && i < |ino| && k < MAXFILE
    ensures var p := Ptr(d, ino[i].addrs, k);
            if p == 0 then DroppedTo(use, i, k + 1) == DroppedTo(use, i, k)
            else sb.datastart <= p < sb.size && DroppedTo(use, i, k)[p] == Data(i, k) &&
                 DroppedTo(use, i, k + 1) == DroppedTo(use, i, k)[p := Free]
  {
    hide Ptr;
    assert InodeOk(d, ino[i], use, i);
    var p := Ptr(d, ino[i].addrs, k);
    forall b | 0 <= b < |use| && b != p ensures use[b] != Data(i, k) {
      assert UseOk(d, ino, use[b], b);
    }
    if p != 0 {
      assert DroppedTo(use, i, k + 1) == DroppedTo(use, i, k)[p := Free];
    } else {
      assert UseOk(d, ino, use[0], 0);
      assert DroppedTo(use, i, k + 1) == DroppedTo(use, i, k);
    }
  }

  lemma {:induction false} NoIndirect(sb: Super, d: seq<Block>, ino: seq<Inode>, use: seq<Use>, i: nat, k: nat)
    requires OwnOk(sb, d, ino, use) && i < |ino| && NDIRECT <= k <= MAXFILE && ino[i].addrs[NDIRECT] == 0
    ensures DroppedTo(use, i, k) == DroppedTo(use, i, NDIRECT)
  {
    if k > NDIRECT {
      NoIndirect(sb, d, ino, use, i, k - 1);
      DropStep(sb, d, ino, use, i, k - 1);
    }
  }

  /** The indirect block goes last. */
  lemma DropIndirect(sb: Super, d: seq<Block>, ino: seq<Inode>, use: seq<Use>, i: nat)
    requires OwnOk(sb, d, ino, use) && i < |ino|
    ensures var q := ino[i].addrs[NDIRECT];
            if q == 0 then Dropped(use, i) == DroppedTo(use, i, MAXFILE)
            else sb.datastart <= q < sb.size && DroppedTo(use, i, MAXFILE)[q] == Indirect(i) &&
                 Dropped(use, i) == DroppedTo(use, i, MAXFILE)[q := Free]
  {
    hide Ptr;
    assert InodeOk(d, ino[i], use, i);
    var q := ino[i].addrs[NDIRECT];
    assert q == 0 ==> UseOk(d, ino, use[0], 0);
    forall b | 0 <= b < |use| ensures (use[b] == Indirect(i) ==> b == q) &&
      (use[b].Data? && use[b].i == i ==> use[b].bn < MAXFILE) {
      assert UseOk(d, ino, use[b], b);
    }
    var r := if q == 0 then DroppedTo(use, i, MAXFILE) else DroppedTo(use, i, MAXFILE)[q := Free];
    assert Dropped(use, i) == r;
  }

  const NO_ADDRS: Addrs := seq(NDIRECT + 1, _ => 0)

  /** With its bits cleared and its addresses gone, file i owns nothing and the other files are as before. */
  lemma TruncatedOk(sb: Super, d: seq<Block>, d': seq<Block>, ino: seq<Inode>, use: seq<Use>, i: nat)
    requires OwnOk(sb, d, ino, use) && i < |ino| && |d'| == |d| && BitsOk(sb, d', Dropped(use, i))
    requires forall c :: sb.datastart <= c < |d| ==> d'[c] == d[c]
    ensures OwnOk(sb, d', ino[i := ino[i].(addrs := NO_ADDRS, size := 0)], Dropped(use, i))
    ensures forall j, bm: nat :: 0 <= j < |ino| && j != i && bm < MAXFILE ==>
              BlockOf(d', ino[j].addrs, bm) == BlockOf(d, ino[j].addrs, bm) &&
                Ptr(d', ino[j].addrs, bm) == Ptr(d, ino[j].addrs, bm)
  {
    hide Word;
    var ino', use' := ino[i := ino[i].(addrs := NO_ADDRS, size := 0)], Dropped(use, i);
    forall j, bm: nat | 0 <= j < |ino| && bm < MAXFILE
      ensures Ptr(d', ino'[j].addrs, bm) == if j == i then 0 else Ptr(d, ino[j].addrs, bm)
      ensures j != i ==> BlockOf(d', ino[j].addrs, bm) == BlockOf(d, ino[j].addrs, bm)
    {
      assert InodeOk(d, ino[j], use, j);
    }
    hide Ptr, BlockOf;
    forall j | 0 <= j < |ino| ensures InodeOk(d', ino'[j], use', j) {
      assert InodeOk(d, ino[j], use, j);
    }
    forall b | 0 <= b < |use| ensures UseOk(d', ino', use'[b], b) {
      assert UseOk(d, ino, use[b], b);
    }
  }
}
