/**
 Crash safety of the redo log.

 A disk is a sequence of blocks that changes one whole block at a time.  The
 writes issued by commit() and by recover_from_log() are given as sequences; a
 crash keeps an arbitrary prefix of the sequence being issued and drops memory.
 */
module Crash {
  import opened Basics
  import opened Blocks

  type Disk = seq<Block>

  datatype Write = Write(addr: nat, data: Block)

  /** log.start and log.size: the header block and the blocks that follow it. */
  datatype Layout = Layout(start: nat, size: nat)

  /** Largest number of data blocks that fit the header and the on-disk log. */
  function Capacity(l: Layout): (c: nat)
  {
    if l.size == 0 then 0 else if l.size - 1 < LOGSIZE then l.size - 1 else LOGSIZE
  }

  predicate InLog(l: Layout, a: nat) {
    l.start <= a < l.start + l.size
  }

  ghost predicate Fits(l: Layout, d: Disk) {
    1 <= l.size && l.start + l.size <= |d|
  }

  /** Block numbers a transaction may hold: distinct, on the disk, outside the log, few enough. */
  ghost predicate Loggable(l: Layout, blocks: seq<nat>, disksize: nat) {
    && |blocks| <= Capacity(l)
    && Distinct(blocks)
    && forall i :: 0 <= i < |blocks| ==> blocks[i] < disksize && !InLog(l, blocks[i])
  }

  // ----- applying writes -----

  ghost predicate InRange(ws: seq<Write>, disksize: nat) {
    forall i :: 0 <= i < |ws| ==> ws[i].addr < disksize
  }

  ghost function Apply(d: Disk, ws: seq<Write>): (r: Disk)
    requires InRange(ws, |d|)
    ensures |r| == |d|
  {
    if ws == [] then d
    else
      var w := ws[|ws| - 1];
      Apply(d, ws[..|ws| - 1])[w.addr := w.data]
  }

  lemma {:induction false} ApplyConcat(d: Disk, ws: seq<Write>, vs: seq<Write>)
    requires InRange(ws, |d|) && InRange(vs, |d|)
    ensures InRange(ws + vs, |d|)
    ensures Apply(d, ws + vs) == Apply(Apply(d, ws), vs)
  {
    if vs == [] {
      assert ws + vs == ws;
    } else {
      var vs' := vs[..|vs| - 1];
      assert (ws + vs)[..|ws + vs| - 1] == ws + vs';
      ApplyConcat(d, ws, vs');
    }
  }

  // ----- the log header -----

  /** The in-memory header list copied over the first words of the header block, as write_head does. */
  ghost function PutHead(b: Block, blocks: seq<nat>): (r: Block)
    requires |blocks| <= LOGSIZE && forall i :: 0 <= i < |blocks| ==> blocks[i] < 0x1_0000_0000
  {
    PutBlocks(PutWord(b, 0, |blocks|), blocks)
  }

  ghost function PutBlocks(b: Block, blocks: seq<nat>): (r: Block)
    requires |blocks| <= LOGSIZE && forall i :: 0 <= i < |blocks| ==> blocks[i] < 0x1_0000_0000
  {
    if blocks == [] then b
    else PutWord(PutBlocks(b, blocks[..|blocks| - 1]), |blocks|, blocks[|blocks| - 1])
  }

  /** The header list found in a header block, as read_head reads it. */
  ghost function GetHead(b: Block): (blocks: seq<nat>)
    requires Word(b, 0) <= LOGSIZE
    ensures |blocks| == Word(b, 0)
  {
    seq(Word(b, 0), i requires 0 <= i < Word(b, 0) => Word(b, i + 1))
  }

  lemma {:induction false} PutBlocksWords(b: Block, blocks: seq<nat>)
    requires |blocks| <= LOGSIZE && forall i :: 0 <= i < |blocks| ==> blocks[i] < 0x1_0000_0000
    ensures Word(PutBlocks(b, blocks), 0) == Word(b, 0)
    ensures forall i :: 0 <= i < |blocks| ==> Word(PutBlocks(b, blocks), i + 1) == blocks[i]
  {
    if blocks != [] {
      var rest := blocks[..|blocks| - 1];
      PutBlocksWords(b, rest);
      PutWordGet(PutBlocks(b, rest), |blocks|, blocks[|blocks| - 1]);
      forall i | 0 <= i < |rest| ensures Word(PutBlocks(b, blocks), i + 1) == blocks[i] {
        assert rest[i] == blocks[i];
      }
    }
  }

  /** What write_head stores, read_head reads back, whatever the block held before. */
  lemma HeadRoundTrip(b: Block, blocks: seq<nat>)
    requires |blocks| <= LOGSIZE && forall i :: 0 <= i < |blocks| ==> blocks[i] < 0x1_0000_0000
    ensures Word(PutHead(b, blocks), 0) == |blocks|
    ensures GetHead(PutHead(b, blocks)) == blocks
  {
    PutWordGet(b, 0, |blocks|);
    PutBlocksWords(PutWord(b, 0, |blocks|), blocks);
  }

  // ----- what a disk means -----

  ghost predicate HeadOk(l: Layout, d: Disk) {
    Fits(l, d) && Word(d[l.start], 0) <= LOGSIZE && Loggable(l, GetHead(d[l.start]), |d|)
  }

  ghost function Head(l: Layout, d: Disk): seq<nat>
    requires HeadOk(l, d)
  {
    GetHead(d[l.start])
  }

  /** Position of a in s, or |s| when absent. */
  ghost function IndexOf(s: seq<nat>, a: nat): (k: nat)
    ensures k <= |s|
    ensures k < |s| ==> s[k] == a
    ensures forall i :: 0 <= i < k ==> s[i] != a
  {
    if s == [] then 0 else if s[0] == a then 0 else 1 + IndexOf(s[1..], a)
  }

  /** Contents of block a with the listed blocks replaced by the given contents. */
  ghost function OverlayAt(d: Disk, blocks: seq<nat>, contents: seq<Block>, a: nat): Block
    requires |contents| == |blocks| && a < |d|
  {
    var k := IndexOf(blocks, a);
    if k < |blocks| then contents[k] else d[a]
  }

  ghost function LogContents(l: Layout, d: Disk, n: nat): (c: seq<Block>)
    requires l.start + n < |d|
    ensures |c| == n
  {
    d[l.start + 1..l.start + 1 + n]
  }

  /** The home blocks as recovery will leave them: the committed log laid over the disk. */
  ghost function LogicalAt(l: Layout, d: Disk, a: nat): Block
    requires HeadOk(l, d) && a < |d|
  {
    OverlayAt(d, Head(l, d), LogContents(l, d, |Head(l, d)|), a)
  }

  ghost predicate SameLogical(l: Layout, d: Disk, e: Disk)
    requires HeadOk(l, d) && HeadOk(l, e)
  {
    |d| == |e| && forall a: nat :: a < |d| && !InLog(l, a) ==> LogicalAt(l, d, a) == LogicalAt(l, e, a)
  }

  /** Home blocks of d are the logical contents of e. */
  ghost predicate Installed(l: Layout, d: Disk, e: Disk)
    requires HeadOk(l, e)
  {
    |d| == |e| && forall a: nat :: a < |d| && !InLog(l, a) ==> d[a] == LogicalAt(l, e, a)
  }

  // ----- write sequences -----

  ghost function LogWrites(l: Layout, contents: seq<Block>): (ws: seq<Write>)
  {
    seq(|contents|, i requires 0 <= i < |contents| => Write(l.start + 1 + i, contents[i]))
  }

  ghost function HomeWrites(blocks: seq<nat>, contents: seq<Block>): (ws: seq<Write>)
    requires |blocks| == |contents|
  {
    seq(|blocks|, i requires 0 <= i < |blocks| => Write(blocks[i], contents[i]))
  }

  /** recover_from_log on a freshly booted machine: the disk alone decides. */
  ghost function RecoverWrites(l: Layout, d: Disk): (ws: seq<Write>)
    requires HeadOk(l, d)
  {
    HomeWrites(Head(l, d), LogContents(l, d, |Head(l, d)|)) + [Write(l.start, PutHead(d[l.start], []))]
  }

  /** commit() of the given blocks and contents on a disk d. */
  ghost function CommitWrites(l: Layout, d: Disk, blocks: seq<nat>, contents: seq<Block>): (ws: seq<Write>)
    requires Fits(l, d) && |d| <= 0x1_0000_0000
    requires Loggable(l, blocks, |d|) && |contents| == |blocks|
  {
    if blocks == [] then []
    else
      var h := PutHead(d[l.start], blocks);
      LogWrites(l, contents) + [Write(l.start, h)] +
      HomeWrites(blocks, contents) + [Write(l.start, PutHead(h, []))]
  }

  lemma {:induction false} ApplyHome(d: Disk, blocks: seq<nat>, contents: seq<Block>, k: nat)
    requires |blocks| == |contents| && k <= |blocks| && Distinct(blocks)
    requires forall i :: 0 <= i < |blocks| ==> blocks[i] < |d|
    ensures InRange(HomeWrites(blocks, contents)[..k], |d|)
    ensures forall a: nat :: a < |d| ==>
              Apply(d, HomeWrites(blocks, contents)[..k])[a] ==
              if IndexOf(blocks, a) < k then contents[IndexOf(blocks, a)] else d[a]
  {
    var ws := HomeWrites(blocks, contents);
    if k > 0 {
      ApplyHome(d, blocks, contents, k - 1);
      assert ws[..k][..k - 1] == ws[..k - 1];
      var p := Apply(d, ws[..k - 1]);
      assert Apply(d, ws[..k]) == p[blocks[k - 1] := contents[k - 1]];
      assert IndexOf(blocks, blocks[k - 1]) == k - 1;
    }
  }

  // ----- recovery -----

  /** A crash after any k writes of recovery: the disk still means the same. */
  lemma RecoverPrefix(l: Layout, d: Disk, k: nat)
    requires HeadOk(l, d) && k <= |Head(l, d)|
    ensures InRange(RecoverWrites(l, d)[..k], |d|)
    ensures var e := Apply(d, RecoverWrites(l, d)[..k]);
            HeadOk(l, e) && Head(l, e) == Head(l, d) && SameLogical(l, d, e) && e[l.start] == d[l.start] &&
            (k == |Head(l, d)| ==> Installed(l, e, d))
  {
    var blocks := Head(l, d);
    var contents := LogContents(l, d, |blocks|);
    ApplyHome(d, blocks, contents, k);
    assert RecoverWrites(l, d)[..k] == HomeWrites(blocks, contents)[..k];
    var e := Apply(d, RecoverWrites(l, d)[..k]);
    forall a: nat | a < |d| && InLog(l, a) ensures e[a] == d[a] {
      assert IndexOf(blocks, a) == |blocks|;
    }
    assert LogContents(l, e, |blocks|) == contents;
    forall a: nat | a < |d| && !InLog(l, a) ensures LogicalAt(l, d, a) == LogicalAt(l, e, a) {
    }
  }

  /** Recovery run to its end installs the committed contents and empties the header. */
  lemma RecoverAll(l: Layout, d: Disk)
    requires HeadOk(l, d)
    ensures InRange(RecoverWrites(l, d), |d|)
    ensures var e := Apply(d, RecoverWrites(l, d));
            HeadOk(l, e) && Head(l, e) == [] && Installed(l, e, d) && SameLogical(l, d, e)
  {
    var n := |Head(l, d)|;
    var ws := RecoverWrites(l, d);
    RecoverPrefix(l, d, n);
    assert ws == ws[..n] + [ws[n]];
    var p := Apply(d, ws[..n]);
    var e := Apply(d, ws);
    assert ws[..|ws| - 1] == ws[..n];
    assert e == p[l.start := PutHead(d[l.start], [])];
    HeadRoundTrip(d[l.start], []);
    forall a: nat | a < |d| && !InLog(l, a)
      ensures e[a] == LogicalAt(l, d, a) && LogicalAt(l, e, a) == e[a]
    {
      assert e[a] == p[a];
    }
  }

  /** The disk after recovery is cut short by crashes, once per element of cuts. */
  ghost function Crashes(l: Layout, d: Disk, cuts: seq<nat>): (e: Disk)
    requires HeadOk(l, d)
    ensures HeadOk(l, e) && SameLogical(l, d, e)
    decreases |cuts|
  {
    if cuts == [] then d
    else
      var ws := RecoverWrites(l, d);
      var k := if cuts[0] < |ws| then cuts[0] else |ws|;
      if k == |ws| then
        RecoverAll(l, d);
        assert ws[..k] == ws;
        Crashes(l, Apply(d, ws[..k]), cuts[1..])
      else
        RecoverPrefix(l, d, k);
        Crashes(l, Apply(d, ws[..k]), cuts[1..])
  }

  /** Reboot: any number of interrupted recoveries and then a complete one. */
  ghost function Reboot(l: Layout, d: Disk, cuts: seq<nat>): (e: Disk)
    requires HeadOk(l, d)
    ensures HeadOk(l, e) && Head(l, e) == [] && Installed(l, e, d)
  {
    var c := Crashes(l, d, cuts);
    RecoverAll(l, c);
    Apply(c, RecoverWrites(l, c))
  }

  // ----- commit -----

  /** Block a after the first k writes of a commit. */
  ghost function CommitAt(l: Layout, d: Disk, blocks: seq<nat>, contents: seq<Block>, k: nat, a: nat): Block
    requires Fits(l, d) && |d| <= 0x1_0000_0000
    requires Loggable(l, blocks, |d|) && |contents| == |blocks| && a < |d|
  {
    var n := |blocks|;
    var h := PutHead(d[l.start], blocks);
    if a == l.start then (if k <= n then d[a] else if k <= 2 * n + 1 then h else PutHead(h, []))
    else if l.start + 1 <= a <= l.start + n && a <= l.start + k then contents[a - l.start - 1]
    else if IndexOf(blocks, a) < n && IndexOf(blocks, a) + n + 1 < k then contents[IndexOf(blocks, a)]
    else d[a]
  }

  lemma CommitStep(l: Layout, d: Disk, blocks: seq<nat>, contents: seq<Block>, k: nat, a: nat)
    requires Fits(l, d) && |d| <= 0x1_0000_0000
    requires Loggable(l, blocks, |d|) && |contents| == |blocks| && a < |d|
    requires k < |CommitWrites(l, d, blocks, contents)|
    ensures var w := CommitWrites(l, d, blocks, contents)[k];
            w.addr < |d| &&
            CommitAt(l, d, blocks, contents, k + 1, a) ==
            if a == w.addr then w.data else CommitAt(l, d, blocks, contents, k, a)
  {
    var ws, n := CommitWrites(l, d, blocks, contents), |blocks|;
    if k < n {
      assert ws[k] == LogWrites(l, contents)[k] == Write(l.start + 1 + k, contents[k]);
      assert IndexOf(blocks, l.start + 1 + k) == n;
    } else if k == n {
      assert ws[k] == Write(l.start, PutHead(d[l.start], blocks));
    } else if k <= 2 * n {
      var i := k - n - 1;
      assert ws[k] == HomeWrites(blocks, contents)[i] == Write(blocks[i], contents[i]);
      assert IndexOf(blocks, blocks[i]) == i;
    } else {
      assert ws[k].addr == l.start;
    }
  }

  lemma {:induction false} CommitDisk(l: Layout, d: Disk, blocks: seq<nat>, contents: seq<Block>, k: nat)
    requires Fits(l, d) && |d| <= 0x1_0000_0000
    requires Loggable(l, blocks, |d|) && |contents| == |blocks|
    requires k <= |CommitWrites(l, d, blocks, contents)|
    ensures InRange(CommitWrites(l, d, blocks, contents)[..k], |d|)
    ensures forall a: nat :: a < |d| ==>
              Apply(d, CommitWrites(l, d, blocks, contents)[..k])[a] == CommitAt(l, d, blocks, contents, k, a)
  {
    if k > 0 {
      var ws := CommitWrites(l, d, blocks, contents);
      CommitDisk(l, d, blocks, contents, k - 1);
      assert ws[..k][..k - 1] == ws[..k - 1];
      forall a: nat | a < |d|
        ensures ws[k - 1].addr < |d|
        ensures CommitAt(l, d, blocks, contents, k, a) ==
                if a == ws[k - 1].addr then ws[k - 1].data else CommitAt(l, d, blocks, contents, k - 1, a)
      {
        CommitStep(l, d, blocks, contents, k - 1, a);
      }
      assert |d| > 0;
    }
  }

  lemma MeaningEmpty(l: Layout, e: Disk)
    requires Fits(l, e) && Word(e[l.start], 0) == 0
    ensures HeadOk(l, e) && Head(l, e) == []
    ensures forall a: nat :: a < |e| ==> LogicalAt(l, e, a) == e[a]
  {
  }

  lemma MeaningLogged(l: Layout, d: Disk, e: Disk, blocks: seq<nat>, contents: seq<Block>)
    requires Fits(l, d) && |e| == |d| && Loggable(l, blocks, |d|) && |contents| == |blocks|
    requires Word(e[l.start], 0) == |blocks| && GetHead(e[l.start]) == blocks
    requires forall i :: 0 <= i < |blocks| ==> e[l.start + 1 + i] == contents[i]
    requires forall a: nat :: a < |d| && !InLog(l, a) ==> IndexOf(blocks, a) == |blocks| ==> e[a] == d[a]
    ensures HeadOk(l, e)
    ensures forall a: nat :: a < |d| && !InLog(l, a) ==> LogicalAt(l, e, a) == OverlayAt(d, blocks, contents, a)
  {
    assert Head(l, e) == blocks;
    assert LogContents(l, e, |blocks|) == contents;
    forall a: nat | a < |d| && !InLog(l, a) ensures LogicalAt(l, e, a) == OverlayAt(d, blocks, contents, a) {
      assert LogicalAt(l, e, a) == OverlayAt(e, blocks, contents, a);
    }
  }

  /** Header block and home blocks of any disk that holds the first k writes of a commit. */
  lemma CommitMeaning(l: Layout, d: Disk, e: Disk, blocks: seq<nat>, contents: seq<Block>, k: nat)
    requires HeadOk(l, d) && Head(l, d) == [] && |d| <= 0x1_0000_0000 && |e| == |d|
    requires Loggable(l, blocks, |d|) && |contents| == |blocks| && blocks != []
    requires forall a: nat :: a < |d| ==> e[a] == CommitAt(l, d, blocks, contents, k, a)
    ensures HeadOk(l, e) && (k > 2 * |blocks| + 1 ==> Head(l, e) == [])
    ensures forall a: nat :: a < |d| && !InLog(l, a) ==>
              LogicalAt(l, e, a) == if k <= |blocks| then d[a] else OverlayAt(d, blocks, contents, a)
  {
    var n := |blocks|;
    HeadRoundTrip(d[l.start], blocks);
    HeadRoundTrip(PutHead(d[l.start], blocks), []);
    if n < k <= 2 * n + 1 {
      MeaningLogged(l, d, e, blocks, contents);
    } else {
      MeaningEmpty(l, e);
    }
  }

  /** The commit point: the header write, number |blocks|, and no other write, changes the meaning. */
  lemma CommitPrefix(l: Layout, d: Disk, blocks: seq<nat>, contents: seq<Block>, k: nat)
    requires HeadOk(l, d) && Head(l, d) == [] && |d| <= 0x1_0000_0000
    requires Loggable(l, blocks, |d|) && |contents| == |blocks|
    requires k <= |CommitWrites(l, d, blocks, contents)|
    ensures InRange(CommitWrites(l, d, blocks, contents)[..k], |d|)
    ensures var e := Apply(d, CommitWrites(l, d, blocks, contents)[..k]);
            HeadOk(l, e) && (k == |CommitWrites(l, d, blocks, contents)| ==> Head(l, e) == []) &&
            forall a: nat :: a < |d| && !InLog(l, a) ==>
              LogicalAt(l, e, a) == if k <= |blocks| then d[a] else OverlayAt(d, blocks, contents, a)
  {
    CommitDisk(l, d, blocks, contents, k);
    if blocks == [] {
      MeaningEmpty(l, d);
    } else {
      CommitMeaning(l, d, Apply(d, CommitWrites(l, d, blocks, contents)[..k]), blocks, contents, k);
    }
  }

  /**
   Crash atomicity.  A crash after any k of commit's writes, then any number of
   crashes inside recovery, then a finished recovery: the home blocks are
   exactly the old ones when the header write had not happened, and exactly the
   old ones overlaid with the whole transaction when it had.
   */
  lemma CrashAtomicity(l: Layout, d: Disk, blocks: seq<nat>, contents: seq<Block>, k: nat, cuts: seq<nat>)
    requires HeadOk(l, d) && Head(l, d) == [] && |d| <= 0x1_0000_0000
    requires Loggable(l, blocks, |d|) && |contents| == |blocks|
    requires k <= |CommitWrites(l, d, blocks, contents)|
    ensures InRange(CommitWrites(l, d, blocks, contents)[..k], |d|)
    ensures var e := Apply(d, CommitWrites(l, d, blocks, contents)[..k]);
            HeadOk(l, e) &&
            var f := Reboot(l, e, cuts);
            |f| == |d| && Head(l, f) == [] &&
            (k <= |blocks| ==> forall a: nat :: a < |d| && !InLog(l, a) ==> f[a] == d[a]) &&
            (k > |blocks| ==> forall a: nat :: a < |d| && !InLog(l, a) ==>
              f[a] == OverlayAt(d, blocks, contents, a))
  {
    CommitPrefix(l, d, blocks, contents, k);
  }
}
