/**
 Directories as bytes (fs.c, sysfile.c): sixteen-byte records in the contents of a
 file, read and written with readi and writei.  Read as entries, they go through
 the operations of module Links.
 */
module Dirents {

  import opened Basics
  import opened Blocks
  import opened Inodes
  import opened Files
  import FileWrite
  import Links

  const DIRENT: nat := 16
  const DIRSIZ: nat := 14
  const T_DIR: nat := 1
  const T_FILE: nat := 2

  // ----- names -----

  /** A C string: no NUL inside. */
  ghost predicate CString(name: string) {
    forall k :: 0 <= k < |name| ==> 0 < name[k] as int < 256
  }

  /** A character of a C string, its NUL included. */
  function CharAt(name: string, k: nat): (b: byte)
    requires CString(name)
  {
    if k < |name| then name[k] as int else 0
  }

  /** Where the first NUL from k on is, or the length. */
  ghost function Nul(bs: seq<byte>, k: nat): (r: nat)
    requires k <= |bs|
    ensures k <= r <= |bs| && (r < |bs| ==> bs[r] == 0) && forall j :: k <= j < r ==> bs[j] != 0
    decreases |bs| - k
  {
    if k == |bs| || bs[k] == 0 then k else Nul(bs, k + 1)
  }

  /** The name in a field of bytes. */
  ghost function Text(bs: seq<byte>): (s: string)
    ensures |s| <= |bs| && CString(s)
  {
    seq(Nul(bs, 0), k requires 0 <= k < Nul(bs, 0) => bs[k] as char)
  }

  /** namecmp, as strncmp over DIRSIZ bytes. */
  method NameCmp(name: string, field: seq<byte>) returns (same: bool)
    requires CString(name) && |field| == DIRSIZ
    ensures same <==> Text(field) == Links.Short(name)
  {
    var i := 0;
    while i < DIRSIZ && CharAt(name, i) != 0 && CharAt(name, i) == field[i]
      invariant 0 <= i <= DIRSIZ && i <= |name|
      invariant forall j :: 0 <= j < i ==> name[j] as int == field[j] && field[j] != 0
    {
      i := i + 1;
    }
    same := i == DIRSIZ || CharAt(name, i) == field[i];
    Compared(name, field, i, same);
  }

  lemma {:induction false} Compared(name: string, field: seq<byte>, i: nat, same: bool)
    requires CString(name) && |field| == DIRSIZ && i <= DIRSIZ && i <= |name|
    requires forall j :: 0 <= j < i ==> name[j] as int == field[j] && field[j] != 0
    requires i < DIRSIZ ==> CharAt(name, i) == 0 || CharAt(name, i) != field[i]
    requires same <==> i == DIRSIZ || CharAt(name, i) == field[i]
    ensures same <==> Text(field) == Links.Short(name)
  {
    var t, s := Text(field), Links.Short(name);
    assert Nul(field, 0) >= i;
    if i == DIRSIZ || i == |name| {
      assert |s| == i;
      if same {
        assert |t| == i;
        assert t == s;
      } else {
        assert |t| > i;
      }
    } else {
      assert s[i] == name[i] && (|t| > i ==> t[i] == field[i] as char);
    }
  }

  /** strncpy of a name into its field. */
  method NameField(name: string) returns (field: seq<byte>)
    requires CString(name)
    ensures |field| == DIRSIZ && forall k :: 0 <= k < DIRSIZ ==> field[k] == CharAt(name, k)
  {
    field := [];
    var n := DIRSIZ;
    while n > 0 && CharAt(name, |field|) != 0
      invariant 0 <= n && |field| == DIRSIZ - n && |field| <= |name|
      invariant forall k :: 0 <= k < |field| ==> field[k] == CharAt(name, k)
      decreases n
    {
      field := field + [CharAt(name, |field|)];
      n := n - 1;
    }
    while n > 0
      invariant 0 <= n && |field| == DIRSIZ - n && (n > 0 ==> |field| >= |name|)
      invariant forall k :: 0 <= k < |field| ==> field[k] == CharAt(name, k)
      decreases n
    {
      field := field + [0];
      n := n - 1;
    }
  }

  /** What strncpy stores, reads back as the name cut to DIRSIZ characters. */
  lemma {:induction false} FieldText(name: string, field: seq<byte>)
    requires CString(name) && |field| == DIRSIZ && forall k :: 0 <= k < DIRSIZ ==> field[k] == CharAt(name, k)
    ensures Text(field) == Links.Short(name)
  {
    var n := Nul(field, 0);
    assert n < DIRSIZ ==> CharAt(name, n) == 0;
    assert |name| < DIRSIZ ==> field[|name|] == 0;
    assert n == |Links.Short(name)|;
  }

  // ----- records -----

  /** struct dirent in sixteen bytes. */
  ghost function Decode(rec: seq<byte>): Links.Entry
    requires |rec| == DIRENT
  {
    var lo: int, hi: int := rec[0], rec[1];
    Links.Entry(lo + 256 * hi, Text(rec[2..]))
  }

  /** The entries in a directory's bytes. */
  ghost function Records(bs: seq<byte>): (es: seq<Links.Entry>)
    ensures |es| == |bs| / DIRENT
  {
    seq(|bs| / DIRENT, k requires 0 <= k < |bs| / DIRENT => Decode(bs[DIRENT * k..DIRENT * k + DIRENT]))
  }

  /** Writing one record changes, or adds, one entry. */
  lemma {:induction false} RecordPut(bs: seq<byte>, k: nat, rec: seq<byte>)
    requires k < |bs| / DIRENT || |bs| == DIRENT * k
    requires |rec| == DIRENT
    ensures var r := Records(Splice(bs, DIRENT * k, rec));
            r == if k < |bs| / DIRENT then Records(bs)[k := Decode(rec)] else Records(bs) + [Decode(rec)]
  {
    hide Decode;
    var bs' := Splice(bs, DIRENT * k, rec);
    var n := |bs'| / DIRENT;
    assert n == Max(|bs| / DIRENT, k + 1);
    forall j | 0 <= j < n
      ensures bs'[DIRENT * j..DIRENT * j + DIRENT] == if j == k then rec else bs[DIRENT * j..DIRENT * j + DIRENT]
    {
      SlotPut(bs, k, rec, j);
    }
  }

  lemma {:induction false} SlotPut(bs: seq<byte>, k: nat, rec: seq<byte>, j: nat)
    requires k < |bs| / DIRENT || |bs| == DIRENT * k
    requires |rec| == DIRENT && j < Max(|bs| / DIRENT, k + 1)
    ensures var bs' := Splice(bs, DIRENT * k, rec);
            DIRENT * j + DIRENT <= |bs'| && (j != k ==> DIRENT * j + DIRENT <= |bs|) &&
            bs'[DIRENT * j..DIRENT * j + DIRENT] == if j == k then rec else bs[DIRENT * j..DIRENT * j + DIRENT]
  {
    var bs' := Splice(bs, DIRENT * k, rec);
    var slot, want := bs'[DIRENT * j..DIRENT * j + DIRENT], if j == k then rec else bs[DIRENT * j..DIRENT * j + DIRENT];
    forall x | 0 <= x < DIRENT ensures slot[x] == want[x] {
      assert slot[x] == bs'[DIRENT * j + x];
    }
  }

  // ----- the files as named nodes -----

  function KindOf(kind: nat): Links.Kind {
    if kind == 0 then Links.Unused else if kind == T_DIR then Links.Directory else if kind == T_FILE then
                                                                                     Links.File else Links.Device
  }

  function Signed(n: short): Links.short {
    if n < 0x8000 then n else n - 0x1_0000
  }

  ghost function Entries(d: seq<Block>, ip: Inode): seq<Links.Entry> {
    if ip.kind == T_DIR && ip.size <= MAXFILE * BSIZE then Records(Contents(d, ip)) else []
  }

  ghost function NodeOf(d: seq<Block>, ip: Inode): Links.Node {
    Links.Node(KindOf(ip.kind), Signed(ip.nlink), Entries(d, ip))
  }

  ghost function Nodes(d: seq<Block>, ino: seq<Inode>): (ns: seq<Links.Node>)
    ensures |ns| == |ino|
  {
    seq(|ino|, i requires 0 <= i < |ino| => NodeOf(d, ino[i]))
  }

  /** Files that read the same have the same contents. */
  lemma {:induction false} SameContents(d: seq<Block>, ip: Inode, d': seq<Block>, ip': Inode)
    requires ip'.size == ip.size <= MAXFILE * BSIZE
    requires forall bn: nat :: bn < MAXFILE ==> BlockOf(d', ip'.addrs, bn) == BlockOf(d, ip.addrs, bn)
    ensures Contents(d', ip') == Contents(d, ip)
  {
    hide BlockOf;
    forall k | 0 <= k < ip.size ensures Contents(d', ip')[k] == Contents(d, ip)[k] {
    }
  }

  lemma {:induction false} SameNode(d: seq<Block>, ip: Inode, d': seq<Block>, ip': Inode)
    requires ip'.kind == ip.kind && ip'.size == ip.size
    requires forall bn: nat :: bn < MAXFILE ==> BlockOf(d', ip'.addrs, bn) == BlockOf(d, ip.addrs, bn)
    ensures Entries(d', ip') == Entries(d, ip)
  {
    hide Contents, BlockOf;
    if ip.size <= MAXFILE * BSIZE {
      SameContents(d, ip, d', ip');
    }
  }

  /** bmap on behalf of a reader changes no name. */
  lemma {:induction false} GrownNodes(sb: Super, d0: seq<Block>, ino0: seq<Inode>, use0: seq<Use>, d: seq<Block>,
                                      ino: seq<Inode>,
                                      use: seq<Use>, i: nat)
    requires Grown(sb, d0, ino0, use0, d, ino, use, i)
    ensures Nodes(d, ino) == Nodes(d0, ino0) && OthersSame(d0, ino0, d, ino, i)
    ensures ino[i].kind == ino0[i].kind && ino[i].size == ino0[i].size
    ensures ino0[i].size <= MAXFILE * BSIZE ==> Contents(d, ino[i]) == Contents(d0, ino0[i])
  {
    hide Contents, BlockOf, Ptr, Entries;
    forall j | 0 <= j < |ino| ensures NodeOf(d, ino[j]) == NodeOf(d0, ino0[j]) {
      SameNode(d0, ino0[j], d, ino[j]);
    }
    if ino0[i].size <= MAXFILE * BSIZE {
      SameContents(d0, ino0[i], d, ino[i]);
    }
  }

  /** An operation on one file changes one node. */
  lemma {:induction false} OneNode(d0: seq<Block>, ino0: seq<Inode>, d: seq<Block>, ino: seq<Inode>, i: nat)
    requires OthersSame(d0, ino0, d, ino, i) && i < |ino|
    ensures Nodes(d, ino) == Nodes(d0, ino0)[i := NodeOf(d, ino[i])]
  {
    hide Contents, BlockOf, Ptr, Entries;
    forall j | 0 <= j < |ino| && j != i ensures NodeOf(d, ino[j]) == NodeOf(d0, ino0[j]) {
      SameNode(d0, ino0[j], d, ino[j]);
    }
  }

  // ----- scanning a directory -----

  /** What a scan of directory dp may change: blocks for holes in it, and no name. */
  ghost predicate Scanned(sb: Super, d0: seq<Block>, ino0: seq<Inode>, use0: seq<Use>, d: seq<Block>, ino: seq<Inode>,
                          use: seq<Use>, dp: nat)
  {
    && Grown(sb, d0, ino0, use0, d, ino, use, dp)
    && (Exact(d0, ino0[dp]) ==> d == d0 && ino == ino0 && use == use0)
  }

  lemma {:induction false} ScannedTrans(sb: Super, d0: seq<Block>, ino0: seq<Inode>, use0: seq<Use>, d1: seq<Block>,
                                        ino1: seq<Inode>,
                                        use1: seq<Use>, d2: seq<Block>, ino2: seq<Inode>, use2: seq<Use>, dp: nat)
    requires Scanned(sb, d0, ino0, use0, d1, ino1, use1, dp) && Scanned(sb, d1, ino1, use1, d2, ino2, use2, dp)
    ensures Scanned(sb, d0, ino0, use0, d2, ino2, use2, dp)
  {
    hide Exact, SameFiles, Ptr;
    ExtendedTrans(sb, d0, ino0, use0, d1, ino1, use1, d2, ino2, use2, dp);
  }

  lemma {:induction false} ScannedNodes(sb: Super, d0: seq<Block>, ino0: seq<Inode>, use0: seq<Use>, d: seq<Block>,
                                        ino: seq<Inode>,
                                        use: seq<Use>, dp: nat)
    requires Scanned(sb, d0, ino0, use0, d, ino, use, dp)
    ensures dp < |ino| == |ino0| && |d| == |d0| && Nodes(d, ino) == Nodes(d0, ino0) && OthersSame(d0, ino0, d, ino, dp)
    ensures ino[dp].kind == ino0[dp].kind && ino[dp].size == ino0[dp].size &&
            Entries(d, ino[dp]) == Entries(d0, ino0[dp])
    ensures Exact(d0, ino0[dp]) ==> d == d0 && ino == ino0 && use == use0
    ensures FieldsSame(ino0, ino) && forall j :: 0 <= j < |ino| ==> ino[j].size == ino0[j].size
  {
    hide Exact, Entries, OthersSame, Ptr;
    GrownNodes(sb, d0, ino0, use0, d, ino, use, dp);
    assert Nodes(d, ino)[dp].entries == Nodes(d0, ino0)[dp].entries;
  }

  lemma {:induction false} ScannedNone(sb: Super, d: seq<Block>, ino: seq<Inode>, use: seq<Use>, dp: nat)
    requires dp < |ino|
    ensures Scanned(sb, d, ino, use, d, ino, use, dp)
  {
    hide Exact, Ptr, BlockOf;
    GrownNone(sb, d, ino, use, dp);
  }

  lemma EntryCount(d: seq<Block>, ip: Inode)
    requires ip.kind == T_DIR && ip.size <= MAXFILE * BSIZE
    ensures |Entries(d, ip)| == ip.size / DIRENT
  {
  }

  /** readi of one record; the callers panic when it comes out short. */
  method ReadRecord(fs: FileSystem, dp: nat, off: word) returns (r: Option<seq<byte>>)
    requires fs.Valid() && dp < fs.inodes.Length && fs.inodes[dp].kind == T_DIR && off % DIRENT == 0 &&
             off < fs.inodes[dp].size
    modifies fs`use, fs`logged, fs.disk, fs.inodes
    ensures fs.Valid() && Scanned(fs.sb, old(fs.disk[..]), old(fs.inodes[..]), old(fs.use), fs.disk[..], fs.inodes[..],
                                  fs.use, dp)
    ensures r.None? ==> off + DIRENT > old(fs.inodes[dp].size) ||
                        (fs.NoFree() && !Exact(old(fs.disk[..]), old(fs.inodes[dp])))
    ensures r.Some? ==> |r.value| == DIRENT && off / DIRENT < |Entries(old(fs.disk[..]), old(fs.inodes[dp]))| &&
                        Decode(r.value) == Entries(old(fs.disk[..]), old(fs.inodes[dp]))[off / DIRENT]
  {
    hide OwnOk, Contents, Exact, NoHole, NoAddrHole, FreeCount, ReadNeed, OnDisk, Decode, Extended, SameFiles;
    ghost var bs := Contents(fs.disk[..], fs.inodes[dp]);
    var b := fs.Readi(dp, off, DIRENT);
    if !b.Bytes? || |b.data| != DIRENT {
      return None;
    }
    assert bs[DIRENT * (off / DIRENT)..DIRENT * (off / DIRENT) + DIRENT] == b.data;
    return Some(b.data);
  }

  /** The inode number of a record. */
  function Inum(rec: seq<byte>): (n: nat)
    requires |rec| == DIRENT
  {
    var lo: int, hi: int := rec[0], rec[1];
    lo + 256 * hi
  }

  lemma RecordMatches(rec: seq<byte>, name: string)
    requires |rec| == DIRENT
    ensures Decode(rec).inum == Inum(rec)
    ensures Links.Matches(Decode(rec), name) <==> Inum(rec) != 0 && Text(rec[2..]) == Links.Short(name)
  {
  }

  /** A scan has come to off, everything before it passed over. */
  ghost predicate Scanning(sb: Super, d0: seq<Block>, ino0: seq<Inode>, use0: seq<Use>, d: seq<Block>, ino: seq<Inode>,
                           use: seq<Use>, dp: nat, off: nat)
  {
    && Scanned(sb, d0, ino0, use0, d, ino, use, dp)
    && ino0[dp].kind == ino[dp].kind == T_DIR && ino[dp].size == ino0[dp].size <= MAXFILE * BSIZE
    && off % DIRENT == 0 && off / DIRENT <= |Entries(d0, ino0[dp])|
  }

  /** One round of a scan. */
  method Scan(fs: FileSystem, dp: nat, off: word, ghost d0: seq<Block>, ghost ino0: seq<Inode>, ghost use0: seq<Use>)
    returns (r: Option<seq<byte>>)
    requires fs.Valid() && dp < fs.inodes.Length && off < fs.inodes[dp].size
    requires Scanning(fs.sb, d0, ino0, use0, fs.disk[..], fs.inodes[..], fs.use, dp, off)
    modifies fs`use, fs`logged, fs.disk, fs.inodes
    ensures fs.Valid() && dp < |ino0| && Scanning(fs.sb, d0, ino0, use0, fs.disk[..], fs.inodes[..], fs.use, dp, off)
    ensures r.None? ==> ScanFails(d0, ino0[dp], off, fs.NoFree())
    ensures r.Some? ==> |r.value| == DIRENT && off / DIRENT < |Entries(d0, ino0[dp])| &&
                        Decode(r.value) == Entries(d0, ino0[dp])[off / DIRENT]
  {
    hide OwnOk, Scanned, Entries, Exact, Nodes, OthersSame, Decode;
    ghost var d1, ino1, use1 := fs.disk[..], fs.inodes[..], fs.use;
    ScannedNodes(fs.sb, d0, ino0, use0, d1, ino1, use1, dp);
    EntryCount(d0, ino0[dp]);
    r := ReadRecord(fs, dp, off);
    ScannedTrans(fs.sb, d0, ino0, use0, d1, ino1, use1, fs.disk[..], fs.inodes[..], fs.use, dp);
    ScannedNodes(fs.sb, d0, ino0, use0, fs.disk[..], fs.inodes[..], fs.use, dp);
  }

  /**
   Why a scan may fail: a size that is no whole number of records, all of them passed, or no block left to
   fill a hole.
   */
  ghost predicate ScanFails(d: seq<Block>, ip: Inode, off: nat, noFree: bool) {
    (ip.size % DIRENT != 0 && off / DIRENT == |Entries(d, ip)|) || (noFree && !Exact(d, ip))
  }

  datatype Lookup = LookupPanic | Missing | At(k: nat, inum: nat)

  /** dirlookup: the first entry in use with the name. */
  method DirLookup(fs: FileSystem, dp: nat, name: string) returns (r: Lookup)
    requires fs.Valid() && dp < fs.inodes.Length && fs.inodes[dp].kind == T_DIR && CString(name)
    modifies fs`use, fs`logged, fs.disk, fs.inodes
    ensures fs.Valid() && Scanned(fs.sb, old(fs.disk[..]), old(fs.inodes[..]), old(fs.use), fs.disk[..], fs.inodes[..],
                                  fs.use, dp)
    ensures r.At? ==> r.k == Links.Find(Entries(old(fs.disk[..]), old(fs.inodes[dp])), name,
                                        0) < |Entries(old(fs.disk[..]), old(fs.inodes[dp]))| &&
                      r.inum == Entries(old(fs.disk[..]), old(fs.inodes[dp]))[r.k].inum
    ensures r.Missing? ==> !Links.Has(Entries(old(fs.disk[..]), old(fs.inodes[dp])), name) &&
                           old(fs.inodes[dp].size) % DIRENT == 0
    ensures r.LookupPanic? ==> ScanFails(old(fs.disk[..]), old(fs.inodes[dp]),
                                         DIRENT * Links.Find(Entries(old(fs.disk[..]), old(fs.inodes[dp])), name,
                                                             0), fs.NoFree())
  {
    hide OwnOk, Scanned, Entries, Exact, Decode, Text;
    ghost var d0, ino0, use0, es := fs.disk[..], fs.inodes[..], fs.use, Entries(fs.disk[..], fs.inodes[dp]);
    EntryCount(d0, ino0[dp]);
    ScannedNone(fs.sb, d0, ino0, use0, dp);
    var off := 0;
    while off < fs.inodes[dp].size
      invariant fs.Valid() && Scanning(fs.sb, d0, ino0, use0, fs.disk[..], fs.inodes[..], fs.use, dp, off)
      invariant off <= ino0[dp].size && Links.Find(es, name, 0) == Links.Find(es, name, off / DIRENT)
      decreases ino0[dp].size - off
    {
      var rec := Scan(fs, dp, off, d0, ino0, use0);
      if rec.None? {
        return LookupPanic;
      }
      RecordMatches(rec.value, name);
      if Inum(rec.value) != 0 {
        var same := NameCmp(name, rec.value[2..]);
        if same {
          return At(off / DIRENT, Inum(rec.value));
        }
      }
      off := off + DIRENT;
    }
    return Missing;
  }

  /** dirlink's second loop: where the first empty record is, or the end. */
  method FindEmpty(fs: FileSystem, dp: nat) returns (r: Option<nat>)
    requires fs.Valid() && dp < fs.inodes.Length && fs.inodes[dp].kind == T_DIR
    modifies fs`use, fs`logged, fs.disk, fs.inodes
    ensures fs.Valid() && Scanned(fs.sb, old(fs.disk[..]), old(fs.inodes[..]), old(fs.use), fs.disk[..], fs.inodes[..],
                                  fs.use, dp)
    ensures r.Some? ==>
              r.value == DIRENT * Links.Empty(Entries(old(fs.disk[..]), old(fs.inodes[dp])), 0) <=
              old(fs.inodes[dp].size)
    ensures r.Some? ==> old(fs.inodes[dp].size) % DIRENT == 0 ||
                        r.value / DIRENT < |Entries(old(fs.disk[..]), old(fs.inodes[dp]))|
    ensures r.None? ==> ScanFails(old(fs.disk[..]), old(fs.inodes[dp]),
                                  DIRENT * Links.Empty(Entries(old(fs.disk[..]), old(fs.inodes[dp])), 0), fs.NoFree())
  {
    hide OwnOk, Scanned, Entries, Exact, Decode, Text;
    ghost var d0, ino0, use0, es := fs.disk[..], fs.inodes[..], fs.use, Entries(fs.disk[..], fs.inodes[dp]);
    EntryCount(d0, ino0[dp]);
    ScannedNone(fs.sb, d0, ino0, use0, dp);
    var off := 0;
    while off < fs.inodes[dp].size
      invariant fs.Valid() && Scanning(fs.sb, d0, ino0, use0, fs.disk[..], fs.inodes[..], fs.use, dp, off)
      invariant off <= ino0[dp].size && Links.Empty(es, 0) == Links.Empty(es, off / DIRENT)
      decreases ino0[dp].size - off
    {
      var rec := Scan(fs, dp, off, d0, ino0, use0);
      if rec.None? {
        return None;
      }
      RecordMatches(rec.value, "");
      if Inum(rec.value) == 0 {
        break;
      }
      off := off + DIRENT;
    }
    return Some(off);
  }

  /** Nothing in use after the dots, and then part of a record. */
  ghost predicate Torn(d: seq<Block>, ip: Inode) {
    ip.size > 2 * DIRENT && ip.size % DIRENT != 0 && Links.Bare(Entries(d, ip))
  }

  /** isdirempty: looks past the dots; None where it panics. */
  method IsDirEmpty(fs: FileSystem, dp: nat) returns (r: Option<bool>)
    requires fs.Valid() && dp < fs.inodes.Length && fs.inodes[dp].kind == T_DIR
    modifies fs`use, fs`logged, fs.disk, fs.inodes
    ensures fs.Valid() && Scanned(fs.sb, old(fs.disk[..]), old(fs.inodes[..]), old(fs.use), fs.disk[..], fs.inodes[..],
                                  fs.use, dp)
    ensures r.Some? ==> (r.value <==> Links.Bare(Entries(old(fs.disk[..]), old(fs.inodes[dp]))))
    ensures r.Some? ==> !Torn(old(fs.disk[..]), old(fs.inodes[dp]))
    ensures r.None? ==> Torn(old(fs.disk[..]), old(fs.inodes[dp])) ||
                        (fs.NoFree() && !Exact(old(fs.disk[..]), old(fs.inodes[dp])))
  {
    hide OwnOk, Scanned, Entries, Exact, Decode, Text;
    ghost var d0, ino0, use0, es := fs.disk[..], fs.inodes[..], fs.use, Entries(fs.disk[..], fs.inodes[dp]);
    EntryCount(d0, ino0[dp]);
    ScannedNone(fs.sb, d0, ino0, use0, dp);
    var off := 2 * DIRENT;
    while off < fs.inodes[dp].size
      invariant fs.Valid() && Scanned(fs.sb, d0, ino0, use0, fs.disk[..], fs.inodes[..], fs.use, dp)
      invariant off < ino0[dp].size ==> Scanning(fs.sb, d0, ino0, use0, fs.disk[..], fs.inodes[..], fs.use, dp, off)
      invariant off % DIRENT == 0 && off >= 2 * DIRENT && fs.inodes[dp].size == ino0[dp].size
      invariant off == 2 * DIRENT || off <= ino0[dp].size
      invariant forall k :: 2 <= k < off / DIRENT && k < |es| ==> es[k].inum == 0
      decreases ino0[dp].size - off
    {
      var rec := Scan(fs, dp, off, d0, ino0, use0);
      if rec.None? {
        return None;
      }
      RecordMatches(rec.value, "");
      if Inum(rec.value) != 0 {
        return Some(false);
      }
      off := off + DIRENT;
    }
    return Some(true);
  }

  // ----- changing a directory -----

  /** The nodes with entry k of directory dp replaced, or one entry added. */
  ghost function PutEntry(ns: seq<Links.Node>, dp: nat, k: nat, e: Links.Entry): seq<Links.Node>
    requires dp < |ns|
  {
    var es := ns[dp].entries;
    ns[dp := ns[dp].(entries := if k < |es| then es[k := e] else es + [e])]
  }

  /** Sizes and addresses aside, the inodes are as before. */
  ghost predicate FieldsSame(ino: seq<Inode>, ino': seq<Inode>) {
    |ino'| == |ino| && forall j :: 0 <= j < |ino| ==> ino'[j] == ino[j].(size := ino'[j].size, addrs := ino'[j].addrs)
  }

  lemma OtherFieldsSame(d: seq<Block>, ino: seq<Inode>, d': seq<Block>, ino': seq<Inode>, i: nat)
    requires OthersSame(d, ino, d', ino', i) && i < |ino|
    requires ino'[i] == ino[i].(size := ino'[i].size, addrs := ino'[i].addrs)
    ensures FieldsSame(ino, ino')
  {
    hide BlockOf, Ptr;
  }

  /** Blocks that writing record k of a directory takes. */
  ghost function RecordNeeds(d: seq<Block>, ip: Inode, k: nat): nat {
    Need(d, ip.addrs, DIRENT * k / BSIZE, SpanEnds(DIRENT * k, DIRENT))
  }

  /** Where dirlink puts a record. */
  ghost function Place(d: seq<Block>, ip: Inode): nat {
    Links.Empty(Entries(d, ip), 0)
  }

  /** A new entry finds no place: the directory is as large as a file can be, or too few blocks are free. */
  ghost predicate NoPlace(d: seq<Block>, ip: Inode, free: nat) {
    DIRENT * Place(d, ip) + DIRENT > MAXFILE * BSIZE || free < RecordNeeds(d, ip, Place(d, ip))
  }

  /** writei of one record; the callers panic when it fails. */
  method PutRecord(fs: FileSystem, dp: nat, k: nat, rec: seq<byte>) returns (ok: bool)
    requires fs.Valid() && dp < fs.inodes.Length && fs.inodes[dp].kind == T_DIR && |rec| == DIRENT
    requires k < fs.inodes[dp].size / DIRENT || fs.inodes[dp].size == DIRENT * k
    modifies fs`use, fs`logged, fs.disk, fs.inodes
    ensures fs.Valid()
    ensures ok <==> DIRENT * k + DIRENT <= MAXFILE * BSIZE &&
                    FreeCount(old(fs.use)) >= RecordNeeds(old(fs.disk[..]), old(fs.inodes[dp]), k)
    ensures ok ==> FreeCount(fs.use) == FreeCount(old(fs.use)) - RecordNeeds(old(fs.disk[..]), old(fs.inodes[dp]), k)
    ensures !ok ==> DIRENT * k + DIRENT > MAXFILE * BSIZE || fs.NoFree()
    ensures DIRENT * k < old(fs.inodes[dp].size) && Exact(old(fs.disk[..]), old(fs.inodes[dp])) ==> ok
    ensures ok ==> Nodes(fs.disk[..], fs.inodes[..]) == PutEntry(Nodes(old(fs.disk[..]), old(fs.inodes[..])), dp, k,
                                                                 Decode(rec))
    ensures ok ==> fs.inodes[dp].size == Max(old(fs.inodes[dp].size), DIRENT * k + DIRENT)
    ensures ok ==> FieldsSame(old(fs.inodes[..]), fs.inodes[..])
    ensures ok ==> OthersSame(old(fs.disk[..]), old(fs.inodes[..]), fs.disk[..], fs.inodes[..], dp)
    ensures ok ==> FileWrite.Keeps(fs.sb, old(fs.disk[..]), old(fs.inodes[..]), fs.disk[..], fs.inodes[..], dp)
  {
    hide OwnOk, Contents, OthersSame, Splice, WriteLogged, PtrsSpan, InodesOnDisk, UsesGrow, OnDisk, NoAddrHole;
    hide SoundFile, Sound, FreeCount, Need, Exact, Records, Decode;
    ghost var d0, ino0, bs := fs.disk[..], fs.inodes[..], Contents(fs.disk[..], fs.inodes[dp]);
    RecordPut(bs, k, rec);
    if DIRENT * k < ino0[dp].size && Exact(d0, ino0[dp]) {
      ExactNeedsNone(d0, ino0[dp], DIRENT * k, DIRENT);
    }
    var w := fs.Writei(dp, DIRENT * k, rec);
    if !w.Wrote? {
      return false;
    }
    OneNode(d0, ino0, fs.disk[..], fs.inodes[..], dp);
    OtherFieldsSame(d0, ino0, fs.disk[..], fs.inodes[..], dp);
    return true;
  }

  datatype DirResult = DirPanic | Exists | Done

  /** The scans of dirlink: whether the name is there, and otherwise where its record goes. */
  method FindPlace(fs: FileSystem, dp: nat, name: string) returns (r: DirResult, k: nat)
    requires fs.Valid() && dp < fs.inodes.Length && fs.inodes[dp].kind == T_DIR && CString(name)
    modifies fs`use, fs`logged, fs.disk, fs.inodes
    ensures fs.Valid() && Scanned(fs.sb, old(fs.disk[..]), old(fs.inodes[..]), old(fs.use), fs.disk[..], fs.inodes[..],
                                  fs.use, dp)
    ensures !r.DirPanic? ==> (r.Exists? <==> Links.Has(Entries(old(fs.disk[..]), old(fs.inodes[dp])), name))
    ensures r.Done? ==> old(fs.inodes[dp].size) % DIRENT == 0 &&
                        k == Links.Empty(Entries(old(fs.disk[..]), old(fs.inodes[dp])), 0)
    ensures r.DirPanic? ==> (old(fs.inodes[dp].size) % DIRENT != 0 &&
                             !Links.Has(Entries(old(fs.disk[..]), old(fs.inodes[dp])), name)) ||
                            (fs.NoFree() && !Exact(old(fs.disk[..]), old(fs.inodes[dp])))
  {
    hide OwnOk, Scanned, Entries, Exact, Nodes, OthersSame;
    k := 0;
    ghost var d0, ino0, use0 := fs.disk[..], fs.inodes[..], fs.use;
    var found := DirLookup(fs, dp, name);
    ghost var d1, ino1, use1 := fs.disk[..], fs.inodes[..], fs.use;
    ScannedNodes(fs.sb, d0, ino0, use0, d1, ino1, use1, dp);
    if !found.Missing? {
      return if found.At? then Exists else DirPanic, k;
    }
    var off := FindEmpty(fs, dp);
    ScannedTrans(fs.sb, d0, ino0, use0, d1, ino1, use1, fs.disk[..], fs.inodes[..], fs.use, dp);
    if off.None? {
      return DirPanic, k;
    }
    return Done, off.value / DIRENT;
  }

  /** dirlink: refuses a name that is there; otherwise the first empty record, or one more at the end. */
  method DirLink(fs: FileSystem, dp: nat, name: string, inum: nat) returns (r: DirResult)
    requires fs.Valid() && dp < fs.inodes.Length && fs.inodes[dp].kind == T_DIR && CString(name)
    modifies fs`use, fs`logged, fs.disk, fs.inodes
    ensures fs.Valid()
    ensures !r.DirPanic? ==> (r.Exists? <==> Links.Has(Entries(old(fs.disk[..]), old(fs.inodes[dp])), name))
    ensures r.Exists? ==> Nodes(fs.disk[..], fs.inodes[..]) == Nodes(old(fs.disk[..]), old(fs.inodes[..]))
    ensures r.Done? ==>
              Nodes(fs.disk[..], fs.inodes[..]) == Links.Entered(Nodes(old(fs.disk[..]), old(fs.inodes[..])), dp, name,
                                                                 inum % 0x1_0000)
    ensures r.DirPanic? ==> LinkFails(Entries(old(fs.disk[..]), old(fs.inodes[dp])), old(fs.inodes[dp].size),
                                      fs.NoFree())
    ensures Exact(old(fs.disk[..]), old(fs.inodes[dp])) ==>
              (r.DirPanic? <==>
               !Links.Has(Entries(old(fs.disk[..]), old(fs.inodes[dp])), name) &&
               (old(fs.inodes[dp].size) % DIRENT != 0 ||
                NoPlace(old(fs.disk[..]), old(fs.inodes[dp]), FreeCount(old(fs.use)))))
    ensures r.Done? && Exact(old(fs.disk[..]), old(fs.inodes[dp])) ==>
              FreeCount(fs.use) == FreeCount(old(fs.use)) -
                                   RecordNeeds(old(fs.disk[..]), old(fs.inodes[dp]),
                                               Place(old(fs.disk[..]), old(fs.inodes[dp])))
    ensures r.Done? ==> fs.inodes[dp].size == Max(old(fs.inodes[dp].size),
                                                  DIRENT * Place(old(fs.disk[..]), old(fs.inodes[dp])) + DIRENT)
    ensures r.Done? ==> fs.inodes[dp].size % DIRENT == 0
    ensures !r.DirPanic? ==> FieldsSame(old(fs.inodes[..]), fs.inodes[..])
    ensures !r.DirPanic? ==> OthersSame(old(fs.disk[..]), old(fs.inodes[..]), fs.disk[..], fs.inodes[..], dp)
    ensures !r.DirPanic? && Sound(fs.sb, old(fs.disk[..]), old(fs.inodes[..])) ==>
            Sound(fs.sb, fs.disk[..], fs.inodes[..])
  {
    hide OwnOk, Scanned, Entries, Exact, Nodes, OthersSame, Decode, Text, SoundFile, Sound, FreeCount, RecordNeeds;
    ghost var d0, ino0, use0 := fs.disk[..], fs.inodes[..], fs.use;
    EntryCount(d0, ino0[dp]);
    NodeAt(d0, ino0, dp);
    if Sound(fs.sb, d0, ino0) {
      SoundExact(fs.sb, d0, ino0, dp);
    }
    var k;
    r, k := FindPlace(fs, dp, name);
    ghost var d1, ino1 := fs.disk[..], fs.inodes[..];
    ScannedNodes(fs.sb, d0, ino0, use0, d1, ino1, fs.use, dp);
    if !r.Done? {
      return;
    }
    var field := NameField(name);
    FieldText(name, field);
    var rec := [inum % 256, inum / 256 % 256] + field;
    RecordIs(inum, field, rec);
    var ok := PutRecord(fs, dp, k, rec);
    if !ok {
      return DirPanic;
    }
    FileWrite.OthersTrans(d0, ino0, d1, ino1, fs.disk[..], fs.inodes[..], dp);
  }

  /**
   Why dirlink may panic: a size that is no whole number of records, a directory of the largest size, or a
   full disk.
   */
  ghost predicate LinkFails(es: seq<Links.Entry>, size: nat, noFree: bool) {
    size % DIRENT != 0 || |es| >= Links.MAXENTRIES || noFree
  }

  lemma RecordIs(inum: nat, field: seq<byte>, rec: seq<byte>)
    requires |field| == DIRSIZ && rec == [inum % 256, inum / 256 % 256] + field
    ensures Decode(rec) == Links.Entry(inum % 0x1_0000, Text(field))
  {
    hide Text;
    assert rec[2..] == field;
  }

  lemma NodeAt(d: seq<Block>, ino: seq<Inode>, i: nat)
    requires i < |ino|
    ensures Nodes(d, ino)[i] == NodeOf(d, ino[i])
  {
  }

  lemma SoundExact(sb: Super, d: seq<Block>, ino: seq<Inode>, i: nat)
    requires Sound(sb, d, ino) && i < |ino|
    ensures Exact(d, ino[i])
  {
    hide Exact;
    assert SoundFile(sb, d, ino, i);
  }

  /** A change of fields other than addresses and size, with iupdate, changes one node and leaves the system sound. */
  lemma {:induction false} FieldsStored(sb: Super, d0: seq<Block>, ino0: seq<Inode>, d: seq<Block>, ino: seq<Inode>,
                                        i: nat)
    requires i < |ino0| == |ino| && ino == ino0[i := ino[i]] && ino[i].addrs == ino0[i].addrs &&
             ino[i].size == ino0[i].size
    requires sb.inodestart + i / IPB < |d0| == |d| && SameFiles(d0, ino, d, ino) && SamePtrs(d0, ino, d, ino)
    requires ino[i].kind == 0 ==> NoBlocks(ino[i])
    requires InodesOnDisk(sb, d0, d, i, ino[i], |ino|)
    ensures Nodes(d, ino) == Nodes(d0, ino0)[i := NodeOf(d0, ino[i])] && SamePtrs(d0, ino0, d, ino)
    ensures Sound(sb, d0, ino0) ==> Sound(sb, d, ino)
  {
    hide BlockOf, Ptr, OnDisk, Contents;
    forall j, bn: nat | 0 <= j < |ino| && bn < MAXFILE
      ensures BlockOf(d, ino[j].addrs, bn) == BlockOf(d0, ino0[j].addrs, bn)
      ensures Ptr(d, ino[j].addrs, bn) == Ptr(d0, ino0[j].addrs, bn)
    {
      assert BlockOf(d, ino[j].addrs, bn) == BlockOf(d0, ino[j].addrs, bn);
      assert Ptr(d, ino[j].addrs, bn) == Ptr(d0, ino[j].addrs, bn);
    }
    OneNode(d0, ino0, d, ino, i);
    SameNode(d0, ino[i], d, ino[i]);
    if Sound(sb, d0, ino0) {
      assert SoundFile(sb, d0, ino0, i);
      assert Exact(d, ino[i]);
      SoundKept(sb, d0, ino0, d, ino, i);
    }
  }

  /** Fields other than addresses and size are set, and iupdate stores them. */
  method Store(fs: FileSystem, i: nat, ip: Inode)
    requires fs.Valid() && i < fs.inodes.Length && ip.addrs == fs.inodes[i].addrs && ip.size == fs.inodes[i].size
    requires ip.kind == 0 ==> NoBlocks(ip)
    modifies fs`logged, fs.disk, fs.inodes
    ensures fs.Valid() && fs.inodes[..] == old(fs.inodes[..])[i := ip] && OnDiskIs(fs.sb, fs.disk[..], i, ip)
    ensures Nodes(fs.disk[..], fs.inodes[..]) == Nodes(old(fs.disk[..]),
                                                       old(fs.inodes[..]))[i := NodeOf(old(fs.disk[..]), ip)]
    ensures SamePtrs(old(fs.disk[..]), old(fs.inodes[..]), fs.disk[..], fs.inodes[..])
    ensures Sound(fs.sb, old(fs.disk[..]), old(fs.inodes[..])) ==> Sound(fs.sb, fs.disk[..], fs.inodes[..])
  {
    hide OwnOk, SameFiles, SamePtrs, InodesOnDisk, OnDisk, Sound, Nodes, NodeOf;
    ghost var d0, ino0 := fs.disk[..], fs.inodes[..];
    SizeOf(fs.sb, d0, ino0, fs.use);
    FileWrite.SetFields(fs, i, ip);
    fs.Iupdate(i);
    FieldsStored(fs.sb, d0, ino0, fs.disk[..], fs.inodes[..], i);
    FileWrite.NowOnDisk(fs.sb, d0, fs.disk[..], i, ip, fs.inodes.Length);
  }

  /** A link count up or down, and iupdate. */
  method AddLink(fs: FileSystem, i: nat, up: bool)
    requires fs.Valid() && i < fs.inodes.Length && fs.inodes[i].kind != 0
    modifies fs`logged, fs.disk, fs.inodes
    ensures fs.Valid() && fs.inodes[..] == old(fs.inodes[..])[i := fs.inodes[i]]
    ensures fs.inodes[i] == old(fs.inodes[i]).(nlink := fs.inodes[i].nlink)
    ensures Nodes(fs.disk[..], fs.inodes[..]) == Links.Counted(Nodes(old(fs.disk[..]), old(fs.inodes[..])), i, up)
    ensures SamePtrs(old(fs.disk[..]), old(fs.inodes[..]), fs.disk[..], fs.inodes[..])
    ensures Sound(fs.sb, old(fs.disk[..]), old(fs.inodes[..])) ==> Sound(fs.sb, fs.disk[..], fs.inodes[..])
  {
    hide OwnOk, Sound, Nodes, Entries, BlockOf, SamePtrs;
    NodeAt(fs.disk[..], fs.inodes[..], i);
    var ip := fs.inodes[i];
    var ip' := ip.(nlink := Moved(ip.nlink, up));
    SameNode(fs.disk[..], ip, fs.disk[..], ip');
    Store(fs, i, ip');
  }

  /** ++ and -- on a 16-bit count. */
  function Moved(n: Inodes.short, up: bool): (m: Inodes.short)
    ensures Signed(m) == if up then Links.Inc(Signed(n)) else Links.Dec(Signed(n))
  {
    (if up then n + 1 else n + 0xFFFF) % 0x1_0000
  }

  /** The end of iput for an inode without links or other references: its blocks go back and its type is cleared. */
  method Reclaim(fs: FileSystem, i: nat)
    requires fs.Valid() && i < fs.inodes.Length && fs.inodes[i].nlink == 0
    modifies fs`use, fs`logged, fs.disk, fs.inodes
    ensures fs.Valid() && fs.use == Dropped(old(fs.use), i)
    ensures Nodes(fs.disk[..], fs.inodes[..]) == Nodes(old(fs.disk[..]),
                                                       old(fs.inodes[..]))[i := Links.Node(Links.Unused, 0, [])]
    ensures SoundFile(fs.sb, fs.disk[..], fs.inodes[..], i)
    ensures Sound(fs.sb, old(fs.disk[..]), old(fs.inodes[..])) ==> Sound(fs.sb, fs.disk[..], fs.inodes[..])
  {
    hide OwnOk, InodesOnDisk, OnDiskIs, Sound, Nodes, OthersSame, SoundFile, Dropped;
    ghost var d0, ino0 := fs.disk[..], fs.inodes[..];
    fs.Itrunc(i);
    OneNode(d0, ino0, fs.disk[..], fs.inodes[..], i);
    Store(fs, i, fs.inodes[i].(kind := 0));
    EmptySound(fs.sb, fs.disk[..], fs.inodes[..], i);
  }

  lemma EmptySound(sb: Super, d: seq<Block>, ino: seq<Inode>, i: nat)
    requires i < |ino| && ino[i].addrs == NO_ADDRS && ino[i].size == 0 && OnDiskIs(sb, d, i, ino[i])
    ensures SoundFile(sb, d, ino, i)
  {
    hide Exact, OnDiskIs;
    EmptyExact(d, ino[i]);
  }

  // ----- link, unlink and create -----

  /** The first half of sys_link. */
  method LinkBegin(fs: FileSystem, ip: nat) returns (ok: bool)
    requires fs.Valid() && ip < fs.inodes.Length && fs.inodes[ip].kind != 0
    modifies fs`logged, fs.disk, fs.inodes
    ensures fs.Valid() && (ok <==> old(fs.inodes[ip].kind) != T_DIR)
    ensures Nodes(fs.disk[..], fs.inodes[..]) ==
            if ok then Links.Counted(Nodes(old(fs.disk[..]), old(fs.inodes[..])), ip, true)
                       else Nodes(old(fs.disk[..]), old(fs.inodes[..]))
    ensures Sound(fs.sb, old(fs.disk[..]), old(fs.inodes[..])) ==> Sound(fs.sb, fs.disk[..], fs.inodes[..])
  {
    hide OwnOk, Nodes, Sound;
    if fs.inodes[ip].kind == T_DIR {
      return false;
    }
    AddLink(fs, ip, true);
    return true;
  }

  /** The second half of sys_link, with the directory nameiparent found. */
  method LinkEnd(fs: FileSystem, ip: nat, dp: nat, name: string) returns (r: DirResult)
    requires fs.Valid() && ip < fs.inodes.Length && dp < fs.inodes.Length && fs.inodes[dp].kind == T_DIR &&
             CString(name)
    requires fs.inodes[ip].kind != 0 && ip < 0x1_0000
    modifies fs`use, fs`logged, fs.disk, fs.inodes
    ensures fs.Valid()
    ensures !r.DirPanic? ==> Nodes(fs.disk[..], fs.inodes[..]) ==
                             Links.LinkEnded(Nodes(old(fs.disk[..]), old(fs.inodes[..])), ip, dp, name)
    ensures !r.DirPanic? ==> (r.Exists? <==> Links.Has(Entries(old(fs.disk[..]), old(fs.inodes[dp])), name))
    ensures Exact(old(fs.disk[..]), old(fs.inodes[dp])) ==>
              (r.DirPanic? <==>
               !Links.Has(Entries(old(fs.disk[..]), old(fs.inodes[dp])), name) &&
               (old(fs.inodes[dp].size) % DIRENT != 0 ||
                NoPlace(old(fs.disk[..]), old(fs.inodes[dp]), FreeCount(old(fs.use)))))
    ensures r.DirPanic? ==> LinkFails(Entries(old(fs.disk[..]), old(fs.inodes[dp])), old(fs.inodes[dp].size),
                                      fs.NoFree())
    ensures !r.DirPanic? && Sound(fs.sb, old(fs.disk[..]), old(fs.inodes[..])) ==>
            Sound(fs.sb, fs.disk[..], fs.inodes[..])
  {
    hide OwnOk, Nodes, Sound, OthersSame, Entries, Exact, FreeCount, RecordNeeds;
    NodeAt(fs.disk[..], fs.inodes[..], dp);
    assert fs.inodes[..][ip].kind != 0;
    r := DirLink(fs, dp, name, ip);
    if r.Exists? {
      AddLink(fs, ip, false);
    }
  }

  datatype UnlinkResult = UnlinkPanic | Refused | Removed

  /** sys_unlink's tests: where the entry is, once nothing stands against removing it. */
  method UnlinkFinds(fs: FileSystem, dp: nat, name: string) returns (r: UnlinkResult, k: nat, ip: nat)
    requires fs.Valid() && dp < fs.inodes.Length && fs.inodes[dp].kind == T_DIR && CString(name)
    requires InRange(Entries(fs.disk[..], fs.inodes[dp]), fs.inodes.Length)
    modifies fs`use, fs`logged, fs.disk, fs.inodes
    ensures fs.Valid() && Nodes(fs.disk[..], fs.inodes[..]) == Nodes(old(fs.disk[..]), old(fs.inodes[..]))
    ensures fs.inodes[dp].kind == T_DIR && fs.inodes[dp].size == old(fs.inodes[dp].size)
    ensures Sound(fs.sb, old(fs.disk[..]), old(fs.inodes[..])) ==>
            fs.disk[..] == old(fs.disk[..]) && fs.inodes[..] == old(fs.inodes[..])
    ensures !r.UnlinkPanic? ==> (r.Refused? <==> Links.Refuses(Nodes(old(fs.disk[..]), old(fs.inodes[..])), dp, name))
    ensures r.Removed? ==> k == Links.Find(Entries(old(fs.disk[..]), old(fs.inodes[dp])), name,
                                           0) < |Entries(old(fs.disk[..]), old(fs.inodes[dp]))| &&
                           ip == Entries(old(fs.disk[..]), old(fs.inodes[dp]))[k].inum < fs.inodes.Length &&
                             fs.inodes[ip].kind != 0
    ensures Sound(fs.sb, old(fs.disk[..]), old(fs.inodes[..])) ==>
              (r.UnlinkPanic? <==> UnlinkFails(old(fs.disk[..]), old(fs.inodes[..]), dp, name))
    ensures r.UnlinkPanic? ==> UnlinkFails(old(fs.disk[..]), old(fs.inodes[..]), dp, name) || fs.NoFree()
  {
    hide OwnOk, Scanned, Entries, Exact, OthersSame, Sound, Nodes;
    r, k, ip := Refused, 0, 0;
    ghost var d0, ino0, use0, es := fs.disk[..], fs.inodes[..], fs.use, Entries(fs.disk[..], fs.inodes[dp]);
    NodeAt(d0, ino0, dp);
    if Sound(fs.sb, d0, ino0) {
      SoundExact(fs.sb, d0, ino0, dp);
    }
    if Links.Short(name) == "." || Links.Short(name) == ".." {
      return;
    }
    var found := DirLookup(fs, dp, name);
    ghost var d1, ino1, use1 := fs.disk[..], fs.inodes[..], fs.use;
    ScannedNodes(fs.sb, d0, ino0, use0, d1, ino1, use1, dp);
    if !found.At? {
      return if found.Missing? then Refused else UnlinkPanic, 0, 0;
    }
    k, ip := found.k, found.inum;
    NodeAt(d0, ino0, ip);
    NodeAt(d1, ino1, ip);
    if fs.inodes[ip].kind == 0 || Signed(fs.inodes[ip].nlink) < 1 {
      return UnlinkPanic, k, ip;
    }
    if fs.inodes[ip].kind == T_DIR {
      if Sound(fs.sb, d0, ino0) {
        SoundExact(fs.sb, d0, ino0, ip);
      }
      var bare := IsDirEmpty(fs, ip);
      ScannedNodes(fs.sb, d1, ino1, use1, fs.disk[..], fs.inodes[..], fs.use, ip);
      if bare.None? {
        return UnlinkPanic, k, ip;
      }
      if !bare.value {
        return;
      }
    }
    r := Removed;
  }

  ghost predicate InRange(es: seq<Links.Entry>, n: nat) {
    forall k :: 0 <= k < |es| ==> es[k].inum < n
  }

  /**
   The inode that unlink must not touch: without a type, without links, or a directory that ends in part of a
   record.
   */
  ghost predicate Unfit(d: seq<Block>, ip: Inode) {
    ip.kind == 0 || Signed(ip.nlink) < 1 || (ip.kind == T_DIR && Torn(d, ip))
  }

  /** When sys_unlink panics on a file system without holes. */
  ghost predicate UnlinkFails(d: seq<Block>, ino: seq<Inode>, dp: nat, name: string)
    requires dp < |ino|
  {
    var es := Entries(d, ino[dp]);
    && Links.Short(name) != "." && Links.Short(name) != ".."
    && if Links.Has(es, name) then Links.Named(es, name) < |ino| && Unfit(d, ino[Links.Named(es, name)])
       else ino[dp].size % DIRENT != 0
  }

  /** sys_unlink in the directory nameiparent found. */
  method Unlink(fs: FileSystem, dp: nat, name: string) returns (r: UnlinkResult)
    requires fs.Valid() && dp < fs.inodes.Length && fs.inodes[dp].kind == T_DIR && CString(name)
    requires InRange(Entries(fs.disk[..], fs.inodes[dp]), fs.inodes.Length)
    modifies fs`use, fs`logged, fs.disk, fs.inodes
    ensures fs.Valid()
    ensures !r.UnlinkPanic? ==> (r.Refused? <==> Links.Refuses(Nodes(old(fs.disk[..]), old(fs.inodes[..])), dp, name))
    ensures !r.UnlinkPanic? ==>
              Nodes(fs.disk[..], fs.inodes[..]) == Links.Unlinked(Nodes(old(fs.disk[..]), old(fs.inodes[..])), dp, name)
    ensures Sound(fs.sb, old(fs.disk[..]), old(fs.inodes[..])) ==>
              (r.UnlinkPanic? <==> UnlinkFails(old(fs.disk[..]), old(fs.inodes[..]), dp, name))
    ensures r.UnlinkPanic? ==> UnlinkFails(old(fs.disk[..]), old(fs.inodes[..]), dp, name) || fs.NoFree()
    ensures !r.UnlinkPanic? && Sound(fs.sb, old(fs.disk[..]), old(fs.inodes[..])) ==>
            Sound(fs.sb, fs.disk[..], fs.inodes[..])
  {
    hide OwnOk, Scanned, Exact, OthersSame, Sound, Torn, Nodes, Entries, Decode, FreeCount, RecordNeeds;
    var k, ip;
    ghost var d0, ino0 := fs.disk[..], fs.inodes[..];
    NodeAt(d0, ino0, dp);
    EntryCount(d0, ino0[dp]);
    r, k, ip := UnlinkFinds(fs, dp, name);
    if !r.Removed? {
      return;
    }
    ghost var d1, ino1 := fs.disk[..], fs.inodes[..];
    if Sound(fs.sb, d0, ino0) {
      SoundExact(fs.sb, d0, ino0, dp);
    }
    var isDir := fs.inodes[ip].kind == T_DIR;
    NodeAt(d1, ino1, ip);
    NodeAt(d0, ino0, ip);
    var rec: seq<byte> := seq(DIRENT, _ => 0);
    ZeroRecord(rec);
    var ok := PutRecord(fs, dp, k, rec);
    if !ok {
      return UnlinkPanic;
    }
    assert fs.inodes[..][dp].kind == ino1[dp].kind && fs.inodes[..][ip].kind == ino1[ip].kind;
    if isDir {
      AddLink(fs, dp, false);
    }
    AddLink(fs, ip, false);
  }

  lemma ZeroRecord(rec: seq<byte>)
    requires |rec| == DIRENT && forall k :: 0 <= k < DIRENT ==> rec[k] == 0
    ensures Decode(rec) == Links.Entry(0, "")
  {
    assert Nul(rec[2..], 0) == 0;
  }

  /** ialloc, and the ilock that loads the new inode: the first one from 1 on that is unused on disk. */
  method Ialloc(fs: FileSystem, kind: Inodes.short) returns (r: Option<nat>)
    requires fs.Valid() && Sound(fs.sb, fs.disk[..], fs.inodes[..]) && kind != 0
    modifies fs`logged, fs.disk, fs.inodes
    ensures fs.Valid() && Sound(fs.sb, fs.disk[..], fs.inodes[..])
    ensures r.None? ==> fs.disk[..] == old(fs.disk[..]) && fs.inodes[..] == old(fs.inodes[..])
    ensures r.None? ==> forall j :: 0 < j < fs.inodes.Length ==> fs.inodes[j].kind != 0
    ensures r.Some? ==> 0 < r.value < fs.inodes.Length && old(fs.inodes[r.value]).kind == 0
    ensures r.Some? ==> forall j :: 0 < j < r.value ==> old(fs.inodes[j]).kind != 0
    ensures r.Some? ==> fs.inodes[..] == old(fs.inodes[..])[r.value := NO_INODE.(kind := kind)]
    ensures r.Some? ==> SamePtrs(old(fs.disk[..]), old(fs.inodes[..]), fs.disk[..], fs.inodes[..])
    ensures r.Some? ==> Nodes(fs.disk[..], fs.inodes[..]) ==
                        Nodes(old(fs.disk[..]), old(fs.inodes[..]))[r.value := Links.Node(KindOf(kind), 0, [])]
  {
    hide OwnOk, Nodes, Sound, GetDinode, Contents;
    var inum := 1;
    SizeOf(fs.sb, fs.disk[..], fs.inodes[..], fs.use);
    while inum < fs.inodes.Length
      invariant fs.disk[..] == old(fs.disk[..]) && fs.inodes[..] == old(fs.inodes[..]) && 0 < inum
      invariant forall j :: 0 < j < inum && j < fs.inodes.Length ==> fs.inodes[j].kind != 0
    {
      SoundAt(fs.sb, fs.disk[..], fs.inodes[..], inum);
      if GetDinode(fs.disk[fs.sb.inodestart + inum / IPB], inum % IPB).kind == 0 {
        var ip := NO_INODE.(kind := kind);
        NoBlocksIs(fs.inodes[inum]);
        assert NodeOf(fs.disk[..], ip).entries == [];
        Store(fs, inum, ip);
        return Some(inum);
      }
      inum := inum + 1;
    }
    return None;
  }

  ghost function WithDots(ns: seq<Links.Node>, ip: nat, dp: nat): seq<Links.Node>
    requires ip < |ns|
  {
    ns[ip := ns[ip].(entries := [Links.Entry(ip, "."), Links.Entry(dp, "..")])]
  }

  lemma TwoDots(ns: seq<Links.Node>, ip: nat, dp: nat)
    requires 0 < ip < |ns| && ns[ip].entries == []
    ensures Links.Entered(ns, ip, ".", ip)[ip].entries == [Links.Entry(ip, ".")]
    ensures !Links.Has([Links.Entry(ip, ".")], "..")
    ensures Links.Entered(Links.Entered(ns, ip, ".", ip), ip, "..", dp) == WithDots(ns, ip, dp)
  {
    var es := Links.Entered(ns, ip, ".", ip)[ip].entries;
    assert Links.Empty(es, 0) == 1;
    assert es + [Links.Entry(dp, "..")] == [Links.Entry(ip, "."), Links.Entry(dp, "..")];
  }

  /** The steps of create, one after the other, make the new node and its entry. */
  lemma Steps(ns: seq<Links.Node>, dp: nat, name: string, kind: Links.Kind, ip: nat)
    requires dp < |ns| && ip < |ns| && dp != ip
    ensures var ns1 := ns[ip := Links.Node(kind, 1, [])];
            Links.Created(ns, dp, name, kind, ip) ==
            Links.Entered(if kind == Links.Directory then WithDots(Links.Counted(ns1, dp, true), ip, dp) else ns1, dp,
                          name, ip)
  {
    hide Links.Add;
    var ns1 := ns[ip := Links.Node(kind, 1, [])];
    var dots := [Links.Entry(ip, "."), Links.Entry(dp, "..")];
    assert WithDots(Links.Counted(ns1, dp, true), ip, dp) ==
           Links.Counted(ns[ip := Links.Node(kind, 1, dots)], dp, true);
  }

  /** What the new inode was before does not matter. */
  lemma AnyNode(ns: seq<Links.Node>, dp: nat, name: string, kind: Links.Kind, ip: nat, x: Links.Node)
    requires dp < |ns| && ip < |ns| && dp != ip
    ensures Links.Created(ns[ip := x], dp, name, kind, ip) == Links.Created(ns, dp, name, kind, ip)
  {
    hide Links.Add;
    var y := Links.Node(kind, 1, if kind == Links.Directory then [Links.Entry(ip, "."), Links.Entry(dp, "..")] else []);
    assert ns[ip := x][ip := y] == ns[ip := y];
  }

  /** The dots of a new directory. */
  method Dots(fs: FileSystem, ip: nat, dp: nat) returns (ok: bool)
    requires fs.Valid() && dp < fs.inodes.Length <= 0x1_0000 && 0 < ip < fs.inodes.Length && ip != dp
    requires fs.inodes[ip].kind == T_DIR && fs.inodes[ip].size == 0
    modifies fs`use, fs`logged, fs.disk, fs.inodes
    ensures fs.Valid() && (!ok ==> fs.NoFree())
    ensures Sound(fs.sb, old(fs.disk[..]), old(fs.inodes[..])) ==> (ok <==> FreeCount(old(fs.use)) >= 1)
    ensures ok && Sound(fs.sb, old(fs.disk[..]), old(fs.inodes[..])) ==> FreeCount(fs.use) + 1 == FreeCount(old(fs.use))
    ensures ok ==> fs.inodes[dp] == old(fs.inodes[dp]) && FieldsSame(old(fs.inodes[..]), fs.inodes[..])
    ensures ok ==> OtherPtrs(old(fs.disk[..]), old(fs.inodes[..]), fs.disk[..], fs.inodes[..], ip)
    ensures ok ==> Nodes(fs.disk[..], fs.inodes[..]) == WithDots(Nodes(old(fs.disk[..]), old(fs.inodes[..])), ip, dp)
    ensures ok && Sound(fs.sb, old(fs.disk[..]), old(fs.inodes[..])) ==> Sound(fs.sb, fs.disk[..], fs.inodes[..])
  {
    hide OwnOk, OthersSame, Sound, Nodes, Entries, WithDots, Links.Entered, Exact, FreeCount, RecordNeeds, OtherPtrs;
    ghost var d0, ino0 := fs.disk[..], fs.inodes[..];
    NodeAt(d0, ino0, ip);
    EntryNone(d0, ino0[ip]);
    TwoDots(Nodes(d0, ino0), ip, dp);
    if Sound(fs.sb, d0, ino0) {
      SoundExact(fs.sb, d0, ino0, ip);
      FirstBlock(d0, ino0[ip], 0);
    }
    var dot := DirLink(fs, ip, ".", ip);
    if !dot.Done? {
      return false;
    }
    ghost var d1, ino1 := fs.disk[..], fs.inodes[..];
    OtherInode(d0, ino0, d1, ino1, ip, dp);
    NodeAt(d1, ino1, ip);
    assert ino1[ip].kind == ino0[ip].kind;
    if Sound(fs.sb, d1, ino1) {
      SoundExact(fs.sb, d1, ino1, ip);
      FirstBlock(d1, ino1[ip], 1);
    }
    var dots := DirLink(fs, ip, "..", dp);
    if !dots.Done? {
      return false;
    }
    OtherInode(d1, ino1, fs.disk[..], fs.inodes[..], ip, dp);
    OtherPtrsTrans(d0, ino0, d1, ino1, fs.disk[..], fs.inodes[..], ip);
    return true;
  }

  lemma OtherPtrsTrans(d0: seq<Block>, ino0: seq<Inode>, d1: seq<Block>, ino1: seq<Inode>, d2: seq<Block>,
                       ino2: seq<Inode>, i: nat)
    requires OthersSame(d0, ino0, d1, ino1, i) && OthersSame(d1, ino1, d2, ino2, i)
    ensures OtherPtrs(d0, ino0, d2, ino2, i)
  {
    hide BlockOf, Ptr;
    forall j, bn: nat | 0 <= j < |ino0| && j != i && bn < MAXFILE
      ensures Ptr(d2, ino2[j].addrs, bn) == Ptr(d0, ino0[j].addrs, bn)
    {
      assert Ptr(d1, ino1[j].addrs, bn) == Ptr(d0, ino0[j].addrs, bn);
    }
  }

  /** The first records of a directory need its first block and no other. */
  lemma {:induction false} FirstBlock(d: seq<Block>, ip: Inode, k: nat)
    requires Exact(d, ip) && k < 2
    ensures RecordNeeds(d, ip, k) == One(ip.size == 0) && Place(d, ip) <= |Entries(d, ip)|
  {
    hide Ptr;
    assert Holes(d, ip.addrs, 0, 0) == 0;
    assert Ptr(d, ip.addrs, 0) != 0 <==> 0 * BSIZE < ip.size;
  }

  /** What a record needs depends on the addresses only. */
  lemma {:induction false} NeedSame(d: seq<Block>, a: Addrs, d': seq<Block>, a': Addrs, lo: nat, hi: nat)
    requires a'[NDIRECT] == a[NDIRECT] && forall bn: nat :: bn < MAXFILE ==> Ptr(d', a', bn) == Ptr(d, a, bn)
    ensures Need(d', a', lo, hi) == Need(d, a, lo, hi)
    decreases hi
  {
    hide Ptr;
    if lo < hi {
      NeedSame(d, a, d', a', lo, hi - 1);
    }
  }

  /** A file has the same block addresses on both disks. */
  ghost predicate SameMap(d: seq<Block>, a: Addrs, d': seq<Block>, a': Addrs) {
    a' == a && forall bn: nat :: bn < MAXFILE ==> Ptr(d', a', bn) == Ptr(d, a, bn)
  }

  lemma MapSame(d: seq<Block>, ino: seq<Inode>, d': seq<Block>, ino': seq<Inode>, j: nat)
    requires SamePtrs(d, ino, d', ino') && j < |ino| && ino'[j].addrs == ino[j].addrs
    ensures SameMap(d, ino[j].addrs, d', ino'[j].addrs)
  {
  }

  lemma MapOther(d: seq<Block>, ino: seq<Inode>, d': seq<Block>, ino': seq<Inode>, i: nat, j: nat)
    requires OtherPtrs(d, ino, d', ino', i) && j < |ino| && j != i && ino'[j].addrs == ino[j].addrs
    ensures SameMap(d, ino[j].addrs, d', ino'[j].addrs)
  {
  }

  /** A directory with the same entries and addresses has the same place for a new one, at the same price. */
  lemma {:induction false} PlaceSame(d: seq<Block>, ip: Inode, d': seq<Block>, ip': Inode, free: nat)
    requires SameMap(d, ip.addrs, d', ip'.addrs) && Entries(d', ip') == Entries(d, ip)
    ensures NoPlace(d', ip', free) <==> NoPlace(d, ip, free)
  {
    hide Ptr, Need, Entries;
    var k := Place(d, ip);
    NeedSame(d, ip.addrs, d', ip'.addrs, DIRENT * k / BSIZE, SpanEnds(DIRENT * k, DIRENT));
  }

  lemma OtherInode(d: seq<Block>, ino: seq<Inode>, d': seq<Block>, ino': seq<Inode>, i: nat, j: nat)
    requires OthersSame(d, ino, d', ino', i) && j < |ino| && j != i
    ensures |ino'| == |ino| && ino'[j] == ino[j]
  {
  }

  /** create once it has an inode: its fields, its dots, its entry. */
  method Fill(fs: FileSystem, ip: nat, dp: nat, name: string, kind: Inodes.short, major: Inodes.short,
              minor: Inodes.short)
    returns (ok: bool)
    requires fs.Valid() && dp < fs.inodes.Length <= 0x1_0000 && 0 < ip < fs.inodes.Length && ip != dp && CString(name)
    requires fs.inodes[ip] == NO_INODE.(kind := kind) && kind != 0 && fs.inodes[dp].kind == T_DIR
    requires !Links.Has(Entries(fs.disk[..], fs.inodes[dp]), name)
    modifies fs`use, fs`logged, fs.disk, fs.inodes
    ensures fs.Valid()
    ensures ok ==> Nodes(fs.disk[..], fs.inodes[..]) ==
                   Links.Created(Nodes(old(fs.disk[..]), old(fs.inodes[..])), dp, name, KindOf(kind), ip)
    ensures ok && Sound(fs.sb, old(fs.disk[..]), old(fs.inodes[..])) ==> Sound(fs.sb, fs.disk[..], fs.inodes[..])
    ensures !ok ==> LinkFails(Entries(old(fs.disk[..]), old(fs.inodes[dp])), old(fs.inodes[dp].size), fs.NoFree())
    ensures ok ==> fs.inodes[ip] == Inode(kind, major, minor, 1, fs.inodes[ip].size, fs.inodes[ip].addrs)
    ensures Sound(fs.sb, old(fs.disk[..]), old(fs.inodes[..])) && old(fs.inodes[dp].size) % DIRENT == 0 ==>
              (!ok <==> NoRoom(old(fs.disk[..]), old(fs.inodes[dp]), kind, FreeCount(old(fs.use))))
  {
    hide OwnOk, OthersSame, Sound, Nodes, Entries, Contents, WithDots, Links.Created, Links.Entered, Links.Has;
    hide SamePtrs, OtherPtrs, Exact, FreeCount, RecordNeeds, Place;
    ghost var d0, ino0 := fs.disk[..], fs.inodes[..];
    NodeAt(d0, ino0, dp);
    Steps(Nodes(d0, ino0), dp, name, KindOf(kind), ip);
    var node := fs.inodes[ip].(major := major, minor := minor, nlink := 1);
    EntryNone(d0, node);
    Store(fs, ip, node);
    MapSame(d0, ino0, fs.disk[..], fs.inodes[..], dp);
    if kind == T_DIR {
      ghost var d1, ino1 := fs.disk[..], fs.inodes[..];
      AddLink(fs, dp, true);
      ghost var d2, ino2 := fs.disk[..], fs.inodes[..];
      MapSame(d1, ino1, d2, ino2, dp);
      ok := Dots(fs, ip, dp);
      if !ok {
        return;
      }
      MapOther(d2, ino2, fs.disk[..], fs.inodes[..], ip, dp);
    }
    NodeAt(fs.disk[..], fs.inodes[..], dp);
    assert Entries(fs.disk[..], fs.inodes[dp]) == Entries(d0,
                                                          ino0[dp]) by { DotsElsewhere(Nodes(d0, ino0), ip, dp,
                                                                                       KindOf(kind)); }
    assert fs.inodes[ip] == node.(size := fs.inodes[ip].size, addrs := fs.inodes[ip].addrs);
    ghost var d3, ino3 := fs.disk[..], fs.inodes[..];
    if Sound(fs.sb, d0, ino0) {
      SoundExact(fs.sb, d3, ino3, dp);
    }
    PlaceSame(d0, ino0[dp], d3, ino3[dp], FreeCount(fs.use));
    var done := DirLink(fs, dp, name, ip);
    ok := done.Done?;
    assert ok ==> fs.inodes[..][ip] == ino3[ip].(size := fs.inodes[ip].size, addrs := fs.inodes[ip].addrs);
  }

  /** A new file finds no room: its dots take one block, its entry what a record needs. */
  ghost predicate NoRoom(d: seq<Block>, ip: Inode, kind: nat, free: nat) {
    free < One(kind == T_DIR) || NoPlace(d, ip, free - One(kind == T_DIR))
  }

  lemma DotsElsewhere(ns: seq<Links.Node>, ip: nat, dp: nat, kind: Links.Kind)
    requires dp < |ns| && ip < |ns| && dp != ip
    ensures var ns1 := ns[ip := Links.Node(kind, 1, [])];
            ns1[dp].entries == ns[dp].entries && WithDots(Links.Counted(ns1, dp, true), ip, dp)[dp].entries ==
              ns[dp].entries
  {
  }

  lemma EntryNone(d: seq<Block>, ip: Inode)
    requires ip.size == 0
    ensures Entries(d, ip) == []
  {
  }

  datatype CreateResult = CreatePanic | NotMade | Found(ip: nat) | Made(ip: nat)

  /** The name leads to an inode without a type. */
  ghost predicate LeadsNowhere(d: seq<Block>, ino: seq<Inode>, dp: nat, name: string) {
    dp < |ino| && Links.Has(Entries(d, ino[dp]), name) &&
    var inum := Entries(d, ino[dp])[Links.Find(Entries(d, ino[dp]), name, 0)].inum;
    inum < |ino| && ino[inum].kind == 0
  }

  /** When create panics: an inode without a type, no inode left, or one of its dirlinks does. */
  ghost predicate CreateFails(d: seq<Block>, ino: seq<Inode>, dp: nat, name: string, kind: nat, free: nat)
    requires dp < |ino|
  {
    if Links.Has(Entries(d, ino[dp]), name) then LeadsNowhere(d, ino, dp, name)
    else ino[dp].size % DIRENT != 0 || NoRoom(d, ino[dp], kind, free) || forall j :: 0 < j < |ino| ==> ino[j].kind != 0
  }

  lemma FoundIn(es: seq<Links.Entry>, name: string, n: nat)
    requires InRange(es, n) && Links.Find(es, name, 0) < |es|
    ensures Links.Has(es, name) && es[Links.Find(es, name, 0)].inum < n
  {
  }

  /** create in the directory nameiparent found. */
  method Create(fs: FileSystem, dp: nat, name: string, kind: Inodes.short, major: Inodes.short,
                minor: Inodes.short) returns (r: CreateResult)
    requires fs.Valid() && dp < fs.inodes.Length <= 0x1_0000 && fs.inodes[dp].kind == T_DIR && CString(name) &&
             kind != 0
    requires Sound(fs.sb, fs.disk[..], fs.inodes[..]) && InRange(Entries(fs.disk[..], fs.inodes[dp]), fs.inodes.Length)
    modifies fs`use, fs`logged, fs.disk, fs.inodes
    ensures fs.Valid()
    ensures r.NotMade? || r.Found? ==> Links.Has(Entries(old(fs.disk[..]), old(fs.inodes[dp])), name) &&
                                       fs.disk[..] == old(fs.disk[..]) && fs.inodes[..] == old(fs.inodes[..])
    ensures !r.CreatePanic? ==> (r.Made? <==> !Links.Has(Entries(old(fs.disk[..]), old(fs.inodes[dp])), name))
    ensures !r.CreatePanic? ==>
              (r.Found? <==> kind == T_FILE && Links.Has(Entries(old(fs.disk[..]), old(fs.inodes[dp])), name) &&
                             var i := Links.Named(Entries(old(fs.disk[..]), old(fs.inodes[dp])), name);
                             i < fs.inodes.Length && old(fs.inodes[..])[i].kind == T_FILE)
    ensures r.Found? ==> r.ip == Links.Named(Entries(old(fs.disk[..]), old(fs.inodes[dp])), name)
    ensures r.Made? ==> r.ip < fs.inodes.Length &&
                        fs.inodes[r.ip] == Inode(kind, major, minor, 1, fs.inodes[r.ip].size, fs.inodes[r.ip].addrs)
    ensures r.Made? ==> !Links.Has(Entries(old(fs.disk[..]), old(fs.inodes[dp])), name) &&
                        0 < r.ip < fs.inodes.Length && r.ip != dp &&
                        old(fs.inodes[r.ip]).kind == 0 && (forall j :: 0 < j < r.ip ==> old(fs.inodes[j]).kind != 0)
    ensures r.Made? ==> Nodes(fs.disk[..], fs.inodes[..]) ==
                        Links.Created(Nodes(old(fs.disk[..]), old(fs.inodes[..])), dp, name, KindOf(kind), r.ip)
    ensures !r.CreatePanic? ==> Sound(fs.sb, fs.disk[..], fs.inodes[..])
    ensures r.CreatePanic? <==>
              CreateFails(old(fs.disk[..]), old(fs.inodes[..]), dp, name, kind, FreeCount(old(fs.use)))
  {
    hide OwnOk, Scanned, Exact, OthersSame, Sound, Nodes, Entries, Links.Created, InRange, NoPlace, FreeCount;
    hide SamePtrs;
    ghost var d0, ino0, use0 := fs.disk[..], fs.inodes[..], fs.use;
    SoundExact(fs.sb, d0, ino0, dp);
    NodeAt(d0, ino0, dp);
    var found := DirLookup(fs, dp, name);
    ScannedNodes(fs.sb, d0, ino0, use0, fs.disk[..], fs.inodes[..], fs.use, dp);
    if found.LookupPanic? {
      return CreatePanic;
    }
    if found.At? {
      var ip := found.inum;
      FoundIn(Entries(d0, ino0[dp]), name, fs.inodes.Length);
      if fs.inodes[ip].kind == 0 {
        return CreatePanic;
      }
      return if kind == T_FILE && fs.inodes[ip].kind == T_FILE then Found(ip) else NotMade;
    }
    var ip := Ialloc(fs, kind);
    if ip.None? {
      return CreatePanic;
    }
    NodeAt(fs.disk[..], fs.inodes[..], dp);
    AnyNode(Nodes(d0, ino0), dp, name, KindOf(kind), ip.value, Links.Node(KindOf(kind), 0, []));
    MapSame(d0, ino0, fs.disk[..], fs.inodes[..], dp);
    PlaceSame(d0, ino0[dp], fs.disk[..], fs.inodes[dp], FreeCount(fs.use));
    if FreeCount(fs.use) > 0 {
      PlaceSame(d0, ino0[dp], fs.disk[..], fs.inodes[dp], FreeCount(fs.use) - 1);
    }
    var ok := Fill(fs, ip.value, dp, name, kind, major, minor);
    return if ok then Made(ip.value) else CreatePanic;
  }
}
