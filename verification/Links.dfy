/**
 Directories and link counts (sysfile.c, fs.c).

 A directory is the sequence of its entries; inode number 0 marks an empty one.
 The first two are "." and "..".  Names are compared on their first DIRSIZ bytes.
 */
module Links {

  import opened Basics

  const DIRSIZ: nat := 14
  const MAXENTRIES: nat := 4480  // MAXFILE * BSIZE / 16
  const ROOT: nat := 1
  const MAXLINK: int := 32767    // the largest short

  type short = n: int | -0x8000 <= n <= 0x7FFF
  datatype Kind = Unused | Directory | File | Device
  datatype Entry = Entry(inum: nat, name: string)
  datatype Node = Node(kind: Kind, nlink: short, entries: seq<Entry>)

  /** A directory whose entries count. */
  predicate Live(n: Node) {
    n.kind == Directory && n.nlink > 0
  }

  // ----- names -----

  /** The part of a name that namecmp looks at. */
  function Short(name: string): (s: string)
    ensures |s| <= DIRSIZ
  {
    if |name| <= DIRSIZ then name else name[..DIRSIZ]
  }

  /** namecmp(name, e.name) == 0 for an entry in use. */
  predicate Matches(e: Entry, name: string) {
    e.inum != 0 && Short(e.name) == Short(name)
  }

  /** The first entry from k on with this name, or the number of entries. */
  function Find(es: seq<Entry>, name: string, k: nat): (r: nat)
    requires k <= |es|
    ensures k <= r <= |es|
    ensures forall j :: k <= j < r ==> !Matches(es[j], name)
    ensures r < |es| ==> Matches(es[r], name)
    decreases |es| - k
  {
    if k == |es| || Matches(es[k], name) then k else Find(es, name, k + 1)
  }

  /** The first empty entry from k on, or the number of entries. */
  function Empty(es: seq<Entry>, k: nat): (r: nat)
    requires k <= |es|
    ensures k <= r <= |es|
    ensures forall j :: k <= j < r ==> es[j].inum != 0
    ensures r < |es| ==> es[r].inum == 0
    decreases |es| - k
  {
    if k == |es| || es[k].inum == 0 then k else Empty(es, k + 1)
  }

  /** The entries with one more, in the first empty place. */
  function Add(es: seq<Entry>, e: Entry): (r: seq<Entry>) {
    var k := Empty(es, 0);
    if k < |es| then es[k := e] else es + [e]
  }

  predicate Has(es: seq<Entry>, name: string) {
    Find(es, name, 0) < |es|
  }

  /** The inode the first entry with this name gives. */
  function Named(es: seq<Entry>, name: string): (i: nat)
    requires Has(es, name)
  {
    es[Find(es, name, 0)].inum
  }

  /** No entry after the dots is in use. */
  predicate Bare(es: seq<Entry>) {
    forall k :: 2 <= k < |es| ==> es[k].inum == 0
  }

  // ----- link counts are shorts -----

  function Inc(n: short): short {
    if n == MAXLINK then -MAXLINK - 1 else n + 1
  }

  function Dec(n: short): short {
    if n == -MAXLINK - 1 then MAXLINK else n - 1
  }

  // ----- the operations on values -----

  function Counted(s: seq<Node>, i: nat, up: bool): (r: seq<Node>)
    requires i < |s|
  {
    s[i := s[i].(nlink := if up then Inc(s[i].nlink) else Dec(s[i].nlink))]
  }

  function Entered(s: seq<Node>, dp: nat, name: string, inum: nat): (r: seq<Node>)
    requires dp < |s|
  {
    s[dp := s[dp].(entries := Add(s[dp].entries, Entry(inum, Short(name))))]
  }

  /** The second half of sys_link: the entry, or the count taken back. */
  function LinkEnded(s: seq<Node>, ip: nat, dp: nat, name: string): (r: seq<Node>)
    requires ip < |s| && dp < |s|
  {
    if Has(s[dp].entries, name) then Counted(s, ip, false) else Entered(s, dp, name, ip)
  }

  predicate Refuses(s: seq<Node>, dp: nat, name: string)
    requires dp < |s|
  {
    var k := Find(s[dp].entries, name, 0);
    Short(name) == "." || Short(name) == ".." || k == |s[dp].entries| || s[dp].entries[k].inum >= |s| ||
    (s[s[dp].entries[k].inum].kind == Directory && !Bare(s[s[dp].entries[k].inum].entries))
  }

  /** sys_unlink: the entry cleared and the counts lowered. */
  function Unlinked(s: seq<Node>, dp: nat, name: string): (r: seq<Node>)
    requires dp < |s|
    ensures |r| == |s|
  {
    if Refuses(s, dp, name) then s
    else
      var k := Find(s[dp].entries, name, 0);
      var ip := s[dp].entries[k].inum;
      var s1 := s[dp := s[dp].(entries := s[dp].entries[k := Entry(0, "")])];
      var s2 := if s[ip].kind == Directory then Counted(s1, dp, false) else s1;
      Counted(s2, ip, false)
  }

  /** create of a name that is not there, in inode ip. */
  function Created(s: seq<Node>, dp: nat, name: string, kind: Kind, ip: nat): (r: seq<Node>)
    requires dp < |s| && ip < |s| && dp != ip
    ensures |r| == |s|
  {
    var dots := if kind == Directory then [Entry(ip, "."), Entry(dp, "..")] else [];
    var s1 := s[ip := Node(kind, 1, dots)];
    var s2 := if kind == Directory then Counted(s1, dp, true) else s1;
    Entered(s2, dp, name, ip)
  }

  // ----- the operations in place -----

  datatype DirResult = Exists | Full | Done
  datatype UnlinkResult = UnlinkPanic | Refused | Removed
  datatype CreateResult = CreatePanic | NotMade | Found(ip: nat) | Made(ip: nat)

  class Names {
    const nodes: array<Node>

    /** dirlookup: where the name is, or the number of entries. */
    method DirLookup(dp: nat, name: string) returns (k: nat)
      requires dp < nodes.Length
      ensures k == Find(nodes[dp].entries, name, 0)
    {
      var es := nodes[dp].entries;
      k := 0;
      while k < |es|
        invariant k <= |es| && Find(es, name, 0) == Find(es, name, k)
      {
        if es[k].inum != 0 && Short(es[k].name) == Short(name) {
          return;
        }
        k := k + 1;
      }
    }

    /** dirlink: refuses a name that is there; otherwise the first empty entry, or one more at the end. */
    method DirLink(dp: nat, name: string, inum: nat) returns (r: DirResult)
      requires dp < nodes.Length
      modifies nodes
      ensures r == Exists <==> Has(old(nodes[dp].entries), name)
      ensures r == Full <==> !Has(old(nodes[dp].entries), name) && Empty(old(nodes[dp].entries), 0) >= MAXENTRIES
      ensures nodes[..] == if r == Done then Entered(old(nodes[..]), dp, name, inum) else old(nodes[..])
    {
      var found := DirLookup(dp, name);
      var es := nodes[dp].entries;
      if found < |es| {
        return Exists;
      }
      var k := 0;
      while k < |es| && es[k].inum != 0
        invariant k <= |es| && Empty(es, 0) == Empty(es, k)
        invariant forall j :: 0 <= j < k ==> es[j].inum != 0
      {
        k := k + 1;
      }
      if k >= MAXENTRIES {
        return Full;
      }
      var e := Entry(inum, Short(name));
      nodes[dp] := nodes[dp].(entries := if k < |es| then es[k := e] else es + [e]);
      assert nodes[..] == Entered(old(nodes[..]), dp, name, inum);
      return Done;
    }

    /** isdirempty: looks past the dots. */
    method IsDirEmpty(ip: nat) returns (b: bool)
      requires ip < nodes.Length
      ensures b <==> Bare(nodes[ip].entries)
    {
      var es := nodes[ip].entries;
      var k := 2;
      while k < |es|
        invariant 2 <= k && forall j :: 2 <= j < k && j < |es| ==> es[j].inum == 0
      {
        if es[k].inum != 0 {
          return false;
        }
        k := k + 1;
      }
      return true;
    }

    /** The first half of sys_link. */
    method LinkBegin(ip: nat) returns (ok: bool)
      requires ip < nodes.Length
      modifies nodes
      ensures ok <==> old(nodes[ip].kind) != Directory
      ensures nodes[..] == if ok then Counted(old(nodes[..]), ip, true) else old(nodes[..])
    {
      if nodes[ip].kind == Directory {
        return false;
      }
      nodes[ip] := nodes[ip].(nlink := Inc(nodes[ip].nlink));
      assert nodes[..] == Counted(old(nodes[..]), ip, true);
      return true;
    }

    /** The second half of sys_link, with the directory nameiparent found. */
    method LinkEnd(ip: nat, dp: nat, name: string) returns (r: DirResult)
      requires ip < nodes.Length && dp < nodes.Length
      modifies nodes
      ensures r == Exists <==> Has(old(nodes[dp].entries), name)
      ensures r == Full <==> !Has(old(nodes[dp].entries), name) && Empty(old(nodes[dp].entries), 0) >= MAXENTRIES
      ensures r != Full ==> nodes[..] == LinkEnded(old(nodes[..]), ip, dp, name)
    {
      r := DirLink(dp, name, ip);
      if r == Exists {
        nodes[ip] := nodes[ip].(nlink := Dec(nodes[ip].nlink));
        assert nodes[..] == Counted(old(nodes[..]), ip, false);
      }
    }

    /** sys_unlink in the directory nameiparent found. */
    method Unlink(dp: nat, name: string) returns (r: UnlinkResult)
      requires dp < nodes.Length
      requires forall k :: 0 <= k < |nodes[dp].entries| ==> nodes[dp].entries[k].inum < nodes.Length
      modifies nodes
      ensures r == UnlinkPanic <==> Short(name) != "." && Short(name) != ".." &&
                                    Has(old(nodes[dp].entries), name) &&
                                    old(nodes[Named(nodes[dp].entries, name)]).nlink < 1
      ensures r == UnlinkPanic ==> nodes[..] == old(nodes[..])
      ensures r != UnlinkPanic ==> nodes[..] == Unlinked(old(nodes[..]), dp, name) &&
                                   (r == Refused <==> Refuses(old(nodes[..]), dp, name))
    {
      if Short(name) == "." || Short(name) == ".." {
        return Refused;
      }
      var k := DirLookup(dp, name);
      if k == |nodes[dp].entries| {
        return Refused;
      }
      var ip := nodes[dp].entries[k].inum;
      if nodes[ip].nlink < 1 {
        return UnlinkPanic;
      }
      if nodes[ip].kind == Directory {
        var bare := IsDirEmpty(ip);
        if !bare {
          return Refused;
        }
      }
      var isDir := nodes[ip].kind == Directory;
      nodes[dp] := nodes[dp].(entries := nodes[dp].entries[k := Entry(0, "")]);
      if isDir {
        nodes[dp] := nodes[dp].(nlink := Dec(nodes[dp].nlink));
      }
      nodes[ip] := nodes[ip].(nlink := Dec(nodes[ip].nlink));
      assert nodes[..] == Unlinked(old(nodes[..]), dp, name);
      return Removed;
    }

    /** ialloc: the first free inode from 1 on. */
    method Ialloc() returns (ip: nat)
      ensures 0 < ip <= nodes.Length || (ip == 1 && nodes.Length == 0)
      ensures ip < nodes.Length ==> nodes[ip].kind == Unused
      ensures forall j :: 0 < j < ip && j < nodes.Length ==> nodes[j].kind != Unused
    {
      ip := 1;
      while ip < nodes.Length && nodes[ip].kind != Unused
        invariant 0 < ip <= nodes.Length || (ip == 1 && nodes.Length == 0)
        invariant forall j :: 0 < j < ip && j < nodes.Length ==> nodes[j].kind != Unused
      {
        ip := ip + 1;
      }
    }

    /** create in the directory nameiparent found. */
    method Create(dp: nat, name: string, kind: Kind) returns (r: CreateResult)
      requires dp < nodes.Length && nodes[dp].kind == Directory && kind != Unused
      requires forall k :: 0 <= k < |nodes[dp].entries| ==> nodes[dp].entries[k].inum < nodes.Length
      modifies nodes
      ensures r.NotMade? || r.Found? <==> Has(old(nodes[dp].entries), name)
      ensures r.NotMade? || r.Found? ==> nodes[..] == old(nodes[..])
      ensures r.Found? <==> kind == File && Has(old(nodes[dp].entries), name) &&
                            old(nodes[Named(nodes[dp].entries, name)]).kind == File
      ensures r.Found? ==> r.ip == Named(old(nodes[dp].entries), name)
      ensures r.Made? ==> 0 < r.ip < nodes.Length && r.ip != dp && old(nodes[r.ip]).kind == Unused &&
                          (forall j :: 0 < j < r.ip ==> old(nodes[j]).kind != Unused) &&
                          nodes[..] == Created(old(nodes[..]), dp, name, kind, r.ip)
      ensures r.CreatePanic? <==> !Has(old(nodes[dp].entries), name) &&
                                  (Empty(old(nodes[dp].entries), 0) >= MAXENTRIES ||
                                   forall j :: 0 < j < nodes.Length ==> old(nodes[j]).kind != Unused)
    {
      var k := DirLookup(dp, name);
      if k < |nodes[dp].entries| {
        var found := nodes[dp].entries[k].inum;
        if kind == File && nodes[found].kind == File {
          return Found(found);
        }
        return NotMade;
      }
      var ip := Ialloc();
      if ip >= nodes.Length {
        return CreatePanic;
      }
      ghost var s0 := nodes[..];
      nodes[ip] := Node(kind, 1, []);
      if kind == Directory {
        nodes[dp] := nodes[dp].(nlink := Inc(nodes[dp].nlink));
        var dot := DirLink(ip, ".", ip);
        var dots := DirLink(ip, "..", dp);
        assert nodes[ip].entries == [Entry(ip, "."), Entry(dp, "..")];
      }
      ghost var s1 := nodes[..];
      assert s1[dp].entries == s0[dp].entries;
      var done := DirLink(dp, name, ip);
      if done == Full {
        return CreatePanic;
      }
      assert nodes[..] == Created(s0, dp, name, kind, ip);
      return Made(ip);
    }
  }

  // ----- counting -----

  datatype Count = Plain | Parent | All

  /** How many entries after the dots name i. */
  ghost function PlainIn(es: seq<Entry>, i: nat): nat {
    if |es| <= 2 then 0 else PlainIn(es[..|es| - 1], i) + One(es[|es| - 1].inum == i)
  }

  /** How many entries other than "." name i. */
  ghost function NamedIn(es: seq<Entry>, i: nat): nat {
    if es == [] then 0 else NamedIn(es[..|es| - 1], i) + One(es[|es| - 1].inum == i && es[|es| - 1].name != ".")
  }

  /** What one inode adds to the count of i; only live directories count. */
  ghost function Weigh(n: Node, i: nat, c: Count): nat {
    if !Live(n) then 0
    else match c
      case Plain => PlainIn(n.entries, i)
      case Parent => One(|n.entries| >= 2 && n.entries[1].inum == i)
      case All => NamedIn(n.entries, i)
  }

  /** The entries naming i over all live directories. */
  ghost function Sum(s: seq<Node>, i: nat, c: Count): nat {
    if s == [] then 0 else Sum(s[..|s| - 1], i, c) + Weigh(s[|s| - 1], i, c)
  }

  lemma {:induction false} SumUpdate(s: seq<Node>, d: nat, n: Node, i: nat, c: Count)
    requires d < |s|
    ensures Sum(s[d := n], i, c) + Weigh(s[d], i, c) == Sum(s, i, c) + Weigh(n, i, c)
  {
    hide Weigh;
    var s', last := s[d := n], |s| - 1;
    if d == last {
      assert s'[..last] == s[..last];
    } else {
      assert s'[..last] == s[..last][d := n];
      SumUpdate(s[..last], d, n, i, c);
    }
  }

  /** No single directory adds more than the sum. */
  lemma {:induction false} SumAtLeast(s: seq<Node>, d: nat, i: nat, c: Count)
    requires d < |s|
    ensures Weigh(s[d], i, c) <= Sum(s, i, c)
  {
    hide Weigh;
    if d < |s| - 1 {
      SumAtLeast(s[..|s| - 1], d, i, c);
    }
  }

  lemma {:induction false} PlainUpdate(es: seq<Entry>, k: nat, e: Entry, i: nat)
    requires 2 <= k < |es|
    ensures PlainIn(es[k := e], i) + One(es[k].inum == i) == PlainIn(es, i) + One(e.inum == i)
  {
    var es', last := es[k := e], |es| - 1;
    if k == last {
      assert es'[..last] == es[..last];
    } else {
      assert es'[..last] == es[..last][k := e];
      PlainUpdate(es[..last], k, e, i);
    }
  }

  lemma {:induction false} PlainAtLeast(es: seq<Entry>, k: nat, i: nat)
    requires 2 <= k < |es| && es[k].inum == i
    ensures PlainIn(es, i) >= 1
  {
    if k < |es| - 1 {
      PlainAtLeast(es[..|es| - 1], k, i);
    }
  }

  lemma {:induction false} PlainBare(es: seq<Entry>, i: nat)
    requires Bare(es) && i != 0
    ensures PlainIn(es, i) == 0
  {
    if |es| > 2 {
      PlainBare(es[..|es| - 1], i);
    }
  }

  predicate IsDir(s: seq<Node>, i: nat) {
    0 < i < |s| && s[i].kind == Directory
  }

  /** How many entries after the dots name directories. */
  ghost function DirsIn(s: seq<Node>, es: seq<Entry>): nat {
    if |es| <= 2 then 0 else DirsIn(s, es[..|es| - 1]) + One(IsDir(s, es[|es| - 1].inum))
  }

  lemma {:induction false} DirsUpdate(s: seq<Node>, es: seq<Entry>, k: nat, e: Entry)
    requires 2 <= k < |es|
    ensures DirsIn(s, es[k := e]) + One(IsDir(s, es[k].inum)) == DirsIn(s, es) + One(IsDir(s, e.inum))
  {
    hide IsDir;
    var es', last := es[k := e], |es| - 1;
    if k == last {
      assert es'[..last] == es[..last];
    } else {
      assert es'[..last] == es[..last][k := e];
      DirsUpdate(s, es[..last], k, e);
    }
  }

  lemma {:induction false} DirsSame(s: seq<Node>, s': seq<Node>, es: seq<Entry>)
    requires forall k :: 2 <= k < |es| ==> IsDir(s', es[k].inum) == IsDir(s, es[k].inum)
    ensures DirsIn(s', es) == DirsIn(s, es)
  {
    hide IsDir;
    if |es| > 2 {
      DirsSame(s, s', es[..|es| - 1]);
    }
  }

  lemma {:induction false} DirsBare(s: seq<Node>, es: seq<Entry>)
    requires Bare(es)
    ensures DirsIn(s, es) == 0
  {
    if |es| > 2 {
      DirsBare(s, es[..|es| - 1]);
    }
  }

  // ----- the invariant -----

  /** pending[i] counts calls of sys_link that have raised nlink(i) and not yet made their entry; depth is a history of
      how far below the root each directory was made. */
  datatype State = State(nodes: seq<Node>, pending: seq<nat>, depth: seq<nat>)

  ghost predicate Unique(es: seq<Entry>) {
    forall j, k :: 0 <= j < k < |es| && es[j].inum != 0 && es[k].inum != 0 ==> Short(es[j].name) != Short(es[k].name)
  }

  /** What a directory's entries look like while it is linked. */
  ghost predicate LiveOk(s: State, d: nat)
    requires d < |s.nodes| == |s.depth|
  {
    var es := s.nodes[d].entries;
    && Unique(es) && |es| >= 2 && es[0] == Entry(d, ".") && es[1].name == ".."
    && (forall k :: 0 <= k < |es| ==> es[k].inum < |s.nodes| && Short(es[k].name) == es[k].name)
    && (forall k :: 2 <= k < |es| && IsDir(s.nodes, es[k].inum) ==>
          |s.nodes[es[k].inum].entries| >= 2 && s.nodes[es[k].inum].entries[1].inum == d)
    && var p := es[1].inum;
       Live(s.nodes[p]) && (if d == ROOT then p == ROOT && s.depth[d] == 0 else s.depth[d] == s.depth[p] + 1)
  }

  ghost predicate NodeOk(s: State, i: nat)
    requires i < |s.nodes| == |s.depth| == |s.pending|
  {
    var n := s.nodes[i];
    && (n.kind == Unused ==> n.nlink == 0)
    && (n.kind == Directory ==> s.pending[i] == 0)
    && (n.kind == Directory && !Live(n) ==> |n.entries| >= 2 && n.entries[0] == Entry(i, ".") &&
                                            n.entries[1].name == ".." && Bare(n.entries) &&
                                            0 < n.entries[1].inum < |s.nodes| && n.entries[1].inum != i)
    && (Live(n) ==> LiveOk(s, i))
  }

  /**
   nlink is the number of entries plus the links under way; a directory is named once, and once more by each
   subdirectory.
   */
  ghost predicate CountOk(s: State, i: nat)
    requires i < |s.nodes| == |s.depth| == |s.pending|
  {
    && s.nodes[i].nlink == Sum(s.nodes, i, Plain) + Sum(s.nodes, i, Parent) + s.pending[i]
    && (Live(s.nodes[i]) ==> Sum(s.nodes, i, Plain) == One(i != ROOT) &&
                             Sum(s.nodes, i, Parent) == DirsIn(s.nodes, s.nodes[i].entries) + One(i == ROOT))
  }

  ghost predicate Inv(s: State) {
    && |s.nodes| == |s.depth| == |s.pending| && ROOT < |s.nodes| && Live(s.nodes[ROOT])
    && s.nodes[0] == Node(Unused, 0, []) && s.pending[0] == 0
    && (forall i :: 0 <= i < |s.nodes| ==> NodeOk(s, i))
    && (forall i :: 0 < i < |s.nodes| ==> CountOk(s, i))
  }

  // ----- steps -----

  datatype Action =
    | LinkBegin(ip: nat)
    | LinkEnd(ip: nat, dp: nat, name: string)
    | LinkAbort(ip: nat)
    | Unlink(dp: nat, name: string)
    | Create(dp: nat, name: string, kind: Kind, ip: nat)
    | Reclaim(i: nat)

  /** The steps the kernel takes when parents are live and counts do not overflow. */
  ghost predicate Enabled(s: State, a: Action)
    requires |s.nodes| == |s.depth| == |s.pending|
  {
    match a
    case LinkBegin(ip) => ip < |s.nodes| && s.nodes[ip].kind in {File, Device} && s.nodes[ip].nlink < MAXLINK
    case LinkEnd(ip, dp, name) =>
      ip < |s.nodes| && dp < |s.nodes| && s.pending[ip] > 0 && Live(s.nodes[dp])
    case LinkAbort(ip) => ip < |s.nodes| && s.pending[ip] > 0
    case Unlink(dp, name) => dp < |s.nodes| && s.nodes[dp].kind == Directory
    case Create(dp, name, kind, ip) =>
      dp < |s.nodes| && 0 < ip < |s.nodes| && Live(s.nodes[dp]) &&
        s.nodes[dp].nlink + One(kind == Directory) <= MAXLINK && !Has(s.nodes[dp].entries, name) &&
      s.nodes[ip].kind == Unused && kind != Unused
    case Reclaim(i) => i < |s.nodes| && s.nodes[i].kind != Unused && s.nodes[i].nlink == 0
  }

  ghost function Do(s: State, a: Action): (t: State)
    requires |s.nodes| == |s.depth| == |s.pending| && Enabled(s, a)
  {
    match a
    case LinkBegin(ip) => s.(nodes := Counted(s.nodes, ip, true), pending := s.pending[ip := s.pending[ip] + 1])
    case LinkEnd(ip, dp, name) => s.(nodes := LinkEnded(s.nodes, ip, dp, name),
                                     pending := s.pending[ip := s.pending[ip] - 1])
    case LinkAbort(ip) => s.(nodes := Counted(s.nodes, ip, false), pending := s.pending[ip := s.pending[ip] - 1])
    case Unlink(dp, name) => s.(nodes := Unlinked(s.nodes, dp, name))
    case Create(dp, name, kind, ip) =>
      s.(nodes := Created(s.nodes, dp, name, kind, ip), depth := s.depth[ip := s.depth[dp] + 1])
    case Reclaim(i) => s.(nodes := s.nodes[i := Node(Unused, 0, [])])
  }

  // ----- consequences of the invariant -----

  /** An inode whose count is zero is named nowhere. */
  lemma NamedNowhere(s: State, i: nat, d: nat)
    requires Inv(s) && 0 < i < |s.nodes| && s.nodes[i].nlink == 0 && d < |s.nodes| && Live(s.nodes[d])
    ensures forall k :: 1 <= k < |s.nodes[d].entries| ==> s.nodes[d].entries[k].inum != i
    ensures s.pending[i] == 0 && Sum(s.nodes, i, Plain) == 0 && Sum(s.nodes, i, Parent) == 0
  {
    assert CountOk(s, i) && NodeOk(s, d);
    SumAtLeast(s.nodes, d, i, Plain);
    SumAtLeast(s.nodes, d, i, Parent);
    var es := s.nodes[d].entries;
    forall k | 1 <= k < |es| ensures es[k].inum != i {
      if k >= 2 && es[k].inum == i {
        PlainAtLeast(es, k, i);
      }
    }
  }

  ghost predicate SameParent(m: Node, n: Node) {
    |m.entries| >= 2 && |n.entries| >= 2 && n.entries[1] == m.entries[1]
  }

  /** A live directory stays as it should be when its entries, its parent and its children's parents stay. */
  lemma LiveKept(s: State, t: State, d: nat)
    requires |s.nodes| == |s.depth| == |t.nodes| == |t.depth| && d < |s.nodes| && LiveOk(s, d)
    requires t.nodes[d].entries == s.nodes[d].entries && t.depth[d] == s.depth[d]
    requires var p := s.nodes[d].entries[1].inum; Live(t.nodes[p]) && t.depth[p] == s.depth[p]
    requires forall k :: 2 <= k < |s.nodes[d].entries| && IsDir(t.nodes, s.nodes[d].entries[k].inum) ==>
               IsDir(s.nodes, s.nodes[d].entries[k].inum) &&
                 SameParent(s.nodes[s.nodes[d].entries[k].inum], t.nodes[s.nodes[d].entries[k].inum])
    ensures LiveOk(t, d)
  {
    hide Unique, IsDir;
  }

  /** Changing the count of an inode that is not a directory. */
  lemma KeepCount(s: State, t: State, ip: nat)
    requires Inv(s) && ip < |s.nodes| && s.nodes[ip].kind in {File, Device}
    requires |t.nodes| == |s.nodes| && t.nodes == s.nodes[ip := s.nodes[ip].(nlink := t.nodes[ip].nlink)]
    requires t.depth == s.depth && |t.pending| == |s.pending|
    requires forall i :: 0 <= i < |s.pending| && i != ip ==> t.pending[i] == s.pending[i]
    requires t.nodes[ip].nlink - t.pending[ip] == s.nodes[ip].nlink - s.pending[ip]
    ensures Inv(t)
  {
    forall i | 0 <= i < |t.nodes| ensures NodeOk(t, i) {
      assert NodeOk(s, i);
      if Live(s.nodes[i]) {
        LiveKept(s, t, i);
      }
    }
    forall i | 0 < i < |t.nodes| ensures CountOk(t, i) {
      assert CountOk(s, i);
      SumUpdate(s.nodes, ip, t.nodes[ip], i, Plain);
      SumUpdate(s.nodes, ip, t.nodes[ip], i, Parent);
      hide Sum;
      DirsSame(s.nodes, t.nodes, s.nodes[i].entries);
    }
  }

  lemma KeepLinkBegin(s: State, ip: nat)
    requires Inv(s) && Enabled(s, LinkBegin(ip))
    ensures Inv(Do(s, LinkBegin(ip)))
  {
    KeepCount(s, Do(s, LinkBegin(ip)), ip);
  }

  lemma PendingIsFile(s: State, ip: nat)
    requires Inv(s) && 0 < ip < |s.nodes| && s.pending[ip] > 0
    ensures s.nodes[ip].kind in {File, Device} && s.nodes[ip].nlink > 0
  {
    assert NodeOk(s, ip) && CountOk(s, ip);
  }

  lemma KeepLinkAbort(s: State, ip: nat)
    requires Inv(s) && Enabled(s, LinkAbort(ip))
    ensures Inv(Do(s, LinkAbort(ip)))
  {
    PendingIsFile(s, ip);
    KeepCount(s, Do(s, LinkAbort(ip)), ip);
  }

  lemma KeepReclaim(s: State, i: nat)
    requires Inv(s) && Enabled(s, Reclaim(i))
    ensures Inv(Do(s, Reclaim(i)))
  {
    var t := Do(s, Reclaim(i));
    NamedNowhere(s, i, ROOT);
    forall j | 0 <= j < |t.nodes| ensures NodeOk(t, j) {
      assert NodeOk(s, j);
      if Live(t.nodes[j]) {
        NamedNowhere(s, i, j);
        LiveKept(s, t, j);
      }
    }
    forall j | 0 < j < |t.nodes| ensures CountOk(t, j) {
      assert CountOk(s, j) && NodeOk(s, j);
      SumUpdate(s.nodes, i, t.nodes[i], j, Plain);
      SumUpdate(s.nodes, i, t.nodes[i], j, Parent);
      hide Sum;
      if Live(t.nodes[j]) {
        NamedNowhere(s, i, j);
        DirsSame(s.nodes, t.nodes, s.nodes[j].entries);
      }
    }
  }

  // ----- adding an entry -----

  /** The dots are in use, so a new entry goes after them. */
  lemma AddPlace(es: seq<Entry>)
    requires |es| >= 2 && es[0].inum != 0 && es[1].inum != 0
    ensures Empty(es, 0) >= 2
  {
  }

  lemma AddCounts(s: seq<Node>, es: seq<Entry>, e: Entry, i: nat)
    requires |es| >= 2 && es[0].inum != 0 && es[1].inum != 0 && i != 0
    ensures PlainIn(Add(es, e), i) == PlainIn(es, i) + One(e.inum == i)
    ensures DirsIn(s, Add(es, e)) == DirsIn(s, es) + One(IsDir(s, e.inum))
    ensures |Add(es, e)| >= 2 && Add(es, e)[0] == es[0] && Add(es, e)[1] == es[1]
  {
    AddPlace(es);
    var k := Empty(es, 0);
    if k < |es| {
      PlainUpdate(es, k, e, i);
      DirsUpdate(s, es, k, e);
    } else {
      assert (es + [e])[..|es|] == es;
    }
  }

  lemma AddUnique(es: seq<Entry>, e: Entry)
    requires Unique(es) && !Has(es, e.name)
    ensures Unique(Add(es, e))
  {
  }

  /** A live directory with one more entry. */
  lemma LiveAdded(s: State, t: State, d: nat, e: Entry)
    requires |s.nodes| == |s.depth| == |t.nodes| == |t.depth| && d < |s.nodes| && LiveOk(s, d) && d != 0
    requires s.nodes[d].entries[1].inum != 0
    requires t.nodes[d].entries == Add(s.nodes[d].entries, e) && !Has(s.nodes[d].entries, e.name) &&
             t.depth[d] == s.depth[d]
    requires e.inum < |t.nodes| && Short(e.name) == e.name
    requires IsDir(t.nodes, e.inum) ==> |t.nodes[e.inum].entries| >= 2 && t.nodes[e.inum].entries[1].inum == d
    requires var p := s.nodes[d].entries[1].inum; Live(t.nodes[p]) && t.depth[p] == s.depth[p]
    requires forall k :: 2 <= k < |s.nodes[d].entries| && IsDir(t.nodes, s.nodes[d].entries[k].inum) ==>
               IsDir(s.nodes, s.nodes[d].entries[k].inum) &&
                 SameParent(s.nodes[s.nodes[d].entries[k].inum], t.nodes[s.nodes[d].entries[k].inum])
    ensures LiveOk(t, d)
  {
    var es := s.nodes[d].entries;
    AddPlace(es);
    AddUnique(es, e);
    hide Unique, IsDir, Has;
    var es' := Add(es, e);
    forall k | 2 <= k < |es'| && IsDir(t.nodes, es'[k].inum)
      ensures |t.nodes[es'[k].inum].entries| >= 2 && t.nodes[es'[k].inum].entries[1].inum == d
    {
      assert es'[k] == e || (k < |es| && es'[k] == es[k]);
    }
  }

  lemma KeepLinkEnd(s: State, ip: nat, dp: nat, name: string)
    requires Inv(s) && Enabled(s, LinkEnd(ip, dp, name))
    ensures Inv(Do(s, LinkEnd(ip, dp, name)))
  {
    var t := Do(s, LinkEnd(ip, dp, name));
    assert NodeOk(s, 0) && NodeOk(s, ip);
    PendingIsFile(s, ip);
    if Has(s.nodes[dp].entries, name) {
      KeepCount(s, t, ip);
    } else {
      Entering(s, t, ip, dp, name);
    }
  }

  /** A new entry for a file or device. */
  lemma Entering(s: State, t: State, ip: nat, dp: nat, name: string)
    requires Inv(s) && 0 < ip < |s.nodes| && dp < |s.nodes| && Live(s.nodes[dp]) && s.nodes[ip].kind in {File, Device}
    requires !Has(s.nodes[dp].entries, name) && s.pending[ip] > 0
    requires t == s.(nodes := Entered(s.nodes, dp, name, ip), pending := s.pending[ip := s.pending[ip] - 1])
    ensures Inv(t)
  {
    var es, e := s.nodes[dp].entries, Entry(ip, Short(name));
    assert NodeOk(s, dp);
    DotsInUse(s, dp);
    hide CountOk, Unique, Add, Sum;
    assert |t.nodes[dp].entries| >= 2 && SameParent(s.nodes[dp], t.nodes[dp]) by {
      AddCounts(s.nodes, es, e, 1);
    }
    forall i | 0 <= i < |t.nodes| ensures NodeOk(t, i) {
      assert NodeOk(s, i);
      if i == dp {
        LiveAdded(s, t, dp, e);
      } else if Live(s.nodes[i]) {
        LiveKept(s, t, i);
      }
    }
    forall i | 0 < i < |t.nodes| ensures CountOk(t, i) {
      EnteringCount(s, t, ip, dp, name, i);
    }
  }

  lemma EnteringCount(s: State, t: State, ip: nat, dp: nat, name: string, i: nat)
    requires Inv(s) && 0 < ip < |s.nodes| && dp < |s.nodes| && Live(s.nodes[dp]) && s.nodes[ip].kind in {File, Device}
    requires s.pending[ip] > 0 && 0 < i < |s.nodes|
    requires t == s.(nodes := Entered(s.nodes, dp, name, ip), pending := s.pending[ip := s.pending[ip] - 1])
    ensures CountOk(t, i)
  {
    hide Sum, Add, PlainIn, DirsIn, Unique;
    var es, e := s.nodes[dp].entries, Entry(ip, Short(name));
    assert CountOk(s, i) && NodeOk(s, dp);
    DotsInUse(s, dp);
    SumUpdate(s.nodes, dp, t.nodes[dp], i, Plain);
    SumUpdate(s.nodes, dp, t.nodes[dp], i, Parent);
    AddCounts(s.nodes, es, e, i);
    DirsSame(s.nodes, t.nodes, t.nodes[i].entries);
  }

  lemma DotsInUse(s: State, d: nat)
    requires Inv(s) && d < |s.nodes| && Live(s.nodes[d])
    ensures d != 0 && LiveOk(s, d) && s.nodes[d].entries[1].inum != 0
  {
    assert NodeOk(s, d);
  }

  // ----- clearing an entry -----

  lemma {:induction false} DirsAtLeast(s: seq<Node>, es: seq<Entry>, k: nat)
    requires 2 <= k < |es| && IsDir(s, es[k].inum)
    ensures DirsIn(s, es) >= 1
  {
    hide IsDir;
    if k < |es| - 1 {
      DirsAtLeast(s, es[..|es| - 1], k);
    }
  }

  /** What sys_unlink finds: the parent is live, the entry is not a dot, and the count is at least one. */
  lemma UnlinkFinds(s: State, dp: nat, name: string, k: nat)
    requires Inv(s) && dp < |s.nodes| && s.nodes[dp].kind == Directory && !Refuses(s.nodes, dp, name)
    requires k == Find(s.nodes[dp].entries, name, 0)
    ensures Live(s.nodes[dp]) && 2 <= k < |s.nodes[dp].entries| && 0 < s.nodes[dp].entries[k].inum < |s.nodes|
    ensures s.nodes[s.nodes[dp].entries[k].inum].nlink >= 1 && s.nodes[s.nodes[dp].entries[k].inum].kind != Unused
    ensures Sum(s.nodes, s.nodes[dp].entries[k].inum, Plain) >= 1
  {
    var es := s.nodes[dp].entries;
    assert NodeOk(s, dp);
    assert Short(".") == "." && Short("..") == "..";
    assert Matches(es[k], name);
    var ip := es[k].inum;
    PlainAtLeast(es, k, ip);
    SumAtLeast(s.nodes, dp, ip, Plain);
    assert CountOk(s, ip) && NodeOk(s, ip);
  }

  /** For a directory: it is the only name, nothing is below it, and it is not the parent or the root. */
  lemma UnlinkFindsDir(s: State, dp: nat, name: string, k: nat, ip: nat)
    requires Inv(s) && dp < |s.nodes| && s.nodes[dp].kind == Directory && !Refuses(s.nodes, dp, name)
    requires k == Find(s.nodes[dp].entries, name, 0) < |s.nodes[dp].entries| &&
             ip == s.nodes[dp].entries[k].inum < |s.nodes|
    requires s.nodes[ip].kind == Directory
    ensures ip != dp && ip != ROOT && Live(s.nodes[ip]) && Bare(s.nodes[ip].entries) && s.nodes[ip].nlink == 1 &&
            s.pending[ip] == 0
    ensures Sum(s.nodes, ip, Plain) == 1 && Sum(s.nodes, ip, Parent) == 0 && s.nodes[dp].nlink >= 2
    ensures |s.nodes[ip].entries| >= 2 && s.nodes[ip].entries[1].inum == dp
  {
    UnlinkFinds(s, dp, name, k);
    hide Sum;
    assert NodeOk(s, dp) && NodeOk(s, ip) && CountOk(s, ip) && CountOk(s, dp);
    DirsBare(s.nodes, s.nodes[ip].entries);
    DirsAtLeast(s.nodes, s.nodes[dp].entries, k);
  }

  lemma ClearCounts(s: seq<Node>, es: seq<Entry>, k: nat, i: nat)
    requires 2 <= k < |es| && i != 0
    ensures PlainIn(es[k := Entry(0, "")], i) + One(es[k].inum == i) == PlainIn(es, i)
    ensures DirsIn(s, es[k := Entry(0, "")]) + One(IsDir(s, es[k].inum)) == DirsIn(s, es)
  {
    PlainUpdate(es, k, Entry(0, ""), i);
    DirsUpdate(s, es, k, Entry(0, ""));
  }

  /** A live directory with one entry cleared. */
  lemma LiveCleared(s: State, t: State, d: nat, k: nat)
    requires |s.nodes| == |s.depth| == |t.nodes| == |t.depth| && d < |s.nodes| && LiveOk(s, d) &&
             2 <= k < |s.nodes[d].entries|
    requires t.nodes[d].entries == s.nodes[d].entries[k := Entry(0, "")] && t.depth[d] == s.depth[d]
    requires var p := s.nodes[d].entries[1].inum; Live(t.nodes[p]) && t.depth[p] == s.depth[p]
    requires forall j :: 2 <= j < |s.nodes[d].entries| && IsDir(t.nodes, s.nodes[d].entries[j].inum) ==>
               IsDir(s.nodes, s.nodes[d].entries[j].inum) &&
                 SameParent(s.nodes[s.nodes[d].entries[j].inum], t.nodes[s.nodes[d].entries[j].inum])
    ensures LiveOk(t, d)
  {
    var es := s.nodes[d].entries;
    var es' := t.nodes[d].entries;
    forall j | 2 <= j < |es'| && IsDir(t.nodes, es'[j].inum)
      ensures |t.nodes[es'[j].inum].entries| >= 2 && t.nodes[es'[j].inum].entries[1].inum == d
    {
      assert j != k && es'[j] == es[j];
    }
  }

  /** unlink of a file or device. */
  lemma UnlinkFile(s: State, t: State, dp: nat, k: nat, ip: nat)
    requires Inv(s) && dp < |s.nodes| && Live(s.nodes[dp]) && 2 <= k < |s.nodes[dp].entries| &&
             ip == s.nodes[dp].entries[k].inum
    requires 0 < ip < |s.nodes| && s.nodes[ip].kind in {File, Device} && s.nodes[ip].nlink >= 1
    requires t == s.(nodes := s.nodes[dp := s.nodes[dp].(entries := s.nodes[dp].entries[k := Entry(0, "")])]
                                     [ip := s.nodes[ip].(nlink := s.nodes[ip].nlink - 1)])
    ensures Inv(t)
  {
    DotsInUse(s, dp);
    hide CountOk;
    forall i | 0 <= i < |t.nodes| ensures NodeOk(t, i) {
      assert NodeOk(s, i);
      hide Unique;
      if i == dp {
        LiveCleared(s, t, dp, k);
      } else if Live(s.nodes[i]) {
        LiveKept(s, t, i);
      }
    }
    forall i | 0 < i < |t.nodes| ensures CountOk(t, i) {
      UnlinkFileCount(s, t, dp, k, ip, i);
    }
  }

  lemma UnlinkFileCount(s: State, t: State, dp: nat, k: nat, ip: nat, i: nat)
    requires Inv(s) && dp < |s.nodes| && Live(s.nodes[dp]) && 2 <= k < |s.nodes[dp].entries| &&
             ip == s.nodes[dp].entries[k].inum
    requires 0 < ip < |s.nodes| && s.nodes[ip].kind in {File, Device} && 0 < i < |s.nodes| && s.nodes[ip].nlink >= 1
    requires t == s.(nodes := s.nodes[dp := s.nodes[dp].(entries := s.nodes[dp].entries[k := Entry(0, "")])]
                                     [ip := s.nodes[ip].(nlink := s.nodes[ip].nlink - 1)])
    ensures CountOk(t, i)
  {
    hide Sum, PlainIn, DirsIn, Unique, NodeOk;
    assert CountOk(s, i);
    var m := s.nodes[dp := t.nodes[dp]];
    SumUpdate(s.nodes, dp, t.nodes[dp], i, Plain);
    SumUpdate(s.nodes, dp, t.nodes[dp], i, Parent);
    SumUpdate(m, ip, t.nodes[ip], i, Plain);
    SumUpdate(m, ip, t.nodes[ip], i, Parent);
    ClearCounts(s.nodes, s.nodes[dp].entries, k, i);
    DirsSame(s.nodes, t.nodes, t.nodes[i].entries);
  }

  /** unlink of an empty directory: it is no longer live. */
  lemma UnlinkDir(s: State, t: State, dp: nat, k: nat, ip: nat)
    requires Inv(s) && dp < |s.nodes| && Live(s.nodes[dp]) && 2 <= k < |s.nodes[dp].entries| &&
             ip == s.nodes[dp].entries[k].inum
    requires 0 < ip < |s.nodes| && ip != dp && ip != ROOT && Live(s.nodes[ip]) && Bare(s.nodes[ip].entries) &&
             s.nodes[ip].nlink == 1
    requires s.pending[ip] == 0 && Sum(s.nodes, ip, Plain) == 1 && Sum(s.nodes, ip, Parent) == 0 &&
             s.nodes[dp].nlink >= 2
    requires |s.nodes[ip].entries| >= 2 && s.nodes[ip].entries[1].inum == dp
    requires t == s.(nodes := s.nodes[dp := s.nodes[dp].(entries := s.nodes[dp].entries[k := Entry(0, "")],
                                                         nlink := s.nodes[dp].nlink - 1)]
                                     [ip := s.nodes[ip].(nlink := 0)])
    ensures Inv(t)
  {
    var es := s.nodes[dp].entries;
    DotsInUse(s, dp);
    DotsInUse(s, ip);
    forall i | 0 <= i < |t.nodes| ensures NodeOk(t, i) {
      assert NodeOk(s, i);
      hide Unique, Sum, PlainIn;
      if Live(s.nodes[i]) {
        SumAtLeast(s.nodes, i, ip, Parent);
        if i == dp {
          LiveCleared(s, t, dp, k);
        } else if i != ip {
          LiveKept(s, t, i);
        }
      }
    }
    forall i | 0 < i < |t.nodes| ensures CountOk(t, i) {
      UnlinkDirCount(s, t, dp, k, ip, i);
    }
  }

  lemma UnlinkDirCount(s: State, t: State, dp: nat, k: nat, ip: nat, i: nat)
    requires Inv(s) && dp < |s.nodes| && Live(s.nodes[dp]) && 2 <= k < |s.nodes[dp].entries| &&
             ip == s.nodes[dp].entries[k].inum
    requires 0 < ip < |s.nodes| && ip != dp && ip != ROOT && Live(s.nodes[ip]) && Bare(s.nodes[ip].entries) &&
             s.nodes[ip].nlink == 1
    requires s.pending[ip] == 0 && Sum(s.nodes, ip, Plain) == 1 && Sum(s.nodes, ip, Parent) == 0 &&
             s.nodes[dp].nlink >= 2
    requires |s.nodes[ip].entries| >= 2 && s.nodes[ip].entries[1].inum == dp && 0 < i < |s.nodes|
    requires t == s.(nodes := s.nodes[dp := s.nodes[dp].(entries := s.nodes[dp].entries[k := Entry(0, "")],
                                                         nlink := s.nodes[dp].nlink - 1)]
                                     [ip := s.nodes[ip].(nlink := 0)])
    ensures CountOk(t, i)
  {
    hide Sum, PlainIn, DirsIn, Unique, NodeOk;
    assert CountOk(s, i);
    var m := s.nodes[dp := t.nodes[dp]];
    SumUpdate(s.nodes, dp, t.nodes[dp], i, Plain);
    SumUpdate(s.nodes, dp, t.nodes[dp], i, Parent);
    SumUpdate(m, ip, t.nodes[ip], i, Plain);
    SumUpdate(m, ip, t.nodes[ip], i, Parent);
    ClearCounts(s.nodes, s.nodes[dp].entries, k, i);
    PlainBare(s.nodes[ip].entries, i);
    DirsSame(s.nodes, t.nodes, t.nodes[i].entries);
  }

  lemma KeepUnlink(s: State, dp: nat, name: string)
    requires Inv(s) && Enabled(s, Unlink(dp, name))
    ensures Inv(Do(s, Unlink(dp, name)))
  {
    var t := Do(s, Unlink(dp, name));
    if !Refuses(s.nodes, dp, name) {
      var k := Find(s.nodes[dp].entries, name, 0);
      UnlinkFinds(s, dp, name, k);
      var ip := s.nodes[dp].entries[k].inum;
      assert NodeOk(s, ip);
      hide Inv;
      if s.nodes[ip].kind == Directory {
        UnlinkFindsDir(s, dp, name, k, ip);
        UnlinkDir(s, t, dp, k, ip);
      } else {
        UnlinkFile(s, t, dp, k, ip);
      }
    }
  }

  // ----- creating -----

  /** Making inode ip a file, device or directory that nothing names yet. */
  ghost function MadeNode(s: seq<Node>, dp: nat, kind: Kind, ip: nat): seq<Node>
    requires ip < |s|
  {
    s[ip := Node(kind, 1, if kind == Directory then [Entry(ip, "."), Entry(dp, "..")] else [])]
  }

  /** The two inodes create changes. */
  ghost predicate CreateShape(s: State, t: State, dp: nat, name: string, kind: Kind, ip: nat) {
    && |s.nodes| == |s.depth| == |s.pending| && ip < |s.nodes| && dp < |s.nodes| && ip != dp && ip != 0 &&
       kind != Unused
    && Live(s.nodes[dp]) && s.nodes[dp].nlink + One(kind == Directory) <= MAXLINK && s.nodes[ip].kind == Unused &&
       !Has(s.nodes[dp].entries, name)
    && t == State(MadeNode(s.nodes, dp, kind, ip)
                  [dp := Node(Directory, s.nodes[dp].nlink + One(kind == Directory),
                              Add(s.nodes[dp].entries, Entry(ip, Short(name))))],
                  s.pending, s.depth[ip := s.depth[dp] + 1])
  }

  lemma CreateIs(s: State, dp: nat, name: string, kind: Kind, ip: nat)
    requires Inv(s) && Enabled(s, Create(dp, name, kind, ip))
    ensures CreateShape(s, Do(s, Create(dp, name, kind, ip)), dp, name, kind, ip)
  {
    hide NodeOk, CountOk, Add, Has;
  }

  lemma KeepCreate(s: State, dp: nat, name: string, kind: Kind, ip: nat)
    requires Inv(s) && Enabled(s, Create(dp, name, kind, ip))
    ensures Inv(Do(s, Create(dp, name, kind, ip)))
  {
    var t := Do(s, Create(dp, name, kind, ip));
    CreateIs(s, dp, name, kind, ip);
    hide Do, Enabled, CreateShape, NodeOk, CountOk;
    forall i | 0 <= i < |s.nodes| ensures NodeOk(t, i) {
      CreateNode(s, t, dp, name, kind, ip, i);
    }
    forall i | 0 < i < |s.nodes| ensures CountOk(t, i) {
      CreateCount(s, t, dp, name, kind, ip, i);
    }
    assert |t.nodes| == |t.depth| == |t.pending| == |s.nodes| && Live(t.nodes[ROOT]) && t.nodes[0] == s.nodes[0] &&
           t.pending == s.pending by {
      CreateSizes(s, t, dp, name, kind, ip);
    }
  }

  lemma CreateSizes(s: State, t: State, dp: nat, name: string, kind: Kind, ip: nat)
    requires Inv(s) && CreateShape(s, t, dp, name, kind, ip)
    ensures |t.nodes| == |t.depth| == |t.pending| == |s.nodes| && Live(t.nodes[ROOT]) && t.nodes[0] == s.nodes[0] &&
            t.pending == s.pending
    ensures 0 < ip < |s.nodes| && dp < |s.nodes| && Live(s.nodes[dp])
    ensures forall i :: 0 <= i < |s.nodes| && i != ip && i != dp ==>
                        t.nodes[i] == s.nodes[i] && t.depth[i] == s.depth[i]
    ensures Live(t.nodes[dp]) && SameParent(s.nodes[dp], t.nodes[dp]) && t.depth[dp] == s.depth[dp] &&
            s.nodes[ip].nlink == 0 && ip != ROOT
    ensures t.nodes[dp].nlink == s.nodes[dp].nlink + One(kind == Directory) && t.nodes[ip].nlink == 1 &&
            t.nodes[ip].kind == kind
    ensures ip != dp && (kind == Directory ==> t.nodes[ip].entries == [Entry(ip, "."), Entry(dp, "..")]) &&
            t.depth[ip] == t.depth[dp] + 1
  {
    hide CountOk, Unique, Add;
    DotsInUse(s, dp);
    assert NodeOk(s, ip);
    AddCounts(s.nodes, s.nodes[dp].entries, Entry(ip, Short(name)), 1);
  }

  lemma CreateNode(s: State, t: State, dp: nat, name: string, kind: Kind, ip: nat, i: nat)
    requires Inv(s) && CreateShape(s, t, dp, name, kind, ip) && i < |s.nodes|
    ensures |t.nodes| == |t.depth| == |t.pending| == |s.nodes| && NodeOk(t, i)
  {
    hide CountOk, Unique, Add, Has, Inv;
    CreateSizes(s, t, dp, name, kind, ip);
    InvNode(s, i);
    InvNode(s, ip);
    if i == dp {
      NamedNowhere(s, ip, dp);
      DotsInUse(s, dp);
      HasShort(s.nodes[dp].entries, name);
      LiveAdded(s, t, dp, Entry(ip, Short(name)));
    } else if i == ip {
      if kind == Directory {
        NewLive(t, ip, dp);
      }
      NamedNowhere(s, ip, dp);
    } else if Live(s.nodes[i]) {
      NamedNowhere(s, ip, i);
      LiveKept(s, t, i);
    }
  }

  lemma HasShort(es: seq<Entry>, name: string)
    ensures Has(es, Short(name)) == Has(es, name)
  {
    assert Short(Short(name)) == Short(name);
    assert forall e :: Matches(e, Short(name)) == Matches(e, name);
  }

  lemma ZeroSums(s: State, i: nat)
    requires Inv(s) && 0 < i < |s.nodes| && s.nodes[i].nlink == 0
    ensures s.pending[i] == 0 && Sum(s.nodes, i, Plain) == 0 && Sum(s.nodes, i, Parent) == 0
  {
    InvNode(s, i);
  }

  lemma InvNode(s: State, i: nat)
    requires Inv(s) && i < |s.nodes|
    ensures NodeOk(s, i) && (i > 0 ==> CountOk(s, i))
  {
  }

  lemma NewLive(t: State, ip: nat, dp: nat)
    requires |t.nodes| == |t.depth| && 0 < ip < |t.nodes| && ip != ROOT && dp < |t.nodes| && Live(t.nodes[dp])
    requires t.depth[ip] == t.depth[dp] + 1 && t.nodes[ip].entries == [Entry(ip, "."), Entry(dp, "..")]
    ensures LiveOk(t, ip)
  {
  }

  lemma CreateCount(s: State, t: State, dp: nat, name: string, kind: Kind, ip: nat, i: nat)
    requires Inv(s) && CreateShape(s, t, dp, name, kind, ip) && 0 < i < |s.nodes|
    ensures |t.nodes| == |t.depth| == |t.pending| == |s.nodes| && CountOk(t, i)
  {
    hide Sum, Add, DirsIn, Unique, Inv, Has, LiveOk, IsDir, PlainIn, NodeOk, CreateShape;
    CreateSizes(s, t, dp, name, kind, ip);
    InvNode(s, i);
    ZeroSums(s, ip);
    CreateSums(s, t, dp, name, kind, ip, i);
    if i == ip {
      NewDirs(t.nodes, ip, dp);
    } else if Live(s.nodes[i]) {
      CreateDirs(s, t, dp, name, kind, ip, i);
    }
  }

  /** The entry counts for the new inode, and for a directory its ".." counts for the parent. */
  lemma CreateSums(s: State, t: State, dp: nat, name: string, kind: Kind, ip: nat, i: nat)
    requires Inv(s) && CreateShape(s, t, dp, name, kind, ip) && 0 < i < |s.nodes|
    ensures Sum(t.nodes, i, Plain) == Sum(s.nodes, i, Plain) + One(i == ip)
    ensures Sum(t.nodes, i, Parent) == Sum(s.nodes, i, Parent) + One(kind == Directory && i == dp)
  {
    CreateSizes(s, t, dp, name, kind, ip);
    var es, e := s.nodes[dp].entries, Entry(ip, Short(name));
    DotsInUse(s, dp);
    hide Sum, Add, Unique, Inv, Has, LiveOk;
    var m := MadeNode(s.nodes, dp, kind, ip);
    SumUpdate(s.nodes, ip, m[ip], i, Plain);
    SumUpdate(s.nodes, ip, m[ip], i, Parent);
    SumUpdate(m, dp, t.nodes[dp], i, Plain);
    SumUpdate(m, dp, t.nodes[dp], i, Parent);
    AddCounts(s.nodes, es, e, i);
  }

  lemma CreateDirs(s: State, t: State, dp: nat, name: string, kind: Kind, ip: nat, i: nat)
    requires Inv(s) && CreateShape(s, t, dp, name, kind, ip) && 0 < i < |s.nodes| && Live(s.nodes[i])
    ensures i < |t.nodes| && DirsIn(t.nodes, t.nodes[i].entries) ==
            DirsIn(s.nodes, s.nodes[i].entries) + One(kind == Directory && i == dp)
  {
    CreateSizes(s, t, dp, name, kind, ip);
    DotsInUse(s, i);
    NamedNowhere(s, ip, i);
    hide Sum, Add, Unique, Inv, Has, DirsIn;
    DirsSame(s.nodes, t.nodes, s.nodes[i].entries);
    if i == dp {
      AddCounts(t.nodes, s.nodes[dp].entries, Entry(ip, Short(name)), 1);
    }
  }

  lemma NewDirs(s: seq<Node>, ip: nat, dp: nat)
    ensures DirsIn(s, [Entry(ip, "."), Entry(dp, "..")]) == 0
  {
  }

  // ----- whole runs -----

  /** A file system with nothing but its root, as mkfs starts. */
  ghost predicate Initial(s: State) {
    && |s.nodes| == |s.depth| == |s.pending| && ROOT < |s.nodes| && s.depth[ROOT] == 0
    && s.nodes[ROOT] == Node(Directory, 1, [Entry(ROOT, "."), Entry(ROOT, "..")])
    && (forall i :: 0 <= i < |s.nodes| && i != ROOT ==> s.nodes[i] == Node(Unused, 0, []))
    && (forall i :: 0 <= i < |s.nodes| ==> s.pending[i] == 0)
  }

  ghost predicate Run(states: seq<State>, acts: seq<Action>) {
    && |states| == |acts| + 1 && Initial(states[0])
    && (forall k :: 0 <= k < |acts| ==> |states[k].nodes| == |states[k].depth| == |states[k].pending| &&
                                        Enabled(states[k], acts[k]) && states[k + 1] == Do(states[k], acts[k]))
  }

  lemma InitialInv(s: State)
    requires Initial(s)
    ensures Inv(s)
  {
    forall i | 0 < i < |s.nodes| ensures CountOk(s, i) {
      InitialSum(s.nodes, i, Plain);
      InitialSum(s.nodes, i, Parent);
    }
  }

  lemma {:induction false} InitialSum(s: seq<Node>, i: nat, c: Count)
    requires forall j :: 0 <= j < |s| ==> s[j] == if j == ROOT
                                          then Node(Directory, 1, [Entry(ROOT, "."), Entry(ROOT, "..")])
                                               else Node(Unused, 0, [])
    requires c != All
    ensures Sum(s, i, c) == One(|s| > ROOT && i == ROOT && c == Parent)
  {
    if s != [] {
      InitialSum(s[..|s| - 1], i, c);
    }
  }

  lemma KeepInv(s: State, a: Action)
    requires Inv(s) && Enabled(s, a)
    ensures Inv(Do(s, a))
  {
    match a
    case LinkBegin(ip) => KeepLinkBegin(s, ip);
    case LinkEnd(ip, dp, name) => KeepLinkEnd(s, ip, dp, name);
    case LinkAbort(ip) => KeepLinkAbort(s, ip);
    case Unlink(dp, name) => KeepUnlink(s, dp, name);
    case Create(dp, name, kind, ip) => KeepCreate(s, dp, name, kind, ip);
    case Reclaim(i) => KeepReclaim(s, i);
  }

  lemma {:induction false} RunInv(states: seq<State>, acts: seq<Action>, k: nat)
    requires Run(states, acts) && k <= |acts|
    ensures Inv(states[k])
  {
    hide Inv, Enabled, Do;
    if k == 0 {
      InitialInv(states[0]);
    } else {
      RunInv(states, acts, k - 1);
      KeepInv(states[k - 1], acts[k - 1]);
    }
  }

  // ----- what the invariant means -----

  lemma {:induction false} NamedSplit(es: seq<Entry>, i: nat)
    requires |es| >= 2 && es[0].name == "." && es[1].name == ".." && i != 0
    requires forall k :: 2 <= k < |es| && es[k].inum != 0 ==> es[k].name != "."
    ensures NamedIn(es, i) == PlainIn(es, i) + One(es[1].inum == i)
  {
    var init := es[..|es| - 1];
    if |es| > 2 {
      NamedSplit(init, i);
    } else {
      assert init == [es[0]] && init[..0] == [];
      assert NamedIn(init, i) == 0;
    }
  }

  lemma {:induction false} AllIsBoth(s: State, n: nat, i: nat)
    requires Inv(s) && n <= |s.nodes| && i != 0
    ensures Sum(s.nodes[..n], i, All) == Sum(s.nodes[..n], i, Plain) + Sum(s.nodes[..n], i, Parent)
  {
    if n > 0 {
      assert s.nodes[..n][..n - 1] == s.nodes[..n - 1];
      AllIsBoth(s, n - 1, i);
      InvNode(s, n - 1);
      if Live(s.nodes[n - 1]) {
        NamedSplit(s.nodes[n - 1].entries, i);
      }
    }
  }

  /** nlink is the number of entries other than "." that name the inode in live directories, plus links under way. */
  lemma LinkCounts(s: State, i: nat)
    requires Inv(s) && 0 < i < |s.nodes|
    ensures s.nodes[i].nlink == Sum(s.nodes, i, All) + s.pending[i]
  {
    hide Sum;
    InvNode(s, i);
    AllIsBoth(s, |s.nodes|, i);
    assert s.nodes[..|s.nodes|] == s.nodes;
  }

  /** No live directory names a free inode, and no two of its names agree on DIRSIZ bytes. */
  lemma NoDangling(s: State, d: nat, k: nat)
    requires Inv(s) && d < |s.nodes| && Live(s.nodes[d]) && k < |s.nodes[d].entries| && s.nodes[d].entries[k].inum != 0
    ensures s.nodes[d].entries[k].inum < |s.nodes| && s.nodes[s.nodes[d].entries[k].inum].kind != Unused
    ensures forall j :: 0 <= j < |s.nodes[d].entries| && j != k ==>
                        !Matches(s.nodes[d].entries[j], s.nodes[d].entries[k].name)
  {
    InvNode(s, d);
    var i := s.nodes[d].entries[k].inum;
    InvNode(s, i);
    if s.nodes[i].nlink == 0 {
      NamedNowhere(s, i, d);
    }
  }

  // ----- directories as maps from names -----

  /** What a name leads to, compared on its first DIRSIZ characters. */
  ghost function Leads(es: seq<Entry>, name: string): Option<nat> {
    if Has(es, name) then Some(Named(es, name)) else None
  }

  lemma FindIs(es: seq<Entry>, name: string, k: nat)
    requires k <= |es| && (k < |es| ==> Matches(es[k], name)) && forall j :: 0 <= j < k ==> !Matches(es[j], name)
    ensures Find(es, name, 0) == k
  {
  }

  /** A new entry adds one name and leaves every other where it led. */
  lemma {:induction false} EnterLeads(es: seq<Entry>, name: string, inum: nat, other: string)
    requires !Has(es, name) && inum != 0
    ensures Leads(Add(es, Entry(inum, Short(name))), other) ==
            if Short(other) == Short(name) then Some(inum) else Leads(es, other)
  {
    var k, e := Empty(es, 0), Entry(inum, Short(name));
    var es' := Add(es, e);
    assert Short(Short(name)) == Short(name);
    if Short(other) == Short(name) {
      assert forall j :: 0 <= j < |es| ==> (Matches(es[j], other) <==> Matches(es[j], name));
      FindIs(es', other, k);
    } else {
      var r := Find(es, other, 0);
      FindIs(es', other, if r < |es| then r else |es'|);
    }
  }

  /** create adds one name, for a node of the kind asked for with one link and, in a directory, its dots. */
  lemma {:induction false} CreateLeads(s: seq<Node>, dp: nat, name: string, kind: Kind, ip: nat, other: string)
    requires dp < |s| && 0 < ip < |s| && dp != ip && dp != 0 && !Has(s[dp].entries, name)
    ensures var t := Created(s, dp, name, kind, ip);
            Leads(t[dp].entries, other) ==
              (if Short(other) == Short(name) then Some(ip) else Leads(s[dp].entries, other)) &&
            t[ip].kind == kind && t[ip].nlink == 1 &&
            (if kind == Directory then Leads(t[ip].entries, ".") == Some(ip) && Leads(t[ip].entries, "..") == Some(dp)
             else t[ip].entries == []) &&
            forall j :: 0 <= j < |s| && j != dp && j != ip ==> t[j] == s[j]
  {
    EnterLeads(s[dp].entries, name, ip, other);
    var dots := [Entry(ip, "."), Entry(dp, "..")];
    FindIs(dots, ".", 0);
    FindIs(dots, "..", 1);
  }

  /** Unlinking removes one name and leaves every other where it led. */
  lemma {:induction false} ClearLeads(es: seq<Entry>, name: string, other: string)
    requires Unique(es) && Has(es, name)
    ensures Leads(es[Find(es, name, 0) := Entry(0, "")], other) ==
            if Short(other) == Short(name) then None else Leads(es, other)
  {
    var k := Find(es, name, 0);
    var es' := es[k := Entry(0, "")];
    if Short(other) == Short(name) {
      forall j | 0 <= j < |es'| ensures !Matches(es'[j], other) {
      }
      FindIs(es', other, |es'|);
    } else {
      FindIs(es', other, Find(es, other, 0));
    }
  }

  /**
   unlink of any name that is there, other than the dots, removes that name and no other and takes one
   off the count, except for a directory with entries, which it refuses.
   */
  lemma {:induction false} UnlinkRemoves(s: State, dp: nat, name: string, other: string)
    requires Inv(s) && dp < |s.nodes| && s.nodes[dp].kind == Directory && Has(s.nodes[dp].entries, name)
    requires Short(name) != "." && Short(name) != ".."
    ensures var i := Named(s.nodes[dp].entries, name);
            i < |s.nodes| &&
            (Refuses(s.nodes, dp, name) <==> s.nodes[i].kind == Directory && !Bare(s.nodes[i].entries))
    ensures var i, t := Named(s.nodes[dp].entries, name), Unlinked(s.nodes, dp, name);
            !Refuses(s.nodes, dp, name) ==>
              t[i].nlink == s.nodes[i].nlink - 1 &&
              Leads(t[dp].entries, other) ==
                if Short(other) == Short(name) then None else Leads(s.nodes[dp].entries, other)
  {
    hide Sum;
    var k, es := Find(s.nodes[dp].entries, name, 0), s.nodes[dp].entries;
    InvNode(s, dp);
    assert Matches(es[k], name) && Short(".") == "." && Short("..") == "..";
    if !Refuses(s.nodes, dp, name) {
      UnlinkFinds(s, dp, name, k);
      ClearLeads(es, name, other);
      if s.nodes[es[k].inum].kind == Directory {
        UnlinkFindsDir(s, dp, name, k, es[k].inum);
      }
    }
  }

  /** The directory n steps up along "..". */
  ghost function Up(s: State, d: nat, n: nat): (r: nat)
    requires Inv(s) && d < |s.nodes| && Live(s.nodes[d])
    ensures r < |s.nodes| && Live(s.nodes[r])
    decreases n
  {
    if n == 0 then d else InvNode(s, d); Up(s, s.nodes[d].entries[1].inum, n - 1)
  }

  /** Live directories are a tree: each is named once, by its parent, and its parents lead to the root. */
  lemma {:induction false} Tree(s: State, d: nat)
    requires Inv(s) && d < |s.nodes| && Live(s.nodes[d])
    ensures Up(s, d, s.depth[d]) == ROOT && Sum(s.nodes, d, Plain) == One(d != ROOT)
    decreases s.depth[d]
  {
    InvNode(s, d);
    DotsInUse(s, d);
    if d != ROOT {
      Tree(s, s.nodes[d].entries[1].inum);
    }
  }

  /** The entry that names a directory is in the directory its ".." names. */
  lemma NamedByParent(s: State, d: nat, k: nat)
    requires Inv(s) && d < |s.nodes| && Live(s.nodes[d]) && 2 <= k < |s.nodes[d].entries| &&
             IsDir(s.nodes, s.nodes[d].entries[k].inum)
    ensures var c := s.nodes[d].entries[k].inum; Live(s.nodes[c]) && |s.nodes[c].entries| >= 2 &&
                                                 s.nodes[c].entries[1].inum == d && s.depth[c] == s.depth[d] + 1
  {
    InvNode(s, d);
    var c := s.nodes[d].entries[k].inum;
    InvNode(s, c);
    PlainAtLeast(s.nodes[d].entries, k, c);
    SumAtLeast(s.nodes, d, c, Plain);
  }

  // ----- when the counts hold without assuming live parents -----

  ghost predicate CountsHold(s: State) {
    |s.nodes| == |s.depth| == |s.pending| &&
    forall i :: 0 < i < |s.nodes| ==> s.nodes[i].nlink == Sum(s.nodes, i, All) + s.pending[i]
  }

  lemma InvCounts(s: State)
    requires Inv(s)
    ensures CountsHold(s)
  {
    forall i | 0 < i < |s.nodes| ensures s.nodes[i].nlink == Sum(s.nodes, i, All) + s.pending[i] {
      LinkCounts(s, i);
    }
  }

  /** How many entries all directories have. */
  ghost function Total(s: seq<Node>): nat {
    if s == [] then 0 else Total(s[..|s| - 1]) + |s[|s| - 1].entries|
  }

  lemma {:induction false} NamedAtMost(es: seq<Entry>, i: nat)
    ensures NamedIn(es, i) <= |es|
  {
    if es != [] {
      NamedAtMost(es[..|es| - 1], i);
    }
  }

  lemma {:induction false} SumAtMost(s: seq<Node>, i: nat)
    ensures Sum(s, i, All) <= Total(s)
  {
    if s != [] {
      SumAtMost(s[..|s| - 1], i);
      NamedAtMost(s[|s| - 1].entries, i);
    }
  }

  /** No count gets to the largest short while entries and links under way together are fewer. */
  lemma {:induction false} CountFits(s: State, i: nat)
    requires Inv(s) && 0 < i < |s.nodes| && Total(s.nodes) + s.pending[i] < MAXLINK
    ensures s.nodes[i].nlink < MAXLINK
  {
    hide Inv;
    LinkCounts(s, i);
    SumAtMost(s.nodes, i);
  }

  /** sys_link's count is right exactly when it does not pass the largest short. */
  lemma LinkBeginIff(s: State, ip: nat)
    requires Inv(s) && ip < |s.nodes| && s.nodes[ip].kind in {File, Device}
    ensures CountsHold(State(Counted(s.nodes, ip, true), s.pending[ip := s.pending[ip] + 1], s.depth)) <==>
            s.nodes[ip].nlink < MAXLINK
  {
    var t := State(Counted(s.nodes, ip, true), s.pending[ip := s.pending[ip] + 1], s.depth);
    LinkCounts(s, ip);
    if s.nodes[ip].nlink < MAXLINK {
      assert t == Do(s, LinkBegin(ip));
      KeepLinkBegin(s, ip);
      InvCounts(t);
    } else {
      assert t.nodes[ip].nlink != Sum(t.nodes, ip, All) + t.pending[ip];
    }
  }

  /** The entry sys_link makes keeps the counts exactly when the directory has not been unlinked meanwhile. */
  lemma LinkEndIff(s: State, ip: nat, dp: nat, name: string)
    requires Inv(s) && ip < |s.nodes| && dp < |s.nodes| && s.pending[ip] > 0 && s.nodes[dp].kind == Directory
    requires !Has(s.nodes[dp].entries, name)
    ensures CountsHold(State(Entered(s.nodes, dp, name, ip), s.pending[ip := s.pending[ip] - 1], s.depth)) <==>
            Live(s.nodes[dp])
  {
    var t := State(Entered(s.nodes, dp, name, ip), s.pending[ip := s.pending[ip] - 1], s.depth);
    InvNode(s, dp);
    PendingIsFile(s, ip);
    hide Inv;
    if Live(s.nodes[dp]) {
      assert t == Do(s, LinkEnd(ip, dp, name));
      KeepLinkEnd(s, ip, dp, name);
      InvCounts(t);
    } else {
      LinkCounts(s, ip);
      SumUpdate(s.nodes, dp, t.nodes[dp], ip, All);
      assert t.nodes[ip].nlink != Sum(t.nodes, ip, All) + t.pending[ip];
    }
  }

  /** create keeps the counts exactly when its parent is linked and its count does not pass the largest short. */
  lemma CreateIff(s: State, dp: nat, name: string, kind: Kind, ip: nat)
    requires Inv(s) && dp < |s.nodes| && 0 < ip < |s.nodes| && s.nodes[dp].kind == Directory &&
             s.nodes[ip].kind == Unused && kind != Unused
    requires !Has(s.nodes[dp].entries, name)
    ensures CountsHold(State(Created(s.nodes, dp, name, kind, ip), s.pending, s.depth[ip := s.depth[dp] + 1])) <==>
            Live(s.nodes[dp]) && (kind == Directory ==> s.nodes[dp].nlink < MAXLINK)
  {
    var t := State(Created(s.nodes, dp, name, kind, ip), s.pending, s.depth[ip := s.depth[dp] + 1]);
    InvNode(s, dp);
    InvNode(s, ip);
    LinkCounts(s, dp);
    hide Inv;
    if Live(s.nodes[dp]) && (kind == Directory ==> s.nodes[dp].nlink < MAXLINK) {
      assert t == Do(s, Create(dp, name, kind, ip));
      KeepCreate(s, dp, name, kind, ip);
      InvCounts(t);
    } else if Live(s.nodes[dp]) {
      assert t.nodes[dp].nlink < 0;
      assert t.nodes[dp].nlink != Sum(t.nodes, dp, All) + t.pending[dp];
    } else if kind == Directory {
      CreateDirDead(s, t, dp, name, ip);
    } else {
      LinkCounts(s, ip);
      SumUpdate(s.nodes, ip, t.nodes[ip], ip, All);
      SumUpdate(s.nodes[ip := t.nodes[ip]], dp, t.nodes[dp], ip, All);
      assert t.nodes[ip].nlink != Sum(t.nodes, ip, All) + t.pending[ip];
    }
  }

  lemma {:induction false} NamedAtLeast(es: seq<Entry>, j: nat, k: nat, i: nat)
    requires j < |es| && k < |es| && es[j].inum == i == es[k].inum && es[j].name != "." && es[k].name != "."
    ensures NamedIn(es, i) >= if j == k then 1 else 2
  {
    var last := |es| - 1;
    if j < last && k < last {
      NamedAtLeast(es[..last], j, k, i);
    } else if j < last {
      NamedAtLeast(es[..last], j, j, i);
    } else if k < last {
      NamedAtLeast(es[..last], k, k, i);
    }
  }

  /** mkdir in an unlinked directory brings its ".." back to life, which the old parent does not count. */
  lemma CreateDirDead(s: State, t: State, dp: nat, name: string, ip: nat)
    requires Inv(s) && dp < |s.nodes| && 0 < ip < |s.nodes| && s.nodes[dp].kind == Directory && !Live(s.nodes[dp])
    requires s.nodes[ip].kind == Unused && !Has(s.nodes[dp].entries, name)
    requires t == State(Created(s.nodes, dp, name, Directory, ip), s.pending, s.depth[ip := s.depth[dp] + 1])
    ensures !CountsHold(t)
  {
    hide Sum, Add, Has, LiveOk, CountOk;
    InvNode(s, dp);
    InvNode(s, ip);
    LinkCounts(s, dp);
    var es, e := s.nodes[dp].entries, Entry(ip, Short(name));
    var p := es[1].inum;
    LinkCounts(s, p);
    LinkCounts(s, ip);
    HasShort(es, name);
    NotDot(es, e.name);
    var x, y := Node(Directory, 1, [Entry(ip, "."), Entry(dp, "..")]), Node(Directory, 1, Add(es, e));
    assert t.nodes == s.nodes[ip := x][dp := y];
    DeadSum(s.nodes, ip, x, dp, y, es, e, p);
    assert t.nodes[p].nlink != Sum(t.nodes, p, All) + t.pending[p];
  }

  lemma DeadSum(s: seq<Node>, ip: nat, x: Node, dp: nat, y: Node, es: seq<Entry>, e: Entry, p: nat)
    requires ip < |s| && dp < |s| && ip != dp && p != dp && !Live(s[ip]) && !Live(s[dp]) && Live(y) &&
             y.entries == Add(es, e)
    requires |es| >= 2 && es[0].inum != 0 && es[1].inum == p != 0 && es[1].name == ".." && e.inum == ip && e.name != "."
    ensures Sum(s[ip := x][dp := y], p, All) >= Sum(s, p, All) + if p == ip then 2 else 1
  {
    SumUpdate(s, ip, x, p, All);
    SumUpdate(s[ip := x], dp, y, p, All);
    hide Sum, NamedIn;
    DeadAdd(es, e);
    var es' := y.entries;
    var k :| 2 <= k < |es'| && es'[k] == e;
    NamedAtLeast(es', 1, if p == ip then k else 1, p);
  }

  lemma NotDot(es: seq<Entry>, name: string)
    requires |es| >= 1 && es[0].inum != 0 && es[0].name == "." && !Has(es, name)
    ensures name != "."
  {
    assert !Matches(es[0], name);
  }

  lemma DeadAdd(es: seq<Entry>, e: Entry)
    requires |es| >= 2 && es[0].inum != 0 && es[1].inum != 0
    ensures var es' := Add(es, e); |es'| >= 2 && es'[1] == es[1] && exists k :: 2 <= k < |es'| && es'[k] == e
  {
    AddPlace(es);
    var k := Empty(es, 0);
    assert Add(es, e)[k] == e;
  }

  /**
   Link 3 is under way and directory 2, where its entry is to go, has been unlinked: the entry leaves a count
   too high.
   */
  ghost predicate Breaks(s: State) {
    && |s.nodes| == |s.pending| == |s.depth| == 4 && s.nodes[2].kind == Directory && s.pending[3] > 0 &&
       !Has(s.nodes[2].entries, "g")
    && !CountsHold(State(Entered(s.nodes, 2, "g", 3), s.pending[3 := s.pending[3] - 1], s.depth))
  }

  /** A run of four steps that gets there. */
  lemma {:induction false} LinkInUnlinked() returns (states: seq<State>, acts: seq<Action>)
    ensures Run(states, acts) && |acts| == 4 && Breaks(states[4])
  {
    hide Do, Enabled, Initial, Inv, Breaks;
    var free := Node(Unused, 0, []);
    var dots := [Entry(1, "."), Entry(1, "..")];
    var d, f := Node(Directory, 1, [Entry(2, "."), Entry(1, "..")]), Node(File, 1, []);
    var s0 := State([free, Node(Directory, 1, dots), free, free], [0, 0, 0, 0], [0, 0, 0, 0]);
    var s1 := State([free, Node(Directory, 2, dots + [Entry(2, "d")]), d, free], [0, 0, 0, 0], [0, 0, 1, 0]);
    var s2 := State([free, Node(Directory, 2, dots + [Entry(2, "d"), Entry(3, "f")]), d, f], [0, 0, 0, 0],
                    [0, 0, 1, 1]);
    var s3 := State([free, Node(Directory, 2, dots + [Entry(2, "d"), Entry(3, "f")]), d, f.(nlink := 2)], [0, 0, 0, 1],
                    [0, 0, 1, 1]);
    var s4 := State([free, Node(Directory, 1, dots + [Entry(0, ""), Entry(3, "f")]), d.(nlink := 0), f.(nlink := 2)],
                    [0, 0, 0, 1], [0, 0, 1, 1]);
    StartS(s0);
    MakeD(s0, s1);
    MakeF(s1, s2);
    BeginF(s2, s3);
    assert s3.nodes[1].entries[2 := Entry(0, "")] == s4.nodes[1].entries;
    UnlinkD(s3, s4);
    acts := [Create(1, "d", Directory, 2), Create(1, "f", File, 3), LinkBegin(3), Unlink(1, "d")];
    states := [s0, s1, s2, s3, s4];
    RunInv(states, acts, 4);
    Broken(s4);
  }

  lemma {:induction false} StartS(s: State)
    requires var free := Node(Unused, 0, []);
             s == State([free, Node(Directory, 1, [Entry(1, "."), Entry(1, "..")]), free, free], [0, 0, 0, 0],
                        [0, 0, 0, 0])
    ensures Initial(s)
  {
  }

  lemma {:induction false} BeginF(s: State, t: State)
    requires |s.nodes| == |s.pending| == |s.depth| == 4 && s.nodes[3] == Node(File, 1, []) && s.pending[3] == 0
    requires t == s.(nodes := s.nodes[3 := Node(File, 2, [])], pending := s.pending[3 := 1])
    ensures Enabled(s, LinkBegin(3)) && Do(s, LinkBegin(3)) == t
  {
  }

  lemma {:induction false} Broken(s: State)
    requires Inv(s) && |s.nodes| == 4 && s.nodes[2] == Node(Directory, 0, [Entry(2, "."), Entry(1, "..")]) &&
             s.pending[3] == 1
    ensures Breaks(s)
  {
    assert !Has(s.nodes[2].entries, "g");
    LinkEndIff(s, 3, 2, "g");
  }

  lemma {:induction false} MakeD(s: State, t: State)
    requires var dots := [Entry(1, "."), Entry(1, "..")]; var free := Node(Unused, 0, []);
             s == State([free, Node(Directory, 1, dots), free, free], [0, 0, 0, 0], [0, 0, 0, 0]) &&
             t == State([free, Node(Directory, 2, dots + [Entry(2, "d")]),
                         Node(Directory, 1, [Entry(2, "."), Entry(1, "..")]), free],
                        [0, 0, 0, 0], [0, 0, 1, 0])
    ensures Enabled(s, Create(1, "d", Directory, 2)) && Do(s, Create(1, "d", Directory, 2)) == t
  {
    var es := s.nodes[1].entries;
    assert !Has(es, "d");
    assert Empty(es, 0) == 2;
  }

  lemma {:induction false} MakeF(s: State, t: State)
    requires var dots := [Entry(1, "."), Entry(1, "..")]; var free := Node(Unused, 0, []); var d := Node(Directory, 1,
          [Entry(2, "."), Entry(1, "..")]);
             s == State([free, Node(Directory, 2, dots + [Entry(2, "d")]), d, free], [0, 0, 0, 0], [0, 0, 1, 0]) &&
             t == State([free, Node(Directory, 2, dots + [Entry(2, "d"), Entry(3, "f")]), d, Node(File, 1, [])],
                        [0, 0, 0, 0], [0, 0, 1, 1])
    ensures Enabled(s, Create(1, "f", File, 3)) && Do(s, Create(1, "f", File, 3)) == t
  {
    var es := s.nodes[1].entries;
    assert !Has(es, "f");
    assert Empty(es, 0) == 3;
    assert es + [Entry(3, "f")] == t.nodes[1].entries;
  }

  lemma {:induction false} UnlinkD(s: State, t: State)
    requires |s.nodes| == 4 && s.nodes[1].kind == Directory && s.nodes[1].nlink == 2
    requires [Entry(1, "."), Entry(1, ".."), Entry(2, "d")] <= s.nodes[1].entries
    requires s.nodes[2] == Node(Directory, 1, [Entry(2, "."), Entry(1, "..")]) && |s.pending| == |s.depth| == 4
    requires t == s.(nodes := [s.nodes[0], Node(Directory, 1, s.nodes[1].entries[2 := Entry(0, "")]),
                               s.nodes[2].(nlink := 0), s.nodes[3]])
    ensures Enabled(s, Unlink(1, "d")) && Do(s, Unlink(1, "d")) == t
  {
    var es := s.nodes[1].entries;
    assert es[0] == Entry(1, ".") && es[1] == Entry(1, "..") && es[2] == Entry(2, "d");
    assert Matches(es[2], "d") && !Matches(es[0], "d") && !Matches(es[1], "d");
    assert Find(es, "d", 0) == 2;
    assert Bare(s.nodes[2].entries);
  }

  /** Directory 2 has been unlinked; creating a file in it leaves a count too high. */
  ghost predicate CreateBreaks(s: State) {
    && |s.nodes| == |s.pending| == |s.depth| == 4 && s.nodes[2].kind == Directory && s.nodes[3].kind == Unused
    && !Has(s.nodes[2].entries, "f") && !CountsHold(State(Created(s.nodes, 2, "f", File, 3), s.pending,
                                                          s.depth[3 := s.depth[2] + 1]))
  }

  /** A run of two steps that gets there: mkdir and unlink, with the directory still open. */
  lemma {:induction false} CreateInUnlinked() returns (states: seq<State>, acts: seq<Action>)
    ensures Run(states, acts) && |acts| == 2 && CreateBreaks(states[2])
  {
    hide Do, Enabled, Initial, Inv, CreateBreaks;
    var free := Node(Unused, 0, []);
    var dots := [Entry(1, "."), Entry(1, "..")];
    var d := Node(Directory, 1, [Entry(2, "."), Entry(1, "..")]);
    var s0 := State([free, Node(Directory, 1, dots), free, free], [0, 0, 0, 0], [0, 0, 0, 0]);
    var s1 := State([free, Node(Directory, 2, dots + [Entry(2, "d")]), d, free], [0, 0, 0, 0], [0, 0, 1, 0]);
    var s2 := State([free, Node(Directory, 1, dots + [Entry(0, "")]), d.(nlink := 0), free], [0, 0, 0, 0],
                    [0, 0, 1, 0]);
    StartS(s0);
    MakeD(s0, s1);
    assert s1.nodes[1].entries[2 := Entry(0, "")] == s2.nodes[1].entries;
    UnlinkD(s1, s2);
    acts := [Create(1, "d", Directory, 2), Unlink(1, "d")];
    states := [s0, s1, s2];
    RunInv(states, acts, 2);
    CreateBroken(s2);
  }

  lemma {:induction false} CreateBroken(s: State)
    requires Inv(s) && |s.nodes| == 4 && s.nodes[2] == Node(Directory, 0, [Entry(2, "."), Entry(1, "..")]) &&
             s.nodes[3].kind == Unused
    ensures CreateBreaks(s)
  {
    assert !Has(s.nodes[2].entries, "f");
    CreateIff(s, 2, "f", File, 3);
  }
}
