/**
 Page allocation (kalloc.c) and two-level page tables (vm.c).

 Physical memory is an array of pages of 1024 words.  Directories and tables are
 ordinary pages; entries are words with the frame number above the 12 flag bits
 (32-bit paging, section 4.3 of the Intel SDM volume 3A).  A ghost record gives
 the one use each page has; it is tied to memory in both directions, so no page
 has two uses and none is lost.
 */
module Vm {

  import opened Basics

  const ENTRIES: nat := 1024       // words per page, entries per directory or table
  const PGSIZE: nat := 4096
  const KERNBASE: nat := 0x8000_0000
  const KERNPAGE: nat := 0x8_0000  // KERNBASE / PGSIZE: user pages lie below
  const PTE_P: nat := 1
  const PTE_W: nat := 2
  const PTE_U: nat := 4

  type Page = p: seq<nat> | |p| == ENTRIES witness seq(ENTRIES, _ => 0)

  predicate Present(w: nat) {
    w % 2 == 1
  }

  function Frame(w: nat): nat {
    w / PGSIZE
  }

  function Flags(w: nat): nat {
    w % PGSIZE
  }

  /** pa | perm | PTE_P for the frame p. */
  function MkPte(p: nat, perm: nat): (w: nat)
    requires perm < PGSIZE
    ensures Present(w) && Frame(w) == p && Flags(w) == (if Present(perm) then perm else perm + 1)
  {
    var f := if Present(perm) then perm else perm + 1;
    assert (p * PGSIZE + f) / PGSIZE == p && (p * PGSIZE + f) % PGSIZE == f;
    assert p * PGSIZE + f == 2 * (p * 2048) + f;
    p * PGSIZE + f
  }

  /** What a page is used for; Held is any use by the kernel outside these tables. */
  datatype Kind = Free | Held | Dir | Table(d: nat, i: nat) | User(d: nat, v: nat)

  // ----- the flat view of a directory -----

  /** The entry for page v of the address space, 0 where there is no table. */
  function Look(m: seq<Page>, d: nat, v: nat): (w: nat)
    requires d < |m| && v < ENTRIES * ENTRIES
  {
    var e := m[d][v / ENTRIES];
    if Present(e) && Frame(e) < |m| then m[Frame(e)][v % ENTRIES] else 0
  }

  // ----- consistency of uses and memory -----

  /** Tables and user pages of directory d are recorded as such. */
  ghost predicate DirOk(m: seq<Page>, kind: seq<Kind>, d: nat)
    requires d < |m| == |kind|
  {
    && (forall i: nat :: i < ENTRIES && Present(m[d][i]) ==>
                         Frame(m[d][i]) < |m| && kind[Frame(m[d][i])] == Table(d, i))
    && (forall v: nat :: v < KERNPAGE && Present(Look(m, d, v)) ==>
          Frame(Look(m, d, v)) < |m| && kind[Frame(Look(m, d, v))] == User(d, v))
  }

  /** A page recorded as a table or a user page is one. */
  ghost predicate UseOk(m: seq<Page>, kind: seq<Kind>, q: nat)
    requires q < |m| == |kind|
  {
    match kind[q]
    case Table(d, i) => d < |m| && kind[d] == Dir && i < ENTRIES && Present(m[d][i]) && Frame(m[d][i]) == q
    case User(d, v) =>
      d < |m| && kind[d] == Dir && v < KERNPAGE && Present(Look(m, d, v)) && Frame(Look(m, d, v)) == q
    case _ => true
  }

  ghost predicate PagesOk(m: seq<Page>, kind: seq<Kind>) {
    && |kind| == |m|
    && (forall d :: 0 <= d < |m| && kind[d] == Dir ==> DirOk(m, kind, d))
    && (forall q :: 0 <= q < |m| ==> UseOk(m, kind, q))
  }

  /** Writing a page that is held, or freeing or taking one, disturbs no table. */
  lemma HeldChange(m: seq<Page>, kind: seq<Kind>, p: nat, page: Page, k: Kind)
    requires PagesOk(m, kind) && p < |m| && (kind[p] == Held || kind[p] == Free) && (k == Held || k == Free)
    ensures PagesOk(m[p := page], kind[p := k])
    ensures forall d, v: nat :: 0 <= d < |m| && kind[d] == Dir && v < ENTRIES * ENTRIES ==>
              Look(m[p := page], d, v) == Look(m, d, v)
  {
    var m', kind' := m[p := page], kind[p := k];
    forall d, v: nat | 0 <= d < |m| && kind[d] == Dir && v < ENTRIES * ENTRIES ensures Look(m', d, v) == Look(m, d, v) {
      assert DirOk(m, kind, d);
    }
    forall d | 0 <= d < |m| && kind'[d] == Dir ensures DirOk(m', kind', d) {
      assert DirOk(m, kind, d);
    }
    forall q | 0 <= q < |m| ensures UseOk(m', kind', q) {
      assert UseOk(m, kind, q);
    }
  }

  /** Index arithmetic: a page number is its pair of indices. */
  lemma Indices(v: nat, w: nat)
    requires v < ENTRIES * ENTRIES && w < ENTRIES * ENTRIES
    ensures v / ENTRIES < ENTRIES && v % ENTRIES < ENTRIES
    ensures v / ENTRIES == w / ENTRIES && v % ENTRIES == w % ENTRIES ==> v == w
  {
  }

  /** A zeroed held page becomes the missing table i of directory d: the flat view stays. */
  lemma TableAdded(m: seq<Page>, kind: seq<Kind>, d: nat, i: nat, p: nat, w: nat)
    requires PagesOk(m, kind) && d < |m| && kind[d] == Dir && i < ENTRIES && !Present(m[d][i])
    requires p < |m| && kind[p] == Held && m[p] == seq(ENTRIES, _ => 0) && Present(w) && Frame(w) == p
    ensures var m' := m[d := m[d][i := w]];
            PagesOk(m', kind[p := Table(d, i)]) &&
            forall e, v: nat :: 0 <= e < |m| && kind[e] == Dir && v < ENTRIES * ENTRIES ==>
                                Look(m', e, v) == Look(m, e, v)
  {
    var m', kind' := m[d := m[d][i := w]], kind[p := Table(d, i)];
    forall e, v: nat | 0 <= e < |m| && kind[e] == Dir && v < ENTRIES * ENTRIES ensures Look(m', e, v) == Look(m, e, v) {
      assert DirOk(m, kind, e);
    }
    forall e | 0 <= e < |m| && kind'[e] == Dir ensures DirOk(m', kind', e) {
      assert DirOk(m, kind, e);
    }
    forall q | 0 <= q < |m| ensures UseOk(m', kind', q) {
      assert UseOk(m, kind, q);
    }
  }

  /** A write of one entry through its table changes the flat view of that directory there only. */
  lemma EntryWritten(m: seq<Page>, kind: seq<Kind>, d: nat, v: nat, w: nat)
    requires PagesOk(m, kind) && d < |m| && kind[d] == Dir && v < ENTRIES * ENTRIES && Present(m[d][v / ENTRIES])
    ensures var t := Frame(m[d][v / ENTRIES]);
            t < |m| && var m' := m[t := m[t][v % ENTRIES := w]];
            forall e, u: nat :: 0 <= e < |m| && kind[e] == Dir && u < ENTRIES * ENTRIES ==>
              Look(m', e, u) == if e == d && u == v then w else Look(m, e, u)
  {
    assert DirOk(m, kind, d);
    var t := Frame(m[d][v / ENTRIES]);
    var m' := m[t := m[t][v % ENTRIES := w]];
    forall e, u: nat | 0 <= e < |m| && kind[e] == Dir && u < ENTRIES * ENTRIES
      ensures Look(m', e, u) == if e == d && u == v then w else Look(m, e, u)
    {
      assert DirOk(m, kind, e);
      Indices(u, v);
    }
  }

  /** A held page is mapped at a free user page number. */
  lemma UserAdded(m: seq<Page>, kind: seq<Kind>, d: nat, v: nat, w: nat)
    requires PagesOk(m, kind) && d < |m| && kind[d] == Dir && v < KERNPAGE && Present(m[d][v / ENTRIES])
    requires !Present(Look(m, d, v)) && Present(w) && Frame(w) < |m| && kind[Frame(w)] == Held
    ensures var t := Frame(m[d][v / ENTRIES]);
            t < |m| && PagesOk(m[t := m[t][v % ENTRIES := w]], kind[Frame(w) := User(d, v)])
  {
    assert DirOk(m, kind, d);
    EntryWritten(m, kind, d, v, w);
    var t := Frame(m[d][v / ENTRIES]);
    var m', kind' := m[t := m[t][v % ENTRIES := w]], kind[Frame(w) := User(d, v)];
    forall e | 0 <= e < |m| && kind'[e] == Dir ensures DirOk(m', kind', e) {
      assert DirOk(m, kind, e);
    }
    forall q | 0 <= q < |m| ensures UseOk(m', kind', q) {
      assert UseOk(m, kind, q);
    }
  }

  /** A user page is unmapped: its frame is held. */
  lemma UserDropped(m: seq<Page>, kind: seq<Kind>, d: nat, v: nat)
    requires PagesOk(m, kind) && d < |m| && kind[d] == Dir && v < KERNPAGE && Present(m[d][v / ENTRIES])
    requires Present(Look(m, d, v))
    ensures var t, f := Frame(m[d][v / ENTRIES]), Frame(Look(m, d, v));
            t < |m| && f < |m| && kind[f] == User(d, v) && PagesOk(m[t := m[t][v % ENTRIES := 0]], kind[f := Held])
  {
    assert DirOk(m, kind, d);
    EntryWritten(m, kind, d, v, 0);
    var t, f := Frame(m[d][v / ENTRIES]), Frame(Look(m, d, v));
    var m', kind' := m[t := m[t][v % ENTRIES := 0]], kind[f := Held];
    forall e | 0 <= e < |m| && kind'[e] == Dir ensures DirOk(m', kind', e) {
      assert DirOk(m, kind, e);
    }
    forall q | 0 <= q < |m| ensures UseOk(m', kind', q) {
      assert UseOk(m, kind, q);
    }
  }

  /** A kernel page number is mapped; such entries own nothing. */
  lemma KernelAdded(m: seq<Page>, kind: seq<Kind>, d: nat, v: nat, w: nat)
    requires PagesOk(m, kind) && d < |m| && kind[d] == Dir && KERNPAGE <= v < ENTRIES * ENTRIES &&
             Present(m[d][v / ENTRIES])
    ensures var t := Frame(m[d][v / ENTRIES]); t < |m| && PagesOk(m[t := m[t][v % ENTRIES := w]], kind)
  {
    assert DirOk(m, kind, d);
    EntryWritten(m, kind, d, v, w);
    var t := Frame(m[d][v / ENTRIES]);
    var m' := m[t := m[t][v % ENTRIES := w]];
    forall e | 0 <= e < |m| && kind[e] == Dir ensures DirOk(m', kind, e) {
      assert DirOk(m, kind, e);
    }
    forall q | 0 <= q < |m| ensures UseOk(m', kind, q) {
      assert UseOk(m, kind, q);
    }
  }

  /** A zeroed held page becomes an empty directory. */
  lemma DirAdded(m: seq<Page>, kind: seq<Kind>, p: nat)
    requires PagesOk(m, kind) && p < |m| && kind[p] == Held && m[p] == seq(ENTRIES, _ => 0)
    ensures PagesOk(m, kind[p := Dir])
    ensures forall v: nat :: v < ENTRIES * ENTRIES ==> Look(m, p, v) == 0
  {
    var kind' := kind[p := Dir];
    forall e | 0 <= e < |m| && kind'[e] == Dir ensures DirOk(m, kind', e) {
      assert e != p ==> DirOk(m, kind, e);
    }
    forall q | 0 <= q < |m| ensures UseOk(m, kind', q) {
      assert UseOk(m, kind, q);
    }
  }

  /** The uses after directory d is given up: it and its tables are held. */
  ghost function Dropped(kind: seq<Kind>, d: nat): (r: seq<Kind>)
    ensures |r| == |kind|
  {
    seq(|kind|, q requires 0 <= q < |kind| => if q == d || (kind[q].Table? && kind[q].d == d) then Held else kind[q])
  }

  lemma DirDropped(m: seq<Page>, kind: seq<Kind>, d: nat)
    requires PagesOk(m, kind) && d < |m| && kind[d] == Dir
    requires forall v: nat :: v < KERNPAGE ==> !Present(Look(m, d, v))
    ensures PagesOk(m, Dropped(kind, d))
  {
    var kind' := Dropped(kind, d);
    forall e | 0 <= e < |m| && kind'[e] == Dir ensures DirOk(m, kind', e) {
      assert DirOk(m, kind, e);
    }
    forall q | 0 <= q < |m| ensures UseOk(m, kind', q) {
      assert UseOk(m, kind, q);
    }
  }

  // ----- the free list -----

  /** Kernel virtual address of page p. */
  function Addr(p: nat): (a: nat) {
    KERNBASE + p * PGSIZE
  }

  /** The page of a kernel virtual address. */
  function PageOf(a: nat): (p: nat)
    requires a >= KERNBASE
  {
    (a - KERNBASE) / PGSIZE
  }

  /** Address of the k-th free page, 0 past the end. */
  ghost function At(free: seq<nat>, k: nat): nat {
    if k < |free| then Addr(free[k]) else 0
  }

  /** The list threads the free pages through their first words. */
  ghost predicate FreeOk(m: seq<Page>, kind: seq<Kind>, head: nat, free: seq<nat>) {
    && Distinct(free) && head == At(free, 0)
    && (forall k {:trigger free[k]} :: 0 <= k < |free| ==> free[k] < |m|)
    && (forall k {:trigger m[free[k]]} :: 0 <= k < |free| && free[k] < |m| ==> m[free[k]][0] == At(free, k + 1))
    && |kind| == |m|
    && (forall q: nat :: q < |m| ==> (kind[q] == Free <==> q in free))
  }

  lemma FreePop(m: seq<Page>, kind: seq<Kind>, head: nat, free: seq<nat>)
    requires FreeOk(m, kind, head, free) && free != []
    ensures head == Addr(free[0]) && PageOf(head) == free[0] && free[0] < |m| && kind[free[0]] == Free
    ensures FreeOk(m, kind[free[0] := Held], m[free[0]][0], free[1..])
  {
    assert free[0] in free;
    var free' := free[1..];
    forall k {:trigger m[free'[k]]} | 0 <= k < |free'| && free'[k] < |m| ensures m[free'[k]][0] == At(free', k + 1) {
      assert m[free[k + 1]][0] == At(free, k + 2);
    }
    assert m[free[0]][0] == At(free, 1);
    forall q: nat | q < |m| ensures kind[free[0] := Held][q] == Free <==> q in free' {
      assert q in free <==> q == free[0] || q in free';
      if q == free[0] {
        assert forall k :: 0 <= k < |free'| ==> free'[k] != q;
      }
    }
  }

  lemma FreePush(m: seq<Page>, kind: seq<Kind>, head: nat, free: seq<nat>, p: nat, page: Page)
    requires FreeOk(m, kind, head, free) && p < |m| && kind[p] == Held && page[0] == head
    ensures FreeOk(m[p := page], kind[p := Free], Addr(p), [p] + free)
  {
    var m', free' := m[p := page], [p] + free;
    assert p !in free;
    forall k {:trigger m'[free'[k]]} | 0 <= k < |free'| && free'[k] < |m'| ensures m'[free'[k]][0] == At(free', k + 1) {
      if k > 0 {
        assert free'[k] == free[k - 1] && free[k - 1] != p;
        assert m[free[k - 1]][0] == At(free, k);
      }
    }
    forall q: nat | q < |m| ensures kind[p := Free][q] == Free <==> q in free' {
    }
  }

  /** Writing pages that are not free leaves the free list alone. */
  lemma FreeSame(m: seq<Page>, kind: seq<Kind>, head: nat, free: seq<nat>, m': seq<Page>, kind': seq<Kind>)
    requires FreeOk(m, kind, head, free) && |m'| == |m| == |kind'|
    requires forall q :: 0 <= q < |m| ==> (kind'[q] == Free <==> kind[q] == Free)
    requires forall q :: 0 <= q < |m| && kind[q] == Free ==> m'[q] == m[q]
    ensures FreeOk(m', kind', head, free)
  {
    forall k {:trigger m'[free[k]]} | 0 <= k < |free| && free[k] < |m'| ensures m'[free[k]][0] == At(free, k + 1) {
      assert free[k] in free;
      assert m[free[k]][0] == At(free, k + 1);
    }
  }

  /** Every directory maps as before. */
  ghost predicate SameLook(m: seq<Page>, m': seq<Page>, kind: seq<Kind>)
    requires |m| == |m'| == |kind|
  {
    forall e, v: nat :: 0 <= e < |m| && kind[e] == Dir && v < ENTRIES * ENTRIES ==> Look(m', e, v) == Look(m, e, v)
  }

  // ----- tables a range lacks -----

  /** The entries of a directory without a table that the n pages from v on need. */
  ghost function Lacking(dir: Page, v: nat, n: nat): set<nat> {
    set i: nat | i < ENTRIES && n > 0 && v / ENTRIES <= i <= (v + n - 1) / ENTRIES && !Present(dir[i])
  }

  ghost function Missing(dir: Page, v: nat, n: nat): nat {
    |Lacking(dir, v, n)|
  }

  /** The tables for the n pages from v on have been added to a directory, and no others. */
  ghost predicate Tabled(dir0: Page, dir: Page, v: nat, n: nat) {
    forall i: nat :: i < ENTRIES ==>
      (Present(dir[i]) <==> Present(dir0[i]) || (n > 0 && v / ENTRIES <= i <= (v + n - 1) / ENTRIES))
  }

  /** One page more needs one table more exactly when there is none for it yet. */
  lemma {:induction false} MissingNext(dir0: Page, dir: Page, v: nat, n: nat)
    requires Tabled(dir0, dir, v, n) && v + n < ENTRIES * ENTRIES
    ensures Missing(dir0, v, n + 1) == Missing(dir0, v, n) + One(!Present(dir[(v + n) / ENTRIES]))
  {
    var x := (v + n) / ENTRIES;
    assert n > 0 ==> x - 1 <= (v + n - 1) / ENTRIES <= x;
    var more: set<nat> := if Present(dir[x]) then {} else {x};
    assert Lacking(dir0, v, n + 1) == Lacking(dir0, v, n) + more;
    assert Lacking(dir0, v, n) !! more;
  }

  lemma {:induction false} TabledNext(dir0: Page, dir: Page, dir': Page, v: nat, n: nat)
    requires Tabled(dir0, dir, v, n) && Tabled(dir, dir', v + n, 1) && v + n < ENTRIES * ENTRIES
    ensures Tabled(dir0, dir', v, n + 1)
  {
    assert n > 0 ==> (v + n) / ENTRIES - 1 <= (v + n - 1) / ENTRIES <= (v + n) / ENTRIES;
  }

  lemma {:induction false} MissingMore(dir: Page, v: nat, n: nat, n': nat)
    requires n <= n'
    ensures Missing(dir, v, n) <= Missing(dir, v, n')
  {
    assert n > 0 ==> (v + n - 1) / ENTRIES <= (v + n' - 1) / ENTRIES;
    SubsetSize(Lacking(dir, v, n), Lacking(dir, v, n'));
  }

  lemma {:induction false} MissingNone(dir: Page, v: nat)
    ensures Missing(dir, v, 0) == 0 && Tabled(dir, dir, v, 0)
  {
    assert Lacking(dir, v, 0) == {};
  }

  lemma {:induction false} MissingOne(dir: Page, v: nat)
    requires v < ENTRIES * ENTRIES
    ensures Missing(dir, v, 1) == One(!Present(dir[v / ENTRIES]))
  {
    MissingNone(dir, v);
    MissingNext(dir, dir, v, 0);
  }

  /** Where only the first table of the range may be there, the rest are all missing. */
  lemma {:induction false} MissingRest(dir: Page, v: nat, n: nat)
    requires 0 < n && v + n <= ENTRIES * ENTRIES
    requires forall i: nat :: v / ENTRIES < i <= (v + n - 1) / ENTRIES && i < ENTRIES ==> !Present(dir[i])
    ensures Missing(dir, v, n) == (v + n - 1) / ENTRIES - v / ENTRIES + One(!Present(dir[v / ENTRIES]))
  {
    var lo, hi := v / ENTRIES, (v + n - 1) / ENTRIES;
    assert lo <= hi < ENTRIES;
    var from := if Present(dir[lo]) then lo + 1 else lo;
    assert Lacking(dir, v, n) == Range(from, hi + 1 - from);
  }

  const ZEROES: Page := seq(ENTRIES, _ => 0)
  const JUNK: Page := seq(ENTRIES, _ => 0x0101_0101)

  class Machine {
    const mem: array<Page>
    const first: nat              // the first page after the kernel, where end[] lies
    var freelist: nat             // kmem.freelist, a kernel address or 0
    ghost var free: seq<nat>      // the pages on it, in order
    ghost var kind: seq<Kind>     // the use of every page

    ghost predicate Valid()
      reads this, mem
    {
      && |kind| == mem.Length && PagesOk(mem[..], kind) && FreeOk(mem[..], kind, freelist, free)
      && 1 <= first && forall q: nat :: q < mem.Length && q < first ==> kind[q] == Held
    }

    /** A machine at boot: no page is free yet. */
    constructor (pages: nat, first: nat)
      requires 1 <= first
      ensures Valid() && fresh(mem) && mem.Length == pages && this.first == first && free == []
      ensures forall q: nat :: q < pages ==> kind[q] == Held
    {
      mem := new Page[pages](_ => ZEROES);
      this.first := first;
      freelist := 0;
      free := [];
      kind := seq(pages, _ => Held);
    }

    /** freerange: the pages from lo up to hi, one after the other. */
    method FreeRange(lo: nat, hi: nat)
      requires Valid() && first <= lo <= hi <= mem.Length && forall q :: lo <= q < hi ==> kind[q] == Held
      modifies this`freelist, this`free, this`kind, mem
      ensures Valid() && |kind| == |old(kind)| && |free| == |old(free)| + (hi - lo)
      ensures forall q :: 0 <= q < mem.Length ==> kind[q] == if lo <= q < hi then Free else old(kind)[q]
    {
      hide PagesOk, FreeOk, Look;
      for p := lo to hi
        invariant Valid() && |kind| == |old(kind)| && |free| == |old(free)| + (p - lo)
        invariant forall q :: 0 <= q < mem.Length ==> kind[q] == if lo <= q < p then Free else old(kind)[q]
      {
        Kfree(p);
      }
    }

    /** kalloc: the head of the free list, or 0 when it is empty. */
    method Kalloc() returns (r: Option<nat>)
      requires Valid()
      modifies this`freelist, this`free, this`kind
      ensures Valid()
      ensures if old(free) == [] then r == None && free == [] && kind == old(kind)
              else r == Some(old(free)[0]) && free == old(free)[1..] && kind == old(kind)[old(free)[0] := Held]
      ensures r.Some? ==> r.value < mem.Length && old(kind)[r.value] == Free
    {
      hide PagesOk, FreeOk;
      if freelist == 0 {
        FreeEmpty(mem[..], kind, freelist, free);
        return None;
      }
      FreeNonempty(mem[..], kind, freelist, free);
      FreePop(mem[..], kind, freelist, free);
      var p := PageOf(freelist);
      HeldChange(mem[..], kind, p, mem[p], Held);
      assert mem[..][p := mem[p]] == mem[..];
      freelist := mem[p][0];
      kind := kind[p := Held];
      free := free[1..];
      return Some(p);
    }

    /** kfree of a held page: junk, then the link, then the head. */
    method Kfree(p: nat)
      requires Valid() && first <= p < mem.Length && kind[p] == Held
      modifies this`freelist, this`free, this`kind, mem
      ensures Valid() && free == [p] + old(free) && kind == old(kind)[p := Free]
      ensures mem[..] == old(mem[..])[p := JUNK[0 := old(freelist)]]
      ensures SameLook(old(mem[..]), mem[..], old(kind))
    {
      hide PagesOk, FreeOk;
      FreePush(mem[..], kind, freelist, free, p, JUNK[0 := freelist]);
      HeldChange(mem[..], kind, p, JUNK[0 := freelist], Free);
      mem[p] := JUNK;
      mem[p] := mem[p][0 := freelist];
      assert mem[..] == old(mem[..])[p := JUNK[0 := freelist]];
      freelist := Addr(p);
      free, kind := [p] + free, kind[p := Free];
    }

    /** Filling a held page, as memset and memmove do. */
    method Fill(p: nat, page: Page)
      requires Valid() && p < mem.Length && kind[p] == Held
      modifies mem
      ensures Valid() && mem[..] == old(mem[..])[p := page]
      ensures SameLook(old(mem[..]), mem[..], kind)
    {
      hide PagesOk, FreeOk;
      HeldChange(mem[..], kind, p, page, Held);
      assert kind[p := Held] == kind;
      FreeSame(mem[..], kind, freelist, free, mem[..][p := page], kind);
      mem[p] := page;
      assert mem[..] == old(mem[..])[p := page];
    }

    /** walkpgdir: the table for page v, created if absent and asked for. */
    method WalkPgdir(d: nat, v: nat, alloc: bool) returns (r: Option<nat>)
      requires Valid() && d < mem.Length && kind[d] == Dir && v < ENTRIES * ENTRIES
      modifies this`freelist, this`free, this`kind, mem
      ensures Valid() && SameLook(old(mem[..]), mem[..], old(kind))
      ensures var e := old(mem[d])[v / ENTRIES];
              if Present(e) then
                r == Some(Frame(e)) && mem[..] == old(mem[..]) && kind == old(kind) && free == old(free)
              else if !alloc || old(free) == [] then
                r == None && mem[..] == old(mem[..]) && kind == old(kind) && free == old(free)
              else
                r == Some(old(free)[0]) && kind == old(kind)[r.value := Table(d, v / ENTRIES)] &&
                  free == old(free)[1..] &&
                mem[..] == old(mem[..])[r.value := ZEROES][d := old(mem[d])[v / ENTRIES := MkPte(r.value,
                                                                                                 PTE_W + PTE_U)]]
      ensures r.Some? ==> r.value < mem.Length && Present(mem[d][v / ENTRIES]) &&
                          Frame(mem[d][v / ENTRIES]) == r.value &&
                          kind[r.value] == Table(d, v / ENTRIES) && kind[d] == Dir
      ensures r.Some? ==> old(kind)[r.value] == Free || kind == old(kind)
      ensures Tabled(old(mem[d]), mem[d], v, if r.Some? then 1 else 0)
    {
      hide PagesOk, FreeOk;
      DirFacts(mem[..], kind, d, v / ENTRIES);
      var i := v / ENTRIES;
      var pde := mem[d][i];
      if Present(pde) {
        return Some(Frame(pde));
      }
      if !alloc {
        return None;
      }
      var pgtab := Kalloc();
      if pgtab.None? {
        return None;
      }
      var p := pgtab.value;
      Fill(p, ZEROES);
      var w := MkPte(p, PTE_W + PTE_U);
      TableAdded(mem[..], kind, d, i, p, w);
      ghost var m' := mem[..][d := mem[d][i := w]];
      FreeSame(mem[..], kind, freelist, free, m', kind[p := Table(d, i)]);
      mem[d] := mem[d][i := w];
      assert mem[..] == m';
      kind := kind[p := Table(d, i)];
      return pgtab;
    }

    /** One round of mappages: the entry for page v, which must not be present, is set. */
    method MapOne(d: nat, v: nat, p: nat, perm: nat) returns (ok: bool)
      requires Valid() && d < mem.Length && kind[d] == Dir && v < ENTRIES * ENTRIES && perm < PGSIZE
      requires !Present(Look(mem[..], d, v))
      requires v < KERNPAGE ==> p < mem.Length && kind[p] == Held && first <= p
      modifies this`freelist, this`free, this`kind, mem
      ensures Valid() && MappedTo(old(mem[..]), mem[..], old(kind), d, v, if ok then 1 else 0, p, perm)
      ensures MemKept(old(mem[..]), mem[..], kind, d)
      ensures if ok && v < KERNPAGE then kind[p] == User(d, v) && Grew(old(kind), kind[p := Held], d)
              else Grew(old(kind), kind, d)
      ensures !ok ==> kind == old(kind) && free == old(free) && mem[..] == old(mem[..])
      ensures !ok <==> old(free) == [] && !Present(old(mem[d])[v / ENTRIES])
      ensures ok ==> |free| + One(!Present(old(mem[d])[v / ENTRIES])) == |old(free)|
      ensures Tabled(old(mem[d]), mem[d], v, if ok then 1 else 0)
    {
      hide PagesOk, FreeOk, Look, Tabled;
      ghost var m0 := mem[..];
      var r := WalkPgdir(d, v, true);
      if r.None? {
        return false;
      }
      var t := r.value;
      var w := MkPte(p, perm);
      ghost var m1 := mem[..];
      ghost var m2 := m1[t := m1[t][v % ENTRIES := w]];
      EntryWritten(m1, kind, d, v, w);
      if v < KERNPAGE {
        UserAdded(m1, kind, d, v, w);
        FreeSame(m1, kind, freelist, free, m2, kind[p := User(d, v)]);
        kind := kind[p := User(d, v)];
      } else {
        KernelAdded(m1, kind, d, v, w);
        FreeSame(m1, kind, freelist, free, m2, kind);
      }
      mem[t] := mem[t][v % ENTRIES := w];
      assert mem[..] == m2;
      assert MappedTo(m0, m2, old(kind), d, v, 1, p, perm) by {
        hide MkPte;
        assert p + 0 == p;
      }
      return true;
    }

    /** mappages: n entries from page v on; on failure the first done of them stay. */
    method MapPages(d: nat, v: nat, n: nat, p: nat, perm: nat) returns (ok: bool, ghost done: nat)
      requires Valid() && d < mem.Length && kind[d] == Dir && v + n <= ENTRIES * ENTRIES && perm < PGSIZE
      requires v >= KERNPAGE || (n == 1 && p < mem.Length && kind[p] == Held && first <= p)
      requires forall u: nat :: v <= u < v + n ==> !Present(Look(mem[..], d, u))
      modifies this`freelist, this`free, this`kind, mem
      ensures Valid() && done <= n && (ok <==> done == n)
      ensures MappedTo(old(mem[..]), mem[..], old(kind), d, v, done, p, perm)
      ensures MemKept(old(mem[..]), mem[..], kind, d)
      ensures if done == n > 0 && v < KERNPAGE then kind[p] == User(d, v) && Grew(old(kind), kind[p := Held], d)
              else Grew(old(kind), kind, d)
      ensures v < KERNPAGE && !ok ==> kind == old(kind) && free == old(free) && mem[..] == old(mem[..])
      ensures ok <==> |old(free)| >= Missing(old(mem[d]), v, n)
      ensures ok ==> |free| == |old(free)| - Missing(old(mem[d]), v, n) && Tabled(old(mem[d]), mem[d], v, n)
    {
      hide PagesOk, FreeOk, Look, Missing, Tabled;
      ghost var m0, kind0 := mem[..], kind;
      MissingNone(mem[d], v);
      done := 0;
      var k := 0;
      while k < n
        invariant 0 <= k <= n && done == k
        invariant Valid() && kind[d] == Dir
        invariant MappedTo(m0, mem[..], kind0, d, v, k, p, perm)
        invariant MemKept(m0, mem[..], kind, d)
        invariant v >= KERNPAGE ==> Grew(kind0, kind, d)
        invariant v < KERNPAGE && k == 0 ==> kind == kind0 && free == old(free) && mem[..] == m0
        invariant v < KERNPAGE && k == 1 ==> kind[p] == User(d, v) && Grew(kind0, kind[p := Held], d)
        invariant Tabled(m0[d], mem[d], v, k) && |free| + Missing(m0[d], v, k) == |old(free)|
      {
        ghost var m1, kind1 := mem[..], kind;
        MissingNext(m0[d], m1[d], v, k);
        MissingMore(m0[d], v, k + 1, n);
        ok := MapOne(d, v + k, p + k, perm);
        MappedMore(m0, m1, mem[..], kind0, kind1, d, v, k, if ok then 1 else 0, p, perm);
        if !ok {
          return;
        }
        TabledNext(m0[d], m1[d], mem[d], v, k);
        k := k + 1;
        done := k;
      }
      ok := true;
    }

    /** Unmapping and freeing one present user page, whose table is t. */
    method DropOne(d: nat, v: nat, t: nat)
      requires Valid() && d < mem.Length && kind[d] == Dir && v < KERNPAGE
      requires t < mem.Length && Present(mem[d][v / ENTRIES]) && Frame(mem[d][v / ENTRIES]) == t
      requires Present(mem[t][v % ENTRIES])
      modifies this`freelist, this`free, this`kind, mem
      ensures Valid() && kind == Unmapped(old(kind), d, v, v + 1)
      ensures Cleared(old(mem[..]), mem[..], old(kind), d, v, v + 1)
      ensures DropKept(old(mem[..]), mem[..], old(kind), kind, d)
    {
      hide PagesOk, FreeOk;
      ghost var m0, kind0 := mem[..], kind;
      UserDropped(m0, kind, d, v);
      EntryWritten(m0, kind, d, v, 0);
      OnlyUser(m0, kind, d, v);
      DirFacts(m0, kind, d, v / ENTRIES);
      var pa := Frame(mem[t][v % ENTRIES]);
      ghost var m1 := m0[t := m0[t][v % ENTRIES := 0]];
      FreeSame(m0, kind, freelist, free, m1, kind[pa := Held]);
      mem[t] := mem[t][v % ENTRIES := 0];
      assert mem[..] == m1;
      kind := kind[pa := Held];
      hide Look;
      Kfree(pa);
    }

    /** deallocuvm: page by page, skipping whole directory entries that have no table. */
    method DeallocUvm(d: nat, oldsz: nat, newsz: nat) returns (r: nat)
      requires Valid() && d < mem.Length && kind[d] == Dir && oldsz <= KERNBASE
      modifies this`freelist, this`free, this`kind, mem
      ensures Valid() && r == if newsz >= oldsz then oldsz else newsz
      ensures kind == Unmapped(old(kind), d, PgUp(newsz), PgUp(oldsz))
      ensures Cleared(old(mem[..]), mem[..], old(kind), d, PgUp(newsz), PgUp(oldsz))
      ensures DropKept(old(mem[..]), mem[..], old(kind), kind, d)
    {
      hide PagesOk, FreeOk, Look;
      ghost var m0, kind0, lo, hi := mem[..], kind, PgUp(newsz), PgUp(oldsz);
      if newsz >= oldsz {
        UnmappedNone(kind, d, lo, hi);
        return oldsz;
      }
      var a := PgUp(newsz);
      UnmappedNone(kind, d, lo, lo);
      while a * PGSIZE < oldsz
        invariant lo <= a <= KERNPAGE && Valid() && kind[d] == Dir
        invariant kind == Unmapped(kind0, d, lo, Min(a, hi))
        invariant Cleared(m0, mem[..], kind0, d, lo, Min(a, hi))
        invariant DropKept(m0, mem[..], kind0, kind, d)
        decreases KERNPAGE - a
      {
        ghost var m1, kind1 := mem[..], kind;
        assert a < hi;
        var pte := WalkPgdir(d, a, false);
        if pte.None? {
          EmptyTable(m1, kind1, d, a);
          ghost var b := a;
          a := (a / ENTRIES + 1) * ENTRIES - 1;
          SkipAbsent(m0, m1, kind0, kind1, d, lo, b, Min(a + 1, hi));
        } else if Present(mem[pte.value][a % ENTRIES]) {
          DropOne(d, a, pte.value);
          DropMore(m0, m1, mem[..], kind0, kind1, kind, d, lo, a);
        } else {
          TableEntry(m1, d, a, pte.value);
          SkipAbsent(m0, m1, kind0, kind1, d, lo, a, a + 1);
        }
        a := a + 1;
      }
      r := newsz;
    }

    /** freevm: every user page, every table and the directory itself go back, each once. */
    method FreeVm(d: nat)
      requires Valid() && d < mem.Length && kind[d] == Dir
      modifies this`freelist, this`free, this`kind, mem
      ensures Valid() && kind == Gone(old(kind), d)
      ensures OthersKept(old(mem[..]), mem[..], old(kind), kind, d)
    {
      hide PagesOk, FreeOk, Look;
      ghost var m0, kind0 := mem[..], kind;
      var sz := DeallocUvm(d, KERNBASE, 0);
      ghost var m1, kind1 := mem[..], kind;
      NoUsersLeft(m0, m1, kind0, kind1, d);
      DirDropped(m1, kind1, d);
      FreeSame(m1, kind1, freelist, free, m1, Dropped(kind1, d));
      TablesOf(m1, kind1, d);
      kind := Dropped(kind1, d);
      for i := 0 to ENTRIES
        invariant Valid() && mem[d] == m1[d] && kind == TablesFreed(kind1, d, i)
        invariant OthersKept(m1, mem[..], kind1, kind, d)
      {
        ghost var m2, kind2 := mem[..], kind;
        if Present(mem[d][i]) {
          Kfree(Frame(mem[d][i]));
          KeptMore(m1, m2, mem[..], kind1, kind2, kind, d, Frame(m1[d][i]));
        }
      }
      ghost var m3, kind3 := mem[..], kind;
      Kfree(d);
      KeptMore(m1, m3, mem[..], kind1, kind3, kind, d, d);
      KeptChain(m0, m1, mem[..], kind0, kind1, kind, d);
    }

    /** allocuvm: fresh zeroed pages for the new range; a failure takes back what was mapped. */
    method AllocUvm(d: nat, oldsz: nat, newsz: nat) returns (r: nat, ghost ok: bool)
      requires Valid() && d < mem.Length && kind[d] == Dir
      requires newsz < KERNBASE ==> forall v: nat :: PgUp(oldsz) <= v < PgUp(newsz) ==> !Present(Look(mem[..], d, v))
      modifies this`freelist, this`free, this`kind, mem
      ensures Valid() && (ok <==> newsz < KERNBASE && r == if newsz < oldsz then oldsz else newsz)
      ensures !ok ==> r == 0
      ensures newsz >= KERNBASE || newsz < oldsz ==> mem[..] == old(mem[..]) && kind == old(kind) && free == old(free)
      ensures ok ==> Growing(old(mem[..]), mem[..], old(kind), kind, d, PgUp(oldsz), PgUp(newsz))
      ensures !ok ==> Restored(old(mem[..]), mem[..], old(kind), kind, d)
      ensures oldsz <= newsz < KERNBASE ==>
                (ok <==> |old(free)| >= GrowthNeeds(old(mem[d]), PgUp(oldsz), PgUp(newsz)))
      ensures oldsz <= newsz && ok ==> |free| == |old(free)| - GrowthNeeds(old(mem[d]), PgUp(oldsz), PgUp(newsz))
    {
      hide PagesOk, FreeOk, Look, Missing, Tabled, GrowthNeeds, MappedTo, MemKept, Cleared;
      ghost var m0, kind0, lo, hi := mem[..], kind, PgUp(oldsz), PgUp(newsz);
      if newsz >= KERNBASE {
        return 0, false;
      }
      if newsz < oldsz {
        return oldsz, true;
      }
      var a := PgUp(oldsz);
      GrowthNone(mem[d], lo);
      while a * PGSIZE < newsz
        invariant lo <= a && (lo <= hi ==> a <= hi) && Valid() && kind[d] == Dir
        invariant Growing(m0, mem[..], kind0, kind, d, lo, a)
        invariant Tabled(m0[d], mem[d], lo, a - lo) && |free| + GrowthNeeds(m0[d], lo, a) == |old(free)|
        decreases newsz - a * PGSIZE
      {
        ghost var m1, kind1 := mem[..], kind;
        assert a < hi <= KERNPAGE;
        NoneThere(m0, m1, kind0, kind1, d, lo, a);
        GrowthNext(m0[d], m1[d], lo, a, hi);
        var page := Kalloc();
        if page.None? {
          var sz := DeallocUvm(d, newsz, oldsz);
          Undone(m0, m1, mem[..], kind0, kind1, kind, d, lo, a, hi);
          return 0, false;
        }
        var p := page.value;
        Fill(p, ZEROES);
        ghost var m2, kind2 := mem[..], kind;
        var mapped, done := MapPages(d, a, 1, p, PTE_W + PTE_U);
        if !mapped {
          var sz := DeallocUvm(d, newsz, oldsz);
          ghost var m3, kind3 := mem[..], kind;
          Kfree(p);
          UndoneHeld(m1, m2, m3, mem[..], kind1, kind2, kind3, kind, d, lo, hi, p);
          Undone(m0, m1, mem[..], kind0, kind1, kind, d, lo, a, hi);
          return 0, false;
        }
        GrowOne(m0, m1, m2, mem[..], kind0, kind1, kind2, kind, d, lo, a, p);
        TabledNext(m0[d], m1[d], mem[d], lo, a - lo);
        a := a + 1;
      }
      r, ok := newsz, true;
    }

    /** setupkvm: a new directory with the kernel half and nothing else; a failure frees all of it. */
    method SetupKvm(data: nat) returns (r: Option<nat>)
      requires Valid() && EXTPAGE < data < PHYSPAGE
      modifies this`freelist, this`free, this`kind, mem
      ensures Valid()
      ensures r.None? ==> Untouched(old(mem[..]), mem[..], old(kind), kind)
      ensures r.Some? ==> Taken(old(mem[..]), mem[..], old(kind), kind, r.value) &&
                          forall v: nat :: v < ENTRIES * ENTRIES ==> Look(mem[..], r.value, v) == KernelEntry(data, v)
      ensures r.Some? ==> forall q :: 0 <= q < mem.Length && kind[q].User? ==> kind[q] == old(kind)[q]
      ensures r.Some? <==> |old(free)| >= KERNELNEEDS
      ensures r.Some? ==> |free| == |old(free)| - KERNELNEEDS && NoUserTables(mem[r.value], 0)
    {
      hide PagesOk, FreeOk, Look, Missing, Tabled, MemKept, OthersKept, Gone, KernelEntry;
      ghost var m0, kind0 := mem[..], kind;
      var page := Kalloc();
      if page.None? {
        return None;
      }
      var d := page.value;
      Fill(d, ZEROES);
      NoneOwned(m0, kind0, d);
      DirAdded(mem[..], kind, d);
      FreeSame(mem[..], kind, freelist, free, mem[..], kind[d := Dir]);
      kind := kind[d := Dir];
      var kmap := Kmap(data);
      for i := 0 to 4
        invariant Valid() && Taken(m0, mem[..], kind0, kind, d)
        invariant forall v: nat :: v < ENTRIES * ENTRIES ==> Look(mem[..], d, v) == KmapEntry(kmap, i, v)
        invariant forall q :: 0 <= q < mem.Length && kind[q].User? ==> kind[q] == kind0[q]
        invariant KernelTables(mem[d], data, i) && |free| + 1 + KernelTableCount(data, i) == |old(free)|
      {
        ghost var m1, kind1 := mem[..], kind;
        KmapApart(data, i);
        RangeNeeds(m1[d], data, i);
        var ok, done := MapPages(d, kmap[i].virt, kmap[i].pages, kmap[i].phys, kmap[i].perm);
        TakenMore(m0, m1, mem[..], kind0, kind1, kind, d, kmap[i].virt, done, kmap[i].phys, kmap[i].perm);
        if !ok {
          ghost var m2, kind2 := mem[..], kind;
          FreeVm(d);
          TakenBack(m0, m2, mem[..], kind0, kind2, kind, d);
          return None;
        }
        RangeTabled(m1[d], mem[d], data, i);
      }
      KmapIs(data);
      return Some(d);
    }

    /** copyuvm: a directory whose user pages are fresh copies of the parent's, with its flags. */
    method CopyUvm(d: nat, sz: nat, data: nat) returns (r: Option<nat>)
      requires Valid() && EXTPAGE < data < PHYSPAGE && d < mem.Length && kind[d] == Dir && sz <= KERNBASE
      requires forall v: nat :: v < PgUp(sz) ==> Present(Look(mem[..], d, v))
      modifies this`freelist, this`free, this`kind, mem
      ensures Valid()
      ensures r.None? ==> Untouched(old(mem[..]), mem[..], old(kind), kind)
      ensures r.Some? ==> Taken(old(mem[..]), mem[..], old(kind), kind, r.value) &&
                          Copied(old(mem[..]), mem[..], old(kind), kind, d, r.value, data, PgUp(sz))
      ensures r.Some? <==> |old(free)| >= KERNELNEEDS + PgUp(sz) + TablesFor(PgUp(sz))
      ensures r.Some? ==> |free| == |old(free)| - (KERNELNEEDS + PgUp(sz) + TablesFor(PgUp(sz)))
    {
      hide PagesOk, FreeOk, Look, Missing, Tabled, MappedTo, MemKept, Untouched, OthersKept, Gone, CopyOf;
      hide NoUserTables;
      ghost var m0, kind0, hi := mem[..], kind, PgUp(sz);
      var child := SetupKvm(data);
      if child.None? {
        return None;
      }
      var c := child.value;
      NoneOwned(m0, kind0, c);
      var i := 0;
      while i * PGSIZE < sz
        invariant 0 <= i <= hi && Valid() && Taken(m0, mem[..], kind0, kind, c) &&
                  Copied(m0, mem[..], kind0, kind, d, c, data, i)
        invariant NoUserTables(mem[c], i) && |free| + KERNELNEEDS + i + TablesFor(i) == |old(free)|
        decreases sz - i * PGSIZE
      {
        ghost var m1, kind1 := mem[..], kind;
        assert i < hi <= KERNPAGE;
        ParentPage(m0, m1, kind0, kind1, d, c, i);
        UserTable(m1[c], i);
        var pte := WalkPgdir(d, i, false);
        TableEntry(m1, d, i, pte.value);
        var w := mem[pte.value][i % ENTRIES];
        var page := Kalloc();
        if page.None? {
          FreeVm(c);
          TakenBack(m0, m1, mem[..], kind0, kind1, kind, c);
          return None;
        }
        var p := page.value;
        Fill(p, mem[Frame(w)]);
        ghost var m2, kind2 := mem[..], kind;
        var ok, done := MapPages(c, i, 1, p, Flags(w));
        if !ok {
          Kfree(p);
          ghost var m3, kind3 := mem[..], kind;
          TakenStill(m0, m1, m2, m3, kind0, kind1, kind3, c, p);
          FreeVm(c);
          TakenBack(m0, m3, mem[..], kind0, kind3, kind, c);
          return None;
        }
        CopyOne(m0, m1, m2, mem[..], kind0, kind1, kind2, kind, d, c, data, i, p);
        UserTabled(m1[c], mem[c], i);
        i := i + 1;
      }
      return child;
    }
  }

  // ----- how much is needed -----

  /** Pages allocuvm takes to grow from lo pages to hi: the new pages, and the tables they lack. */
  ghost function GrowthNeeds(dir: Page, lo: nat, hi: nat): nat
    requires lo <= hi
  {
    hi - lo + Missing(dir, lo, hi - lo)
  }

  lemma GrowthNone(dir: Page, lo: nat)
    ensures GrowthNeeds(dir, lo, lo) == 0 && Tabled(dir, dir, lo, 0)
  {
    MissingNone(dir, lo);
  }

  lemma {:induction false} GrowthNext(dir0: Page, dir: Page, lo: nat, a: nat, hi: nat)
    requires lo <= a < hi <= ENTRIES * ENTRIES && Tabled(dir0, dir, lo, a - lo)
    ensures GrowthNeeds(dir0, lo, a + 1) == GrowthNeeds(dir0, lo, a) + 1 + Missing(dir, a, 1)
    ensures GrowthNeeds(dir0, lo, a + 1) <= GrowthNeeds(dir0, lo, hi)
  {
    hide Missing, Tabled;
    MissingNext(dir0, dir, lo, a - lo);
    MissingMore(dir0, lo, a - lo + 1, hi - lo);
    MissingOne(dir, a);
  }

  /** Pages setupkvm takes: a directory, 56 tables for physical memory and 8 for the devices. */
  const KERNELNEEDS: nat := 65

  /** Tables that the first n pages of an address space need. */
  function TablesFor(n: nat): nat {
    (n + ENTRIES - 1) / ENTRIES
  }

  /** The user half of a directory has just the tables of the first n pages. */
  ghost predicate NoUserTables(dir: Page, n: nat) {
    forall i: nat :: i < KERNPAGE / ENTRIES ==> (Present(dir[i]) <==> i < TablesFor(n))
  }

  lemma {:induction false} UserTable(dir: Page, n: nat)
    requires NoUserTables(dir, n) && n < KERNPAGE
    ensures Missing(dir, n, 1) == TablesFor(n + 1) - TablesFor(n) <= 1
    ensures forall m: nat :: n <= m ==> TablesFor(n) <= TablesFor(m)
  {
    MissingOne(dir, n);
  }

  lemma {:induction false} UserTabled(dir: Page, dir': Page, n: nat)
    requires NoUserTables(dir, n) && n < KERNPAGE && Tabled(dir, dir', n, 1)
    ensures NoUserTables(dir', n + 1)
  {
  }

  /** One past the last table of physical memory after i of the kernel's ranges. */
  function KernelEnd(data: nat, i: nat): nat {
    var base := KERNPAGE / ENTRIES;
    if i == 0 then base else if i == 1 then base + 1 else if i == 2 then base + TablesFor(data) else base + 56
  }

  function KernelTableCount(data: nat, i: nat): nat {
    KernelEnd(data, i) - KERNPAGE / ENTRIES + if i == 4 then 8 else 0
  }

  ghost predicate KernelTables(dir: Page, data: nat, i: nat) {
    forall k: nat :: k < ENTRIES ==>
      (Present(dir[k]) <==> KERNPAGE / ENTRIES <= k < KernelEnd(data, i) || (i == 4 && DEVPAGE / ENTRIES <= k))
  }

  lemma {:induction false} RangeNeeds(dir: Page, data: nat, i: nat)
    requires EXTPAGE < data < PHYSPAGE && i < 4 && KernelTables(dir, data, i)
    ensures var r := Kmap(data)[i];
            Missing(dir, r.virt, r.pages) == KernelTableCount(data, i + 1) - KernelTableCount(data, i)
    ensures KernelTableCount(data, i) <= KernelTableCount(data, i + 1) <= 64
  {
    var r := Kmap(data)[i];
    MissingRest(dir, r.virt, r.pages);
  }

  lemma {:induction false} RangeTabled(dir: Page, dir': Page, data: nat, i: nat)
    requires EXTPAGE < data < PHYSPAGE && i < 4 && KernelTables(dir, data, i)
    requires var r := Kmap(data)[i]; Tabled(dir, dir', r.virt, r.pages)
    ensures KernelTables(dir', data, i + 1)
  {
  }

  // ----- the kernel half and copies -----

  const EXTPAGE: nat := 0x100       // EXTMEM / PGSIZE
  const PHYSPAGE: nat := 0xE000     // PHYSTOP / PGSIZE
  const DEVPAGE: nat := 0xFE000     // DEVSPACE / PGSIZE

  datatype KernelRange = KernelRange(virt: nat, phys: nat, pages: nat, perm: nat)

  /** The kmap table; data is the page number of the symbol of that name. */
  function Kmap(data: nat): (k: seq<KernelRange>)
    requires EXTPAGE < data < PHYSPAGE
    ensures |k| == 4
    ensures forall i :: 0 <= i < 4 ==> k[i].virt >= KERNPAGE && k[i].virt + k[i].pages <= ENTRIES * ENTRIES &&
                                       k[i].perm < PGSIZE
  {
    [KernelRange(KERNPAGE, 0, EXTPAGE, PTE_W),
     KernelRange(KERNPAGE + EXTPAGE, EXTPAGE, data - EXTPAGE, 0),
     KernelRange(KERNPAGE + data, data, PHYSPAGE - data, PTE_W),
     KernelRange(DEVPAGE, DEVPAGE, ENTRIES * ENTRIES - DEVPAGE, PTE_W)]
  }

  /** What the kernel half maps: physical memory from KERNBASE up, read-only below data, and the devices in place. */
  function KernelEntry(data: nat, v: nat): (w: nat) {
    if KERNPAGE <= v < KERNPAGE + PHYSPAGE then
      MkPte(v - KERNPAGE, if EXTPAGE <= v - KERNPAGE < data then 0 else PTE_W)
    else if DEVPAGE <= v < ENTRIES * ENTRIES then MkPte(v, PTE_W)
    else 0
  }

  /** What the first i ranges of a table map. */
  ghost function KmapEntry(kmap: seq<KernelRange>, i: nat, v: nat): nat
    requires i <= |kmap| && forall j :: 0 <= j < |kmap| ==> kmap[j].perm < PGSIZE
  {
    if i == 0 then 0
    else if kmap[i - 1].virt <= v < kmap[i - 1].virt + kmap[i - 1].pages then
      MkPte(kmap[i - 1].phys + (v - kmap[i - 1].virt), kmap[i - 1].perm)
    else KmapEntry(kmap, i - 1, v)
  }

  lemma KmapApart(data: nat, i: nat)
    requires EXTPAGE < data < PHYSPAGE && i < 4
    ensures var k := Kmap(data); forall v: nat :: k[i].virt <= v < k[i].virt + k[i].pages ==> KmapEntry(k, i, v) == 0
  {
    var k := Kmap(data);
    forall v: nat | k[i].virt <= v < k[i].virt + k[i].pages ensures KmapEntry(k, i, v) == 0 {
      KmapBelow(data, i, v);
    }
  }

  lemma {:induction false} KmapBelow(data: nat, i: nat, v: nat)
    requires EXTPAGE < data < PHYSPAGE && i <= 4
    requires forall j :: 0 <= j < i ==> !(Kmap(data)[j].virt <= v < Kmap(data)[j].virt + Kmap(data)[j].pages)
    ensures KmapEntry(Kmap(data), i, v) == 0
  {
    if i > 0 {
      KmapBelow(data, i - 1, v);
    }
  }

  lemma KmapIs(data: nat)
    requires EXTPAGE < data < PHYSPAGE
    ensures forall v: nat :: KmapEntry(Kmap(data), 4, v) == KernelEntry(data, v)
  {
    var k := Kmap(data);
    forall v: nat ensures KmapEntry(k, 4, v) == KernelEntry(data, v) {
      assert KmapEntry(k, 0, v) == 0;
      assert KmapEntry(k, 1, v) == if KERNPAGE <= v < KERNPAGE + EXTPAGE then MkPte(v - KERNPAGE, PTE_W) else 0;
      assert KmapEntry(k, 2, v) == if k[1].virt <= v < k[1].virt + k[1].pages then
               MkPte(v - KERNPAGE, 0) else KmapEntry(k, 1, v);
      assert KmapEntry(k, 3, v) == if k[2].virt <= v < k[2].virt + k[2].pages then
               MkPte(v - KERNPAGE, PTE_W) else KmapEntry(k, 2, v);
    }
  }

  /** Everything in use is as it was, and the same pages are free. */
  ghost predicate Untouched(m0: seq<Page>, m: seq<Page>, kind0: seq<Kind>, kind: seq<Kind>) {
    |m| == |m0| == |kind0| && kind == kind0 && (forall q :: 0 <= q < |m| && kind0[q] != Free ==> m[q] == m0[q]) &&
    SameLook(m0, m, kind0)
  }

  ghost predicate Owned(k: Kind, c: nat) {
    (k.Table? || k.User?) && k.d == c
  }

  /** Everything in use is as it was; of the free pages, one is directory c and others belong to it. */
  ghost predicate Taken(m0: seq<Page>, m: seq<Page>, kind0: seq<Kind>, kind: seq<Kind>, c: nat) {
    && |m| == |m0| == |kind0| == |kind| && c < |m| && kind0[c] == Free && kind[c] == Dir
    && (forall q :: 0 <= q < |m| && kind0[q] != Free ==> kind[q] == kind0[q] && m[q] == m0[q] && !Owned(kind0[q], c))
    && (forall q :: 0 <= q < |m| && kind0[q] == Free ==> kind[q] == Free || q == c || Owned(kind[q], c))
    && SameLook(m0, m, kind0)
  }

  /** A page that is not a directory owns no tables or user pages. */
  lemma NoneOwned(m: seq<Page>, kind: seq<Kind>, c: nat)
    requires PagesOk(m, kind) && c < |m| && kind[c] != Dir
    ensures forall q :: 0 <= q < |m| ==> !Owned(kind[q], c)
  {
    forall q | 0 <= q < |m| ensures !Owned(kind[q], c) {
      assert UseOk(m, kind, q);
    }
  }

  lemma TakenMore(m0: seq<Page>, m1: seq<Page>, m2: seq<Page>, kind0: seq<Kind>, kind1: seq<Kind>, kind2: seq<Kind>,
                  c: nat, v: nat, k: nat, p: nat, perm: nat)
    requires Taken(m0, m1, kind0, kind1, c) && perm < PGSIZE
    requires MappedTo(m1, m2, kind1, c, v, k, p, perm) && MemKept(m1, m2, kind2, c) && Grew(kind1, kind2, c)
    ensures Taken(m0, m2, kind0, kind2, c)
  {
    hide Look, MkPte;
  }

  /** Freeing c gives every page it took back. */
  lemma TakenBack(m0: seq<Page>, m1: seq<Page>, m2: seq<Page>, kind0: seq<Kind>, kind1: seq<Kind>, kind2: seq<Kind>,
                  c: nat)
    requires Taken(m0, m1, kind0, kind1, c) && kind2 == Gone(kind1, c) && OthersKept(m1, m2, kind1, kind2, c)
    ensures Untouched(m0, m2, kind0, kind2)
  {
    hide Look;
    assert kind2 == kind0;
  }

  lemma TakenStill(m0: seq<Page>, m1: seq<Page>, m2: seq<Page>, m3: seq<Page>, kind0: seq<Kind>, kind1: seq<Kind>,
                   kind3: seq<Kind>, c: nat, p: nat)
    requires Taken(m0, m1, kind0, kind1, c) && p < |m1| && kind1[p] == Free
    requires |m1| == |m2| == |m3| && m2 == m1[p := m2[p]] && m3 == m2[p := m3[p]]
    requires SameLook(m1, m2, kind1[p := Held]) && SameLook(m2, m3, kind1[p := Held]) &&
             kind3 == kind1[p := Held][p := Free]
    ensures Taken(m0, m3, kind0, kind3, c)
  {
    hide Look;
    assert kind3 == kind1;
  }

  /** Page v of c is a fresh page with the flags and the contents of page v of d. */
  ghost predicate CopyOf(m0: seq<Page>, m: seq<Page>, kind0: seq<Kind>, kind: seq<Kind>, d: nat, c: nat, v: nat)
    requires |m| == |m0| == |kind0| == |kind| && c < |m| && d < |m| && v < KERNPAGE
  {
    var w0, w := Look(m0, d, v), Look(m, c, v);
    Present(w) && Flags(w) == Flags(w0) && Frame(w) < |m| && kind0[Frame(w)] == Free && kind[Frame(w)] == User(c, v) &&
    Frame(w0) < |m| && m[Frame(w)] == m0[Frame(w0)]
  }

  /** The first a pages are copied, no other user page is mapped, and the kernel half is there. */
  ghost predicate Copied(m0: seq<Page>, m: seq<Page>, kind0: seq<Kind>, kind: seq<Kind>, d: nat, c: nat, data: nat,
                         a: nat) {
    && |m| == |m0| == |kind0| == |kind| && c < |m| && d < |m| && a <= KERNPAGE
    && (forall v: nat :: v < a ==> CopyOf(m0, m, kind0, kind, d, c, v))
    && (forall v: nat :: a <= v < ENTRIES * ENTRIES ==> Look(m, c, v) == KernelEntry(data, v))
  }

  lemma ParentPage(m0: seq<Page>, m1: seq<Page>, kind0: seq<Kind>, kind1: seq<Kind>, d: nat, c: nat, v: nat)
    requires PagesOk(m0, kind0) && Taken(m0, m1, kind0, kind1, c) && d < |m0| && kind0[d] == Dir && v < KERNPAGE
    requires Present(Look(m0, d, v))
    ensures Present(m1[d][v / ENTRIES]) && Look(m1, d, v) == Look(m0, d, v)
    ensures var f := Frame(Look(m0, d, v)); f < |m0| && kind0[f] == User(d, v) && m1[f] == m0[f]
  {
    assert DirOk(m0, kind0, d);
  }

  lemma CopyOne(m0: seq<Page>, m1: seq<Page>, m2: seq<Page>, m3: seq<Page>, kind0: seq<Kind>, kind1: seq<Kind>,
                kind2: seq<Kind>, kind3: seq<Kind>, d: nat, c: nat, data: nat, a: nat, p: nat)
    requires Taken(m0, m1, kind0, kind1, c) && Copied(m0, m1, kind0, kind1, d, c, data, a) && a < KERNPAGE
    requires Present(Look(m0, d, a)) && Frame(Look(m0, d, a)) < |m0|
    requires p < |m1| && kind1[p] == Free && kind2 == kind1[p := Held]
    requires |m2| == |m1| && m2 == m1[p := m0[Frame(Look(m0, d, a))]] && SameLook(m1, m2, kind2)
    requires MappedTo(m2, m3, kind2, c, a, 1, p, Flags(Look(m0, d, a))) && MemKept(m2, m3, kind3, c)
    requires |kind3| == |kind2| && kind3[p] == User(c, a) && Grew(kind2, kind3[p := Held], c)
    ensures Taken(m0, m3, kind0, kind3, c) && Copied(m0, m3, kind0, kind3, d, c, data, a + 1)
  {
    hide Look, MkPte, KernelEntry;
    assert kind0[p] == Free;
    forall q | 0 <= q < |m0| && q != p ensures kind3[q] == kind3[p := Held][q] {
    }
    forall v: nat | v < a ensures CopyOf(m0, m3, kind0, kind3, d, c, v) {
      assert CopyOf(m0, m1, kind0, kind1, d, c, v);
      var f := Frame(Look(m1, c, v));
      assert f != p && kind3[p := Held][f] == User(c, v);
      assert m3[f] == m1[f];
    }
    assert CopyOf(m0, m3, kind0, kind3, d, c, a) by {
      assert p + (a - a) == p;
      FlagsPresent(Look(m0, d, a));
      assert m3[p] == m2[p];
    }
  }

  lemma FlagsPresent(w: nat)
    requires Present(w)
    ensures Present(Flags(w))
  {
  }

  /** Page v of d is a fresh zeroed page with the flags of user memory. */
  ghost predicate NewPage(m: seq<Page>, kind0: seq<Kind>, kind: seq<Kind>, d: nat, v: nat)
    requires d < |m| == |kind0| == |kind| && v < KERNPAGE
  {
    var w := Look(m, d, v);
    Present(w) && Frame(w) < |m| && kind0[Frame(w)] == Free && kind[Frame(w)] == User(d, v) &&
    Flags(w) == PTE_P + PTE_W + PTE_U && (forall i :: 0 <= i < ENTRIES ==> m[Frame(w)][i] == 0)
  }

  /** Pages lo..a of d have been added to what was there, out of free pages. */
  ghost predicate Growing(m0: seq<Page>, m: seq<Page>, kind0: seq<Kind>, kind: seq<Kind>, d: nat, lo: nat, a: nat) {
    && d < |m| == |m0| == |kind0| == |kind|
    && (lo < a ==> a <= KERNPAGE)
    && (forall e, u: nat :: 0 <= e < |m| && kind0[e] == Dir && u < ENTRIES * ENTRIES && !(e == d && lo <= u < a) ==>
          Look(m, e, u) == Look(m0, e, u))
    && (forall v: nat :: lo <= v < a && v < KERNPAGE ==> NewPage(m, kind0, kind, d, v))
    && (forall q :: 0 <= q < |m| ==> kind[q] == kind0[q] || (kind0[q] == Free && ForD(kind[q], d, lo, a)))
    && (forall q :: 0 <= q < |m| && q != d && kind[q] == kind0[q] && kind0[q] != Free && !ForD(kind0[q], d, 0, 0) ==>
                    m[q] == m0[q])
  }

  /** A table of d or one of its user pages lo..a. */
  ghost predicate ForD(k: Kind, d: nat, lo: nat, a: nat) {
    (k.Table? && k.d == d) || (k.User? && k.d == d && lo <= k.v < a)
  }

  /** The mapping of every directory is what it was; only tables of d were taken; contents are kept. */
  ghost predicate Restored(m0: seq<Page>, m: seq<Page>, kind0: seq<Kind>, kind: seq<Kind>, d: nat) {
    && |m| == |m0| == |kind0| == |kind|
    && (forall e, u: nat :: 0 <= e < |m| && kind0[e] == Dir && u < ENTRIES * ENTRIES ==>
          Present(Look(m, e, u)) == Present(Look(m0, e, u)) &&
            (Present(Look(m0, e, u)) ==> Look(m, e, u) == Look(m0, e, u)))
    && Grew(kind0, kind, d)
    && (forall q :: 0 <= q < |m| && q != d && kind[q] == kind0[q] && kind0[q] != Free && !ForD(kind0[q], d, 0, 0) ==>
                    m[q] == m0[q])
  }

  lemma NoneThere(m0: seq<Page>, m: seq<Page>, kind0: seq<Kind>, kind: seq<Kind>, d: nat, lo: nat, a: nat)
    requires Growing(m0, m, kind0, kind, d, lo, a) && kind0[d] == Dir && lo <= a < KERNPAGE && !Present(Look(m0, d, a))
    ensures !Present(Look(m, d, a))
  {
  }

  /** One more page: kalloc, memset and a successful mappages. */
  lemma GrowOne(m0: seq<Page>, m1: seq<Page>, m2: seq<Page>, m3: seq<Page>, kind0: seq<Kind>, kind1: seq<Kind>,
                kind2: seq<Kind>, kind3: seq<Kind>, d: nat, lo: nat, a: nat, p: nat)
    requires Growing(m0, m1, kind0, kind1, d, lo, a) && kind0[d] == Dir && kind1[d] == Dir && lo <= a < KERNPAGE
    requires p < |m1| && kind1[p] == Free && kind2 == kind1[p := Held] && m2 == m1[p := ZEROES] &&
             SameLook(m1, m2, kind2)
    requires MappedTo(m2, m3, kind2, d, a, 1, p, PTE_W + PTE_U) && MemKept(m2, m3, kind3, d)
    requires |kind3| == |kind2| && kind3[p] == User(d, a) && Grew(kind2, kind3[p := Held], d)
    ensures Growing(m0, m3, kind0, kind3, d, lo, a + 1)
  {
    hide Look, MkPte;
    assert kind0[p] == Free;
    assert Look(m3, d, a) == MkPte(p + (a - a), PTE_W + PTE_U);
    forall v: nat | lo <= v < a && v < KERNPAGE ensures NewPage(m3, kind0, kind3, d, v) {
      assert NewPage(m1, kind0, kind1, d, v);
      var f := Frame(Look(m1, d, v));
      assert f != p && kind2[f] == User(d, v);
      assert Look(m3, d, v) == Look(m2, d, v) == Look(m1, d, v);
      assert kind3[p := Held][f] == User(d, v);
      assert m3[f] == m1[f];
    }
    assert NewPage(m3, kind0, kind3, d, a) by {
      assert p + (a - a) == p;
      assert m3[p] == m2[p];
    }
    forall q | 0 <= q < |m0| && q != p ensures kind3[q] == kind3[p := Held][q] {
    }
  }

  /** Unmapping the range again after a failure leaves only new tables. */
  lemma Undone(m0: seq<Page>, m1: seq<Page>, m2: seq<Page>, kind0: seq<Kind>, kind1: seq<Kind>, kind2: seq<Kind>,
               d: nat, lo: nat, a: nat, hi: nat)
    requires Growing(m0, m1, kind0, kind1, d, lo, a) && PagesOk(m0, kind0) && kind0[d] == Dir &&
             lo <= a <= hi <= KERNPAGE
    requires forall v: nat :: lo <= v < hi ==> !Present(Look(m0, d, v))
    requires kind2 == Unmapped(kind1, d, lo, hi) && Cleared(m1, m2, kind1, d, lo, hi) &&
             UsedKept(m1, m2, kind1, kind2, d)
    ensures Restored(m0, m2, kind0, kind2, d)
  {
    hide Look, PagesOk;
    forall v: nat | lo <= v < hi ensures forall q :: 0 <= q < |m0| ==> kind0[q] != User(d, v) {
      NoUser(m0, kind0, d, v);
    }
    forall q | 0 <= q < |kind0| ensures kind2[q] == kind0[q] ||
      (kind0[q] == Free && kind2[q].Table? && kind2[q].d == d) {
    }
    forall e, u: nat | 0 <= e < |m2| && kind0[e] == Dir && u < ENTRIES * ENTRIES
      ensures Present(Look(m2, e, u)) == Present(Look(m0, e, u)) &&
              (Present(Look(m0, e, u)) ==> Look(m2, e, u) == Look(m0, e, u))
    {
      assert kind1[e] == Dir;
    }
  }

  /** Pages in use that keep their use and are not tables of d keep their contents. */
  ghost predicate UsedKept(m: seq<Page>, m': seq<Page>, kind: seq<Kind>, kind': seq<Kind>, d: nat) {
    |m'| == |m| == |kind| == |kind'| &&
    forall q :: 0 <= q < |m| && kind'[q] == kind[q] && kind[q] != Free && !(kind[q].Table? && kind[q].d == d) ==>
                m'[q] == m[q]
  }

  /** The same when the page at hand was taken, not mapped, and freed last. */
  lemma UndoneHeld(m1: seq<Page>, m2: seq<Page>, m3: seq<Page>, m4: seq<Page>, kind1: seq<Kind>, kind2: seq<Kind>,
                   kind3: seq<Kind>, kind4: seq<Kind>, d: nat, lo: nat, hi: nat, p: nat)
    requires |m1| == |kind1| && p < |m1| && kind1[p] == Free && kind2 == kind1[p := Held] && m2 == m1[p := ZEROES]
    requires SameLook(m1, m2, kind2)
    requires kind3 == Unmapped(kind2, d, lo, hi) && Cleared(m2, m3, kind2, d, lo, hi) &&
             DropKept(m2, m3, kind2, kind3, d)
    requires kind4 == kind3[p := Free] && |m4| == |m3| && m4 == m3[p := m4[p]] && SameLook(m3, m4, kind3)
    ensures kind4 == Unmapped(kind1, d, lo, hi) && Cleared(m1, m4, kind1, d, lo, hi) &&
            UsedKept(m1, m4, kind1, kind4, d)
  {
    hide Look;
    forall q | 0 <= q < |kind1| ensures kind4[q] == Unmapped(kind1, d, lo, hi)[q] {
    }
  }

  /** The uses after directory d and all it owns are freed. */
  ghost function Gone(kind: seq<Kind>, d: nat): (r: seq<Kind>)
    ensures |r| == |kind|
  {
    seq(|kind|, q requires 0 <= q < |kind| =>
      if q == d || (kind[q].Table? && kind[q].d == d) || (kind[q].User? && kind[q].d == d) then Free else kind[q])
  }

  /** The uses while freevm walks the directory: the tables before i are free, the rest and d are held. */
  ghost function TablesFreed(kind: seq<Kind>, d: nat, i: nat): (r: seq<Kind>)
    ensures |r| == |kind|
  {
    seq(|kind|, q requires 0 <= q < |kind| =>
      if kind[q].Table? && kind[q].d == d && kind[q].i < i then Free
      else if q == d || (kind[q].Table? && kind[q].d == d) then Held else kind[q])
  }

  /** Other directories map as before, and pages that keep their use and are not d's keep their contents. */
  ghost predicate OthersKept(m: seq<Page>, m': seq<Page>, kind: seq<Kind>, kind': seq<Kind>, d: nat) {
    && |m'| == |m| == |kind| == |kind'|
    && (forall e, u: nat :: 0 <= e < |m| && e != d && kind[e] == Dir && u < ENTRIES * ENTRIES ==>
                            Look(m', e, u) == Look(m, e, u))
    && (forall q :: 0 <= q < |m| && q != d && kind'[q] == kind[q] && !(kind[q].Table? && kind[q].d == d) ==>
                    m'[q] == m[q])
  }

  lemma NoUsersLeft(m0: seq<Page>, m1: seq<Page>, kind0: seq<Kind>, kind1: seq<Kind>, d: nat)
    requires PagesOk(m1, kind1) && |m0| == |kind0| == |m1| && d < |m1| && kind0[d] == Dir && kind1[d] == Dir
    requires kind1 == Unmapped(kind0, d, PgUp(0), PgUp(KERNBASE)) && Cleared(m0, m1, kind0, d, PgUp(0), PgUp(KERNBASE))
    ensures forall v: nat :: v < KERNPAGE ==> !Present(Look(m1, d, v))
    ensures forall q :: 0 <= q < |m1| ==> !(kind1[q].User? && kind1[q].d == d)
  {
    hide Look;
    forall q | 0 <= q < |m1| ensures !(kind1[q].User? && kind1[q].d == d) {
      assert UseOk(m1, kind1, q);
    }
  }

  /** The recorded tables of d are exactly the frames of its present entries. */
  lemma TablesOf(m: seq<Page>, kind: seq<Kind>, d: nat)
    requires PagesOk(m, kind) && d < |m| && kind[d] == Dir
    ensures forall i: nat :: i < ENTRIES && Present(m[d][i]) ==>
                             Frame(m[d][i]) < |m| && kind[Frame(m[d][i])] == Table(d, i)
    ensures forall q :: 0 <= q < |m| && kind[q].Table? && kind[q].d == d ==>
              kind[q].i < ENTRIES && Present(m[d][kind[q].i]) && Frame(m[d][kind[q].i]) == q
  {
    hide Look;
    assert DirOk(m, kind, d);
    forall q | 0 <= q < |m| && kind[q].Table? && kind[q].d == d
      ensures kind[q].i < ENTRIES && Present(m[d][kind[q].i]) && Frame(m[d][kind[q].i]) == q
    {
      assert UseOk(m, kind, q);
    }
  }

  lemma KeptMore(m1: seq<Page>, m2: seq<Page>, m3: seq<Page>, kind1: seq<Kind>, kind2: seq<Kind>, kind3: seq<Kind>,
                 d: nat, p: nat)
    requires OthersKept(m1, m2, kind1, kind2, d) && |m3| == |m2| == |kind3| && p < |m2| && kind2[p] == Held
    requires kind3 == kind2[p := Free] && SameLook(m2, m3, kind2) && m3 == m2[p := m3[p]]
    requires p == d || (kind1[p].Table? && kind1[p].d == d)
    requires forall e :: 0 <= e < |m1| && e != d && kind1[e] == Dir ==> kind2[e] == Dir
    ensures OthersKept(m1, m3, kind1, kind3, d)
  {
    hide Look;
  }

  lemma KeptChain(m0: seq<Page>, m1: seq<Page>, m2: seq<Page>, kind0: seq<Kind>, kind1: seq<Kind>, kind2: seq<Kind>,
                  d: nat)
    requires |m0| == |m1| == |kind0| == |kind1| && d < |m0| && kind1 == Unmapped(kind0, d, 0, KERNPAGE)
    requires Cleared(m0, m1, kind0, d, 0, KERNPAGE) && DropKept(m0, m1, kind0, kind1, d)
    requires OthersKept(m1, m2, kind1, kind2, d)
    requires forall q :: 0 <= q < |kind0| && q < |kind2| && kind1[q] == Free ==> kind2[q] == Free
    ensures OthersKept(m0, m2, kind0, kind2, d)
  {
    hide Look;
  }

  /** No page under a missing table is present. */
  lemma EmptyTable(m: seq<Page>, kind: seq<Kind>, d: nat, a: nat)
    requires d < |m| && a < ENTRIES * ENTRIES && !Present(m[d][a / ENTRIES])
    ensures forall u: nat :: a <= u < (a / ENTRIES + 1) * ENTRIES && u < ENTRIES * ENTRIES ==> !Present(Look(m, d, u))
  {
  }

  lemma TableEntry(m: seq<Page>, d: nat, a: nat, t: nat)
    requires d < |m| && a < ENTRIES * ENTRIES && Present(m[d][a / ENTRIES]) && t == Frame(m[d][a / ENTRIES]) && t < |m|
    ensures Look(m, d, a) == m[t][a % ENTRIES]
  {
  }

  /** Pages that are not present need nothing done. */
  lemma SkipAbsent(m0: seq<Page>, m1: seq<Page>, kind0: seq<Kind>, kind1: seq<Kind>, d: nat, lo: nat, b: nat, c: nat)
    requires PagesOk(m1, kind1) && |m0| == |m1| == |kind0| && d < |m1| && kind0[d] == Dir && kind1[d] == Dir
    requires lo <= b <= c <= KERNPAGE && kind1 == Unmapped(kind0, d, lo, b) && Cleared(m0, m1, kind0, d, lo, b)
    requires forall u: nat :: b <= u < c ==> !Present(Look(m1, d, u))
    ensures kind1 == Unmapped(kind0, d, lo, c) && Cleared(m0, m1, kind0, d, lo, c)
  {
    forall u: nat | b <= u < c ensures (forall q :: 0 <= q < |m1| ==> kind1[q] != User(d, u)) &&
      Look(m0, d, u) == Look(m1, d, u) {
      NoUser(m1, kind1, d, u);
    }
    hide Look, PagesOk;
    forall q | 0 <= q < |kind0| ensures kind1[q] == Unmapped(kind0, d, lo, c)[q] {
    }
  }

  lemma DropMore(m0: seq<Page>, m1: seq<Page>, m2: seq<Page>, kind0: seq<Kind>, kind1: seq<Kind>, kind2: seq<Kind>,
                 d: nat, lo: nat, a: nat)
    requires lo <= a && kind1 == Unmapped(kind0, d, lo, a) && kind2 == Unmapped(kind1, d, a, a + 1)
    requires Cleared(m0, m1, kind0, d, lo, a) && Cleared(m1, m2, kind1, d, a, a + 1)
    requires DropKept(m0, m1, kind0, kind1, d) && DropKept(m1, m2, kind1, kind2, d)
    ensures kind2 == Unmapped(kind0, d, lo, a + 1) && Cleared(m0, m2, kind0, d, lo, a + 1) &&
            DropKept(m0, m2, kind0, kind2, d)
  {
    hide Look;
  }

  /** Pages covering sz bytes: PGROUNDUP(sz) / PGSIZE. */
  function PgUp(sz: nat): (n: nat) {
    (sz + PGSIZE - 1) / PGSIZE
  }

  /** The uses after the user pages lo..hi of d are freed. */
  ghost function Unmapped(kind: seq<Kind>, d: nat, lo: nat, hi: nat): (r: seq<Kind>)
    ensures |r| == |kind|
  {
    seq(|kind|, q requires 0 <= q < |kind| =>
      if kind[q].User? && kind[q].d == d && lo <= kind[q].v < hi then Free else kind[q])
  }

  /** Present entries of pages lo..hi of d are 0 now; all else maps as before. */
  ghost predicate Cleared(m: seq<Page>, m': seq<Page>, kind: seq<Kind>, d: nat, lo: nat, hi: nat) {
    |m'| == |m| == |kind| &&
    forall e, u: nat :: 0 <= e < |m| && kind[e] == Dir && u < ENTRIES * ENTRIES ==>
      Look(m', e, u) == if e == d && lo <= u < hi && Present(Look(m, e, u)) then 0 else Look(m, e, u)
  }

  /** Pages that keep their use and are not tables of d keep their contents. */
  ghost predicate DropKept(m: seq<Page>, m': seq<Page>, kind: seq<Kind>, kind': seq<Kind>, d: nat) {
    |m'| == |m| == |kind| == |kind'| &&
    forall q :: 0 <= q < |m| && kind'[q] == kind[q] && !(kind[q].Table? && kind[q].d == d) ==> m'[q] == m[q]
  }

  /** A present user page has exactly one frame recorded for it. */
  lemma OnlyUser(m: seq<Page>, kind: seq<Kind>, d: nat, v: nat)
    requires PagesOk(m, kind) && d < |m| && kind[d] == Dir && v < KERNPAGE && Present(Look(m, d, v))
    ensures forall q :: 0 <= q < |m| ==> (kind[q] == User(d, v) <==> q == Frame(Look(m, d, v)))
  {
    assert DirOk(m, kind, d);
    forall q | 0 <= q < |m| && kind[q] == User(d, v) ensures q == Frame(Look(m, d, v)) {
      assert UseOk(m, kind, q);
    }
  }

  /** No frame is recorded for a page that is not present. */
  lemma NoUser(m: seq<Page>, kind: seq<Kind>, d: nat, v: nat)
    requires PagesOk(m, kind) && d < |m| && kind[d] == Dir && v < KERNPAGE && !Present(Look(m, d, v))
    ensures forall q :: 0 <= q < |m| ==> kind[q] != User(d, v)
  {
    forall q | 0 <= q < |m| ensures kind[q] != User(d, v) {
      assert UseOk(m, kind, q);
    }
  }

  lemma UnmappedNone(kind: seq<Kind>, d: nat, lo: nat, hi: nat)
    requires hi <= lo
    ensures Unmapped(kind, d, lo, hi) == kind
  {
  }

  /** Pages change use only from free to table of d. */
  ghost predicate Grew(kind: seq<Kind>, kind': seq<Kind>, d: nat) {
    |kind'| == |kind| &&
    forall q :: 0 <= q < |kind| ==> kind'[q] == kind[q] || (kind[q] == Free && kind'[q].Table? && kind'[q].d == d)
  }

  /** Pages other than directory d and its tables keep their contents. */
  ghost predicate MemKept(m: seq<Page>, m': seq<Page>, kind': seq<Kind>, d: nat) {
    |m'| == |m| == |kind'| &&
    forall q :: 0 <= q < |m| && q != d && !(kind'[q].Table? && kind'[q].d == d) ==> m'[q] == m[q]
  }

  /** The first k of the pages from v on are mapped to the frames from p on; all else maps as before. */
  ghost predicate MappedTo(m: seq<Page>, m': seq<Page>, kind: seq<Kind>, d: nat, v: nat, k: nat, p: nat, perm: nat)
    requires perm < PGSIZE
  {
    |m'| == |m| == |kind| &&
    forall e, u: nat :: 0 <= e < |m| && kind[e] == Dir && u < ENTRIES * ENTRIES ==>
      Look(m', e, u) == if e == d && v <= u < v + k then MkPte(p + (u - v), perm) else Look(m, e, u)
  }

  lemma MappedMore(m0: seq<Page>, m1: seq<Page>, m2: seq<Page>, kind0: seq<Kind>, kind1: seq<Kind>,
                   d: nat, v: nat, k: nat, more: nat, p: nat, perm: nat)
    requires perm < PGSIZE && more <= 1
    requires MappedTo(m0, m1, kind0, d, v, k, p, perm) && MappedTo(m1, m2, kind1, d, v + k, more, p + k, perm)
    requires forall e :: 0 <= e < |kind0| && kind0[e] == Dir ==> kind1[e] == Dir
    ensures MappedTo(m0, m2, kind0, d, v, k + more, p, perm)
  {
    hide Look, MkPte;
  }

  lemma FreeEmpty(m: seq<Page>, kind: seq<Kind>, head: nat, free: seq<nat>)
    requires FreeOk(m, kind, head, free) && head == 0
    ensures free == []
  {
  }

  lemma FreeNonempty(m: seq<Page>, kind: seq<Kind>, head: nat, free: seq<nat>)
    requires FreeOk(m, kind, head, free) && head != 0
    ensures free != []
  {
  }

  lemma DirFacts(m: seq<Page>, kind: seq<Kind>, d: nat, i: nat)
    requires PagesOk(m, kind) && d < |m| && kind[d] == Dir && i < ENTRIES
    ensures Present(m[d][i]) ==> Frame(m[d][i]) < |m| && kind[Frame(m[d][i])] == Table(d, i)
  {
    assert DirOk(m, kind, d);
  }
}
