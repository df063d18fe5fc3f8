/**
 The user-level allocator of umalloc.c, after section 8.7 of The C Programming
 Language, 2nd edition: a circular free list of blocks kept in address order.

 Addresses count units of sizeof(Header) = 8 bytes.  A block is a header unit
 followed by its payload; its size counts both.
 */
module Heap {

  import opened Basics

  const UINT: nat := 0x1_0000_0000
  const UNIT: nat := 8              // sizeof(Header)

  /** Units for nbytes of payload and a header, in unsigned 32-bit arithmetic. */
  function NUnits(nbytes: nat): (n: nat)
    requires nbytes < UINT
    ensures 1 <= n
  {
    (nbytes + UNIT - 1) % UINT / UNIT + 1
  }

  /** The payload is large enough exactly when the addition does not wrap. */
  lemma NUnitsEnough(nbytes: nat)
    requires nbytes < UINT
    ensures (NUnits(nbytes) - 1) * UNIT >= nbytes <==> nbytes <= UINT - UNIT
    ensures nbytes <= UINT - UNIT ==> (NUnits(nbytes) - 1) * UNIT < nbytes + UNIT
  {
  }

  /** The argument sbrk receives for n units, as the signed 32-bit int it is declared with. */
  function SbrkArg(n: nat): (k: int) {
    var k := n * UNIT % UINT;
    if k < UINT / 2 then k else k - UINT
  }

  /** sbrk is asked for the right number of bytes exactly below 2^28 units. */
  lemma SbrkArgExact(n: nat)
    requires n <= UINT / UNIT
    ensures SbrkArg(n) == n * UNIT <==> n < UINT / 2 / UNIT
  {
  }

  // ----- blocks tile the arena -----

  ghost predicate Covers(m: map<nat, nat>, a: nat, u: nat) {
    a in m && a <= u < a + m[a]
  }

  ghost predicate Covered(m: map<nat, nat>, u: nat) {
    exists a: nat :: Covers(m, a, u)
  }

  /** Blocks are nonempty, do not overlap and make up exactly the arena. */
  ghost predicate Tiles(m: map<nat, nat>, arena: set<nat>) {
    && (forall a :: a in m ==> m[a] >= 1)
    && (forall a, b :: a in m && b in m && a < b ==> a + m[a] <= b)
    && (forall u: nat :: u in arena <==> Covered(m, u))
  }

  ghost function Merge(m: map<nat, nat>, a: nat, b: nat): map<nat, nat>
    requires a in m && b in m && a != b
  {
    (m - {b})[a := m[a] + m[b]]
  }

  ghost function Split(m: map<nat, nat>, a: nat, n: nat): map<nat, nat>
    requires a in m && 0 < n < m[a]
  {
    m[a := m[a] - n][a + m[a] - n := n]
  }

  lemma MergeTiles(m: map<nat, nat>, arena: set<nat>, a: nat, b: nat)
    requires Tiles(m, arena) && a in m && b in m && a + m[a] == b
    ensures Tiles(Merge(m, a, b), arena)
  {
    var m' := Merge(m, a, b);
    forall u: nat ensures Covered(m, u) <==> Covered(m', u) {
      if Covered(m, u) {
        var c: nat :| Covers(m, c, u);
        assert Covers(m', if c == b then a else c, u);
      }
      if Covered(m', u) {
        var c: nat :| Covers(m', c, u);
        assert Covers(m, if c == a && u >= b then b else c, u);
      }
    }
  }

  lemma SplitCovered(m: map<nat, nat>, arena: set<nat>, a: nat, n: nat, u: nat)
    requires Tiles(m, arena) && a in m && 0 < n < m[a] && a + m[a] - n !in m
    ensures Covered(m, u) <==> Covered(Split(m, a, n), u)
  {
    var m', b := Split(m, a, n), a + m[a] - n;
    if Covered(m, u) {
      var c: nat :| Covers(m, c, u);
      assert Covers(m', if c == a && u >= b then b else c, u);
    }
    if Covered(m', u) {
      var c: nat :| Covers(m', c, u);
      assert Covers(m, if c == b then a else c, u);
    }
  }

  lemma SplitTiles(m: map<nat, nat>, arena: set<nat>, a: nat, n: nat)
    requires Tiles(m, arena) && a in m && 0 < n < m[a]
    ensures Tiles(Split(m, a, n), arena) && a + m[a] - n !in m
  {
    hide Covered;
    var m', b := Split(m, a, n), a + m[a] - n;
    forall x, y | x in m' && y in m' && x < y ensures x + m'[x] <= y {
      assert x in m || x == b;
      assert y in m || y == b;
    }
    forall u: nat ensures Covered(m, u) <==> Covered(m', u) {
      SplitCovered(m, arena, a, n, u);
    }
  }

  ghost function Units(a: nat, n: nat): (s: set<nat>)
    ensures forall u: nat :: u in s <==> a <= u < a + n
  {
    if n == 0 then {} else Units(a, n - 1) + {a + n - 1}
  }

  lemma AddTiles(m: map<nat, nat>, arena: set<nat>, a: nat, n: nat)
    requires Tiles(m, arena) && n >= 1 && forall u :: u in arena ==> u < a
    ensures a !in m && Tiles(m[a := n], arena + Units(a, n))
  {
    assert a in m ==> Covers(m, a, a);
    var m' := m[a := n];
    forall b | b in m ensures b + m[b] <= a {
      assert Covers(m, b, b + m[b] - 1);
      assert Covered(m, b + m[b] - 1);
    }
    forall u: nat ensures u in arena + Units(a, n) <==> Covered(m', u) {
      if u in arena {
        var c: nat :| Covers(m, c, u);
        assert Covers(m', c, u);
      }
      if u in Units(a, n) {
        assert Covers(m', a, u);
      }
      if Covered(m', u) {
        var c: nat :| Covers(m', c, u);
        if c != a {
          assert Covers(m, c, u);
        }
      }
    }
  }

  // ----- the free list -----

  ghost predicate Increasing(s: seq<nat>) {
    forall i, j :: 0 <= i < j < |s| ==> s[i] < s[j]
  }

  ghost predicate Linked(ptr: map<nat, nat>, ring: seq<nat>) {
    forall i :: 0 <= i < |ring| ==> ring[i] in ptr && ptr[ring[i]] == ring[if i + 1 < |ring| then i + 1 else 0]
  }

  /** No free block ends where the next begins, except perhaps at the listed positions. */
  ghost predicate GapsExcept(m: map<nat, nat>, ring: seq<nat>, holes: set<int>) {
    forall i :: 0 < i < |ring| - 1 && i !in holes && ring[i] in m ==> ring[i] + m[ring[i]] != ring[i + 1]
  }

  ghost predicate Coalesced(m: map<nat, nat>, ring: seq<nat>) {
    GapsExcept(m, ring, {})
  }

  /** The free list and the live set divide the blocks; base heads the list. */
  ghost predicate Divides(base: nat, ring: seq<nat>, m: map<nat, nat>, live: set<nat>) {
    && |ring| > 0 && ring[0] == base && Increasing(ring)
    && (forall i :: 0 < i < |ring| ==> ring[i] in m && ring[i] !in live)
    && (forall a :: a in live ==> a in m)
    && (forall a :: a in m && a !in live ==> a in ring)
    && (forall a :: a in m ==> base < a)
  }

  ghost predicate HeapOk(base: nat, ring: seq<nat>, m: map<nat, nat>, live: set<nat>, arena: set<nat>) {
    Tiles(m, arena) && Divides(base, ring, m, live) && Coalesced(m, ring)
  }

  /** bp lies between list positions k and k + 1. */
  ghost predicate Between(ring: seq<nat>, k: nat, bp: nat) {
    k < |ring| && ring[k] < bp && (k + 1 < |ring| ==> bp < ring[k + 1])
  }

  ghost function InsertAt(ring: seq<nat>, k: nat, a: nat): (r: seq<nat>)
    requires k < |ring|
    ensures |r| == |ring| + 1
    ensures r[k + 1] == a
    ensures forall i :: 0 <= i <= k ==> r[i] == ring[i]
    ensures forall i :: k + 1 < i < |r| ==> r[i] == ring[i - 1]
    ensures forall x :: x in r <==> x in ring || x == a
  {
    ring[..k + 1] + [a] + ring[k + 1..]
  }

  ghost predicate Touches(ring: seq<nat>, m: map<nat, nat>, p: nat) {
    0 < p && p + 1 < |ring| && ring[p] in m && ring[p] + m[ring[p]] == ring[p + 1]
  }

  /** A list and its blocks after free blocks at positions p and p + 1 are joined if they touch. */
  ghost function Join(ring: seq<nat>, m: map<nat, nat>, p: nat): (r: (seq<nat>, map<nat, nat>)) {
    if Touches(ring, m, p) && ring[p + 1] in m && ring[p] != ring[p + 1] then
      (RemoveAt(ring, p + 1), Merge(m, ring[p], ring[p + 1]))
    else (ring, m)
  }

  /** The list and blocks after block bp is freed at position k: insert, join right, join left. */
  ghost function Freed(ring: seq<nat>, m: map<nat, nat>, k: nat, bp: nat): (r: (seq<nat>, map<nat, nat>))
    requires k < |ring|
  {
    var (r1, m1) := Join(InsertAt(ring, k, bp), m, k + 1);
    Join(r1, m1, k)
  }

  lemma InsertIncreasing(ring: seq<nat>, k: nat, bp: nat)
    requires Increasing(ring) && Between(ring, k, bp)
    ensures Increasing(InsertAt(ring, k, bp)) && bp !in ring
  {
    var r := InsertAt(ring, k, bp);
    forall i, j | 0 <= i < j < |r| ensures r[i] < r[j] {
      assert i <= k ==> ring[i] <= ring[k];
      assert j > k + 1 ==> ring[k + 1] <= ring[j - 1];
    }
    forall i | 0 <= i < |ring| ensures ring[i] != bp {
      assert i <= k ==> ring[i] <= ring[k];
      assert i > k ==> ring[k + 1] <= ring[i];
    }
  }

  lemma InsertDivides(base: nat, ring: seq<nat>, m: map<nat, nat>, live: set<nat>, k: nat, bp: nat)
    requires Divides(base, ring, m, live) && bp in live && Between(ring, k, bp)
    ensures Divides(base, InsertAt(ring, k, bp), m, live - {bp})
  {
    hide Increasing, InsertAt;
    InsertIncreasing(ring, k, bp);
  }

  lemma JoinDivides(base: nat, ring: seq<nat>, m: map<nat, nat>, live: set<nat>, p: nat)
    requires Divides(base, ring, m, live) && Touches(ring, m, p)
    ensures Divides(base, RemoveAt(ring, p + 1), Merge(m, ring[p], ring[p + 1]), live)
  {
    hide RemoveAt;
    assert Increasing(RemoveAt(ring, p + 1));
  }

  lemma JoinGapAt(ring: seq<nat>, m: map<nat, nat>, p: nat, holes: set<int>, i: nat)
    requires Increasing(ring) && GapsExcept(m, ring, holes + {p}) && Touches(ring, m, p) && ring[p + 1] in m
    requires 0 < i < |ring| - 2 && i !in holes && ring[if i <= p then i else i + 1] in m
    requires forall h :: h in holes ==> h < p
    ensures var a, n := ring[if i <= p then i else i + 1], Merge(m, ring[p], ring[p + 1]);
            a in n && a + n[a] != ring[if i < p then i + 1 else i + 2]
  {
    var q := if i < p then i else i + 1;
    assert q !in holes + {p};
    assert ring[q] in m ==> ring[q] + m[ring[q]] != ring[q + 1];
    assert ring[p] < ring[p + 1];
    assert q < p ==> ring[q] < ring[p];
    assert q > p + 1 ==> ring[q] > ring[p + 1];
  }

  lemma JoinGaps(base: nat, ring: seq<nat>, m: map<nat, nat>, live: set<nat>, p: nat, holes: set<int>)
    requires Divides(base, ring, m, live) && GapsExcept(m, ring, holes + {p}) && Touches(ring, m, p)
    requires forall h :: h in holes ==> h < p
    ensures GapsExcept(Merge(m, ring[p], ring[p + 1]), RemoveAt(ring, p + 1), holes)
  {
    hide RemoveAt, GapsExcept, Increasing;
    JoinFacts(base, ring, m, live, p);
    var r, n := RemoveAt(ring, p + 1), Merge(m, ring[p], ring[p + 1]);
    GapsIntro(n, r, holes, ring, m, p);
  }

  lemma GapsIntro(n: map<nat, nat>, r: seq<nat>, holes: set<int>, ring: seq<nat>, m: map<nat, nat>, p: nat)
    requires Increasing(ring) && GapsExcept(m, ring, holes + {p}) && Touches(ring, m, p) && ring[p + 1] in m
    requires forall i :: 0 < i < |ring| ==> ring[i] in m
    requires forall h :: h in holes ==> h < p
    requires ring[p] != ring[p + 1] && n == Merge(m, ring[p], ring[p + 1]) && r == RemoveAt(ring, p + 1)
    ensures GapsExcept(n, r, holes)
  {
    hide RemoveAt, Merge, Increasing;
    forall i | 0 < i < |r| - 1 && i !in holes && r[i] in n ensures r[i] + n[r[i]] != r[i + 1] {
      JoinGapAt(ring, m, p, holes, i);
    }
  }

  /** Joining keeps the tiling, the division and every live block, and settles position p. */
  lemma JoinKeeps(base: nat, ring: seq<nat>, m: map<nat, nat>, live: set<nat>, arena: set<nat>, p: nat, holes: set<int>)
    requires Tiles(m, arena) && Divides(base, ring, m, live) && GapsExcept(m, ring, holes + {p})
    requires forall h :: h in holes ==> h < p
    ensures var (r, n) := Join(ring, m, p);
            Tiles(n, arena) && Divides(base, r, n, live) && GapsExcept(n, r, holes) &&
            forall a :: a in live ==> a in n && n[a] == m[a]
  {
    hide Divides, Tiles, GapsExcept, RemoveAt;
    JoinFacts(base, ring, m, live, p);
    if Touches(ring, m, p) {
      MergeTiles(m, arena, ring[p], ring[p + 1]);
      JoinDivides(base, ring, m, live, p);
      JoinGaps(base, ring, m, live, p, holes);
    } else {
      GapsSettled(m, ring, p, holes);
    }
  }

  lemma JoinFacts(base: nat, ring: seq<nat>, m: map<nat, nat>, live: set<nat>, p: nat)
    requires Divides(base, ring, m, live)
    ensures forall a :: a in live ==> a in m
    ensures Touches(ring, m, p) ==> ring[p + 1] in m && ring[p] != ring[p + 1] && ring[p] !in live &&
                                    ring[p + 1] !in live
  {
  }

  lemma GapsSettled(m: map<nat, nat>, ring: seq<nat>, p: nat, holes: set<int>)
    requires GapsExcept(m, ring, holes + {p}) && !Touches(ring, m, p)
    ensures GapsExcept(m, ring, holes)
  {
  }

  lemma InsertGaps(m: map<nat, nat>, ring: seq<nat>, k: nat, bp: nat)
    requires GapsExcept(m, ring, {}) && k < |ring|
    ensures GapsExcept(m, InsertAt(ring, k, bp), {k} + {k + 1})
  {
    var r := InsertAt(ring, k, bp);
    forall i | 0 < i < |r| - 1 && i !in {k} + {k + 1} && r[i] in m ensures r[i] + m[r[i]] != r[i + 1] {
      assert if i < k then r[i] == ring[i] && r[i + 1] == ring[i + 1] else r[i] == ring[i - 1] && r[i + 1] == ring[i];
    }
  }

  /** free() keeps a sound heap: the block leaves the live set and no other live block changes. */
  lemma FreedOk(base: nat, ring: seq<nat>, m: map<nat, nat>, live: set<nat>, arena: set<nat>, k: nat, bp: nat)
    requires HeapOk(base, ring, m, live, arena) && bp in live && Between(ring, k, bp)
    ensures var (r, n) := Freed(ring, m, k, bp);
            HeapOk(base, r, n, live - {bp}, arena) &&
            forall a :: a in live - {bp} ==> a in n && n[a] == m[a]
  {
    hide Divides, Tiles, GapsExcept, InsertAt, Join;
    var r0 := InsertAt(ring, k, bp);
    InsertDivides(base, ring, m, live, k, bp);
    InsertGaps(m, ring, k, bp);
    var (r1, m1) := Join(r0, m, k + 1);
    JoinKeeps(base, r0, m, live - {bp}, arena, k + 1, {k});
    assert {} + {k} == {k};
    JoinKeeps(base, r1, m1, live - {bp}, arena, k, {});
  }

  // ----- the free list is determined by what is free -----

  ghost predicate FreeUnit(m: map<nat, nat>, live: set<nat>, u: nat) {
    exists a: nat :: a !in live && Covers(m, a, u)
  }

  /** Between two free blocks of a sound heap lies at least one unit that is not free. */
  lemma FreeGap(base: nat, ring: seq<nat>, m: map<nat, nat>, live: set<nat>, arena: set<nat>, c: nat, a: nat)
    requires HeapOk(base, ring, m, live, arena) && a in m && a !in live && c in m && c !in live && c < a
    ensures c + m[c] < a
  {
    var i :| 0 <= i < |ring| && ring[i] == c;
    var j :| 0 <= j < |ring| && ring[j] == a;
    assert 0 < i < j && ring[i] + m[ring[i]] != ring[i + 1];
    assert ring[i + 1] <= ring[j];
  }

  /** So a free block is a maximal run of free units. */
  lemma MaximalRun(base: nat, ring: seq<nat>, m: map<nat, nat>, live: set<nat>, arena: set<nat>, a: nat)
    requires HeapOk(base, ring, m, live, arena) && a in m && a !in live
    ensures a > 0 && !FreeUnit(m, live, a - 1) && !FreeUnit(m, live, a + m[a])
    ensures forall u: nat :: a <= u < a + m[a] ==> FreeUnit(m, live, u)
  {
    forall c: nat | c !in live && c in m ensures !Covers(m, c, a - 1) && !Covers(m, c, a + m[a]) {
      if c < a {
        FreeGap(base, ring, m, live, arena, c, a);
      } else if a < c {
        FreeGap(base, ring, m, live, arena, a, c);
      }
    }
    forall u: nat | a <= u < a + m[a] ensures FreeUnit(m, live, u) {
      assert Covers(m, a, u);
    }
  }

  /** A free block of one heap is a free block of any other with the same free units. */
  lemma SameBlock(base: nat, r1: seq<nat>, m1: map<nat, nat>, l1: set<nat>, a1: set<nat>,
                  r2: seq<nat>, m2: map<nat, nat>, l2: set<nat>, a2: set<nat>, a: nat)
    requires HeapOk(base, r1, m1, l1, a1) && HeapOk(base, r2, m2, l2, a2)
    requires forall u: nat :: FreeUnit(m1, l1, u) <==> FreeUnit(m2, l2, u)
    requires a in m1 && a !in l1
    ensures a in m2 && a !in l2 && m2[a] == m1[a]
  {
    MaximalRun(base, r1, m1, l1, a1, a);
    assert FreeUnit(m1, l1, a);
    var b: nat :| b !in l2 && Covers(m2, b, a);
    MaximalRun(base, r2, m2, l2, a2, b);
    NotInRun(m2, l2, b, a - 1);
    NotInRun(m1, l1, a, a + m2[a]);
    NotInRun(m2, l2, a, a + m1[a]);
  }

  lemma NotInRun(m: map<nat, nat>, live: set<nat>, b: nat, u: nat)
    requires b in m && (forall v: nat :: b <= v < b + m[b] ==> FreeUnit(m, live, v)) && !FreeUnit(m, live, u)
    ensures u < b || b + m[b] <= u
  {
  }

  lemma {:induction false} IncreasingSame(s: seq<nat>, t: seq<nat>)
    requires Increasing(s) && Increasing(t) && forall x :: x in s <==> x in t
    ensures s == t
  {
    assert t == [] || t[0] in t;
    if s != [] {
      assert s[|s| - 1] in t && t[|t| - 1] in s;
      var s', t' := s[..|s| - 1], t[..|t| - 1];
      assert s[|s| - 1] == t[|t| - 1];
      forall x ensures x in s' <==> x in t' {
        assert x in s <==> x in s' || x == s[|s| - 1];
        assert x in t <==> x in t' || x == t[|t| - 1];
      }
      IncreasingSame(s', t');
    }
  }

  /**
   The free list is a function of which units are free: two sound heaps with the
   same free units have the same list and the same block sizes on it, whatever
   calls led there.
   */
  lemma FreeListCanonical(base: nat, r1: seq<nat>, m1: map<nat, nat>, l1: set<nat>, a1: set<nat>,
                          r2: seq<nat>, m2: map<nat, nat>, l2: set<nat>, a2: set<nat>)
    requires HeapOk(base, r1, m1, l1, a1) && HeapOk(base, r2, m2, l2, a2)
    requires forall u: nat :: FreeUnit(m1, l1, u) <==> FreeUnit(m2, l2, u)
    ensures r1 == r2 && forall i :: 0 < i < |r1| ==> m1[r1[i]] == m2[r2[i]]
  {
    forall a ensures a in r1 <==> a in r2 {
      if a in r1 && a != base {
        SameBlock(base, r1, m1, l1, a1, r2, m2, l2, a2, a);
      }
      if a in r2 && a != base {
        SameBlock(base, r2, m2, l2, a2, r1, m1, l1, a1, a);
      }
      assert base == r1[0] == r2[0];
    }
    IncreasingSame(r1, r2);
    forall i | 0 < i < |r1| ensures m1[r1[i]] == m2[r2[i]] {
      SameBlock(base, r1, m1, l1, a1, r2, m2, l2, a2, r1[i]);
    }
  }

  /** The free units are the units of the arena outside every live block. */
  lemma FreeUnitIs(base: nat, ring: seq<nat>, m: map<nat, nat>, live: set<nat>, arena: set<nat>, u: nat)
    requires HeapOk(base, ring, m, live, arena)
    ensures FreeUnit(m, live, u) <==> u in arena && forall a: nat :: a in live ==> !Covers(m, a, u)
  {
    if u in arena {
      var c: nat :| Covers(m, c, u);
      assert forall a: nat :: Covers(m, a, u) ==> a == c;
    }
    if FreeUnit(m, live, u) {
      assert Covered(m, u);
    }
  }

  /** Sound heaps with the same arena and the same live blocks have the same free list. */
  lemma SameLiveSameList(base: nat, r1: seq<nat>, m1: map<nat, nat>, r2: seq<nat>, m2: map<nat, nat>,
                         live: set<nat>, arena: set<nat>)
    requires HeapOk(base, r1, m1, live, arena) && HeapOk(base, r2, m2, live, arena)
    requires forall a :: a in live ==> a in m1 && a in m2 && m1[a] == m2[a]
    ensures r1 == r2 && forall i :: 0 < i < |r1| ==> m1[r1[i]] == m2[r2[i]]
  {
    forall u: nat ensures FreeUnit(m1, live, u) <==> FreeUnit(m2, live, u) {
      FreeUnitIs(base, r1, m1, live, arena, u);
      FreeUnitIs(base, r2, m2, live, arena, u);
      assert forall a: nat :: a in live ==> (Covers(m1, a, u) <==> Covers(m2, a, u));
    }
    FreeListCanonical(base, r1, m1, live, arena, r2, m2, live, arena);
  }

  /** Freeing two blocks in either order leaves the same free list. */
  lemma FreesCommute(base: nat, ring: seq<nat>, m: map<nat, nat>, live: set<nat>, arena: set<nat>, a: nat, b: nat,
                     ka: nat, kb: nat, kab: nat, kba: nat)
    requires HeapOk(base, ring, m, live, arena) && a in live && b in live && a != b
    requires Between(ring, ka, a) && Between(Freed(ring, m, ka, a).0, kab, b)
    requires Between(ring, kb, b) && Between(Freed(ring, m, kb, b).0, kba, a)
    ensures var (ra, ma) := Freed(ring, m, ka, a);
            var (rb, mb) := Freed(ring, m, kb, b);
            Freed(ra, ma, kab, b).0 == Freed(rb, mb, kba, a).0
  {
    hide HeapOk, Freed;
    FreedOk(base, ring, m, live, arena, ka, a);
    FreedOk(base, ring, m, live, arena, kb, b);
    var (ra, ma) := Freed(ring, m, ka, a);
    var (rb, mb) := Freed(ring, m, kb, b);
    FreedOk(base, ra, ma, live - {a}, arena, kab, b);
    FreedOk(base, rb, mb, live - {b}, arena, kba, a);
    assert live - {a} - {b} == live - {b} - {a};
    var (r1, m1) := Freed(ra, ma, kab, b);
    var (r2, m2) := Freed(rb, mb, kba, a);
    SameLiveSameList(base, r1, m1, r2, m2, live - {a} - {b}, arena);
  }

  /** Taking a whole free block off the list. */
  lemma TakeWhole(base: nat, ring: seq<nat>, m: map<nat, nat>, live: set<nat>, arena: set<nat>, i: nat)
    requires HeapOk(base, ring, m, live, arena) && 0 < i < |ring|
    ensures HeapOk(base, RemoveAt(ring, i), m, live + {ring[i]}, arena)
  {
    var r := RemoveAt(ring, i);
    assert Increasing(r);
    forall k | 0 < k < |r| - 1 && r[k] in m ensures r[k] + m[r[k]] != r[k + 1] {
      FreeGap(base, ring, m, live, arena, r[k], r[k + 1]);
    }
  }

  /** Taking the tail of a free block. */
  lemma TakeTail(base: nat, ring: seq<nat>, m: map<nat, nat>, live: set<nat>, arena: set<nat>, i: nat, n: nat)
    requires HeapOk(base, ring, m, live, arena) && 0 < i < |ring| && 0 < n < m[ring[i]]
    ensures var a := ring[i];
            HeapOk(base, ring, Split(m, a, n), live + {a + m[a] - n}, arena) && a + m[a] - n !in m
  {
    SplitTiles(m, arena, ring[i], n);
    SplitGaps(base, ring, m, live, arena, i, n);
    hide Tiles, Coalesced;
  }

  lemma SplitGaps(base: nat, ring: seq<nat>, m: map<nat, nat>, live: set<nat>, arena: set<nat>, i: nat, n: nat)
    requires HeapOk(base, ring, m, live, arena) && 0 < i < |ring| && 0 < n < m[ring[i]]
    ensures Coalesced(Split(m, ring[i], n), ring)
  {
    hide Covered;
    var a, m' := ring[i], Split(m, ring[i], n);
    forall k | 0 < k < |ring| - 1 && ring[k] in m' ensures ring[k] + m'[ring[k]] != ring[k + 1] {
      assert ring[k] + m[ring[k]] <= ring[k + 1];
    }
  }

  // ----- the allocator -----

  class Allocator {
    const base: nat                   // &base, below every heap address
    var freep: Option<nat>            // None before the first call
    var ptr: map<nat, nat>            // s.ptr of each header in memory
    var size: map<nat, nat>           // s.size of each header in memory
    var brk: nat                      // the process break, in units
    ghost var ring: seq<nat>          // the free list from base on
    ghost var blocks: map<nat, nat>   // all blocks, free and live, with their sizes
    ghost var live: set<nat>          // headers of the blocks handed out
    ghost var arena: set<nat>         // all units obtained from sbrk

    ghost predicate Valid()
      reads this
    {
      && HeapOk(base, ring, blocks, live, arena)
      && base < brk && (forall u :: u in arena ==> u < brk)
      && (freep.None? ==> ring == [base] && live == {})
      && (freep.Some? ==> freep.value in ring && Linked(ptr, ring) && HeadersOk(base, blocks, size))
    }

    constructor (base: nat, brk: nat)
      requires base < brk
      ensures Valid() && this.base == base && this.brk == brk && freep.None? && live == {} && arena == {}
    {
      this.base, this.brk, freep := base, brk, None;
      ptr, size, ring, blocks, live, arena := map[], map[], [base], map[], {}, {};
    }

    /** free's search: the list position that bp falls after. */
    method FindSlot(bp: nat) returns (p: nat, ghost k: nat)
      requires Valid() && freep.Some? && bp in live
      ensures Between(ring, k, bp) && ring[k] == p
    {
      hide Tiles, Coalesced, HeadersOk;
      ghost var at: nat :| at < |ring| && ring[at] == freep.value;
      p := freep.value;
      k := SlotOf(ring, bp);
      while !(bp > p && bp < ptr[p])
        invariant at < |ring| && p == ring[at] && Between(ring, k, bp)
        decreases if at <= k then k - at else k + |ring| - at
      {
        if p >= ptr[p] && (bp > p || bp < ptr[p]) {
          BetweenUnique(ring, at, k, bp);
          return;
        }
        p := ptr[p];
        at := if at + 1 < |ring| then at + 1 else 0;
      }
      BetweenUnique(ring, at, k, bp);
    }

    /** free's assignments to the fields of the freed block and of its left neighbour p. */
    method Splice(p: nat, bp: nat)
      requires p != bp && p in ptr && ptr[p] in ptr && ptr[p] in size && p in size && bp in size
      modifies this`ptr, this`size
      ensures size == SizeLeft(SizeRight(old(ptr), old(size), p, bp), p, bp)
      ensures ptr == PtrLeft(PtrRight(old(ptr), old(size), p, bp)[p := bp], SizeRight(old(ptr), old(size), p, bp), p,
                             bp)
    {
      var next := ptr[p];
      if bp + size[bp] == next {
        size := size[bp := size[bp] + size[next]];
        ptr := ptr[bp := ptr[next]];
      } else {
        ptr := ptr[bp := next];
      }
      assert ptr == PtrRight(old(ptr), old(size), p, bp) && size == SizeRight(old(ptr), old(size), p, bp);
      if p + size[p] == bp {
        size := size[p := size[p] + size[bp]];
        ptr := ptr[p := ptr[bp]];
      } else {
        ptr := ptr[p := bp];
      }
      assert ptr == PtrLeft(PtrRight(old(ptr), old(size), p, bp)[p := bp], SizeRight(old(ptr), old(size), p, bp), p,
                            bp);
    }

    /** free, given the header: the block leaves the live set and joins the list in place. */
    method Free(bp: nat)
      requires Valid() && freep.Some? && bp in live
      modifies this
      ensures Valid() && freep.Some? && live == old(live) - {bp} && arena == old(arena) && brk == old(brk)
      ensures forall a :: a in live ==> a in blocks && a in old(blocks) && blocks[a] == old(blocks)[a]
    {
      hide HeapOk, Join, InsertAt, Linked, HeadersOk, Freed, PtrLeft, PtrRight, SizeLeft, SizeRight;
      var p, k := FindSlot(bp);
      FreedOk(base, ring, blocks, live, arena, k, bp);
      FreeFacts(base, ring, blocks, live, arena, k, bp, ptr, size);
      FreeLinks(base, ring, blocks, live, arena, k, bp, ptr, size);
      Splice(p, bp);
      freep := Some(p);
      ghost var f := Freed(ring, blocks, k, bp);
      ring, blocks, live := f.0, f.1, live - {bp};
    }

    /** morecore: at least 4096 units from sbrk join the free list; granted says whether sbrk succeeds. */
    method MoreCore(n: nat, granted: bool) returns (ok: bool)
      requires Valid() && freep.Some? && 1 <= n
      modifies this
      ensures Valid() && freep.Some? && live == old(live) && ok == granted
      ensures forall a :: a in live ==> a in blocks && a in old(blocks) && blocks[a] == old(blocks)[a]
      ensures var nu := if n < 4096 then 4096 else n;
              if ok then
                arena == old(arena) + Units(old(brk), nu) && brk == old(brk) + nu &&
                HasFit(ring, blocks, n)
              else arena == old(arena) && brk == old(brk) && freep == old(freep) && ring == old(ring) &&
                   blocks == old(blocks)
    {
      hide HeapOk, Linked, Tiles, Units;
      var nu := if n < 4096 then 4096 else n;
      var hp := brk;
      BlocksBelow(base, ring, blocks, live, arena, hp);
      if !granted {
        return false;
      }
      AddLive(base, ring, blocks, live, arena, hp, nu);
      brk := brk + nu;
      size := size[hp := nu];
      blocks, live, arena := blocks[hp := nu], live + {hp}, arena + Units(hp, nu);
      Free(hp);
      assert live == old(live);
      GrownFree(base, ring, blocks, live, arena, hp, nu);
      return true;
    }

    /** malloc's carving: the whole block when it fits exactly, else its tail. */
    method Take(prevp: nat, p: nat, n: nat, ghost i: nat) returns (hp: nat)
      requires Valid() && freep.Some? && 0 < i < |ring| && ring[i] == p && ring[i - 1] == prevp
      requires 1 <= n && p in size && n <= size[p]
      modifies this
      ensures Valid() && freep == Some(prevp) && arena == old(arena) && brk == old(brk)
      ensures hp !in old(live) && live == old(live) + {hp} && hp in blocks && blocks[hp] == n
      ensures forall a :: a in old(live) ==> a in blocks && a in old(blocks) && blocks[a] == old(blocks)[a]
      ensures p <= hp && hp + n == p + old(blocks)[p]
    {
      hide HeapOk, HeadersOk, Linked, RemoveAt, Split;
      TakeFacts(base, ring, blocks, live, arena, i, n, ptr, size);
      if size[p] == n {
        ptr := ptr[prevp := ptr[p]];
        ring := RemoveAt(ring, i);
        hp := p;
      } else {
        size := size[p := size[p] - n];
        hp := p + size[p];
        size := size[hp := n];
        blocks := Split(blocks, p, n);
      }
      live := live + {hp};
      freep := Some(prevp);
    }

    /** First-fit search from freep on, growing the arena once if nothing fits. */
    method Malloc(nbytes: nat, granted: bool) returns (r: Option<nat>)
      requires Valid() && nbytes < UINT && NUnits(nbytes) < UINT / 2 / UNIT
      modifies this
      ensures Valid()
      ensures r.None? <==> !granted && !HasFit(old(ring), old(blocks), NUnits(nbytes))
      ensures r.None? ==> live == old(live)
      ensures r.Some? ==> r.value >= 1 && r.value - 1 !in old(live) && live == old(live) + {r.value - 1}
      ensures r.Some? ==> r.value - 1 in blocks && blocks[r.value - 1] == NUnits(nbytes)
      ensures forall a :: a in old(live) ==> a in blocks && a in old(blocks) && blocks[a] == old(blocks)[a]
      ensures var n := NUnits(nbytes);
              arena == if r.None? || HasFit(old(ring), old(blocks), n) then old(arena)
                       else old(arena) + Units(old(brk), if n < 4096 then 4096 else n)
    {
      hide HeapOk, HeadersOk, Linked, Units, HasFit, Searched, Turn, NUnits;
      var n := NUnits(nbytes);
      ghost var ring0, blocks0, live0, arena0 := ring, blocks, live, arena;
      if freep.None? {
        ptr := ptr[base := base];
        size := size[base := 0];
        freep := Some(base);
        FirstCall(base, blocks, live, arena, ptr, size);
      }
      LiveBlocks(base, ring, blocks, live, arena);
      var prevp := freep.value;
      ghost var f: nat :| f < |ring| && ring[f] == prevp;
      LinkAt(ptr, ring, f);
      var p := ptr[prevp];
      SearchedNone(ring, size, n);
      ghost var k, grown := 0, false;
      while true
        invariant Valid() && freep.Some? && f < |ring| && ring[f] == freep.value && k < |ring|
        invariant prevp == ring[Turn(ring, f, k)] && p == ring[Turn(ring, f, k + 1)]
        invariant Searched(ring, size, f, k, n)
        invariant live == live0
        invariant forall a :: a in live0 ==> a in blocks && a in blocks0 && blocks[a] == blocks0[a]
        invariant !grown ==> ring == ring0 && blocks == blocks0 && arena == arena0 && brk == old(brk)
        invariant grown ==> granted && HasFit(ring, blocks, n) && !HasFit(ring0, blocks0, n) &&
                            arena == arena0 + Units(old(brk), if n < 4096 then 4096 else n)
        decreases !grown, |ring| - k
      {
        SizeKnown(base, ring, blocks, live, arena, size, Turn(ring, f, k + 1));
        if size[p] >= n {
          FitHere(base, ring, blocks, live, arena, size, f, k, n);
          var hp := Take(prevp, p, n, Turn(ring, f, k + 1));
          return Some(hp + 1);
        }
        SearchedMore(ring, size, f, k, n);
        if p == freep.value {
          FullTurn(base, ring, blocks, live, arena, size, f, k, n);
          var ok := MoreCore(n, granted);
          if !ok {
            return None;
          }
          p := freep.value;
          grown := true;
          f :| f < |ring| && ring[f] == p;
          k := 0;
          SearchedNone(ring, size, n);
          LinkAt(ptr, ring, f);
        } else {
          k := k + 1;
        }
        NextTurn(ptr, ring, f, k);
        prevp, p := p, ptr[p];
      }
    }
  }

  ghost predicate HasFit(ring: seq<nat>, m: map<nat, nat>, n: nat) {
    exists i :: 0 < i < |ring| && ring[i] in m && m[ring[i]] >= n
  }

  /** The list position k steps after f. */
  ghost function Turn(ring: seq<nat>, f: nat, k: nat): (i: nat)
    requires f < |ring| && k <= |ring|
    ensures i < |ring|
  {
    if f + k < |ring| then f + k else f + k - |ring|
  }

  /** The k blocks after position f are known to be too small. */
  ghost predicate Searched(ring: seq<nat>, size: map<nat, nat>, f: nat, k: nat, n: nat) {
    f < |ring| && k <= |ring| &&
    forall j :: 0 < j <= k ==> ring[Turn(ring, f, j)] in size && size[ring[Turn(ring, f, j)]] < n
  }

  lemma SearchedNone(ring: seq<nat>, size: map<nat, nat>, n: nat)
    ensures forall f: nat :: f < |ring| ==> Searched(ring, size, f, 0, n)
  {
  }

  lemma SearchedMore(ring: seq<nat>, size: map<nat, nat>, f: nat, k: nat, n: nat)
    requires Searched(ring, size, f, k, n) && k < |ring|
    requires ring[Turn(ring, f, k + 1)] in size && size[ring[Turn(ring, f, k + 1)]] < n
    ensures Searched(ring, size, f, k + 1, n)
    ensures Turn(ring, f, k + 1) != f ==> k + 1 < |ring|
  {
  }

  lemma TakeFacts(base: nat, ring: seq<nat>, m: map<nat, nat>, live: set<nat>, arena: set<nat>, i: nat, n: nat,
                  ptr: map<nat, nat>, size: map<nat, nat>)
    requires HeapOk(base, ring, m, live, arena) && Linked(ptr, ring) && HeadersOk(base, m, size)
    requires 0 < i < |ring| && ring[i] in size && 1 <= n <= size[ring[i]]
    ensures var p := ring[i];
            p in m && m[p] == size[p] && p in ptr && p !in live && (forall a :: a in live ==> a in m) &&
            (size[p] == n ==>
              HeapOk(base, RemoveAt(ring, i), m, live + {p}, arena) && ring[i - 1] in RemoveAt(ring, i) &&
              Linked(ptr[ring[i - 1] := ptr[p]], RemoveAt(ring, i))) &&
            (size[p] > n ==>
              var hp := p + (size[p] - n);
              HeapOk(base, ring, Split(m, p, n), live + {hp}, arena) && hp !in m &&
              hp in Split(m, p, n) && Split(m, p, n)[hp] == n &&
              HeadersOk(base, Split(m, p, n), size[p := size[p] - n][hp := n]) &&
              forall a :: a in live ==> a in Split(m, p, n) && Split(m, p, n)[a] == m[a])
  {
    hide Tiles, Coalesced, RemoveAt;
    var p := ring[i];
    if size[p] == n {
      TakeWhole(base, ring, m, live, arena, i);
      RemoveLinked(ring, i, ptr);
      assert RemoveAt(ring, i)[i - 1] == ring[i - 1];
    } else {
      TakeTail(base, ring, m, live, arena, i, n);
    }
  }

  lemma NextTurn(ptr: map<nat, nat>, ring: seq<nat>, f: nat, k: nat)
    requires Linked(ptr, ring) && f < |ring| && k < |ring|
    ensures var p := ring[Turn(ring, f, k)]; p in ptr && ptr[p] == ring[Turn(ring, f, k + 1)]
  {
  }

  lemma LinkAt(ptr: map<nat, nat>, ring: seq<nat>, f: nat)
    requires Linked(ptr, ring) && f < |ring|
    ensures ring[f] in ptr && ptr[ring[f]] == ring[Turn(ring, f, 1)] && Turn(ring, f, 0) == f
  {
  }

  lemma LiveBlocks(base: nat, ring: seq<nat>, m: map<nat, nat>, live: set<nat>, arena: set<nat>)
    requires HeapOk(base, ring, m, live, arena)
    ensures |ring| > 0 && forall a :: a in live ==> a in m
  {
  }

  lemma FirstCall(base: nat, m: map<nat, nat>, live: set<nat>, arena: set<nat>, ptr: map<nat, nat>, size: map<nat, nat>)
    requires HeapOk(base, [base], m, live, arena) && live == {}
    requires base in ptr && ptr[base] == base && base in size && size[base] == 0
    ensures Linked(ptr, [base]) && HeadersOk(base, m, size)
  {
  }

  lemma SizeKnown(base: nat, ring: seq<nat>, m: map<nat, nat>, live: set<nat>, arena: set<nat>, size: map<nat, nat>,
                  i: nat)
    requires HeapOk(base, ring, m, live, arena) && HeadersOk(base, m, size) && i < |ring|
    ensures ring[i] in size
  {
  }

  lemma FitHere(base: nat, ring: seq<nat>, m: map<nat, nat>, live: set<nat>, arena: set<nat>, size: map<nat, nat>,
                f: nat, k: nat, n: nat)
    requires HeapOk(base, ring, m, live, arena) && HeadersOk(base, m, size) && f < |ring| && k < |ring| && n >= 1
    requires ring[Turn(ring, f, k + 1)] in size && size[ring[Turn(ring, f, k + 1)]] >= n
    ensures Turn(ring, f, k + 1) > 0 && Turn(ring, f, k) == Turn(ring, f, k + 1) - 1 && HasFit(ring, m, n)
  {
    var i := Turn(ring, f, k + 1);
    assert ring[i] != base;
    assert ring[i] in m;
  }

  /** Back at freep with nothing found: no block fits. */
  lemma FullTurn(base: nat, ring: seq<nat>, m: map<nat, nat>, live: set<nat>, arena: set<nat>, size: map<nat, nat>,
                 f: nat, k: nat, n: nat)
    requires HeapOk(base, ring, m, live, arena) && HeadersOk(base, m, size) && f < |ring| && k < |ring|
    requires ring[Turn(ring, f, k + 1)] == ring[f]
    requires Searched(ring, size, f, k + 1, n)
    ensures !HasFit(ring, m, n)
  {
    assert Turn(ring, f, k + 1) == f;
    forall i | 0 < i < |ring| && ring[i] in m ensures m[ring[i]] < n {
      var j := if i > f then i - f else i + |ring| - f;
      assert Turn(ring, f, j) == i;
    }
  }

  lemma BlocksBelow(base: nat, ring: seq<nat>, m: map<nat, nat>, live: set<nat>, arena: set<nat>, brk: nat)
    requires HeapOk(base, ring, m, live, arena) && forall u :: u in arena ==> u < brk
    ensures forall a :: a in m ==> a + m[a] <= brk
    ensures forall a :: a in live ==> a in m
  {
    BelowBreak(m, arena, brk);
  }

  lemma BelowBreak(m: map<nat, nat>, arena: set<nat>, brk: nat)
    requires Tiles(m, arena) && forall u :: u in arena ==> u < brk
    ensures forall a :: a in m ==> a + m[a] <= brk
  {
    forall a | a in m ensures a + m[a] <= brk {
      assert Covers(m, a, a + m[a] - 1);
      assert Covered(m, a + m[a] - 1);
    }
  }

  /** A run of units of the arena that no live block covers lies inside one free block. */
  lemma GrownFree(base: nat, ring: seq<nat>, m: map<nat, nat>, live: set<nat>, arena: set<nat>, hp: nat, n: nat)
    requires HeapOk(base, ring, m, live, arena) && n >= 1
    requires forall u: nat :: hp <= u < hp + n ==> u in arena
    requires forall a :: a in live ==> a in m && a + m[a] <= hp
    ensures HasFit(ring, m, n)
  {
    forall u: nat | hp <= u < hp + n ensures FreeUnit(m, live, u) {
      assert Covered(m, u);
      var a: nat :| Covers(m, a, u);
      assert a !in live;
    }
    assert FreeUnit(m, live, hp);
    var c: nat :| c !in live && Covers(m, c, hp);
    MaximalRun(base, ring, m, live, arena, c);
    assert c + m[c] >= hp + n;
    var i :| 0 <= i < |ring| && ring[i] == c;
    assert i > 0;
  }

  lemma AddLive(base: nat, ring: seq<nat>, m: map<nat, nat>, live: set<nat>, arena: set<nat>, a: nat, n: nat)
    requires HeapOk(base, ring, m, live, arena) && n >= 1 && base < a && forall u :: u in arena ==> u < a
    ensures HeapOk(base, ring, m[a := n], live + {a}, arena + Units(a, n)) && a !in ring && a !in live
  {
    AddTiles(m, arena, a, n);
    BelowBreak(m, arena, a);
    AddDivides(base, ring, m, live, a, n);
    hide Tiles, Covered, Divides, Units;
  }

  lemma AddDivides(base: nat, ring: seq<nat>, m: map<nat, nat>, live: set<nat>, a: nat, n: nat)
    requires Divides(base, ring, m, live) && base < a && a !in m
    ensures Divides(base, ring, m[a := n], live + {a}) && a !in ring && a !in live
    ensures Coalesced(m, ring) ==> Coalesced(m[a := n], ring)
  {
    assert forall i :: 0 <= i < |ring| ==> ring[i] != a;
  }

  /** Header sizes agree with the blocks they describe. */
  ghost predicate HeadersOk(base: nat, m: map<nat, nat>, size: map<nat, nat>) {
    base in size && size[base] == 0 && forall a :: a in m ==> a in size && size[a] == m[a]
  }

  lemma FreeFacts(base: nat, ring: seq<nat>, m: map<nat, nat>, live: set<nat>, arena: set<nat>, k: nat, bp: nat,
                  ptr: map<nat, nat>, size: map<nat, nat>)
    requires HeapOk(base, ring, m, live, arena) && bp in live && Between(ring, k, bp)
    requires Linked(ptr, ring) && HeadersOk(base, m, size)
    ensures ring[k] in ptr && ring[k] in size && bp in size && bp in m && size[bp] == m[bp] && bp != ring[k]
    ensures ptr[ring[k]] in ptr && ptr[ring[k]] in size
    ensures forall a :: a in live ==> a in m
  {
  }

  /** s.ptr and s.size after free() has set the fields of the freed block itself. */
  ghost function PtrRight(ptr: map<nat, nat>, size: map<nat, nat>, p: nat, bp: nat): map<nat, nat> {
    if !(p in ptr && ptr[p] in ptr && bp in size) then ptr
    else if bp + size[bp] == ptr[p] then ptr[bp := ptr[ptr[p]]] else ptr[bp := ptr[p]]
  }

  ghost function SizeRight(ptr: map<nat, nat>, size: map<nat, nat>, p: nat, bp: nat): map<nat, nat> {
    if !(p in ptr && ptr[p] in size && bp in size) then size
    else if bp + size[bp] == ptr[p] then size[bp := size[bp] + size[ptr[p]]] else size
  }

  /** Setting the freed block's own fields: inserted, and joined to its right neighbour if they touch. */
  lemma RightHalf(base: nat, ring: seq<nat>, m: map<nat, nat>, live: set<nat>, arena: set<nat>, k: nat, bp: nat,
                  ptr: map<nat, nat>, size: map<nat, nat>)
    requires HeapOk(base, ring, m, live, arena) && bp in live && Between(ring, k, bp)
    requires Linked(ptr, ring) && HeadersOk(base, m, size)
    ensures var (r1, m1) := Join(InsertAt(ring, k, bp), m, k + 1);
            Divides(base, r1, m1, live - {bp}) && k + 1 < |r1| && r1[k] == ring[k] && r1[k + 1] == bp &&
            Linked(PtrRight(ptr, size, ring[k], bp)[ring[k] := bp], r1) &&
            HeadersOk(base, m1, SizeRight(ptr, size, ring[k], bp))
  {
    hide InsertAt, Tiles, Coalesced, RemoveAt, Linked, Divides, Increasing, HeadersOk;
    FreeFacts(base, ring, m, live, arena, k, bp, ptr, size);
    var p: nat, next: nat, r0 := ring[k], ptr[ring[k]], InsertAt(ring, k, bp);
    NextIs(base, ring, m, live, k, bp, ptr, size);
    InsertDivides(base, ring, m, live, k, bp);
    RightHeaders(base, ring, m, live, k, bp, size);
    IncreasingOf(base, ring, m, live);
    InsertLinked(ring, k, bp, ptr);
    if Touches(r0, m, k + 1) {
      IncreasingOf(base, r0, m, live - {bp});
      RemoveLinked(r0, k + 2, ptr[bp := next][p := bp]);
      JoinDivides(base, r0, m, live - {bp}, k + 1);
      assert ptr[bp := next][p := bp][bp := ptr[next]] == ptr[bp := ptr[next]][p := bp];
    }
  }

  lemma IncreasingOf(base: nat, ring: seq<nat>, m: map<nat, nat>, live: set<nat>)
    requires Divides(base, ring, m, live)
    ensures Increasing(ring)
  {
  }

  /** The freed block touches its right neighbour exactly when its end is the left neighbour's pointer. */
  lemma NextIs(base: nat, ring: seq<nat>, m: map<nat, nat>, live: set<nat>, k: nat, bp: nat,
               ptr: map<nat, nat>, size: map<nat, nat>)
    requires Divides(base, ring, m, live) && bp in live && Between(ring, k, bp)
    requires Linked(ptr, ring) && HeadersOk(base, m, size)
    ensures var r0 := InsertAt(ring, k, bp);
            ring[k] in ptr && bp in size && ptr[ring[k]] == (if k + 1 < |ring| then ring[k + 1] else base) &&
            (k + 1 < |ring| ==> r0[k + 2] == ring[k + 1] && ring[k] != ring[k + 1] && ring[k + 1] in m &&
                                bp != ring[k + 1]) &&
            (Touches(r0, m, k + 1) <==> bp + size[bp] == ptr[ring[k]])
    ensures var r1 := Join(InsertAt(ring, k, bp), m, k + 1).0;
            k + 1 < |r1| && r1[k] == ring[k] && r1[k + 1] == bp && bp != ring[k]
  {
  }

  lemma RightHeaders(base: nat, ring: seq<nat>, m: map<nat, nat>, live: set<nat>, k: nat, bp: nat, size: map<nat, nat>)
    requires Divides(base, ring, m, live) && bp in live && Between(ring, k, bp) && HeadersOk(base, m, size)
    ensures var r0 := InsertAt(ring, k, bp);
            bp in size && (Touches(r0, m, k + 1) ==> k + 1 < |ring| && ring[k + 1] in size) &&
            HeadersOk(base, Join(r0, m, k + 1).1,
                      if Touches(r0, m, k + 1) then size[bp := size[bp] + size[ring[k + 1]]] else size)
  {
    hide Increasing, InsertAt, RemoveAt;
  }

  /** s.ptr and s.size after free() has set the fields of the left neighbour, whose pointer is already bp. */
  ghost function PtrLeft(ptr: map<nat, nat>, size: map<nat, nat>, p: nat, bp: nat): map<nat, nat> {
    if p in size && bp in ptr && p + size[p] == bp then ptr[p := ptr[bp]] else ptr
  }

  ghost function SizeLeft(size: map<nat, nat>, p: nat, bp: nat): map<nat, nat> {
    if p in size && bp in size && p + size[p] == bp then size[p := size[p] + size[bp]] else size
  }

  /** The links and sizes free() leaves describe the list and blocks it should leave. */
  lemma FreeLinks(base: nat, ring: seq<nat>, m: map<nat, nat>, live: set<nat>, arena: set<nat>, k: nat, bp: nat,
                  ptr: map<nat, nat>, size: map<nat, nat>)
    requires HeapOk(base, ring, m, live, arena) && bp in live && Between(ring, k, bp)
    requires Linked(ptr, ring) && HeadersOk(base, m, size)
    ensures var p := ring[k];
            var size1 := SizeRight(ptr, size, p, bp);
            p in Freed(ring, m, k, bp).0 &&
            Linked(PtrLeft(PtrRight(ptr, size, p, bp)[p := bp], size1, p, bp), Freed(ring, m, k, bp).0) &&
            HeadersOk(base, Freed(ring, m, k, bp).1, SizeLeft(size1, p, bp))
  {
    hide HeapOk, Join, InsertAt, Linked, HeadersOk, PtrRight, SizeRight, PtrLeft, SizeLeft;
    var p := ring[k];
    RightHalf(base, ring, m, live, arena, k, bp, ptr, size);
    var (r1, m1) := Join(InsertAt(ring, k, bp), m, k + 1);
    LeftHalf(base, r1, m1, live - {bp}, k, bp, PtrRight(ptr, size, p, bp)[p := bp], SizeRight(ptr, size, p, bp));
  }

  /** Setting the left neighbour's fields: joined to the freed block if they touch. */
  lemma LeftHalf(base: nat, r: seq<nat>, m: map<nat, nat>, live: set<nat>, k: nat, bp: nat,
                 ptr: map<nat, nat>, size: map<nat, nat>)
    requires Divides(base, r, m, live) && k + 1 < |r| && r[k + 1] == bp
    requires Linked(ptr, r) && HeadersOk(base, m, size)
    ensures var (r2, m2) := Join(r, m, k);
            r[k] in r2 && Linked(PtrLeft(ptr, size, r[k], bp), r2) && HeadersOk(base, m2, SizeLeft(size, r[k], bp))
  {
    hide RemoveAt, Increasing;
    IncreasingOf(base, r, m, live);
    IncreasingAt(r, k);
    if Touches(r, m, k) {
      RemoveLinked(r, k + 1, ptr);
      assert RemoveAt(r, k + 1)[k] == r[k];
    }
  }

  lemma IncreasingAt(r: seq<nat>, k: nat)
    requires Increasing(r) && k + 1 < |r|
    ensures r[k] < r[k + 1]
  {
  }

  lemma InsertLinked(ring: seq<nat>, k: nat, bp: nat, ptr: map<nat, nat>)
    requires Linked(ptr, ring) && Increasing(ring) && Between(ring, k, bp)
    ensures Linked(ptr[bp := ptr[ring[k]]][ring[k] := bp], InsertAt(ring, k, bp))
  {
    InsertIncreasing(ring, k, bp);
    var r := InsertAt(ring, k, bp);
    var ptr' := ptr[bp := ptr[ring[k]]][ring[k] := bp];
    forall i | 0 <= i < |r| ensures r[i] in ptr' && ptr'[r[i]] == r[if i + 1 < |r| then i + 1 else 0] {
      if i < k {
        assert ring[i] != ring[k];
      } else if i > k + 1 {
        assert ring[i - 1] != ring[k];
      }
    }
  }

  lemma RemoveLinked(ring: seq<nat>, q: nat, ptr: map<nat, nat>)
    requires Linked(ptr, ring) && Increasing(ring) && 0 < q < |ring|
    ensures Linked(ptr[ring[q - 1] := ptr[ring[q]]], RemoveAt(ring, q))
  {
  }

  lemma BetweenUnique(ring: seq<nat>, i: nat, j: nat, bp: nat)
    requires Increasing(ring) && Between(ring, i, bp) && Between(ring, j, bp)
    ensures i == j
  {
  }

  ghost function SlotOf(ring: seq<nat>, bp: nat): (k: nat)
    requires |ring| > 0 && ring[0] < bp && bp !in ring && Increasing(ring)
    ensures Between(ring, k, bp)
  {
    if ring[|ring| - 1] < bp then |ring| - 1
    else SlotOf(ring[..|ring| - 1], bp)
  }
}
