/**
 The buffer cache of bio.c over the memory disk of memide.c.

 The first half gives the meaning of a cache as functions of the buffer array,
 the disk and the recency order; the class implements them with a doubly linked
 ring through the buffers, relinked in place.
 */
module Bio {
  import opened Blocks
  import opened Basics
  import opened Crash

  const ROOTDEV: nat := 1

  /** struct buf without its links: valid and dirty are B_VALID and B_DIRTY. */
  datatype Buf = Buf(dev: nat, blockno: nat, valid: bool, dirty: bool, refcnt: nat, locked: bool, data: Block)

  // ----- meaning of a cache -----

  predicate Keyed(x: Buf, a: nat) {
    x.dev == ROOTDEV && x.blockno == a
  }

  /** A buffer agrees with the disk unless it is invalid, pinned or in use. */
  ghost predicate BufOk(x: Buf, d: Disk) {
    && x.dev <= ROOTDEV
    && (x.dev == ROOTDEV ==> x.blockno < |d|)
    && (x.dev == 0 ==> !x.valid && !x.dirty && x.refcnt == 0)
    && (x.dirty ==> x.valid)
    && (x.locked ==> x.refcnt > 0)
    && (x.valid && !x.dirty && !x.locked ==> x.data == d[x.blockno])
  }

  /** No block has two buffers. */
  ghost predicate Unique(b: seq<Buf>) {
    forall i, j :: 0 <= i < j < |b| && b[i].dev == b[j].dev == ROOTDEV ==> b[i].blockno != b[j].blockno
  }

  ghost predicate CacheOk(b: seq<Buf>, d: Disk) {
    |b| == NBUF && Unique(b) && forall i :: 0 <= i < NBUF ==> BufOk(b[i], d)
  }

  /** The buffer holding block a, or |b|. */
  ghost function Find(b: seq<Buf>, a: nat): (i: nat)
    ensures i <= |b|
    ensures i < |b| ==> Keyed(b[i], a)
    ensures forall j :: 0 <= j < i ==> !Keyed(b[j], a)
  {
    if b == [] then 0 else if Keyed(b[0], a) then 0 else 1 + Find(b[1..], a)
  }

  /** What a reader of block a is given. */
  ghost function Content(b: seq<Buf>, d: Disk, a: nat): Block
    requires a < |d|
  {
    var i := Find(b, a);
    if i < |b| && b[i].valid then b[i].data else d[a]
  }

  /** Block a sits in the cache marked B_DIRTY. */
  ghost predicate Pinned(b: seq<Buf>, a: nat) {
    Find(b, a) < |b| && b[Find(b, a)].dirty
  }

  predicate Recyclable(x: Buf) {
    x.refcnt == 0 && !x.dirty
  }

  ghost predicate LaterInUse(b: seq<Buf>, order: seq<nat>, k: nat)
    requires forall j :: 0 <= j < |order| ==> order[j] < |b|
  {
    forall j :: k < j < |order| ==> !Recyclable(b[order[j]])
  }

  /** The least recently released recyclable buffer, or |b|. */
  ghost function Victim(b: seq<Buf>, order: seq<nat>): (i: nat)
    requires forall k :: 0 <= k < |order| ==> order[k] < |b|
    ensures i <= |b|
    ensures i < |b| ==>
              Recyclable(b[i]) &&
              exists k :: 0 <= k < |order| && order[k] == i && LaterInUse(b, order, k)
    ensures i == |b| ==> forall k :: 0 <= k < |order| ==> !Recyclable(b[order[k]])
  {
    if order == [] then |b|
    else
      var l := |order| - 1;
      if Recyclable(b[order[l]]) then order[l] else Victim(b, order[..l])
  }

  /** The buffer bget hands out for block a; |b| stands for its panic. */
  ghost function Slot(b: seq<Buf>, order: seq<nat>, a: nat): (i: nat)
    requires forall k :: 0 <= k < |order| ==> order[k] < |b|
  {
    if Find(b, a) < |b| then Find(b, a) else Victim(b, order)
  }

  /** The cache after bread of block a into buffer i. */
  ghost function AfterRead(b: seq<Buf>, d: Disk, a: nat, i: nat): seq<Buf>
    requires i < |b| && a < |d|
  {
    var dirty, refs := Keyed(b[i], a) && b[i].dirty, if Keyed(b[i], a) then b[i].refcnt + 1 else 1;
    b[i := Buf(ROOTDEV, a, true, dirty, refs, true, Content(b, d, a))]
  }

  ghost function AfterRelease(b: seq<Buf>, i: nat): seq<Buf>
    requires i < |b| && b[i].refcnt > 0
  {
    b[i := b[i].(locked := false, refcnt := b[i].refcnt - 1)]
  }

  lemma FindUnique(b: seq<Buf>, a: nat, i: nat)
    requires Unique(b) && i < |b| && Keyed(b[i], a)
    ensures Find(b, a) == i
  {
  }

  /** Two caches show every block with the same content and the same pin. */
  ghost predicate SameView(b: seq<Buf>, d: Disk, b': seq<Buf>, d': Disk) {
    |d| == |d'| && forall c: nat :: c < |d| ==> Content(b', d', c) == Content(b, d, c) &&
                                                (Pinned(b', c) <==> Pinned(b, c))
  }

  ghost predicate Readable(b: seq<Buf>, d: Disk, a: nat, i: nat) {
    && CacheOk(b, d) && a < |d| && i < NBUF && !b[i].locked
    && (Find(b, a) == i || (Find(b, a) == NBUF && Recyclable(b[i])))
  }

  lemma ReadOk(b: seq<Buf>, d: Disk, a: nat, i: nat)
    requires Readable(b, d, a, i)
    ensures CacheOk(AfterRead(b, d, a, i), d) && Find(AfterRead(b, d, a, i), a) == i
  {
    var b' := AfterRead(b, d, a, i);
    assert Find(b, a) == NBUF ==> forall j :: 0 <= j < NBUF ==> !Keyed(b[j], a);
    assert Unique(b');
    FindUnique(b', a, i);
  }

  lemma ReadContentAt(b: seq<Buf>, d: Disk, a: nat, i: nat, c: nat)
    requires Readable(b, d, a, i) && c < |d|
    ensures Content(AfterRead(b, d, a, i), d, c) == Content(b, d, c)
    ensures Pinned(AfterRead(b, d, a, i), c) <==> Pinned(b, c)
  {
    ReadOk(b, d, a, i);
    var b' := AfterRead(b, d, a, i);
    if c != a {
      var j := Find(b, c);
      if j < NBUF && j != i {
        FindUnique(b', c, j);
      } else {
        assert forall k :: 0 <= k < NBUF ==> !Keyed(b'[k], c);
      }
    }
  }

  /** Reading a block keeps the cache coherent, returns its content and changes no content and no pin. */
  lemma ReadKeeps(b: seq<Buf>, d: Disk, a: nat, i: nat)
    requires Readable(b, d, a, i)
    ensures var b' := AfterRead(b, d, a, i);
            CacheOk(b', d) && Find(b', a) == i && b'[i].data == Content(b, d, a) && SameView(b, d, b', d)
  {
    ReadOk(b, d, a, i);
    var b' := AfterRead(b, d, a, i);
    forall c: nat | c < |d|
      ensures Content(b', d, c) == Content(b, d, c) && (Pinned(b', c) <==> Pinned(b, c))
    {
      ReadContentAt(b, d, a, i, c);
    }
  }

  lemma WriteContentAt(b: seq<Buf>, d: Disk, i: nat, c: nat)
    requires CacheOk(b, d) && i < NBUF && b[i].dev == ROOTDEV && b[i].valid && c < |d|
    ensures var b' := b[i := b[i].(dirty := false)];
            var d' := d[b[i].blockno := b[i].data];
            Content(b', d', c) == Content(b, d, c) &&
            (Pinned(b', c) <==> Pinned(b, c) && c != b[i].blockno)
  {
    SameKeys(b, b[i := b[i].(dirty := false)], c);
    FindUnique(b, b[i].blockno, i);
  }

  /** Copying a buffer to the disk keeps coherence and changes no block's content. */
  lemma WriteKeeps(b: seq<Buf>, d: Disk, i: nat)
    requires CacheOk(b, d) && i < NBUF && b[i].dev == ROOTDEV && b[i].valid
    ensures var b' := b[i := b[i].(dirty := false)];
            var d' := d[b[i].blockno := b[i].data];
            CacheOk(b', d') &&
            (forall c: nat :: c < |d| ==> Content(b', d', c) == Content(b, d, c)) &&
            (forall c: nat :: c < |d| ==> (Pinned(b', c) <==> Pinned(b, c) && c != b[i].blockno))
  {
    var b' := b[i := b[i].(dirty := false)];
    var d' := d[b[i].blockno := b[i].data];
    forall j | 0 <= j < NBUF ensures BufOk(b'[j], d') {
      assert BufOk(b[j], d);
    }
    forall c: nat | c < |d|
      ensures Content(b', d', c) == Content(b, d, c) && (Pinned(b', c) <==> Pinned(b, c) && c != b[i].blockno)
    {
      WriteContentAt(b, d, i, c);
    }
  }

  lemma {:induction false} SameKeys(b: seq<Buf>, b': seq<Buf>, c: nat)
    requires |b| == |b'| && forall j :: 0 <= j < |b| ==> b[j].dev == b'[j].dev && b[j].blockno == b'[j].blockno
    ensures Find(b, c) == Find(b', c)
  {
    if b != [] {
      SameKeys(b[1..], b'[1..], c);
    }
  }

  /** Filling a held buffer changes its own block's content only. */
  lemma FillKeeps(b: seq<Buf>, d: Disk, i: nat, data: Block)
    requires CacheOk(b, d) && i < NBUF && b[i].locked && b[i].valid
    ensures var b' := b[i := b[i].(data := data)];
            CacheOk(b', d) && b[i].blockno < |d| &&
            (forall c: nat :: c < |d| ==> (Pinned(b', c) <==> Pinned(b, c))) &&
            (forall c: nat :: c < |d| ==> Content(b', d, c) == if c == b[i].blockno then data else Content(b, d, c))
  {
    var b' := b[i := b[i].(data := data)];
    FindUnique(b, b[i].blockno, i);
    forall c: nat | c < |d|
      ensures (Pinned(b', c) <==> Pinned(b, c)) &&
              Content(b', d, c) == if c == b[i].blockno then data else Content(b, d, c)
    {
      SameKeys(b, b', c);
    }
  }

  /** Setting B_DIRTY on a held buffer pins its block and nothing else. */
  lemma PinKeeps(b: seq<Buf>, d: Disk, i: nat)
    requires CacheOk(b, d) && i < NBUF && b[i].locked && b[i].valid
    ensures var b' := b[i := b[i].(dirty := true)];
            CacheOk(b', d) &&
            (forall c: nat :: c < |d| ==> (Pinned(b', c) <==> Pinned(b, c) || c == b[i].blockno)) &&
            (forall c: nat :: c < |d| ==> Content(b', d, c) == Content(b, d, c))
  {
    var b' := b[i := b[i].(dirty := true)];
    FindUnique(b, b[i].blockno, i);
    forall c: nat | c < |d|
      ensures (Pinned(b', c) <==> Pinned(b, c) || c == b[i].blockno) && Content(b', d, c) == Content(b, d, c)
    {
      SameKeys(b, b', c);
    }
  }

  lemma ReleaseKeeps(b: seq<Buf>, d: Disk, i: nat)
    requires CacheOk(b, d) && i < NBUF && b[i].refcnt > 0
    requires b[i].valid && !b[i].dirty ==> b[i].data == d[b[i].blockno]
    ensures var b' := AfterRelease(b, i);
            CacheOk(b', d) && SameView(b, d, b', d)
  {
    var b' := AfterRelease(b, i);
    forall c: nat | c < |d| ensures Content(b', d, c) == Content(b, d, c) && (Pinned(b', c) <==> Pinned(b, c)) {
      SameKeys(b, b', c);
    }
  }

  // ----- availability of a buffer -----

  ghost function Elems(s: seq<nat>): (r: set<nat>)
    ensures |r| <= |s|
    ensures forall x: nat :: x in r <==> x in s
  {
    if s == [] then {} else Elems(s[1..]) + {s[0]}
  }

  lemma {:induction false} KeysSize(b: seq<Buf>, idx: set<nat>, keys: set<nat>)
    requires Unique(b) && forall i :: i in idx ==> i < |b| && b[i].dev == ROOTDEV && b[i].blockno in keys
    ensures |idx| <= |keys|
    decreases |idx|
  {
    if idx != {} {
      var i :| i in idx;
      var idx', keys' := idx - {i}, keys - {b[i].blockno};
      KeysSize(b, idx', keys');
      assert |idx'| == |idx| - 1 && |keys'| == |keys| - 1;
    }
  }

  /** Buffers that hold pinned blocks or are held are fewer than all buffers. */
  lemma BusyIsFew(b: seq<Buf>, n: nat, pinned: seq<nat>, held: set<nat>) returns (i: nat)
    requires |b| == n && Unique(b) && |pinned| + |held| < n
    ensures i < n && i !in held && !(b[i].dev == ROOTDEV && b[i].blockno in pinned)
  {
    var all := Range(0, n);
    var keyed := set j | j in all && b[j].dev == ROOTDEV && b[j].blockno in pinned;
    KeysSize(b, keyed, Elems(pinned));
    assert |keyed + held| <= |keyed| + |held| < |all|;
    if all <= keyed + held {
      SubsetSize(all, keyed + held);
    }
    i :| i in all && i !in keyed + held;
  }

  /** With the pinned blocks and the held buffers together fewer than NBUF, bget finds a victim. */
  lemma VictimExists(b: seq<Buf>, d: Disk, order: seq<nat>, pinned: seq<nat>, held: set<nat>)
    requires CacheOk(b, d) && Permutation(order)
    requires forall i :: 0 <= i < NBUF && b[i].dirty ==> b[i].blockno in pinned
    requires forall i :: 0 <= i < NBUF && b[i].refcnt > 0 ==> i in held
    requires |pinned| + |held| < NBUF
    ensures Victim(b, order) < NBUF
  {
    var i := BusyIsFew(b, NBUF, pinned, held);
    assert i in order && Recyclable(b[i]);
  }

  // ----- the ring -----

  const HEAD: nat := NBUF

  ghost predicate Permutation(order: seq<nat>) {
    && |order| == NBUF
    && Distinct(order)
    && (forall k :: 0 <= k < |order| ==> order[k] < NBUF)
    && (forall i: nat :: i < NBUF ==> i in order)
  }

  /** The k-th buffer after the head; the head itself at both ends. */
  ghost function At(order: seq<nat>, k: int): nat {
    if 0 <= k < |order| then order[k] else HEAD
  }

  /** Following next from the head visits order and returns; prev is its inverse. */
  ghost predicate Ring(next: seq<nat>, prev: seq<nat>, order: seq<nat>) {
    && |next| == |prev| == NBUF + 1
    && Distinct(order)
    && (forall k :: 0 <= k < |order| ==> order[k] < NBUF)
    && (forall k :: -1 <= k < |order| ==> next[At(order, k)] == At(order, k + 1))
    && (forall k :: 0 <= k <= |order| ==> prev[At(order, k)] == At(order, k - 1))
  }

  /** The order after buffer i becomes the most recent. */
  ghost function ToFront(order: seq<nat>, i: nat): seq<nat>
  {
    var k := IndexOf(order, i);
    if k < |order| then [i] + RemoveAt(order, k) else order
  }

  lemma LinkFirst(next: seq<nat>, prev: seq<nat>, order: seq<nat>, i: nat)
    requires Ring(next, prev, order) && i < NBUF && i !in order
    ensures next[HEAD] <= NBUF
    ensures Ring(next[i := next[HEAD]][HEAD := i], prev[i := HEAD][next[HEAD] := i], [i] + order)
  {
    assert next[At(order, -1)] == At(order, 0);
    var n', p' := next[i := next[HEAD]][HEAD := i], prev[i := HEAD][next[HEAD] := i];
    var o' := [i] + order;
    forall k | -1 <= k < |o'| ensures n'[At(o', k)] == At(o', k + 1) {
      if k >= 1 {
        assert At(o', k) == At(order, k - 1) && At(o', k + 1) == At(order, k);
        assert order[k - 1] != i;
      }
    }
    forall k | 0 <= k <= |o'| ensures p'[At(o', k)] == At(o', k - 1) {
      if k >= 1 {
        assert At(o', k) == At(order, k - 1);
        if k >= 2 {
          assert At(o', k - 1) == At(order, k - 2);
          assert prev[At(order, k - 1)] == At(order, k - 2);
        }
      }
    }
  }

  lemma LinkOut(next: seq<nat>, prev: seq<nat>, order: seq<nat>, k: nat)
    requires Ring(next, prev, order) && k < |order|
    ensures var i := order[k];
            next[i] <= NBUF && prev[i] <= NBUF &&
            Ring(next[prev[i] := next[i]], prev[next[i] := prev[i]], RemoveAt(order, k))
  {
    var i := order[k];
    assert At(order, k) == i && next[i] == At(order, k + 1) && prev[i] == At(order, k - 1);
    var n', p', o' := next[prev[i] := next[i]], prev[next[i] := prev[i]], RemoveAt(order, k);
    forall j ensures At(o', j) == if j < k then At(order, j) else if j >= |o'| then HEAD else At(order, j + 1) {}
    forall j | -1 <= j < |o'| ensures n'[At(o', j)] == At(o', j + 1) {
      if j < k - 1 {
        assert At(order, j) != At(order, k - 1);
        assert next[At(order, j)] == At(order, j + 1);
      } else if j >= k {
        assert At(order, j + 1) != At(order, k - 1);
        assert next[At(order, j + 1)] == At(order, j + 2);
      }
    }
    forall j | 0 <= j <= |o'| ensures p'[At(o', j)] == At(o', j - 1) {
      if j < k {
        assert At(order, j) != At(order, k + 1);
        assert prev[At(order, j)] == At(order, j - 1);
      } else if j > k {
        assert At(o', j) == At(order, j + 1) && At(order, j + 1) != At(order, k + 1);
        assert prev[At(order, j + 1)] == At(order, j);
      }
    }
  }

  lemma {:induction false} ToFrontPermutes(order: seq<nat>, i: nat)
    requires Permutation(order) && i < NBUF
    ensures IndexOf(order, i) < NBUF && i !in RemoveAt(order, IndexOf(order, i)) && Permutation(ToFront(order, i))
  {
    assert i in order;
    var k, o' := IndexOf(order, i), ToFront(order, i);
    assert k < |order|;
    forall m: nat | m < NBUF ensures m in o' {
      assert m in order;
      var j :| 0 <= j < |order| && order[j] == m;
      assert o'[if j == k then 0 else if j < k then j + 1 else j] == m;
    }
  }

  // ----- least recently released -----

  /** A buffer moved to the front is first, and the others keep their order. */
  lemma {:induction false} ToFrontIs(order: seq<nat>, i: nat, a: nat, b: nat)
    requires Permutation(order) && i < NBUF && a < NBUF && b < NBUF && a != i && b != i
    ensures IndexOf(ToFront(order, i), i) == 0 && IndexOf(ToFront(order, i), a) > 0
    ensures IndexOf(ToFront(order, i), a) < IndexOf(ToFront(order, i), b) <==> IndexOf(order, a) < IndexOf(order, b)
  {
    assert i in order && a in order && b in order;
    var k, o' := IndexOf(order, i), ToFront(order, i);
    MovedTo(order, i, k, a);
    MovedTo(order, i, k, b);
    assert o'[0] == i;
  }

  lemma {:induction false} MovedTo(order: seq<nat>, i: nat, k: nat, a: nat)
    requires Permutation(order) && k == IndexOf(order, i) < |order| && a in order && a != i
    ensures IndexOf(ToFront(order, i), a) == IndexOf(order, a) + One(IndexOf(order, a) < k)
  {
    var j, o' := IndexOf(order, a), ToFront(order, i);
    var j' := j + One(j < k);
    assert o'[j'] == a;
    forall m | 0 <= m < j' ensures o'[m] != a {
      if m > 0 {
        assert o'[m] == order[if m - 1 < k then m - 1 else m];
      }
    }
    FirstAt(o', a, j');
  }

  lemma {:induction false} FirstAt(s: seq<nat>, a: nat, j: nat)
    requires j < |s| && s[j] == a && forall m :: 0 <= m < j ==> s[m] != a
    ensures IndexOf(s, a) == j
  {
  }

  /** The order that a sequence of last releases leaves, from binit's order on. */
  ghost function OrderAfter(released: seq<nat>): seq<nat> {
    if released == [] then seq(NBUF, k => NBUF - 1 - k)
    else ToFront(OrderAfter(released[..|released| - 1]), released[|released| - 1])
  }

  /** When buffer i was last released; -1 if never. */
  ghost function Since(released: seq<nat>, i: nat): int {
    if released == [] then -1
    else if released[|released| - 1] == i then |released| - 1
    else Since(released[..|released| - 1], i)
  }

  lemma {:induction false} SinceBelow(released: seq<nat>, i: nat)
    ensures -1 <= Since(released, i) < |released|
  {
    if released != [] {
      SinceBelow(released[..|released| - 1], i);
    }
  }

  ghost predicate Buffers(released: seq<nat>) {
    forall k :: 0 <= k < |released| ==> released[k] < NBUF
  }

  lemma {:induction false} OrderIs(released: seq<nat>)
    requires Buffers(released)
    ensures Permutation(OrderAfter(released))
  {
    if released == [] {
      forall i: nat | i < NBUF ensures i in OrderAfter([]) {
        assert OrderAfter([])[NBUF - 1 - i] == i;
      }
    } else {
      OrderIs(released[..|released| - 1]);
      ToFrontPermutes(OrderAfter(released[..|released| - 1]), released[|released| - 1]);
    }
  }

  /** Further to the front means released later. */
  lemma {:induction false} Recency(released: seq<nat>, a: nat, b: nat)
    requires Buffers(released) && a < NBUF && b < NBUF && a != b
    ensures IndexOf(OrderAfter(released), a) < IndexOf(OrderAfter(released), b) <==>
            Since(released, a) > Since(released, b) || (Since(released, a) == Since(released, b) && a > b)
  {
    if released == [] {
      FirstAt(OrderAfter([]), a, NBUF - 1 - a);
      FirstAt(OrderAfter([]), b, NBUF - 1 - b);
    } else {
      hide Permutation, ToFront, IndexOf;
      var before, i := released[..|released| - 1], released[|released| - 1];
      OrderIs(before);
      SinceBelow(before, a);
      SinceBelow(before, b);
      if a == i {
        ToFrontIs(OrderAfter(before), i, b, b);
      } else if b == i {
        ToFrontIs(OrderAfter(before), i, a, a);
      } else {
        ToFrontIs(OrderAfter(before), i, a, b);
        Recency(before, a, b);
      }
    }
  }

  /** The buffer bget recycles is, of those that can be, the one released longest ago. */
  lemma {:induction false} VictimIsOldest(bufs: seq<Buf>, released: seq<nat>, j: nat)
    requires |bufs| == NBUF && Buffers(released) && j < NBUF && Recyclable(bufs[j])
    requires forall k :: 0 <= k < |OrderAfter(released)| ==> OrderAfter(released)[k] < NBUF
    ensures var i := Victim(bufs, OrderAfter(released)); i < NBUF && Since(released, i) <= Since(released, j)
  {
    OrderIs(released);
    var order := OrderAfter(released);
    assert j in order;
    var i := Victim(bufs, order);
    if i != j {
      Recency(released, j, i);
      Behind(bufs, order, i, j);
    }
  }

  lemma {:induction false} Behind(bufs: seq<Buf>, order: seq<nat>, i: nat, j: nat)
    requires Permutation(order) && |bufs| == NBUF && i == Victim(bufs, order) && j < NBUF && Recyclable(bufs[j])
    ensures i < NBUF && (i != j ==> IndexOf(order, j) < IndexOf(order, i))
  {
    assert j in order;
    var m :| 0 <= m < |order| && order[m] == j;
    assert i < NBUF;
    var k :| 0 <= k < |order| && order[k] == i && LaterInUse(bufs, order, k);
    FirstAt(order, i, k);
    FirstAt(order, j, m);
  }

  // ----- the cache in memory -----

  class Bcache {
    const buf: array<Buf>
    const next: array<nat>       // links of the ring; index HEAD is bcache.head
    const prev: array<nat>
    const disk: array<Block>     // memdisk
    ghost var order: seq<nat>    // buffers from head.next on, most recently released first
    ghost var released: seq<nat> // the buffers in the order of their last releases so far
    ghost var trace: seq<Write>  // every disk write so far

    ghost predicate Valid()
      reads this, buf, next, prev, disk
    {
      && next != prev
      && buf.Length == NBUF && next.Length == prev.Length == NBUF + 1
      && Permutation(order) && Ring(next[..], prev[..], order)
      && Buffers(released) && order == OrderAfter(released)
      && CacheOk(buf[..], disk[..])
    }

    /** binit: every buffer starts unkeyed; the ring is built by pushing each at the front. */
    constructor (image: Disk)
      ensures Valid() && fresh(buf) && fresh(next) && fresh(prev) && fresh(disk)
      ensures disk[..] == image && trace == [] && released == []
      ensures forall i :: 0 <= i < NBUF ==> buf[i] == Buf(0, 0, false, false, 0, false, seq(BSIZE, _ => 0))
      ensures forall k :: 0 <= k < NBUF ==> order[k] == NBUF - 1 - k
    {
      var zero := Buf(0, 0, false, false, 0, false, seq(BSIZE, _ => 0));
      buf := new Buf[NBUF](_ => zero);
      next := new nat[NBUF + 1](_ => HEAD);
      prev := new nat[NBUF + 1](_ => HEAD);
      disk := new Block[|image|](i requires 0 <= i < |image| => image[i]);
      order := [];
      trace := [];
      released := [];
      new;
      for b := 0 to NBUF
        invariant next.Length == prev.Length == NBUF + 1
        invariant |order| == b && forall k :: 0 <= k < b ==> order[k] == b - 1 - k
        invariant Ring(next[..], prev[..], order)
        invariant forall i :: 0 <= i < NBUF ==> buf[i] == zero
        invariant disk[..] == image && trace == [] && released == []
      {
        PushFront(b);
      }
      forall i: nat | i < NBUF ensures i in order {
        assert order[NBUF - 1 - i] == i;
      }
      assert order == OrderAfter([]);
    }

    /** The four assignments that make b the head's successor. */
    method PushFront(b: nat)
      requires next != prev && next.Length == prev.Length == NBUF + 1
      requires Ring(next[..], prev[..], order) && b < NBUF && b !in order
      modifies this`order, next, prev
      ensures order == [b] + old(order) && Ring(next[..], prev[..], order)
    {
      LinkFirst(next[..], prev[..], order, b);
      var h := next[HEAD];
      next[b] := h;
      prev[b] := HEAD;
      prev[h] := b;
      next[HEAD] := b;
      assert next[..] == old(next[..])[b := h][HEAD := b];
      assert prev[..] == old(prev[..])[b := HEAD][h := b];
      order := [b] + order;
    }

    /** bget's first loop, along next: the buffer that caches block a, or HEAD. */
    method Lookup(a: nat) returns (b: nat)
      requires Valid()
      ensures b == Find(buf[..], a)
    {
      ghost var k: int := 0;
      b := next[HEAD];
      assert next[..][At(order, -1)] == At(order, 0);
      while b != HEAD
        invariant 0 <= k <= NBUF && b == At(order, k)
        invariant forall j :: 0 <= j < k ==> !Keyed(buf[order[j]], a)
        decreases NBUF - k
      {
        if buf[b].dev == ROOTDEV && buf[b].blockno == a {
          FindUnique(buf[..], a, b);
          return;
        }
        assert next[..][At(order, k)] == At(order, k + 1);
        b, k := next[b], k + 1;
      }
      forall i: nat | i < NBUF ensures !Keyed(buf[i], a) {
        assert i in order;
      }
    }

    /** bget's second loop, along prev: the oldest recyclable buffer, or HEAD. */
    method Oldest() returns (b: nat)
      requires Valid()
      ensures b == Victim(buf[..], order)
      ensures forall j :: 0 <= j < NBUF && Recyclable(buf[j]) ==>
                          b < NBUF && Recyclable(buf[b]) && Since(released, b) <= Since(released, j)
    {
      ghost var k: int := NBUF - 1;
      b := prev[HEAD];
      assert prev[..][At(order, NBUF)] == At(order, NBUF - 1);
      assert order[..NBUF] == order;
      while b != HEAD
        invariant -1 <= k < NBUF && b == At(order, k)
        invariant Victim(buf[..], order) == Victim(buf[..], order[..k + 1])
        decreases k
      {
        assert order[..k + 1][..k] == order[..k];
        if buf[b].refcnt == 0 && !buf[b].dirty {
          OldestFacts(b);
          return;
        }
        assert prev[..][At(order, k)] == At(order, k - 1);
        b, k := prev[b], k - 1;
      }
      OldestFacts(b);
    }

    /** What Oldest found is the recyclable buffer released longest ago. */
    lemma OldestFacts(b: nat)
      requires Valid() && b == Victim(buf[..], order)
      ensures forall j :: 0 <= j < NBUF && Recyclable(buf[j]) ==>
                          b < NBUF && Recyclable(buf[b]) && Since(released, b) <= Since(released, j)
    {
      forall j | 0 <= j < NBUF && Recyclable(buf[j])
        ensures b < NBUF && Recyclable(buf[b]) && Since(released, b) <= Since(released, j)
      {
        VictimIsOldest(buf[..], released, j);
      }
    }

    /** bget: the cached buffer, else the oldest recyclable one, else the "no buffers" panic. */
    method BGet(a: nat) returns (r: Option<nat>)
      requires Valid() && a < disk.Length
      requires Slot(buf[..], order, a) < NBUF ==> !buf[Slot(buf[..], order, a)].locked
      modifies buf
      ensures r == (if Slot(old(buf[..]), order, a) < NBUF then Some(Slot(old(buf[..]), order, a)) else None)
      ensures r.Some? ==>
                var x := old(buf[..])[r.value];
                buf[..] == old(buf[..])[r.value :=
                  if Keyed(x, a) then x.(refcnt := x.refcnt + 1, locked := true)
                  else x.(dev := ROOTDEV, blockno := a, valid := false, dirty := false, refcnt := 1, locked := true)]
      ensures r.None? ==> buf[..] == old(buf[..])
    {
      var b := Lookup(a);
      if b != HEAD {
        buf[b] := buf[b].(refcnt := buf[b].refcnt + 1, locked := true);
        assert buf[..] == old(buf[..])[b := buf[b]];
        return Some(b);
      }
      b := Oldest();
      if b != HEAD {
        buf[b] := buf[b].(dev := ROOTDEV, blockno := a, valid := false, dirty := false, refcnt := 1, locked := true);
        assert buf[..] == old(buf[..])[b := buf[b]];
        return Some(b);
      }
      return None;
    }

    /** iderw of memide.c: write when dirty, else read. */
    method Iderw(b: nat)
      requires b < NBUF == buf.Length
      requires buf[b].locked && (buf[b].valid ==> buf[b].dirty)
      requires buf[b].dev == ROOTDEV && buf[b].blockno < disk.Length
      modifies buf, disk, this`trace
      ensures var x := old(buf[b]);
              if x.dirty then
                disk[..] == old(disk[..])[x.blockno := x.data] && trace == old(trace) + [Write(x.blockno, x.data)] &&
                buf[..] == old(buf[..])[b := x.(dirty := false, valid := true)]
              else
                disk[..] == old(disk[..]) && trace == old(trace) &&
                buf[..] == old(buf[..])[b := x.(data := disk[x.blockno], valid := true)]
    {
      if buf[b].dirty {
        buf[b] := buf[b].(dirty := false);
        disk[buf[b].blockno] := buf[b].data;
        trace := trace + [Write(buf[b].blockno, buf[b].data)];
      } else {
        buf[b] := buf[b].(data := disk[buf[b].blockno]);
      }
      buf[b] := buf[b].(valid := true);
    }

    /** bread: the locked buffer with block a's content; None is the "no buffers" panic. */
    method BRead(a: nat) returns (r: Option<nat>)
      requires Valid() && a < disk.Length
      requires Slot(buf[..], order, a) < NBUF ==> !buf[Slot(buf[..], order, a)].locked
      modifies buf, disk, this`trace
      ensures Valid() && disk[..] == old(disk[..]) && trace == old(trace)
      ensures r == (if Slot(old(buf[..]), order, a) < NBUF then Some(Slot(old(buf[..]), order, a)) else None)
      ensures r.Some? ==> buf[..] == AfterRead(old(buf[..]), disk[..], a, r.value)
      ensures r.None? ==> buf[..] == old(buf[..])
    {
      ghost var s, d := buf[..], disk[..];
      r := BGet(a);
      if r.Some? {
        var b := r.value;
        if !buf[b].valid {
          Iderw(b);
        }
        assert disk[..] == d;
        assert Readable(s, d, a, b);
        assert buf[..] == AfterRead(s, d, a, b);
        ReadKeeps(s, d, a, b);
      }
    }

    /** A client fills the data of a buffer it holds. */
    method SetData(b: nat, data: Block)
      requires Valid() && b < NBUF && buf[b].locked && buf[b].valid
      modifies buf
      ensures Valid() && buf[..] == old(buf[..])[b := old(buf[b]).(data := data)]
    {
      FillKeeps(buf[..], disk[..], b, data);
      buf[b] := buf[b].(data := data);
      assert buf[..] == old(buf[..])[b := old(buf[b]).(data := data)];
    }

    /** A client marks a buffer it holds B_DIRTY. */
    method Pin(b: nat)
      requires Valid() && b < NBUF && buf[b].locked && buf[b].valid
      modifies buf
      ensures Valid() && buf[..] == old(buf[..])[b := old(buf[b]).(dirty := true)]
    {
      PinKeeps(buf[..], disk[..], b);
      buf[b] := buf[b].(dirty := true);
      assert buf[..] == old(buf[..])[b := old(buf[b]).(dirty := true)];
    }

    /** bwrite: the buffer's block on disk becomes its data; one entry joins the trace. */
    method BWrite(b: nat)
      requires Valid() && b < NBUF && buf[b].locked && buf[b].valid
      modifies buf, disk, this`trace
      ensures Valid() && trace == old(trace) + [Write(old(buf[b]).blockno, old(buf[b]).data)]
      ensures buf[..] == old(buf[..])[b := old(buf[b]).(dirty := false)]
      ensures disk[..] == old(disk[..])[old(buf[b]).blockno := old(buf[b]).data]
    {
      WriteKeeps(buf[..], disk[..], b);
      buf[b] := buf[b].(dirty := true);
      Iderw(b);
      assert buf[..] == old(buf[..])[b := old(buf[b]).(dirty := false)];
    }

    /** brelse: unlock; the last reference moves the buffer to the front of the ring. */
    method BRelse(b: nat)
      requires Valid() && b < NBUF && buf[b].locked
      requires buf[b].valid && !buf[b].dirty ==> buf[b].data == disk[buf[b].blockno]
      modifies this`order, this`released, buf, next, prev
      ensures Valid() && buf[..] == AfterRelease(old(buf[..]), b)
      ensures order == if old(buf[b]).refcnt == 1 then ToFront(old(order), b) else old(order)
      ensures released == if old(buf[b]).refcnt == 1 then old(released) + [b] else old(released)
    {
      ReleaseKeeps(buf[..], disk[..], b);
      buf[b] := buf[b].(locked := false);
      buf[b] := buf[b].(refcnt := buf[b].refcnt - 1);
      assert buf[..] == AfterRelease(old(buf[..]), b);
      if buf[b].refcnt == 0 {
        ghost var k := IndexOf(order, b);
        ToFrontPermutes(order, b);
        LinkOut(next[..], prev[..], order, k);
        var n, p := next[b], prev[b];
        prev[n] := p;
        next[p] := n;
        assert next[..] == old(next[..])[p := n] && prev[..] == old(prev[..])[n := p];
        order := RemoveAt(order, k);
        PushFront(b);
        released := released + [b];
        assert released[..|released| - 1] == old(released);
      }
    }
  }
}
