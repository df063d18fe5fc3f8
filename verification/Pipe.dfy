/**
 The pipe's ring buffer and its sleep protocol (pipe.c).

 nread and nwrite are 32-bit counters that wrap around.  The history of all bytes
 written, and how many of them were read, is kept beside the ring.
 */
module Pipe {

  import opened Basics
  import opened Blocks

  const PIPESIZE: nat := 512
  const WRAP: nat := 0x1_0000_0000

  datatype Ring = Ring(data: seq<byte>, nread: word, nwrite: word)

  /** p->nwrite == p->nread + PIPESIZE, in 32 bits. */
  predicate Full(r: Ring) {
    r.nwrite == (r.nread + PIPESIZE) % WRAP
  }

  predicate Empty(r: Ring) {
    r.nread == r.nwrite
  }

  function Put(r: Ring, x: byte): (r': Ring)
    requires |r.data| == PIPESIZE
  {
    Ring(r.data[r.nwrite % PIPESIZE := x], r.nread, (r.nwrite + 1) % WRAP)
  }

  function Drop(r: Ring): (r': Ring) {
    Ring(r.data, (r.nread + 1) % WRAP, r.nwrite)
  }

  /** The ring holds the bytes of hist from number taken on. */
  ghost predicate RingOk(r: Ring, hist: seq<byte>, taken: nat) {
    && |r.data| == PIPESIZE && taken <= |hist| <= taken + PIPESIZE
    && r.nread == taken % WRAP && r.nwrite == |hist| % WRAP
    && (forall k: nat :: taken <= k < |hist| ==> r.data[k % PIPESIZE] == hist[k])
  }

  /** The counters wrap, but tests and places come out as if they did not. */
  lemma {:induction false} CountersAgree(r: Ring, hist: seq<byte>, taken: nat)
    requires RingOk(r, hist, taken)
    ensures Full(r) <==> |hist| == taken + PIPESIZE
    ensures Empty(r) <==> |hist| == taken
    ensures r.nwrite % PIPESIZE == |hist| % PIPESIZE && r.nread % PIPESIZE == taken % PIPESIZE
  {
    var n := |hist|;
    Reduce(n);
    Reduce(taken);
    Next(taken, PIPESIZE);
    Apart(n, taken + PIPESIZE);
    Apart(n, taken);
  }

  lemma Next(n: nat, k: nat)
    requires k <= PIPESIZE
    ensures (n % WRAP + k) % WRAP == (n + k) % WRAP
  {
  }

  /** 2^32 is a multiple of the size. */
  lemma Reduce(n: nat)
    ensures n % WRAP % PIPESIZE == n % PIPESIZE
  {
    Multiple(n / WRAP * 0x80_0000, n % WRAP);
  }

  lemma Multiple(q: nat, r: nat)
    ensures (q * PIPESIZE + r) % PIPESIZE == r % PIPESIZE
  {
  }

  /** Numbers less than 2^32 apart that agree in 32 bits are equal. */
  lemma Apart(a: nat, b: nat)
    requires -0x1000 < a - b < 0x1000
    ensures a % WRAP == b % WRAP <==> a == b
  {
  }

  lemma {:induction false} PutOk(r: Ring, hist: seq<byte>, taken: nat, x: byte)
    requires RingOk(r, hist, taken) && !Full(r)
    ensures RingOk(Put(r, x), hist + [x], taken)
  {
    CountersAgree(r, hist, taken);
    hide Full;
    var r', hist' := Put(r, x), hist + [x];
    Next(|hist|, 1);
    forall k: nat | taken <= k < |hist'| ensures r'.data[k % PIPESIZE] == hist'[k] {
      if k < |hist| {
        Places(k, |hist|);
      }
    }
  }

  lemma Places(j: nat, k: nat)
    requires j < k < j + PIPESIZE
    ensures j % PIPESIZE != k % PIPESIZE
  {
  }

  lemma {:induction false} DropOk(r: Ring, hist: seq<byte>, taken: nat)
    requires RingOk(r, hist, taken) && !Empty(r)
    ensures RingOk(Drop(r), hist, taken + 1) && r.data[r.nread % PIPESIZE] == hist[taken]
  {
    CountersAgree(r, hist, taken);
    Next(taken, 1);
  }

  // ----- copying under the lock -----

  /** pipewrite until it is done or the ring is full: the ring, and how many bytes went in. */
  function WriteMost(r: Ring, src: seq<byte>, i: nat): (p: (Ring, nat))
    requires |r.data| == PIPESIZE && i <= |src|
    ensures |p.0.data| == PIPESIZE && i <= p.1 <= |src|
    decreases |src| - i
  {
    if i == |src| || Full(r) then (r, i) else WriteMost(Put(r, src[i]), src, i + 1)
  }

  /** piperead's copy: the ring, and the bytes. */
  function ReadMost(r: Ring, n: nat): (p: (Ring, seq<byte>))
    requires |r.data| == PIPESIZE
    ensures |p.0.data| == PIPESIZE && |p.1| <= n
    decreases n
  {
    if n == 0 || Empty(r) then (r, [])
    else var p := ReadMost(Drop(r), n - 1); (p.0, [r.data[r.nread % PIPESIZE]] + p.1)
  }

  /** As many bytes go in as there is room for, in order. */
  lemma {:induction false} WriteMostOk(r: Ring, hist: seq<byte>, taken: nat, src: seq<byte>, i: nat)
    requires RingOk(r, hist, taken) && i <= |src|
    ensures var p := WriteMost(r, src, i);
            RingOk(p.0, hist + src[i..p.1], taken) && p.1 == i + Min(|src| - i, PIPESIZE - (|hist| - taken)) &&
            (p.1 < |src| ==> Full(p.0))
    decreases |src| - i
  {
    hide RingOk, Full;
    Room(r, hist, taken);
    if i == |src| || Full(r) {
      assert hist + src[i..i] == hist;
    } else {
      PutOk(r, hist, taken, src[i]);
      WriteMostOk(Put(r, src[i]), hist + [src[i]], taken, src, i + 1);
      var k := WriteMost(r, src, i).1;
      assert hist + [src[i]] + src[i + 1..k] == hist + src[i..k];
    }
  }

  lemma {:induction false} Room(r: Ring, hist: seq<byte>, taken: nat)
    requires RingOk(r, hist, taken)
    ensures |r.data| == PIPESIZE && taken <= |hist| <= taken + PIPESIZE && (Full(r) <==> |hist| == taken + PIPESIZE) &&
            (Empty(r) <==> |hist| == taken)
  {
    CountersAgree(r, hist, taken);
  }

  /** As many bytes come out as there are, the oldest first. */
  lemma {:induction false} ReadMostOk(r: Ring, hist: seq<byte>, taken: nat, n: nat)
    requires RingOk(r, hist, taken)
    ensures var p := ReadMost(r, n); var k := Min(n, |hist| - taken);
            RingOk(p.0, hist, taken + k) && p.1 == hist[taken..taken + k]
    decreases n
  {
    hide RingOk, Empty;
    Room(r, hist, taken);
    if n > 0 && !Empty(r) {
      DropOk(r, hist, taken);
      ReadMostOk(Drop(r), hist, taken + 1, n - 1);
      var k := Min(n, |hist| - taken);
      assert hist[taken..taken + k] == [hist[taken]] + hist[taken + 1..taken + k];
    }
  }

  class Buffer {
    const data: array<byte>
    var nread: word
    var nwrite: word

    constructor ()
      ensures fresh(data) && data.Length == PIPESIZE && nread == nwrite == 0
    {
      data := new byte[PIPESIZE](_ => 0);
      nread, nwrite := 0, 0;
    }

    ghost function Value(): Ring
      reads this, data
    {
      Ring(data[..], nread, nwrite)
    }

    /** pipewrite between two sleeps. */
    method Write(src: seq<byte>, from: nat) returns (i: nat)
      requires data.Length == PIPESIZE && from <= |src|
      modifies this`nwrite, data
      ensures (Value(), i) == WriteMost(old(Value()), src, from)
    {
      hide Full;
      i := from;
      while i < |src| && nwrite != (nread + PIPESIZE) % WRAP
        invariant from <= i <= |src| && WriteMost(Value(), src, i) == WriteMost(old(Value()), src, from)
        decreases |src| - i
      {
        ghost var r := Value();
        NotFull(r);
        data[nwrite % PIPESIZE] := src[i];
        nwrite := (nwrite + 1) % WRAP;
        assert Value() == Put(r, src[i]);
        i := i + 1;
      }
      NotFull(Value());
    }

    /** piperead after its wait. */
    method Read(n: nat) returns (dst: seq<byte>)
      requires data.Length == PIPESIZE
      modifies this`nread
      ensures (Value(), dst) == ReadMost(old(Value()), n)
    {
      dst := [];
      var i := 0;
      while i < n && nread != nwrite
        invariant 0 <= i <= n && ReadMost(old(Value()), n).0 == ReadMost(Value(), n - i).0
        invariant ReadMost(old(Value()), n).1 == dst + ReadMost(Value(), n - i).1
        decreases n - i
      {
        ghost var r := Value();
        ghost var x := data[nread % PIPESIZE];
        dst := dst + [data[nread % PIPESIZE]];
        nread := (nread + 1) % WRAP;
        assert Value() == Drop(r);
        ghost var p := ReadMost(Drop(r), n - i - 1);
        assert dst + p.1 == dst[..|dst| - 1] + ([x] + p.1);
        i := i + 1;
      }
      assert dst + [] == dst;
    }
  }

  lemma NotFull(r: Ring)
    ensures Full(r) <==> r.nwrite == (r.nread + PIPESIZE) % WRAP
  {
  }

  // ----- any number of processes -----

  datatype Proc =
    | Outside
    | Writing(src: seq<byte>, i: nat)
    | AsleepWriting(src: seq<byte>, i: nat)
    | Reading(n: nat)
    | AsleepReading(n: nat)

  /** hist lists all bytes ever written, out all bytes ever read. */
  datatype State = State(ring: Ring, hist: seq<byte>, out: seq<byte>, readopen: bool, writeopen: bool, procs: seq<Proc>)

  datatype Action =
    | StartWrite(p: nat, src: seq<byte>)
    | StepWrite(p: nat, killed: bool)
    | StartRead(p: nat, n: nat)
    | StepRead(p: nat, killed: bool)
    | CloseWrite
    | CloseRead
    | Kick(p: nat)

  function WakeReader(p: Proc): Proc {
    if p.AsleepReading? then Reading(p.n) else p
  }

  function WakeWriter(p: Proc): Proc {
    if p.AsleepWriting? then Writing(p.src, p.i) else p
  }

  function WakeReaders(procs: seq<Proc>): (r: seq<Proc>)
    ensures |r| == |procs|
  {
    seq(|procs|, k requires 0 <= k < |procs| => WakeReader(procs[k]))
  }

  function WakeWriters(procs: seq<Proc>): (r: seq<Proc>)
    ensures |r| == |procs|
  {
    seq(|procs|, k requires 0 <= k < |procs| => WakeWriter(procs[k]))
  }

  predicate Enabled(s: State, a: Action) {
    |s.ring.data| == PIPESIZE &&
    match a
    case StartWrite(p, src) => p < |s.procs| && s.procs[p].Outside?
    case StepWrite(p, killed) => p < |s.procs| && s.procs[p].Writing? && s.procs[p].i <= |s.procs[p].src|
    case StartRead(p, n) => p < |s.procs| && s.procs[p].Outside?
    case StepRead(p, killed) => p < |s.procs| && s.procs[p].Reading?
    case CloseWrite => true
    case CloseRead => true
    case Kick(p) => p < |s.procs|
  }

  /** From taking p->lock to giving it up, by sleeping or returning; Kick is kill making a sleeping process runnable. */
  function Do(s: State, a: Action): (t: State)
    requires Enabled(s, a)
  {
    match a
    case StartWrite(p, src) => s.(procs := s.procs[p := Writing(src, 0)])
    case StepWrite(p, killed) =>
      var src, i := s.procs[p].src, s.procs[p].i;
      var (ring, k) := WriteMost(s.ring, src, i);
      var t := s.(ring := ring, hist := s.hist + src[i..k]);
      if k == |src| then t.(procs := WakeReaders(s.procs[p := Outside]))
      else if !s.readopen || killed then t.(procs := s.procs[p := Outside])
      else t.(procs := WakeReaders(s.procs)[p := AsleepWriting(src, k)])
    case StartRead(p, n) => s.(procs := s.procs[p := Reading(n)])
    case StepRead(p, killed) =>
      if Empty(s.ring) && s.writeopen then s.(procs := s.procs[p := if killed then
                                                                 Outside else AsleepReading(s.procs[p].n)])
      else
        var (ring, bytes) := ReadMost(s.ring, s.procs[p].n);
        s.(ring := ring, out := s.out + bytes, procs := WakeWriters(s.procs[p := Outside]))
    case CloseWrite => s.(writeopen := false, procs := WakeReaders(s.procs))
    case CloseRead => s.(readopen := false, procs := WakeWriters(s.procs))
    case Kick(p) => s.(procs := s.procs[p := WakeReader(WakeWriter(s.procs[p]))])
  }

  ghost predicate WriterOk(s: State) {
    forall k :: 0 <= k < |s.procs| && s.procs[k].AsleepWriting? ==> Full(s.ring) && s.readopen
  }

  ghost predicate ReaderOk(s: State) {
    forall k :: 0 <= k < |s.procs| && s.procs[k].AsleepReading? ==> Empty(s.ring) && s.writeopen
  }

  /**
   What has been read is what was written, in order; the rest is in the ring; a sleeping writer has cause to
   sleep.
   */
  ghost predicate Inv(s: State) {
    && |s.out| <= |s.hist| && s.out == s.hist[..|s.out|] && RingOk(s.ring, s.hist, |s.out|)
    && (forall k :: 0 <= k < |s.procs| && s.procs[k].Writing? ==> s.procs[k].i <= |s.procs[k].src|)
    && (forall k :: 0 <= k < |s.procs| && s.procs[k].AsleepWriting? ==> s.procs[k].i <= |s.procs[k].src|)
    && WriterOk(s)
  }

  ghost predicate Initial(s: State) {
    s.hist == [] && s.out == [] && |s.ring.data| == PIPESIZE && s.ring.nread == s.ring.nwrite == 0 &&
    forall k :: 0 <= k < |s.procs| ==> s.procs[k].Outside?
  }

  ghost predicate Run(states: seq<State>, acts: seq<Action>) {
    |states| == |acts| + 1 && Initial(states[0]) &&
    forall k :: 0 <= k < |acts| ==> Enabled(states[k], acts[k]) && states[k + 1] == Do(states[k], acts[k])
  }

  lemma {:induction false} KeepWrite(s: State, p: nat, killed: bool)
    requires Inv(s) && Enabled(s, StepWrite(p, killed))
    ensures Inv(Do(s, StepWrite(p, killed)))
  {
    hide RingOk, Full;
    var src, i := s.procs[p].src, s.procs[p].i;
    var taken := |s.out|;
    Room(s.ring, s.hist, taken);
    WriteMostOk(s.ring, s.hist, taken, src, i);
    var t := Do(s, StepWrite(p, killed));
    assert t.hist[..taken] == s.hist[..taken];
    Room(t.ring, t.hist, taken);
    assert WriterOk(t);
  }

  lemma {:induction false} KeepRead(s: State, p: nat, killed: bool)
    requires Inv(s) && Enabled(s, StepRead(p, killed))
    ensures Inv(Do(s, StepRead(p, killed)))
  {
    hide RingOk, Full, Empty;
    var n, taken := s.procs[p].n, |s.out|;
    Room(s.ring, s.hist, taken);
    ReadMostOk(s.ring, s.hist, taken, n);
    var t := Do(s, StepRead(p, killed));
    if !(Empty(s.ring) && s.writeopen) {
      var k := Min(n, |s.hist| - taken);
      assert s.hist[..taken] + s.hist[taken..taken + k] == s.hist[..taken + k];
      assert forall j :: 0 <= j < |t.procs| ==> !t.procs[j].AsleepWriting?;
    }
  }

  lemma {:induction false} KeepInv(s: State, a: Action)
    requires Inv(s) && Enabled(s, a)
    ensures Inv(Do(s, a))
  {
    match a
    case StepWrite(p, killed) => KeepWrite(s, p, killed);
    case StepRead(p, killed) => KeepRead(s, p, killed);
    case CloseRead => assert forall j :: 0 <= j < |s.procs| ==> !Do(s, a).procs[j].AsleepWriting?;
    case _ =>
  }

  lemma {:induction false} RunInv(states: seq<State>, acts: seq<Action>, k: nat)
    requires Run(states, acts) && k <= |acts|
    ensures Inv(states[k])
  {
    hide Inv, Do, Enabled;
    if k == 0 {
      InitialInv(states[0]);
    } else {
      RunInv(states, acts, k - 1);
      KeepInv(states[k - 1], acts[k - 1]);
    }
  }

  lemma {:induction false} InitialInv(s: State)
    requires Initial(s)
    ensures Inv(s)
  {
  }

  /** The bytes in the ring, oldest first. */
  ghost function Buffered(r: Ring): seq<byte>
    requires |r.data| == PIPESIZE
  {
    ReadMost(r, PIPESIZE).1
  }

  /** In every run: what was read, then what the ring holds, is what was written. */
  lemma {:induction false} Conservation(states: seq<State>, acts: seq<Action>, k: nat)
    requires Run(states, acts) && k <= |acts|
    ensures |states[k].ring.data| == PIPESIZE && states[k].out + Buffered(states[k].ring) == states[k].hist
    ensures forall j :: 0 <= j < |states[k].procs| && states[k].procs[j].AsleepWriting? ==>
                        Full(states[k].ring) && states[k].readopen
  {
    RunInv(states, acts, k);
    var s := states[k];
    Room(s.ring, s.hist, |s.out|);
    ReadMostOk(s.ring, s.hist, |s.out|, PIPESIZE);
    assert s.hist == s.hist[..|s.out|] + s.hist[|s.out|..|s.hist|];
  }

  // ----- sleeping readers -----

  ghost predicate SomeReaderAsleep(s: State) {
    exists k :: 0 <= k < |s.procs| && s.procs[k].AsleepReading?
  }

  /**
   A writer with more than a ring's worth left, killed or without a reader end, takes its turn while a reader
   sleeps.
   */
  ghost predicate Strands(s: State, a: Action) {
    a.StepWrite? && a.p < |s.procs| && s.procs[a.p].Writing? && SomeReaderAsleep(s) &&
    (!s.readopen || a.killed) && |s.procs[a.p].src| - s.procs[a.p].i > PIPESIZE
  }

  /** A step leaves every sleeping reader with nothing to read exactly when it is not such a turn. */
  lemma {:induction false} ReadersIff(s: State, a: Action)
    requires Inv(s) && ReaderOk(s) && Enabled(s, a)
    ensures ReaderOk(Do(s, a)) <==> !Strands(s, a)
  {
    var t := Do(s, a);
    match a
    case StepWrite(p, killed) => ReadersWrite(s, p, killed);
    case StepRead(p, killed) => ReadersRead(s, p, killed);
    case CloseWrite => assert forall j :: 0 <= j < |t.procs| ==> !t.procs[j].AsleepReading?;
    case CloseRead => assert forall j :: 0 <= j < |t.procs| && t.procs[j].AsleepReading? ==> s.procs[j].AsleepReading?;
    case _ => assert forall j :: 0 <= j < |t.procs| && t.procs[j].AsleepReading? ==> s.procs[j].AsleepReading?;
  }

  /** No reader has slept on a ring with bytes in it up to state k. */
  ghost predicate ReadersOkTo(states: seq<State>, k: nat) {
    forall j :: 0 <= j <= k && j < |states| ==> ReaderOk(states[j])
  }

  ghost predicate NoneStrands(states: seq<State>, acts: seq<Action>, k: nat) {
    forall j :: 0 <= j < k && j < |acts| && j < |states| ==> !Strands(states[j], acts[j])
  }

  /**
   Over whole runs: no reader ever sleeps on a ring with bytes in it, nor on a pipe without writers, just if
   no step strands one.
   */
  lemma {:induction false} ReadersRun(states: seq<State>, acts: seq<Action>, k: nat)
    requires Run(states, acts) && k <= |acts|
    ensures ReadersOkTo(states, k) <==> NoneStrands(states, acts, k)
  {
    hide Inv, Do, Enabled, ReaderOk, Strands, Initial;
    if k == 0 {
      InitialReaders(states[0]);
    } else {
      ReadersRun(states, acts, k - 1);
      if ReadersOkTo(states, k - 1) {
        RunInv(states, acts, k - 1);
        ReadersIff(states[k - 1], acts[k - 1]);
        assert ReadersOkTo(states, k) <==> ReaderOk(states[k]);
        assert NoneStrands(states, acts, k) <==> !Strands(states[k - 1], acts[k - 1]);
      } else {
        var j :| 0 <= j < k - 1 && Strands(states[j], acts[j]);
        var m :| 0 <= m <= k - 1 && !ReaderOk(states[m]);
        assert !NoneStrands(states, acts, k) && !ReadersOkTo(states, k);
      }
    }
  }

  lemma InitialReaders(s: State)
    requires Initial(s)
    ensures ReaderOk(s)
  {
  }

  lemma {:induction false} ReadersRead(s: State, p: nat, killed: bool)
    requires Inv(s) && ReaderOk(s) && Enabled(s, StepRead(p, killed))
    ensures ReaderOk(Do(s, StepRead(p, killed)))
  {
    hide RingOk;
    var t := Do(s, StepRead(p, killed));
    Room(s.ring, s.hist, |s.out|);
    ReadMostOk(s.ring, s.hist, |s.out|, s.procs[p].n);
    if !(Empty(s.ring) && s.writeopen) {
      assert forall j :: 0 <= j < |t.procs| && t.procs[j].AsleepReading? ==> s.procs[j].AsleepReading?;
    }
  }

  lemma {:induction false} ReadersWrite(s: State, p: nat, killed: bool)
    requires Inv(s) && ReaderOk(s) && Enabled(s, StepWrite(p, killed))
    ensures ReaderOk(Do(s, StepWrite(p, killed))) <==> !Strands(s, StepWrite(p, killed))
  {
    hide RingOk, Full;
    var a := StepWrite(p, killed);
    var t := Do(s, a);
    var src, i, taken := s.procs[p].src, s.procs[p].i, |s.out|;
    Room(s.ring, s.hist, taken);
    WriteMostOk(s.ring, s.hist, taken, src, i);
    Room(t.ring, t.hist, taken);
    var k := WriteMost(s.ring, src, i).1;
    if k < |src| && (!s.readopen || killed) {
      assert t.procs == s.procs[p := Outside];
      if SomeReaderAsleep(s) {
        var j :| 0 <= j < |s.procs| && s.procs[j].AsleepReading?;
        assert t.procs[j].AsleepReading?;
      }
    } else {
      assert forall j :: 0 <= j < |t.procs| ==> !t.procs[j].AsleepReading?;
    }
  }

  /** A run in which a killed writer leaves a full pipe behind a reader that sleeps on. */
  lemma {:induction false} ReaderLeftAsleep() returns (states: seq<State>, acts: seq<Action>)
    ensures Run(states, acts) && |acts| == 4 && !ReaderOk(states[4]) && Full(states[4].ring) &&
            states[4].procs[0].AsleepReading?
  {
    hide WriteMost, Full;
    var src: seq<byte> := seq(PIPESIZE + 1, _ => 7);
    var s0 := State(Ring(seq(PIPESIZE, _ => 0), 0, 0), [], [], true, true, [Outside, Outside]);
    var s1 := s0.(procs := [Reading(1), Outside]);
    var s2 := s0.(procs := [AsleepReading(1), Outside]);
    var s3 := s0.(procs := [AsleepReading(1), Writing(src, 0)]);
    assert s1 == Do(s0, StartRead(0, 1)) && s2 == Do(s1, StepRead(0, false)) && s3 == Do(s2, StartWrite(1, src));
    WriteMostOk(s3.ring, [], 0, src, 0);
    acts := [StartRead(0, 1), StepRead(0, false), StartWrite(1, src), StepWrite(1, true)];
    states := [s0, s1, s2, s3, Do(s3, StepWrite(1, true))];
    RunInv(states, acts, 3);
    assert s3.procs[0].AsleepReading?;
    ReadersIff(s3, acts[3]);
  }
}
