/**
 Bytes and the calls they belong to, over whole runs of module Pipe: every write puts
 in the bytes it was asked to write, in order and each once, and every read takes the
 next bytes.
 */
module PipeHistory {

  import opened Basics
  import opened Blocks
  import opened Pipe

  // ----- one turn -----

  /** Room left in the ring. */
  ghost function Space(s: State): nat
    requires |s.out| <= |s.hist| <= |s.out| + PIPESIZE
  {
    PIPESIZE - (|s.hist| - |s.out|)
  }

  lemma InvSpace(s: State)
    requires Inv(s)
    ensures |s.out| <= |s.hist| <= |s.out| + PIPESIZE && |s.ring.data| == PIPESIZE
    ensures Empty(s.ring) <==> |s.hist| == |s.out|
  {
    Room(s.ring, s.hist, |s.out|);
  }

  /**
   A writer's turn: as much of the rest as there is room for; then it is done, gives up, or sleeps with its
   place kept.
   */
  lemma {:induction false} WriteTurn(s: State, p: nat, killed: bool)
    requires Inv(s) && Enabled(s, StepWrite(p, killed))
    ensures |s.out| <= |s.hist| <= |s.out| + PIPESIZE
    ensures var src, i, t := s.procs[p].src, s.procs[p].i, Do(s, StepWrite(p, killed));
            var k := i + Min(|src| - i, Space(s));
            t.hist == s.hist + src[i..k] && t.out == s.out && |t.procs| == |s.procs| &&
            t.procs[p] == (if k == |src| || !s.readopen || killed then Outside else AsleepWriting(src, k)) &&
            (forall q :: 0 <= q < |s.procs| && q != p ==> t.procs[q] == s.procs[q] ||
                                                          t.procs[q] == WakeReader(s.procs[q]))
  {
    hide RingOk, Full;
    InvSpace(s);
    WriteMostOk(s.ring, s.hist, |s.out|, s.procs[p].src, s.procs[p].i);
  }

  /**
   A reader's turn: it sleeps or gives up on an empty pipe with a writer; else it takes the next bytes, up to
   n, and is done.
   */
  lemma {:induction false} ReadTurn(s: State, p: nat, killed: bool)
    requires Inv(s) && Enabled(s, StepRead(p, killed))
    ensures |s.out| <= |s.hist|
    ensures var n, t := s.procs[p].n, Do(s, StepRead(p, killed));
            t.hist == s.hist && |t.procs| == |s.procs| &&
            if |s.hist| == |s.out| && s.writeopen then
              t == s.(procs := s.procs[p := if killed then Outside else AsleepReading(n)])
            else
              t.out == s.out + s.hist[|s.out|..|s.out| + Min(n, |s.hist| - |s.out|)] && t.procs[p] == Outside &&
              forall q :: 0 <= q < |s.procs| && q != p ==> t.procs[q] == WakeWriter(s.procs[q])
  {
    hide RingOk, Empty;
    InvSpace(s);
    ReadMostOk(s.ring, s.hist, |s.out|, s.procs[p].n);
  }

  // ----- calls -----

  /** The step at which process p began its latest write before moment k. */
  ghost function Call(acts: seq<Action>, p: nat, k: nat): (c: Option<nat>)
    requires k <= |acts|
    ensures c.Some? ==> c.value < k && acts[c.value].StartWrite? && acts[c.value].p == p
    ensures c.Some? ==> forall m :: c.value < m < k ==> !(acts[m].StartWrite? && acts[m].p == p)
  {
    if k == 0 then None
    else if acts[k - 1].StartWrite? && acts[k - 1].p == p then Some(k - 1)
    else Call(acts, p, k - 1)
  }

  /** Process p is in a write. */
  ghost predicate InWrite(s: State, p: nat) {
    p < |s.procs| && (s.procs[p].Writing? || s.procs[p].AsleepWriting?)
  }

  /** The bytes a step puts in. */
  ghost function Added(states: seq<State>, k: nat): seq<byte>
    requires k + 1 < |states|
  {
    if |states[k].hist| <= |states[k + 1].hist| then states[k + 1].hist[|states[k].hist|..] else []
  }

  /** The call each byte of hist came from: the latest write of the process whose turn it was. */
  ghost function Labels(states: seq<State>, acts: seq<Action>, k: nat): seq<Option<nat>>
    requires k < |states| == |acts| + 1
  {
    if k == 0 then []
    else
      var c := if acts[k - 1].StepWrite? then Call(acts, acts[k - 1].p, k - 1) else None;
      Labels(states, acts, k - 1) + seq(|Added(states, k - 1)|, _ => c)
  }

  /** The bytes with label c, in order. */
  ghost function Pick(bytes: seq<byte>, labels: seq<Option<nat>>, c: nat): (r: seq<byte>)
    requires |bytes| == |labels|
  {
    if bytes == [] then []
    else
      var n := |bytes| - 1;
      Pick(bytes[..n], labels[..n], c) + if labels[n] == Some(c) then [bytes[n]] else []
  }

  lemma {:induction false} PickMore(bytes: seq<byte>, labels: seq<Option<nat>>, more: seq<byte>, l: Option<nat>, c: nat)
    requires |bytes| == |labels|
    ensures Pick(bytes + more, labels + seq(|more|, _ => l), c) ==
            Pick(bytes, labels, c) + if l == Some(c) then more else []
    decreases |more|
  {
    var b, ls := bytes + more, labels + seq(|more|, _ => l);
    if more == [] {
      assert b == bytes && ls == labels;
    } else {
      var n, m := |b| - 1, |more| - 1;
      assert b[..n] == bytes + more[..m] && ls[..n] == labels + seq(|more[..m]|, _ => l);
      PickMore(bytes, labels, more[..m], l, c);
      assert more[..m] + [more[m]] == more;
    }
  }

  /** What call c has put in by moment k. */
  ghost function Sent(states: seq<State>, acts: seq<Action>, k: nat, c: nat): seq<byte>
    requires k < |states| == |acts| + 1
  {
    var labels := Labels(states, acts, k);
    if |labels| == |states[k].hist| then Pick(states[k].hist, labels, c) else []
  }

  /** hist grows by what is added, and only in a writer's turn. */
  lemma {:induction false} HistStep(s: State, a: Action)
    requires Inv(s) && Enabled(s, a)
    ensures s.hist <= Do(s, a).hist && (!a.StepWrite? ==> Do(s, a).hist == s.hist)
  {
    hide Inv;
    match a
    case StepWrite(p, killed) => WriteTurn(s, p, killed);
    case StepRead(p, killed) => ReadTurn(s, p, killed);
    case _ =>
  }

  lemma RunLength(states: seq<State>, acts: seq<Action>)
    requires Run(states, acts)
    ensures |states| == |acts| + 1
  {
  }

  lemma {:induction false} LabelsFit(states: seq<State>, acts: seq<Action>, k: nat)
    requires Run(states, acts) && k < |states|
    ensures |Labels(states, acts, k)| == |states[k].hist|
  {
    hide Run, Enabled, Do, Inv;
    RunLength(states, acts);
    if k > 0 {
      LabelsFit(states, acts, k - 1);
      StepAt(states, acts, k - 1);
      HistStep(states[k - 1], acts[k - 1]);
    } else {
      StartEmpty(states, acts);
    }
  }

  lemma {:induction false} LabelsBelow(states: seq<State>, acts: seq<Action>, k: nat, c: nat)
    requires k < |states| == |acts| + 1 && k <= c
    ensures Some(c) !in Labels(states, acts, k)
  {
    hide Added;
    if k > 0 {
      LabelsBelow(states, acts, k - 1, c);
      var n := |Labels(states, acts, k - 1)|;
      assert forall j :: n <= j < |Labels(states, acts, k)| ==> Labels(states, acts, k)[j] != Some(c);
    }
  }

  /** One step adds to the bytes of a call exactly what its process puts in on its turn. */
  lemma {:induction false} SentStep(states: seq<State>, acts: seq<Action>, k: nat, c: nat)
    requires Run(states, acts) && k < |acts|
    ensures Sent(states, acts, k + 1, c) ==
            Sent(states, acts, k, c) +
            if acts[k].StepWrite? && Call(acts, acts[k].p, k) == Some(c) then Added(states, k) else []
  {
    hide Run, Enabled, Do, Inv;
    RunLength(states, acts);
    LabelsFit(states, acts, k);
    LabelsFit(states, acts, k + 1);
    StepAt(states, acts, k);
    HistStep(states[k], acts[k]);
    var l := if acts[k].StepWrite? then Call(acts, acts[k].p, k) else None;
    assert states[k + 1].hist == states[k].hist + Added(states, k);
    PickMore(states[k].hist, Labels(states, acts, k), Added(states, k), l, c);
  }

  lemma {:induction false} PickNone(bytes: seq<byte>, labels: seq<Option<nat>>, c: nat)
    requires |bytes| == |labels| && Some(c) !in labels
    ensures Pick(bytes, labels, c) == []
  {
    if bytes != [] {
      PickNone(bytes[..|bytes| - 1], labels[..|bytes| - 1], c);
    }
  }

  lemma {:induction false} NotYetSent(states: seq<State>, acts: seq<Action>, k: nat, c: nat)
    requires Run(states, acts) && k < |states| && k <= c
    ensures Sent(states, acts, k, c) == []
  {
    LabelsFit(states, acts, k);
    LabelsBelow(states, acts, k, c);
    PickNone(states[k].hist, Labels(states, acts, k), c);
  }

  ghost function ProcAt(s: State, p: nat): Proc {
    if p < |s.procs| then s.procs[p] else Outside
  }

  /** A process in a write has put in what its place says, of the source it was given. */
  ghost predicate AtPlace(x: Proc, src: seq<byte>, sent: seq<byte>) {
    x.Writing? || x.AsleepWriting? ==> x.src == src && x.i <= |src| && sent == src[..x.i]
  }

  ghost predicate PlaceOk(states: seq<State>, acts: seq<Action>, k: nat, p: nat)
    requires k < |states| == |acts| + 1
  {
    InWrite(states[k], p) ==>
      Call(acts, p, k).Some? &&
      AtPlace(ProcAt(states[k], p), acts[Call(acts, p, k).value].src, Sent(states, acts, k, Call(acts, p, k).value))
  }

  /** After its turn a writer is done, or sleeps at its place, or has been cut short. */
  ghost predicate Advanced(y: Proc, src: seq<byte>, sent: seq<byte>, cut: bool) {
    && sent <= src
    && (y.Outside? || (y == AsleepWriting(src, |sent|) && !cut))
    && (y.Outside? && !cut ==> sent == src)
  }

  /** How a step moves a process that is in a write, or makes it enter one. */
  lemma {:induction false} WriterStep(s: State, a: Action, p: nat)
    requires Inv(s) && Enabled(s, a) && p < |s.procs|
    ensures |Do(s, a).procs| == |s.procs|
    ensures a.StartWrite? && a.p == p ==> Do(s, a).procs[p] == Writing(a.src, 0)
    ensures InWrite(Do(s, a), p) && !((a.StepWrite? || a.StartWrite?) && a.p == p) ==>
              InWrite(s, p) && Do(s, a).procs[p].src == s.procs[p].src && Do(s, a).procs[p].i == s.procs[p].i
    ensures InWrite(s, p) && !(a.StepWrite? && a.p == p) ==> InWrite(Do(s, a), p)
  {
    hide Inv;
    match a
    case StepWrite(q, killed) => WriteTurn(s, q, killed);
    case StepRead(q, killed) => ReadTurn(s, q, killed);
    case _ =>
  }

  lemma {:induction false} StepAt(states: seq<State>, acts: seq<Action>, k: nat)
    requires Run(states, acts) && k < |acts|
    ensures Inv(states[k]) && Enabled(states[k], acts[k]) && states[k + 1] == Do(states[k], acts[k])
  {
    hide Inv, Enabled, Do, Initial;
    RunInv(states, acts, k);
  }

  /** Its own turn: the bytes put in are the next of its source. */
  lemma {:induction false} PlaceTurn(states: seq<State>, acts: seq<Action>, k: nat, c: nat)
    requires Run(states, acts) && c < k < |acts| && acts[c].StartWrite?
    requires acts[k].StepWrite? && Call(acts, acts[k].p, k) == Some(c) && PlaceOk(states, acts, k, acts[k].p)
    ensures Advanced(ProcAt(states[k + 1], acts[k].p), acts[c].src, Sent(states, acts, k + 1, c),
                     !states[k].readopen || acts[k].killed)
  {
    hide Run, Inv, Do, Initial, Sent;
    RunLength(states, acts);
    StepAt(states, acts, k);
    WriteTurn(states[k], acts[k].p, acts[k].killed);
    SentStep(states, acts, k, c);
    TurnAdvances(states[k], states[k + 1], acts[k].p, acts[k].killed, acts[c].src, Sent(states, acts, k, c));
  }

  lemma {:induction false} TurnAdvances(s: State, t: State, p: nat, killed: bool, src: seq<byte>, sent: seq<byte>)
    requires p < |s.procs| == |t.procs| && s.procs[p].Writing? && AtPlace(s.procs[p], src, sent)
    requires |s.out| <= |s.hist| <= |s.out| + PIPESIZE
    requires var i := s.procs[p].i; var k := i + Min(|src| - i, Space(s));
             t.hist == s.hist + src[i..k] &&
             t.procs[p] == if k == |src| || !s.readopen || killed then Outside else AsleepWriting(src, k)
    ensures |s.hist| <= |t.hist| &&
            Advanced(t.procs[p], src, sent + t.hist[|s.hist|..], !s.readopen || killed)
  {
    var i := s.procs[p].i;
    var k := i + Min(|src| - i, Space(s));
    assert t.hist[|s.hist|..] == src[i..k];
    assert src[..i] + src[i..k] == src[..k];
  }

  lemma {:induction false} PlaceStep(states: seq<State>, acts: seq<Action>, k: nat, p: nat)
    requires Run(states, acts) && k < |acts| && PlaceOk(states, acts, k, p)
    ensures PlaceOk(states, acts, k + 1, p)
  {
    hide Run, Inv, Enabled, Do, Initial, Sent;
    RunLength(states, acts);
    if InWrite(states[k + 1], p) {
      StepAt(states, acts, k);
      ProcsSame(states, acts, k);
      StartsOutside(states[k], acts[k]);
      if acts[k].StepWrite? && acts[k].p == p {
        PlaceTurn(states, acts, k, Call(acts, p, k).value);
      } else {
        WriterStep(states[k], acts[k], p);
        if acts[k].StartWrite? && acts[k].p == p {
          NotYetSent(states, acts, k, k);
          SentStep(states, acts, k, k);
        } else {
          SentStep(states, acts, k, Call(acts, p, k).value);
        }
      }
    }
  }

  lemma {:induction false} ProcsSame(states: seq<State>, acts: seq<Action>, k: nat)
    requires Run(states, acts) && k < |acts|
    ensures |states[k + 1].procs| == |states[k].procs|
  {
    assert Enabled(states[k], acts[k]) && states[k + 1] == Do(states[k], acts[k]);
    if acts[k].StepWrite? {
      RunInv(states, acts, k);
      WriteTurn(states[k], acts[k].p, acts[k].killed);
    }
  }

  lemma {:induction false} PlaceRun(states: seq<State>, acts: seq<Action>, k: nat, p: nat)
    requires Run(states, acts) && k < |states|
    ensures PlaceOk(states, acts, k, p)
  {
    if k > 0 {
      hide Enabled, Do, Inv, PlaceOk;
      PlaceRun(states, acts, k - 1, p);
      PlaceStep(states, acts, k - 1, p);
    }
  }

  // ----- whole runs -----

  /** In every run the bytes of a write are, in order, the first bytes of its source. */
  lemma {:induction false} WritesInOrder(states: seq<State>, acts: seq<Action>, k: nat, c: nat)
    requires Run(states, acts) && k < |states| && c < |acts| && acts[c].StartWrite?
    ensures Sent(states, acts, k, c) <= acts[c].src
  {
    hide Run, Inv, Enabled, Do, Initial, Sent, PlaceOk;
    RunLength(states, acts);
    if k <= c {
      NotYetSent(states, acts, k, c);
    } else {
      WritesInOrder(states, acts, k - 1, c);
      SentStep(states, acts, k - 1, c);
      if acts[k - 1].StepWrite? && Call(acts, acts[k - 1].p, k - 1) == Some(c) {
        PlaceRun(states, acts, k - 1, acts[k - 1].p);
        PlaceTurn(states, acts, k - 1, c);
      }
    }
  }

  /** A turn that may end a write early. */
  ghost predicate Cuts(states: seq<State>, acts: seq<Action>, m: nat)
    requires m < |acts| && |states| == |acts| + 1
  {
    acts[m].StepWrite? && (!states[m].readopen || acts[m].killed)
  }

  ghost predicate NoCut(states: seq<State>, acts: seq<Action>, c: nat, k: nat)
    requires k < |states| == |acts| + 1
  {
    forall m :: c <= m < k && acts[m].StepWrite? && Call(acts, acts[m].p, m) == Some(c) ==> !Cuts(states, acts, m)
  }

  /** Call c is still going on. */
  ghost predicate Open(states: seq<State>, acts: seq<Action>, k: nat, c: nat)
    requires k < |states| == |acts| + 1 && c < |acts| && acts[c].StartWrite?
  {
    InWrite(states[k], acts[c].p) && Call(acts, acts[c].p, k) == Some(c)
  }

  lemma {:induction false} OpenStep(states: seq<State>, acts: seq<Action>, k: nat, c: nat)
    requires Run(states, acts) && k < |acts| && c < k && acts[c].StartWrite?
    ensures Open(states, acts, k + 1, c) ==> Open(states, acts, k, c)
    ensures Open(states, acts, k, c) && !(acts[k].StepWrite? && acts[k].p == acts[c].p) ==>
              Open(states, acts, k + 1, c)
    ensures acts[k].StepWrite? && Call(acts, acts[k].p, k) == Some(c) ==> Open(states, acts, k, c)
  {
    hide Run, Inv, Do, Initial;
    RunLength(states, acts);
    StepAt(states, acts, k);
    ProcsSame(states, acts, k);
    var p := acts[c].p;
    if p < |states[k].procs| {
      WriterStep(states[k], acts[k], p);
      StartsOutside(states[k], acts[k]);
    }
  }

  lemma StartsOutside(s: State, a: Action)
    requires Enabled(s, a)
    ensures a.StartWrite? ==> a.p < |s.procs| && s.procs[a.p].Outside?
    ensures a.StepWrite? ==> a.p < |s.procs| && s.procs[a.p].Writing?
  {
  }

  /**
   In every run a write that is over, and was not cut short by kill or for want of a reader, has put in
   its whole source.
   */
  lemma {:induction false} WriteCompletes(states: seq<State>, acts: seq<Action>, k: nat, c: nat)
    requires Run(states, acts) && c < k < |states| && acts[c].StartWrite?
    requires !Open(states, acts, k, c) && NoCut(states, acts, c, k)
    ensures Sent(states, acts, k, c) == acts[c].src
    decreases k
  {
    hide Run, Inv, Enabled, Do, Initial, Sent, PlaceOk;
    RunLength(states, acts);
    var p := acts[c].p;
    if k == c + 1 {
      StartedOpen(states, acts, c);
    } else {
      SentStep(states, acts, k - 1, c);
      OpenStep(states, acts, k - 1, c);
      if Open(states, acts, k - 1, c) {
        PlaceRun(states, acts, k - 1, p);
        PlaceTurn(states, acts, k - 1, c);
      } else {
        WriteCompletes(states, acts, k - 1, c);
      }
    }
  }

  lemma StartedOpen(states: seq<State>, acts: seq<Action>, c: nat)
    requires Run(states, acts) && c < |acts| && acts[c].StartWrite?
    ensures Open(states, acts, c + 1, c)
  {
    assert Enabled(states[c], acts[c]) && states[c + 1] == Do(states[c], acts[c]);
  }

  /** In every run each byte that ever went in came from a write. */
  lemma {:induction false} EveryByteHasCall(states: seq<State>, acts: seq<Action>, k: nat, j: nat)
    requires Run(states, acts) && k < |states| && j < |states[k].hist|
    ensures |Labels(states, acts, k)| == |states[k].hist|
    ensures var c := Labels(states, acts, k)[j]; c.Some? && c.value < k && acts[c.value].StartWrite?
  {
    hide Run, Inv, Enabled, Do, Initial, PlaceOk;
    RunLength(states, acts);
    LabelsFit(states, acts, k);
    if k == 0 {
      StartEmpty(states, acts);
    } else {
      LabelsFit(states, acts, k - 1);
      StepAt(states, acts, k - 1);
      HistStep(states[k - 1], acts[k - 1]);
      if j < |states[k - 1].hist| {
        EveryByteHasCall(states, acts, k - 1, j);
      } else {
        WriterHasCall(states, acts, k - 1);
      }
    }
  }

  lemma StartEmpty(states: seq<State>, acts: seq<Action>)
    requires Run(states, acts)
    ensures states[0].hist == [] && forall p :: 0 <= p < |states[0].procs| ==> states[0].procs[p].Outside?
  {
  }

  lemma {:induction false} WriterHasCall(states: seq<State>, acts: seq<Action>, k: nat)
    requires Run(states, acts) && k < |acts| && acts[k].StepWrite?
    ensures Call(acts, acts[k].p, k).Some?
  {
    hide Run, Inv, Do, Initial, Sent;
    RunLength(states, acts);
    StepAt(states, acts, k);
    PlaceRun(states, acts, k, acts[k].p);
  }

  // ----- a lone writer -----

  /** The sources of the writes begun so far, one after the other. */
  ghost function Sources(acts: seq<Action>, k: nat): seq<byte>
    requires k <= |acts|
  {
    if k == 0 then [] else Sources(acts, k - 1) + if acts[k - 1].StartWrite? then acts[k - 1].src else []
  }

  ghost predicate Alone(acts: seq<Action>, p: nat) {
    forall m :: 0 <= m < |acts| && acts[m].StartWrite? ==> acts[m].p == p
  }

  /** What a lone writer p has put in: all its finished sources, then the part of the present one before its place. */
  ghost predicate LoneOk(states: seq<State>, acts: seq<Action>, k: nat, p: nat)
    requires k < |states| == |acts| + 1
  {
    var x := ProcAt(states[k], p);
    if InWrite(states[k], p) then
      x.i <= |x.src| && states[k].hist + x.src[x.i..] == Sources(acts, k)
    else states[k].hist == Sources(acts, k)
  }

  lemma {:induction false} LoneTurn(s: State, t: State, p: nat, killed: bool, all: seq<byte>)
    requires p < |s.procs| == |t.procs| && s.procs[p].Writing? && s.procs[p].i <= |s.procs[p].src|
    requires |s.out| <= |s.hist| <= |s.out| + PIPESIZE && s.readopen && !killed
    requires var src, i := s.procs[p].src, s.procs[p].i; var k := i + Min(|src| - i, Space(s));
             t.hist == s.hist + src[i..k] &&
             t.procs[p] == if k == |src| || !s.readopen || killed then Outside else AsleepWriting(src, k)
    requires s.hist + s.procs[p].src[s.procs[p].i..] == all
    ensures if t.procs[p].Outside? then t.hist == all
            else t.procs[p].i <= |t.procs[p].src| && t.hist + t.procs[p].src[t.procs[p].i..] == all
  {
    var src, i := s.procs[p].src, s.procs[p].i;
    var k := i + Min(|src| - i, Space(s));
    assert src[i..k] + src[k..] == src[i..];
    assert t.hist + src[k..] == s.hist + (src[i..k] + src[k..]);
  }

  lemma {:induction false} LoneStep(states: seq<State>, acts: seq<Action>, k: nat, p: nat)
    requires Run(states, acts) && k < |acts| && Alone(acts, p) && LoneOk(states, acts, k, p)
    requires !Cuts(states, acts, k)
    ensures LoneOk(states, acts, k + 1, p)
  {
    hide Run, Inv, Do, Initial;
    RunLength(states, acts);
    StepAt(states, acts, k);
    ProcsSame(states, acts, k);
    HistStep(states[k], acts[k]);
    var s, a, t := states[k], acts[k], states[k + 1];
    assert Sources(acts, k) + [] == Sources(acts, k);
    if a.StepWrite? {
      WriterHasCall(states, acts, k);
      WriteTurn(s, p, a.killed);
      LoneTurn(s, t, p, a.killed, Sources(acts, k));
    } else if p < |s.procs| {
      WriterStep(s, a, p);
      StartsOutside(s, a);
      assert a.StartWrite? ==> a.src[0..] == a.src;
    }
  }

  /**
   In every run with a single writing process that is never cut short, what goes in is its sources, in order
   and whole.
   */
  lemma {:induction false} LoneWriter(states: seq<State>, acts: seq<Action>, k: nat, p: nat)
    requires Run(states, acts) && k < |states| && Alone(acts, p)
    requires forall m :: 0 <= m < k ==> !Cuts(states, acts, m)
    ensures LoneOk(states, acts, k, p)
  {
    hide Run, Inv, Enabled, Do, Initial, LoneOk, Cuts;
    RunLength(states, acts);
    if k == 0 {
      LoneStart(states, acts, p);
    } else {
      LoneWriter(states, acts, k - 1, p);
      LoneStep(states, acts, k - 1, p);
    }
  }

  lemma LoneStart(states: seq<State>, acts: seq<Action>, p: nat)
    requires Run(states, acts)
    ensures LoneOk(states, acts, 0, p)
  {
  }
}
