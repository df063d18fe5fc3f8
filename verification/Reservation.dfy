/**
 Log space.  begin_op reserves MAXOPBLOCKS blocks per operation against LOGSIZE;
 log_write tests the fill level before it takes log.lock.  Any number of process
 slots interleave; the test and the append are separate steps.
 */
module Reservation {
  import opened Basics
  import opened Blocks
  import Log

  /** A process slot: outside any operation, inside one, or inside log_write past its tests. */
  datatype Slot = Outside | Inside(written: set<nat>, added: nat) | Tested(written: set<nat>, added: nat, a: nat)

  datatype State = State(lh: seq<nat>, outstanding: nat, committing: bool, slots: seq<Slot>, panicked: bool)

  datatype Action =
    | Begin(p: nat)
    | Test(p: nat, a: nat)
    | Append(p: nat)
    | End(p: nat)
    | CommitDone

  /** The tests at the top of log_write. */
  predicate Panics(s: State, size: nat) {
    |s.lh| >= LOGSIZE || |s.lh| >= size - 1 || s.outstanding < 1
  }

  /** Steps of operations that each write at most budget distinct blocks. */
  ghost predicate Enabled(budget: nat, s: State, act: Action) {
    !s.panicked &&
    match act
    case Begin(p) =>
      p < |s.slots| && s.slots[p].Outside? && !s.committing &&
      |s.lh| + (s.outstanding + 1) * MAXOPBLOCKS <= LOGSIZE
    case Test(p, a) => p < |s.slots| && s.slots[p].Inside? && |s.slots[p].written + {a}| <= budget
    case Append(p) => p < |s.slots| && s.slots[p].Tested?
    case End(p) => p < |s.slots| && s.slots[p].Inside? && s.outstanding > 0
    case CommitDone => s.committing
  }

  ghost function Do(size: nat, budget: nat, s: State, act: Action): State
    requires Enabled(budget, s, act)
  {
    match act
    case Begin(p) => s.(outstanding := s.outstanding + 1, slots := s.slots[p := Inside({}, 0)])
    case Test(p, a) =>
      if Panics(s, size) then s.(panicked := true)
      else s.(slots := s.slots[p := Tested(s.slots[p].written, s.slots[p].added, a)])
    case Append(p) =>
      var lh := Log.Absorb(s.lh, s.slots[p].a);
      s.(lh := lh, slots := s.slots[p := Inside(s.slots[p].written + {s.slots[p].a}, s.slots[p].added + |lh| - |s.lh|)])
    case End(p) =>
      s.(outstanding := s.outstanding - 1, committing := s.outstanding == 1, slots := s.slots[p := Outside])
    case CommitDone => s.(committing := false, lh := [])
  }

  ghost function Start(n: nat): State {
    State([], 0, false, seq(n, _ => Outside), false)
  }

  ghost predicate Run(size: nat, budget: nat, states: seq<State>, acts: seq<Action>) {
    && |states| == |acts| + 1 && states[0] == Start(|states[0].slots|)
    && forall k :: 0 <= k < |acts| ==>
         Enabled(budget, states[k], acts[k]) && states[k + 1] == Do(size, budget, states[k], acts[k])
  }

  /** No interleaving of any number of slots reaches a panic. */
  ghost predicate NeverPanics(size: nat, budget: nat) {
    forall states: seq<State>, acts: seq<Action> :: Run(size, budget, states, acts) ==> !states[|acts|].panicked
  }

  // ----- space accounts -----

  /** What the open operations may still add when each has the given share. */
  ghost function Unused(slots: seq<Slot>, share: int): int {
    if slots == [] then 0
    else (if slots[0].Outside? then 0 else share - slots[0].added) + Unused(slots[1..], share)
  }

  ghost function Open(slots: seq<Slot>): nat {
    if slots == [] then 0 else (if slots[0].Outside? then 0 else 1) + Open(slots[1..])
  }

  ghost function Own(s: Slot, share: int): int {
    if s.Outside? then 0 else share - s.added
  }

  lemma {:induction false} UnusedUpdate(slots: seq<Slot>, p: nat, x: Slot, share: int)
    requires p < |slots|
    ensures Unused(slots[p := x], share) == Unused(slots, share) - Own(slots[p], share) + Own(x, share)
    ensures Open(slots[p := x]) == Open(slots) - (if slots[p].Outside? then 0 else 1) + (if x.Outside? then 0 else 1)
  {
    if p == 0 {
      assert slots[p := x][1..] == slots[1..];
    } else {
      assert slots[p := x][1..] == slots[1..][p - 1 := x];
      UnusedUpdate(slots[1..], p - 1, x, share);
    }
  }

  ghost predicate SlotOk(s: Slot, budget: nat) {
    s.Outside? ||
    (s.added <= |s.written| <= budget && (s.Tested? ==> |s.written + {s.a}| <= budget))
  }

  /** What an open operation wrote is in the log. */
  ghost predicate Logged(s: Slot, lh: seq<nat>) {
    s.Outside? || forall c :: c in s.written ==> c in lh
  }

  /** A member of a nonnegative sum is at most the sum. */
  lemma {:induction false} OwnAtMost(slots: seq<Slot>, p: nat, budget: nat, share: int)
    requires p < |slots| && budget <= share && forall i :: 0 <= i < |slots| ==> SlotOk(slots[i], budget)
    ensures 0 <= Own(slots[p], share) <= Unused(slots, share)
    ensures !slots[p].Outside? ==> Open(slots) >= 1
  {
    assert SlotOk(slots[0], budget);
    if p > 0 {
      OwnAtMost(slots[1..], p - 1, budget, share);
    } else {
      UnusedNonneg(slots[1..], budget, share);
    }
  }

  lemma {:induction false} UnusedNonneg(slots: seq<Slot>, budget: nat, share: int)
    requires budget <= share && forall i :: 0 <= i < |slots| ==> SlotOk(slots[i], budget)
    ensures 0 <= Unused(slots, share)
  {
    if slots != [] {
      assert SlotOk(slots[0], budget);
      UnusedNonneg(slots[1..], budget, share);
    }
  }

  lemma {:induction false} UnusedAtMost(slots: seq<Slot>, share: nat)
    ensures Unused(slots, share) <= share * Open(slots)
  {
    if slots != [] {
      UnusedAtMost(slots[1..], share);
      assert share * (1 + Open(slots[1..])) == share + share * Open(slots[1..]);
    }
  }

  /** Books that balance for operations of at most budget blocks with reserved share and ceiling top. */
  ghost predicate Balanced(budget: nat, share: nat, top: nat, s: State) {
    && s.outstanding == Open(s.slots)
    && (s.committing ==> s.outstanding == 0)
    && (!s.committing && s.outstanding == 0 ==> s.lh == [])
    && (forall i :: 0 <= i < |s.slots| ==> SlotOk(s.slots[i], budget) && Logged(s.slots[i], s.lh))
    && |s.lh| + Unused(s.slots, share) <= top
  }

  lemma {:induction false} NoneOpen(slots: seq<Slot>, share: int)
    ensures Open(slots) == 0 <==> forall i :: 0 <= i < |slots| ==> slots[i].Outside?
    ensures Open(slots) == 0 ==> Unused(slots, share) == 0
  {
    if slots != [] {
      NoneOpen(slots[1..], share);
      assert Open(slots) == 0 ==> forall i :: 0 < i < |slots| ==> slots[i] == slots[1..][i - 1];
    }
  }

  /** The admission test leaves the share of the open operations and of one more below the ceiling. */
  ghost predicate AdmitsAt(share: nat, top: nat, n: nat, open: nat) {
    n + (open + 1) * MAXOPBLOCKS <= LOGSIZE && (open > 0 || n == 0) ==> n + share * open + share <= top
  }

  ghost predicate Admits(share: nat, top: nat) {
    forall n: nat, open: nat :: AdmitsAt(share, top, n, open)
  }

  lemma AdmitsHere(share: nat, top: nat, n: nat, open: nat)
    requires Admits(share, top)
    ensures AdmitsAt(share, top, n, open)
  {
  }

  lemma AppendOk(lh: seq<nat>, w: set<nat>, added: nat, a: nat, budget: nat)
    requires added <= |w| && |w + {a}| <= budget && forall c :: c in w ==> c in lh
    ensures added + |Log.Absorb(lh, a)| - |lh| <= |w + {a}|
  {
    if a in w {
      assert w + {a} == w;
    }
  }

  /** One slot changes: the books need only be checked there. */
  lemma SlotChange(budget: nat, share: nat, top: nat, s: State, s': State, p: nat)
    requires Balanced(budget, share, top, s) && p < |s.slots| == |s'.slots| && s'.slots == s.slots[p := s'.slots[p]]
    requires forall c :: c in s.lh ==> c in s'.lh
    requires SlotOk(s'.slots[p], budget) && Logged(s'.slots[p], s'.lh)
    requires s'.outstanding == s.outstanding - (if s.slots[p].Outside? then 0 else 1) +
             (if s'.slots[p].Outside? then 0 else 1)
    requires s'.committing ==> s'.outstanding == 0
    requires !s'.committing && s'.outstanding == 0 ==> s'.lh == []
    requires |s'.lh| + Unused(s.slots, share) - Own(s.slots[p], share) + Own(s'.slots[p], share) <= top
    ensures Balanced(budget, share, top, s')
  {
    hide Unused, Open;
    UnusedUpdate(s.slots, p, s'.slots[p], share);
    forall i | 0 <= i < |s'.slots| ensures SlotOk(s'.slots[i], budget) && Logged(s'.slots[i], s'.lh) {
      assert SlotOk(s.slots[i], budget) && Logged(s.slots[i], s.lh);
    }
  }

  lemma KeepBegin(size: nat, budget: nat, share: nat, top: nat, s: State, p: nat)
    requires Balanced(budget, share, top, s) && Enabled(budget, s, Begin(p))
    requires budget <= share && Admits(share, top)
    ensures Balanced(budget, share, top, Do(size, budget, s, Begin(p)))
  {
    hide Unused, Open, Admits;
    UnusedAtMost(s.slots, share);
    AdmitsHere(share, top, |s.lh|, s.outstanding);
    SlotChange(budget, share, top, s, Do(size, budget, s, Begin(p)), p);
  }

  lemma KeepInside(size: nat, budget: nat, share: nat, top: nat, s: State, act: Action)
    requires Balanced(budget, share, top, s) && Enabled(budget, s, act) && (act.Test? || act.Append? || act.End?)
    requires budget <= share
    ensures Balanced(budget, share, top, Do(size, budget, s, act))
  {
    hide Unused, Open;
    var p := act.p;
    var s' := Do(size, budget, s, act);
    assert SlotOk(s.slots[p], budget) && Logged(s.slots[p], s.lh);
    OwnAtMost(s.slots, p, budget, share);
    if act.Append? {
      AppendOk(s.lh, s.slots[p].written, s.slots[p].added, s.slots[p].a, budget);
    }
    if !s'.panicked {
      SlotChange(budget, share, top, s, s', p);
    }
  }

  lemma KeepBalanced(size: nat, budget: nat, share: nat, top: nat, s: State, act: Action)
    requires Balanced(budget, share, top, s) && Enabled(budget, s, act)
    requires budget <= share && Admits(share, top)
    ensures Balanced(budget, share, top, Do(size, budget, s, act))
  {
    hide Admits;
    match act
    case Begin(p) => KeepBegin(size, budget, share, top, s, p);
    case CommitDone => NoneOpen(s.slots, share);
    case _ => KeepInside(size, budget, share, top, s, act);
  }

  lemma {:induction false} RunBalanced(size: nat, budget: nat, share: nat, top: nat, states: seq<State>,
                                       acts: seq<Action>, k: nat)
    requires Run(size, budget, states, acts) && k < |states| && budget <= share && Admits(share, top)
    ensures Balanced(budget, share, top, states[k])
  {
    hide Balanced;
    if k == 0 {
      StartBalanced(budget, share, top, |states[0].slots|);
    } else {
      RunBalanced(size, budget, share, top, states, acts, k - 1);
      KeepBalanced(size, budget, share, top, states[k - 1], acts[k - 1]);
    }
  }

  lemma StartBalanced(budget: nat, share: nat, top: nat, n: nat)
    ensures Balanced(budget, share, top, Start(n))
  {
    NoneOpen(Start(n).slots, share);
  }

  /**
   Reservation.  With operations that keep to MAXOPBLOCKS blocks, at every moment
   of every interleaving the logged blocks and the unused reservations together
   fit LOGSIZE, and no operation is open during a commit.
   */
  lemma ReservationHolds(size: nat, states: seq<State>, acts: seq<Action>, k: nat)
    requires Run(size, MAXOPBLOCKS, states, acts) && k < |states|
    ensures |states[k].lh| + Unused(states[k].slots, MAXOPBLOCKS) <= LOGSIZE
    ensures states[k].committing ==> forall p :: 0 <= p < |states[k].slots| ==> states[k].slots[p].Outside?
  {
    RunBalanced(size, MAXOPBLOCKS, MAXOPBLOCKS, LOGSIZE, states, acts, k);
    NoneOpen(states[k].slots, MAXOPBLOCKS);
  }

  /** One block below the advertised limit is always enough. */
  lemma NineIsSafe(size: nat, budget: nat, states: seq<State>, acts: seq<Action>)
    requires size >= LOGSIZE && budget <= MAXOPBLOCKS - 1 && Run(size, budget, states, acts)
    ensures !states[|acts|].panicked && |states[|acts|].lh| <= LOGSIZE - 2
  {
    assert Admits(9, 28);
    RunBalanced(size, budget, 9, 28, states, acts, |acts|);
    UnusedNonneg(states[|acts|].slots, budget, 9);
    if |acts| > 0 {
      var s, act := states[|acts| - 1], acts[|acts| - 1];
      RunBalanced(size, budget, 9, 28, states, acts, |acts| - 1);
      UnusedNonneg(s.slots, budget, 9);
      if act.Test? {
        OwnAtMost(s.slots, act.p, budget, 9);
      }
    }
  }

  // ----- the full advertised limit is not safe -----

  /** Slot p of three after blocks 0..k-1 have been logged, ten by each slot in turn. */
  ghost function FillSlot(k: nat, p: nat): Slot {
    var mine := if k <= 10 * p then 0 else if k >= 10 * p + 10 then 10 else k - 10 * p;
    Inside(Range(10 * p, mine), mine)
  }

  ghost function Filled(k: nat): State {
    State(seq(k, i => i), 3, false, [FillSlot(k, 0), FillSlot(k, 1), FillSlot(k, 2)], false)
  }

  lemma Extend(size: nat, budget: nat, states: seq<State>, acts: seq<Action>, act: Action)
    requires Run(size, budget, states, acts) && Enabled(budget, states[|acts|], act)
    ensures Run(size, budget, states + [Do(size, budget, states[|acts|], act)], acts + [act])
  {
    hide Enabled, Do, Start;
    var states', acts' := states + [Do(size, budget, states[|acts|], act)], acts + [act];
    forall k | 0 <= k < |acts'|
      ensures Enabled(budget, states'[k], acts'[k]) && states'[k + 1] == Do(size, budget, states'[k], acts'[k])
    {
      assert k < |acts| ==> acts'[k] == acts[k];
    }
  }

  lemma OpenThree(size: nat, budget: nat) returns (states: seq<State>, acts: seq<Action>)
    ensures Run(size, budget, states, acts) && states[|acts|] == Filled(0)
  {
    states, acts := [Start(3)], [];
    for p := 0 to 3
      invariant Run(size, budget, states, acts)
      invariant states[|acts|] ==
                State([], p, false, seq(3, i => if i < p then Inside({}, 0) else Outside), false)
    {
      Extend(size, budget, states, acts, Begin(p));
      states, acts := states + [Do(size, budget, states[|acts|], Begin(p))], acts + [Begin(p)];
    }
    assert forall p :: 0 <= p < 3 ==> FillSlot(0, p) == Inside({}, 0);
  }

  lemma FillTest(size: nat, budget: nat, k: nat, p: nat)
    requires budget >= 10 && 10 * p <= k < 10 * p + 10 && p < 3 && k < size - 1
    ensures Enabled(budget, Filled(k), Test(p, k))
    ensures var t := Do(size, budget, Filled(k), Test(p, k));
            t == Filled(k).(slots := Filled(k).slots[p := Tested(Range(10 * p, k - 10 * p), k - 10 * p, k)])
  {
    hide Range;
    assert Filled(k).slots[p] == FillSlot(k, p);
    assert Range(10 * p, k - 10 * p) + {k} == Range(10 * p, k - 10 * p + 1);
  }

  lemma FillAppend(size: nat, budget: nat, k: nat, p: nat)
    requires 10 * p <= k < 10 * p + 10 && p < 3
    ensures var t := Filled(k).(slots := Filled(k).slots[p := Tested(Range(10 * p, k - 10 * p), k - 10 * p, k)]);
            Enabled(budget, t, Append(p)) && Do(size, budget, t, Append(p)) == Filled(k + 1)
  {
    hide Range;
    var t := Filled(k).(slots := Filled(k).slots[p := Tested(Range(10 * p, k - 10 * p), k - 10 * p, k)]);
    var u := Do(size, budget, t, Append(p));
    assert Range(10 * p, k - 10 * p) + {k} == Range(10 * p, k - 10 * p + 1);
    assert u.slots[p] == FillSlot(k + 1, p);
    assert Log.Absorb(t.lh, k) == Filled(k + 1).lh;
    assert u.slots == Filled(k + 1).slots by {
      assert forall q :: 0 <= q < 3 && q != p ==> FillSlot(k + 1, q) == FillSlot(k, q);
    }
  }

  lemma {:induction false} FillRun(size: nat, budget: nat, k: nat) returns (states: seq<State>, acts: seq<Action>)
    requires budget >= 10 && k <= 30 && k <= size - 1
    ensures Run(size, budget, states, acts) && states[|acts|] == Filled(k)
  {
    hide Enabled, Do, Filled, Range, Start;
    if k == 0 {
      states, acts := OpenThree(size, budget);
    } else {
      states, acts := FillRun(size, budget, k - 1);
      var p := (k - 1) / 10;
      FillTest(size, budget, k - 1, p);
      FillAppend(size, budget, k - 1, p);
      var t := Do(size, budget, states[|acts|], Test(p, k - 1));
      Extend(size, budget, states, acts, Test(p, k - 1));
      Extend(size, budget, states + [t], acts + [Test(p, k - 1)], Append(p));
      states := states + [t] + [Do(size, budget, t, Append(p))];
      acts := acts + [Test(p, k - 1)] + [Append(p)];
    }
  }

  /** Operations that use all of MAXOPBLOCKS can drive log_write into its panic, whatever the log's size. */
  lemma TenIsNotSafe(size: nat, budget: nat) returns (states: seq<State>, acts: seq<Action>)
    requires size >= LOGSIZE && budget >= MAXOPBLOCKS
    ensures Run(size, budget, states, acts) && states[|acts|].panicked
  {
    hide Range;
    var k := if size == LOGSIZE then 29 else 30;
    states, acts := FillRun(size, budget, k);
    var act := if k == 29 then Test(2, 29) else Test(0, 0);
    assert FillSlot(29, 2) == Inside(Range(20, 9), 9) && FillSlot(30, 0) == Inside(Range(0, 10), 10);
    assert Range(20, 9) + {29} == Range(20, 10) && Range(0, 10) + {0} == Range(0, 10);
    Extend(size, budget, states, acts, act);
    states, acts := states + [Do(size, budget, states[|acts|], act)], acts + [act];
  }

  /**
   log_write never panics, in any interleaving and with its test outside the
   lock, exactly when every operation writes at most MAXOPBLOCKS - 1 blocks.
   */
  lemma NeverPanicsIff(size: nat, budget: nat)
    requires size >= LOGSIZE
    ensures NeverPanics(size, budget) <==> budget <= MAXOPBLOCKS - 1
  {
    if budget <= MAXOPBLOCKS - 1 {
      forall states: seq<State>, acts: seq<Action> | Run(size, budget, states, acts)
        ensures !states[|acts|].panicked
      {
        NineIsSafe(size, budget, states, acts);
      }
    } else {
      var states, acts := TenIsNotSafe(size, budget);
    }
  }
}
