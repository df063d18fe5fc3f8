/**
 Sleep locks (sleeplock.c) over sleep and wakeup (proc.c), one step per lock
 operation, for any number of processes and any number of sleep locks.

 A sleep lock has an inner spin lock; sleep() takes ptable.lock before it lets go
 of the inner lock and gives up ptable.lock only once it is SLEEPING.
 */
module SleepLock {

  /** Where a process is; l is the sleep lock it works on. */
  datatype Pc =
    | Outside                 // not in any of the routines
    | Busy                    // holds ptable.lock for some other business
    | WantInner(l: nat)       // acquiresleep, or sleep's last line: acquire(lk)
    | AtTest(l: nat)          // holds inner: while (lk->locked)
    | InSleep(l: nat)         // holds inner: sleep, acquire(&ptable.lock)
    | HandOver(l: nat)        // holds inner and ptable: release(lk)
    | MarkAsleep(l: nat)      // holds ptable: chan = lk, state = SLEEPING
    | Asleep(l: nat)          // SLEEPING on chan lk; ptable.lock given up in sched
    | Runnable(l: nat)        // made RUNNABLE again
    | Resumed(l: nat)         // scheduled, holds ptable: chan = 0, release
    | Got(l: nat)             // holds inner: lock taken, release(&lk->lk)
    | WantRelease(l: nat)     // releasesleep: acquire(&lk->lk)
    | OwnerTest(l: nat)       // holds inner: lk->pid != myproc()->pid ?
    | WantWakeup(l: nat)      // holds inner, lock cleared: wakeup, acquire(&ptable.lock)
    | Scan(l: nat)            // holds inner and ptable: wakeup1(lk)
    | Leaving(l: nat)         // holds inner: release(&lk->lk)

  /** struct sleeplock; inner is the holder of lk->lk, 0 if free. */
  datatype Lock = Lock(inner: int, locked: bool, pid: int)

  /** ptable is the holder of ptable.lock; held are the locks each process has acquired and not released. */
  datatype State = State(ptable: int, locks: seq<Lock>, pcs: map<int, Pc>, held: set<(int, nat)>)

  datatype Action =
    | CallAcquire(p: int, l: nat)
    | CallRelease(p: int, l: nat)
    | Step(p: int)
    | Kill(p: int)
    | TakePtable(p: int)

  ghost predicate HoldsInner(pc: Pc, l: nat) {
    match pc
    case AtTest(m) => m == l
    case InSleep(m) => m == l
    case HandOver(m) => m == l
    case Got(m) => m == l
    case OwnerTest(m) => m == l
    case WantWakeup(m) => m == l
    case Scan(m) => m == l
    case Leaving(m) => m == l
    case _ => false
  }

  ghost predicate HoldsPtable(pc: Pc) {
    pc.Busy? || pc.HandOver? || pc.MarkAsleep? || pc.Resumed? || pc.Scan?
  }

  /** A step can be taken when the spin lock it needs is free. */
  ghost predicate Enabled(s: State, act: Action) {
    match act
    case CallAcquire(p, l) => p in s.pcs && s.pcs[p].Outside? && l < |s.locks|
    case CallRelease(p, l) => p in s.pcs && s.pcs[p].Outside? && l < |s.locks|
    case Kill(p) => p in s.pcs && s.pcs[p].Asleep? && s.ptable == 0
    case TakePtable(p) => p in s.pcs && s.pcs[p].Outside? && s.ptable == 0
    case Step(p) =>
      p in s.pcs &&
      match s.pcs[p]
      case Outside => false
      case Asleep(_) => false
      case WantInner(l) => l < |s.locks| && s.locks[l].inner == 0
      case WantRelease(l) => l < |s.locks| && s.locks[l].inner == 0
      case InSleep(l) => s.ptable == 0
      case WantWakeup(l) => s.ptable == 0
      case Runnable(l) => s.ptable == 0
      case Busy => true
      case _ => s.pcs[p].l < |s.locks|
  }

  ghost function Go(s: State, p: int, pc: Pc): State {
    s.(pcs := s.pcs[p := pc])
  }

  ghost function SetInner(s: State, l: nat, p: int): State
    requires l < |s.locks|
  {
    s.(locks := s.locks[l := s.locks[l].(inner := p)])
  }

  /** wakeup1: every process SLEEPING on l becomes RUNNABLE. */
  ghost function WakeAll(pcs: map<int, Pc>, l: nat): map<int, Pc> {
    map q | q in pcs :: if pcs[q] == Asleep(l) then Runnable(l) else pcs[q]
  }

  ghost function Do(s: State, act: Action): State
    requires Enabled(s, act)
  {
    match act
    case CallAcquire(p, l) => Go(s, p, WantInner(l))
    case CallRelease(p, l) => Go(s, p, WantRelease(l))
    case Kill(p) => Go(s, p, Runnable(s.pcs[p].l))
    case TakePtable(p) => Go(s.(ptable := p), p, Busy)
    case Step(p) =>
      match s.pcs[p]
      case Busy => Go(s.(ptable := 0), p, Outside)
      case WantInner(l) => Go(SetInner(s, l, p), p, AtTest(l))
      case AtTest(l) =>
        if s.locks[l].locked then Go(s, p, InSleep(l))
        else Go(s.(locks := s.locks[l := s.locks[l].(locked := true, pid := p)]), p, Got(l))
      case InSleep(l) => Go(s.(ptable := p), p, HandOver(l))
      case HandOver(l) => Go(SetInner(s, l, 0), p, MarkAsleep(l))
      case MarkAsleep(l) => Go(s.(ptable := 0), p, Asleep(l))
      case Runnable(l) => Go(s.(ptable := p), p, Resumed(l))
      case Resumed(l) => Go(s.(ptable := 0), p, WantInner(l))
      case Got(l) => Go(SetInner(s, l, 0).(held := s.held + {(p, l)}), p, Outside)
      case WantRelease(l) => Go(SetInner(s, l, p), p, OwnerTest(l))
      case OwnerTest(l) =>
        if s.locks[l].pid != p then Go(s, p, Leaving(l))
        else Go(s.(locks := s.locks[l := s.locks[l].(locked := false, pid := 0)], held := s.held - {(p, l)}), p,
                WantWakeup(l))
      case WantWakeup(l) => Go(s.(ptable := p), p, Scan(l))
      case Scan(l) => Go(s.(ptable := 0, pcs := WakeAll(s.pcs, l)), p, Leaving(l))
      case Leaving(l) => Go(SetInner(s, l, 0), p, Outside)
      case _ => s
  }

  // ----- invariant -----

  ghost predicate LockAt(s: State, pc: Pc) {
    pc.Outside? || pc.Busy? || pc.l < |s.locks|
  }

  /** Spin locks name their holders, and a holder is inside its critical section. */
  ghost predicate SpinOk(s: State) {
    && (forall p :: p in s.pcs ==> p > 0 && LockAt(s, s.pcs[p]))
    && (forall p :: p in s.pcs ==> (s.ptable == p <==> HoldsPtable(s.pcs[p])))
    && (forall p, l :: p in s.pcs && 0 <= l < |s.locks| ==> (s.locks[l].inner == p <==> HoldsInner(s.pcs[p], l)))
  }

  /** The pid field names the process that has the lock, and only while it is locked. */
  ghost predicate OwnerOk(s: State) {
    && (forall l :: 0 <= l < |s.locks| ==> (s.locks[l].locked <==> s.locks[l].pid != 0))
    && (forall p: int, l: nat :: (p, l) in s.held ==> p > 0 && l < |s.locks| && s.locks[l].pid == p)
    && (forall p :: p in s.pcs && s.pcs[p].Got? ==> s.pcs[p].l < |s.locks| && s.locks[s.pcs[p].l].pid == p)
    && (forall l :: 0 <= l < |s.locks| && s.locks[l].locked ==> HasOwner(s, l))
  }

  ghost predicate HasOwner(s: State, l: nat)
    requires l < |s.locks|
  {
    var p := s.locks[l].pid;
    (p, l) in s.held || (p in s.pcs && s.pcs[p] == Got(l))
  }

  /** Some releaser has cleared the lock and has not yet scanned for sleepers. */
  ghost predicate WillWake(s: State, l: nat) {
    exists r :: r in s.pcs && Waking(s.pcs[r], l)
  }

  ghost predicate Waking(pc: Pc, l: nat) {
    pc == WantWakeup(l) || pc == Scan(l)
  }

  /** A process asleep on a lock, or about to be, waits for a locked lock or has its wakeup coming. */
  ghost predicate SleeperOk(s: State, pc: Pc) {
    && ((pc.InSleep? || pc.HandOver?) && pc.l < |s.locks| ==> s.locks[pc.l].locked)
    && ((pc.MarkAsleep? || pc.Asleep?) && pc.l < |s.locks| ==> s.locks[pc.l].locked || WillWake(s, pc.l))
  }

  ghost predicate SleepersOk(s: State) {
    forall p :: p in s.pcs ==> SleeperOk(s, s.pcs[p])
  }

  ghost predicate Inv(s: State) {
    SpinOk(s) && OwnerOk(s) && SleepersOk(s)
  }

  ghost predicate Init(s: State) {
    && s.ptable == 0 && s.held == {}
    && (forall l :: 0 <= l < |s.locks| ==> s.locks[l] == Lock(0, false, 0))
    && (forall p :: p in s.pcs ==> p > 0 && s.pcs[p] == Outside)
  }

  /** One process moves, taking or giving up spin locks only in its own name. */
  lemma SpinMove(s: State, s': State, p: int)
    requires SpinOk(s) && p in s.pcs && s'.pcs.Keys == s.pcs.Keys && |s'.locks| == |s.locks|
    requires LockAt(s', s'.pcs[p])
    requires forall q :: q in s.pcs && q != p ==>
               LockAt(s', s'.pcs[q]) && HoldsPtable(s'.pcs[q]) == HoldsPtable(s.pcs[q])
    requires forall q, l: nat :: q in s.pcs && q != p && l < |s.locks| ==>
                                 HoldsInner(s'.pcs[q], l) == HoldsInner(s.pcs[q], l)
    requires s'.ptable == p <==> HoldsPtable(s'.pcs[p])
    requires s'.ptable == s.ptable || (s.ptable in {0, p} && s'.ptable in {0, p})
    requires forall l :: 0 <= l < |s.locks| ==> (s'.locks[l].inner == p <==> HoldsInner(s'.pcs[p], l))
    requires forall l :: 0 <= l < |s.locks| ==>
               s'.locks[l].inner == s.locks[l].inner || (s.locks[l].inner in {0, p} && s'.locks[l].inner in {0, p})
    ensures SpinOk(s')
  {
  }

  lemma KeepSpinInner(s: State, p: int)
    requires SpinOk(s) && Enabled(s, Step(p))
    requires var pc := s.pcs[p]; pc.WantInner? || pc.WantRelease? || pc.HandOver? || pc.Got? || pc.Leaving?
    ensures SpinOk(Do(s, Step(p)))
  {
    assert LockAt(s, s.pcs[p]);
    SpinMove(s, Do(s, Step(p)), p);
  }

  lemma KeepSpinScan(s: State, p: int)
    requires SpinOk(s) && Enabled(s, Step(p)) && s.pcs[p].Scan?
    ensures SpinOk(Do(s, Step(p)))
  {
    SpinMove(s, Do(s, Step(p)), p);
  }

  lemma KeepSpinCall(s: State, act: Action)
    requires SpinOk(s) && Enabled(s, act) && !act.Step?
    ensures SpinOk(Do(s, act))
  {
    assert LockAt(s, s.pcs[act.p]);
    SpinMove(s, Do(s, act), act.p);
  }

  lemma KeepSpinOther(s: State, p: int)
    requires SpinOk(s) && Enabled(s, Step(p))
    requires var pc := s.pcs[p];
             !(pc.WantInner? || pc.WantRelease? || pc.HandOver? || pc.Got? || pc.Leaving? || pc.Scan?)
    ensures SpinOk(Do(s, Step(p)))
  {
    var s' := Do(s, Step(p));
    assert LockAt(s, s.pcs[p]);
    assert forall l :: 0 <= l < |s.locks| ==> s'.locks[l].inner == s.locks[l].inner;
    SpinMove(s, s', p);
  }

  lemma KeepSpin(s: State, act: Action)
    requires SpinOk(s) && Enabled(s, act)
    ensures SpinOk(Do(s, act))
  {
    hide SpinOk, Do;
    if act.Step? && s.pcs[act.p].Scan? {
      KeepSpinScan(s, act.p);
    } else if act.Step? && (var pc := s.pcs[act.p]; pc.WantInner? || pc.WantRelease? || pc.HandOver? || pc.Got? ||
                                                    pc.Leaving?) {
      KeepSpinInner(s, act.p);
    } else if act.Step? {
      KeepSpinOther(s, act.p);
    } else {
      KeepSpinCall(s, act);
    }
  }

  // ----- ownership -----

  /** Steps that touch neither the lock's state nor who has it. */
  lemma OwnerPlain(s: State, s': State, p: int)
    requires OwnerOk(s) && p in s.pcs && s'.pcs.Keys == s.pcs.Keys && s'.held == s.held && |s'.locks| == |s.locks|
    requires forall l :: 0 <= l < |s.locks| ==> s'.locks[l].locked == s.locks[l].locked &&
                                                s'.locks[l].pid == s.locks[l].pid
    requires !s.pcs[p].Got? && !s'.pcs[p].Got?
    requires forall q :: q in s.pcs && q != p ==> s'.pcs[q] == s.pcs[q] || (!s.pcs[q].Got? && !s'.pcs[q].Got?)
    ensures OwnerOk(s')
  {
    forall l | 0 <= l < |s'.locks| && s'.locks[l].locked ensures HasOwner(s', l) {
      assert HasOwner(s, l);
    }
  }

  lemma KeepOwnerAcquire(s: State, p: int)
    requires SpinOk(s) && OwnerOk(s) && Enabled(s, Step(p)) && (s.pcs[p].AtTest? || s.pcs[p].Got?)
    ensures OwnerOk(Do(s, Step(p)))
  {
    PidPositive(s, p);
    hide SpinOk;
    var s' := Do(s, Step(p));
    forall l | 0 <= l < |s'.locks| && s'.locks[l].locked ensures HasOwner(s', l) {
      assert s.locks[l].locked ==> HasOwner(s, l);
    }
  }

  lemma KeepOwnerRelease(s: State, p: int)
    requires SpinOk(s) && OwnerOk(s) && Enabled(s, Step(p)) && s.pcs[p].OwnerTest?
    ensures OwnerOk(Do(s, Step(p)))
  {
    PidPositive(s, p);
    hide SpinOk;
    var s' := Do(s, Step(p));
    forall l | 0 <= l < |s'.locks| && s'.locks[l].locked ensures HasOwner(s', l) {
      assert HasOwner(s, l);
    }
  }

  lemma PidPositive(s: State, p: int)
    requires SpinOk(s) && p in s.pcs
    ensures p > 0
  {
  }

  lemma KeepOwner(s: State, act: Action)
    requires SpinOk(s) && OwnerOk(s) && Enabled(s, act)
    ensures OwnerOk(Do(s, act))
  {
    hide SpinOk, OwnerOk;
    if act.Step? && (s.pcs[act.p].AtTest? || s.pcs[act.p].Got?) {
      KeepOwnerAcquire(s, act.p);
    } else if act.Step? && s.pcs[act.p].OwnerTest? {
      KeepOwnerRelease(s, act.p);
    } else {
      OwnerPlain(s, Do(s, act), act.p);
    }
  }

  // ----- sleepers -----

  /** Steps that leave lock states alone and do not drop a pending wakeup. */
  lemma SleepersPlain(s: State, s': State, p: int)
    requires SleepersOk(s) && p in s.pcs && s'.pcs.Keys == s.pcs.Keys && |s'.locks| == |s.locks|
    requires forall l :: 0 <= l < |s.locks| ==> s'.locks[l].locked == s.locks[l].locked
    requires forall q :: q in s.pcs && q != p ==> s'.pcs[q] == s.pcs[q]
    requires forall l: nat :: Waking(s.pcs[p], l) ==> Waking(s'.pcs[p], l)
    requires SleeperOk(s', s'.pcs[p])
    ensures SleepersOk(s')
  {
    forall q | q in s'.pcs && q != p ensures SleeperOk(s', s'.pcs[q]) {
      assert SleeperOk(s, s.pcs[q]);
      if (s.pcs[q].MarkAsleep? || s.pcs[q].Asleep?) && WillWake(s, s.pcs[q].l) {
        var r :| r in s.pcs && Waking(s.pcs[r], s.pcs[q].l);
        assert Waking(s'.pcs[r], s.pcs[q].l);
      }
    }
  }

  /** The owner's release: every sleeper of this lock now has its wakeup coming. */
  lemma KeepSleepersRelease(s: State, p: int)
    requires Inv(s) && Enabled(s, Step(p)) && s.pcs[p].OwnerTest?
    ensures SleepersOk(Do(s, Step(p)))
  {
    var s', l := Do(s, Step(p)), s.pcs[p].l;
    if s.locks[l].pid != p {
      SleepersPlain(s, s', p);
    } else {
      assert Waking(s'.pcs[p], l);
      forall q | q in s'.pcs ensures SleeperOk(s', s'.pcs[q]) {
        assert SleeperOk(s, s.pcs[q]);
        assert HoldsInner(s.pcs[p], l);
        if (s.pcs[q].MarkAsleep? || s.pcs[q].Asleep?) && WillWake(s, s.pcs[q].l) {
          var r :| r in s.pcs && Waking(s.pcs[r], s.pcs[q].l);
          assert Waking(s'.pcs[r], s.pcs[q].l);
        }
      }
    }
  }

  /** The scan: it holds ptable.lock, so nobody is between the two locks, and it wakes all who sleep. */
  lemma KeepSleepersScan(s: State, p: int)
    requires Inv(s) && Enabled(s, Step(p)) && s.pcs[p].Scan?
    ensures SleepersOk(Do(s, Step(p)))
  {
    var s', l := Do(s, Step(p)), s.pcs[p].l;
    assert HoldsPtable(s.pcs[p]);
    forall q | q in s'.pcs ensures SleeperOk(s', s'.pcs[q]) {
      assert SleeperOk(s, s.pcs[q]);
      assert HoldsPtable(s.pcs[q]) ==> q == p;
      if s'.pcs[q].Asleep? && WillWake(s, s.pcs[q].l) {
        var r :| r in s.pcs && Waking(s.pcs[r], s.pcs[q].l);
        assert r != p ==> Waking(s'.pcs[r], s.pcs[q].l);
      }
    }
  }

  lemma KeepSleepers(s: State, act: Action)
    requires Inv(s) && Enabled(s, act)
    ensures SleepersOk(Do(s, act))
  {
    if act.Step? && s.pcs[act.p].OwnerTest? {
      KeepSleepersRelease(s, act.p);
    } else if act.Step? && s.pcs[act.p].Scan? {
      KeepSleepersScan(s, act.p);
    } else if act.Step? && s.pcs[act.p].AtTest? && !s.locks[s.pcs[act.p].l].locked {
      KeepSleepersTake(s, act.p);
    } else {
      KeepSleepersOther(s, act);
    }
  }

  lemma KeepSleepersTake(s: State, p: int)
    requires Inv(s) && Enabled(s, Step(p)) && s.pcs[p].AtTest? && !s.locks[s.pcs[p].l].locked
    ensures SleepersOk(Do(s, Step(p)))
  {
    hide SpinOk, OwnerOk;
    var s' := Do(s, Step(p));
    forall q | q in s'.pcs ensures SleeperOk(s', s'.pcs[q]) {
      assert SleeperOk(s, s.pcs[q]);
      if (s.pcs[q].MarkAsleep? || s.pcs[q].Asleep?) && WillWake(s, s.pcs[q].l) {
        var r :| r in s.pcs && Waking(s.pcs[r], s.pcs[q].l);
        assert Waking(s'.pcs[r], s.pcs[q].l);
      }
    }
  }

  lemma KeepSleepersOther(s: State, act: Action)
    requires Inv(s) && Enabled(s, act)
    requires act.Step? ==>
               var pc := s.pcs[act.p];
               !pc.OwnerTest? && !pc.Scan? && (pc.AtTest? ==> s.locks[pc.l].locked)
    ensures SleepersOk(Do(s, act))
  {
    hide SpinOk, OwnerOk;
    var s' := Do(s, act);
    var pc := s.pcs[act.p];
    assert SleeperOk(s, pc);
    if (pc.HandOver? || pc.MarkAsleep?) && WillWake(s, pc.l) {
      var r :| r in s.pcs && Waking(s.pcs[r], pc.l);
      assert Waking(s'.pcs[r], pc.l);
    }
    SleepersPlain(s, s', act.p);
  }

  // ----- every run -----

  ghost predicate Run(states: seq<State>, acts: seq<Action>) {
    && |states| == |acts| + 1 && Init(states[0])
    && forall k :: 0 <= k < |acts| ==> Enabled(states[k], acts[k]) && states[k + 1] == Do(states[k], acts[k])
  }

  lemma {:induction false} RunInv(states: seq<State>, acts: seq<Action>, k: nat)
    requires Run(states, acts) && k < |states|
    ensures Inv(states[k])
  {
    if k > 0 {
      hide Do, Enabled, Init, SpinOk, OwnerOk, SleepersOk;
      RunInv(states, acts, k - 1);
      KeepSpin(states[k - 1], acts[k - 1]);
      KeepOwner(states[k - 1], acts[k - 1]);
      KeepSleepers(states[k - 1], acts[k - 1]);
    }
  }

  /**
   No lost wakeup.  At every moment of every run, a process SLEEPING on a sleep
   lock whose inner spin lock is free waits for a lock that is really locked.
   */
  lemma NoLostWakeup(states: seq<State>, acts: seq<Action>, k: nat, p: int)
    requires Run(states, acts) && k < |states| && p in states[k].pcs && states[k].pcs[p].Asleep?
    ensures states[k].pcs[p].l < |states[k].locks|
    ensures var lk := states[k].locks[states[k].pcs[p].l]; lk.inner == 0 ==> lk.locked
  {
    RunInv(states, acts, k);
    var s := states[k];
    var l := s.pcs[p].l;
    assert LockAt(s, s.pcs[p]) && SleeperOk(s, s.pcs[p]);
    if WillWake(s, l) {
      var r :| r in s.pcs && Waking(s.pcs[r], l);
      assert HoldsInner(s.pcs[r], l);
    }
  }

  /** At most one process has acquired a sleep lock, and the lock's fields name it. */
  lemma MutualExclusion(states: seq<State>, acts: seq<Action>, k: nat, p: int, q: int, l: nat)
    requires Run(states, acts) && k < |states| && (p, l) in states[k].held && (q, l) in states[k].held
    ensures p == q && l < |states[k].locks| && states[k].locks[l].locked && states[k].locks[l].pid == p
  {
    RunInv(states, acts, k);
  }

  /** The lock's locked and pid fields change only by an acquisition of a free lock or its owner's release. */
  lemma OnlyOwnerReleases(states: seq<State>, acts: seq<Action>, k: nat, l: nat)
    requires Run(states, acts) && k < |acts| && l < |states[k].locks|
    ensures l < |states[k + 1].locks|
    ensures var a, b := states[k].locks[l], states[k + 1].locks[l];
            (a.locked, a.pid) != (b.locked, b.pid) ==>
              acts[k].Step? &&
              ((!a.locked && b.locked && b.pid == acts[k].p) ||
               (a.locked && !b.locked && (acts[k].p, l) in states[k].held))
  {
    RunInv(states, acts, k);
    assert states[k].locks[l].locked ==> HasOwner(states[k], l);
    hide SpinOk, SleepersOk;
  }

  // ----- what the calls return with -----

  ghost predicate Acquiring(pc: Pc, l: nat) {
    match pc
    case WantInner(m) => m == l
    case AtTest(m) => m == l
    case InSleep(m) => m == l
    case HandOver(m) => m == l
    case MarkAsleep(m) => m == l
    case Asleep(m) => m == l
    case Runnable(m) => m == l
    case Resumed(m) => m == l
    case Got(m) => m == l
    case _ => false
  }

  /** Inside releasesleep; past the owner test the lock is not the caller's any more. */
  ghost predicate Releasing(s: State, p: int, l: nat) {
    p in s.pcs &&
    match s.pcs[p]
    case WantRelease(m) => m == l
    case OwnerTest(m) => m == l
    case WantWakeup(m) => m == l && (p, l) !in s.held
    case Scan(m) => m == l && (p, l) !in s.held
    case Leaving(m) => m == l && (p, l) !in s.held
    case _ => false
  }

  lemma {:induction false} AcquireStep(s: State, act: Action, p: int, l: nat)
    requires Inv(s) && Enabled(s, act) && p in s.pcs && Acquiring(s.pcs[p], l)
    ensures var s' := Do(s, act);
            p in s'.pcs && (Acquiring(s'.pcs[p], l) || (s'.pcs[p].Outside? && (p, l) in s'.held))
  {
    hide Inv;
  }

  lemma {:induction false} ReleaseStep(s: State, act: Action, p: int, l: nat)
    requires Inv(s) && Enabled(s, act) && Releasing(s, p, l)
    ensures var s' := Do(s, act);
            Releasing(s', p, l) || (p in s'.pcs && s'.pcs[p].Outside? && (p, l) !in s'.held)
  {
    hide SpinOk, SleepersOk;
  }

  /** Process p is in the midst of a call from just after step j up to moment k. */
  ghost predicate During(states: seq<State>, p: int, j: nat, k: nat) {
    j < k < |states| && forall m :: j < m < k ==> p in states[m].pcs && !states[m].pcs[p].Outside?
  }

  lemma {:induction false} StepAt(states: seq<State>, acts: seq<Action>, k: nat)
    requires Run(states, acts) && k + 1 < |states|
    ensures |states| == |acts| + 1 && Inv(states[k]) && Enabled(states[k], acts[k]) &&
            states[k + 1] == Do(states[k], acts[k])
  {
    hide Inv, Enabled, Do, Init;
    RunInv(states, acts, k);
  }

  /** In every run acquiresleep returns with the lock held. */
  lemma {:induction false} AcquireReturns(states: seq<State>, acts: seq<Action>, j: nat, k: nat, p: int, l: nat)
    requires Run(states, acts) && j < |acts| && acts[j] == CallAcquire(p, l) && During(states, p, j, k)
    ensures p in states[k].pcs &&
            (Acquiring(states[k].pcs[p], l) || (states[k].pcs[p].Outside? && (p, l) in states[k].held))
    decreases k
  {
    hide Run, Inv, Init;
    StepAt(states, acts, k - 1);
    if k > j + 1 {
      hide Do, Enabled;
      AcquireReturns(states, acts, j, k - 1, p, l);
      AcquireStep(states[k - 1], acts[k - 1], p, l);
    }
  }

  /** In every run releasesleep returns without it: the caller no longer holds the lock, whether or not it did. */
  lemma {:induction false} ReleaseReturns(states: seq<State>, acts: seq<Action>, j: nat, k: nat, p: int, l: nat)
    requires Run(states, acts) && j < |acts| && acts[j] == CallRelease(p, l) && During(states, p, j, k)
    ensures Releasing(states[k], p, l) ||
            (p in states[k].pcs && states[k].pcs[p].Outside? && (p, l) !in states[k].held)
    decreases k
  {
    hide Run, Inv, Init;
    StepAt(states, acts, k - 1);
    if k > j + 1 {
      hide Do, Enabled;
      ReleaseReturns(states, acts, j, k - 1, p, l);
      ReleaseStep(states[k - 1], acts[k - 1], p, l);
    }
  }
}
