/**
 Every interleaving of fork, exit, wait, kill, sleep and wakeup over the process
 table of module Proc.  fork's unlocked middle part is split from its two locked
 ends, and either may be followed by a failed fork.
 */
module ProcRun {
  import opened Basics
  import opened Proc

  const INIT: nat := 0   // the slot of initproc

  /** forking maps a process inside fork() to its embryo; exited and reaped record pids. */
  datatype State = State(t: Table, nextpid: nat, forking: map<nat, nat>, exited: set<nat>, reaped: set<nat>)

  datatype Action =
    | Alloc(cur: nat)               // fork: allocproc under the lock
    | ForkFails(cur: nat)           // kalloc or copyuvm returned 0: np->state = UNUSED
    | SetParent(cur: nat)           // np->parent = curproc, without the lock
    | Publish(cur: nat)             // np->state = RUNNABLE under the lock
    | Exit(cur: nat)
    | Wait(cur: nat)                // one pass of wait's outer loop
    | SleepOn(cur: nat, chan: int)  // sleep on something other than a process
    | Wakeup(chan: int)
    | Kill(pid: nat)
    | Schedule(cur: nat)
    | Yield(cur: nat)

  predicate Live(x: Proc) {
    x.state.SLEEPING? || x.state.RUNNABLE? || x.state.RUNNING?
  }

  predicate SlotAddress(t: Table, chan: int) {
    0 <= chan < |t|
  }

  ghost predicate Running(s: State, cur: nat) {
    cur < |s.t| && s.t[cur].state.RUNNING?
  }

  ghost predicate Enabled(s: State, act: Action) {
    match act
    case Alloc(cur) => Running(s, cur) && cur !in s.forking && FirstUnused(s.t, 0) < |s.t|
    case ForkFails(cur) => cur in s.forking && s.forking[cur] < |s.t| && s.t[s.forking[cur]].parent == NULL
    case SetParent(cur) => cur in s.forking && s.forking[cur] < |s.t| && s.t[s.forking[cur]].parent == NULL
    case Publish(cur) => cur in s.forking && s.forking[cur] < |s.t| && s.t[s.forking[cur]].parent == cur
    case Exit(cur) => Running(s, cur) && cur !in s.forking && cur != INIT
    case Wait(cur) => Running(s, cur) && cur !in s.forking
    case SleepOn(cur, chan) => Running(s, cur) && !SlotAddress(s.t, chan)
    case Wakeup(chan) => !SlotAddress(s.t, chan)
    case Kill(pid) => true
    case Schedule(cur) => cur < |s.t| && s.t[cur].state.RUNNABLE?
    case Yield(cur) => Running(s, cur)
  }

  ghost function SetState(s: State, i: nat, st: ProcState): State
    requires i < |s.t|
  {
    s.(t := s.t[i := s.t[i].(state := st)])
  }

  ghost function Do(s: State, act: Action): (r: State)
    requires Enabled(s, act)
    ensures |r.t| == |s.t|
  {
    match act
    case Alloc(cur) =>
      var i := FirstUnused(s.t, 0);
      s.(t := Allocated(s.t, i, s.nextpid), nextpid := s.nextpid + 1, forking := s.forking[cur := i])
    case ForkFails(cur) => SetState(s, s.forking[cur], UNUSED).(forking := s.forking - {cur})
    case SetParent(cur) => s.(t := s.t[s.forking[cur] := s.t[s.forking[cur]].(parent := cur)])
    case Publish(cur) => SetState(s, s.forking[cur], RUNNABLE).(forking := s.forking - {cur})
    case Exit(cur) => s.(t := Exited(s.t, cur, INIT), exited := s.exited + {s.t[cur].pid})
    case Wait(cur) =>
      var (r, t) := WaitPass(s.t, cur);
      if r.Child? then s.(t := t, reaped := s.reaped + {r.pid}) else s.(t := t)
    case SleepOn(cur, chan) => s.(t := s.t[cur := s.t[cur].(chan := chan, state := SLEEPING)])
    case Wakeup(chan) => s.(t := Woken(s.t, chan))
    case Kill(pid) =>
      var i := FirstPid(s.t, pid, 0);
      if i < |s.t| then s.(t := Killed(s.t, i)) else s
    case Schedule(cur) => SetState(s, cur, RUNNING)
    case Yield(cur) => SetState(s, cur, RUNNABLE)
  }

  // ----- invariant -----

  /** Pids in use are positive, below nextpid and in one slot only, even a slot whose fork failed. */
  ghost predicate PidsOk(s: State) {
    && (forall i :: 0 <= i < |s.t| ==> s.t[i].pid < s.nextpid && (!s.t[i].state.UNUSED? ==> s.t[i].pid > 0))
    && (forall i, j :: 0 <= i < j < |s.t| && s.t[i].pid != 0 ==> s.t[i].pid != s.t[j].pid)
  }

  /** A parent is a live process; every live or exited process but init has one; free slots have none. */
  ghost predicate ParentOk(t: Table, i: nat)
    requires i < |t|
  {
    && (t[i].parent == NULL || (SlotAddress(t, t[i].parent) && Live(t[t[i].parent]) && t[i].parent != i && i != INIT))
    && (t[i].state.UNUSED? ==> t[i].parent == NULL)
    && ((Live(t[i]) || t[i].state.ZOMBIE?) && i != INIT ==> t[i].parent != NULL)
  }

  /** Sleeping on a slot's address means sleeping in wait, on one's own, with no exited child. */
  ghost predicate WaiterOk(t: Table, i: nat)
    requires i < |t|
  {
    t[i].state.SLEEPING? && SlotAddress(t, t[i].chan) ==>
      t[i].chan == i && forall j :: 0 <= j < |t| ==> !Zombie(t[j], i)
  }

  ghost predicate TreeOk(t: Table) {
    && INIT < |t| && Live(t[INIT])
    && (forall i :: 0 <= i < |t| ==> ParentOk(t, i))
    && (forall i :: 0 <= i < |t| ==> WaiterOk(t, i))
  }

  /** A process inside fork is live, and its embryo has no parent yet or has that process. */
  ghost predicate ForkOk(t: Table, c: nat, n: nat) {
    c < |t| && Live(t[c]) && n < |t| && t[n].state.EMBRYO? && (t[n].parent == NULL || t[n].parent == c)
  }

  ghost predicate ForksOk(t: Table, forking: map<nat, nat>) {
    && (forall c :: c in forking ==> ForkOk(t, c, forking[c]))
    && (forall c, d :: c in forking && d in forking && c != d ==> forking[c] != forking[d])
  }

  /** The pids that exited and were not yet reaped are exactly the pids of ZOMBIE slots. */
  ghost predicate ReapOk(s: State) {
    && s.reaped <= s.exited
    && (forall i :: 0 <= i < |s.t| && s.t[i].pid in s.exited - s.reaped ==> s.t[i].state.ZOMBIE?)
    && (forall i :: 0 <= i < |s.t| && s.t[i].state.ZOMBIE? ==> s.t[i].pid in s.exited - s.reaped)
    && (forall x :: x in s.exited - s.reaped ==> exists i :: 0 <= i < |s.t| && s.t[i].pid == x)
    && (forall x :: x in s.exited ==> 0 < x < s.nextpid)
    && (forall i :: 0 <= i < |s.t| ==> s.t[i].pid !in s.reaped)
  }

  ghost predicate Inv(s: State) {
    PidsOk(s) && TreeOk(s.t) && ForksOk(s.t, s.forking) && ReapOk(s)
  }

  /** After userinit: init is the only process. */
  ghost predicate Boot(s: State) {
    && |s.t| > 0 && s.nextpid == 2 && s.forking == map[] && s.exited == {} && s.reaped == {}
    && s.t[INIT] == Proc(RUNNABLE, 1, NULL, NULL, false)
    && forall i :: 0 < i < |s.t| ==> s.t[i] == Proc(UNUSED, 0, NULL, NULL, false)
  }

  lemma BootInv(s: State)
    requires Boot(s)
    ensures Inv(s)
  {
  }

  // ----- steps that only move live processes between live states -----

  ghost predicate Soft(t: Table, t': Table) {
    |t'| == |t| &&
    forall i :: 0 <= i < |t| ==>
      t'[i].pid == t[i].pid && t'[i].parent == t[i].parent &&
      (t'[i].state == t[i].state || (Live(t[i]) && Live(t'[i])))
  }

  /** Pids stay and no slot becomes or stops being ZOMBIE: the reaping record stays right. */
  lemma ReapSame(s: State, s': State)
    requires ReapOk(s) && |s'.t| == |s.t| && s'.exited == s.exited && s'.reaped == s.reaped && s'.nextpid >= s.nextpid
    requires forall i :: 0 <= i < |s.t| ==>
               (s'.t[i].state.ZOMBIE? <==> s.t[i].state.ZOMBIE?) &&
               (s'.t[i].pid == s.t[i].pid || (!s.t[i].state.ZOMBIE? && s'.t[i].pid !in s.exited))
    ensures ReapOk(s')
  {
    forall x | x in s.exited - s.reaped ensures exists i :: 0 <= i < |s'.t| && s'.t[i].pid == x {
      var i :| 0 <= i < |s.t| && s.t[i].pid == x;
      assert s.t[i].state.ZOMBIE?;
      assert s'.t[i].pid == x;
    }
  }

  lemma ForksSame(t: Table, t': Table, forking: map<nat, nat>)
    requires ForksOk(t, forking) && |t'| == |t|
    requires forall i :: 0 <= i < |t| && Live(t[i]) && i in forking ==> Live(t'[i])
    requires forall i :: 0 <= i < |t| && t[i].state.EMBRYO? ==> t'[i].state.EMBRYO? && t'[i].parent == t[i].parent
    ensures ForksOk(t', forking)
  {
    forall c | c in forking ensures ForkOk(t', c, forking[c]) {
      assert ForkOk(t, c, forking[c]);
    }
  }

  lemma SoftTree(t: Table, t': Table)
    requires TreeOk(t) && Soft(t, t') && forall i :: 0 <= i < |t'| ==> WaiterOk(t', i)
    ensures TreeOk(t')
  {
    forall i | 0 <= i < |t'| ensures ParentOk(t', i) {
      assert ParentOk(t, i);
    }
  }

  lemma SoftKeep(s: State, t': Table)
    requires Inv(s) && Soft(s.t, t') && forall i :: 0 <= i < |t'| ==> WaiterOk(t', i)
    ensures Inv(s.(t := t'))
  {
    SoftTree(s.t, t');
    ForksSame(s.t, t', s.forking);
    ReapSame(s, s.(t := t'));
    hide TreeOk, ForksOk, ReapOk;
  }

  lemma KeepSoft(s: State, act: Action)
    requires Inv(s) && Enabled(s, act)
    requires act.SleepOn? || act.Wakeup? || act.Kill? || act.Schedule? || act.Yield?
    ensures Inv(Do(s, act))
  {
    hide PidsOk, ForksOk, ReapOk;
    var t' := Do(s, act).t;
    forall i | 0 <= i < |t'| ensures WaiterOk(t', i) {
      assert WaiterOk(s.t, i);
      assert forall j :: 0 <= j < |t'| ==> (Zombie(t'[j], i) <==> Zombie(s.t[j], i));
    }
    SoftKeep(s, t');
  }

  lemma KeepWaitSleep(s: State, cur: nat)
    requires Inv(s) && Enabled(s, Wait(cur)) && !WaitPass(s.t, cur).0.Child?
    ensures Inv(Do(s, Wait(cur)))
  {
    hide PidsOk, ForksOk, ReapOk;
    var t' := Do(s, Wait(cur)).t;
    assert forall j :: 0 <= j < |s.t| ==> !Zombie(s.t[j], cur);
    forall i | 0 <= i < |t'| ensures WaiterOk(t', i) {
      assert WaiterOk(s.t, i);
      assert forall j :: 0 <= j < |t'| ==> (Zombie(t'[j], i) <==> Zombie(s.t[j], i));
    }
    SoftKeep(s, t');
  }

  // ----- fork -----

  /** One slot that is neither live nor ZOMBIE changes, to something that is not ZOMBIE. */
  lemma SlotTree(t: Table, n: nat, x: Proc)
    requires TreeOk(t) && n < |t| && !Live(t[n]) && !t[n].state.ZOMBIE? && !x.state.ZOMBIE? && !x.state.SLEEPING?
    requires x.parent == NULL || (SlotAddress(t, x.parent) && Live(t[x.parent]) && n != INIT)
    requires x.state.UNUSED? ==> x.parent == NULL
    requires Live(x) ==> x.parent != NULL
    ensures TreeOk(t[n := x])
  {
    var t' := t[n := x];
    forall i | 0 <= i < |t'| ensures ParentOk(t', i) && WaiterOk(t', i) {
      assert ParentOk(t, i) && WaiterOk(t, i);
      assert forall j :: 0 <= j < |t| ==> (Zombie(t'[j], i) <==> Zombie(t[j], i));
    }
  }

  lemma KeepAlloc(s: State, cur: nat)
    requires Inv(s) && Enabled(s, Alloc(cur))
    ensures Inv(Do(s, Alloc(cur)))
  {
    hide WaiterOk;
    var s', n := Do(s, Alloc(cur)), FirstUnused(s.t, 0);
    assert ParentOk(s.t, n);
    SlotTree(s.t, n, s'.t[n]);
    assert forall i :: 0 <= i < |s.t| && i != n ==> s'.t[i] == s.t[i];
    AllocForks(s.t, s.forking, cur, n, s.nextpid);
    ReapSame(s, s');
    hide TreeOk, ForksOk, ReapOk;
  }

  lemma AllocForks(t: Table, forking: map<nat, nat>, cur: nat, n: nat, pid: nat)
    requires ForksOk(t, forking) && cur < |t| && Live(t[cur]) && n < |t| && t[n].state.UNUSED? && t[n].parent == NULL
    ensures ForksOk(Allocated(t, n, pid), forking[cur := n])
  {
    var t', f' := Allocated(t, n, pid), forking[cur := n];
    forall c | c in f' ensures ForkOk(t', c, f'[c]) {
      assert c != cur ==> ForkOk(t, c, forking[c]);
    }
    forall c, d | c in f' && d in f' && c != d ensures f'[c] != f'[d] {
      assert c != cur ==> ForkOk(t, c, forking[c]);
      assert d != cur ==> ForkOk(t, d, forking[d]);
    }
  }

  /** The embryo's slot changes and nothing else does. */
  lemma KeepEmbryo(s: State, act: Action)
    requires Inv(s) && Enabled(s, act) && (act.ForkFails? || act.SetParent? || act.Publish?)
    ensures Inv(Do(s, act))
  {
    EmbryoFacts(s, act.cur);
    hide TreeOk, ForksOk, ReapOk, PidsOk;
    var s', n := Do(s, act), s.forking[act.cur];
    SlotTree(s.t, n, s'.t[n]);
    EmbryoForks(s.t, s.forking, act.cur, s'.t[n]);
    PidsSame(s, s');
    ReapSame(s, s');
  }

  lemma EmbryoFacts(s: State, cur: nat)
    requires Inv(s) && cur in s.forking
    ensures var n := s.forking[cur];
            cur < |s.t| && Live(s.t[cur]) && n < |s.t| && s.t[n].state.EMBRYO? && cur != n && n != INIT &&
            (s.t[n].parent == NULL || s.t[n].parent == cur)
  {
    assert ForkOk(s.t, cur, s.forking[cur]);
  }

  lemma PidsSame(s: State, s': State)
    requires PidsOk(s) && |s'.t| == |s.t| && s'.nextpid == s.nextpid
    requires forall i :: 0 <= i < |s.t| ==> s'.t[i].pid == s.t[i].pid &&
                                            (s.t[i].state.UNUSED? ==> s'.t[i].state.UNUSED?)
    ensures PidsOk(s')
  {
  }

  lemma EmbryoForks(t: Table, forking: map<nat, nat>, cur: nat, x: Proc)
    requires ForksOk(t, forking) && cur in forking && forking[cur] < |t|
    ensures ForksOk(t[forking[cur] := x], forking - {cur})
    ensures x.state.EMBRYO? && x.parent == cur ==> ForksOk(t[forking[cur] := x], forking)
  {
    var t' := t[forking[cur] := x];
    forall c | c in forking && c != cur ensures ForkOk(t', c, forking[c]) {
      assert ForkOk(t, c, forking[c]) && ForkOk(t, cur, forking[cur]);
    }
    assert ForkOk(t, cur, forking[cur]);
  }

  // ----- exit and reaping -----

  /** What exit does to one slot. */
  lemma ExitSlot(t: Table, cur: nat, i: nat)
    requires cur < |t| && i < |t| && t[cur].state.RUNNING?
    ensures var y := Exited(t, cur, INIT)[i];
            y.pid == t[i].pid && y.chan == t[i].chan &&
            y.parent == (if t[i].parent == cur then INIT else t[i].parent) &&
            (i == cur ==> y.state.ZOMBIE?) &&
            (i != cur ==> y.state == t[i].state || (t[i].state.SLEEPING? && y.state.RUNNABLE?)) &&
            (i != cur && y.state.SLEEPING? ==>
               y.chan != t[cur].parent && (y.chan == INIT ==> forall j :: 0 <= j < |t| ==> !Zombie(t[j], cur)))
  {
    var w := Woken(t, t[cur].parent);
    assert w[..|t|] == w;
    if FirstZombie(w[..|t|], cur, 0) == |t| {
      forall j | 0 <= j < |t| ensures !Zombie(t[j], cur) {
        assert !Zombie(w[j], cur);
      }
    }
  }

  lemma ExitTree(s: State, cur: nat)
    requires Inv(s) && Enabled(s, Exit(cur))
    ensures TreeOk(Exited(s.t, cur, INIT))
  {
    hide PidsOk, ForksOk, ReapOk, Exited;
    var t' := Exited(s.t, cur, INIT);
    forall i | 0 <= i < |t'| ensures ParentOk(t', i) {
      assert ParentOk(s.t, i);
      ExitSlot(s.t, cur, i);
      if t'[i].parent != NULL {
        ExitSlot(s.t, cur, t'[i].parent);
      }
    }
    ExitSlot(s.t, cur, INIT);
    assert ParentOk(s.t, cur);
    forall i | 0 <= i < |t'| ensures WaiterOk(t', i) {
      assert WaiterOk(s.t, i);
      ExitSlot(s.t, cur, i);
      forall j | 0 <= j < |t'| && t'[i].state.SLEEPING? && SlotAddress(t', t'[i].chan) ensures !Zombie(t'[j], i) {
        ExitSlot(s.t, cur, j);
        assert !Zombie(s.t[j], i) && (i == INIT ==> !Zombie(s.t[j], cur));
      }
    }
  }

  lemma KeepExit(s: State, cur: nat)
    requires Inv(s) && Enabled(s, Exit(cur))
    ensures Inv(Do(s, Exit(cur)))
  {
    hide Exited, WaiterOk, ParentOk;
    var s' := Do(s, Exit(cur));
    ExitTree(s, cur);
    forall i | 0 <= i < |s.t|
      ensures s'.t[i].pid == s.t[i].pid && (i == cur ==> s'.t[i].state.ZOMBIE?) &&
              (i != cur ==> s'.t[i].state == s.t[i].state || (s.t[i].state.SLEEPING? && s'.t[i].state.RUNNABLE?)) &&
              (s.t[i].parent != cur ==> s'.t[i].parent == s.t[i].parent)
    {
      ExitSlot(s.t, cur, i);
    }
    ExitForks(s, cur);
    ExitReap(s, s', cur);
    hide TreeOk, ForksOk, ReapOk;
  }

  lemma ExitForks(s: State, cur: nat)
    requires Inv(s) && Enabled(s, Exit(cur))
    ensures ForksOk(Exited(s.t, cur, INIT), s.forking)
  {
    hide Exited, PidsOk, ReapOk, TreeOk;
    var t' := Exited(s.t, cur, INIT);
    forall c | c in s.forking ensures ForkOk(t', c, s.forking[c]) {
      assert ForkOk(s.t, c, s.forking[c]);
      ExitSlot(s.t, cur, c);
      ExitSlot(s.t, cur, s.forking[c]);
    }
  }

  lemma ExitReap(s: State, s': State, cur: nat)
    requires PidsOk(s) && ReapOk(s) && cur < |s.t| && s.t[cur].state.RUNNING? && |s'.t| == |s.t|
    requires s'.exited == s.exited + {s.t[cur].pid} && s'.reaped == s.reaped && s'.nextpid == s.nextpid
    requires forall i :: 0 <= i < |s.t| ==>
               s'.t[i].pid == s.t[i].pid && (s'.t[i].state.ZOMBIE? <==> i == cur || s.t[i].state.ZOMBIE?)
    ensures ReapOk(s')
  {
    forall x | x in s'.exited - s'.reaped ensures exists i :: 0 <= i < |s'.t| && s'.t[i].pid == x {
      if x == s.t[cur].pid {
        assert s'.t[cur].pid == x;
      } else {
        assert x in s.exited - s.reaped;
        var i :| 0 <= i < |s.t| && s.t[i].pid == x;
        assert s'.t[i].pid == x;
      }
    }
  }

  lemma ReapTree(t: Table, k: nat)
    requires TreeOk(t) && k < |t| && t[k].state.ZOMBIE?
    ensures TreeOk(Reaped(t, k))
  {
    var t' := Reaped(t, k);
    forall i | 0 <= i < |t'| ensures ParentOk(t', i) && WaiterOk(t', i) {
      assert ParentOk(t, i) && WaiterOk(t, i);
      assert forall j :: 0 <= j < |t| && Zombie(t'[j], i) ==> Zombie(t[j], i);
    }
  }

  lemma ReapRecord(s: State, k: nat)
    requires PidsOk(s) && ReapOk(s) && k < |s.t| && s.t[k].state.ZOMBIE?
    ensures ReapOk(s.(t := Reaped(s.t, k), reaped := s.reaped + {s.t[k].pid}))
    ensures s.t[k].pid in s.exited && s.t[k].pid !in s.reaped
  {
    var s' := s.(t := Reaped(s.t, k), reaped := s.reaped + {s.t[k].pid});
    forall x | x in s'.exited - s'.reaped ensures exists i :: 0 <= i < |s'.t| && s'.t[i].pid == x {
      assert x in s.exited - s.reaped;
      var i :| 0 <= i < |s.t| && s.t[i].pid == x;
      assert s'.t[i].pid == x;
    }
    forall i | 0 <= i < |s'.t| ensures s'.t[i].pid !in s'.reaped {
      assert i != k ==> s.t[i].pid != s.t[k].pid;
    }
  }

  lemma KeepReap(s: State, cur: nat)
    requires Inv(s) && Enabled(s, Wait(cur)) && WaitPass(s.t, cur).0.Child?
    ensures Inv(Do(s, Wait(cur)))
  {
    hide WaiterOk, ParentOk;
    var k := FirstZombie(s.t, cur, 0);
    ReapTree(s.t, k);
    ForksSame(s.t, Reaped(s.t, k), s.forking);
    ReapRecord(s, k);
    ReapPids(s, k);
    hide TreeOk, ForksOk, ReapOk, PidsOk;
  }

  lemma ReapPids(s: State, k: nat)
    requires PidsOk(s) && k < |s.t|
    ensures PidsOk(s.(t := Reaped(s.t, k), reaped := s.reaped + {s.t[k].pid}))
  {
  }

  lemma Keep(s: State, act: Action)
    requires Inv(s) && Enabled(s, act)
    ensures Inv(Do(s, act))
  {
    hide Inv, Enabled, Do, WaitPass;
    match act
    case Alloc(cur) => KeepAlloc(s, cur);
    case ForkFails(_) => KeepEmbryo(s, act);
    case SetParent(_) => KeepEmbryo(s, act);
    case Publish(_) => KeepEmbryo(s, act);
    case Exit(cur) => KeepExit(s, cur);
    case Wait(cur) => KeepWait(s, cur);
    case _ => KeepSoft(s, act);
  }

  lemma KeepWait(s: State, cur: nat)
    requires Inv(s) && Enabled(s, Wait(cur))
    ensures Inv(Do(s, Wait(cur)))
  {
    hide Inv, Do;
    if WaitPass(s.t, cur).0.Child? {
      KeepReap(s, cur);
    } else {
      KeepWaitSleep(s, cur);
    }
  }

  // ----- every run -----

  ghost predicate Run(states: seq<State>, acts: seq<Action>) {
    && |states| == |acts| + 1 && Boot(states[0])
    && forall k :: 0 <= k < |acts| ==> Enabled(states[k], acts[k]) && states[k + 1] == Do(states[k], acts[k])
  }

  /** The invariant holds at every moment of every run. */
  lemma {:induction false} RunInv(states: seq<State>, acts: seq<Action>, k: nat)
    requires Run(states, acts) && k < |states|
    ensures Inv(states[k])
  {
    hide Inv, Do, Enabled, Boot;
    if k == 0 {
      BootInv(states[0]);
    } else {
      RunInv(states, acts, k - 1);
      Keep(states[k - 1], acts[k - 1]);
    }
  }

  /** A process asleep in wait has no exited child; an exited process has a live parent to reap it. */
  lemma NoMissedExit(states: seq<State>, acts: seq<Action>, k: nat, i: nat)
    requires Run(states, acts) && k < |states| && i < |states[k].t|
    ensures var t := states[k].t;
            (t[i].state.SLEEPING? && t[i].chan == i ==> forall j :: 0 <= j < |t| ==> !Zombie(t[j], i)) &&
            (t[i].state.ZOMBIE? ==> SlotAddress(t, t[i].parent) && Live(t[t[i].parent]))
  {
    RunInv(states, acts, k);
    assert WaiterOk(states[k].t, i) && ParentOk(states[k].t, i);
  }

  /** Live, embryonic and exited processes all have different pids. */
  lemma PidsDiffer(states: seq<State>, acts: seq<Action>, k: nat, i: nat, j: nat)
    requires Run(states, acts) && k < |states| && i < |states[k].t| && j < |states[k].t| && i != j
    requires !states[k].t[i].state.UNUSED? && !states[k].t[j].state.UNUSED?
    ensures states[k].t[i].pid != states[k].t[j].pid
  {
    RunInv(states, acts, k);
  }

  /** The pid wait returns at step k, if it reaps. */
  ghost function ReapedAt(states: seq<State>, acts: seq<Action>, k: nat): Option<nat>
    requires Run(states, acts) && k < |acts|
  {
    if acts[k].Wait? then
      var r := WaitPass(states[k].t, acts[k].cur).0;
      if r.Child? then Some(r.pid) else None
    else None
  }

  /** The pid that exits at step k, if one does. */
  ghost function ExitedAt(states: seq<State>, acts: seq<Action>, k: nat): Option<nat>
    requires Run(states, acts) && k < |acts|
  {
    if acts[k].Exit? then Some(states[k].t[acts[k].cur].pid) else None
  }

  lemma RecordStep(states: seq<State>, acts: seq<Action>, k: nat)
    requires Run(states, acts) && k < |acts|
    ensures states[k + 1].exited == states[k].exited + (match ExitedAt(states, acts,
                                                                       k) case Some(p) => {p} case None => {})
    ensures states[k + 1].reaped == states[k].reaped + (match ReapedAt(states, acts,
                                                                       k) case Some(p) => {p} case None => {})
    ensures ReapedAt(states, acts, k).Some? ==>
              ReapedAt(states, acts, k).value in states[k].exited - states[k].reaped
  {
    RunInv(states, acts, k);
    if acts[k].Wait? {
      var i := FirstZombie(states[k].t, acts[k].cur, 0);
      if i < |states[k].t| {
        ReapRecord(states[k], i);
      }
    }
    hide TreeOk, ForksOk, ReapOk, PidsOk;
  }

  /** exited and reaped are what the steps so far recorded. */
  lemma {:induction false} Records(states: seq<State>, acts: seq<Action>, k: nat, x: nat)
    requires Run(states, acts) && k < |states|
    ensures x in states[k].exited <==> exists m :: 0 <= m < k && ExitedAt(states, acts, m) == Some(x)
    ensures x in states[k].reaped <==> exists m :: 0 <= m < k && ReapedAt(states, acts, m) == Some(x)
  {
    hide Enabled, Do;
    if k > 0 {
      Records(states, acts, k - 1, x);
      RecordStep(states, acts, k - 1);
      hide Run, ExitedAt, ReapedAt;
    }
  }

  /**
   Reaped exactly once.  In every run, a pid that wait returns exited earlier
   and is never returned again; and a pid that exited and was not yet returned
   is still in the table as a ZOMBIE.
   */
  lemma ReapedOnce(states: seq<State>, acts: seq<Action>, k: nat, x: nat)
    requires Run(states, acts) && k < |acts| && ReapedAt(states, acts, k) == Some(x)
    ensures exists m :: 0 <= m < k && ExitedAt(states, acts, m) == Some(x)
    ensures forall m :: 0 <= m < |acts| && m != k ==> ReapedAt(states, acts, m) != Some(x)
  {
    RecordStep(states, acts, k);
    Records(states, acts, k, x);
    hide Run, ExitedAt, ReapedAt;
    forall m | 0 <= m < |acts| && m != k ensures ReapedAt(states, acts, m) != Some(x) {
      if m > k {
        RecordStep(states, acts, m);
        Records(states, acts, m, x);
      }
    }
  }

  lemma ExitedStays(states: seq<State>, acts: seq<Action>, k: nat, x: nat)
    requires Run(states, acts) && k < |states|
    requires exists m :: 0 <= m < k && ExitedAt(states, acts, m) == Some(x)
    requires forall m :: 0 <= m < k ==> ReapedAt(states, acts, m) != Some(x)
    ensures exists i :: 0 <= i < |states[k].t| && states[k].t[i].state.ZOMBIE? && states[k].t[i].pid == x
  {
    Records(states, acts, k, x);
    RunInv(states, acts, k);
    assert x in states[k].exited - states[k].reaped;
    var i :| 0 <= i < |states[k].t| && states[k].t[i].pid == x;
  }

  // ----- the killed flag of a free slot -----

  /** No free slot carries a kill into the next process that will use it. */
  ghost predicate FreeUnmarked(t: Table) {
    forall i :: 0 <= i < |t| && t[i].state.UNUSED? ==> !t[i].killed
  }

  /**
   The steps that mark a free slot: a kill whose first slot with that pid is
   free, since kill() compares pids of free slots too, and the failure of a
   fork whose embryo was killed, since that clears the state only.
   */
  ghost predicate Marks(s: State, act: Action) {
    || (act.Kill? && var i := FirstPid(s.t, act.pid, 0); i < |s.t| && s.t[i].state.UNUSED?)
    || (act.ForkFails? && act.cur in s.forking && s.forking[act.cur] < |s.t| && s.t[s.forking[act.cur]].killed)
  }

  /** Free slots stay unmarked exactly over the other steps. */
  lemma {:induction false} UnmarkedIff(s: State, act: Action)
    requires Inv(s) && FreeUnmarked(s.t) && Enabled(s, act)
    ensures FreeUnmarked(Do(s, act).t) <==> !Marks(s, act)
  {
    hide Inv;
    var t' := Do(s, act).t;
    match act
    case Exit(cur) =>
      forall i | 0 <= i < |t'| && t'[i].state.UNUSED? ensures !t'[i].killed {
        ExitMark(s.t, cur, i);
      }
    case Kill(pid) =>
      var i := FirstPid(s.t, pid, 0);
      assert i < |s.t| ==> t'[i].killed && (t'[i].state.UNUSED? <==> s.t[i].state.UNUSED?);
    case ForkFails(cur) => assert t'[s.forking[cur]].state.UNUSED?;
    case _ =>
  }

  /** exit frees no slot and touches no mark. */
  lemma {:induction false} ExitMark(t: Table, cur: nat, i: nat)
    requires cur < |t| && i < |t|
    ensures var y := Exited(t, cur, INIT)[i]; y.killed == t[i].killed && (y.state.UNUSED? ==> t[i].state.UNUSED?)
  {
  }

  ghost predicate UnmarkedTo(states: seq<State>, k: nat) {
    forall m :: 0 <= m <= k && m < |states| ==> FreeUnmarked(states[m].t)
  }

  ghost predicate NoMarks(states: seq<State>, acts: seq<Action>, k: nat) {
    forall m :: 0 <= m < k && m < |states| && m < |acts| ==> !Marks(states[m], acts[m])
  }

  /** In every run, free slots are unmarked up to a moment exactly when no step before it marks one. */
  lemma {:induction false} UnmarkedRun(states: seq<State>, acts: seq<Action>, k: nat)
    requires Run(states, acts) && k < |states|
    ensures UnmarkedTo(states, k) <==> NoMarks(states, acts, k)
  {
    hide Enabled, Do, FreeUnmarked, Marks, Boot;
    if k == 0 {
      BootUnmarked(states[0]);
    } else {
      UnmarkedRun(states, acts, k - 1);
      RunInv(states, acts, k - 1);
      if UnmarkedTo(states, k - 1) {
        UnmarkedIff(states[k - 1], acts[k - 1]);
        UnmarkedNext(states, acts, k);
      } else {
        var m :| 0 <= m <= k - 1 && !FreeUnmarked(states[m].t);
        var n :| 0 <= n < k - 1 && Marks(states[n], acts[n]);
        assert !UnmarkedTo(states, k) && !NoMarks(states, acts, k);
      }
    }
  }

  lemma {:induction false} UnmarkedNext(states: seq<State>, acts: seq<Action>, k: nat)
    requires 0 < k < |states| == |acts| + 1 && UnmarkedTo(states, k - 1) && NoMarks(states, acts, k - 1)
    ensures UnmarkedTo(states, k) <==> FreeUnmarked(states[k].t)
    ensures NoMarks(states, acts, k) <==> !Marks(states[k - 1], acts[k - 1])
  {
    hide FreeUnmarked, Marks;
  }

  lemma BootUnmarked(s: State)
    requires Boot(s)
    ensures FreeUnmarked(s.t)
  {
  }

  /** So without such a step before it, a fork starts its child unkilled. */
  lemma {:induction false} NewbornUnkilled(states: seq<State>, acts: seq<Action>, k: nat)
    requires Run(states, acts) && k < |acts| && acts[k].Alloc?
    requires NoMarks(states, acts, k)
    ensures var n := FirstUnused(states[k].t, 0);
            n < |states[k].t| == |states[k + 1].t| && states[k + 1].t[n].state.EMBRYO? && !states[k + 1].t[n].killed
  {
    UnmarkedRun(states, acts, k);
    assert FreeUnmarked(states[k].t);
  }

  /** The embryo's pid at a failing fork, if step m is one. */
  ghost function FailedAt(states: seq<State>, acts: seq<Action>, m: nat): Option<nat>
    requires Run(states, acts) && m < |acts|
  {
    if acts[m].ForkFails? then Some(states[m].t[states[m].forking[acts[m].cur]].pid) else None
  }

  /** The pid of a free slot is 0 or that of a fork that failed. */
  lemma {:induction false} FreePids(states: seq<State>, acts: seq<Action>, k: nat, i: nat)
    requires Run(states, acts) && k < |states| && i < |states[k].t| && states[k].t[i].state.UNUSED? &&
             states[k].t[i].pid != 0
    ensures exists m :: 0 <= m < k && FailedAt(states, acts, m) == Some(states[k].t[i].pid)
  {
    hide Boot, Enabled, Do, FailedAt;
    if k == 0 {
      BootPids(states[0], i);
    } else {
      var x := states[k].t[i].pid;
      FreePidStep(states, acts, k - 1, i);
      if FailedAt(states, acts, k - 1) != Some(x) {
        FreePids(states, acts, k - 1, i);
        var m :| 0 <= m < k - 1 && FailedAt(states, acts, m) == Some(x);
        assert 0 <= m < k && FailedAt(states, acts, m) == Some(x);
      }
    }
  }

  lemma BootPids(s: State, i: nat)
    requires Boot(s) && i < |s.t| && s.t[i].state.UNUSED?
    ensures s.t[i].pid == 0
  {
  }

  /** A slot becomes free with a pid only where a fork fails. */
  lemma {:induction false} FreePidStep(states: seq<State>, acts: seq<Action>, k: nat, i: nat)
    requires Run(states, acts) && k < |acts| && i < |states[k + 1].t|
    requires states[k + 1].t[i].state.UNUSED? && states[k + 1].t[i].pid != 0
    ensures FailedAt(states, acts, k) == Some(states[k + 1].t[i].pid) ||
            (i < |states[k].t| && states[k].t[i].state.UNUSED? && states[k].t[i].pid == states[k + 1].t[i].pid)
  {
    hide Boot;
    FreePidDo(states[k], acts[k], i);
  }

  lemma {:induction false} FreePidDo(s: State, act: Action, i: nat)
    requires Enabled(s, act) && i < |s.t| && Do(s, act).t[i].state.UNUSED? && Do(s, act).t[i].pid != 0
    ensures (act.ForkFails? && i == s.forking[act.cur] && Do(s, act).t[i].pid == s.t[i].pid) ||
            (s.t[i].state.UNUSED? && s.t[i].pid == Do(s, act).t[i].pid)
  {
    match act
    case Exit(cur) =>
      ExitSlot(s.t, cur, i);
      ExitMark(s.t, cur, i);
    case _ =>
  }

  /**
   Which kills mark a free slot: kill(0) while some free slot never failed a fork, and the pid of a failed
   fork whose slot is still free.
   */
  lemma {:induction false} KillMarksIff(states: seq<State>, acts: seq<Action>, k: nat, pid: nat)
    requires Run(states, acts) && k < |states|
    ensures Marks(states[k], Kill(pid)) <==> exists i :: 0 <= i < |states[k].t| && states[k].t[i].state.UNUSED? &&
                                                         states[k].t[i].pid == pid
    ensures Marks(states[k], Kill(pid)) ==> pid == 0 || exists m :: 0 <= m < k && FailedAt(states, acts, m) == Some(pid)
  {
    RunInv(states, acts, k);
    hide Run, FailedAt, TreeOk, ForksOk, ReapOk;
    var t := states[k].t;
    var i := FirstPid(t, pid, 0);
    if j :| 0 <= j < |t| && t[j].state.UNUSED? && t[j].pid == pid {
      assert i <= j;
      assert t[i].state.UNUSED?;
    }
    if Marks(states[k], Kill(pid)) && pid != 0 {
      FreePids(states, acts, k, i);
    }
  }

  /** A run in which a new process starts out killed though nobody killed it. */
  lemma BornKilled(s: State) returns (states: seq<State>, acts: seq<Action>)
    requires Boot(s) && |s.t| > 1
    ensures Run(states, acts) && states[0] == s
    ensures acts == [Schedule(INIT), Kill(0), Alloc(INIT)]
    ensures |states[3].t| > 1 && states[3].t[1].state.EMBRYO? && states[3].t[1].pid == 2 && states[3].t[1].killed
  {
    var s1 := Do(s, Schedule(INIT));
    assert FirstPid(s1.t, 0, 0) == 1;
    var s2 := Do(s1, Kill(0));
    assert FirstUnused(s2.t, 0) == 1;
    var s3 := Do(s2, Alloc(INIT));
    states, acts := [s, s1, s2, s3], [Schedule(INIT), Kill(0), Alloc(INIT)];
  }

  /** Another: the embryo of a fork is killed, the fork fails, and the next process in its slot starts out killed. */
  lemma {:induction false} BornKilledByFailedFork(s: State) returns (states: seq<State>, acts: seq<Action>)
    requires Boot(s) && |s.t| > 1
    ensures Run(states, acts) && states[0] == s
    ensures acts == [Schedule(INIT), Alloc(INIT), Kill(2), ForkFails(INIT), Alloc(INIT)]
    ensures |states[5].t| > 1 && states[5].t[1].state.EMBRYO? && states[5].t[1].pid == 3 && states[5].t[1].killed
  {
    var s1 := Do(s, Schedule(INIT));
    assert FirstUnused(s1.t, 0) == 1;
    var s2 := Do(s1, Alloc(INIT));
    assert FirstPid(s2.t, 2, 0) == 1;
    var s3 := Do(s2, Kill(2));
    var s4 := Do(s3, ForkFails(INIT));
    assert FirstUnused(s4.t, 0) == 1;
    var s5 := Do(s4, Alloc(INIT));
    states, acts := [s, s1, s2, s3, s4, s5], [Schedule(INIT), Alloc(INIT), Kill(2), ForkFails(INIT), Alloc(INIT)];
  }
}
