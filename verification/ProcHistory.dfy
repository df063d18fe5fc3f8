/**
 What the process table owes to the history of a run: who is asleep and what wakes
 them, what kill does and to whom it was done, whose child each process is, and what
 wait and fork therefore answer.
 */
module ProcHistory {

  import opened Basics
  import opened Proc
  import opened ProcRun

  // ----- kill -----

  /** kill marks the first slot with the pid and makes it runnable if it was asleep; nothing else changes. */
  lemma {:induction false} KillSlot(s: State, pid: nat, i: nat)
    requires Inv(s) && i < |s.t|
    ensures var n, x, y := FirstPid(s.t, pid, 0), s.t[i], Do(s, Kill(pid)).t[i];
            if i != n then y == x
            else y.killed && !y.state.SLEEPING? && y.pid == x.pid && y.parent == x.parent && y.chan == x.chan &&
                 (if x.state.SLEEPING? then y.state.RUNNABLE? else y.state == x.state)
    ensures !s.t[i].state.UNUSED? && s.t[i].pid == pid ==> FirstPid(s.t, pid, 0) == i
  {
    assert s.t[i].pid == pid && s.t[i].pid != 0 ==> FirstPid(s.t, pid, 0) == i;
  }

  ghost predicate WaitersUnkilled(t: Table) {
    forall i :: 0 <= i < |t| && t[i].state.SLEEPING? && t[i].chan == i ==> !t[i].killed
  }

  lemma {:induction false} UnkilledKeep(s: State, act: Action)
    requires Inv(s) && WaitersUnkilled(s.t) && Enabled(s, act)
    ensures WaitersUnkilled(Do(s, act).t)
  {
    hide PidsOk, ForksOk, ReapOk, TreeOk;
    var t' := Do(s, act).t;
    if act.Exit? {
      forall i | 0 <= i < |t'| && t'[i].state.SLEEPING? && t'[i].chan == i ensures !t'[i].killed {
        ExitSlot(s.t, act.cur, i);
        ExitMark(s.t, act.cur, i);
      }
    }
  }

  /** In every run a process asleep in wait has not been killed: kill would have made it runnable. */
  lemma {:induction false} NoKilledWaiter(states: seq<State>, acts: seq<Action>, k: nat)
    requires Run(states, acts) && k < |states|
    ensures WaitersUnkilled(states[k].t)
  {
    hide Inv, Enabled, Do;
    if k > 0 {
      NoKilledWaiter(states, acts, k - 1);
      RunInv(states, acts, k - 1);
      UnkilledKeep(states[k - 1], acts[k - 1]);
    }
  }

  // ----- sleep and wakeup -----

  /** The steps that wake process i. */
  ghost predicate Wakes(s: State, act: Action, i: nat)
    requires i < |s.t|
  {
    match act
    case Wakeup(chan) => s.t[i].chan == chan
    case Kill(pid) => FirstPid(s.t, pid, 0) == i
    case Exit(cur) =>
      cur < |s.t| &&
      (s.t[i].chan == s.t[cur].parent || (s.t[i].chan == INIT && exists j :: 0 <= j < |s.t| && Zombie(s.t[j], cur)))
    case _ => false
  }

  /** The steps in which process i goes to sleep. */
  ghost predicate Sleeps(s: State, act: Action, i: nat)
    requires i < |s.t|
  {
    match act
    case SleepOn(cur, _) => cur == i
    case Wait(cur) => cur == i && WaitPass(s.t, cur).0.MustSleep?
    case _ => false
  }

  /** A process stops sleeping exactly at a wakeup meant for it, and starts exactly when it asks to. */
  lemma {:induction false} AsleepIff(s: State, act: Action, i: nat)
    requires Inv(s) && Enabled(s, act) && i < |s.t|
    ensures var y := Do(s, act).t[i];
            if s.t[i].state.SLEEPING? then
              (if Wakes(s, act, i) then y.state.RUNNABLE? else y.state.SLEEPING?) && y.chan == s.t[i].chan
            else (y.state.SLEEPING? <==> Sleeps(s, act, i)) &&
                 (y.state.SLEEPING? ==> y.chan == if act.SleepOn? then act.chan else i)
  {
    hide PidsOk, ForksOk, ReapOk, TreeOk;
    match act
    case Exit(cur) => ExitWakes(s.t, cur, i);
    case ForkFails(cur) => EmbryoFacts(s, cur);
    case SetParent(cur) => EmbryoFacts(s, cur);
    case Publish(cur) => EmbryoFacts(s, cur);
    case _ =>
  }

  /** The slot whose fork ends with the step. */
  ghost predicate ForkEnds(s: State, cur: nat, i: nat) {
    cur in s.forking && s.forking[cur] == i
  }

  /** The only steps that give a process the CPU, take it, end it, or take or free a slot. */
  lemma {:induction false} StateIff(s: State, act: Action, i: nat)
    requires Inv(s) && Enabled(s, act) && i < |s.t|
    ensures var x, y := s.t[i].state, Do(s, act).t[i].state;
            && (y.RUNNING? <==> act == Schedule(i) ||
                                (x.RUNNING? && act != Yield(i) && act != Exit(i) && !Sleeps(s, act, i)))
            && (y.ZOMBIE? <==> act == Exit(i) || (x.ZOMBIE? && !(act.Wait? && FirstZombie(s.t, act.cur, 0) == i)))
            && (y.EMBRYO? <==> (act.Alloc? && FirstUnused(s.t, 0) == i) ||
                               (x.EMBRYO? && !((act.Publish? || act.ForkFails?) && ForkEnds(s, act.cur, i))))
            && (y.UNUSED? <==> (act.ForkFails? && ForkEnds(s, act.cur, i)) ||
                               (act.Wait? && FirstZombie(s.t, act.cur, 0) == i) ||
                               (x.UNUSED? && !(act.Alloc? && FirstUnused(s.t, 0) == i)))
  {
    hide PidsOk, ReapOk, TreeOk;
    match act
    case Exit(cur) => ExitWakes(s.t, cur, i);
    case ForkFails(cur) => EmbryoFacts(s, cur);
    case SetParent(cur) => EmbryoFacts(s, cur);
    case Publish(cur) => EmbryoFacts(s, cur);
    case _ =>
  }

  lemma {:induction false} ExitWakes(t: Table, cur: nat, i: nat)
    requires cur < |t| && i < |t| && t[cur].state.RUNNING?
    ensures var y := Exited(t, cur, INIT)[i];
            y.chan == t[i].chan && (!t[i].state.SLEEPING? ==> !y.state.SLEEPING?) &&
            (t[i].state.SLEEPING? ==>
               y.state == if t[i].chan == t[cur].parent ||
                             (t[i].chan == INIT && exists j :: 0 <= j < |t| && Zombie(t[j], cur))
                          then RUNNABLE else SLEEPING)
  {
    var w := Woken(t, t[cur].parent);
    assert w[..|t|] == w;
    assert forall j :: 0 <= j < |t| ==> (Zombie(w[j], cur) <==> Zombie(t[j], cur));
    var z := FirstZombie(w[..|t|], cur, 0);
    if z < |t| {
      assert Zombie(t[z], cur);
    } else {
      assert forall j :: 0 <= j < |t| ==> !Zombie(w[j], cur);
    }
  }

  // ----- children -----

  /** Children and their parents, by pid, after one more step: fork adds, exit passes on to init, wait removes. */
  ghost function KinNext(s: State, act: Action, kin: map<nat, nat>): map<nat, nat>
    requires Inv(s) && Enabled(s, act)
  {
    match act
    case SetParent(cur) =>
      EmbryoFacts(s, cur);
      kin[s.t[s.forking[cur]].pid := s.t[cur].pid]
    case Exit(cur) => map x | x in kin :: if kin[x] == s.t[cur].pid then s.t[INIT].pid else kin[x]
    case Wait(cur) =>
      var r := WaitPass(s.t, cur).0;
      if r.Child? then kin - {r.pid} else kin
    case _ => kin
  }

  ghost function Kin(states: seq<State>, acts: seq<Action>, k: nat): map<nat, nat>
    requires Run(states, acts) && k < |states|
  {
    if k == 0 then map[]
    else
      RunInv(states, acts, k - 1);
      KinNext(states[k - 1], acts[k - 1], Kin(states, acts, k - 1))
  }

  ghost predicate ChildAt(t: Table, x: nat, i: nat) {
    i < |t| && t[i].pid == x && t[i].parent != NULL
  }

  /** The parent pointer of slot i says the same. */
  ghost predicate KidOk(t: Table, kin: map<nat, nat>, i: nat)
    requires i < |t|
  {
    t[i].parent != NULL ==> SlotAddress(t, t[i].parent) && t[i].pid in kin && kin[t[i].pid] == t[t[i].parent].pid
  }

  ghost predicate KinOk(t: Table, kin: map<nat, nat>) {
    && (forall i :: 0 <= i < |t| ==> KidOk(t, kin, i))
    && (forall x :: x in kin ==> exists i :: ChildAt(t, x, i))
  }

  /** Slot i with a parent is in use, and so is the parent; a slot in use has a pid of its own. */
  lemma Family(s: State, i: nat)
    requires Inv(s) && i < |s.t|
    ensures s.t[i].parent != NULL ==>
              SlotAddress(s.t, s.t[i].parent) && Live(s.t[s.t[i].parent]) && !s.t[i].state.UNUSED?
    ensures !s.t[i].state.UNUSED? ==> forall j :: 0 <= j < |s.t| && j != i ==> s.t[j].pid != s.t[i].pid
  {
    assert ParentOk(s.t, i);
  }

  /** Where a step that leaves slot n in use, or frees it, keeps the others, children stay children. */
  lemma {:induction false} KinSame(s: State, t': Table, kin: map<nat, nat>)
    requires Inv(s) && KinOk(s.t, kin) && |t'| == |s.t|
    requires forall i :: 0 <= i < |t'| ==> t'[i].parent == s.t[i].parent
    requires forall i :: 0 <= i < |t'| && !s.t[i].state.UNUSED? ==> t'[i].pid == s.t[i].pid
    ensures KinOk(t', kin)
  {
    hide Inv;
    forall i | 0 <= i < |t'| ensures KidOk(t', kin, i) {
      Family(s, i);
      assert KidOk(s.t, kin, i);
    }
    forall x | x in kin ensures exists i :: ChildAt(t', x, i) {
      var i :| ChildAt(s.t, x, i);
      Family(s, i);
      assert ChildAt(t', x, i);
    }
  }

  lemma {:induction false} KinSetParent(s: State, cur: nat, kin: map<nat, nat>)
    requires Inv(s) && Enabled(s, SetParent(cur)) && KinOk(s.t, kin)
    ensures KinOk(Do(s, SetParent(cur)).t, KinNext(s, SetParent(cur), kin))
  {
    hide Inv;
    EmbryoFacts(s, cur);
    var t', kin', n := Do(s, SetParent(cur)).t, KinNext(s, SetParent(cur), kin), s.forking[cur];
    Family(s, n);
    forall i | 0 <= i < |t'| ensures KidOk(t', kin', i) {
      Family(s, i);
      assert KidOk(s.t, kin, i);
    }
    forall x | x in kin' ensures exists i :: ChildAt(t', x, i) {
      if x == s.t[n].pid {
        assert ChildAt(t', x, n);
      } else {
        var i :| ChildAt(s.t, x, i);
        assert ChildAt(t', x, i);
      }
    }
  }

  lemma {:induction false} KinExit(s: State, cur: nat, kin: map<nat, nat>)
    requires Inv(s) && Enabled(s, Exit(cur)) && KinOk(s.t, kin)
    ensures KinOk(Do(s, Exit(cur)).t, KinNext(s, Exit(cur), kin))
  {
    InitThere(s);
    hide Inv, Exited;
    var t', kin' := Do(s, Exit(cur)).t, KinNext(s, Exit(cur), kin);
    Family(s, cur);
    forall i | 0 <= i < |t'| ensures KidOk(t', kin', i) {
      Family(s, i);
      assert KidOk(s.t, kin, i);
      ExitSlot(s.t, cur, i);
      ExitSlot(s.t, cur, INIT);
      if s.t[i].parent != NULL {
        ExitSlot(s.t, cur, s.t[i].parent);
      }
    }
    forall x | x in kin' ensures exists i :: ChildAt(t', x, i) {
      var i :| ChildAt(s.t, x, i);
      ExitSlot(s.t, cur, i);
      assert ChildAt(t', x, i);
    }
  }

  lemma InitThere(s: State)
    requires Inv(s)
    ensures INIT < |s.t| && Live(s.t[INIT])
  {
  }

  lemma {:induction false} KinWait(s: State, cur: nat, kin: map<nat, nat>)
    requires Inv(s) && Enabled(s, Wait(cur)) && KinOk(s.t, kin) && WaitPass(s.t, cur).0.Child?
    ensures KinOk(Do(s, Wait(cur)).t, KinNext(s, Wait(cur), kin))
  {
    hide Inv;
    var t', kin', n := Do(s, Wait(cur)).t, KinNext(s, Wait(cur), kin), FirstZombie(s.t, cur, 0);
    Family(s, n);
    forall i | 0 <= i < |t'| ensures KidOk(t', kin', i) {
      Family(s, i);
      assert KidOk(s.t, kin, i);
    }
    forall x | x in kin' ensures exists i :: ChildAt(t', x, i) {
      var i :| ChildAt(s.t, x, i);
      assert ChildAt(t', x, i);
    }
  }

  lemma {:induction false} KinKeep(s: State, act: Action, kin: map<nat, nat>)
    requires Inv(s) && Enabled(s, act) && KinOk(s.t, kin)
    ensures KinOk(Do(s, act).t, KinNext(s, act, kin))
  {
    hide Inv, KinOk;
    if act.SetParent? {
      KinSetParent(s, act.cur, kin);
    } else if act.Exit? {
      KinExit(s, act.cur, kin);
    } else if act.Wait? && WaitPass(s.t, act.cur).0.Child? {
      KinWait(s, act.cur, kin);
    } else {
      KinSame(s, Do(s, act).t, kin);
    }
  }

  lemma {:induction false} KinRun(states: seq<State>, acts: seq<Action>, k: nat)
    requires Run(states, acts) && k < |states|
    ensures KinOk(states[k].t, Kin(states, acts, k))
  {
    hide Inv, Enabled, Do, KinNext;
    if k > 0 {
      KinRun(states, acts, k - 1);
      RunInv(states, acts, k - 1);
      KinKeep(states[k - 1], acts[k - 1], Kin(states, acts, k - 1));
    } else {
      BootKin(states[0]);
    }
  }

  lemma BootKin(s: State)
    requires Boot(s)
    ensures KinOk(s.t, map[])
  {
  }

  /** The children, by pid, of the process in slot cur, as the forks, exits and waits so far make them. */
  ghost function Kids(states: seq<State>, acts: seq<Action>, k: nat, cur: nat): set<nat>
    requires Run(states, acts) && k < |states| && cur < |states[k].t|
  {
    set x | x in Kin(states, acts, k) && Kin(states, acts, k)[x] == states[k].t[cur].pid
  }

  /**
   wait over whole runs: it returns a child that has exited if there is one; else -1 exactly when there
   is no child or the process has been killed; else it sleeps.
   */
  lemma {:induction false} WaitIff(states: seq<State>, acts: seq<Action>, k: nat)
    requires Run(states, acts) && k < |acts| && acts[k].Wait? && acts[k].cur < |states[k].t|
    ensures var r := WaitPass(states[k].t, acts[k].cur).0;
            var kids, exited := Kids(states, acts, k, acts[k].cur), states[k].exited;
            match r
            case Child(pid) => pid in kids && pid in exited
            case NoChildren => kids !! exited && (kids == {} || states[k].t[acts[k].cur].killed)
            case MustSleep => kids !! exited && kids != {} && !states[k].t[acts[k].cur].killed
  {
    RunInv(states, acts, k);
    KinRun(states, acts, k);
    var s, cur := states[k], acts[k].cur;
    assert s.t[cur].state.RUNNING?;
    hide Run, Inv, Kin;
    var kin := Kin(states, acts, k);
    forall i | 0 <= i < |s.t| && s.t[i].parent == cur
      ensures s.t[i].pid in Kids(states, acts, k, cur) && (s.t[i].pid in s.exited <==> s.t[i].state.ZOMBIE?)
    {
      assert KidOk(s.t, kin, i);
      ExitedHere(s, i);
    }
    forall x | x in Kids(states, acts, k, cur)
      ensures exists i :: 0 <= i < |s.t| && s.t[i].parent == cur && s.t[i].pid == x
    {
      var i :| ChildAt(s.t, x, i);
      assert KidOk(s.t, kin, i);
      Family(s, cur);
    }
  }

  /** A process has exited exactly when its slot is a ZOMBIE. */
  lemma ExitedHere(s: State, i: nat)
    requires Inv(s) && i < |s.t|
    ensures s.t[i].state.ZOMBIE? <==> s.t[i].pid in s.exited
  {
  }

  // ----- fork -----

  /** Process cur is inside fork, with an embryo in slot n under the given pid. */
  ghost predicate Forking(s: State, cur: nat, n: nat, pid: nat) {
    cur in s.forking && s.forking[cur] == n && n < |s.t| && s.t[n].pid == pid
  }

  lemma {:induction false} ForkingKeep(s: State, act: Action, cur: nat, n: nat, pid: nat)
    requires Inv(s) && Enabled(s, act) && Forking(s, cur, n, pid) && act != ForkFails(cur) && act != Publish(cur)
    ensures Forking(Do(s, act), cur, n, pid)
  {
    hide Inv, Exited;
    EmbryoFacts(s, cur);
    match act
    case Exit(c) => ExitSlot(s.t, c, n);
    case _ =>
  }

  /** fork over whole runs: the child made ready is the one allocated, under the next pid, as a child of the caller. */
  lemma {:induction false} ForkMakes(states: seq<State>, acts: seq<Action>, j: nat, k: nat, cur: nat)
    requires Run(states, acts) && j < k < |acts| && acts[j] == Alloc(cur) && acts[k] == Publish(cur)
    requires forall m :: j < m < k ==> acts[m] != ForkFails(cur) && acts[m] != Publish(cur)
    ensures var n, t := FirstUnused(states[j].t, 0), states[k + 1].t;
            n < |t| && t[n].state.RUNNABLE? && t[n].pid == states[j].nextpid && t[n].parent == cur
    ensures states[k + 1].forking == states[k].forking - {cur}
  {
    var n := FirstUnused(states[j].t, 0);
    assert Enabled(states[j], acts[j]) && Forking(states[j + 1], cur, n, states[j].nextpid);
    ForkingTo(states, acts, j + 1, k, cur, n, states[j].nextpid);
    assert Enabled(states[k], acts[k]) && states[k + 1] == Do(states[k], acts[k]);
  }

  lemma {:induction false} ForkingTo(states: seq<State>, acts: seq<Action>, j: nat, k: nat, cur: nat, n: nat, pid: nat)
    requires Run(states, acts) && j <= k <= |acts| && Forking(states[j], cur, n, pid)
    requires forall m :: j <= m < k ==> acts[m] != ForkFails(cur) && acts[m] != Publish(cur)
    ensures Forking(states[k], cur, n, pid)
    decreases k
  {
    hide Inv, Enabled, Do, Forking, Boot;
    if j < k {
      ForkingTo(states, acts, j, k - 1, cur, n, pid);
      RunInv(states, acts, k - 1);
      ForkingKeep(states[k - 1], acts[k - 1], cur, n, pid);
    }
  }

  ghost predicate EmbryosOwned(s: State) {
    forall i :: 0 <= i < |s.t| && s.t[i].state.EMBRYO? ==> exists c :: c in s.forking && s.forking[c] == i
  }

  lemma {:induction false} OwnedKeep(s: State, act: Action)
    requires Inv(s) && EmbryosOwned(s) && Enabled(s, act)
    ensures EmbryosOwned(Do(s, act))
  {
    hide Inv;
    var s' := Do(s, act);
    forall i | 0 <= i < |s'.t| && s'.t[i].state.EMBRYO? ensures exists c :: c in s'.forking && s'.forking[c] == i {
      if act.Alloc? && i == FirstUnused(s.t, 0) {
        assert s'.forking[act.cur] == i;
      } else {
        if act.Exit? {
          ExitSlot(s.t, act.cur, i);
        }
        assert s.t[i].state.EMBRYO?;
        var c :| c in s.forking && s.forking[c] == i;
        assert c in s'.forking && s'.forking[c] == i;
      }
    }
  }

  /** In every run each half-made process belongs to one that is inside fork: none is left behind. */
  lemma {:induction false} NoLostEmbryo(states: seq<State>, acts: seq<Action>, k: nat)
    requires Run(states, acts) && k < |states|
    ensures EmbryosOwned(states[k])
  {
    hide Inv, Enabled, Do;
    if k > 0 {
      NoLostEmbryo(states, acts, k - 1);
      RunInv(states, acts, k - 1);
      OwnedKeep(states[k - 1], acts[k - 1]);
    }
  }

  // ----- who was killed -----

  ghost predicate UsesPid(s: State, x: nat, i: nat) {
    i < |s.t| && s.t[i].pid == x && !s.t[i].state.UNUSED?
  }

  /** Step m was a kill of the process x, which was there. */
  ghost predicate KilledAt(states: seq<State>, acts: seq<Action>, x: nat, m: nat) {
    m < |acts| && m < |states| && acts[m] == Kill(x) && exists i :: UsesPid(states[m], x, i)
  }

  ghost predicate KilledBefore(states: seq<State>, acts: seq<Action>, x: nat, k: nat) {
    exists m :: 0 <= m < k && KilledAt(states, acts, x, m)
  }

  /** The mark of a process in use changes by a kill of its pid only. */
  lemma {:induction false} MarkStep(s: State, act: Action, i: nat)
    requires Inv(s) && FreeUnmarked(s.t) && Enabled(s, act) && i < |s.t| && !Do(s, act).t[i].state.UNUSED?
    ensures var y := Do(s, act).t[i];
            if s.t[i].state.UNUSED? then act.Alloc? && y.pid == s.nextpid && !y.killed
            else y.pid == s.t[i].pid && (y.killed <==> s.t[i].killed || act == Kill(s.t[i].pid))
  {
    hide Inv, Exited;
    match act
    case Exit(cur) =>
      ExitSlot(s.t, cur, i);
      ExitMark(s.t, cur, i);
    case Kill(pid) => KillSlot(s, pid, i);
    case ForkFails(cur) => EmbryoFacts(s, cur);
    case SetParent(cur) => EmbryoFacts(s, cur);
    case Publish(cur) => EmbryoFacts(s, cur);
    case _ =>
  }

  lemma {:induction false} PidsGrow(states: seq<State>, acts: seq<Action>, m: nat, k: nat)
    requires Run(states, acts) && m <= k < |states|
    ensures states[m].nextpid <= states[k].nextpid
    decreases k
  {
    hide Enabled, Boot;
    if m < k {
      PidsGrow(states, acts, m, k - 1);
    }
  }

  /** A pid not yet given out was never killed. */
  lemma {:induction false} FreshUnkilled(states: seq<State>, acts: seq<Action>, k: nat)
    requires Run(states, acts) && k < |states|
    ensures !KilledBefore(states, acts, states[k].nextpid, k)
  {
    var x := states[k].nextpid;
    hide Enabled, Do, Boot;
    forall m | 0 <= m < k ensures !KilledAt(states, acts, x, m) {
      RunInv(states, acts, m);
      PidsGrow(states, acts, m, k);
    }
  }

  /**
   Over whole runs in which no free slot was marked: a process is marked exactly when it was killed, by
   its pid, while it was there.
   */
  lemma {:induction false} KilledIff(states: seq<State>, acts: seq<Action>, k: nat, i: nat)
    requires Run(states, acts) && k < |states| && NoMarks(states, acts, k)
    requires i < |states[k].t| && !states[k].t[i].state.UNUSED?
    ensures states[k].t[i].killed <==> KilledBefore(states, acts, states[k].t[i].pid, k)
  {
    hide Enabled, Do, Inv, Boot, Marks;
    if k == 0 {
      BootUnkilled(states[0], i);
    } else {
      var s, act, x := states[k - 1], acts[k - 1], states[k].t[i].pid;
      RunInv(states, acts, k - 1);
      UnmarkedRun(states, acts, k - 1);
      assert FreeUnmarked(s.t);
      MarkStep(s, act, i);
      KilledNext(states, acts, x, k - 1);
      if s.t[i].state.UNUSED? {
        FreshUnkilled(states, acts, k - 1);
      } else {
        KilledIff(states, acts, k - 1, i);
        assert UsesPid(s, x, i);
      }
    }
  }

  lemma KilledNext(states: seq<State>, acts: seq<Action>, x: nat, k: nat)
    ensures KilledBefore(states, acts, x, k + 1) <==> KilledBefore(states, acts, x, k) || KilledAt(states, acts, x, k)
  {
    hide KilledAt;
    if KilledBefore(states, acts, x, k + 1) {
      var m :| 0 <= m < k + 1 && KilledAt(states, acts, x, m);
    }
  }

  lemma BootUnkilled(s: State, i: nat)
    requires Boot(s) && i < |s.t|
    ensures !s.t[i].killed
  {
  }
}
