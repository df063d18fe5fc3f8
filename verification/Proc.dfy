/**
 The process table of proc.c: allocproc, fork, exit, wait, kill and wakeup1.

 The class runs the table scans in place; each is proved equal to a function of
 the table.  Module ProcRun lets any number of processes interleave those
 functions, each atomic under ptable.lock.
 */
module Proc {

  import opened Basics

  datatype ProcState = UNUSED | EMBRYO | SLEEPING | RUNNABLE | RUNNING | ZOMBIE

  const NULL: int := -1

  /**
   struct proc; a parent or a channel that is the address of a table slot is the
   slot's index, a null pointer is NULL, and other channels are other integers.
   */
  datatype Proc = Proc(state: ProcState, pid: nat, parent: int, chan: int, killed: bool)

  type Table = seq<Proc>

  // ----- the scans as functions of the table -----

  ghost function FirstUnused(t: Table, k: nat): (i: nat)
    requires k <= |t|
    ensures k <= i <= |t| && (i < |t| ==> t[i].state.UNUSED?)
    ensures forall j :: k <= j < i ==> !t[j].state.UNUSED?
    decreases |t| - k
  {
    if k == |t| || t[k].state.UNUSED? then k else FirstUnused(t, k + 1)
  }

  /** kill's scan: the first slot with the pid, used or not. */
  ghost function FirstPid(t: Table, pid: nat, k: nat): (i: nat)
    requires k <= |t|
    ensures k <= i <= |t| && (i < |t| ==> t[i].pid == pid)
    ensures forall j :: k <= j < i ==> t[j].pid != pid
    decreases |t| - k
  {
    if k == |t| || t[k].pid == pid then k else FirstPid(t, pid, k + 1)
  }

  predicate Zombie(x: Proc, cur: nat) {
    x.parent == cur && x.state.ZOMBIE?
  }

  /** wait's scan: the first exited child. */
  ghost function FirstZombie(t: Table, cur: nat, k: nat): (i: nat)
    requires k <= |t|
    ensures k <= i <= |t| && (i < |t| ==> Zombie(t[i], cur))
    ensures forall j :: k <= j < i ==> !Zombie(t[j], cur)
    decreases |t| - k
  {
    if k == |t| || Zombie(t[k], cur) then k else FirstZombie(t, cur, k + 1)
  }

  function WakeOne(x: Proc, chan: int): Proc {
    if x.state.SLEEPING? && x.chan == chan then x.(state := RUNNABLE) else x
  }

  ghost function Woken(t: Table, chan: int): (r: Table)
    ensures |r| == |t|
  {
    seq(|t|, i requires 0 <= i < |t| => WakeOne(t[i], chan))
  }

  ghost function Allocated(t: Table, i: nat, pid: nat): (r: Table)
    requires i < |t|
  {
    t[i := t[i].(state := EMBRYO, pid := pid)]
  }

  ghost function Reaped(t: Table, i: nat): (r: Table)
    requires i < |t|
  {
    t[i := t[i].(pid := 0, parent := NULL, killed := false, state := UNUSED)]
  }

  ghost function Killed(t: Table, i: nat): (r: Table)
    requires i < |t|
  {
    t[i := t[i].(killed := true, state := if t[i].state.SLEEPING? then RUNNABLE else t[i].state)]
  }

  /** A slot after exit() has passed the children among the first k slots to init. */
  ghost function Orphaned(t: Table, cur: nat, init: nat, k: nat, i: nat): Proc
    requires k <= |t| && i < |t|
  {
    var x := if FirstZombie(t[..k], cur, 0) < k then WakeOne(t[i], init) else t[i];
    if i < k && t[i].parent == cur then x.(parent := init) else x
  }

  /** exit: the parent is woken, children go to init, which is woken for an exited one, and cur is a ZOMBIE. */
  ghost function Exited(t: Table, cur: nat, init: nat): (r: Table)
    requires cur < |t|
    ensures |r| == |t|
  {
    var w := Woken(t, t[cur].parent);
    seq(|t|, i requires 0 <= i < |t| =>
      if i == cur then Orphaned(w, cur, init, |t|, i).(state := ZOMBIE) else Orphaned(w, cur, init, |t|, i))
  }

  datatype WaitResult = Child(pid: nat) | NoChildren | MustSleep

  ghost predicate HasKids(t: Table, cur: nat) {
    exists i :: 0 <= i < |t| && t[i].parent == cur
  }

  /** One pass of wait's outer loop. */
  ghost function WaitPass(t: Table, cur: nat): (r: (WaitResult, Table))
    requires cur < |t|
    ensures |r.1| == |t|
  {
    var i := FirstZombie(t, cur, 0);
    if i < |t| then (Child(t[i].pid), Reaped(t, i))
    else if !HasKids(t, cur) || t[cur].killed then (NoChildren, t)
    else (MustSleep, t[cur := t[cur].(chan := cur, state := SLEEPING)])
  }

  // ----- the table in memory -----

  class ProcTable {
    const proc: array<Proc>
    var nextpid: nat

    constructor (n: nat)
      ensures fresh(proc) && proc.Length == n && nextpid == 1
      ensures forall i :: 0 <= i < n ==> proc[i] == Proc(UNUSED, 0, NULL, NULL, false)
    {
      proc := new Proc[n](_ => Proc(UNUSED, 0, NULL, NULL, false));
      nextpid := 1;
    }

    /** allocproc's locked part. */
    method AllocProc() returns (r: Option<nat>)
      modifies proc, this`nextpid
      ensures var i := FirstUnused(old(proc[..]), 0);
              if i < proc.Length then
                r == Some(i) && proc[..] == Allocated(old(proc[..]), i, old(nextpid)) && nextpid == old(nextpid) + 1
              else r == None && proc[..] == old(proc[..]) && nextpid == old(nextpid)
    {
      var p := 0;
      while p < proc.Length
        invariant 0 <= p <= proc.Length
        invariant FirstUnused(proc[..], 0) == FirstUnused(proc[..], p)
        invariant proc[..] == old(proc[..]) && nextpid == old(nextpid)
      {
        if proc[p].state == UNUSED {
          proc[p] := proc[p].(state := EMBRYO);
          proc[p] := proc[p].(pid := nextpid);
          nextpid := nextpid + 1;
          assert proc[..] == Allocated(old(proc[..]), p, old(nextpid));
          return Some(p);
        }
        p := p + 1;
      }
      return None;
    }

    method Wakeup1(chan: int)
      modifies proc
      ensures proc[..] == Woken(old(proc[..]), chan)
    {
      for p := 0 to proc.Length
        invariant forall i :: 0 <= i < proc.Length ==>
                    proc[i] == if i < p then WakeOne(old(proc[i]), chan) else old(proc[i])
      {
        if proc[p].state == SLEEPING && proc[p].chan == chan {
          proc[p] := proc[p].(state := RUNNABLE);
        }
      }
    }

    /** kill: whether some slot has the pid. */
    method Kill(pid: nat) returns (ok: bool)
      modifies proc
      ensures var i := FirstPid(old(proc[..]), pid, 0);
              ok == (i < proc.Length) && proc[..] == if ok then Killed(old(proc[..]), i) else old(proc[..])
    {
      var p := 0;
      while p < proc.Length
        invariant 0 <= p <= proc.Length
        invariant FirstPid(proc[..], pid, 0) == FirstPid(proc[..], pid, p)
        invariant proc[..] == old(proc[..])
      {
        if proc[p].pid == pid {
          proc[p] := proc[p].(killed := true);
          if proc[p].state == SLEEPING {
            proc[p] := proc[p].(state := RUNNABLE);
          }
          assert proc[..] == Killed(old(proc[..]), p);
          return true;
        }
        p := p + 1;
      }
      return false;
    }

    /** One pass of wait, ending in a reaped child, in -1, or in sleep. */
    method WaitOnce(cur: nat) returns (r: WaitResult)
      requires cur < proc.Length
      modifies proc
      ensures (r, proc[..]) == WaitPass(old(proc[..]), cur)
    {
      var havekids := false;
      var p := 0;
      while p < proc.Length
        invariant 0 <= p <= proc.Length && proc[..] == old(proc[..])
        invariant FirstZombie(proc[..], cur, 0) == FirstZombie(proc[..], cur, p)
        invariant havekids <==> exists i :: 0 <= i < p && proc[..][i].parent == cur
      {
        if proc[p].parent == cur {
          havekids := true;
          if proc[p].state == ZOMBIE {
            var pid := proc[p].pid;
            proc[p] := proc[p].(pid := 0, parent := NULL, killed := false, state := UNUSED);
            assert proc[..] == Reaped(old(proc[..]), p);
            return Child(pid);
          }
        }
        p := p + 1;
      }
      if !havekids || proc[cur].killed {
        return NoChildren;
      }
      proc[cur] := proc[cur].(chan := cur);
      proc[cur] := proc[cur].(state := SLEEPING);
      assert proc[..] == old(proc[..])[cur := old(proc[cur]).(chan := cur, state := SLEEPING)];
      return MustSleep;
    }

    /** exit's locked part. */
    method Exit(cur: nat, init: nat)
      requires cur < proc.Length
      modifies proc
      ensures proc[..] == Exited(old(proc[..]), cur, init)
    {
      Wakeup1(proc[cur].parent);
      ghost var w := proc[..];
      var p := 0;
      while p < proc.Length
        invariant 0 <= p <= proc.Length
        invariant forall i :: 0 <= i < proc.Length ==> proc[i] == Orphaned(w, cur, init, p, i)
      {
        ghost var before := proc[..];
        OrphanStep(w, cur, init, p);
        if proc[p].parent == cur {
          proc[p] := proc[p].(parent := init);
          if proc[p].state == ZOMBIE {
            Wakeup1(init);
          }
        }
        p := p + 1;
      }
      proc[cur] := proc[cur].(state := ZOMBIE);
    }
  }

  /** One round of exit's loop. */
  lemma OrphanStep(t: Table, cur: nat, init: nat, k: nat)
    requires k < |t|
    ensures forall i :: 0 <= i < |t| ==>
              var x := Orphaned(t, cur, init, k, i);
              var y := if i == k && x.parent == cur then x.(parent := init) else x;
              var z := Orphaned(t, cur, init, k, k);
              Orphaned(t, cur, init, k + 1, i) == if z.parent == cur && z.state.ZOMBIE? then WakeOne(y, init) else y
  {
  }
}
