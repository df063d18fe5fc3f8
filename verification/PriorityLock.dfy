/**
 The priority lock of spinlock.c: waiters sit in a linked list in descending pid
 order, and a released lock goes to the head of the list.
 */
module PriorityLock {

  import opened Basics

  // ----- the waiter queue as a sequence of pids -----

  ghost predicate Descending(q: seq<int>) {
    forall i, j :: 0 <= i < j < |q| ==> q[i] > q[j]
  }

  /** Where add_queue's loop stops: the first position from k on that is not above pid. */
  ghost function StopAt(q: seq<int>, k: nat, pid: int): (i: nat)
    requires k <= |q|
    ensures k <= i <= |q| && (i < |q| ==> q[i] <= pid)
    ensures forall j :: k <= j < i ==> q[j] > pid
    decreases |q| - k
  {
    if k == |q| || q[k] <= pid then k else StopAt(q, k + 1, pid)
  }

  /** The sequence with x put in at position i. */
  ghost function Put<T>(s: seq<T>, i: nat, x: T): (r: seq<T>)
    requires i <= |s|
    ensures |r| == |s| + 1 && r[i] == x
    ensures forall j :: 0 <= j < i ==> r[j] == s[j]
    ensures forall j :: i < j < |r| ==> r[j] == s[j - 1]
    ensures x in r && (forall y :: y in r ==> y in s || y == x) && forall y :: y in s ==> y in r
  {
    assert s == s[..i] + s[i..];
    s[..i] + [x] + s[i..]
  }

  /** add_queue: before the head if that is below, else behind it. */
  ghost function Insert(q: seq<int>, pid: int): (r: seq<int>)
  {
    if q == [] || q[0] < pid then Put(q, 0, pid) else Put(q, StopAt(q, 1, pid), pid)
  }

  /** Position of pid, or |q|. */
  ghost function Find(q: seq<int>, pid: int): (i: nat)
    ensures i <= |q| && (i < |q| ==> q[i] == pid)
    ensures forall j :: 0 <= j < i ==> q[j] != pid
  {
    if q == [] || q[0] == pid then 0 else 1 + Find(q[1..], pid)
  }

  /** rm_queue of a queued pid. */
  ghost function Remove(q: seq<int>, pid: int): seq<int>
    requires pid in q
  {
    RemoveAt(q, Find(q, pid))
  }

  lemma InsertBetween(q: seq<int>, i: nat, pid: int)
    requires Descending(q) && i <= |q| && (i < |q| ==> q[i] < pid) && (i > 0 ==> q[i - 1] > pid)
    ensures Descending(Put(q, i, pid))
  {
    hide Put;
    var r := Put(q, i, pid);
    forall a, b | 0 <= a < b < |r| ensures r[a] > r[b] {
      assert a < i ==> q[a] >= q[i - 1];
      assert b > i ==> q[i] >= q[b - 1];
    }
  }

  /** A new pid keeps the queue in strictly descending order. */
  lemma InsertSorted(q: seq<int>, pid: int)
    requires Descending(q) && pid !in q
    ensures Descending(Insert(q, pid))
    ensures forall x :: x in Insert(q, pid) <==> x in q || x == pid
  {
    hide Put;
    if q != [] {
      var i := if q[0] < pid then 0 else StopAt(q, 1, pid);
      assert q[if i > 0 then i - 1 else 0] in q && (i < |q| ==> q[i] in q);
      InsertBetween(q, i, pid);
    }
  }

  lemma RemoveHead(q: seq<int>, pid: int)
    requires Descending(q) && pid in q
    ensures Descending(Remove(q, pid))
    ensures forall x :: x in Remove(q, pid) <==> x in q && x != pid
  {
    hide RemoveAt;
    assert Remove(q, pid) == RemoveAt(q, Find(q, pid));
  }

  // ----- the queue in memory -----

  /** struct queue. */
  class Node {
    var pid: int
    var next: Node?

    constructor (pid: int, next: Node?)
      ensures this.pid == pid && this.next == next
    {
      this.pid, this.next := pid, next;
    }
  }

  class Waiters {
    var head: Node?
    ghost var nodes: seq<Node>
    ghost var pids: seq<int>     // the pids in list order

    ghost function At(i: nat): Node?
      reads this
    {
      if i < |nodes| then nodes[i] else null
    }

    ghost predicate Valid()
      reads this, nodes
    {
      && (forall i, j :: 0 <= i < j < |nodes| ==> nodes[i] != nodes[j])
      && head == At(0)
      && (forall i {:trigger nodes[i].next} :: 0 <= i < |nodes| ==> nodes[i].next == At(i + 1))
      && |pids| == |nodes| && (forall i :: 0 <= i < |nodes| ==> nodes[i].pid == pids[i])
    }

    constructor ()
      ensures Valid() && pids == []
    {
      head, nodes, pids := null, [], [];
    }

    /** add_queue's loop: the last node the new one goes behind. */
    method LastAbove(pid: int) returns (temp: Node, ghost i: nat)
      requires Valid() && head != null
      ensures i < |nodes| && temp == nodes[i] && i + 1 == StopAt(pids, 1, pid)
    {
      temp, i := head, 0;
      while temp.next != null && temp.next.pid > pid
        invariant 0 <= i < |nodes| && temp == nodes[i]
        invariant StopAt(pids, 1, pid) == StopAt(pids, i + 1, pid)
        decreases |nodes| - i
      {
        temp, i := temp.next, i + 1;
      }
      assert temp.next == At(i + 1);
    }

    /** Splicing a detached node behind nodes[i]. */
    method LinkBehind(temp: Node, res: Node, ghost i: nat)
      requires Valid() && i < |nodes| && temp == nodes[i] && res !in nodes
      modifies this, temp, res
      ensures nodes == Put(old(nodes), i + 1, res)
      ensures Valid() && pids == Put(old(pids), i + 1, old(res.pid))
    {
      hide Put;
      res.next := temp.next;
      temp.next := res;
      nodes, pids := Put(nodes, i + 1, res), Put(pids, i + 1, res.pid);
    }

    /** add_queue: a fresh node is spliced in where Insert puts it. */
    method AddQueue(pid: int)
      requires Valid()
      modifies this, nodes
      ensures Valid() && pids == Insert(old(pids), pid)
      ensures forall x :: x in nodes && x !in old(nodes) ==> fresh(x)
    {
      hide Put;
      var res := new Node(pid, null);
      if head == null {
        head := res;
        nodes, pids := Put(nodes, 0, res), Put(pids, 0, pid);
      } else if head.pid < res.pid {
        res.next := head;
        head := res;
        nodes, pids := Put(nodes, 0, res), Put(pids, 0, pid);
      } else {
        var temp, i := LastAbove(res.pid);
        LinkBehind(temp, res, i);
      }
    }

    /** Unlinking nodes[i + 1], reached through its predecessor. */
    method UnlinkBehind(temp: Node, ghost i: nat)
      requires Valid() && i + 1 < |nodes| && temp == nodes[i] && temp.next != null
      modifies this, temp
      ensures Valid() && pids == RemoveAt(old(pids), i + 1)
    {
      hide RemoveAt;
      assert temp.next == At(i + 1);
      temp.next := temp.next.next;
      nodes, pids := RemoveAt(nodes, i + 1), RemoveAt(pids, i + 1);
    }

    /** rm_queue: unlinks the node of pid; false stands for its panics. */
    method RmQueue(pid: int) returns (ok: bool)
      requires Valid()
      modifies this, nodes
      ensures Valid() && ok == (pid in old(pids))
      ensures pids == if ok then Remove(old(pids), pid) else old(pids)
    {
      hide RemoveAt;
      if head == null {
        return false;
      }
      var temp := head;
      if temp.pid == pid {
        head := temp.next;
        nodes, pids := RemoveAt(nodes, 0), RemoveAt(pids, 0);
        return true;
      }
      ghost var i := 0;
      while temp.next != null
        invariant 0 <= i < |nodes| && temp == nodes[i]
        invariant forall j :: 0 <= j <= i ==> pids[j] != pid
        invariant Valid() && nodes == old(nodes) && pids == old(pids)
        decreases |nodes| - i
      {
        assert temp.next == At(i + 1);
        if temp.next.pid != pid {
          temp, i := temp.next, i + 1;
        } else {
          assert pids[i + 1] in pids && Find(pids, pid) == i + 1;
          UnlinkBehind(temp, i);
          return true;
        }
      }
      return false;
    }
  }

  // ----- the protocol -----

  /** Lock word, queue, and which processes wait in prior_acquire or hold the lock. */
  datatype State = State(locked: bool, queue: seq<int>, waiting: set<int>, holding: set<int>)

  /** Try is one pass of prior_acquire's loop under queue_lock. */
  datatype Action = Enqueue(p: int) | Try(p: int) | Release(p: int)

  ghost predicate Enabled(s: State, act: Action) {
    match act
    case Enqueue(p) => p !in s.waiting && p !in s.holding
    case Try(p) => p in s.waiting
    case Release(p) => p in s.holding
  }

  /** The test of prior_acquire: at the head, and the exchange found the lock free. */
  ghost predicate Granted(s: State, act: Action) {
    act.Try? && s.queue != [] && s.queue[0] == act.p && !s.locked
  }

  ghost function Do(s: State, act: Action): State
    requires Enabled(s, act)
  {
    match act
    case Enqueue(p) => s.(queue := Insert(s.queue, p), waiting := s.waiting + {p})
    case Try(p) =>
      if Granted(s, act) then
        s.(locked := true, queue := if p in s.queue then Remove(s.queue, p) else s.queue,
           waiting := s.waiting - {p}, holding := s.holding + {p})
      else s
    case Release(p) => s.(locked := false, holding := s.holding - {p})
  }

  ghost predicate Inv(s: State) {
    && Descending(s.queue)
    && (forall p :: p in s.queue <==> p in s.waiting)
    && s.waiting !! s.holding
    && (s.locked <==> s.holding != {})
    && (forall p, q :: p in s.holding && q in s.holding ==> p == q)
  }

  ghost predicate Run(states: seq<State>, acts: seq<Action>) {
    && |states| == |acts| + 1 && states[0] == State(false, [], {}, {})
    && forall k :: 0 <= k < |acts| ==> Enabled(states[k], acts[k]) && states[k + 1] == Do(states[k], acts[k])
  }

  lemma Keep(s: State, act: Action)
    requires Inv(s) && Enabled(s, act)
    ensures Inv(Do(s, act))
  {
    if act.Enqueue? {
      InsertSorted(s.queue, act.p);
    } else if Granted(s, act) {
      assert s.queue[0] in s.queue;
      RemoveHead(s.queue, act.p);
    } else if act.Release? {
      forall x | x in s.holding ensures x == act.p {
        assert act.p in s.holding;
      }
    }
  }

  /**
   In every run of any number of processes: the queue is in descending pid order
   and holds each waiter exactly once, at most one process holds the lock, and
   the lock word says whether one does.
   */
  lemma {:induction false} RunInv(states: seq<State>, acts: seq<Action>, k: nat)
    requires Run(states, acts) && k < |states|
    ensures Inv(states[k])
  {
    if k > 0 {
      RunInv(states, acts, k - 1);
      Keep(states[k - 1], acts[k - 1]);
    }
  }

  /** A pass of the loop finds the list nonempty, and rm_queue finds the pid it removes. */
  lemma NoPanic(states: seq<State>, acts: seq<Action>, k: nat)
    requires Run(states, acts) && k < |acts| && acts[k].Try?
    ensures states[k].queue != []
    ensures Granted(states[k], acts[k]) ==> acts[k].p in states[k].queue
  {
    RunInv(states, acts, k);
    assert acts[k].p in states[k].queue;
  }

  /** Each grant goes to the highest pid then waiting. */
  lemma GrantToHighest(states: seq<State>, acts: seq<Action>, k: nat)
    requires Run(states, acts) && k < |acts| && Granted(states[k], acts[k])
    ensures acts[k].p in states[k].waiting && forall q :: q in states[k].waiting ==> q <= acts[k].p
  {
    RunInv(states, acts, k);
    forall q | q in states[k].waiting ensures q <= acts[k].p {
      assert q in states[k].queue;
    }
  }

  /** And no grant is withheld: a pass gives the lock exactly when it is free and nobody higher waits. */
  lemma GrantIff(states: seq<State>, acts: seq<Action>, k: nat)
    requires Run(states, acts) && k < |acts| && acts[k].Try?
    ensures acts[k].p in states[k + 1].holding <==>
            states[k].holding == {} && forall q :: q in states[k].waiting ==> q <= acts[k].p
    ensures states[k + 1].waiting == states[k].waiting - states[k + 1].holding
  {
    RunInv(states, acts, k);
    var s, p := states[k], acts[k].p;
    assert states[k + 1] == Do(s, acts[k]);
    assert p in s.queue && s.queue[0] in s.queue;
    if Granted(s, acts[k]) {
      forall q | q in s.waiting ensures q <= p {
        assert q in s.queue;
      }
    }
  }

  /** A waiter stays queued until it is granted the lock itself. */
  lemma {:induction false} StaysQueued(states: seq<State>, acts: seq<Action>, i: nat, k: nat)
    requires Run(states, acts) && i < k <= |acts| && acts[i].Enqueue?
    requires forall m :: i < m < k && acts[m] == Try(acts[i].p) ==> !Granted(states[m], acts[m])
    ensures acts[i].p in states[k].waiting
  {
    if k == i + 1 {
      assert states[i + 1] == Do(states[i], acts[i]);
    } else {
      StaysQueued(states, acts, i, k - 1);
      assert states[k] == Do(states[k - 1], acts[k - 1]);
      RunInv(states, acts, k - 1);
    }
  }

  /** Between a process's arrival and its grant, only processes with higher pids get the lock. */
  lemma OvertakenOnlyByHigher(states: seq<State>, acts: seq<Action>, i: nat, k: nat)
    requires Run(states, acts) && i < k < |acts| && acts[i].Enqueue?
    requires forall m :: i < m < k && acts[m] == Try(acts[i].p) ==> !Granted(states[m], acts[m])
    requires Granted(states[k], acts[k]) && acts[k].p != acts[i].p
    ensures acts[k].p > acts[i].p
  {
    StaysQueued(states, acts, i, k);
    GrantToHighest(states, acts, k);
  }
}
