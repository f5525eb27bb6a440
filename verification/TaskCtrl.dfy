/**
 * The task lists of one CPU as `TaskCtrl` keeps them (source/kernel/task.cc, source/kernel/task.h):
 * two doubly linked lists, each behind a guard node, and the status of every task.
 */
module TaskCtrl {
  import opened Lists
  import opened TaskQueue

  datatype Status = Running | WaitingInQueue | OutOfQueue | Guard

  class Task {
    var next: Task?
    var prev: Task?
    var status: Status

    constructor (status: Status)
      ensures next == null && prev == null && this.status == status
    {
      this.next, this.prev, this.status := null, null, status;
    }
  }

  /** `l` is a guard followed by the linked tasks: the links agree with the order in both directions. */
  ghost predicate Linked(l: seq<Task>)
    reads l
  {
    && |l| > 0
    && l[0].status == Guard
    && (forall i :: 0 <= i < |l| ==> l[i].next == if i + 1 < |l| then l[i + 1] else null)
    && (forall i :: 0 < i < |l| ==> l[i].prev == l[i - 1] && l[i].status == WaitingInQueue)
  }

  ghost function Members(l: seq<Task>): set<Task> {
    set t | t in l
  }

  /**
   * Two lists with their guards: members are known tasks, guards are not, nothing occurs twice, and
   * `queued` is the set of members.
   */
  ghost predicate GoodLists(main: seq<Task>, sub: seq<Task>, tasks: set<Task>, queued: set<Task>)
    ensures GoodLists(main, sub, tasks, queued) ==> |main| > 0 && |sub| > 0
  {
    && |main| > 0 && main[0] !in tasks && (forall i :: 0 < i < |main| ==> main[i] in tasks)
    && |sub| > 0 && sub[0] !in tasks && (forall i :: 0 < i < |sub| ==> sub[i] in tasks)
    && Distinct(main) && Distinct(sub)
    && (forall i, j :: 0 <= i < |main| && 0 <= j < |sub| ==> main[i] != sub[j])
    && queued == Members(main[1..]) + Members(sub[1..])
  }

  /** What a method needs to know about a list it works on. */
  lemma GoodList(main: seq<Task>, sub: seq<Task>, tasks: set<Task>, queued: set<Task>)
    requires GoodLists(main, sub, tasks, queued)
    ensures Distinct(main) && Distinct(sub) && queued <= tasks
    ensures (forall t :: t in main ==> t == main[0] || t in tasks) && (forall t :: t in sub ==> t == sub[0] || t in tasks)
    ensures forall t :: t in main ==> t !in sub
    ensures forall t :: t in tasks && t !in queued ==> t !in main && t !in sub
  {
  }

  lemma GoodAppend(main: seq<Task>, sub: seq<Task>, tasks: set<Task>, queued: set<Task>, task: Task)
    requires GoodLists(main, sub, tasks, queued) && task in tasks && task !in queued
    ensures GoodLists(main, sub + [task], tasks, queued + {task})
    ensures (sub + [task])[1..] == sub[1..] + [task]
  {
    GoodList(main, sub, tasks, queued);
    assert (sub + [task])[1..] == sub[1..] + [task];
  }

  lemma WithoutSet(l: seq<Task>, i: nat)
    requires Distinct(l) && i < |l|
    ensures Members(Without(l, i)) == Members(l) - {l[i]}
  {
  }

  lemma DistinctWithout(l: seq<Task>, i: nat)
    requires Distinct(l) && 0 < i < |l|
    ensures Distinct(Without(l, i)) && Distinct(l[1..]) && l[i] !in Without(l, i)
    ensures Without(l, i)[1..] == Without(l[1..], i - 1) && l[1..][i - 1] == l[i]
  {
  }

  lemma GoodWithout(main: seq<Task>, sub: seq<Task>, tasks: set<Task>, queued: set<Task>, i: nat)
    requires GoodLists(main, sub, tasks, queued) && 0 < i < |main|
    ensures GoodLists(Without(main, i), sub, tasks, queued - {main[i]}) && main[i] in queued
    ensures |Without(main, i)| == |main| - 1 && main[i] !in Without(main, i) && main[i] !in sub
    ensures Without(main, i)[1..] == Without(main[1..], i - 1) && Without(main, i)[0] == main[0]
    ensures Without(main, i)[|main| - 2] == if i + 1 < |main| then main[|main| - 1] else main[i - 1]
  {
    hide Distinct;
    DistinctWithout(main, i);
    WithoutSet(main[1..], i - 1);
    assert main[i] in main[1..] && main[i] !in sub && main[i] !in sub[1..];
    assert main[i] in Members(main[1..]) && main[i] !in Members(sub[1..]);
  }

  /** Which end pointer a removal at the end of a list has to move. */
  lemma Bottoms(main: seq<Task>, sub: seq<Task>, tasks: set<Task>, queued: set<Task>, i: nat)
    requires GoodLists(main, sub, tasks, queued) && 0 < i < |main|
    ensures main[i] == main[|main| - 1] <==> i + 1 == |main|
    ensures main[i] != sub[|sub| - 1] && main[|main| - 1] != sub[|sub| - 1]
  {
  }

  lemma GoodSwap(main: seq<Task>, sub: seq<Task>, tasks: set<Task>, queued: set<Task>)
    requires GoodLists(main, sub, tasks, queued)
    ensures GoodLists(sub, main, tasks, queued)
  {
  }

  /** `l` is the list that `inMain` selects, `other` the other one; `m` and `s` are both without the task at `i`. */
  lemma TakenOut(main: seq<Task>, sub: seq<Task>, tasks: set<Task>, queued: set<Task>, inMain: bool, i: nat,
                 l: seq<Task>, other: seq<Task>, m: seq<Task>, s: seq<Task>)
    requires GoodLists(main, sub, tasks, queued) && 0 < i < |l|
    requires if inMain then l == main && other == sub else l == sub && other == main
    requires if inMain then m == Without(main, i) && s == sub else m == main && s == Without(sub, i)
    ensures GoodLists(l, other, tasks, queued) && l[i] in queued && {Last(main), Last(sub)} == {Last(l), Last(other)}
    ensures GoodLists(m, s, tasks, queued - {l[i]}) && m[0] == main[0] && s[0] == sub[0]
    ensures Last(m) == if Last(main) == Last(l) then Without(l, i)[|l| - 2] else Last(main)
    ensures Last(s) == if Last(sub) == Last(l) then Without(l, i)[|l| - 2] else Last(sub)
    ensures inMain ==> m[1..] == Without(main[1..], i - 1)
    ensures !inMain ==> s[1..] == Without(sub[1..], i - 1)
  {
    hide GoodLists, Distinct, Without;
    GoodSwap(main, sub, tasks, queued);
    if inMain {
      GoodWithout(main, sub, tasks, queued, i);
      Bottoms(main, sub, tasks, queued, i);
    } else {
      GoodWithout(sub, main, tasks, queued, i);
      GoodSwap(Without(sub, i), main, tasks, queued - {sub[i]});
      Bottoms(sub, main, tasks, queued, i);
    }
  }

  /** Links `task` behind `last`, the end of list `l`. */
  method LinkLast(last: Task, task: Task, ghost l: seq<Task>)
    requires Linked(l) && Distinct(l) && last == l[|l| - 1] && task !in l
    modifies last`next, task
    ensures Linked(l + [task])
  {
    task.next := null;
    task.status := WaitingInQueue;
    last.next := task;
    task.prev := last;
  }

  lemma NextOf(l: seq<Task>, i: nat)
    requires Linked(l) && i < |l|
    ensures l[i].next == (if i + 1 < |l| then l[i + 1] else null) && l[i].next == After(l, i) && l[0].status == Guard
    ensures i > 0 ==> l[i].prev == l[i - 1] && l[i].status == WaitingInQueue
  {
    assert forall k :: 0 <= k < |l| ==> l[k].next == if k + 1 < |l| then l[k + 1] else null;
  }

  /** Takes `task` out of the list `l`, where it has position `i`. */
  method Unlink(task: Task, ghost l: seq<Task>, ghost i: nat) returns (next: Task?, prev: Task)
    requires Linked(l) && Distinct(l) && 0 < i < |l| && l[i] == task
    modifies (set t | t in l)`next, (set t | t in l)`prev
    ensures Linked(Without(l, i)) && task.next == null && task.prev == null
    ensures prev == l[i - 1] && next == if i + 1 < |l| then l[i + 1] else null
  {
    hide Linked, Distinct, After;
    ghost var r := Without(l, i);
    forall j | 0 <= j < |l|
      ensures l[j].next == After(l, j) && (j > 0 ==> l[j].prev == l[j - 1] && l[j].status == WaitingInQueue)
      ensures (l[j] == task <==> j == i) && (l[j] == l[i - 1] <==> j == i - 1)
      ensures After(l, i) != null ==> (l[j] == After(l, i) <==> j == i + 1)
    {
      NextOf(l, j);
      OneAt(l, j, i);
      OneAt(l, j, i - 1);
      OneAfter(l, j, i);
    }
    NextOf(l, 0);
    NextIs(l, i);
    next := task.next;
    prev := task.prev;
    task.next := null;
    task.prev := null;
    prev.next := next;
    if next != null {
      next.prev := prev;
    }
    forall k | 0 <= k < |r| ensures r[k].next == After(r, k) {
      WithoutAfter(l, i, k);
      assert r[k] == l[if k < i then k else k + 1];
    }
    forall k | 0 < k < |r| ensures r[k].prev == r[k - 1] && r[k].status == WaitingInQueue {
      ghost var j := if k < i then k else k + 1;
      assert r[k] == l[j] && r[k - 1] == if k == i then l[i - 1] else l[j - 1];
    }
    IsLinked(r);
  }

  function After(l: seq<Task>, i: nat): Task? {
    if i + 1 < |l| then l[i + 1] else null
  }

  lemma NextIs(l: seq<Task>, i: nat)
    ensures After(l, i) == if i + 1 < |l| then l[i + 1] else null
  {
  }

  lemma IsLinked(l: seq<Task>)
    requires l != [] && l[0].status == Guard && forall j :: 0 <= j < |l| ==> l[j].next == After(l, j)
    requires forall j :: 0 < j < |l| ==> l[j].prev == l[j - 1] && l[j].status == WaitingInQueue
    ensures Linked(l)
  {
  }

  lemma OneAt(l: seq<Task>, j: nat, i: nat)
    requires Distinct(l) && j < |l| && i < |l|
    ensures l[j] == l[i] <==> j == i
  {
  }

  lemma OneAfter(l: seq<Task>, j: nat, i: nat)
    requires Distinct(l) && j < |l|
    ensures After(l, i) != null ==> (l[j] == After(l, i) <==> j == i + 1)
  {
  }

  lemma WithoutAfter(l: seq<Task>, i: nat, k: nat)
    requires 0 < i < |l| && k < |l| - 1
    ensures After(Without(l, i), k) == if k + 1 < i then After(l, k) else After(l, k + 1)
  {
  }

  class TaskStruct {
    var top: Task
    var bottom: Task
    var topSub: Task
    var bottomSub: Task
    ghost var main: seq<Task>         // the main list with its guard
    ghost var sub: seq<Task>          // the sub list with its guard
    ghost var queued: set<Task>       // the tasks in either list
    ghost const tasks: set<Task>      // every task of this CPU

    ghost function Repr(): set<object>
      reads this
    {
      tasks + {this, top, topSub}
    }

    /** The waiting tasks. */
    ghost function Q(): Queues<Task>
      reads this
      requires |main| > 0 && |sub| > 0
    {
      Queues(main[1..], sub[1..])
    }

    ghost predicate Valid()
      reads Repr()
    {
      && GoodLists(main, sub, tasks, queued)
      && main[0] == top && bottom == Last(main) && Linked(main)
      && sub[0] == topSub && bottomSub == Last(sub) && Linked(sub)
      && (forall t :: t in tasks ==> (t.status == WaitingInQueue <==> t in queued) && t.status != Guard)
    }

    constructor (ghost ts: set<Task>)
      requires forall t :: t in ts ==> t.status == OutOfQueue
      ensures Valid() && Q() == Queues([], []) && tasks == ts && fresh(top) && fresh(topSub)
    {
      tasks := ts;
      queued := {};
      var t := new Task(Guard);
      top, bottom, main := t, t, [t];
      t := new Task(Guard);
      topSub, bottomSub, sub := t, t, [t];
    }

    /** `Register`: panics on a queued task, otherwise appends to the sub list. */
    method Register(task: Task) returns (panic: bool)
      requires Valid() && task in tasks
      modifies Repr()
      ensures Valid() && top == old(top) && topSub == old(topSub)
      ensures panic == (old(task.status) == WaitingInQueue)
      ensures Q() == if panic then old(Q()) else Apply(old(Q()), TaskQueue.Register(task))
      ensures forall t :: t in tasks && t != task ==> t.status == old(t.status)
      ensures task.status == WaitingInQueue
    {
      hide GoodLists, Distinct, Linked;
      if task.status == WaitingInQueue {
        return true;
      }
      panic := false;
      GoodList(main, sub, tasks, queued);
      GoodAppend(main, sub, tasks, queued, task);
      assert bottomSub in sub && bottomSub !in main && task !in main;
      LinkLast(bottomSub, task, sub);
      assert Linked(main);
      bottomSub := task;
      SetLists(main, sub + [task], queued + {task});
    }

    /**
     * Takes the task at position `i` of the list `l` out of it, moving the end pointer that named it.
     * `other` is the list that stays.
     */
    method Detach(task: Task, st: Status, ghost l: seq<Task>, ghost other: seq<Task>, ghost i: nat)
      requires GoodLists(l, other, tasks, queued) && Linked(l) && Linked(other)
      requires 0 < i < |l| && l[i] == task
      requires l[0] in {top, topSub}
      requires {bottom, bottomSub} == {Last(l), Last(other)}
      modifies `bottom, `bottomSub, tasks, top, topSub
      ensures Linked(Without(l, i)) && Linked(other)
      ensures task.status == st && task.next == null && task.prev == null
      ensures unchanged(`top, `topSub, `main, `sub, `queued)
      ensures forall u :: u in tasks && u != task ==> u.status == old(u.status)
      ensures bottom == if old(bottom) == Last(l) then Without(l, i)[|l| - 2] else old(bottom)
      ensures bottomSub == if old(bottomSub) == Last(l) then Without(l, i)[|l| - 2] else old(bottomSub)
    {
      hide GoodLists, Distinct, Without, Linked;
      GoodList(l, other, tasks, queued);
      GoodWithout(l, other, tasks, queued, i);
      Bottoms(l, other, tasks, queued, i);
      var next, prev := Unlink(task, l, i);
      if next == null {
        if task == bottom {
          bottom := prev;
        } else if task == bottomSub {
          bottomSub := prev;
        } else {
          assert false;
        }
      }
      task.status := st;
    }

    /** Renews the ghost view of lists that are already linked as it says. */
    ghost method SetLists(m: seq<Task>, s: seq<Task>, q: set<Task>)
      requires GoodLists(m, s, tasks, q)
      requires m[0] == top && bottom == Last(m) && Linked(m)
      requires s[0] == topSub && bottomSub == Last(s) && Linked(s)
      requires forall t :: t in tasks ==> (t.status == WaitingInQueue <==> t in q) && t.status != Guard
      modifies `main, `sub, `queued
      ensures Valid() && main == m && sub == s && queued == q
    {
      hide GoodLists, Linked;
      main, sub, queued := m, s, q;
    }

    /** The same with the ghost view of the lists kept up to date. */
    method TakeOut(task: Task, st: Status, ghost inMain: bool, ghost i: nat)
      requires Valid() && 0 < i < |if inMain then main else sub| && (if inMain then main else sub)[i] == task
      requires st != WaitingInQueue && st != Guard
      modifies Repr()
      ensures Valid() && top == old(top) && topSub == old(topSub)
      ensures task.status == st && task.next == null && task.prev == null
      ensures Q() == if inMain then old(Q()).(main := Without(old(Q().main), i - 1))
                     else old(Q()).(sub := Without(old(Q().sub), i - 1))
      ensures forall u :: u in tasks && u != task ==> u.status == old(u.status)
    {
      hide GoodLists, Distinct, Without, Linked, Last;
      ghost var l, other := if inMain then main else sub, if inMain then sub else main;
      ghost var m, s := if inMain then Without(l, i) else main, if inMain then sub else Without(l, i);
      TakenOut(main, sub, tasks, queued, inMain, i, l, other, m, s);
      assert Linked(l) && Linked(other);
      Detach(task, st, l, other, i);
      assert Linked(m) && Linked(s);
      SetLists(m, s, queued - {task});
    }

    /** Where a queued task is found. */
    lemma Position(task: Task) returns (inMain: bool, i: nat)
      requires Valid() && task in queued
      ensures 0 < i < |if inMain then main else sub| && (if inMain then main else sub)[i] == task
    {
      inMain := task in main[1..];
      i :| 0 < i < |if inMain then main else sub| && (if inMain then main else sub)[i] == task;
    }

    lemma Head()
      requires Valid()
      ensures top.next == null <==> |main| == 1
      ensures |main| > 1 ==> top.next == main[1] == main[1..][0] && main[1] in tasks && main[1].status == WaitingInQueue
      ensures |main| > 1 ==> Without(main[1..], 0) == main[1..][1..]
    {
      NextOf(main, 0);
    }

    /** The pop in `Run`: the first task of the main list becomes running, unless the list is empty. */
    method PopFirst() returns (t: Task?)
      requires Valid()
      modifies Repr()
      ensures Valid() && top == old(top) && topSub == old(topSub)
      ensures t == null <==> old(Q().main) == []
      ensures t == null ==> Q() == old(Q())
      ensures t != null ==> t in tasks && t == old(Q().main)[0] && Q() == Apply(old(Q()), Pop) && t.status == Running
      ensures forall u :: u in tasks && u != t ==> u.status == old(u.status)
    {
      hide GoodLists, Distinct, Linked, Without;
      Head();
      t := top.next;
      if t != null {
        assert t.status == WaitingInQueue;
        TakeOut(t, Running, true, 1);
      }
    }

    lemma NotQueuedNotLinked(t: Task)
      requires Valid() && t in tasks && t.status != WaitingInQueue
      ensures t !in main && t !in sub && t != top && t != topSub
    {
    }

    /** Changes the status of a task that is in neither list. */
    method SetStatus(t: Task, st: Status)
      requires Valid() && t in tasks && t.status != WaitingInQueue && st != WaitingInQueue && st != Guard
      modifies t`status
      ensures Valid() && t.status == st
    {
      hide GoodLists, Distinct, Linked;
      NotQueuedNotLinked(t);
      t.status := st;
      assert Linked(main) && Linked(sub);
    }

    /** The end of an execution in `Run`: a task that did not queue itself again goes out of the queue. */
    method FinishExecution(t: Task)
      requires Valid() && t in tasks
      modifies t`status
      ensures Valid()
      ensures t.status == if old(t.status) == Running then OutOfQueue else old(t.status)
    {
      if t.status == Running {
        SetStatus(t, OutOfQueue);
      }
    }

    /** The swap in `Run`, or the decision to sleep when both lists are empty. */
    method SwapOrSleep() returns (sleep: bool)
      requires Valid()
      modifies this
      ensures Valid() && sleep == (Flat(old(Q())) == [])
      ensures Q() == if sleep then old(Q()) else Apply(old(Q()), Swap)
      ensures top == old(if sleep then top else topSub) && topSub == old(if sleep then topSub else top)
    {
      hide GoodLists, Distinct, Linked;
      NextOf(main, 0);
      NextOf(sub, 0);
      GoodSwap(main, sub, tasks, queued);
      sleep := top.next == null && topSub.next == null;
      if !sleep {
        top, topSub := topSub, top;
        bottom, bottomSub := bottomSub, bottom;
        SetLists(sub, main, queued);
      }
    }

    /** `Remove`: a waiting task leaves its list; a running one is marked so that it is not run again. */
    method Remove(task: Task) returns (ghost i: nat)
      requires Valid() && task in tasks
      modifies Repr()
      ensures Valid() && task.status == OutOfQueue
      ensures if old(task.status) == WaitingInQueue
              then i < |Flat(old(Q()))| && Flat(old(Q()))[i] == task && Q() == Apply(old(Q()), TaskQueue.Remove(i))
              else Q() == old(Q())
      ensures forall u :: u in tasks && u != task ==> u.status == old(u.status)
    {
      hide GoodLists, Distinct, Linked, Without;
      i := 0;
      if task.status == WaitingInQueue {
        ghost var inMain, k := Position(task);
        i := if inMain then k - 1 else |main| - 1 + k - 1;
        TakeOut(task, OutOfQueue, inMain, k);
      } else if task.status == Running {
        SetStatus(task, OutOfQueue);
      }
    }
  }
}
