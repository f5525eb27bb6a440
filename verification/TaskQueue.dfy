/**
 * The two task queues of one CPU (source/kernel/task.cc): what each operation does to the waiting
 * tasks, and what that means over a whole run of the scheduler.
 */
module TaskQueue {
  import opened Lists

  /** The tasks linked behind the guards `top` and `top_sub`. */
  datatype Queues<T> = Queues(main: seq<T>, sub: seq<T>)

  /** The one queue the two lists stand for. */
  function Flat<T>(q: Queues<T>): seq<T> { q.main + q.sub }

  // ---------------------------------------------------------------------------------------------
  // Runs of the scheduler

  datatype Action<T> =
    | Register(t: T)
    | Pop                     // the head of the main list, if any
    | Swap                    // exchange the lists once the main list is empty
    | Remove(i: nat)          // the task at position i of the one queue

  predicate Enabled<T(==)>(q: Queues<T>, a: Action<T>) {
    match a
    case Register(t) => t !in Flat(q)
    case Pop => q.main != []
    case Swap => q.main == []
    case Remove(i) => i < |Flat(q)|
  }

  function Apply<T>(q: Queues<T>, a: Action<T>): Queues<T>
    requires a.Pop? ==> q.main != []
    requires a.Remove? ==> a.i < |Flat(q)|
  {
    match a
    case Register(t) => Queues(q.main, q.sub + [t])
    case Pop => Queues(q.main[1..], q.sub)
    case Swap => Queues(q.sub, q.main)
    case Remove(i) =>
      if i < |q.main| then Queues(Without(q.main, i), q.sub) else Queues(q.main, Without(q.sub, i - |q.main|))
  }

  /** `acts` leads through the states `run`. */
  ghost predicate IsRun<T(!new)>(run: seq<Queues<T>>, acts: seq<Action<T>>) {
    && |run| == |acts| + 1
    && Distinct(Flat(run[0]))
    && forall i :: 0 <= i < |acts| ==> Enabled(run[i], acts[i]) && run[i + 1] == Apply(run[i], acts[i])
  }

  /** The two lists behave as one first-in-first-out queue; the swap is invisible. */
  lemma RefinesFifo<T>(q: Queues<T>, a: Action<T>)
    requires Enabled(q, a)
    ensures var f, f' := Flat(q), Flat(Apply(q, a));
            match a
            case Register(t) => f' == f + [t]
            case Pop => f != [] && q.main[0] == f[0] && f' == f[1..]
            case Swap => f' == f
            case Remove(i) => f' == Without(f, i)
  {
    match a
    case Register(t) =>
    case Pop =>
    case Swap =>
    case Remove(i) => assert Flat(Apply(q, a)) == Without(Flat(q), i);
  }

  lemma {:induction false} RunDistinct<T(!new)>(run: seq<Queues<T>>, acts: seq<Action<T>>, i: nat)
    requires IsRun(run, acts) && i < |run|
    ensures Distinct(Flat(run[i]))
  {
    if i > 0 {
      RunDistinct(run, acts, i - 1);
      RefinesFifo(run[i - 1], acts[i - 1]);
    }
  }

  /** The step that takes `u` out of the queue. */
  predicate TakesOut<T(==)>(q: Queues<T>, a: Action<T>, u: T) {
    (a.Pop? && q.main != [] && q.main[0] == u) || (a.Remove? && a.i < |Flat(q)| && Flat(q)[a.i] == u)
  }

  predicate Before<T(==)>(f: seq<T>, u: T, t: T) {
    exists i, j :: 0 <= i < j < |f| && f[i] == u && f[j] == t
  }

  lemma BeforeTail<T>(f: seq<T>, u: T, t: T)
    requires Before(f, u, t) && f[0] != u
    ensures Before(f[1..], u, t)
  {
    var i, j :| 0 <= i < j < |f| && f[i] == u && f[j] == t;
    assert f[1..][i - 1] == u && f[1..][j - 1] == t;
  }

  lemma BeforeWithout<T>(f: seq<T>, k: nat, u: T, t: T)
    requires Before(f, u, t) && k < |f| && f[k] != u && f[k] != t
    ensures Before(Without(f, k), u, t)
  {
    var i, j :| 0 <= i < j < |f| && f[i] == u && f[j] == t;
    var i', j' := if i < k then i else i - 1, if j < k then j else j - 1;
    assert Without(f, k)[i'] == u && Without(f, k)[j'] == t;
  }

  lemma BeforeAppend<T>(f: seq<T>, x: T, u: T, t: T)
    requires Before(f, u, t)
    ensures Before(f + [x], u, t)
  {
    var i, j :| 0 <= i < j < |f| && f[i] == u && f[j] == t;
    assert (f + [x])[i] == u && (f + [x])[j] == t;
  }

  lemma BeforeStep<T>(q: Queues<T>, a: Action<T>, u: T, t: T)
    requires Enabled(q, a) && Before(Flat(q), u, t)
    requires !TakesOut(q, a, u) && !TakesOut(q, a, t)
    ensures Before(Flat(Apply(q, a)), u, t)
  {
    hide Before, Without;
    RefinesFifo(q, a);
    match a
    case Register(x) => BeforeAppend(Flat(q), x, u, t);
    case Pop => BeforeTail(Flat(q), u, t);
    case Swap =>
    case Remove(i) => BeforeWithout(Flat(q), i, u, t);
  }

  lemma HeadIsNotSecond<T>(f: seq<T>, u: T, t: T)
    requires Distinct(f) && Before(f, u, t)
    ensures f[0] != t
  {
  }

  /**
   * No overtaking: while `u` waits in front of `t`, `t` is not started before `u`.  So a task that
   * registers itself again while it runs waits behind every task already queued.
   */
  lemma {:induction false} NoOvertaking<T(!new)>(run: seq<Queues<T>>, acts: seq<Action<T>>, i: nat, j: nat, u: T, t: T)
    requires IsRun(run, acts) && i <= j < |run| && Before(Flat(run[i]), u, t)
    requires forall k :: i <= k < j ==> !TakesOut(run[k], acts[k], u)
    requires forall k :: i <= k < j ==> !(TakesOut(run[k], acts[k], t) && acts[k].Remove?)
    ensures Before(Flat(run[j]), u, t)
    ensures j < |acts| ==> !(acts[j].Pop? && TakesOut(run[j], acts[j], t))
    decreases j
  {
    RunDistinct(run, acts, j);
    if i < j {
      NoOvertaking(run, acts, i, j - 1, u, t);
      RunDistinct(run, acts, j - 1);
      BeforeStep(run[j - 1], acts[j - 1], u, t);
    }
    HeadIsNotSecond(Flat(run[j]), u, t);
    if j < |acts| && acts[j].Pop? {
      assert Flat(run[j])[0] == run[j].main[0];
    }
  }

  function Pops<T>(acts: seq<Action<T>>): nat {
    if acts == [] then 0 else Pops(acts[..|acts| - 1]) + if acts[|acts| - 1].Pop? then 1 else 0
  }

  /**
   * Bounded wait: every start of another task moves a waiting task one place forward, and nothing
   * moves it back.  So a task at position p is started, or removed, by the time p + 1 tasks were.
   */
  lemma {:induction false} BoundedWait<T(!new)>(run: seq<Queues<T>>, acts: seq<Action<T>>, u: T, p: nat) returns (p': nat)
    requires IsRun(run, acts) && p < |Flat(run[0])| && Flat(run[0])[p] == u
    requires forall k :: 0 <= k < |acts| ==> !TakesOut(run[k], acts[k], u)
    ensures p' < |Flat(run[|acts|])| && Flat(run[|acts|])[p'] == u
    ensures p' + Pops(acts) <= p
    decreases |acts|
  {
    if acts == [] {
      p' := p;
    } else {
      var n := |acts| - 1;
      var shorter := acts[..n];
      assert forall k :: 0 <= k < n ==> shorter[k] == acts[k];
      p' := BoundedWait(run[..n + 1], shorter, u, p);
      RefinesFifo(run[n], acts[n]);
      RunDistinct(run, acts, n);
      if acts[n].Pop? {
        p' := p' - 1;
      } else if acts[n].Remove? && acts[n].i < p' {
        p' := p' - 1;
      }
    }
  }

  /** A task that registers itself at the end of its execution goes behind all tasks waiting at that time. */
  lemma RegisterGoesLast<T>(q: Queues<T>, t: T, u: T)
    requires Enabled(q, Register(t)) && u in Flat(q)
    ensures Before(Flat(Apply(q, Register(t))), u, t)
  {
    var f := Flat(Apply(q, Register(t)));
    RefinesFifo(q, Register(t));
    var i :| 0 <= i < |Flat(q)| && Flat(q)[i] == u;
    assert f[i] == u && f[|f| - 1] == t;
  }
}
