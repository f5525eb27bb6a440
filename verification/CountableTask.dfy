/**
 * `CountableTask` (source/kernel/task.cc, source/kernel/_task.h): any number of callers of `Inc`,
 * one CPU that runs the task.  `Inc` and the tail of `HandleSub` hold `_lock` while they call
 * `TaskCtrl::Register`, whose own test and locked region are separate steps.
 */
module CountableTask {
  import opened Lists

  type Caller = nat

  datatype Status = Running | WaitingInQueue | OutOfQueue

  datatype CallerPc =
    | Idle
    | RegCheck            // Inc: holds _lock, about to test IsRegistered
    | RegEnqueue          // Inc: holds _lock, about to run the locked region of Register

  datatype HandlerPc =
    | Away
    | Func                // HandleSub: about to execute the function
    | Decrement           // HandleSub: about to take _lock and decrement
    | HRegCheck           // HandleSub: holds _lock
    | HRegEnqueue
    | Post                // back in TaskCtrl::Run, about to adjust the status

  /** `incs`, `executions` and `decs` count the calls of `Inc`, the executions of the function, and the decrements. */
  datatype State = State(
    cnt: int,
    status: Status,
    callers: map<Caller, CallerPc>,
    handler: HandlerPc,
    incs: nat,
    executions: nat,
    decs: nat,
    panicked: bool)

  datatype Action =
    | Inc(c: Caller)      // take _lock, count, and leave or go on to Register
    | CallerStep(c: Caller)
    | HandlerStep

  predicate Init(s: State) {
    && s.cnt == 0 && s.status.OutOfQueue? && s.handler.Away? && s.incs == 0 && !s.panicked
    && s.executions == 0 && s.decs == 0
    && forall c :: c in s.callers ==> s.callers[c].Idle?
  }

  predicate CallerLocks(s: State) { exists c :: c in s.callers && !s.callers[c].Idle? }

  predicate HandlerLocks(s: State) { s.handler.HRegCheck? || s.handler.HRegEnqueue? }

  predicate Enabled(s: State, a: Action) {
    match a
    case Inc(c) => c in s.callers && s.callers[c].Idle? && !CallerLocks(s) && !HandlerLocks(s) && s.cnt < 0x7fff_ffff
    case CallerStep(c) => c in s.callers && !s.callers[c].Idle?
    case HandlerStep =>
      (s.handler.Away? ==> s.status.WaitingInQueue?) && (s.handler.Decrement? ==> !CallerLocks(s))
  }

  function Apply(s: State, a: Action): State
    requires Enabled(s, a)
  {
    match a
    case Inc(c) =>
      s.(cnt := s.cnt + 1, incs := s.incs + 1,
         callers := if s.cnt + 1 == 1 then s.callers[c := RegCheck] else s.callers)
    case CallerStep(c) =>
      if s.callers[c].RegEnqueue? then s.(status := WaitingInQueue, callers := s.callers[c := Idle])
      else if s.status.WaitingInQueue? then s.(panicked := true)
      else s.(callers := s.callers[c := RegEnqueue])
    case HandlerStep =>
      match s.handler
      case Away => s.(status := Running, handler := Func)
      case Func => s.(executions := s.executions + 1, handler := Decrement)
      case Decrement =>
        s.(cnt := s.cnt - 1, decs := s.decs + 1,
           handler := if s.cnt - 1 != 0 then HRegCheck else Post)
      case HRegCheck => if s.status.WaitingInQueue? then s.(panicked := true) else s.(handler := HRegEnqueue)
      case HRegEnqueue => s.(status := WaitingInQueue, handler := Post)
      case Post => s.(status := if s.status.Running? then OutOfQueue else s.status, handler := Away)
  }

  ghost predicate Next(s: State, s': State) {
    exists a :: Enabled(s, a) && s' == Apply(s, a)
  }

  ghost predicate IsRun(run: seq<State>) {
    && |run| > 0
    && Init(run[0])
    && forall i :: 0 < i < |run| ==> Next(run[i - 1], run[i])
  }

  // ---------------------------------------------------------------------------------------------

  /** The task is queued, or executing before its decrement, or someone under `_lock` is about to queue it. */
  predicate Active(s: State) {
    s.status.WaitingInQueue? || CallerLocks(s) || !(s.handler.Away? || s.handler.Post?)
  }

  ghost predicate Inv(s: State) {
    && !s.panicked
    && s.incs == s.decs + s.cnt && 0 <= s.cnt <= 0x7fff_ffff
    && s.executions == s.decs + (if s.handler.Decrement? then 1 else 0)
    && (s.cnt > 0 <==> Active(s))
    && (forall c, d :: c in s.callers && d in s.callers && !s.callers[c].Idle? && !s.callers[d].Idle? ==> c == d)
    && (CallerLocks(s) ==> !s.status.WaitingInQueue? && (s.handler.Away? || s.handler.Post?))
    && (!(s.handler.Away? || s.handler.Post?) ==> s.status.Running?)
    && (s.handler.Away? ==> !s.status.Running?)
    && (s.handler.Post? ==> !s.status.OutOfQueue?)
  }

  lemma IncKeepsInv(s: State, c: Caller)
    requires Inv(s) && Enabled(s, Inc(c))
    ensures Inv(Apply(s, Inc(c)))
  {
    var s' := Apply(s, Inc(c));
    if s.cnt == 0 {
      assert !s'.callers[c].Idle?;
    } else {
      assert CallerLocks(s') <==> CallerLocks(s);
    }
  }

  lemma CallerKeepsInv(s: State, c: Caller)
    requires Inv(s) && Enabled(s, CallerStep(c))
    ensures Inv(Apply(s, CallerStep(c)))
  {
    var s' := Apply(s, CallerStep(c));
    assert CallerLocks(s);
    if s.callers[c].RegCheck? {
      assert !s'.callers[c].Idle?;
    }
  }

  lemma HandlerKeepsInv(s: State)
    requires Inv(s) && Enabled(s, HandlerStep)
    ensures Inv(Apply(s, HandlerStep))
  {
  }

  lemma NextKeepsInv(s: State, s': State)
    requires Inv(s) && Next(s, s')
    ensures Inv(s')
  {
    var a :| Enabled(s, a) && s' == Apply(s, a);
    match a
    case Inc(c) => IncKeepsInv(s, c);
    case CallerStep(c) => CallerKeepsInv(s, c);
    case HandlerStep => HandlerKeepsInv(s);
  }

  lemma {:induction false} RunInv(run: seq<State>, i: nat)
    requires IsRun(run) && i < |run|
    ensures Inv(run[i])
  {
    if i > 0 {
      RunInv(run, i - 1);
      NextKeepsInv(run[i - 1], run[i]);
    }
  }

  // ---------------------------------------------------------------------------------------------

  /**
   * In every state of every run the function has been executed once for every decrement, and once more while the
   * handler stands before the next one; the executions still owed are exactly what `_cnt` says; the task is on its
   * way to an execution exactly while some are owed; and `Register` never meets a queued task.
   */
  lemma EveryIncIsOwed(run: seq<State>, i: nat)
    requires IsRun(run) && i < |run|
    ensures run[i].decs + run[i].cnt == run[i].incs
    ensures run[i].executions == run[i].decs + if run[i].handler.Decrement? then 1 else 0
    ensures run[i].cnt > 0 <==> Active(run[i])
    ensures 0 <= run[i].cnt <= 0x7fff_ffff
    ensures CallerLocks(run[i]) || HandlerLocks(run[i]) ==> !run[i].status.WaitingInQueue?
    ensures !run[i].panicked
  {
    RunInv(run, i);
  }

  /** The steps left for a handler that runs alone. */
  function Rank(s: State): int {
    10 * s.cnt +
    match s.handler
    case Away => if s.status.WaitingInQueue? then 3 else 0
    case Func => 2
    case Decrement => 1
    case HRegCheck => 7
    case HRegEnqueue => 6
    case Post => 5
  }

  predicate Works(s: State, s': State) { Enabled(s, HandlerStep) && s' == Apply(s, HandlerStep) }

  lemma WorkLowersRank(s: State, s': State)
    requires Inv(s) && !CallerLocks(s) && Works(s, s')
    ensures Rank(s') < Rank(s) && !CallerLocks(s') && s'.incs == s.incs
  {
  }

  /**
   * Once callers are done, the handler alone needs a bounded number of steps, and when it has nothing
   * left to do every `Inc` has had its own execution.
   */
  lemma {:induction false} EveryIncIsExecuted(run: seq<State>, i: nat, j: nat)
    requires IsRun(run) && i <= j < |run| && !CallerLocks(run[i])
    requires forall k :: i < k <= j ==> Works(run[k - 1], run[k])
    ensures !CallerLocks(run[j]) && run[j].incs == run[i].incs
    ensures 0 <= Rank(run[j]) <= Rank(run[i]) - (j - i)
    ensures !Enabled(run[j], HandlerStep) ==> run[j].executions == run[j].incs && run[j].status.OutOfQueue?
    decreases j
  {
    RunInv(run, j);
    if i < j {
      EveryIncIsExecuted(run, i, j - 1);
      RunInv(run, j - 1);
      WorkLowersRank(run[j - 1], run[j]);
    }
  }

  /** One call, from its beginning to the end of the execution it leads to. */
  lemma OneInc() returns (run: seq<State>)
    ensures IsRun(run) && Last(run).incs == 1 == Last(run).executions && !Enabled(Last(run), HandlerStep)
  {
    var s0 := State(0, OutOfQueue, map[0 := Idle], Away, 0, 0, 0, false);
    var s1 := State(1, OutOfQueue, map[0 := RegCheck], Away, 1, 0, 0, false);
    var s2 := State(1, OutOfQueue, map[0 := RegEnqueue], Away, 1, 0, 0, false);
    var s3 := State(1, WaitingInQueue, map[0 := Idle], Away, 1, 0, 0, false);
    var s4 := State(1, Running, map[0 := Idle], Func, 1, 0, 0, false);
    var s5 := State(1, Running, map[0 := Idle], Decrement, 1, 1, 0, false);
    var s6 := State(0, Running, map[0 := Idle], Post, 1, 1, 1, false);
    var s7 := State(0, OutOfQueue, map[0 := Idle], Away, 1, 1, 1, false);
    assert Enabled(s0, Inc(0)) && Apply(s0, Inc(0)) == s1;
    assert Enabled(s1, CallerStep(0)) && Apply(s1, CallerStep(0)) == s2;
    assert Enabled(s2, CallerStep(0)) && Apply(s2, CallerStep(0)) == s3;
    assert Works(s3, s4) && Works(s4, s5) && Works(s5, s6) && Works(s6, s7);
    hide Enabled, Apply;
    run := [s0, s1, s2, s3, s4, s5, s6, s7];
    assert Next(s0, s1) && Next(s1, s2) && Next(s2, s3) && Next(s3, s4) && Next(s4, s5) && Next(s5, s6) && Next(s6, s7);
  }
}
