/**
 * The activation protocol of `Functional` (source/kernel/functional.h) over `FunctionalRingBuffer`
 * (source/kernel/buf.h), `TaskCtrl::Register` and the pop and post-processing of `TaskCtrl::Run`.
 *
 * Any number of producers push and call `WakeupFunction`; one CPU runs the handler task.  Every
 * access to a shared field outside a lock and every lock region is one step; the locked re-check of
 * `Handle` is split in two, because the buffer it reads is not guarded by that lock.  `SetFunction`
 * stores `_cpuid` and then `_func`, so it is two steps.
 */
module Functional {
  import opened Lists

  type Producer = nat

  datatype Status = Running | WaitingInQueue | OutOfQueue

  datatype ProducerPc =
    | Idle
    | Push(item: int)       // about to push
    | CpuCheck              // pushed, about to test _cpuid in WakeupFunction
    | Wake                  // about to run the locked region of WakeupFunction
    | RegCheck              // about to test IsRegistered in TaskCtrl::Register
    | RegEnqueue            // about to run the locked region of TaskCtrl::Register

  datatype HandlerPc =
    | Away                  // the task is not being executed
    | Loop(i: nat)          // Handle: about to test i < 10 and ShouldFunc
    | Exec(i: nat)          // Handle: about to execute the function
    | Assert                // Handle: about to assert kFunctioning
    | FinalRead             // Handle: about to take the lock and call ShouldFunc
    | FinalWrite(should: bool)  // Handle: still under the lock, about to write _state
    | HRegCheck
    | HRegEnqueue
    | Post                  // back in TaskCtrl::Run, about to adjust the status

  datatype State = State(
    capacity: nat,
    cpuValid: bool,         // SetFunction has stored a valid _cpuid
    funcSet: bool,          // SetFunction has stored _func
    early: bool,            // a wake-up was skipped for want of a valid _cpuid and none has taken effect since
    buffer: seq<int>,
    pushed: seq<int>,       // history: the items the buffer has accepted, in order
    popped: seq<int>,       // history: the items taken out of it, in order
    functioning: bool,
    status: Status,
    producers: map<Producer, ProducerPc>,
    handler: HandlerPc,
    nullCall: bool,         // Handle executed a null _func; nothing happens after that
    panicked: bool)         // the panic of Register or the assertion of Handle was hit

  datatype Action =
    | Begin(p: Producer, item: int)   // an idle producer calls Push
    | Produce(p: Producer)            // the next step of a producer
    | Handle(taken: nat)              // the next step of the handler; Execute pops `taken` items
    | Consume                         // some other thread pops one item
    | SetCpu                          // SetFunction: _cpuid
    | SetFunc                         // SetFunction: _func

  predicate Init(s: State) {
    && !s.cpuValid && !s.funcSet && !s.early && !s.nullCall
    && s.buffer == [] && s.pushed == [] && s.popped == []
    && !s.functioning && s.status.OutOfQueue? && s.handler.Away? && !s.panicked
    && forall p :: p in s.producers ==> s.producers[p].Idle?
  }

  /** `_lock` is held by the handler between its two halves of the locked re-check. */
  predicate LockFree(s: State) { !s.handler.FinalWrite? }

  predicate Enabled(s: State, a: Action) {
    && !s.nullCall
    && match a
    case Begin(p, _) => p in s.producers && s.producers[p].Idle?
    case Produce(p) => p in s.producers && !s.producers[p].Idle? && (s.producers[p].Wake? ==> LockFree(s))
    case Handle(taken) =>
      (s.handler.Away? ==> s.status.WaitingInQueue?) && (s.handler.Exec? ==> taken <= |s.buffer|)
    case Consume => s.buffer != []
    case SetCpu => true
    case SetFunc => s.cpuValid
  }

  function ProducerStep(s: State, p: Producer): State
    requires p in s.producers && !s.producers[p].Idle?
  {
    match s.producers[p]
    case Push(item) =>
      if |s.buffer| < s.capacity then
        s.(buffer := s.buffer + [item], pushed := s.pushed + [item], producers := s.producers[p := CpuCheck])
      else s.(producers := s.producers[p := CpuCheck])
    case CpuCheck =>
      if s.cpuValid then s.(producers := s.producers[p := Wake])
      else s.(early := true, producers := s.producers[p := Idle])
    case Wake =>
      if s.functioning then s.(producers := s.producers[p := Idle])
      else s.(functioning := true, early := false, producers := s.producers[p := RegCheck])
    case RegCheck =>
      if s.status.WaitingInQueue? then s.(panicked := true) else s.(producers := s.producers[p := RegEnqueue])
    case RegEnqueue => s.(status := WaitingInQueue, producers := s.producers[p := Idle])
  }

  function Pop(s: State, n: nat): State
    requires n <= |s.buffer|
  {
    s.(buffer := s.buffer[n..], popped := s.popped + s.buffer[..n])
  }

  function HandlerStep(s: State, taken: nat): State
    requires s.handler.Exec? ==> taken <= |s.buffer|
  {
    match s.handler
    case Away => s.(status := Running, handler := Loop(0))
    case Loop(i) => s.(handler := if i < 10 && s.buffer != [] then Exec(i) else Assert)
    case Exec(i) =>
      if s.funcSet then Pop(s, taken).(handler := Loop(i + 1)) else s.(nullCall := true)
    case Assert => if s.functioning then s.(handler := FinalRead) else s.(panicked := true)
    case FinalRead => s.(handler := FinalWrite(s.buffer != []))
    case FinalWrite(should) => s.(functioning := should, handler := if should then HRegCheck else Post)
    case HRegCheck => if s.status.WaitingInQueue? then s.(panicked := true) else s.(handler := HRegEnqueue)
    case HRegEnqueue => s.(status := WaitingInQueue, handler := Post)
    case Post => s.(status := if s.status.Running? then OutOfQueue else s.status, handler := Away)
  }

  function Apply(s: State, a: Action): State
    requires Enabled(s, a)
  {
    match a
    case Begin(p, item) => s.(producers := s.producers[p := Push(item)])
    case Produce(p) => ProducerStep(s, p)
    case Handle(taken) => HandlerStep(s, taken)
    case Consume => Pop(s, 1)
    case SetCpu => s.(cpuValid := true)
    case SetFunc => s.(funcSet := true)
  }

  ghost predicate Next(s: State, s': State) {
    exists a :: Enabled(s, a) && s' == Apply(s, a)
  }

  ghost predicate IsRun(run: seq<State>)
    ensures IsRun(run) ==> run != []
  {
    && |run| > 0
    && Init(run[0])
    && forall i :: 0 < i < |run| ==> Next(run[i - 1], run[i])
  }

  // ---------------------------------------------------------------------------------------------
  // The activation token

  predicate Registering(pc: ProducerPc) { pc.RegCheck? || pc.RegEnqueue? }

  /** The producers that hold the token: they set kFunctioning and have not yet queued the task. */
  function Registrars(s: State): set<Producer> {
    set p | p in s.producers && Registering(s.producers[p])
  }

  /** The handler holds the token from the pop until it gives it up or queues the task again. */
  predicate HandlerHasToken(s: State) { !s.handler.Away? && !s.handler.Post? }

  function Tokens(s: State): nat {
    |Registrars(s)| + (if s.status.WaitingInQueue? then 1 else 0) + (if HandlerHasToken(s) then 1 else 0)
  }

  predicate SomeoneWillWake(s: State) {
    exists p :: p in s.producers && Waking(s.producers[p])
  }

  predicate Waking(pc: ProducerPc) { pc.CpuCheck? || pc.Wake? }

  ghost predicate Inv(s: State) {
    && !s.panicked
    && Tokens(s) == (if s.functioning then 1 else 0)
    && (HandlerHasToken(s) ==> s.status.Running?)
    && (s.handler.Away? ==> !s.status.Running?)
    && (s.handler.Post? ==> !s.status.OutOfQueue?)
    && (s.functioning ==> s.cpuValid && !s.early)
    && (s.funcSet ==> s.cpuValid && !s.nullCall)
    && (forall p :: p in s.producers && s.producers[p].Wake? ==> s.cpuValid)
    && (s.nullCall ==> s.handler.Exec?)
    && (s.buffer != [] && !s.early && (!s.functioning || s.handler == FinalWrite(false)) ==> SomeoneWillWake(s))
  }

  lemma RegistrarsUpdate(s: State, s': State, p: Producer, pc: ProducerPc)
    requires p in s.producers && s'.producers == s.producers[p := pc]
    ensures |Registrars(s')| == |Registrars(s)| - (if Registering(s.producers[p]) then 1 else 0)
                                                + (if Registering(pc) then 1 else 0)
  {
    var rest := Registrars(s) - {p};
    assert Registrars(s) == if Registering(s.producers[p]) then rest + {p} else rest;
    assert Registrars(s') == if Registering(pc) then rest + {p} else rest;
  }

  lemma ProducerHasToken(s: State, p: Producer)
    requires p in s.producers && Registering(s.producers[p])
    ensures |Registrars(s)| > 0
  {
    assert p in Registrars(s);
  }

  lemma ProduceKeepsInv(s: State, p: Producer)
    requires Inv(s) && Enabled(s, Produce(p))
    ensures Inv(Apply(s, Produce(p)))
  {
    var s' := Apply(s, Produce(p));
    if Registering(s.producers[p]) { ProducerHasToken(s, p); }
    RegistrarsUpdate(s, s', p, s'.producers[p]);
    if s.producers[p].Push? {
      assert Waking(s'.producers[p]);
    } else if SomeoneWillWake(s) {
      var q :| q in s.producers && Waking(s.producers[q]);
      assert q != p ==> q in s'.producers && Waking(s'.producers[q]);
      assert s.producers[p].CpuCheck? && s.cpuValid ==> Waking(s'.producers[p]);
    }
  }

  lemma HandleKeepsInv(s: State, taken: nat)
    requires Inv(s) && Enabled(s, Handle(taken))
    ensures Inv(Apply(s, Handle(taken)))
  {
    var s' := Apply(s, Handle(taken));
    assert Registrars(s') == Registrars(s);
    if SomeoneWillWake(s) {
      var q :| q in s.producers && Waking(s.producers[q]);
      assert q in s'.producers && Waking(s'.producers[q]);
    }
  }

  lemma ClientKeepsInv(s: State, a: Action)
    requires Inv(s) && Enabled(s, a) && (a.Begin? || a.Consume? || a.SetCpu? || a.SetFunc?)
    ensures Inv(Apply(s, a))
  {
    var s' := Apply(s, a);
    if a.Begin? { RegistrarsUpdate(s, s', a.p, s'.producers[a.p]); } else { assert Registrars(s') == Registrars(s); }
    if SomeoneWillWake(s) {
      var q :| q in s.producers && Waking(s.producers[q]);
      assert q in s'.producers && Waking(s'.producers[q]);
    }
  }

  lemma NextKeepsInv(s: State, s': State)
    requires Inv(s) && Next(s, s')
    ensures Inv(s')
  {
    var a :| Enabled(s, a) && s' == Apply(s, a);
    match a
    case Produce(p) => ProduceKeepsInv(s, p);
    case Handle(taken) => HandleKeepsInv(s, taken);
    case _ => ClientKeepsInv(s, a);
  }

  lemma {:induction false} RunInv(run: seq<State>, i: nat)
    requires IsRun(run) && i < |run|
    ensures Inv(run[i])
  {
    if i > 0 {
      RunInv(run, i - 1);
      NextKeepsInv(run[i - 1], run[i]);
    } else {
      assert Registrars(run[0]) == {};
    }
  }

  // ---------------------------------------------------------------------------------------------
  // What the token is for

  /**
   * In every state of every run kFunctioning means exactly one activation token, so whoever is about to register
   * the task finds it not queued, and the handler finds kFunctioning: neither the panic of `Register` nor the
   * assertion of `Handle` is ever hit.
   */
  lemma OneActivation(run: seq<State>, i: nat)
    requires IsRun(run) && i < |run|
    ensures Tokens(run[i]) == (if run[i].functioning then 1 else 0)
    ensures forall p :: p in run[i].producers && Registering(run[i].producers[p]) ==> !run[i].status.WaitingInQueue?
    ensures run[i].handler.HRegCheck? || run[i].handler.HRegEnqueue? ==> !run[i].status.WaitingInQueue?
    ensures run[i].handler.Assert? ==> run[i].functioning
    ensures !run[i].panicked
  {
    RunInv(run, i);
    forall p | p in run[i].producers && Registering(run[i].producers[p]) ensures !run[i].status.WaitingInQueue? {
      ProducerHasToken(run[i], p);
    }
  }

  predicate ProducersIdle(s: State) {
    forall p :: p in s.producers ==> s.producers[p].Idle?
  }

  /**
   * Producers are done but items remain: the handler is activated if and only if not all wake-ups since the
   * last effective one came before `_cpuid` was stored.  Activated means queued, or executing before its
   * final decision.
   */
  lemma NoLostWakeup(run: seq<State>, i: nat)
    requires IsRun(run) && i < |run| && run[i].buffer != [] && ProducersIdle(run[i])
    ensures run[i].functioning <==> !run[i].early
    ensures run[i].functioning ==>
              run[i].status.WaitingInQueue? || (HandlerHasToken(run[i]) && run[i].handler != FinalWrite(false))
  {
    RunInv(run, i);
    assert Registrars(run[i]) == {} && !SomeoneWillWake(run[i]);
  }

  /** Some producer is about to test `_cpuid` before it has been stored, and nothing has activated the handler since. */
  ghost predicate SkippedSince(run: seq<State>, k: nat, i: nat) {
    && k < i < |run| && !run[k].cpuValid && (exists p :: p in run[k].producers && run[k].producers[p].CpuCheck?)
    && forall m :: k <= m <= i ==> !run[m].functioning
  }

  lemma SkipStep(s: State, s': State)
    requires Inv(s) && Next(s, s') && s'.early && !s.early
    ensures !s.cpuValid && !s.functioning && exists p :: p in s.producers && s.producers[p].CpuCheck?
  {
  }

  lemma {:induction false} SkippedEarly(run: seq<State>, i: nat)
    requires IsRun(run) && i < |run| && run[i].early
    ensures exists k :: SkippedSince(run, k, i)
  {
    hide Inv, Next;
    RunInv(run, i);
    EarlyIsOff(run[i]);
    var n := i - 1;
    RunInv(run, n);
    assert Next(run[n], run[n + 1]);
    if run[n].early {
      SkippedEarly(run, n);
      var k :| SkippedSince(run, k, n);
      assert SkippedSince(run, k, i);
    } else {
      SkipStep(run[n], run[i]);
      assert SkippedSince(run, n, i);
    }
  }

  lemma EarlyIsOff(s: State)
    requires Inv(s) && s.early
    ensures !s.functioning
  {
  }

  /** An item stays with nobody to handle it only if some producer came before `SetFunction`. */
  lemma LostOnlyBeforeSetFunction(run: seq<State>, i: nat)
    requires IsRun(run) && i < |run| && run[i].buffer != [] && ProducersIdle(run[i]) && !run[i].functioning
    ensures exists k :: SkippedSince(run, k, i)
  {
    NoLostWakeup(run, i);
    SkippedEarly(run, i);
  }

  // ---------------------------------------------------------------------------------------------
  // What happens to the items

  /**
   * In every state of every run the items accepted so far are those taken out followed by those still in the
   * buffer: none is lost, duplicated or overtaken.
   */
  lemma {:induction false} ItemsInOrder(run: seq<State>, i: nat)
    requires IsRun(run) && i < |run|
    ensures run[i].popped + run[i].buffer == run[i].pushed && |run[i].buffer| <= run[i].capacity
    ensures run[i].capacity == run[0].capacity
  {
    hide Next;
    if i > 0 {
      ItemsInOrder(run, i - 1);
      ItemsStep(run[i - 1], run[i]);
    }
  }

  predicate InOrder(s: State) {
    s.popped + s.buffer == s.pushed && |s.buffer| <= s.capacity
  }

  lemma PopInOrder(s: State, n: nat)
    requires InOrder(s) && n <= |s.buffer|
    ensures InOrder(Pop(s, n)) && Pop(s, n).capacity == s.capacity
  {
    assert s.buffer == s.buffer[..n] + s.buffer[n..];
    assert s.popped + s.buffer[..n] + s.buffer[n..] == s.popped + s.buffer;
  }

  lemma PushInOrder(s: State, p: Producer)
    requires Enabled(s, Produce(p)) && InOrder(s)
    ensures InOrder(ProducerStep(s, p)) && ProducerStep(s, p).capacity == s.capacity
  {
    match s.producers[p]
    case Push(item) => assert s.popped + (s.buffer + [item]) == s.popped + s.buffer + [item];
    case _ =>
  }

  lemma HandlerInOrder(s: State, taken: nat)
    requires Enabled(s, Handle(taken)) && InOrder(s)
    ensures InOrder(HandlerStep(s, taken)) && HandlerStep(s, taken).capacity == s.capacity
  {
    match s.handler
    case Exec(_) => { hide Pop; PopInOrder(s, taken); }
    case _ =>
  }

  lemma ItemsStep(s: State, s': State)
    requires Next(s, s') && InOrder(s)
    ensures InOrder(s') && s'.capacity == s.capacity
  {
    hide ProducerStep, HandlerStep, Pop;
    var a :| Enabled(s, a) && s' == Apply(s, a);
    match a
    case Produce(p) => PushInOrder(s, p);
    case Handle(taken) => HandlerInOrder(s, taken);
    case Consume => PopInOrder(s, 1);
    case _ =>
  }

  lemma PushStep(s: State, p: Producer)
    requires p in s.producers && s.producers[p].Push?
    ensures ProducerStep(s, p).producers == s.producers[p := CpuCheck]
    ensures ProducerStep(s, p).buffer
            == if |s.buffer| < s.capacity then s.buffer + [s.producers[p].item] else s.buffer
  {
  }

  /** A push is refused if and only if the buffer is full; otherwise the item goes behind all others. */
  lemma PushOutcome(s: State, s': State, p: Producer)
    requires p in s.producers && s.producers[p].Push?
    requires Next(s, s') && p in s'.producers && s'.producers[p] != s.producers[p]
    ensures s'.buffer == if |s.buffer| < s.capacity then s.buffer + [s.producers[p].item] else s.buffer
    ensures s'.producers[p].CpuCheck?
  {
    hide HandlerStep, ProducerStep;
    var a :| Enabled(s, a) && s' == Apply(s, a);
    match a
    case Produce(q) => if q == p { PushStep(s, p); } else { OthersStay(s, p, q); }
    case Handle(taken) => HandlerLeaves(s, taken);
    case _ =>
  }

  lemma OthersStay(s: State, p: Producer, q: Producer)
    requires p in s.producers && Enabled(s, Produce(q))
    ensures p != q ==> p in ProducerStep(s, q).producers && ProducerStep(s, q).producers[p] == s.producers[p]
    ensures ProducerStep(s, q).nullCall == s.nullCall
  {
  }

  // ---------------------------------------------------------------------------------------------
  // The buffer is drained

  /** A step of the handler in which an execution takes at least one item if there is one. */
  ghost predicate Works(s: State, s': State) {
    exists taken: nat ::
      && Enabled(s, Handle(taken)) && s' == Apply(s, Handle(taken))
      && (s.handler.Exec? && s.buffer != [] ==> taken > 0)
  }

  /** The work left for a handler that runs alone. */
  function Rank(s: State): nat {
    if s.nullCall then 0 else 100 * |s.buffer| + 1 + HandlerRank(s.handler, s.status, s.buffer == [])
  }

  function HandlerRank(pc: HandlerPc, status: Status, empty: bool): (r: nat)
    ensures r <= 40
  {
    match pc
    case Away => if status.WaitingInQueue? then (if empty then 36 else 21) else 0
    case Loop(i) => if i == 0 && !empty then 20 else 30
    case Exec(_) => if empty then 35 else 19
    case Assert => 29
    case FinalRead => 28
    case FinalWrite(should) => if !should then 7 else if empty then 40 else 27
    case HRegCheck => if empty then 39 else 26
    case HRegEnqueue => if empty then 38 else 25
    case Post => if !status.WaitingInQueue? then 6 else if empty then 37 else 24
  }

  /** The handler has executed a null function or is bound to. */
  predicate Doomed(s: State) {
    s.nullCall || (!s.funcSet && (s.buffer != [] || s.handler.Exec?))
  }

  lemma WorkLowersRank(s: State, s': State)
    requires Inv(s) && ProducersIdle(s) && !s.early && Works(s, s')
    ensures Rank(s') < Rank(s)
  {
    assert !SomeoneWillWake(s);
  }

  lemma WorkKeeps(s: State, s': State)
    requires ProducersIdle(s) && !s.early && Works(s, s')
    ensures ProducersIdle(s') && !s'.early && (Doomed(s') <==> Doomed(s)) && s'.pushed == s.pushed
  {
    var taken: nat :| Enabled(s, Handle(taken)) && s' == Apply(s, Handle(taken));
    HandlerLeaves(s, taken);
  }

  lemma HandlerLeaves(s: State, taken: nat)
    requires Enabled(s, Handle(taken))
    ensures HandlerStep(s, taken).producers == s.producers && HandlerStep(s, taken).early == s.early
    ensures HandlerStep(s, taken).pushed == s.pushed
    ensures Doomed(HandlerStep(s, taken)) <==> Doomed(s)
  {
    match s.handler
    case Away =>
    case Loop(_) =>
    case Exec(_) =>
    case Assert =>
    case FinalRead =>
    case FinalWrite(_) =>
    case HRegCheck =>
    case HRegEnqueue =>
    case Post =>
  }

  /** Where a handler that has nothing to do stands. */
  lemma StoppedIsDrained(s: State)
    requires Inv(s) && ProducersIdle(s) && !s.early && !s.nullCall && forall s' :: !Works(s, s')
    ensures s.buffer == [] && !s.functioning && s.status.OutOfQueue? && s.handler.Away?
  {
    assert !SomeoneWillWake(s) && Registrars(s) == {};
    if !s.handler.Away? || s.status.WaitingInQueue? {
      assert Works(s, Apply(s, Handle(|s.buffer|)));
      assert false;
    }
  }

  /**
   * From any reachable state in which the producers are done and their wake-up took effect, a handler that
   * runs alone stops after at most `Rank` steps.  Then every item ever accepted has been taken out, in the
   * order it came in, and the task is idle, or a null function was executed, and that if and only if `_func`
   * was not stored and an execution was due.
   */
  lemma {:induction false} Drains(run: seq<State>, i: nat, j: nat)
    requires IsRun(run) && i <= j < |run| && ProducersIdle(run[i]) && !run[i].early
    requires forall k :: i < k <= j ==> Works(run[k - 1], run[k])
    ensures Rank(run[j]) + (j - i) <= Rank(run[i]) && ProducersIdle(run[j]) && !run[j].early
    ensures Doomed(run[j]) <==> Doomed(run[i])
    ensures (forall s :: !Works(run[j], s)) ==>
              if Doomed(run[i]) then run[j].nullCall
              else run[j].buffer == [] && !run[j].functioning && run[j].status.OutOfQueue? && run[j].handler.Away?
                   && run[j].popped == run[i].pushed
    ensures run[j].pushed == run[i].pushed
    decreases j
  {
    hide Inv, Rank, Works, Next;
    RunInv(run, j);
    if i < j {
      Drains(run, i, j - 1);
      RunInv(run, j - 1);
      WorkLowersRank(run[j - 1], run[j]);
      WorkKeeps(run[j - 1], run[j]);
    }
    if (forall s :: !Works(run[j], s)) && !run[j].nullCall {
      ItemsInOrder(run, j);
      StoppedIsDrained(run[j]);
    }
  }

  // ---------------------------------------------------------------------------------------------
  // One activation

  /** A step of the handler in which an execution takes exactly one item. */
  predicate TurnStep(s: State, s': State) {
    Enabled(s, Handle(1)) && s' == Apply(s, Handle(1))
  }

  /** The handler's own steps. */
  predicate Turn(run: seq<State>)
    ensures Turn(run) ==> run != []
  {
    && |run| > 0
    && forall i :: 0 < i < |run| ==> TurnStep(run[i - 1], run[i])
  }

  function Min(a: nat, b: nat): nat { if a < b then a else b }

  lemma Prepend(s: State, rest: seq<State>)
    requires Turn(rest) && TurnStep(s, rest[0])
    ensures Turn([s] + rest) && ([s] + rest)[0] == s && Last([s] + rest) == Last(rest)
  {
    hide TurnStep;
    var run := [s] + rest;
    forall i | 0 < i < |run| ensures TurnStep(run[i - 1], run[i]) {
      assert i > 1 ==> run[i - 1] == rest[i - 2] && run[i] == rest[i - 1];
    }
  }

  lemma PopNone(s: State)
    ensures Pop(s, 0) == s
  {
    assert s.popped + s.buffer[..0] == s.popped;
  }

  lemma PopTwice(s: State, n: nat, u: State)
    requires n < |s.buffer| && u == Pop(s, 1).(handler := u.handler)
    ensures Pop(u, n).(handler := Assert) == Pop(s, n + 1).(handler := Assert)
  {
    assert s.buffer[1..][n..] == s.buffer[n + 1..];
    assert s.popped + s.buffer[..1] + s.buffer[1..][..n] == s.popped + s.buffer[..n + 1];
  }

  lemma TakeOne(s: State, t: State, u: State)
    requires s.handler.Loop? && s.handler.i < 10 && s.funcSet && !s.nullCall && s.buffer != []
    requires t == s.(handler := Exec(s.handler.i)) && u == Pop(s, 1).(handler := Loop(s.handler.i + 1))
    ensures TurnStep(s, t) && TurnStep(t, u) && u.handler == Loop(s.handler.i + 1) && u.funcSet && !u.nullCall
    ensures |u.buffer| == |s.buffer| - 1
  {
  }

  lemma {:induction false} LoopTurn(s: State) returns (run: seq<State>)
    requires s.handler.Loop? && s.handler.i <= 10 && s.funcSet && !s.nullCall
    ensures Turn(run) && run[0] == s
    ensures Last(run) == Pop(s, Min(10 - s.handler.i, |s.buffer|)).(handler := Assert)
    decreases 10 - s.handler.i
  {
    hide Turn, TurnStep, HandlerStep, ProducerStep, Pop;
    if s.handler.i < 10 && s.buffer != [] {
      var t := s.(handler := Exec(s.handler.i));
      var u := Pop(s, 1).(handler := Loop(s.handler.i + 1));
      TakeOne(s, t, u);
      var rest := LoopTurn(u);
      Prepend(t, rest);
      Prepend(s, [t] + rest);
      run := [s] + ([t] + rest);
      PopTwice(s, Min(9 - s.handler.i, |s.buffer| - 1), u);
    } else {
      run := LeaveLoop(s);
      PopNone(s);
    }
  }

  lemma LeaveLoop(s: State) returns (run: seq<State>)
    requires s.handler.Loop? && (s.handler.i == 10 || s.buffer == []) && !s.nullCall
    ensures Turn(run) && run[0] == s && Last(run) == s.(handler := Assert)
  {
    run := [s, s.(handler := Assert)];
  }

  lemma Join(a: seq<State>, b: seq<State>)
    requires Turn(a) && Turn(b) && |b| > 1 && Last(a) == b[0]
    ensures Turn(a + b[1..]) && (a + b[1..])[0] == a[0] && Last(a + b[1..]) == Last(b)
  {
    hide TurnStep;
    var run := a + b[1..];
    forall i | 0 < i < |run| ensures TurnStep(run[i - 1], run[i]) {
      if i >= |a| {
        var k := i - |a| + 1;
        assert run[i - 1] == b[k - 1] && run[i] == b[k];
      }
    }
  }

  /** The end of an activation, from the assertion to the post-processing. */
  lemma EndTurn(s: State) returns (run: seq<State>)
    requires s.handler.Assert? && s.status.Running? && s.functioning && !s.nullCall
    ensures |run| > 1 && Turn(run) && run[0] == s
    ensures Last(run) == s.(functioning := s.buffer != [], handler := Away,
                            status := if s.buffer != [] then WaitingInQueue else OutOfQueue)
  {
    var should := s.buffer != [];
    var read, write := s.(handler := FinalRead), s.(handler := FinalWrite(should));
    assert TurnStep(s, read) && TurnStep(read, write);
    if should {
      var check, enqueue := s.(handler := HRegCheck), s.(handler := HRegEnqueue);
      var post := s.(handler := Post, status := WaitingInQueue);
      assert TurnStep(write, check) && TurnStep(check, enqueue) && TurnStep(enqueue, post);
      assert TurnStep(post, post.(handler := Away));
      hide TurnStep;
      run := [s, read, write, check, enqueue, post, post.(handler := Away)];
    } else {
      var post := s.(functioning := false, handler := Post);
      assert TurnStep(write, post) && TurnStep(post, post.(status := OutOfQueue, handler := Away));
      hide TurnStep;
      run := [s, read, write, post, post.(status := OutOfQueue, handler := Away)];
    }
  }

  /**
   * An activation whose executions take one item each takes the first ten, or all if there are fewer, and
   * queues the task again if and only if items are left.
   */
  lemma OneActivationTakesTen(s: State) returns (run: seq<State>)
    requires s.handler == Loop(0) && s.status.Running? && s.functioning && s.funcSet && !s.nullCall
    ensures Turn(run) && run[0] == s
    ensures var n := if |s.buffer| < 10 then |s.buffer| else 10;
            && Last(run).popped == s.popped + s.buffer[..n] && Last(run).buffer == s.buffer[n..]
            && Last(run).functioning == (|s.buffer| > 10) && Last(run).handler == Away
            && Last(run).status == (if |s.buffer| > 10 then WaitingInQueue else OutOfQueue)
            && Last(run).producers == s.producers && Last(run).panicked == s.panicked
  {
    hide Turn, Enabled;
    run := LoopTurn(s);
    var end := EndTurn(Last(run));
    Join(run, end);
    run := run + end[1..];
  }

  // ---------------------------------------------------------------------------------------------
  // What happens before and within SetFunction

  lemma Extend(run: seq<State>, a: Action, s': State)
    requires IsRun(run) && Enabled(Last(run), a) && s' == Apply(Last(run), a)
    ensures IsRun(run + [s'])
  {
    assert Next(Last(run), s');
  }

  function Fresh(): State {
    State(300, false, false, false, [], [], [], false, OutOfQueue, map[0 := Idle], Away, false, false)
  }

  /** A wake-up before `SetFunction` is lost: afterwards everything is set up, and nobody handles the item. */
  lemma LostItem() returns (run: seq<State>)
    ensures IsRun(run) && Last(run).buffer == [7] && ProducersIdle(Last(run)) && Last(run).cpuValid && Last(run).funcSet
    ensures !Last(run).functioning && Last(run).status.OutOfQueue? && Last(run).handler.Away?
    ensures forall s :: !Works(Last(run), s)
  {
    var s0 := Fresh();
    var s1 := Apply(s0, Begin(0, 7));
    var s2 := Apply(s1, Produce(0));
    var s3 := Apply(s2, Produce(0));
    var s4 := Apply(s3, SetCpu);
    var s5 := Apply(s4, SetFunc);
    run := [s0, s1, s2, s3, s4, s5];
    assert Next(s0, s1) && Next(s1, s2) && Next(s2, s3) && Next(s3, s4) && Next(s4, s5);
  }

  /** A wake-up between the two stores of `SetFunction` queues the task. */
  lemma ActivatedBetween() returns (run: seq<State>)
    ensures IsRun(run)
    ensures Last(run) == Fresh().(cpuValid := true, buffer := [7], pushed := [7], functioning := true, status := WaitingInQueue)
  {
    var s1 := Apply(Fresh(), SetCpu);
    var s2 := Apply(s1, Begin(0, 7));
    var s3 := Apply(s2, Produce(0));
    var s4 := Apply(s3, Produce(0));
    var s5 := Apply(s4, Produce(0));
    var s6 := Apply(s5, Produce(0));
    var s7 := Apply(s6, Produce(0));
    assert Next(Fresh(), s1) && Next(s1, s2) && Next(s2, s3) && Next(s3, s4) && Next(s4, s5) && Next(s5, s6) && Next(s6, s7);
    run := [Fresh(), s1, s2, s3, s4, s5, s6, s7];
    assert s7.producers == map[0 := Idle];
  }

  /** The handler that runs then executes a null function. */
  lemma NullFunction() returns (run: seq<State>)
    ensures IsRun(run) && Last(run).nullCall && !Last(run).funcSet
  {
    hide IsRun;
    run := ActivatedBetween();
    var s8 := Apply(Last(run), Handle(0));
    Extend(run, Handle(0), s8);
    var s9 := Apply(s8, Handle(0));
    Extend(run + [s8], Handle(0), s9);
    var s10 := Apply(s9, Handle(0));
    Extend(run + [s8] + [s9], Handle(0), s10);
    run := run + [s8] + [s9] + [s10];
  }

  lemma NullStep(s: State, s': State)
    requires Inv(s) && Next(s, s') && s'.nullCall
    ensures s.functioning && s.cpuValid && !s.funcSet
  {
    hide SomeoneWillWake, Registrars, ProducerStep;
    var a :| Enabled(s, a) && s' == Apply(s, a);
    if a.Produce? { OthersStay(s, a.p, a.p); }
    assert a.Handle? && s.handler.Exec?;
  }

  /** A null function is executed only if the handler was activated between the two stores. */
  lemma NullNeedsActivation(run: seq<State>, i: nat)
    requires IsRun(run) && i < |run| && run[i].nullCall
    ensures i > 0 && run[i - 1].functioning && run[i - 1].cpuValid && !run[i - 1].funcSet
  {
    RunInv(run, i - 1);
    NullStep(run[i - 1], run[i]);
  }
}
