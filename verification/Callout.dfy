/**
 * Callouts on one CPU (source/kernel/task.cc): registration, cancellation, the drain of the callout
 * list into the task queue, and the handler. Registrations and cancellations come from tasks and from
 * interrupt handlers, so they may fall between any two lock regions of the scheduler loop.
 */
module Callouts {
  import opened CalloutList
  import opened Lists
  import opened Words

  type Id = nat

  datatype CalloutState = InCalloutQueue | InTaskQueue | Handling | Stopped
  datatype TaskStatus = Running | Waiting | Out

  /**
   * A callout with the status of its inner task. `handler` says that the task has a function; executing a
   * task without one is an assertion failure.
   * `regs`, `runs` and `drops` count registrations, executions and cancellations of a registration.
   */
  datatype Callout = Callout(time: nat, state: CalloutState, pending: bool, handler: bool, status: TaskStatus,
                             regs: nat, runs: nat, drops: nat)

  predicate Registered(k: Callout) {
    k.state.InCalloutQueue? || k.state.InTaskQueue?
  }

  /** Where the scheduler loop stands with the task it took from the queue. */
  datatype Pc =
    | Idle
    | Popped(c: Id)      // taken from the queue, the time not yet looked at
    | Due(c: Id)         // the time has passed, the lock not yet taken
    | Executing(c: Id)   // inside the callout's function
    | Done(c: Id)        // the handler has returned

  datatype State = State(period: nat, now: nat, callouts: map<Id, Callout>, dlist: seq<Id>, queue: seq<Id>,
                         pc: Pc, panicked: bool)

  datatype Action =
    | Tick(n: nat)
    | RegisterCallout(c: Id, us: int32)
    | CancelCallout(c: Id)
    | Drain
    | PopTask
    | CheckTime
    | Begin
    | End
    | Finish

  const TASK_EXECUTION_INTERVAL: nat := 1000

  ghost predicate Init(s: State) {
    && s.period > 0 && s.now <= COUNT_LIMIT && s.dlist == [] && s.queue == [] && s.pc.Idle? && !s.panicked
    && forall c :: c in s.callouts ==> s.callouts[c] == Callout(0, Stopped, false, false, Out, 0, 0, 0)
  }

  // ---------------------------------------------------------------------------------------------
  // The operations
  // ---------------------------------------------------------------------------------------------

  function TimesOf(m: map<Id, Callout>, l: seq<Id>): (r: seq<nat>)
    requires forall c :: c in l ==> c in m
    ensures |r| == |l| && forall i :: 0 <= i < |l| ==> r[i] == m[l[i]].time
  {
    seq(|l|, i requires 0 <= i < |l| => m[l[i]].time)
  }

  function Find(l: seq<Id>, c: Id): (k: nat)
    ensures k <= |l| && (k < |l| ==> l[k] == c) && c !in l[..k]
    decreases |l|
  {
    if l == [] || l[0] == c then 0
    else
      var k := 1 + Find(l[1..], c);
      assert l[..k] == [l[0]] + l[1..][..k - 1];
      k
  }

  /** `l` without `c`: the unlinking scan of a cancellation. */
  function Erase(l: seq<Id>, c: Id): seq<Id> {
    if Find(l, c) == |l| then l else Without(l, Find(l, c))
  }

  function Update(s: State, c: Id, k: Callout): State {
    s.(callouts := s.callouts[c := k])
  }

  /** `TaskCtrl::Register` on the inner task of `c`. */
  function RegisterTask(s: State, c: Id): State
    requires c in s.callouts
  {
    if s.callouts[c].status.Waiting? then s.(panicked := true)
    else Update(s, c, s.callouts[c].(status := Waiting)).(queue := s.queue + [c])
  }

  function Register(s: State, c: Id, us: int32): State
    requires c in s.callouts && s.period > 0 && forall d :: d in s.dlist ==> d in s.callouts
  {
    var t := CountAfterPeriod(s.now, us, s.period);
    var k := First(TimesOf(s.callouts, s.dlist), t);
    Update(s, c, s.callouts[c].(time := t, state := InCalloutQueue, pending := true, handler := true,
                                regs := s.callouts[c].regs + 1))
      .(dlist := s.dlist[..k] + [c] + s.dlist[k..])
  }

  function Cancel(s: State, c: Id): State
    requires c in s.callouts
  {
    var k := s.callouts[c].(pending := false, state := Stopped);
    match s.callouts[c].state
    case InCalloutQueue =>
      Update(s, c, k.(drops := k.drops + 1)).(dlist := Erase(s.dlist, c))
    case InTaskQueue =>
      Update(s, c, k.(drops := k.drops + 1, status := Out)).(queue := Erase(s.queue, c))
    case _ => Update(s, c, k)
  }

  /** The drain loop, one callout a turn. */
  function DrainOne(s: State): State
    requires s.dlist != [] && s.dlist[0] in s.callouts
  {
    var c := s.dlist[0];
    RegisterTask(Update(s, c, s.callouts[c].(state := InTaskQueue)).(dlist := s.dlist[1..]), c)
  }

  function DrainAll(s: State, limit: nat): State
    requires forall d :: d in s.dlist ==> d in s.callouts
    decreases |s.dlist|
  {
    if s.dlist == [] || IsGreater(s.callouts[s.dlist[0]].time, limit) then s
    else
      assert forall d :: d in s.dlist[1..] ==> d in s.dlist;
      DrainAll(DrainOne(s), limit)
  }

  function DrainLimit(s: State): nat
    requires s.period > 0
  {
    CountAfterPeriod(s.now, TASK_EXECUTION_INTERVAL, s.period)
  }

  ghost predicate Formed(s: State) {
    && s.period > 0
    && (forall d :: d in s.dlist ==> d in s.callouts)
    && (forall d :: d in s.queue ==> d in s.callouts)
    && (s.pc.Idle? || s.pc.c in s.callouts)
  }

  ghost predicate Enabled(s: State, a: Action) {
    && Formed(s) && !s.panicked
    && match a
       case Tick(n) => s.now + n <= COUNT_LIMIT
       case RegisterCallout(c, us) =>
         && c in s.callouts && (s.callouts[c].state.Handling? || s.callouts[c].state.Stopped?)
         && CountAfterPeriod(s.now, us, s.period) <= COUNT_LIMIT
       case CancelCallout(c) => c in s.callouts
       case Drain => s.pc.Idle? && s.now + Counts(TASK_EXECUTION_INTERVAL, s.period) <= COUNT_LIMIT
       case PopTask => s.pc.Idle? && s.queue != []
       case CheckTime => s.pc.Popped?
       case Begin => s.pc.Due?
       case End => s.pc.Executing?
       case Finish => s.pc.Done?
  }

  ghost function Apply(s: State, a: Action): State
    requires Enabled(s, a)
  {
    match a
    case Tick(n) => s.(now := s.now + n)
    case RegisterCallout(c, us) => Register(s, c, us)
    case CancelCallout(c) => Cancel(s, c)
    case Drain => DrainAll(s, DrainLimit(s))
    case PopTask =>
      var c := s.queue[0];
      Update(s, c, s.callouts[c].(status := Running)).(queue := s.queue[1..], pc := Popped(c))
    case CheckTime =>
      var c := s.pc.c;
      if !s.callouts[c].handler then s.(panicked := true)
      else if IsGreater(s.now, s.callouts[c].time) then s.(pc := Due(c))
      else RegisterTask(s, c).(pc := Done(c))
    case Begin =>
      var c := s.pc.c;
      Update(s, c, s.callouts[c].(pending := false, state := Handling, handler := false, runs := s.callouts[c].runs + 1))
        .(pc := Executing(c))
    case End =>
      var c := s.pc.c;
      (if s.callouts[c].state.Handling? then Update(s, c, s.callouts[c].(state := Stopped)) else s).(pc := Done(c))
    case Finish =>
      var c := s.pc.c;
      (if s.callouts[c].status.Running? then Update(s, c, s.callouts[c].(status := Out)) else s).(pc := Idle)
  }

  /** The task of `c` has been popped and its handler has not yet taken the lock. */
  predicate AtWindow(s: State, c: Id) {
    s.pc == Popped(c) || s.pc == Due(c)
  }

  /** An execution of `c` is still to come unless it is cancelled. */
  predicate Armed(s: State, c: Id) {
    c in s.dlist || c in s.queue || AtWindow(s, c)
  }

  /** A registration of a callout whose task is still queued or popped. */
  predicate Stale(s: State, a: Action) {
    a.RegisterCallout? && (a.c in s.queue || AtWindow(s, a.c))
  }

  /** A registration of a callout that is still linked. */
  predicate Relinks(s: State, a: Action) {
    a.RegisterCallout? && a.c in s.dlist
  }

  /** A cancellation between the pop of the callout's task and the lock in its handler. */
  predicate InWindow(s: State, a: Action) {
    a.CancelCallout? && AtWindow(s, a.c)
  }

  /** `acts` leads through the states `run`. */
  ghost predicate Steps(run: seq<State>, acts: seq<Action>)
    ensures Steps(run, acts) ==> |run| == |acts| + 1
  {
    && |run| == |acts| + 1
    && forall i :: 0 <= i < |acts| ==> Enabled(run[i], acts[i]) && run[i + 1] == Apply(run[i], acts[i])
  }

  /** The same, with no stale registration. */
  ghost predicate Follows(run: seq<State>, acts: seq<Action>)
    ensures Follows(run, acts) ==> |run| == |acts| + 1
  {
    Steps(run, acts) && forall i :: 0 <= i < |acts| ==> !Stale(run[i], acts[i])
  }

  /** The same, with stale registrations but none that links a callout a second time. */
  ghost predicate LinksOnce(run: seq<State>, acts: seq<Action>)
    ensures LinksOnce(run, acts) ==> |run| == |acts| + 1
  {
    Steps(run, acts) && Init(run[0]) && forall i :: 0 <= i < |acts| ==> !Relinks(run[i], acts[i])
  }

  ghost predicate IsRun(run: seq<State>, acts: seq<Action>)
    ensures IsRun(run, acts) ==> |run| == |acts| + 1
  {
    Follows(run, acts) && Init(run[0])
  }

  // ---------------------------------------------------------------------------------------------
  // The invariant
  // ---------------------------------------------------------------------------------------------

  /** What stale registrations leave of the agreement of a callout with the lists, its task and the loop. */
  ghost predicate Traced(s: State, c: Id)
    requires c in s.callouts
  {
    var k := s.callouts[c];
    && (k.status.Waiting? <==> c in s.queue)
    && (k.status.Running? ==> !s.pc.Idle? && s.pc.c == c)
    && (AtWindow(s, c) || s.pc == Executing(c) ==> c !in s.queue)
    && (k.state.InCalloutQueue? ==> c in s.dlist && k.handler)
    && (k.state.InTaskQueue? ==> c !in s.dlist && (c in s.queue || (AtWindow(s, c) && k.status.Running?)))
    && (c in s.dlist && !k.state.InCalloutQueue? ==> !k.handler)
    && (c in s.queue && !k.handler ==> k.state.InTaskQueue?)
    && (s.pc == Popped(c) && !k.handler ==> c !in s.dlist)
    && (s.pc == Due(c) ==> k.handler)
    && k.time <= COUNT_LIMIT
  }

  /** The full agreement. */
  ghost predicate Agrees(s: State, c: Id)
    requires c in s.callouts
  {
    var k := s.callouts[c];
    && (k.state.InCalloutQueue? <==> c in s.dlist)
    && (k.status.Waiting? <==> c in s.queue)
    && (k.state.InTaskQueue? ==> c in s.queue || (AtWindow(s, c) && k.status.Running?))
    && (k.state.Handling? ==> s.pc == Executing(c))
    && (k.status.Running? ==> !s.pc.Idle? && s.pc.c == c)
    && (c in s.queue || AtWindow(s, c) ==> k.handler && (k.state.InTaskQueue? || k.state.Stopped?))
    && (AtWindow(s, c) || s.pc == Executing(c) ==> c !in s.queue)
    && (s.pc == Due(c) ==> k.time <= s.now)
    && (k.pending <==> Registered(k)) && (k.pending ==> k.handler)
    && k.time <= COUNT_LIMIT
    && k.runs + (if Armed(s, c) then 1 else 0) <= k.regs <= k.runs + k.drops + (if k.pending then 1 else 0)
  }

  /** The lists are in order and every callout is traced; `strict`: it agrees, and nothing has panicked. */
  ghost predicate Kept(s: State, strict: bool)
    ensures Kept(s, strict) ==> Formed(s)
  {
    && Formed(s) && s.now <= COUNT_LIMIT && (strict ==> !s.panicked)
    && Distinct(s.dlist) && Distinct(s.queue) && Sorted(TimesOf(s.callouts, s.dlist))
    && forall c :: c in s.callouts ==> Traced(s, c) && (strict ==> Agrees(s, c))
  }

  ghost predicate Orderly(s: State)
    ensures Orderly(s) ==> Formed(s)
  {
    Kept(s, false)
  }

  ghost predicate Inv(s: State)
    ensures Inv(s) ==> Formed(s)
  {
    Kept(s, true)
  }

  lemma InitInv(s: State)
    requires Init(s)
    ensures Inv(s)
  {
  }

  lemma Erased(l: seq<Id>, c: Id)
    requires Distinct(l)
    ensures Distinct(Erase(l, c)) && forall d :: d in Erase(l, c) <==> d in l && d != c
  {
  }

  /** The order of a list is about the times of its members only. */
  lemma SameTimes(m: map<Id, Callout>, m': map<Id, Callout>, l: seq<Id>)
    requires forall c :: c in l ==> c in m && c in m' && m[c].time == m'[c].time
    ensures TimesOf(m, l) == TimesOf(m', l)
  {
  }

  lemma WithoutSorted(t: seq<nat>, k: nat)
    requires Sorted(t) && k < |t|
    ensures Sorted(Without(t, k))
  {
  }

  lemma WithoutTimes(m: map<Id, Callout>, l: seq<Id>, k: nat)
    requires (forall d :: d in l ==> d in m) && k < |l|
    ensures (forall d :: d in Without(l, k) ==> d in m) && TimesOf(m, Without(l, k)) == Without(TimesOf(m, l), k)
  {
  }

  lemma ErasedTimes(m: map<Id, Callout>, l: seq<Id>, c: Id)
    requires Distinct(l) && (forall d :: d in l ==> d in m) && Sorted(TimesOf(m, l))
    ensures (forall d :: d in Erase(l, c) ==> d in m) && Sorted(TimesOf(m, Erase(l, c)))
  {
    hide Sorted, Distinct, Find;
    Erased(l, c);
    var k := Find(l, c);
    if k < |l| {
      WithoutSorted(TimesOf(m, l), k);
      WithoutTimes(m, l, k);
    }
  }

  lemma Inserted(l: seq<Id>, k: nat, c: Id)
    requires Distinct(l) && k <= |l| && c !in l
    ensures var r := l[..k] + [c] + l[k..]; Distinct(r) && forall d :: d in r <==> d in l || d == c
  {
  }

  lemma InsertedTimes(m: map<Id, Callout>, m': map<Id, Callout>, l: seq<Id>, c: Id)
    requires Distinct(l) && (forall d :: d in l ==> d in m) && Sorted(TimesOf(m, l)) && c !in l && c in m'
    requires forall d :: d in m && d != c ==> d in m' && m'[d] == m[d]
    requires m'[c].time <= COUNT_LIMIT
    ensures var k := First(TimesOf(m, l), m'[c].time);
            var r := l[..k] + [c] + l[k..];
            Distinct(r) && (forall d :: d in r <==> d in l || d == c) && Sorted(TimesOf(m', r))
  {
    hide Sorted, Distinct, First;
    var times, t := TimesOf(m, l), m'[c].time;
    var k := First(times, t);
    Inserted(l, k, c);
    InsertKeepsOrder(times, t);
    assert TimesOf(m', l[..k] + [c] + l[k..]) == times[..k] + [t] + times[k..];
  }

  lemma Tail(l: seq<Id>)
    requires l != [] && Distinct(l)
    ensures Distinct(l[1..]) && forall d :: d in l[1..] <==> d in l && d != l[0]
  {
  }

  lemma Appended(l: seq<Id>, c: Id)
    requires Distinct(l) && c !in l
    ensures Distinct(l + [c]) && forall d :: d in l + [c] <==> d in l || d == c
  {
  }

  lemma TailTimes(m: map<Id, Callout>, l: seq<Id>)
    requires l != [] && (forall d :: d in l ==> d in m) && Sorted(TimesOf(m, l))
    ensures (forall d :: d in l[1..] ==> d in m) && Sorted(TimesOf(m, l[1..]))
  {
  }

  /** Everyone but `c` is as before. */
  ghost predicate OthersSame(s: State, s': State, c: Id) {
    && s'.callouts.Keys == s.callouts.Keys
    && (forall d :: d in s.callouts && d != c ==> s'.callouts[d] == s.callouts[d])
    && (forall d :: d != c ==> (d in s.dlist <==> d in s'.dlist) && (d in s.queue <==> d in s'.queue))
    && s'.now == s.now && s'.period == s.period
    && (s'.pc == s.pc || ((s.pc.Idle? || s.pc.c == c) && (s'.pc.Idle? || s'.pc.c == c)))
  }

  lemma OthersAgree(s: State, s': State, c: Id, d: Id, strict: bool)
    requires OthersSame(s, s', c) && d in s.callouts && d != c && Traced(s, d) && (strict ==> Agrees(s, d))
    ensures d in s'.callouts && Traced(s', d) && (strict ==> Agrees(s', d))
  {
  }

  /** Assembles the invariant after a step that concerns one callout. */
  lemma StepKept(s: State, s': State, c: Id, strict: bool)
    requires Kept(s, strict) && c in s.callouts && OthersSame(s, s', c) && Formed(s') && (strict ==> !s'.panicked)
    requires Distinct(s'.dlist) && Distinct(s'.queue) && Sorted(TimesOf(s'.callouts, s'.dlist))
    requires Traced(s', c) && (strict ==> Agrees(s', c))
    ensures Kept(s', strict)
  {
    hide Traced, Agrees;
    forall d | d in s'.callouts && d != c ensures Traced(s', d) && (strict ==> Agrees(s', d)) {
      OthersAgree(s, s', c, d, strict);
    }
  }

  /** A callout of its own. */
  lemma KeptOne(s: State, c: Id, strict: bool)
    requires Kept(s, strict) && c in s.callouts
    ensures Traced(s, c) && (strict ==> Agrees(s, c))
  {
  }

  lemma InvIsOrderly(s: State)
    requires Inv(s)
    ensures Orderly(s)
  {
  }

  lemma RegisterKeeps(s: State, c: Id, us: int32, strict: bool)
    requires Kept(s, strict) && Enabled(s, RegisterCallout(c, us)) && c !in s.dlist
    requires strict ==> !Stale(s, RegisterCallout(c, us))
    ensures Kept(Register(s, c, us), strict)
  {
    hide Distinct, Sorted, First;
    var s' := Register(s, c, us);
    KeptOne(s, c, strict);
    InsertedTimes(s.callouts, s'.callouts, s.dlist, c);
    StepKept(s, s', c, strict);
  }

  lemma CancelKeeps(s: State, c: Id, strict: bool)
    requires Kept(s, strict) && c in s.callouts
    ensures Kept(Cancel(s, c), strict)
  {
    hide Distinct, Sorted, Erase, Traced, Agrees, TimesOf;
    CancelOwn(s, c, strict);
    var s' := Cancel(s, c);
    Erased(s.dlist, c);
    Erased(s.queue, c);
    ErasedTimes(s.callouts, s.dlist, c);
    SameTimes(s.callouts, s'.callouts, s'.dlist);
    StepKept(s, s', c, strict);
  }

  /** What the cancelled callout itself says. */
  lemma CancelOwn(s: State, c: Id, strict: bool)
    requires Kept(s, strict) && c in s.callouts
    ensures Traced(Cancel(s, c), c) && (strict ==> Agrees(Cancel(s, c), c))
  {
    hide Distinct, Sorted, Erase, TimesOf;
    KeptOne(s, c, strict);
    Erased(s.dlist, c);
    Erased(s.queue, c);
  }

  lemma DrainOneKeeps(s: State, strict: bool)
    requires Kept(s, strict) && s.pc.Idle? && s.dlist != []
    ensures Kept(DrainOne(s), strict) && DrainOne(s).pc.Idle? && DrainOne(s).dlist == s.dlist[1..]
    ensures s.callouts[s.dlist[0]].status.Waiting? <==> s.dlist[0] in s.queue
    ensures s.dlist[0] !in s.queue ==> DrainOne(s).queue == s.queue + [s.dlist[0]] && DrainOne(s).panicked == s.panicked
    ensures s.dlist[0] in s.queue ==> DrainOne(s).panicked && !strict
  {
    hide Sorted, Distinct, TimesOf, Traced, Agrees;
    var c, s' := s.dlist[0], DrainOne(s);
    DrainOneOwn(s, strict);
    Tail(s.dlist);
    TailTimes(s.callouts, s.dlist);
    SameTimes(s.callouts, s'.callouts, s'.dlist);
    if c !in s.queue { Appended(s.queue, c); }
    StepKept(s, s', c, strict);
  }

  /** What the drained callout itself says. */
  lemma DrainOneOwn(s: State, strict: bool)
    requires Kept(s, strict) && s.pc.Idle? && s.dlist != []
    ensures Traced(DrainOne(s), s.dlist[0]) && (strict ==> Agrees(DrainOne(s), s.dlist[0]) && !DrainOne(s).panicked)
    ensures s.callouts[s.dlist[0]].status.Waiting? <==> s.dlist[0] in s.queue
    ensures strict ==> s.dlist[0] !in s.queue
  {
    hide Sorted, TimesOf;
    KeptOne(s, s.dlist[0], strict);
    Tail(s.dlist);
  }

  /** A turn of the drain leaves the other callouts alone. */
  lemma DrainOneOther(s: State, c: Id)
    requires s.dlist != [] && s.dlist[0] in s.callouts && c in s.callouts && c != s.dlist[0]
    ensures SameAt(s, DrainOne(s), c) && DrainOne(s).now == s.now && DrainOne(s).period == s.period
  {
    assert s.dlist == [s.dlist[0]] + s.dlist[1..];
  }

  lemma {:induction false} DrainKeeps(s: State, limit: nat, strict: bool)
    requires Kept(s, strict) && s.pc.Idle?
    ensures Kept(DrainAll(s, limit), strict) && DrainAll(s, limit).pc.Idle?
    decreases |s.dlist|
  {
    hide Kept, DrainOne;
    if s.dlist != [] && !IsGreater(s.callouts[s.dlist[0]].time, limit) {
      DrainOneKeeps(s, strict);
      DrainKeeps(DrainOne(s), limit, strict);
    }
  }

  lemma PopKeeps(s: State, strict: bool)
    requires Kept(s, strict) && Enabled(s, PopTask)
    ensures Kept(Apply(s, PopTask), strict)
  {
    hide Distinct, Sorted, TimesOf;
    var s', c := Apply(s, PopTask), s.queue[0];
    KeptOne(s, c, strict);
    SameTimes(s.callouts, s'.callouts, s.dlist);
    Tail(s.queue);
    StepKept(s, s', c, strict);
  }

  lemma CheckKeeps(s: State, strict: bool)
    requires Kept(s, strict) && Enabled(s, CheckTime)
    ensures Kept(Apply(s, CheckTime), strict)
  {
    hide Distinct, Sorted, TimesOf;
    var s', c := Apply(s, CheckTime), s.pc.c;
    KeptOne(s, c, strict);
    SameTimes(s.callouts, s'.callouts, s.dlist);
    Appended(s.queue, c);
    StepKept(s, s', c, strict);
  }

  lemma BeginKeeps(s: State, strict: bool)
    requires Kept(s, strict) && Enabled(s, Begin)
    ensures Kept(Apply(s, Begin), strict)
  {
    hide Distinct, Sorted, TimesOf;
    var s', c := Apply(s, Begin), s.pc.c;
    KeptOne(s, c, strict);
    SameTimes(s.callouts, s'.callouts, s.dlist);
    StepKept(s, s', c, strict);
  }

  lemma EndKeeps(s: State, strict: bool)
    requires Kept(s, strict) && Enabled(s, End)
    ensures Kept(Apply(s, End), strict)
  {
    hide Distinct, Sorted, TimesOf;
    var s', c := Apply(s, End), s.pc.c;
    KeptOne(s, c, strict);
    SameTimes(s.callouts, s'.callouts, s.dlist);
    StepKept(s, s', c, strict);
  }

  lemma FinishKeeps(s: State, strict: bool)
    requires Kept(s, strict) && Enabled(s, Finish)
    ensures Kept(Apply(s, Finish), strict)
  {
    hide Distinct, Sorted, TimesOf;
    var s', c := Apply(s, Finish), s.pc.c;
    KeptOne(s, c, strict);
    SameTimes(s.callouts, s'.callouts, s.dlist);
    StepKept(s, s', c, strict);
  }

  lemma TickKeeps(s: State, n: nat, strict: bool)
    requires Kept(s, strict) && Enabled(s, Tick(n))
    ensures Kept(Apply(s, Tick(n)), strict)
  {
    forall c | c in s.callouts ensures Traced(Apply(s, Tick(n)), c) && (strict ==> Agrees(Apply(s, Tick(n)), c)) {
      KeptOne(s, c, strict);
    }
  }

  lemma ApplyKeeps(s: State, a: Action, strict: bool)
    requires Kept(s, strict) && Enabled(s, a) && (if strict then !Stale(s, a) else !Relinks(s, a))
    ensures Kept(Apply(s, a), strict)
  {
    match a
    case Tick(n) => TickKeeps(s, n, strict);
    case RegisterCallout(c, us) =>
      KeptOne(s, c, strict);
      RegisterKeeps(s, c, us, strict);
    case CancelCallout(c) => CancelKeeps(s, c, strict);
    case Drain => DrainKeeps(s, DrainLimit(s), strict);
    case PopTask => PopKeeps(s, strict);
    case CheckTime => CheckKeeps(s, strict);
    case Begin => BeginKeeps(s, strict);
    case End => EndKeeps(s, strict);
    case Finish => FinishKeeps(s, strict);
  }

  lemma {:induction false} StepsKeep(run: seq<State>, acts: seq<Action>, i: nat, strict: bool)
    requires Steps(run, acts) && Kept(run[0], strict) && i < |run|
    requires forall k :: 0 <= k < |acts| ==> if strict then !Stale(run[k], acts[k]) else !Relinks(run[k], acts[k])
    ensures Kept(run[i], strict)
  {
    hide Kept, Enabled, Apply;
    if i > 0 {
      var n := i - 1;
      StepsKeep(run, acts, n, strict);
      assert run[n + 1] == Apply(run[n], acts[n]);
      ApplyKeeps(run[n], acts[n], strict);
    }
  }

  lemma FollowsInv(run: seq<State>, acts: seq<Action>, i: nat)
    requires Follows(run, acts) && Inv(run[0]) && i < |run|
    ensures Inv(run[i])
  {
    StepsKeep(run, acts, i, true);
  }

  lemma RunInv(run: seq<State>, acts: seq<Action>, i: nat)
    requires IsRun(run, acts) && i < |run|
    ensures Inv(run[i])
  {
    InitInv(run[0]);
    FollowsInv(run, acts, i);
  }

  // ---------------------------------------------------------------------------------------------
  // What holds in every run
  // ---------------------------------------------------------------------------------------------

  /**
   * In every state of every run without a stale registration: nothing has panicked, both lists hold each
   * callout once, the callout list is sorted by time, a callout's state and its task's status say where it is
   * listed, whatever is queued or popped has its handler, no registration runs twice, and every registration
   * is executed, dropped or still pending.
   */
  lemma ListsAgree(run: seq<State>, acts: seq<Action>, i: nat, c: Id)
    requires IsRun(run, acts) && i < |run| && c in run[i].callouts
    ensures var s := run[i]; var k := s.callouts[c];
            && !s.panicked && Formed(s) && Sorted(TimesOf(s.callouts, s.dlist)) && Distinct(s.dlist) && Distinct(s.queue)
            && (k.state.InCalloutQueue? <==> c in s.dlist) && (k.status.Waiting? <==> c in s.queue)
            && (k.state.InTaskQueue? ==> k.status.Waiting? || AtWindow(s, c))
            && (k.pending <==> Registered(k)) && (Registered(k) || Armed(s, c) ==> k.handler)
            && k.runs + (if Armed(s, c) then 1 else 0) <= k.regs <= k.runs + k.drops + (if Registered(k) then 1 else 0)
  {
    InitInv(run[0]);
    FollowsInv(run, acts, i);
    assert Agrees(run[i], c);
  }

  /**
   * With stale registrations, as long as none links a callout a second time: both lists hold each callout once,
   * the callout list is sorted, a task is queued if and only if it is waiting, a registered callout is in the
   * list that its state says or popped, and one that is listed otherwise has lost its function.
   */
  lemma ListsTraced(run: seq<State>, acts: seq<Action>, i: nat, c: Id)
    requires LinksOnce(run, acts) && i < |run| && c in run[i].callouts
    ensures var s := run[i]; var k := s.callouts[c];
            && Formed(s) && Sorted(TimesOf(s.callouts, s.dlist)) && Distinct(s.dlist) && Distinct(s.queue)
            && (k.status.Waiting? <==> c in s.queue)
            && (k.state.InCalloutQueue? ==> c in s.dlist && k.handler)
            && (k.state.InTaskQueue? ==> c !in s.dlist && (c in s.queue || (AtWindow(s, c) && k.status.Running?)))
            && (c in s.dlist && !k.state.InCalloutQueue? ==> !k.handler)
  {
    LinksOnceOrderly(run, acts, i);
    KeptOne(run[i], c, false);
  }

  lemma LinksOnceOrderly(run: seq<State>, acts: seq<Action>, i: nat)
    requires LinksOnce(run, acts) && i < |run|
    ensures Orderly(run[i])
  {
    InitInv(run[0]);
    InvIsOrderly(run[0]);
    StepsKeep(run, acts, i, false);
  }

  /** Nothing of `c` is under way without a registration, and none is lost or executed after its cancellation. */
  ghost predicate Clean(s: State, c: Id)
    requires c in s.callouts
  {
    var k := s.callouts[c];
    (Armed(s, c) ==> Registered(k)) && k.regs == k.runs + k.drops + if Registered(k) then 1 else 0
  }

  lemma {:induction false} DrainKeepsClean(s: State, limit: nat, c: Id)
    requires Inv(s) && s.pc.Idle? && c in s.callouts && Clean(s, c)
    ensures c in DrainAll(s, limit).callouts && Clean(DrainAll(s, limit), c)
    decreases |s.dlist|
  {
    if s.dlist != [] && !IsGreater(s.callouts[s.dlist[0]].time, limit) {
      assert Agrees(s, s.dlist[0]) && Agrees(s, c);
      DrainOneKeeps(s, true);
      DrainKeepsClean(DrainOne(s), limit, c);
    }
  }

  /** The callout that a step other than the drain is about. */
  ghost function Actor(s: State, a: Action): Option<Id>
    requires Enabled(s, a) && !a.Drain?
  {
    match a
    case Tick(_) | Drain => None
    case RegisterCallout(c, _) => Some(c)
    case CancelCallout(c) => Some(c)
    case PopTask => Some(s.queue[0])
    case _ => Some(s.pc.c)
  }

  /** A callout and where it is listed. */
  predicate SameAt(s: State, s': State, c: Id) {
    && c in s.callouts && c in s'.callouts && s'.callouts[c] == s.callouts[c]
    && (c in s'.dlist <==> c in s.dlist) && (c in s'.queue <==> c in s.queue) && (AtWindow(s', c) <==> AtWindow(s, c))
  }

  lemma EraseOther(l: seq<Id>, d: Id, c: Id)
    requires c != d
    ensures c in Erase(l, d) <==> c in l
  {
    var k := Find(l, d);
    if c in l && k < |l| {
      var i :| 0 <= i < |l| && l[i] == c;
      assert Without(l, k)[if i < k then i else i - 1] == c;
    }
  }

  lemma InsertOther(l: seq<Id>, k: nat, d: Id, c: Id)
    requires c != d && k <= |l|
    ensures c in l[..k] + [d] + l[k..] <==> c in l
  {
    assert l == l[..k] + l[k..];
  }

  /** A step about another callout leaves `c` alone. */
  lemma OtherStep(s: State, a: Action, c: Id)
    requires Enabled(s, a) && !a.Drain? && c in s.callouts && Actor(s, a) != Some(c)
    ensures SameAt(s, Apply(s, a), c)
  {
    match a
    case RegisterCallout(d, us) => RegisterOther(s, d, us, c);
    case CancelCallout(d) => CancelOther(s, d, c);
    case _ => LoopOther(s, a, c);
  }

  lemma RegisterOther(s: State, d: Id, us: int32, c: Id)
    requires Enabled(s, RegisterCallout(d, us)) && c in s.callouts && c != d
    ensures SameAt(s, Register(s, d, us), c)
  {
    InsertOther(s.dlist, First(TimesOf(s.callouts, s.dlist), CountAfterPeriod(s.now, us, s.period)), d, c);
  }

  lemma CancelOther(s: State, d: Id, c: Id)
    requires d in s.callouts && c in s.callouts && c != d
    ensures SameAt(s, Cancel(s, d), c)
  {
    hide Erase;
    EraseOther(s.dlist, d, c);
    EraseOther(s.queue, d, c);
  }

  lemma LoopOther(s: State, a: Action, c: Id)
    requires Enabled(s, a) && !a.Drain? && !a.RegisterCallout? && !a.CancelCallout?
    requires c in s.callouts && Actor(s, a) != Some(c)
    ensures SameAt(s, Apply(s, a), c)
  {
    assert a.PopTask? ==> s.queue == [s.queue[0]] + s.queue[1..];
  }

  lemma CancelKeepsClean(s: State, c: Id)
    requires Inv(s) && c in s.callouts && Clean(s, c) && !AtWindow(s, c)
    ensures Clean(Cancel(s, c), c)
  {
    assert Agrees(s, c);
    Erased(s.dlist, c);
    Erased(s.queue, c);
  }

  lemma OwnStepKeepsClean(s: State, a: Action, c: Id)
    requires Inv(s) && Enabled(s, a) && !a.Drain? && !a.CancelCallout? && Actor(s, a) == Some(c) && Clean(s, c)
    ensures c in Apply(s, a).callouts && Clean(Apply(s, a), c)
  {
    assert Agrees(s, c);
    assert a.PopTask? ==> s.queue == [s.queue[0]] + s.queue[1..];
  }

  lemma StepKeepsClean(s: State, a: Action, c: Id)
    requires Inv(s) && Enabled(s, a) && !InWindow(s, a) && c in s.callouts && Clean(s, c)
    ensures c in Apply(s, a).callouts && Clean(Apply(s, a), c) && (Touches(a, c) ==> !Stale(s, a))
  {
    hide Inv, Apply, Clean;
    if a.Drain? {
      ApplyDrain(s);
      DrainKeepsClean(s, DrainLimit(s), c);
    } else if Actor(s, a) != Some(c) {
      OtherStep(s, a, c);
      CleanSame(s, Apply(s, a), c);
    } else if a.CancelCallout? {
      ApplyCancel(s, c);
      CancelKeepsClean(s, c);
    } else {
      OwnStepKeepsClean(s, a, c);
      NotStale(s, a, c);
    }
  }

  lemma ApplyDrain(s: State)
    requires Enabled(s, Drain)
    ensures Apply(s, Drain) == DrainAll(s, DrainLimit(s))
  {
  }

  lemma ApplyCancel(s: State, c: Id)
    requires Enabled(s, CancelCallout(c))
    ensures Apply(s, CancelCallout(c)) == Cancel(s, c)
  {
  }

  lemma CleanSame(s: State, s': State, c: Id)
    requires SameAt(s, s', c) && Clean(s, c)
    ensures Clean(s', c)
  {
  }

  lemma NotStale(s: State, a: Action, c: Id)
    requires Enabled(s, a) && c in s.callouts && Clean(s, c)
    ensures Touches(a, c) ==> !Stale(s, a)
  {
  }

  ghost predicate Touches(a: Action, c: Id) {
    a.RegisterCallout? && a.c == c
  }

  /**
   * In every run without a cancellation in the window no registration is stale, so `ListsAgree` applies; a
   * callout is registered exactly as long as an execution is to come; and registrations equal executions plus
   * cancellations plus the one pending.
   */
  lemma {:induction false} CalmRuns(run: seq<State>, acts: seq<Action>, i: nat)
    requires Steps(run, acts) && Init(run[0]) && i < |run|
    requires forall k :: 0 <= k < i ==> !InWindow(run[k], acts[k])
    ensures Inv(run[i]) && forall c :: c in run[i].callouts ==> Clean(run[i], c)
    ensures forall k :: 0 <= k < i ==> !Stale(run[k], acts[k])
  {
    if i == 0 {
      InitInv(run[0]);
    } else {
      hide Inv, Clean, Enabled, Apply;
      CalmRuns(run, acts, i - 1);
      var s, a := run[i - 1], acts[i - 1];
      forall c | c in s.callouts ensures c in run[i].callouts && Clean(run[i], c) && (Touches(a, c) ==> !Stale(s, a)) {
        StepKeepsClean(s, a, c);
      }
      if a.RegisterCallout? { RegisterKnown(s, a); }
      assert !Stale(s, a);
      ApplyKeeps(s, a, true);
      forall c | c in run[i].callouts ensures c in s.callouts {
        KnownBefore(s, a, c);
      }
    }
  }

  lemma RegisterKnown(s: State, a: Action)
    requires Enabled(s, a) && a.RegisterCallout?
    ensures a.c in s.callouts && Touches(a, a.c)
  {
  }

  lemma {:induction false} DrainKeepsCallouts(s: State, limit: nat)
    requires forall d :: d in s.dlist ==> d in s.callouts
    ensures DrainAll(s, limit).callouts.Keys == s.callouts.Keys && DrainAll(s, limit).period == s.period
    ensures forall c :: c in s.callouts ==> DrainAll(s, limit).callouts[c].time == s.callouts[c].time
    ensures DrainAll(s, limit).now == s.now && DrainAll(s, limit).pc == s.pc
    ensures forall d :: d in DrainAll(s, limit).dlist ==> d in s.dlist
    ensures forall d :: d in DrainAll(s, limit).queue ==> d in s.dlist || d in s.queue
    decreases |s.dlist|
  {
    if s.dlist != [] && !IsGreater(s.callouts[s.dlist[0]].time, limit) {
      assert forall d :: d in s.dlist[1..] ==> d in s.dlist;
      DrainKeepsCallouts(DrainOne(s), limit);
    }
  }

  lemma KnownBefore(s: State, a: Action, c: Id)
    requires Enabled(s, a) && c in Apply(s, a).callouts
    ensures c in s.callouts
  {
    if a.Drain? {
      DrainKeepsCallouts(s, DrainLimit(s));
    }
  }

  lemma Regroup(queue: seq<Id>, l: seq<Id>, k: nat)
    requires k + 1 <= |l|
    ensures l[1..][k..] == l[k + 1..] && queue + [l[0]] + l[1..][..k] == queue + l[..k + 1]
  {
  }

  lemma DrainOneTimes(s: State)
    requires Inv(s) && s.dlist != []
    ensures forall d :: d in s.dlist[1..] ==> d in DrainOne(s).callouts
    ensures TimesOf(DrainOne(s).callouts, s.dlist[1..]) == TimesOf(s.callouts, s.dlist)[1..]
  {
    hide Inv;
  }

  lemma FirstUnfold(times: seq<nat>, limit: nat)
    requires times != [] && !IsGreater(times[0], limit)
    ensures First(times, limit) == 1 + First(times[1..], limit)
  {
  }

  lemma {:induction false} DrainPrefix(s: State, limit: nat)
    requires Inv(s) && s.pc.Idle?
    ensures var s', k := DrainAll(s, limit), First(TimesOf(s.callouts, s.dlist), limit);
            s'.dlist == s.dlist[k..] && s'.queue == s.queue + s.dlist[..k]
    decreases |s.dlist|
  {
    if s.dlist != [] && !IsGreater(s.callouts[s.dlist[0]].time, limit) {
      assert Agrees(s, s.dlist[0]);
      hide Inv, IsGreater, DrainOne, Agrees;
      var times := TimesOf(s.callouts, s.dlist);
      DrainOneKeeps(s, true);
      DrainOneTimes(s);
      DrainPrefix(DrainOne(s), limit);
      FirstUnfold(times, limit);
      Regroup(s.queue, s.dlist, First(times[1..], limit));
    }
  }

  /** The drain moves exactly the callouts due before the limit, in their order, behind the waiting tasks. */
  lemma DrainMoves(s: State, limit: nat) returns (k: nat)
    requires Inv(s) && s.pc.Idle? && limit <= COUNT_LIMIT
    ensures k <= |s.dlist| && DrainAll(s, limit).dlist == s.dlist[k..]
    ensures DrainAll(s, limit).queue == s.queue + s.dlist[..k]
    ensures forall i :: 0 <= i < |s.dlist| ==> (i < k <==> s.callouts[s.dlist[i]].time < limit)
  {
    var times := TimesOf(s.callouts, s.dlist);
    k := First(times, limit);
    DrainPrefix(s, limit);
    DueIsPrefix(times, limit);
  }

  // ---------------------------------------------------------------------------------------------
  // Exactly when a function begins early
  // ---------------------------------------------------------------------------------------------

  /** What every step keeps, stale registrations included. */
  ghost predicate Bounded(s: State) {
    Formed(s) && s.now <= COUNT_LIMIT && forall c :: c in s.callouts ==> s.callouts[c].time <= COUNT_LIMIT
  }

  lemma RegisterKeepsBounded(s: State, c: Id, us: int32)
    requires Bounded(s) && Enabled(s, RegisterCallout(c, us))
    ensures Bounded(Register(s, c, us))
  {
    var k := First(TimesOf(s.callouts, s.dlist), CountAfterPeriod(s.now, us, s.period));
    assert s.dlist == s.dlist[..k] + s.dlist[k..];
  }

  lemma CancelKeepsBounded(s: State, c: Id)
    requires Bounded(s) && c in s.callouts
    ensures Bounded(Cancel(s, c))
  {
    hide Erase;
    forall d | d in Erase(s.dlist, c) ensures d in s.dlist { EraseMember(s.dlist, c, d); }
    forall d | d in Erase(s.queue, c) ensures d in s.queue { EraseMember(s.queue, c, d); }
  }

  lemma EraseMember(l: seq<Id>, c: Id, d: Id)
    requires d in Erase(l, c)
    ensures d in l
  {
  }

  lemma LoopKeepsBounded(s: State, a: Action)
    requires Bounded(s) && Enabled(s, a) && !a.Drain? && !a.RegisterCallout? && !a.CancelCallout?
    ensures Bounded(Apply(s, a))
  {
    assert a.PopTask? ==> s.queue == [s.queue[0]] + s.queue[1..];
  }

  lemma ApplyKeepsBounded(s: State, a: Action)
    requires Bounded(s) && Enabled(s, a)
    ensures Bounded(Apply(s, a))
  {
    match a
    case RegisterCallout(c, us) => RegisterKeepsBounded(s, c, us);
    case CancelCallout(c) => CancelKeepsBounded(s, c);
    case Drain => DrainKeepsCallouts(s, DrainLimit(s));
    case _ => LoopKeepsBounded(s, a);
  }

  lemma {:induction false} StepsBounded(run: seq<State>, acts: seq<Action>, i: nat)
    requires Steps(run, acts) && Init(run[0]) && i < |run|
    ensures Bounded(run[i]) && run[i].period == run[0].period
  {
    if i > 0 {
      StepsBounded(run, acts, i - 1);
      ApplyKeepsBounded(run[i - 1], acts[i - 1]);
      KeepsPeriod(run[i - 1], acts[i - 1]);
    }
  }

  lemma KeepsPeriod(s: State, a: Action)
    requires Enabled(s, a)
    ensures Apply(s, a).period == s.period && Apply(s, a).now >= s.now
  {
    if a.Drain? { DrainKeepsCallouts(s, DrainLimit(s)); }
  }

  /** Only a registration changes the time of a callout. */
  lemma KeepsTime(s: State, a: Action, c: Id)
    requires Enabled(s, a) && c in s.callouts
    ensures c in Apply(s, a).callouts
    ensures Apply(s, a).callouts[c].time ==
            if Touches(a, c) then CountAfterPeriod(s.now, a.us, s.period) else s.callouts[c].time
  {
    if a.Drain? {
      DrainKeepsCallouts(s, DrainLimit(s));
    } else if Actor(s, a) != Some(c) {
      hide Apply;
      OtherStep(s, a, c);
    } else {
      OwnStep(s, a, c);
    }
  }

  lemma OwnStep(s: State, a: Action, c: Id)
    requires Enabled(s, a) && !a.Drain? && Actor(s, a) == Some(c)
    ensures c in Apply(s, a).callouts && Apply(s, a).callouts[c].runs >= s.callouts[c].runs
    ensures Apply(s, a).callouts[c].time ==
            if a.RegisterCallout? then CountAfterPeriod(s.now, a.us, s.period) else s.callouts[c].time
  {
  }

  /** The last registration of `c` from step `k` to step `j`. */
  ghost predicate LastRegistration(acts: seq<Action>, i: nat, k: nat, j: nat, c: Id)
    requires j <= |acts|
  {
    k <= i < j && Touches(acts[i], c) && forall m :: i < m < j ==> !Touches(acts[m], c)
  }

  lemma {:induction false} StaysKnown(run: seq<State>, acts: seq<Action>, c: Id, k: nat, j: nat)
    requires Steps(run, acts) && k <= j < |run| && c in run[k].callouts
    ensures c in run[j].callouts && run[j].now >= run[k].now
    decreases j
  {
    hide Enabled, Apply;
    if k < j {
      var n := j - 1;
      StaysKnown(run, acts, c, k, n);
      assert run[n + 1] == Apply(run[n], acts[n]);
      KeepsTime(run[n], acts[n], c);
      KeepsPeriod(run[n], acts[n]);
    }
  }

  /** Without a registration the time stays. */
  lemma {:induction false} TimeKept(run: seq<State>, acts: seq<Action>, c: Id, k: nat, j: nat)
    requires Steps(run, acts) && k <= j < |run| && c in run[k].callouts
    requires forall i :: k <= i < j ==> !Touches(acts[i], c)
    ensures c in run[j].callouts && run[j].callouts[c].time == run[k].callouts[c].time
    decreases j
  {
    hide Enabled, Apply;
    if k < j {
      var n := j - 1;
      TimeKept(run, acts, c, k, n);
      assert run[n + 1] == Apply(run[n], acts[n]);
      KeepsTime(run[n], acts[n], c);
    }
  }

  /** The time of a callout is the one of its last registration. */
  lemma TimeSince(run: seq<State>, acts: seq<Action>, c: Id, k: nat, j: nat)
    requires Steps(run, acts) && k <= j < |run| && c in run[k].callouts
    ensures c in run[j].callouts && run[j].now >= run[k].now
    ensures forall i: nat :: LastRegistration(acts, i, k, j, c) ==>
      run[i].period > 0 && run[j].callouts[c].time == CountAfterPeriod(run[i].now, acts[i].us, run[i].period)
    ensures (forall i :: k <= i < j ==> !Touches(acts[i], c)) ==> run[j].callouts[c].time == run[k].callouts[c].time
  {
    hide Enabled, Apply, CountAfterPeriod;
    StaysKnown(run, acts, c, k, j);
    forall i: nat | LastRegistration(acts, i, k, j, c)
      ensures run[i].period > 0 && run[j].callouts[c].time == CountAfterPeriod(run[i].now, acts[i].us, run[i].period)
    {
      StaysKnown(run, acts, c, k, i);
      assert run[i + 1] == Apply(run[i], acts[i]);
      HasPeriod(run[i], acts[i]);
      KeepsTime(run[i], acts[i], c);
      TimeKept(run, acts, c, i + 1, j);
    }
    if forall i :: k <= i < j ==> !Touches(acts[i], c) {
      TimeKept(run, acts, c, k, j);
    }
  }

  lemma HasPeriod(s: State, a: Action)
    requires Enabled(s, a)
    ensures s.period > 0
  {
  }

  lemma {:induction false} SomeLast(acts: seq<Action>, k: nat, j: nat, c: Id)
    requires k <= j <= |acts|
    ensures (exists i: nat :: LastRegistration(acts, i, k, j, c)) || forall i :: k <= i < j ==> !Touches(acts[i], c)
    decreases j
  {
    if k < j {
      if Touches(acts[j - 1], c) {
        assert LastRegistration(acts, j - 1, k, j, c);
      } else {
        var n := j - 1;
        SomeLast(acts, k, n, c);
        if i: nat :| LastRegistration(acts, i, k, n, c) {
          assert LastRegistration(acts, i, k, j, c);
        }
      }
    }
  }

  /** From state `k` to state `j` the handler of `c` has found the time passed and not yet taken the lock. */
  ghost predicate DueSince(run: seq<State>, k: nat, j: nat, c: Id) {
    0 < k <= j < |run| && run[k - 1].pc != Due(c) && forall m :: k <= m <= j ==> run[m].pc == Due(c)
  }

  lemma BecomesDue(s: State, a: Action, c: Id)
    requires Bounded(s) && Enabled(s, a) && s.pc != Due(c) && Apply(s, a).pc == Due(c)
    ensures c in s.callouts && c in Apply(s, a).callouts && Apply(s, a).callouts[c].time <= Apply(s, a).now
  {
    if a.Drain? { DrainKeepsCallouts(s, DrainLimit(s)); }
    assert a.CheckTime?;
  }

  /**
   * In every run whatever, the function of a callout is about to begin before its time if and only if the
   * callout was registered again while its handler stood between the test of the time and the lock, and the
   * count of the last such registration has not been reached.
   */
  lemma EarlyExact(run: seq<State>, acts: seq<Action>, c: Id, k: nat, j: nat)
    requires Steps(run, acts) && Init(run[0]) && j < |run| && DueSince(run, k, j, c)
    ensures c in run[j].callouts && run[0].period > 0
    ensures run[j].now < run[j].callouts[c].time <==>
            exists i: nat :: LastRegistration(acts, i, k, j, c) &&
                        run[j].now < CountAfterPeriod(run[i].now, acts[i].us, run[0].period)
  {
    hide Apply, Enabled;
    StepsBounded(run, acts, k - 1);
    assert run[(k - 1) + 1] == Apply(run[k - 1], acts[k - 1]);
    BecomesDue(run[k - 1], acts[k - 1], c);
    TimeSince(run, acts, c, k, j);
    SomeLast(acts, k, j, c);
    forall i: nat | LastRegistration(acts, i, k, j, c) ensures run[i].period == run[0].period {
      StepsBounded(run, acts, i);
    }
    StepsBounded(run, acts, 0);
  }

  /** Without a stale registration a function begins only when the clock has reached its time. */
  lemma NeverEarly(run: seq<State>, acts: seq<Action>, i: nat)
    requires IsRun(run, acts) && i < |acts| && acts[i].Begin?
    ensures Enabled(run[i], Begin) && run[i].callouts[run[i].pc.c].time <= run[i].now
  {
    InitInv(run[0]);
    FollowsInv(run, acts, i);
    assert Agrees(run[i], run[i].pc.c);
  }

  // ---------------------------------------------------------------------------------------------
  // Cancellation and delay
  // ---------------------------------------------------------------------------------------------

  /**
   * What a cancellation of `c` leaves to be executed: a second link in the list that it searches, and whatever
   * is in the other list or popped.
   */
  predicate Remains(s: State, c: Id)
    requires c in s.callouts
  {
    match s.callouts[c].state
    case InCalloutQueue => multiset(s.dlist)[c] > 1 || c in s.queue || AtWindow(s, c)
    case InTaskQueue => c in s.dlist || multiset(s.queue)[c] > 1 || AtWindow(s, c)
    case _ => Armed(s, c)
  }

  lemma ErasesOne(l: seq<Id>, c: Id)
    ensures c in Erase(l, c) <==> multiset(l)[c] > 1
  {
    var k := Find(l, c);
    if k < |l| {
      assert l == l[..k] + [l[k]] + l[k + 1..];
      assert multiset(l) == multiset(l[..k]) + multiset{c} + multiset(l[k + 1..]);
    }
  }

  lemma CancelLeaves(s: State, c: Id)
    requires c in s.callouts
    ensures Armed(Cancel(s, c), c) <==> Remains(s, c)
  {
    hide Erase;
    ErasesOne(s.dlist, c);
    ErasesOne(s.queue, c);
  }

  // Nothing to be executed, and no registration: it stays so.

  lemma {:induction false} DrainUnarmed(s: State, limit: nat, c: Id)
    requires (forall d :: d in s.dlist ==> d in s.callouts) && c in s.callouts && !Armed(s, c)
    ensures var t := DrainAll(s, limit); c in t.callouts && !Armed(t, c) && t.callouts[c].runs == s.callouts[c].runs
    decreases |s.dlist|
  {
    hide DrainOne;
    if s.dlist != [] && !IsGreater(s.callouts[s.dlist[0]].time, limit) {
      DrainOneOther(s, c);
      DrainOneLists(s);
      DrainUnarmed(DrainOne(s), limit, c);
    }
  }

  lemma DrainOneLists(s: State)
    requires s.dlist != [] && forall d :: d in s.dlist ==> d in s.callouts
    ensures var t := DrainOne(s); t.dlist == s.dlist[1..] && forall d :: d in t.dlist ==> d in t.callouts
  {
    assert forall d :: d in s.dlist[1..] ==> d in s.dlist;
  }

  lemma StepUnarmed(s: State, a: Action, c: Id)
    requires Enabled(s, a) && c in s.callouts && !Armed(s, c) && !Touches(a, c)
    ensures var t := Apply(s, a); c in t.callouts && !Armed(t, c) && t.callouts[c].runs == s.callouts[c].runs
  {
    if a.Drain? {
      DrainUnarmed(s, DrainLimit(s), c);
    } else if Actor(s, a) != Some(c) {
      hide Apply;
      OtherStep(s, a, c);
    } else if a.CancelCallout? {
      CancelLeaves(s, c);
      OnlyOnce(s.dlist, c);
      OnlyOnce(s.queue, c);
    }
  }

  lemma OnlyOnce(l: seq<Id>, c: Id)
    requires c !in l
    ensures multiset(l)[c] == 0
  {
  }

  lemma {:induction false} Unarmed(run: seq<State>, acts: seq<Action>, c: Id, i: nat, j: nat)
    requires Steps(run, acts) && i <= j < |run| && c in run[i].callouts && !Armed(run[i], c)
    requires forall m :: i <= m < j ==> !Touches(acts[m], c)
    ensures c in run[j].callouts && !Armed(run[j], c) && run[j].callouts[c].runs == run[i].callouts[c].runs
    decreases j
  {
    hide Enabled, Apply, Armed;
    if i < j {
      var n := j - 1;
      Unarmed(run, acts, c, i, n);
      assert run[n + 1] == Apply(run[n], acts[n]);
      StepUnarmed(run[n], acts[n], c);
    }
  }

  /**
   * In every run whatever: a callout that is not registered again does not run after a cancellation, unless the
   * cancellation leaves something of it.
   */
  lemma CancelledDoesNotRun(run: seq<State>, acts: seq<Action>, c: Id, i: nat, j: nat)
    requires Steps(run, acts) && i < j < |run| && acts[i] == CancelCallout(c)
    requires forall m :: i < m < j ==> !Touches(acts[m], c)
    ensures c in run[i].callouts && c in run[j].callouts
    ensures Remains(run[i], c) || (run[j].callouts[c].runs == run[i].callouts[c].runs && !Armed(run[j], c))
  {
    assert run[i + 1] == Cancel(run[i], c);
    CancelLeaves(run[i], c);
    if Remains(run[i], c) {
      StaysKnown(run, acts, c, i, j);
    } else {
      Unarmed(run, acts, c, i + 1, j);
    }
  }

  /** The executions of `c` and the one to come. */
  function Total(s: State, c: Id): nat
    requires c in s.callouts
  {
    s.callouts[c].runs + if Armed(s, c) then 1 else 0
  }

  lemma {:induction false} DrainKeepsTotal(s: State, limit: nat, c: Id)
    requires Inv(s) && s.pc.Idle? && c in s.callouts
    ensures c in DrainAll(s, limit).callouts && Total(DrainAll(s, limit), c) == Total(s, c)
    decreases |s.dlist|
  {
    hide Kept, DrainOne, Total;
    if s.dlist != [] && !IsGreater(s.callouts[s.dlist[0]].time, limit) {
      DrainOneKeeps(s, true);
      DrainOneTotal(s, c);
      DrainKeepsTotal(DrainOne(s), limit, c);
    }
  }

  lemma DrainOneTotal(s: State, c: Id)
    requires s.dlist != [] && s.dlist[0] in s.callouts && s.pc.Idle? && c in s.callouts
    requires !s.callouts[s.dlist[0]].status.Waiting?
    ensures c in DrainOne(s).callouts && Total(DrainOne(s), c) == Total(s, c)
  {
    if c != s.dlist[0] {
      DrainOneOther(s, c);
    }
  }

  lemma OwnStepTotal(s: State, a: Action, c: Id)
    requires Inv(s) && Enabled(s, a) && !a.Drain? && !a.RegisterCallout? && Actor(s, a) == Some(c)
    ensures c in Apply(s, a).callouts && Total(Apply(s, a), c) <= Total(s, c)
  {
    assert Agrees(s, c);
    if a.CancelCallout? {
      Erased(s.dlist, c);
      Erased(s.queue, c);
    }
    assert a.PopTask? ==> s.queue == [s.queue[0]] + s.queue[1..];
  }

  /** Only a registration adds an execution to come. */
  lemma StepTotal(s: State, a: Action, c: Id)
    requires Inv(s) && Enabled(s, a) && c in s.callouts && !Touches(a, c)
    ensures c in Apply(s, a).callouts && Total(Apply(s, a), c) <= Total(s, c)
  {
    hide Inv, Apply;
    if a.Drain? {
      ApplyDrain(s);
      DrainKeepsTotal(s, DrainLimit(s), c);
    } else if Actor(s, a) != Some(c) {
      OtherStep(s, a, c);
    } else {
      OwnStepTotal(s, a, c);
    }
  }

  lemma {:induction false} TotalSince(run: seq<State>, acts: seq<Action>, c: Id, i: nat, j: nat)
    requires Follows(run, acts) && Inv(run[0]) && i <= j < |run| && c in run[i].callouts
    requires forall m :: i <= m < j ==> !Touches(acts[m], c)
    ensures c in run[j].callouts && Total(run[j], c) <= Total(run[i], c)
    decreases j
  {
    hide Inv, Apply, Enabled, Total;
    if i < j {
      TotalSince(run, acts, c, i, j - 1);
      FollowsInv(run, acts, j - 1);
      assert run[(j - 1) + 1] == Apply(run[j - 1], acts[j - 1]);
      StepTotal(run[j - 1], acts[j - 1], c);
    }
  }

  /** Without a stale registration it runs at most once more. */
  lemma RemainsOnce(run: seq<State>, acts: seq<Action>, c: Id, i: nat, j: nat)
    requires IsRun(run, acts) && i < j < |run| && acts[i] == CancelCallout(c)
    requires forall m :: i < m < j ==> !Touches(acts[m], c)
    ensures c in run[i].callouts && c in run[j].callouts
    ensures run[j].callouts[c].runs <= run[i].callouts[c].runs + if Remains(run[i], c) then 1 else 0
    ensures run[j].callouts[c].runs == run[i].callouts[c].runs || !Armed(run[j], c)
  {
    InitInv(run[0]);
    RunInv(run, acts, i);
    assert run[i + 1] == Cancel(run[i], c);
    CancelLeaves(run[i], c);
    TotalSince(run, acts, c, i + 1, j);
    RunsGrow(run, acts, c, i + 1, j);
  }

  lemma RunsStep(s: State, a: Action, c: Id)
    requires Enabled(s, a) && c in s.callouts
    ensures c in Apply(s, a).callouts && Apply(s, a).callouts[c].runs >= s.callouts[c].runs
  {
    if a.Drain? {
      DrainKeepsRuns(s, DrainLimit(s), c);
    } else if Actor(s, a) != Some(c) {
      hide Apply;
      OtherStep(s, a, c);
    } else {
      hide Apply;
      OwnStep(s, a, c);
    }
  }

  lemma {:induction false} DrainKeepsRuns(s: State, limit: nat, c: Id)
    requires (forall d :: d in s.dlist ==> d in s.callouts) && c in s.callouts
    ensures c in DrainAll(s, limit).callouts && DrainAll(s, limit).callouts[c].runs == s.callouts[c].runs
    decreases |s.dlist|
  {
    if s.dlist != [] && !IsGreater(s.callouts[s.dlist[0]].time, limit) {
      assert forall d :: d in s.dlist[1..] ==> d in s.dlist;
      DrainKeepsRuns(DrainOne(s), limit, c);
    }
  }

  lemma {:induction false} RunsGrow(run: seq<State>, acts: seq<Action>, c: Id, i: nat, j: nat)
    requires Steps(run, acts) && i <= j < |run| && c in run[i].callouts
    ensures c in run[j].callouts && run[j].callouts[c].runs >= run[i].callouts[c].runs
    decreases j
  {
    if i < j {
      RunsGrow(run, acts, c, i, j - 1);
      RunsStep(run[j - 1], acts[j - 1], c);
    }
  }
}
