/**
 * When the function of a cancelled callout (source/kernel/task.cc) can still run, in the states of every run, with
 * stale registrations, up to the first one that links a callout a second time.
 */
module CalloutCancel {
  import opened CalloutList
  import opened CalloutPanic
  import opened Callouts
  import opened Lists
  import opened Words

  /** From `s`, without a registration of `c`, a run can lead to `t`. */
  ghost predicate Leads(s: State, t: State, c: Id) {
    exists run, acts :: Steps(run, acts) && run[0] == s && Last(run) == t && NoneTouches(acts, c)
  }

  ghost predicate NoneTouches(acts: seq<Action>, c: Id) {
    forall m :: 0 <= m < |acts| ==> !Touches(acts[m], c)
  }

  /** The function of `c` can begin without a new registration. */
  ghost predicate CanRun(s: State, c: Id) {
    exists t :: Leads(s, t, c) && t.pc == Due(c)
  }

  lemma LeadSelf(s: State, c: Id)
    ensures Leads(s, s, c)
  {
    assert Steps([s], []) && NoneTouches([], c);
  }

  lemma LeadOn(s: State, t: State, u: State, c: Id)
    requires Leads(s, t, c) && Leads(t, u, c)
    ensures Leads(s, u, c)
  {
    hide Steps;
    var r1, a1 :| Steps(r1, a1) && r1[0] == s && Last(r1) == t && NoneTouches(a1, c);
    var r2, a2 :| Steps(r2, a2) && r2[0] == t && Last(r2) == u && NoneTouches(a2, c);
    JoinSteps(r1, a1, r2, a2);
    assert NoneTouches(a1 + a2, c);
  }

  lemma LeadStep(s: State, t: State, a: Action, c: Id)
    requires Leads(s, t, c) && Enabled(t, a) && !Touches(a, c)
    ensures Leads(s, Apply(t, a), c)
  {
    assert Steps([t, Apply(t, a)], [a]) && NoneTouches([a], c);
    hide Leads;
    LeadOne(t, a, c);
    LeadOn(s, t, Apply(t, a), c);
  }

  lemma LeadOne(t: State, a: Action, c: Id)
    requires Enabled(t, a) && !Touches(a, c)
    ensures Leads(t, Apply(t, a), c)
  {
    assert Steps([t, Apply(t, a)], [a]) && NoneTouches([a], c);
  }

  /** Nothing of `c` is left to be executed, or it has no function. */
  predicate Spent(s: State, c: Id) {
    c in s.callouts && s.pc != Due(c) && (!s.callouts[c].handler || !Armed(s, c))
  }

  lemma {:induction false} DrainKeepsHandler(s: State, limit: nat, c: Id)
    requires (forall d :: d in s.dlist ==> d in s.callouts) && c in s.callouts
    ensures var t := DrainAll(s, limit); c in t.callouts && t.callouts[c].handler == s.callouts[c].handler && t.pc == s.pc
    decreases |s.dlist|
  {
    if s.dlist != [] && !IsGreater(s.callouts[s.dlist[0]].time, limit) {
      DrainOneLists(s);
      DrainKeepsHandler(DrainOne(s), limit, c);
    }
  }

  lemma SpentStays(s: State, a: Action, c: Id)
    requires Enabled(s, a) && Spent(s, c) && !Touches(a, c)
    ensures Spent(Apply(s, a), c)
  {
    if !Armed(s, c) {
      hide Apply;
      StepUnarmed(s, a, c);
    } else if a.Drain? {
      DrainKeepsHandler(s, DrainLimit(s), c);
    } else if a.CancelCallout? || a.RegisterCallout? {
      LocalStep(s, a, c);
    }
  }

  lemma LocalStep(s: State, a: Action, c: Id)
    requires Enabled(s, a) && (a.CancelCallout? || a.RegisterCallout?) && c in s.callouts && !Touches(a, c)
    ensures var t := Apply(s, a); c in t.callouts && t.callouts[c].handler == s.callouts[c].handler && t.pc == s.pc
  {
  }

  lemma {:induction false} PathSpent(run: seq<State>, acts: seq<Action>, i: nat, c: Id)
    requires Steps(run, acts) && NoneTouches(acts, c) && i < |run| && Spent(run[0], c)
    ensures Spent(run[i], c)
  {
    hide Enabled, Apply, Spent;
    if i > 0 {
      var n := i - 1;
      PathSpent(run, acts, n, c);
      assert run[n + 1] == Apply(run[n], acts[n]);
      SpentStays(run[n], acts[n], c);
    }
  }

  lemma SpentIsOver(s: State, c: Id)
    requires Spent(s, c)
    ensures !CanRun(s, c)
  {
    forall t | Leads(s, t, c) ensures t.pc != Due(c) {
      var run, acts :| Steps(run, acts) && run[0] == s && Last(run) == t && NoneTouches(acts, c);
      PathSpent(run, acts, |acts|, c);
    }
  }

  /** `c` waits in the queue with its function. */
  ghost predicate Waits(s: State, c: Id)
    ensures Waits(s, c) ==> c in s.callouts && c in s.queue && Formed(s) && !s.panicked
  {
    Orderly(s) && !s.panicked && c in s.callouts && c in s.queue && s.callouts[c].handler
  }

  /** Another task without a function has been popped: cancelling and registering its callout gives it one. */
  lemma GiveFunction(s: State, c: Id) returns (t: State)
    requires Waits(s, c) && s.pc.Popped? && s.pc.c != c && !s.callouts[s.pc.c].handler
    ensures Leads(s, t, c) && Waits(t, c) && t.pc == s.pc && t.queue == s.queue && t.callouts[t.pc.c].handler
  {
    hide Leads, Distinct, Sorted;
    var d := s.pc.c;
    KeptOne(s, d, false);
    LeadOne(s, CancelCallout(d), c);
    var u := Cancel(s, d);
    CancelKeeps(s, d, false);
    CancelOther(s, d, c);
    NotListed(s.queue, d);
    CountsAfter(u.now, 0, u.period);
    NoneInZero(u.period);
    LeadStep(s, u, RegisterCallout(d, 0), c);
    t := Register(u, d, 0);
    ErasedNot(s.dlist, d);
    RegisterKeeps(u, d, 0, false);
    RegisterOther(u, d, 0, c);
  }

  lemma NotListed(l: seq<Id>, d: Id)
    requires d !in l
    ensures Erase(l, d) == l
  {
  }

  lemma ErasedNot(l: seq<Id>, d: Id)
    requires d !in l
    ensures d !in Erase(l, d)
  {
  }

  lemma NoneInZero(period: nat)
    requires period > 0
    ensures Counts(0, period) == 0
  {
  }

  /** A step of the loop on another callout. */
  lemma TurnStep(s: State, c: Id)
    requires Waits(s, c) && !s.pc.Idle? && (s.pc.Popped? ==> s.callouts[s.pc.c].handler)
    ensures Enabled(s, LoopAction(s.pc)) && !Touches(LoopAction(s.pc), c)
    ensures var t := Apply(s, LoopAction(s.pc)); Waits(t, c) && Rank(t.pc) < Rank(s.pc) && s.queue <= t.queue
  {
    LoopStep(s);
    KeptOne(s, s.pc.c, false);
    KeptOne(s, c, false);
    ApplyKeeps(s, LoopAction(s.pc), false);
  }

  lemma {:induction false} TurnEnds(s: State, c: Id) returns (t: State)
    requires Waits(s, c)
    ensures Leads(s, t, c) && Waits(t, c) && t.pc.Idle? && s.queue <= t.queue
    decreases Rank(s.pc), s.pc.Popped? && !s.callouts[s.pc.c].handler
  {
    hide Waits, Leads, Enabled, Apply;
    if s.pc.Idle? {
      t := s;
      LeadSelf(s, c);
    } else if s.pc.Popped? && !s.callouts[s.pc.c].handler {
      NotPopped(s, c);
      var u := GiveFunction(s, c);
      t := TurnEnds(u, c);
      LeadOn(s, u, t, c);
    } else {
      TurnStep(s, c);
      var u := Apply(s, LoopAction(s.pc));
      LeadOne(s, LoopAction(s.pc), c);
      t := TurnEnds(u, c);
      LeadOn(s, u, t, c);
    }
  }

  lemma NotPopped(s: State, c: Id)
    requires Waits(s, c) && s.pc.Popped?
    ensures s.pc.c != c
  {
    KeptOne(s, c, false);
  }

  lemma PopStep(s: State, c: Id)
    requires Waits(s, c) && s.pc.Idle?
    ensures Enabled(s, PopTask)
    ensures var t := Apply(s, PopTask);
            && Orderly(t) && !t.panicked && t.queue == s.queue[1..] && t.pc == Popped(s.queue[0]) && c in t.callouts
            && t.callouts[c].handler && (s.queue[0] != c ==> Waits(t, c))
  {
    PopKeeps(s, false);
    assert s.queue == [s.queue[0]] + s.queue[1..];
  }

  /** Every task that waits with its function is popped some time. */
  lemma {:induction false} GetsPopped(s: State, c: Id) returns (t: State)
    requires Waits(s, c) && s.pc.Idle?
    ensures Leads(s, t, c) && Orderly(t) && !t.panicked && t.pc == Popped(c) && c in t.callouts && t.callouts[c].handler
    decreases Find(s.queue, c)
  {
    hide Waits, Kept, Leads, Enabled, Apply, Find;
    PopStep(s, c);
    var u := Apply(s, PopTask);
    LeadOne(s, PopTask, c);
    if s.queue[0] == c {
      t := u;
    } else {
      var v := TurnEnds(u, c);
      LeadOn(s, u, v, c);
      FindTail(s.queue, v.queue, c);
      t := GetsPopped(v, c);
      LeadOn(s, v, t, c);
    }
  }

  lemma PoppedBecomesDue(s: State, c: Id) returns (t: State)
    requires Orderly(s) && !s.panicked && s.pc == Popped(c) && s.callouts[c].handler
    ensures Leads(s, t, c) && t.pc == Due(c)
  {
    hide Leads;
    KeptOne(s, c, false);
    var k := s.callouts[c];
    var n := if s.now < k.time then k.time - s.now else 0;
    LeadOne(s, Tick(n), c);
    var u := Apply(s, Tick(n));
    OrderOfCounts(u.now, k.time);
    LeadStep(s, u, CheckTime, c);
    t := Apply(u, CheckTime);
  }

  lemma TaskBecomesDue(s: State, c: Id) returns (t: State)
    requires Orderly(s) && !s.panicked && c in s.callouts && s.callouts[c].handler && (c in s.queue || AtWindow(s, c))
    ensures Leads(s, t, c) && t.pc == Due(c)
  {
    hide Leads, Kept;
    if s.pc == Due(c) {
      t := s;
      LeadSelf(s, c);
    } else if s.pc == Popped(c) {
      t := PoppedBecomesDue(s, c);
    } else {
      var u := TurnEnds(s, c);
      var v := GetsPopped(u, c);
      LeadOn(s, u, v, c);
      t := PoppedBecomesDue(v, c);
      LeadOn(s, v, t, c);
    }
  }

  /** A callout that is not registered can run if and only if its task is queued or popped with its function. */
  lemma RunsExact(s: State, c: Id)
    requires Orderly(s) && !s.panicked && c in s.callouts && !Registered(s.callouts[c])
    ensures CanRun(s, c) <==> s.callouts[c].handler && (c in s.queue || AtWindow(s, c))
  {
    hide Leads;
    if s.callouts[c].handler && (c in s.queue || AtWindow(s, c)) {
      var t := TaskBecomesDue(s, c);
    } else {
      KeptOne(s, c, false);
      SpentIsOver(s, c);
    }
  }

  /** The cancellation of `c` comes too late. */
  predicate Late(s: State, c: Id)
    requires c in s.callouts
  {
    var k := s.callouts[c];
    k.handler && if k.state.InTaskQueue? then k.status.Running? else k.status.Waiting? || AtWindow(s, c)
  }

  /**
   * After a cancellation in any state of any run, up to a second link: the function can still begin without a new
   * registration if and only if the cancellation came too late. Before the first stale registration that is, for
   * a registered callout, the case exactly when it is in the task queue and its task is running.
   */
  lemma CancelExact(s: State, c: Id)
    requires Orderly(s) && !s.panicked && c in s.callouts
    ensures CanRun(Cancel(s, c), c) <==> Late(s, c)
    ensures Inv(s) && Registered(s.callouts[c]) ==>
      (Late(s, c) <==> s.callouts[c].state.InTaskQueue? && s.callouts[c].status.Running?)
  {
    hide CanRun, Distinct, Sorted, Erase;
    var z := Cancel(s, c);
    KeptOne(s, c, false);
    if Inv(s) { KeptOne(s, c, true); }
    CancelKeeps(s, c, false);
    QueueDistinct(s);
    Erased(s.queue, c);
    RunsExact(z, c);
  }

  /**
   * What a cancellation leaves: the callout stopped and in no list, counted as dropped exactly if it was registered
   * (which is what `CancelCallout` returns), and everything else as it was, in the same order.
   */
  lemma CancelStops(s: State, c: Id)
    requires Orderly(s) && c in s.callouts
    ensures var z, k := Cancel(s, c), s.callouts[c];
            && z.callouts.Keys == s.callouts.Keys && z.callouts[c].state.Stopped? && !z.callouts[c].pending
            && z.callouts[c].drops == k.drops + (if k.state.InCalloutQueue? || k.state.InTaskQueue? then 1 else 0)
            && (forall d :: d in s.callouts && d != c ==> z.callouts[d] == s.callouts[d])
            && (k.state.InCalloutQueue? ==> exists i :: 0 <= i < |s.dlist| && s.dlist[i] == c &&
                                                        z.dlist == s.dlist[..i] + s.dlist[i + 1..])
            && (!k.state.InCalloutQueue? ==> z.dlist == s.dlist)
            && (c in s.queue && k.state.InTaskQueue? ==> exists i :: 0 <= i < |s.queue| && s.queue[i] == c &&
                                                                     z.queue == s.queue[..i] + s.queue[i + 1..])
            && (!(c in s.queue && k.state.InTaskQueue?) ==> z.queue == s.queue)
            && z.now == s.now && z.pc == s.pc && z.panicked == s.panicked
  {
    KeptOne(s, c, false);
    ErasedAt(s.dlist, c);
    ErasedAt(s.queue, c);
  }

  lemma ErasedAt(l: seq<Id>, c: Id)
    ensures c in l ==> exists i :: 0 <= i < |l| && l[i] == c && Erase(l, c) == l[..i] + l[i + 1..]
    ensures c !in l ==> Erase(l, c) == l
  {
    if c in l {
      assert Find(l, c) < |l|;
    }
  }

  // ---------------------------------------------------------------------------------------------
  // A registered callout runs

  lemma {:induction false} DrainKeepsRegistered(s: State, limit: nat, c: Id)
    requires (forall d :: d in s.dlist ==> d in s.callouts) && c in s.callouts && Registered(s.callouts[c])
    ensures c in DrainAll(s, limit).callouts && Registered(DrainAll(s, limit).callouts[c])
    decreases |s.dlist|
  {
    if s.dlist != [] && !IsGreater(s.callouts[s.dlist[0]].time, limit) {
      DrainOneLists(s);
      DrainKeepsRegistered(DrainOne(s), limit, c);
    }
  }

  lemma ReachLeads(s: State, t: State, c: Id)
    requires Reaches(s, t)
    ensures Leads(s, t, c)
  {
    var run, acts :| Path(run, acts) && run[0] == s && Last(run) == t;
    assert NoneTouches(acts, c);
  }

  /** A task in the queue or just popped. */
  lemma QueuedRuns(s: State, c: Id)
    requires Inv(s) && c in s.callouts && Registered(s.callouts[c]) && (c in s.queue || AtWindow(s, c))
    ensures CanRun(s, c)
  {
    hide Leads;
    KeptOne(s, c, true);
    InvIsOrderly(s);
    var t := TaskBecomesDue(s, c);
  }

  lemma DrainedRuns(s: State, c: Id, end: nat)
    requires Inv(s) && c in s.callouts && Registered(s.callouts[c]) && s.pc.Idle? && Room(s, end)
    ensures CanRun(s, c)
  {
    hide Leads, Reaches, DrainAll;
    assert !s.panicked;
    hide Kept;
    var u, t := DrainedAt(s, end);
    TickKeeps(s, end - s.now, true);
    DrainKeeps(u, DrainLimit(u), true);
    DrainKeepsRegistered(u, DrainLimit(u), c);
    KeptOne(t, c, true);
    QueuedRuns(t, c);
    var v :| Leads(t, v, c) && v.pc == Due(c);
    ReachLeads(s, t, c);
    LeadOn(s, t, v, c);
  }

  /** A step of the loop that does not begin `c`. */
  lemma LoopRegistered(s: State, c: Id, end: nat)
    requires Inv(s) && c in s.callouts && Registered(s.callouts[c]) && Room(s, end)
    requires !s.pc.Idle? && !AtWindow(s, c)
    ensures Enabled(s, LoopAction(s.pc)) && !Touches(LoopAction(s.pc), c)
    ensures var u := Apply(s, LoopAction(s.pc));
            Inv(u) && c in u.callouts && Registered(u.callouts[c]) && Room(u, end) && Rank(u.pc) < Rank(s.pc)
  {
    LoopStep(s);
    KeptOne(s, c, true);
    ApplyKeeps(s, LoopAction(s.pc), true);
  }

  /** Every registered callout can run, if the clock can go on behind the times of all callouts. */
  lemma {:induction false} RegisteredRuns(s: State, c: Id, end: nat)
    requires Inv(s) && c in s.callouts && Registered(s.callouts[c]) && Room(s, end)
    ensures CanRun(s, c)
    decreases Rank(s.pc)
  {
    hide Kept, Leads, Enabled, Apply;
    if AtWindow(s, c) {
      QueuedRuns(s, c);
    } else if s.pc.Idle? {
      DrainedRuns(s, c, end);
    } else {
      LoopRegistered(s, c, end);
      var u := Apply(s, LoopAction(s.pc));
      RegisteredRuns(u, c, end);
      var t :| Leads(u, t, c) && t.pc == Due(c);
      LeadOne(s, LoopAction(s.pc), c);
      LeadOn(s, u, t, c);
    }
  }

  lemma QueueDistinct(s: State)
    requires Orderly(s)
    ensures Distinct(s.queue)
  {
  }

  /** For a callout that is not registered a cancellation decides nothing. */
  lemma CancelAgain(s: State, c: Id)
    requires Orderly(s) && !s.panicked && c in s.callouts && !Registered(s.callouts[c])
    ensures CanRun(Cancel(s, c), c) <==> CanRun(s, c)
  {
    hide CanRun;
    KeptOne(s, c, false);
    CancelExact(s, c);
    RunsExact(s, c);
  }
}
