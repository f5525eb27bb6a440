/**
 * When the scheduler of one CPU (source/kernel/task.cc) runs into an assertion failure because a callout was
 * registered while its task was still queued or popped. The states are those of every run, with stale
 * registrations, up to the first one that links a callout a second time.
 */
module CalloutPanic {
  import opened CalloutList
  import opened Callouts
  import opened Lists
  import opened Words

  // ---------------------------------------------------------------------------------------------
  // Steps of the clock and of the scheduler loop
  // ---------------------------------------------------------------------------------------------

  predicate Quiet(a: Action) {
    !a.RegisterCallout? && !a.CancelCallout?
  }

  ghost predicate Path(run: seq<State>, acts: seq<Action>)
    ensures Path(run, acts) ==> |run| == |acts| + 1
  {
    Steps(run, acts) && forall i :: 0 <= i < |acts| ==> Quiet(acts[i])
  }

  /** From `s` the clock and the scheduler loop alone can lead to `t`. */
  ghost predicate Reaches(s: State, t: State) {
    exists run, acts :: Path(run, acts) && run[0] == s && Last(run) == t
  }

  lemma ReachSelf(s: State)
    ensures Reaches(s, s)
  {
    assert Path([s], []);
  }

  lemma ReachOne(s: State, a: Action)
    requires Enabled(s, a) && Quiet(a)
    ensures Reaches(s, Apply(s, a))
  {
    assert Path([s, Apply(s, a)], [a]);
  }

  lemma JoinSteps(r1: seq<State>, a1: seq<Action>, r2: seq<State>, a2: seq<Action>)
    requires Steps(r1, a1) && Steps(r2, a2) && Last(r1) == r2[0]
    ensures Steps(r1 + r2[1..], a1 + a2) && (r1 + r2[1..])[0] == r1[0] && Last(r1 + r2[1..]) == Last(r2)
  {
    hide Enabled, Apply;
    var run, acts := r1 + r2[1..], a1 + a2;
    forall i | 0 <= i < |acts| ensures Enabled(run[i], acts[i]) && run[i + 1] == Apply(run[i], acts[i]) {
      if i < |a1| {
        assert acts[i] == a1[i] && run[i] == r1[i] && run[i + 1] == r1[i + 1];
      } else {
        assert acts[i] == a2[i - |a1|] && run[i] == r2[i - |a1|] && run[i + 1] == r2[i - |a1| + 1];
      }
    }
  }

  lemma ReachOn(s: State, t: State, u: State)
    requires Reaches(s, t) && Reaches(t, u)
    ensures Reaches(s, u)
  {
    hide Steps, Quiet;
    var r1, a1 :| Path(r1, a1) && r1[0] == s && Last(r1) == t;
    var r2, a2 :| Path(r2, a2) && r2[0] == t && Last(r2) == u;
    JoinSteps(r1, a1, r2, a2);
    assert Path(r1 + r2[1..], a1 + a2);
  }

  lemma ReachStep(s: State, t: State, a: Action)
    requires Reaches(s, t) && Enabled(t, a) && Quiet(a)
    ensures Reaches(s, Apply(t, a))
  {
    hide Reaches, Enabled, Apply;
    ReachOne(t, a);
    ReachOn(s, t, Apply(t, a));
  }

  /** What the steps of the loop on a popped task leave alone. */
  predicate Beside(s: State, t: State) {
    && t.callouts.Keys == s.callouts.Keys && (forall d :: d in s.callouts ==> t.callouts[d].time == s.callouts[d].time)
    && t.dlist == s.dlist && t.now == s.now && t.period == s.period && s.queue <= t.queue
  }

  function Rank(pc: Pc): nat {
    match pc
    case Idle => 0
    case Done(_) => 1
    case Executing(_) => 2
    case Due(_) => 3
    case Popped(_) => 4
  }

  function LoopAction(pc: Pc): Action
    requires !pc.Idle?
  {
    match pc
    case Done(_) => Finish
    case Executing(_) => End
    case Due(_) => Begin
    case Popped(_) => CheckTime
  }

  lemma LoopStep(s: State)
    requires Formed(s) && !s.panicked && !s.pc.Idle?
    ensures Enabled(s, LoopAction(s.pc)) && Quiet(LoopAction(s.pc))
    ensures var t := Apply(s, LoopAction(s.pc)); Formed(t) && Beside(s, t) && (t.panicked || Rank(t.pc) < Rank(s.pc))
  {
  }

  /** The loop comes to the end of its turn, or into an assertion failure. */
  lemma {:induction false} LoopEnds(s: State) returns (t: State)
    requires Formed(s) && !s.panicked
    ensures Reaches(s, t) && Formed(t) && Beside(s, t) && (t.panicked || t.pc.Idle?)
    decreases Rank(s.pc)
  {
    hide Formed, Reaches, Enabled, Apply;
    if s.pc.Idle? {
      t := s;
      ReachSelf(s);
    } else {
      LoopStep(s);
      var u := Apply(s, LoopAction(s.pc));
      ReachOne(s, LoopAction(s.pc));
      if u.panicked {
        t := u;
      } else {
        t := LoopEnds(u);
        ReachOn(s, u, t);
      }
    }
  }

  lemma FindTail(l: seq<Id>, m: seq<Id>, c: Id)
    requires l != [] && c in l && l[0] != c && l[1..] <= m
    ensures c in m && Find(m, c) == Find(l, c) - 1 && Find(l, c) < |l|
  {
    assert l == [l[0]] + l[1..];
    FindPrefix(l[1..], m, c);
  }

  lemma {:induction false} FindPrefix(l: seq<Id>, m: seq<Id>, c: Id)
    requires l <= m && c in l
    ensures c in m && Find(m, c) == Find(l, c) < |l|
    decreases |l|
  {
    if l[0] != c {
      assert l == [l[0]] + l[1..];
      FindPrefix(l[1..], m[1..], c);
    }
  }

  // ---------------------------------------------------------------------------------------------
  // Exactly when the scheduler runs into an assertion failure
  // ---------------------------------------------------------------------------------------------

  /** `d` is linked although its task is queued or popped, or it is on its way to an execution without a function. */
  predicate Doomed(s: State, d: Id) {
    && d in s.callouts
    && (|| (d in s.dlist && (d in s.queue || AtWindow(s, d)))
        || (!s.callouts[d].handler && (d in s.dlist || d in s.queue || s.pc == Popped(d))))
  }

  ghost predicate Calm(s: State) {
    !s.panicked && forall d :: !Doomed(s, d)
  }

  lemma {:induction false} PanicStays(s: State, limit: nat)
    requires s.panicked && forall d :: d in s.dlist ==> d in s.callouts
    ensures DrainAll(s, limit).panicked
    decreases |s.dlist|
  {
    if s.dlist != [] && !IsGreater(s.callouts[s.dlist[0]].time, limit) {
      DrainOneLists(s);
      PanicStays(DrainOne(s), limit);
    }
  }

  lemma DrainOneDoom(s: State, d: Id)
    requires Orderly(s) && s.pc.Idle? && s.dlist != [] && Doomed(s, d) && !DrainOne(s).panicked
    ensures Doomed(DrainOne(s), d)
  {
    KeptOne(s, d, false);
    if d == s.dlist[0] {
      DrainOneKeeps(s, false);
    } else {
      DrainOneOther(s, d);
    }
  }

  lemma {:induction false} DrainDoom(s: State, limit: nat, d: Id)
    requires Orderly(s) && s.pc.Idle? && Doomed(s, d)
    ensures DrainAll(s, limit).panicked || Doomed(DrainAll(s, limit), d)
    decreases |s.dlist|
  {
    hide Kept, DrainOne, Doomed;
    if s.dlist != [] && !IsGreater(s.callouts[s.dlist[0]].time, limit) {
      DrainOneKeeps(s, false);
      if DrainOne(s).panicked {
        PanicStays(DrainOne(s), limit);
      } else {
        DrainOneDoom(s, d);
        DrainDoom(DrainOne(s), limit, d);
      }
    }
  }

  /** Nothing but a registration or a cancellation averts it. */
  lemma DoomStays(s: State, a: Action, d: Id)
    requires Orderly(s) && Enabled(s, a) && Quiet(a) && Doomed(s, d)
    ensures Apply(s, a).panicked || Doomed(Apply(s, a), d)
  {
    if a.Drain? {
      DrainDoom(s, DrainLimit(s), d);
    } else {
      KeptOne(s, d, false);
      assert a.PopTask? ==> s.queue == [s.queue[0]] + s.queue[1..];
    }
  }

  lemma {:induction false} PathDoom(run: seq<State>, acts: seq<Action>, i: nat, d: Id)
    requires Path(run, acts) && i < |run| && Orderly(run[0]) && Doomed(run[0], d)
    ensures Orderly(run[i]) && (run[i].panicked || Doomed(run[i], d))
  {
    hide Kept, Enabled, Apply, Doomed;
    StepsKeep(run, acts, i, false);
    if i > 0 {
      var n := i - 1;
      PathDoom(run, acts, n, d);
      assert Enabled(run[n], acts[n]) && run[n + 1] == Apply(run[n], acts[n]);
      Going(run[n], acts[n]);
      DoomStays(run[n], acts[n], d);
    }
  }

  lemma Going(s: State, a: Action)
    requires Enabled(s, a)
    ensures !s.panicked && Formed(s)
  {
  }

  lemma ReachDoom(s: State, t: State, d: Id)
    requires Orderly(s) && Doomed(s, d) && Reaches(s, t)
    ensures Orderly(t) && (t.panicked || Doomed(t, d))
  {
    hide Kept, Doomed;
    var run, acts :| Path(run, acts) && run[0] == s && Last(run) == t;
    PathDoom(run, acts, |acts|, d);
  }

  /** The clock can pass the time of every callout, and the list can then be drained. */
  predicate Room(s: State, end: nat)
    requires s.period > 0
  {
    && s.now <= end && (forall d :: d in s.callouts ==> s.callouts[d].time < end)
    && end + Counts(TASK_EXECUTION_INTERVAL, s.period) <= COUNT_LIMIT
  }

  lemma {:induction false} DrainEmpties(s: State, limit: nat)
    requires (forall d :: d in s.dlist ==> d in s.callouts) && limit <= COUNT_LIMIT
    requires forall d :: d in s.callouts ==> s.callouts[d].time < limit
    ensures DrainAll(s, limit).dlist == []
    decreases |s.dlist|
  {
    if s.dlist != [] {
      OrderOfCounts(s.callouts[s.dlist[0]].time, limit);
      DrainOneLists(s);
      DrainEmpties(DrainOne(s), limit);
    }
  }

  /** The clock moves on, and everything is drained. */
  lemma DrainedAt(s: State, end: nat) returns (u: State, t: State)
    requires Formed(s) && !s.panicked && s.pc.Idle? && Room(s, end)
    ensures u == s.(now := end) && DrainLimit(u) <= COUNT_LIMIT && t == DrainAll(u, DrainLimit(u)) && Reaches(s, t)
    ensures t.dlist == [] && t.pc.Idle? && forall d :: d in u.callouts ==> u.callouts[d].time < DrainLimit(u)
  {
    hide Reaches;
    u := s.(now := end);
    ReachOne(s, Tick(end - s.now));
    CountsAfter(end, TASK_EXECUTION_INTERVAL, s.period);
    t := DrainAll(u, DrainLimit(u));
    ReachStep(s, u, Drain);
    DrainEmpties(u, DrainLimit(u));
    DrainKeepsCallouts(u, DrainLimit(u));
  }

  /** The queue is worked off until the task without a function is executed. */
  lemma {:induction false} QueuePanics(s: State, d: Id) returns (t: State)
    requires Orderly(s) && !s.panicked && s.pc.Idle? && s.dlist == [] && Doomed(s, d)
    ensures Reaches(s, t) && t.panicked
    decreases Find(s.queue, d)
  {
    hide Reaches, Kept, Find;
    ReachOne(s, PopTask);
    var u := Apply(s, PopTask);
    if s.queue[0] == d {
      ReachStep(s, u, CheckTime);
      t := Apply(u, CheckTime);
    } else {
      PopKeeps(s, false);
      var v := LoopEnds(u);
      ReachOn(s, u, v);
      ReachDoom(s, v, d);
      if v.panicked {
        t := v;
      } else {
        FindTail(s.queue, v.queue, d);
        t := QueuePanics(v, d);
        ReachOn(s, v, t);
      }
    }
  }

  lemma DoomPanics(s: State, d: Id, end: nat) returns (t: State)
    requires Orderly(s) && !s.panicked && Doomed(s, d) && Room(s, end)
    ensures Reaches(s, t) && t.panicked
  {
    hide Reaches, Kept, Doomed;
    t := LoopEnds(s);
    ReachDoom(s, t, d);
    if !t.panicked {
      var u, v := DrainedAt(t, end);
      ReachDoom(t, v, d);
      ReachOn(s, t, v);
      t := v;
      if !v.panicked {
        t := QueuePanics(v, d);
        ReachOn(s, v, t);
      }
    }
  }

  /** A step of a calm state ends in a calm state. */
  lemma CalmStep(s: State, a: Action)
    requires Orderly(s) && Calm(s) && Enabled(s, a) && Quiet(a)
    ensures Calm(Apply(s, a))
  {
    if a.Drain? {
      DrainCalm(s, DrainLimit(s));
    } else {
      assert a.CheckTime? ==> !Doomed(s, s.pc.c);
      assert a.CheckTime? ==> Traced(s, s.pc.c);
      forall d ensures !Doomed(Apply(s, a), d) {
        CalmOne(s, a, d);
      }
    }
  }

  lemma CalmOne(s: State, a: Action, d: Id)
    requires Orderly(s) && Enabled(s, a) && Quiet(a) && !a.Drain? && !Doomed(s, d)
    ensures !Doomed(Apply(s, a), d)
  {
    if d in s.callouts {
      KeptOne(s, d, false);
      assert a.PopTask? ==> s.queue == [s.queue[0]] + s.queue[1..];
    }
  }

  lemma DrainOneCalm(s: State)
    requires Orderly(s) && s.pc.Idle? && s.dlist != [] && Calm(s)
    ensures Calm(DrainOne(s))
  {
    DrainOneKeeps(s, false);
    assert !Doomed(s, s.dlist[0]);
    Tail(s.dlist);
    forall d ensures !Doomed(DrainOne(s), d) {
      assert !Doomed(s, d);
      if d in s.callouts && d != s.dlist[0] {
        DrainOneOther(s, d);
      }
    }
  }

  lemma {:induction false} DrainCalm(s: State, limit: nat)
    requires Orderly(s) && s.pc.Idle? && Calm(s)
    ensures Calm(DrainAll(s, limit))
    decreases |s.dlist|
  {
    hide Kept, DrainOne, Calm;
    if s.dlist != [] && !IsGreater(s.callouts[s.dlist[0]].time, limit) {
      DrainOneKeeps(s, false);
      DrainOneCalm(s);
      DrainCalm(DrainOne(s), limit);
    }
  }

  lemma {:induction false} PathCalm(run: seq<State>, acts: seq<Action>, i: nat)
    requires Path(run, acts) && i < |run| && Orderly(run[0]) && Calm(run[0])
    ensures Calm(run[i])
  {
    hide Kept, Enabled, Apply, Calm;
    if i > 0 {
      var n := i - 1;
      PathCalm(run, acts, n);
      StepsKeep(run, acts, n, false);
      assert Enabled(run[n], acts[n]) && run[n + 1] == Apply(run[n], acts[n]);
      CalmStep(run[n], acts[n]);
    }
  }

  /** The scheduler can run into an assertion failure. */
  ghost predicate CanPanic(s: State) {
    exists t :: Reaches(s, t) && t.panicked
  }

  /** From any such state the clock and the scheduler loop alone can, if and only if some callout is doomed. */
  lemma PanicExact(s: State, end: nat)
    requires Orderly(s) && !s.panicked && Room(s, end)
    ensures CanPanic(s) <==> exists d :: Doomed(s, d)
  {
    hide Reaches, Kept, Doomed;
    if d :| Doomed(s, d) {
      var t := DoomPanics(s, d, end);
    } else {
      forall t | Reaches(s, t) ensures !t.panicked {
        CalmReach(s, t);
      }
    }
  }

  lemma CalmReach(s: State, t: State)
    requires Orderly(s) && Calm(s) && Reaches(s, t)
    ensures !t.panicked
  {
    hide Kept, Doomed;
    var run, acts :| Path(run, acts) && run[0] == s && Last(run) == t;
    PathCalm(run, acts, |acts|);
  }

  lemma {:induction false} DrainWaiting(s: State, limit: nat, c: Id)
    requires (forall d :: d in s.dlist ==> d in s.callouts) && limit <= COUNT_LIMIT
    requires forall d :: d in s.callouts ==> s.callouts[d].time < limit
    requires c in s.dlist && s.callouts[c].status.Waiting?
    ensures DrainAll(s, limit).panicked
    decreases |s.dlist|
  {
    OrderOfCounts(s.callouts[s.dlist[0]].time, limit);
    DrainOneLists(s);
    if s.dlist[0] == c {
      PanicStays(DrainOne(s), limit);
    } else {
      DrainOneOther(s, c);
      DrainWaiting(DrainOne(s), limit, c);
    }
  }

  /** Draining a callout that is linked twice. */
  lemma {:induction false} DrainTwice(s: State, limit: nat, c: Id)
    requires (forall d :: d in s.dlist ==> d in s.callouts) && limit <= COUNT_LIMIT
    requires forall d :: d in s.callouts ==> s.callouts[d].time < limit
    requires multiset(s.dlist)[c] > 1
    ensures DrainAll(s, limit).panicked
    decreases |s.dlist|
  {
    OrderOfCounts(s.callouts[s.dlist[0]].time, limit);
    DrainOneLists(s);
    assert s.dlist == [s.dlist[0]] + s.dlist[1..];
    assert multiset(s.dlist) == multiset{s.dlist[0]} + multiset(s.dlist[1..]);
    if s.dlist[0] == c {
      assert c in s.dlist[1..];
      if DrainOne(s).panicked {
        PanicStays(DrainOne(s), limit);
      } else {
        DrainWaiting(DrainOne(s), limit, c);
      }
    } else {
      DrainTwice(DrainOne(s), limit, c);
    }
  }

  lemma TwicePanics(s: State, c: Id, end: nat) returns (t: State)
    requires Formed(s) && !s.panicked && Room(s, end) && multiset(s.dlist)[c] > 1
    ensures Reaches(s, t) && t.panicked
  {
    hide Reaches;
    t := LoopEnds(s);
    if !t.panicked {
      var u, v := DrainedAt(t, end);
      DrainTwice(u, DrainLimit(u), c);
      ReachOn(s, t, v);
      t := v;
    }
  }

  lemma LinkedAgain(s: State, c: Id, us: int32)
    requires Enabled(s, RegisterCallout(c, us)) && c in s.dlist
    ensures multiset(Register(s, c, us).dlist)[c] > 1 && Formed(Register(s, c, us))
  {
    var k := First(TimesOf(s.callouts, s.dlist), CountAfterPeriod(s.now, us, s.period));
    assert s.dlist == s.dlist[..k] + s.dlist[k..];
    assert multiset(s.dlist) == multiset(s.dlist[..k]) + multiset(s.dlist[k..]);
    assert Register(s, c, us).dlist == s.dlist[..k] + [c] + s.dlist[k..];
  }

  lemma RegisterDooms(s: State, c: Id, us: int32, d: Id)
    requires Orderly(s) && Enabled(s, RegisterCallout(c, us)) && c !in s.dlist
    ensures Doomed(Register(s, c, us), d) <==> if d == c then Stale(s, RegisterCallout(c, us)) else Doomed(s, d)
    ensures Doomed(s, c) ==> Stale(s, RegisterCallout(c, us))
  {
    KeptOne(s, c, false);
    if d != c {
      InsertOther(s.dlist, First(TimesOf(s.callouts, s.dlist), CountAfterPeriod(s.now, us, s.period)), c, d);
    }
  }

  /**
   * After a registration in any state of any run, up to one that links a callout twice, that very one included:
   * the scheduler can run into an assertion failure if and only if the task of the callout was still queued or
   * popped when it was registered, or some callout was doomed before.
   */
  lemma StaleExact(s: State, c: Id, us: int32, end: nat)
    requires Orderly(s) && Enabled(s, RegisterCallout(c, us)) && Room(Register(s, c, us), end)
    ensures CanPanic(Register(s, c, us)) <==> Stale(s, RegisterCallout(c, us)) || exists d :: Doomed(s, d)
    ensures Inv(s) ==> forall d :: !Doomed(s, d)
  {
    hide Reaches, Room, Doomed;
    var z := Register(s, c, us);
    if Inv(s) {
      forall d ensures !Doomed(s, d) { NotDoomed(s, d); }
    }
    if c in s.dlist {
      RelinkIsDoomed(s, c, us);
      LinkedAgain(s, c, us);
      var t := TwicePanics(z, c, end);
    } else {
      RegisterKeeps(s, c, us, false);
      PanicExact(z, end);
      RegisterDooms(s, c, us, c);
      forall d ensures Doomed(z, d) <==> if d == c then Stale(s, RegisterCallout(c, us)) else Doomed(s, d) {
        RegisterDooms(s, c, us, d);
      }
      assert Stale(s, RegisterCallout(c, us)) ==> Doomed(z, c);
      if d :| Doomed(s, d) {
        assert d == c || Doomed(z, d);
      }
    }
  }

  lemma NotDoomed(s: State, d: Id)
    requires Inv(s)
    ensures !Doomed(s, d)
  {
    if d in s.callouts { KeptOne(s, d, true); }
  }

  lemma RelinkIsDoomed(s: State, c: Id, us: int32)
    requires Orderly(s) && Enabled(s, RegisterCallout(c, us)) && c in s.dlist
    ensures Doomed(s, c)
  {
    KeptOne(s, c, false);
  }

  /**
   * A stale registration after the time was looked at: the function begins although the new time has not come,
   * and leaves a callout that is still listed in a state in which it may be registered. Registering it then
   * links it a second time.
   */
  lemma StaleLinksTwice(s: State, c: Id, us: int32, again: int32)
    requires Orderly(s) && Enabled(s, RegisterCallout(c, us)) && s.pc == Due(c) && c !in s.dlist
    requires CountAfterPeriod(s.now, again, s.period) <= COUNT_LIMIT
    ensures var z := Register(s, c, us);
            && Enabled(z, Begin)
            && var h := Apply(z, Begin);
               && h.callouts[c].state.Handling? && c in h.dlist && Enabled(h, RegisterCallout(c, again))
               && multiset(Register(h, c, again).dlist)[c] > 1
  {
    RegisterKeeps(s, c, us, false);
    var z := Register(s, c, us);
    var h := Apply(z, Begin);
    LinkedAgain(h, c, again);
  }
}
