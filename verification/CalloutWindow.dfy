/** Runs of callouts on one CPU (source/kernel/task.cc) in which a cancellation or a registration comes too late. */
module CalloutWindow {
  import opened CalloutCancel
  import opened CalloutList
  import opened CalloutPanic
  import opened Callouts
  import opened Lists
  import opened Words

  // ---------------------------------------------------------------------------------------------
  // A run into the window
  // ---------------------------------------------------------------------------------------------

  function Fresh(): Callout {
    Callout(0, Stopped, false, false, Out, 0, 0, 0)
  }

  /** One callout, with a microsecond a count. */
  function One(now: nat, k: Callout, dlist: seq<Id>, queue: seq<Id>, pc: Pc): State {
    Only(1000, now, k, dlist, queue, pc)
  }

  function Only(period: nat, now: nat, k: Callout, dlist: seq<Id>, queue: seq<Id>, pc: Pc): State {
    State(period, now, map[0 := k], dlist, queue, pc, false)
  }

  lemma Extend(run: seq<State>, acts: seq<Action>, a: Action, s': State)
    requires Follows(run, acts) && Enabled(Last(run), a) && Apply(Last(run), a) == s' && !Stale(Last(run), a)
    ensures Follows(run + [s'], acts + [a])
  {
    hide Enabled, Apply, Stale;
    var r, t := run + [s'], acts + [a];
    forall i | 0 <= i < |t| ensures Enabled(r[i], t[i]) && r[i + 1] == Apply(r[i], t[i]) && !Stale(r[i], t[i]) {
      assert i < |acts| ==> r[i] == run[i] && t[i] == acts[i] && r[i + 1] == run[i + 1];
    }
  }

  lemma OnceRegistered()
    ensures var s0 := One(0, Fresh(), [], [], Idle);
            var s1 := One(0, Callout(0, InCalloutQueue, true, true, Out, 1, 0, 0), [0], [], Idle);
            Enabled(s0, RegisterCallout(0, 0)) && Apply(s0, RegisterCallout(0, 0)) == s1
  {
    assert Register(One(0, Fresh(), [], [], Idle), 0, 0).dlist == [0];
  }

  lemma OnceDrained()
    ensures var s1 := One(0, Callout(0, InCalloutQueue, true, true, Out, 1, 0, 0), [0], [], Idle);
            var s2 := One(0, Callout(0, InTaskQueue, true, true, Waiting, 1, 0, 0), [], [0], Idle);
            Enabled(s1, Drain) && Apply(s1, Drain) == s2
  {
    hide RegisterTask;
    var s1 := One(0, Callout(0, InCalloutQueue, true, true, Out, 1, 0, 0), [0], [], Idle);
    var s2 := One(0, Callout(0, InTaskQueue, true, true, Waiting, 1, 0, 0), [], [0], Idle);
    assert DrainOne(s1) == s2 by { OnceMoved(); }
  }

  lemma OnceMoved()
    ensures var s1 := One(0, Callout(0, InCalloutQueue, true, true, Out, 1, 0, 0), [0], [], Idle);
            DrainOne(s1) == One(0, Callout(0, InTaskQueue, true, true, Waiting, 1, 0, 0), [], [0], Idle)
  {
  }

  lemma OncePopped()
    ensures var s2 := One(0, Callout(0, InTaskQueue, true, true, Waiting, 1, 0, 0), [], [0], Idle);
            var s3 := One(0, Callout(0, InTaskQueue, true, true, Running, 1, 0, 0), [], [], Popped(0));
            var s4 := One(0, Callout(0, InTaskQueue, true, true, Running, 1, 0, 0), [], [], Due(0));
            var s5 := One(0, Callout(0, Stopped, false, true, Out, 1, 0, 1), [], [], Due(0));
            && Enabled(s2, PopTask) && Apply(s2, PopTask) == s3
            && Enabled(s3, CheckTime) && Apply(s3, CheckTime) == s4
            && Enabled(s4, CancelCallout(0)) && Apply(s4, CancelCallout(0)) == s5
  {
  }

  lemma NoSteps(s: State)
    ensures Follows([s], [])
  {
  }

  /** A callout is registered, drained, popped and found due; then it is cancelled. */
  lemma CancelledInWindow() returns (run: seq<State>, acts: seq<Action>)
    ensures IsRun(run, acts) && acts == [RegisterCallout(0, 0), Drain, PopTask, CheckTime, CancelCallout(0)]
    ensures InWindow(run[4], acts[4])
    ensures run[5] == One(0, Callout(0, Stopped, false, true, Out, 1, 0, 1), [], [], Due(0))
  {
    hide Follows, Enabled, Apply;
    OnceRegistered();
    OnceDrained();
    OncePopped();
    var s0 := One(0, Fresh(), [], [], Idle);
    var s1 := One(0, Callout(0, InCalloutQueue, true, true, Out, 1, 0, 0), [0], [], Idle);
    var s2 := One(0, Callout(0, InTaskQueue, true, true, Waiting, 1, 0, 0), [], [0], Idle);
    var s3 := One(0, Callout(0, InTaskQueue, true, true, Running, 1, 0, 0), [], [], Popped(0));
    var s4 := One(0, Callout(0, InTaskQueue, true, true, Running, 1, 0, 0), [], [], Due(0));
    var s5 := One(0, Callout(0, Stopped, false, true, Out, 1, 0, 1), [], [], Due(0));
    NoSteps(s0);
    Extend([s0], [], RegisterCallout(0, 0), s1);
    run, acts := [s0] + [s1], [] + [RegisterCallout(0, 0)];
    Extend(run, acts, Drain, s2);
    run, acts := run + [s2], acts + [Drain];
    Extend(run, acts, PopTask, s3);
    run, acts := run + [s3], acts + [PopTask];
    Extend(run, acts, CheckTime, s4);
    run, acts := run + [s4], acts + [CheckTime];
    Extend(run, acts, CancelCallout(0), s5);
    run, acts := run + [s5], acts + [CancelCallout(0)];
  }

  lemma AgainRegistered()
    ensures var s := One(0, Callout(0, Stopped, false, true, Out, 1, 0, 1), [], [], Due(0));
            var z := One(0, Callout(5000, InCalloutQueue, true, true, Out, 2, 0, 1), [0], [], Due(0));
            Enabled(s, RegisterCallout(0, 5000)) && Register(s, 0, 5000) == z
  {
    var s := One(0, Callout(0, Stopped, false, true, Out, 1, 0, 1), [], [], Due(0));
    assert Register(s, 0, 5000).dlist == [0];
  }

  lemma AgainBegun()
    ensures var z := One(0, Callout(5000, InCalloutQueue, true, true, Out, 2, 0, 1), [0], [], Due(0));
            var h := One(0, Callout(5000, Handling, false, false, Out, 2, 1, 1), [0], [], Executing(0));
            Enabled(z, Begin) && Apply(z, Begin) == h
  {
  }

  lemma ThirdRegistered()
    ensures var h := One(0, Callout(5000, Handling, false, false, Out, 2, 1, 1), [0], [], Executing(0));
            var z := One(0, Callout(5000, InCalloutQueue, true, true, Out, 3, 1, 1), [0, 0], [], Executing(0));
            && Enabled(h, RegisterCallout(0, 5000)) && Register(h, 0, 5000) == z && !Stale(h, RegisterCallout(0, 5000))
  {
    var h := One(0, Callout(5000, Handling, false, false, Out, 2, 1, 1), [0], [], Executing(0));
    assert Register(h, 0, 5000).dlist == [0, 0];
  }

  lemma HasRoom(k: Callout, dlist: seq<Id>, queue: seq<Id>, pc: Pc)
    requires k.time == 5000
    ensures Room(One(0, k, dlist, queue, pc), 5001)
  {
    CountsBound(TASK_EXECUTION_INTERVAL, 1000);
  }

  /**
   * After that run the callout may be registered again, for 5 ms. Its function then begins at once, five
   * thousand counts early; the callout can be registered a third time from its function, which links it to
   * itself; and after either registration the scheduler can run into an assertion failure, although the last
   * one is not stale.
   */
  lemma WindowRunsEarly() returns (run: seq<State>, acts: seq<Action>)
    ensures IsRun(run, acts) && |acts| == 5 && InWindow(run[4], acts[4])
    ensures var s := run[5];
            && Enabled(s, RegisterCallout(0, 5000)) && Stale(s, RegisterCallout(0, 5000))
            && var z := Register(s, 0, 5000);
               && Enabled(z, Begin) && z.callouts[0].time == z.now + 5000 && CanPanic(z)
               && var h := Apply(z, Begin);
                  && Enabled(h, RegisterCallout(0, 5000)) && !Stale(h, RegisterCallout(0, 5000))
                  && Register(h, 0, 5000).dlist == [0, 0] && CanPanic(Register(h, 0, 5000))
  {
    hide IsRun, Kept, CanPanic, Enabled, Apply, Register, Room;
    run, acts := CancelledInWindow();
    AgainRegistered();
    AgainBegun();
    ThirdRegistered();
    RunInv(run, acts, 5);
    var s := run[5];
    var z := Register(s, 0, 5000);
    InvIsOrderly(s);
    RegisterKeeps(s, 0, 5000, false);
    HasRoom(z.callouts[0], z.dlist, z.queue, z.pc);
    StaleExact(s, 0, 5000, 5001);
    BeginKeeps(z, false);
    var h := Apply(z, Begin);
    var y := Register(h, 0, 5000);
    HasRoom(y.callouts[0], y.dlist, y.queue, y.pc);
    StillDoomed(h);
    StaleExact(h, 0, 5000, 5001);
  }

  lemma StillDoomed(h: State)
    requires 0 in h.callouts && 0 in h.dlist && !h.callouts[0].handler
    ensures Doomed(h, 0)
  {
  }

  // ---------------------------------------------------------------------------------------------
  // A cancellation behind a stale registration
  // ---------------------------------------------------------------------------------------------

  lemma LaterRegistered()
    ensures var s0 := One(0, Fresh(), [], [], Idle);
            var s1 := One(0, Callout(500, InCalloutQueue, true, true, Out, 1, 0, 0), [0], [], Idle);
            Enabled(s0, RegisterCallout(0, 500)) && Apply(s0, RegisterCallout(0, 500)) == s1
  {
    assert Register(One(0, Fresh(), [], [], Idle), 0, 500).dlist == [0];
  }

  lemma LaterDrained()
    ensures var s1 := One(0, Callout(500, InCalloutQueue, true, true, Out, 1, 0, 0), [0], [], Idle);
            var s2 := One(0, Callout(500, InTaskQueue, true, true, Waiting, 1, 0, 0), [], [0], Idle);
            Enabled(s1, Drain) && Apply(s1, Drain) == s2
  {
    hide RegisterTask;
    var s1 := One(0, Callout(500, InCalloutQueue, true, true, Out, 1, 0, 0), [0], [], Idle);
    var s2 := One(0, Callout(500, InTaskQueue, true, true, Waiting, 1, 0, 0), [], [0], Idle);
    assert DrainOne(s1) == s2 by { LaterMoved(); }
  }

  lemma LaterMoved()
    ensures var s1 := One(0, Callout(500, InCalloutQueue, true, true, Out, 1, 0, 0), [0], [], Idle);
            DrainOne(s1) == One(0, Callout(500, InTaskQueue, true, true, Waiting, 1, 0, 0), [], [0], Idle)
  {
  }

  lemma LaterQueued()
    ensures var s2 := One(0, Callout(500, InTaskQueue, true, true, Waiting, 1, 0, 0), [], [0], Idle);
            var s3 := One(0, Callout(500, InTaskQueue, true, true, Running, 1, 0, 0), [], [], Popped(0));
            var s4 := One(0, Callout(500, Stopped, false, true, Out, 1, 0, 1), [], [], Popped(0));
            && Enabled(s2, PopTask) && Apply(s2, PopTask) == s3
            && Enabled(s3, CancelCallout(0)) && Apply(s3, CancelCallout(0)) == s4
  {
  }

  lemma LaterAgain()
    ensures var s4 := One(0, Callout(500, Stopped, false, true, Out, 1, 0, 1), [], [], Popped(0));
            var s5 := One(0, Callout(500, Stopped, false, true, Waiting, 1, 0, 1), [], [0], Done(0));
            var s6 := One(0, Callout(500, Stopped, false, true, Waiting, 1, 0, 1), [], [0], Idle);
            && Enabled(s4, CheckTime) && Apply(s4, CheckTime) == s5 && Enabled(s5, Finish) && Apply(s5, Finish) == s6
  {
  }

  lemma LaterStale()
    ensures var s6 := One(0, Callout(500, Stopped, false, true, Waiting, 1, 0, 1), [], [0], Idle);
            var s7 := One(0, Callout(5000, InCalloutQueue, true, true, Waiting, 2, 0, 1), [0], [0], Idle);
            Enabled(s6, RegisterCallout(0, 5000)) && Register(s6, 0, 5000) == s7
  {
    var s6 := One(0, Callout(500, Stopped, false, true, Waiting, 1, 0, 1), [], [0], Idle);
    assert Register(s6, 0, 5000).dlist == [0];
  }

  lemma RequeuedRun() returns (run: seq<State>, acts: seq<Action>)
    ensures IsRun(run, acts) && acts == [RegisterCallout(0, 500), Drain, PopTask, CancelCallout(0), CheckTime, Finish]
    ensures run[3].pc == Popped(0)
    ensures run[6] == One(0, Callout(500, Stopped, false, true, Waiting, 1, 0, 1), [], [0], Idle)
  {
    hide Follows, Enabled, Apply;
    LaterRegistered();
    LaterDrained();
    LaterQueued();
    LaterAgain();
    var s0 := One(0, Fresh(), [], [], Idle);
    var s1 := One(0, Callout(500, InCalloutQueue, true, true, Out, 1, 0, 0), [0], [], Idle);
    var s2 := One(0, Callout(500, InTaskQueue, true, true, Waiting, 1, 0, 0), [], [0], Idle);
    var s3 := One(0, Callout(500, InTaskQueue, true, true, Running, 1, 0, 0), [], [], Popped(0));
    var s4 := One(0, Callout(500, Stopped, false, true, Out, 1, 0, 1), [], [], Popped(0));
    var s5 := One(0, Callout(500, Stopped, false, true, Waiting, 1, 0, 1), [], [0], Done(0));
    var s6 := One(0, Callout(500, Stopped, false, true, Waiting, 1, 0, 1), [], [0], Idle);
    NoSteps(s0);
    Extend([s0], [], RegisterCallout(0, 500), s1);
    run, acts := [s0] + [s1], [] + [RegisterCallout(0, 500)];
    Extend(run, acts, Drain, s2);
    run, acts := run + [s2], acts + [Drain];
    Extend(run, acts, PopTask, s3);
    run, acts := run + [s3], acts + [PopTask];
    Extend(run, acts, CancelCallout(0), s4);
    run, acts := run + [s4], acts + [CancelCallout(0)];
    Extend(run, acts, CheckTime, s5);
    run, acts := run + [s5], acts + [CheckTime];
    Extend(run, acts, Finish, s6);
    run, acts := run + [s6], acts + [Finish];
  }

  /**
   * A callout cancelled in the window is queued again and then registered. The registration is stale; cancelling
   * it, which finds the callout in the callout list, does not keep the function from running.
   */
  lemma CancelledRunsOn() returns (run: seq<State>, acts: seq<Action>)
    ensures IsRun(run, acts) && |acts| == 6 && InWindow(run[3], acts[3])
    ensures var s := run[6];
            && Enabled(s, RegisterCallout(0, 5000)) && Stale(s, RegisterCallout(0, 5000))
            && var z := Register(s, 0, 5000);
               z.callouts[0].state.InCalloutQueue? && Enabled(z, CancelCallout(0)) && CanRun(Cancel(z, 0), 0)
  {
    hide IsRun, Kept, CanRun, Apply, Register;
    run, acts := RequeuedRun();
    LaterStale();
    var s := run[6];
    var z := Register(s, 0, 5000);
    RunInv(run, acts, 6);
    InvIsOrderly(s);
    RegisterKeeps(s, 0, 5000, false);
    CancelExact(z, 0);
  }
}
