/**
 * How long a callout's function waits (source/kernel/task.cc, source/kernel/timer.h): the delay of a
 * registration is rounded down to counts of the timer.
 */
module CalloutDelay {
  import opened CalloutList
  import opened Callouts
  import opened CalloutWindow
  import opened Lists
  import opened Words

  /** Step `j` begins the function of `c` that was last registered, with the delay `us`, by step `i`. */
  ghost predicate Delayed(run: seq<State>, acts: seq<Action>, c: Id, us: nat, i: nat, j: nat)
    ensures Delayed(run, acts, c, us, i, j) ==> IsRun(run, acts) && i < j < |acts|
  {
    && IsRun(run, acts) && i < j < |acts| && us < 0x8000_0000 && acts[i] == RegisterCallout(c, us)
    && acts[j].Begin? && run[j].pc == Due(c) && forall m :: i < m < j ==> !Touches(acts[m], c)
  }

  /** The nanoseconds that the counts from state `i` to state `j` stand for. */
  function Waited(run: seq<State>, i: nat, j: nat): int
    requires i < |run| && j < |run|
  {
    (run[j].now - run[i].now) * run[i].period
  }

  // ---------------------------------------------------------------------------------------------
  // What the drain has taken
  // ---------------------------------------------------------------------------------------------

  /** A callout whose task is queued or popped was due before the end of a drain. */
  predicate Drained(s: State, c: Id) {
    s.period > 0 && c in s.callouts && (c in s.queue || AtWindow(s, c)) ==>
      s.callouts[c].time < s.now + Counts(TASK_EXECUTION_INTERVAL, s.period)
  }

  lemma {:induction false} DrainKeepsDrained(s: State, limit: nat, c: Id)
    requires Inv(s) && s.pc.Idle? && c in s.callouts && Drained(s, c)
    requires limit == s.now + Counts(TASK_EXECUTION_INTERVAL, s.period)
    ensures Drained(DrainAll(s, limit), c)
    decreases |s.dlist|
  {
    if s.dlist != [] && !IsGreater(s.callouts[s.dlist[0]].time, limit) {
      DrainOneKeeps(s, true);
      DrainKeepsDrained(DrainOne(s), limit, c);
    }
  }

  lemma OwnStepDrained(s: State, a: Action, c: Id)
    requires Inv(s) && Enabled(s, a) && !a.Drain? && !Stale(s, a) && c in s.callouts && Actor(s, a) == Some(c) && Drained(s, c)
    ensures Drained(Apply(s, a), c)
  {
    assert Agrees(s, c);
    if a.CancelCallout? { Erased(s.queue, c); }
  }

  lemma StepDrained(s: State, a: Action, c: Id)
    requires Inv(s) && Enabled(s, a) && !Stale(s, a) && c in s.callouts && Drained(s, c)
    ensures Drained(Apply(s, a), c)
  {
    if a.Drain? {
      CountsAfter(s.now, TASK_EXECUTION_INTERVAL, s.period);
      DrainKeepsDrained(s, DrainLimit(s), c);
    } else if Actor(s, a) == Some(c) {
      OwnStepDrained(s, a, c);
    } else {
      OtherStep(s, a, c);
    }
  }

  lemma {:induction false} RunDrained(run: seq<State>, acts: seq<Action>, c: Id, i: nat)
    requires IsRun(run, acts) && i < |run|
    ensures Drained(run[i], c)
  {
    hide Enabled, Apply, Drained;
    if i == 0 {
      InitDrained(run[0], c);
    } else {
      var n := i - 1;
      RunDrained(run, acts, c, n);
      RunInv(run, acts, n);
      assert run[n + 1] == Apply(run[n], acts[n]);
      if c in run[i].callouts {
        KnownBefore(run[n], acts[n], c);
        StepDrained(run[n], acts[n], c);
      } else {
        NotKnown(run[i], c);
      }
    }
  }

  lemma InitDrained(s: State, c: Id)
    requires Init(s)
    ensures Drained(s, c)
  {
  }

  lemma NotKnown(s: State, c: Id)
    requires c !in s.callouts
    ensures Drained(s, c)
  {
  }

  // ---------------------------------------------------------------------------------------------
  // The delay
  // ---------------------------------------------------------------------------------------------

  lemma Scale(a: nat, b: int, p: nat)
    requires a <= b
    ensures a * p <= b * p && (a + 1) * p <= (b + 1) * p
  {
  }

  lemma NoCounts(us: nat, period: nat)
    requires period > 0
    ensures Counts(us, period) == 0 <==> period > us * 1000
  {
    if Counts(us, period) >= 1 {
      Scale(1, Counts(us, period), period);
    }
  }

  /** The counts between a registration and the start it leads to. */
  lemma CountsBetween(run: seq<State>, acts: seq<Action>, c: Id, us: nat, i: nat, j: nat)
    requires Delayed(run, acts, c, us, i, j)
    ensures var p, n := run[i].period, run[j].now - run[i].now;
            p > 0 && n >= Counts(us, p) && (p > TASK_EXECUTION_INTERVAL * 1000 ==> n > Counts(us, p))
  {
    RunInv(run, acts, i);
    RunInv(run, acts, j);
    NeverEarly(run, acts, j);
    assert LastRegistration(acts, i, i, j, c);
    TimeSince(run, acts, c, i, j);
    CountsAfter(run[i].now, us, run[i].period);
    RunDrained(run, acts, c, j);
    StepsBounded(run, acts, i);
    StepsBounded(run, acts, j);
    NoCounts(TASK_EXECUTION_INTERVAL, run[i].period);
  }

  /**
   * Between a registration with a delay that is not negative and the start it leads to less than one count
   * of the delay is missing. Nothing is missing if the delay is a whole number of counts, or if a count is
   * longer than the interval of the drain.
   */
  lemma NotBeforeTheDelay(run: seq<State>, acts: seq<Action>, c: Id, us: nat, i: nat, j: nat)
    requires Delayed(run, acts, c, us, i, j)
    ensures run[i].period > 0 && Waited(run, i, j) + run[i].period > us * 1000
    ensures us * 1000 % run[i].period == 0 || run[i].period > TASK_EXECUTION_INTERVAL * 1000 ==>
      Waited(run, i, j) >= us * 1000
  {
    hide Delayed;
    CountsBetween(run, acts, c, us, i, j);
    Scale(Counts(us, run[i].period), run[j].now - run[i].now, run[i].period);
    var p, n, m := run[i].period, run[j].now - run[i].now, Counts(us, run[i].period);
    if p > TASK_EXECUTION_INTERVAL * 1000 {
      Scale(m + 1, n, p);
    }
  }

  lemma SoonRegister(period: nat, us: nat)
    requires 0 < period && us < 0x8000_0000
    ensures var n := Counts(us, period);
            var s0 := Only(period, 0, Fresh(), [], [], Idle);
            var s1 := Only(period, 0, Callout(n, InCalloutQueue, true, true, Out, 1, 0, 0), [0], [], Idle);
            var s2 := Only(period, n, Callout(n, InCalloutQueue, true, true, Out, 1, 0, 0), [0], [], Idle);
            && Enabled(s0, RegisterCallout(0, us)) && Apply(s0, RegisterCallout(0, us)) == s1
            && Enabled(s1, Tick(n)) && Apply(s1, Tick(n)) == s2
  {
    hide Counts;
    CountsAfter(0, us, period);
    CountsBound(us, period);
    var s0 := Only(period, 0, Fresh(), [], [], Idle);
    assert Register(s0, 0, us).dlist == [0];
  }

  lemma SoonDrain(period: nat, n: nat)
    requires 0 < period <= TASK_EXECUTION_INTERVAL * 1000 && n <= 0x8000_0000 * 1000
    ensures var s2 := Only(period, n, Callout(n, InCalloutQueue, true, true, Out, 1, 0, 0), [0], [], Idle);
            var s3 := Only(period, n, Callout(n, InTaskQueue, true, true, Waiting, 1, 0, 0), [], [0], Idle);
            Enabled(s2, Drain) && Apply(s2, Drain) == s3
  {
    hide Counts;
    CountsAfter(n, TASK_EXECUTION_INTERVAL, period);
    CountsBound(TASK_EXECUTION_INTERVAL, period);
    NoCounts(TASK_EXECUTION_INTERVAL, period);
    var s2 := Only(period, n, Callout(n, InCalloutQueue, true, true, Out, 1, 0, 0), [0], [], Idle);
    var s3 := Only(period, n, Callout(n, InTaskQueue, true, true, Waiting, 1, 0, 0), [], [0], Idle);
    assert Enabled(s2, Drain) && !IsGreater(n, DrainLimit(s2));
    assert DrainOne(s2) == s3 && DrainAll(s3, DrainLimit(s2)) == s3;
  }

  lemma SoonBegin(period: nat, n: nat)
    requires 0 < period
    ensures var s3 := Only(period, n, Callout(n, InTaskQueue, true, true, Waiting, 1, 0, 0), [], [0], Idle);
            var s4 := Only(period, n, Callout(n, InTaskQueue, true, true, Running, 1, 0, 0), [], [], Popped(0));
            var s5 := Only(period, n, Callout(n, InTaskQueue, true, true, Running, 1, 0, 0), [], [], Due(0));
            && Enabled(s3, PopTask) && Apply(s3, PopTask) == s4 && Enabled(s4, CheckTime) && Apply(s4, CheckTime) == s5
            && Enabled(s5, Begin)
  {
  }

  /** A callout that begins as soon as the scheduler lets it. */
  lemma Soonest(period: nat, us: nat) returns (run: seq<State>, acts: seq<Action>)
    requires 0 < period <= TASK_EXECUTION_INTERVAL * 1000 && us < 0x8000_0000
    ensures Delayed(run, acts, 0, us, 0, 5)
    ensures run[0].period == period && run[0].now == 0 && run[5].now == Counts(us, period)
  {
    hide Follows, Enabled, Apply;
    var n := Counts(us, period);
    CountsBound(us, period);
    SoonRegister(period, us);
    SoonDrain(period, n);
    SoonBegin(period, n);
    var k := Callout(n, InTaskQueue, true, true, Waiting, 1, 0, 0);
    var s0 := Only(period, 0, Fresh(), [], [], Idle);
    var s1 := Only(period, 0, k.(state := InCalloutQueue, status := Out), [0], [], Idle);
    var s2 := s1.(now := n);
    var s3 := Only(period, n, k, [], [0], Idle);
    var s4 := Only(period, n, k.(status := Running), [], [], Popped(0));
    var s5 := s4.(pc := Due(0));
    NoSteps(s0);
    Extend([s0], [], RegisterCallout(0, us), s1);
    run, acts := [s0] + [s1], [] + [RegisterCallout(0, us)];
    Extend(run, acts, Tick(n), s2);
    run, acts := run + [s2], acts + [Tick(n)];
    Extend(run, acts, Drain, s3);
    run, acts := run + [s3], acts + [Drain];
    Extend(run, acts, PopTask, s4);
    run, acts := run + [s4], acts + [PopTask];
    Extend(run, acts, CheckTime, s5);
    run, acts := run + [s5], acts + [CheckTime];
    Extend(run, acts, Begin, Apply(s5, Begin));
    run, acts := run + [Apply(s5, Begin)], acts + [Begin];
  }

  /** In some run the function of a callout begins before its delay, measured in nanoseconds, is over. */
  ghost predicate TooSoon(period: nat, us: nat) {
    exists run: seq<State>, acts, c, i: nat, j: nat ::
      Delayed(run, acts, c, us, i, j) && run[i].period == period && Waited(run, i, j) < us * 1000
  }

  /**
   * Exactly when a function can begin too soon: the delay is not a whole number of counts, and a count is
   * not longer than the interval of the drain.
   */
  lemma DelayExact(period: nat, us: nat)
    requires period > 0 && us < 0x8000_0000
    ensures TooSoon(period, us) <==> us * 1000 % period != 0 && period <= 1_000_000
  {
    hide Delayed;
    if us * 1000 % period != 0 && period <= TASK_EXECUTION_INTERVAL * 1000 {
      var run, acts := Soonest(period, us);
      assert Waited(run, 0, 5) < us * 1000;
    } else {
      forall run: seq<State>, acts, c, i: nat, j: nat | Delayed(run, acts, c, us, i, j) && run[i].period == period
        ensures Waited(run, i, j) >= us * 1000
      {
        NotBeforeTheDelay(run, acts, c, us, i, j);
      }
    }
  }

  /** With a count of 70 ns a delay of one microsecond is 980 ns. */
  lemma MicrosecondTooShort()
    ensures TooSoon(70, 1) && Counts(1, 70) * 70 == 980
  {
    DelayExact(70, 1);
  }
}
