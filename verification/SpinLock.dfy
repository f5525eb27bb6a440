/**
 * `SpinLock` (source/kernel/spinlock.cc): a 32-bit counter whose parity is the lock, taken with a
 * compare-and-swap and released with a plain increment, that is, a separate load and store.
 *
 * A state gives every CPU a program counter; one `Next` step is one access of the shared fields
 * `_flag` and `_cpuid` by some CPU.
 */
module SpinLock {
  import opened Lists
  import opened Words

  type Cpu = nat

  datatype Pc =
    | Idle
    | CheckFlag               // Lock: about to read _flag for the self-lock check
    | CheckCpu                // Lock: _flag was odd, about to read _cpuid
    | Load                    // Lock: about to read _flag in the spin loop
    | Cas(seen: uint32)       // Lock: about to test the parity and compare-and-swap
    | TryLoad                 // Trylock: about to read _flag
    | TryCas(seen: uint32)    // Trylock: about to test the parity and compare-and-swap
    | SetCpu                  // the swap succeeded, about to write _cpuid
    | Held                    // inside the critical section
    | RelockFlag              // the holder calls Lock again
    | RelockCpu
    | RetryLoad               // the holder calls Trylock
    | RetryCas(seen: uint32)
    | AssertOdd               // Unlock: about to check the parity
    | ClearCpu                // Unlock: about to invalidate _cpuid
    | IncLoad                 // Unlock: _flag++, about to load
    | IncStore(seen: uint32)  // Unlock: _flag++, about to store
    | SelfLockPanic(holding: bool)
    | AssertPanic

  /** What a CPU calls next, if it is to call something. */
  datatype Call = Lock | Trylock | Unlock

  datatype State = State(flag: uint32, cpuid: Option<Cpu>, pc: map<Cpu, Pc>)

  /** The field values after construction; every CPU is idle. */
  predicate Init(s: State) {
    s.flag == 0 && s.cpuid == None && forall c :: c in s.pc ==> s.pc[c] == Idle
  }

  function Succ(w: uint32): uint32 { (w + 1) % WORD32 }

  predicate Odd(w: uint32) { w % 2 == 1 }

  function Goto(s: State, c: Cpu, p: Pc): State { s.(pc := s.pc[c := p]) }

  /** One access of CPU `c`; at `Idle` and `Held` it makes the call `choice`, but only a holder unlocks. */
  function Step(s: State, c: Cpu, choice: Call): State
    requires c in s.pc
  {
    match s.pc[c]
    case Idle => Goto(s, c, if choice.Lock? then CheckFlag else TryLoad)
    case CheckFlag => Goto(s, c, if Odd(s.flag) then CheckCpu else Load)
    case CheckCpu => Goto(s, c, if s.cpuid == Some(c) then SelfLockPanic(false) else Load)
    case Load => Goto(s, c, Cas(s.flag))
    case Cas(seen) =>
      if !Odd(seen) && s.flag == seen then State(Succ(seen), s.cpuid, s.pc[c := SetCpu]) else Goto(s, c, Load)
    case TryLoad => Goto(s, c, TryCas(s.flag))
    case TryCas(seen) =>
      if !Odd(seen) && s.flag == seen then State(Succ(seen), s.cpuid, s.pc[c := SetCpu]) else Goto(s, c, Idle)
    case SetCpu => State(s.flag, Some(c), s.pc[c := Held])
    case Held => Goto(s, c, match choice case Lock => RelockFlag case Trylock => RetryLoad case Unlock => AssertOdd)
    case RelockFlag => Goto(s, c, if Odd(s.flag) then RelockCpu else Load)
    case RelockCpu => Goto(s, c, if s.cpuid == Some(c) then SelfLockPanic(true) else Load)
    case RetryLoad => Goto(s, c, RetryCas(s.flag))
    case RetryCas(seen) =>
      if !Odd(seen) && s.flag == seen then State(Succ(seen), s.cpuid, s.pc[c := SetCpu]) else Goto(s, c, Held)
    case AssertOdd => Goto(s, c, if Odd(s.flag) then ClearCpu else AssertPanic)
    case ClearCpu => State(s.flag, None, s.pc[c := IncLoad])
    case IncLoad => Goto(s, c, IncStore(s.flag))
    case IncStore(seen) => State(Succ(seen), s.cpuid, s.pc[c := Idle])
    case SelfLockPanic(_) => s
    case AssertPanic => s
  }

  ghost predicate Next(s: State, s': State) {
    exists c, choice :: c in s.pc && s' == Step(s, c, choice)
  }

  ghost predicate IsRun(run: seq<State>) {
    && |run| > 0
    && Init(run[0])
    && forall i :: 0 < i < |run| ==> Next(run[i - 1], run[i])
  }

  // ---------------------------------------------------------------------------------------------

  /** Between the successful swap and the store that makes the counter even again. */
  predicate Holding(p: Pc) {
    match p
    case SetCpu => true
    case Held => true
    case RelockFlag => true
    case RelockCpu => true
    case RetryLoad => true
    case RetryCas(_) => true
    case AssertOdd => true
    case ClearCpu => true
    case IncLoad => true
    case IncStore(_) => true
    case SelfLockPanic(holding) => holding
    case _ => false
  }

  /** The holder has written `_cpuid` and not yet cleared it. */
  predicate Signed(p: Pc) { Holding(p) && !p.SetCpu? && !p.IncLoad? && !p.IncStore? }

  predicate Holds(s: State, c: Cpu) { c in s.pc && Holding(s.pc[c]) }

  ghost predicate Inv(s: State) {
    && (forall c, d :: Holds(s, c) && Holds(s, d) ==> c == d)
    && (Odd(s.flag) <==> exists c :: Holds(s, c))
    && (s.cpuid.Some? ==> Holds(s, s.cpuid.value) && Signed(s.pc[s.cpuid.value]))
    && (forall c :: Holds(s, c) && Signed(s.pc[c]) ==> s.cpuid == Some(c))
    && (forall c :: c in s.pc ==> s.pc[c] != AssertPanic && s.pc[c] != SelfLockPanic(false))
    && (forall c :: c in s.pc && s.pc[c].IncStore? ==> s.pc[c].seen == s.flag)
    && (forall c :: c in s.pc && s.pc[c].RetryCas? ==> Odd(s.pc[c].seen))
  }

  lemma SuccFlipsParity(w: uint32)
    ensures Odd(Succ(w)) <==> !Odd(w)
  {
  }

  /** A step that neither takes nor releases the lock. */
  lemma QuietStepKeepsInv(s: State, c: Cpu, s': State)
    requires Inv(s) && c in s.pc && s'.flag == s.flag && s'.pc.Keys == s.pc.Keys
    requires forall d :: d in s.pc && d != c ==> s'.pc[d] == s.pc[d]
    requires Holding(s'.pc[c]) <==> Holding(s.pc[c])
    requires s'.cpuid == if Signed(s'.pc[c]) then Some(c) else if Signed(s.pc[c]) then None else s.cpuid
    requires s'.pc[c] != AssertPanic && s'.pc[c] != SelfLockPanic(false)
    requires (s'.pc[c].IncStore? ==> s'.pc[c].seen == s.flag) && (s'.pc[c].RetryCas? ==> Odd(s'.pc[c].seen))
    ensures Inv(s')
  {
    forall d ensures Holds(s', d) <==> Holds(s, d) {}
    if Holds(s, c) { assert Holds(s', c); }
    if s'.cpuid.Some? && s'.cpuid.value != c { assert Holds(s, s'.cpuid.value); }
  }

  lemma AcquireKeepsInv(s: State, c: Cpu)
    requires Inv(s) && c in s.pc && !Odd(s.flag)
    ensures Inv(State(Succ(s.flag), s.cpuid, s.pc[c := SetCpu]))
  {
    var s' := State(Succ(s.flag), s.cpuid, s.pc[c := SetCpu]);
    SuccFlipsParity(s.flag);
    forall d ensures !Holds(s, d) {}
    forall d | d in s.pc ensures !Holding(s.pc[d]) { assert !Holds(s, d); }
    assert Holds(s', c);
  }

  lemma ReleaseKeepsInv(s: State, c: Cpu)
    requires Inv(s) && c in s.pc && s.pc[c].IncStore?
    ensures Inv(State(Succ(s.pc[c].seen), s.cpuid, s.pc[c := Idle]))
  {
    var s' := State(Succ(s.pc[c].seen), s.cpuid, s.pc[c := Idle]);
    assert Holds(s, c);
    SuccFlipsParity(s.flag);
    forall d ensures !Holds(s', d) { assert Holds(s', d) ==> Holds(s, d); }
    forall d | d in s'.pc ensures !s'.pc[d].IncStore? { assert !Holds(s', d); }
  }

  predicate Takes(s: State, p: Pc) {
    (p.Cas? || p.TryCas?) && !Odd(p.seen) && s.flag == p.seen
  }

  /** What a step that neither takes nor releases the lock does to the acting CPU and to `_cpuid`. */
  lemma QuietStep(s: State, c: Cpu, choice: Call)
    requires c in s.pc && !Takes(s, s.pc[c]) && !s.pc[c].IncStore? && !s.pc[c].SelfLockPanic? && !s.pc[c].AssertPanic?
    requires s.pc[c].RetryCas? ==> Odd(s.pc[c].seen)
    requires if Holding(s.pc[c]) then Odd(s.flag) && (Signed(s.pc[c]) ==> s.cpuid == Some(c)) else s.cpuid != Some(c)
    ensures var s', p' := Step(s, c, choice), Step(s, c, choice).pc[c];
            && s'.flag == s.flag && s'.pc == s.pc[c := p']
            && (Holding(p') <==> Holding(s.pc[c]))
            && s'.cpuid == (if Signed(p') then Some(c) else if Signed(s.pc[c]) then None else s.cpuid)
            && p' != AssertPanic && p' != SelfLockPanic(false)
            && (p'.IncStore? ==> p'.seen == s.flag) && (p'.RetryCas? ==> Odd(p'.seen))
  {
  }

  lemma StepKeepsInv(s: State, c: Cpu, choice: Call)
    requires Inv(s) && c in s.pc
    ensures Inv(Step(s, c, choice))
  {
    assert Holding(s.pc[c]) <==> Holds(s, c);
    if Takes(s, s.pc[c]) {
      AcquireKeepsInv(s, c);
    } else if s.pc[c].IncStore? {
      ReleaseKeepsInv(s, c);
    } else if !s.pc[c].SelfLockPanic? {
      QuietStep(s, c, choice);
      QuietStepKeepsInv(s, c, Step(s, c, choice));
    }
  }

  lemma NextKeepsInv(s: State, s': State)
    requires Inv(s) && Next(s, s')
    ensures Inv(s')
  {
    var c, choice :| c in s.pc && s' == Step(s, c, choice);
    StepKeepsInv(s, c, choice);
  }

  lemma {:induction false} RunInv(run: seq<State>, i: nat)
    requires IsRun(run) && i < |run|
    ensures Inv(run[i])
  {
    if i > 0 {
      RunInv(run, i - 1);
      NextKeepsInv(run[i - 1], run[i]);
    }
  }

  // ---------------------------------------------------------------------------------------------

  /** At most one CPU holds the lock, the counter is odd exactly while one does, and no assertion fires. */
  lemma MutualExclusion(run: seq<State>, i: nat, c: Cpu, d: Cpu)
    requires IsRun(run) && i < |run|
    ensures Holds(run[i], c) && Holds(run[i], d) ==> c == d
    ensures Odd(run[i].flag) <==> exists e :: Holds(run[i], e)
    ensures c in run[i].pc ==> run[i].pc[c] != AssertPanic && (run[i].pc[c].AssertOdd? ==> Odd(run[i].flag))
  {
    RunInv(run, i);
    assert c in run[i].pc && run[i].pc[c].AssertOdd? ==> Holds(run[i], c);
  }

  /** `_cpuid` is invalid or names the holder, so the self-lock panic hits only a CPU that holds the lock. */
  lemma SelfLockPanicOnlyHolder(run: seq<State>, i: nat, c: Cpu)
    requires IsRun(run) && i < |run| && c in run[i].pc
    ensures run[i].cpuid.Some? ==> Holds(run[i], run[i].cpuid.value)
    ensures run[i].pc[c].SelfLockPanic? ==> Holds(run[i], c)
    ensures run[i].pc[c].CheckCpu? ==> run[i].cpuid != Some(c)
  {
    RunInv(run, i);
  }

  /** A holder that calls `Lock` again always panics: the self-lock check never misses. */
  lemma RelockIsCaught(run: seq<State>, i: nat, c: Cpu, b1: Call, b2: Call)
    requires IsRun(run) && i < |run| && c in run[i].pc && run[i].pc[c].RelockFlag?
    ensures var s := Step(run[i], c, b1);
            c in s.pc && s.pc[c] == RelockCpu && Step(s, c, b2).pc[c] == SelfLockPanic(true)
  {
    RunInv(run, i);
    assert Holds(run[i], c);
  }

  /** A holder that calls `Trylock` is refused and goes on holding the lock. */
  lemma RetryIsRefused(run: seq<State>, i: nat, c: Cpu, b: Call)
    requires IsRun(run) && i < |run| && c in run[i].pc && run[i].pc[c].RetryCas?
    ensures var s := Step(run[i], c, b); c in s.pc && s.pc[c] == Held && s.flag == run[i].flag && s.cpuid == Some(c)
  {
    RunInv(run, i);
    assert Holds(run[i], c);
  }

  /** The lock as a client sees it: who owns it. */
  ghost function Owner(s: State): Option<Cpu> {
    if exists c :: Holds(s, c) then (var c :| Holds(s, c); Some(c)) else None
  }

  lemma OwnerIs(s: State, c: Cpu)
    requires Inv(s) && Holds(s, c)
    ensures Owner(s) == Some(c)
  {
  }

  lemma StepKeepsOwner(s: State, c: Cpu, choice: Call, d: Cpu)
    requires Inv(s) && c in s.pc && Holds(s, d)
    ensures Holds(Step(s, c, choice), d) || (c == d && s.pc[c].IncStore?)
  {
    if c == d { assert Odd(s.flag); }
  }

  /** Every step of every run is a stutter, an acquisition of the free lock, or a release by the owner. */
  lemma RefinesLock(run: seq<State>, i: nat)
    requires IsRun(run) && 0 < i < |run|
    ensures var before, after := Owner(run[i - 1]), Owner(run[i]);
            before == after || before.None? || (after.None? && run[i - 1].pc[before.value].IncStore?)
  {
    RunInv(run, i - 1);
    NextRefinesLock(run[i - 1], run[i]);
  }

  lemma NextRefinesLock(s: State, s': State)
    requires Inv(s) && Next(s, s')
    ensures Owner(s) == Owner(s') || Owner(s).None? || (Owner(s').None? && s.pc[Owner(s).value].IncStore?)
  {
    var c, choice :| c in s.pc && s' == Step(s, c, choice);
    StepKeepsInv(s, c, choice);
    if Owner(s).Some? {
      var d := Owner(s).value;
      StepKeepsOwner(s, c, choice, d);
      if Holds(s', d) {
        OwnerIs(s', d);
      } else {
        assert forall e :: Holds(s', e) ==> Holds(s, e);
      }
    }
  }

  /** Nobody holds the lock: a spinning CPU that runs undisturbed takes it with its next two accesses. */
  lemma FreeLockIsTaken(run: seq<State>, i: nat, c: Cpu, b1: Call, b2: Call)
    requires IsRun(run) && i < |run| && c in run[i].pc && run[i].pc[c].Load? && Owner(run[i]).None?
    ensures var s := Step(run[i], c, b1);
            c in s.pc && Owner(Step(s, c, b2)) == Some(c)
  {
    RunInv(run, i);
    var s := Step(run[i], c, b1);
    assert !Odd(run[i].flag);
    StepKeepsInv(run[i], c, b1);
    StepKeepsInv(s, c, b2);
    assert Holds(Step(s, c, b2), c);
  }

  /** In any interleaving the swap of `Trylock` takes the lock if and only if what it read is even and still there. */
  lemma TryCasDecides(run: seq<State>, i: nat, c: Cpu, b: Call)
    requires IsRun(run) && i < |run| && c in run[i].pc && run[i].pc[c].TryCas?
    ensures var s, s', seen := run[i], Step(run[i], c, b), run[i].pc[c].seen;
            && c in s'.pc
            && (Owner(s') == Some(c) <==> seen % 2 == 0 && s.flag == seen)
            && (Owner(s') == Some(c) ==> s'.pc[c] == SetCpu)
            && (Owner(s') != Some(c) ==> s'.pc[c] == Idle && s'.flag == s.flag && Owner(s') == Owner(s))
  {
    RunInv(run, i);
    var s, s' := run[i], Step(run[i], c, b);
    StepKeepsInv(s, c, b);
    if Takes(s, s.pc[c]) {
      assert Holds(s', c);
      OwnerIs(s', c);
    } else {
      forall d ensures Holds(s', d) <==> Holds(s, d) {}
      SameOwner(s, s');
    }
  }

  lemma SameOwner(s: State, s': State)
    requires Inv(s) && Inv(s') && forall d :: Holds(s', d) <==> Holds(s, d)
    ensures Owner(s') == Owner(s)
  {
    if Owner(s).Some? {
      OwnerIs(s', Owner(s).value);
    }
  }

  /** `Trylock` undisturbed: its two accesses take the lock if and only if nobody held it, and else change nothing. */
  lemma TrylockDecides(run: seq<State>, i: nat, c: Cpu, b1: Call, b2: Call)
    requires IsRun(run) && i < |run| && c in run[i].pc && run[i].pc[c].TryLoad?
    ensures var s := Step(run[i], c, b1);
            && c in s.pc
            && var t := Step(s, c, b2);
               && c in t.pc
               && (Owner(t) == Some(c) <==> Owner(run[i]).None?)
               && (Owner(run[i]).None? ==> t.pc[c] == SetCpu)
               && (Owner(run[i]).Some? ==> t.pc[c] == Idle && t.flag == run[i].flag && Owner(t) == Owner(run[i]))
  {
    hide Step, IsRun;
    RunInv(run, i);
    var r, s := run[i], Step(run[i], c, b1);
    TryLoadStep(r, c, b1);
    StepKeepsInv(r, c, b1);
    forall d ensures Holds(s, d) <==> Holds(r, d) {}
    SameOwner(r, s);
    OneMore(run, i, c, b1);
    TryCasDecides(run[..i + 1] + [s], i + 1, c, b2);
    assert Odd(r.flag) <==> Owner(r).Some?;
    assert !Holds(r, c);
  }

  lemma TryLoadStep(s: State, c: Cpu, b: Call)
    requires c in s.pc && s.pc[c].TryLoad?
    ensures Step(s, c, b) == Goto(s, c, TryCas(s.flag))
  {
  }

  lemma OneMore(run: seq<State>, i: nat, c: Cpu, b: Call)
    requires IsRun(run) && i < |run| && c in run[i].pc
    ensures IsRun(run[..i + 1] + [Step(run[i], c, b)])
  {
    hide Step;
    var s := Step(run[i], c, b);
    var longer := run[..i + 1] + [s];
    assert Next(run[i], s);
    hide Next;
    forall k | 0 < k < |longer| ensures Next(longer[k - 1], longer[k]) {
      assert k <= i ==> longer[k] == run[k];
    }
  }

  /** The state after `n` accesses of `c` alone. */
  function Alone(s: State, c: Cpu, choice: Call, n: nat): (t: State)
    requires c in s.pc
    ensures c in t.pc
  {
    if n == 0 then s else Step(Alone(s, c, choice, n - 1), c, choice)
  }

  lemma FiveSteps(s: State, c: Cpu, choice: Call, s1: State, s2: State, s3: State, s4: State, s5: State)
    requires c in s.pc && s1 == Step(s, c, choice) && c in s1.pc && s2 == Step(s1, c, choice)
    requires c in s2.pc && s3 == Step(s2, c, choice) && c in s3.pc && s4 == Step(s3, c, choice)
    requires c in s4.pc && s5 == Step(s4, c, choice)
    ensures Alone(s, c, choice, 5) == s5
  {
    hide Step;
    assert Alone(s, c, choice, 1) == s1;
    assert Alone(s, c, choice, 2) == s2;
    assert Alone(s, c, choice, 3) == s3;
    assert Alone(s, c, choice, 4) == s4;
  }

  lemma LockSteps(s: State, c: Cpu)
    requires c in s.pc && s.pc[c].Idle? && !Odd(s.flag)
    ensures Alone(s, c, Lock, 5) == State(Succ(s.flag), Some(c), s.pc[c := Held])
  {
    hide Alone;
    var s1 := Goto(s, c, CheckFlag);
    var s2 := Goto(s, c, Load);
    var s3 := Goto(s, c, Cas(s.flag));
    var s4 := State(Succ(s.flag), s.cpuid, s.pc[c := SetCpu]);
    FiveSteps(s, c, Lock, s1, s2, s3, s4, State(Succ(s.flag), Some(c), s.pc[c := Held]));
  }

  lemma UnlockSteps(s: State, c: Cpu)
    requires c in s.pc && s.pc[c].Held? && Odd(s.flag)
    ensures Alone(s, c, Unlock, 5) == State(Succ(s.flag), None, s.pc[c := Idle])
  {
    hide Alone;
    var s1 := Goto(s, c, AssertOdd);
    var s2 := Goto(s, c, ClearCpu);
    var s3 := State(s.flag, None, s.pc[c := IncLoad]);
    var s4 := State(s.flag, None, s.pc[c := IncStore(s.flag)]);
    FiveSteps(s, c, Unlock, s1, s2, s3, s4, State(Succ(s.flag), None, s.pc[c := Idle]));
  }

  /** `Lock` undisturbed on a free lock ends in the critical section with the lock signed. */
  lemma LockSucceeds(run: seq<State>, i: nat, c: Cpu)
    requires IsRun(run) && i < |run| && c in run[i].pc && run[i].pc[c].Idle? && Owner(run[i]).None?
    ensures var t := Alone(run[i], c, Lock, 5); t.pc[c] == Held && Owner(t) == Some(c) && t.cpuid == Some(c)
  {
    hide Alone, Step;
    RunInv(run, i);
    assert !Odd(run[i].flag);
    LockSteps(run[i], c);
    AloneKeepsInv(run[i], c, Lock, 5);
    OwnerIs(Alone(run[i], c, Lock, 5), c);
  }

  /** `Unlock` undisturbed frees the lock. */
  lemma UnlockFrees(run: seq<State>, i: nat, c: Cpu)
    requires IsRun(run) && i < |run| && c in run[i].pc && run[i].pc[c].Held?
    ensures var t := Alone(run[i], c, Unlock, 5); t.pc[c] == Idle && Owner(t).None? && t.cpuid == None
  {
    hide Alone, Step;
    RunInv(run, i);
    assert Holds(run[i], c);
    UnlockSteps(run[i], c);
    AloneKeepsInv(run[i], c, Unlock, 5);
    SuccFlipsParity(run[i].flag);
    assert !Odd(Alone(run[i], c, Unlock, 5).flag);
  }

  lemma {:induction false} AloneKeepsInv(s: State, c: Cpu, choice: Call, n: nat)
    requires Inv(s) && c in s.pc
    ensures Inv(Alone(s, c, choice, n))
  {
    if n > 0 {
      AloneKeepsInv(s, c, choice, n - 1);
      StepKeepsInv(Alone(s, c, choice, n - 1), c, choice);
    }
  }
}
