/**
 * The lock-free reference counts behind `sptr` and `wptr` (source/kernel/ptr.h).
 *
 * A state holds every pointer variable and every `counter_helper`.  A pointer variable carries
 * the program counter of the operation running on it, so one `Action` is one atomic access of
 * some thread: a load, a compare-and-swap or a delete.  A run is any sequence of enabled actions,
 * that is, any interleaving of any number of threads.
 */
module SharedPtr {
  import opened Lists

  /** Pointer variables. That there are fewer than 2^31 of them is an assumption: the source does not check it. */
  type PtrId = n: nat | n < 0x7fff_fff0

  type HelperId = nat

  datatype Kind = Strong | Weak

  /** `counter_helper`, with the number of times the object and the helper itself were deleted. */
  datatype Helper = Helper(shared: int, weak: int, objDeletes: nat, helperDeletes: nat)

  /** What follows a release: nothing, the copy of another pointer, or the copy of the variable itself. */
  datatype Then = End | From(src: PtrId) | Itself(hold: PtrId)

  /**
   * Where the operation on a pointer variable stands; `next` is what a release is part of.  The pointer
   * `src` of a copy stays in use meanwhile.  When a variable is assigned to itself, that is `hold`.
   */
  datatype Pc =
    | Gone                                      // storage not in use
    | Null                                      // `_obj == nullptr`
    | Live                                      // owns one count
    | IncRead(src: PtrId)                       // copy: about to load the counter
    | IncCas(src: PtrId, tmp: int)              // copy: about to compare-and-swap
    | UpRead(src: PtrId)                        // weak to strong: about to load
    | UpCas(src: PtrId, tmp: int)               // weak to strong: about to test and compare-and-swap
    | DecRead(next: Then)              // release: about to load the own counter
    | DecCas(tmp: int, next: Then)     // release: about to compare-and-swap
    | DeleteObj(next: Then)            // last strong: about to delete the object
    | TokenRead(next: Then)            // last strong: about to load `weak_cnt`
    | TokenCas(tmp: int, next: Then)   // last strong: about to compare-and-swap `weak_cnt`
    | DeleteHelper(next: Then)         // about to delete the helper

  datatype Ptr = Ptr(kind: Kind, helper: HelperId, pc: Pc)

  datatype State = State(ptrs: map<PtrId, Ptr>, helpers: map<HelperId, Helper>)

  datatype Action =
    | New(p: PtrId, h: HelperId)                // sptr(T *obj)
    | NewNull(p: PtrId, kind: Kind)             // sptr(), wptr()
    | Copy(p: PtrId, kind: Kind, src: PtrId)    // sptr(sptr &), wptr(wptr &), wptr(sptr &)
    | Upgrade(p: PtrId, src: PtrId)             // sptr(wptr &)
    | Release(p: PtrId)                         // ~sptr(), ~wptr()
    | Assign(p: PtrId, src: PtrId)              // operator=
    | SelfAssign(p: PtrId, hold: PtrId)         // operator= of p to p, while `hold` stays in use
    | Step(p: PtrId)                            // next access of the operation on p

  /** The result of storing `x` in a 32-bit `int`. */
  function Int32(x: int): int {
    if x > 0x7fff_ffff then x - 0x1_0000_0000 else if x < -0x8000_0000 then x + 0x1_0000_0000 else x
  }

  predicate Free(s: State, p: PtrId) {
    p !in s.ptrs || s.ptrs[p].pc.Gone?
  }

  predicate Resting(s: State, p: PtrId) {
    p in s.ptrs && (s.ptrs[p].pc.Live? || s.ptrs[p].pc.Null?)
  }

  /** The other pointer variable that the operation at `pc` reads or is going to read. */
  function SourceOf(pc: Pc): Option<PtrId> {
    match pc
    case IncRead(q) => Some(q)
    case IncCas(q, _) => Some(q)
    case UpRead(q) => Some(q)
    case UpCas(q, _) => Some(q)
    case DecRead(n) => SourceOfThen(n)
    case DecCas(_, n) => SourceOfThen(n)
    case DeleteObj(n) => SourceOfThen(n)
    case TokenRead(n) => SourceOfThen(n)
    case TokenCas(_, n) => SourceOfThen(n)
    case DeleteHelper(n) => SourceOfThen(n)
    case _ => None
  }

  function SourceOfThen(n: Then): Option<PtrId> {
    match n
    case End => None
    case From(q) => Some(q)
    case Itself(q) => Some(q)
  }

  predicate Uses(x: Ptr, q: PtrId) { SourceOf(x.pc) == Some(q) }

  predicate Pinned(s: State, q: PtrId) {
    exists p :: p in s.ptrs && Uses(s.ptrs[p], q)
  }

  /** `q` is another pointer in use that keeps alive what `p` points to. */
  predicate Holds(s: State, p: PtrId, q: PtrId) {
    && p in s.ptrs && q in s.ptrs && q != p && s.ptrs[q].pc.Live? && s.ptrs[q].helper == s.ptrs[p].helper
    && (s.ptrs[p].kind.Strong? ==> s.ptrs[q].kind.Strong?)
  }

  /**
   * What the callers of ptr.h must respect: a pointer variable is created once, destroyed or
   * assigned by one thread while no other operation reads it, and assigned to itself only while
   * another pointer holds what it points to.
   */
  predicate Enabled(s: State, a: Action) {
    match a
    case New(p, h) => Free(s, p) && h !in s.helpers
    case NewNull(p, _) => Free(s, p)
    case Copy(p, k, q) => Free(s, p) && Resting(s, q) && p != q && (k.Strong? ==> s.ptrs[q].kind.Strong?)
    case Upgrade(p, q) => Free(s, p) && Resting(s, q) && p != q && s.ptrs[q].kind.Weak?
    case Release(p) => Resting(s, p) && !Pinned(s, p)
    case Assign(p, q) =>
      Resting(s, p) && !Pinned(s, p) && Resting(s, q) && p != q && s.ptrs[p].kind == s.ptrs[q].kind
    case SelfAssign(p, q) => Resting(s, p) && !Pinned(s, p) && (s.ptrs[p].pc.Live? ==> Holds(s, p, q))
    case Step(p) => CanStep(s, p)
  }

  predicate CanStep(s: State, p: PtrId) {
    && p in s.ptrs
    && !s.ptrs[p].pc.Gone? && !s.ptrs[p].pc.Null? && !s.ptrs[p].pc.Live?
    && s.ptrs[p].helper in s.helpers
    && (SourceOf(s.ptrs[p].pc).Some? ==> SourceOf(s.ptrs[p].pc).value in s.ptrs)
  }

  /** The counter a pointer of kind `k` shares in. */
  function Counter(k: Kind, y: Helper): int {
    if k.Strong? then y.shared else y.weak
  }

  function SetCounter(k: Kind, y: Helper, v: int): Helper {
    if k.Strong? then y.(shared := v) else y.(weak := v)
  }

  /** Starts the copy of `q` into a pointer variable of kind `k`. */
  function StartCopy(s: State, k: Kind, q: PtrId): Ptr
    requires q in s.ptrs
  {
    if s.ptrs[q].pc.Null? then Ptr(k, 0, Null) else Ptr(k, s.ptrs[q].helper, IncRead(q))
  }

  /** What follows a completed release of `x`; the fields of a variable copied from itself are still there. */
  function Finish(s: State, x: Ptr, next: Then): Ptr
    requires next.From? ==> next.src in s.ptrs
  {
    match next
    case End => Ptr(x.kind, 0, Gone)
    case From(q) => StartCopy(s, x.kind, q)
    case Itself(q) => x.(pc := IncRead(q))
  }

  /** The new values of the pointer variable and of its helper after one step. */
  function StepEffect(s: State, p: PtrId): (Ptr, Helper)
    requires CanStep(s, p)
  {
    var x := s.ptrs[p];
    var y := s.helpers[x.helper];
    match x.pc
    case IncRead(q) => (x.(pc := IncCas(q, Counter(x.kind, y))), y)
    case IncCas(q, tmp) =>
      if Counter(x.kind, y) == tmp then (x.(pc := Live), SetCounter(x.kind, y, Int32(tmp + 1)))
      else (x.(pc := IncRead(q)), y)
    case UpRead(q) => (x.(pc := UpCas(q, y.shared)), y)
    case UpCas(q, tmp) =>
      if tmp == 0 then (Ptr(x.kind, 0, Null), y)
      else if y.shared == tmp then (x.(pc := Live), y.(shared := Int32(tmp + 1)))
      else (x.(pc := UpRead(q)), y)
    case DecRead(n) => (x.(pc := DecCas(Counter(x.kind, y), n)), y)
    case DecCas(tmp, n) =>
      if Counter(x.kind, y) != tmp then (x.(pc := DecRead(n)), y)
      else
        var y' := SetCounter(x.kind, y, Int32(tmp - 1));
        if tmp != 1 then (Finish(s, x, n), y')
        else if x.kind.Strong? then (x.(pc := DeleteObj(n)), y')
        else (x.(pc := DeleteHelper(n)), y')
    case DeleteObj(n) => (x.(pc := TokenRead(n)), y.(objDeletes := y.objDeletes + 1))
    case TokenRead(n) => (x.(pc := TokenCas(y.weak, n)), y)
    case TokenCas(tmp, n) =>
      if y.weak != tmp then (x.(pc := TokenRead(n)), y)
      else if tmp == 1 then (x.(pc := DeleteHelper(n)), y.(weak := Int32(tmp - 1)))
      else (Finish(s, x, n), y.(weak := Int32(tmp - 1)))
    case DeleteHelper(n) => (Finish(s, x, n), y.(helperDeletes := y.helperDeletes + 1))
    case _ => (x, y)
  }

  /** `p = p` on a pointer in use: the release comes first. */
  function StartSelfAssign(s: State, p: PtrId, q: PtrId): State
    requires p in s.ptrs
  {
    s.(ptrs := s.ptrs[p := s.ptrs[p].(pc := DecRead(Itself(q)))])
  }

  function Apply(s: State, a: Action): State
    requires Enabled(s, a)
  {
    match a
    case New(p, h) => State(s.ptrs[p := Ptr(Strong, h, Live)], s.helpers[h := Helper(1, 1, 0, 0)])
    case NewNull(p, k) => s.(ptrs := s.ptrs[p := Ptr(k, 0, Null)])
    case Copy(p, k, q) => s.(ptrs := s.ptrs[p := StartCopy(s, k, q)])
    case Upgrade(p, q) =>
      s.(ptrs := s.ptrs[p := if s.ptrs[q].pc.Null? then Ptr(Strong, 0, Null)
                             else Ptr(Strong, s.ptrs[q].helper, UpRead(q))])
    case Release(p) =>
      s.(ptrs := s.ptrs[p := if s.ptrs[p].pc.Null? then s.ptrs[p].(pc := Gone) else s.ptrs[p].(pc := DecRead(End))])
    case Assign(p, q) =>
      s.(ptrs := s.ptrs[p := if s.ptrs[p].pc.Null? then StartCopy(s, s.ptrs[p].kind, q)
                             else s.ptrs[p].(pc := DecRead(From(q)))])
    case SelfAssign(p, q) => if s.ptrs[p].pc.Null? then s else StartSelfAssign(s, p, q)
    case Step(p) =>
      var (x, y) := StepEffect(s, p);
      State(s.ptrs[p := x], s.helpers[s.ptrs[p].helper := y])
  }

  ghost predicate Next(s: State, s': State) {
    exists a :: Enabled(s, a) && s' == Apply(s, a)
  }

  /** The states of a run: each one follows from the one before by one enabled action. */
  ghost predicate IsRun(run: seq<State>) {
    && |run| > 0
    && run[0] == State(map[], map[])
    && forall i :: 0 < i < |run| ==> Next(run[i - 1], run[i])
  }

  // ---------------------------------------------------------------------------------------------
  // The accounting invariant

  /** What a pointer variable owns of its helper. */
  datatype Share = SharedCount | WeakCount | Token | ObjOwner | HelperOwner

  /** Does `x` own a share `c` of helper `h`?  The token is the one weak count of all strong pointers. */
  predicate Owns(x: Ptr, h: HelperId, c: Share) {
    && x.helper == h
    && match c
       case SharedCount => x.kind.Strong? && (x.pc.Live? || x.pc.DecRead? || x.pc.DecCas?)
       case WeakCount => x.kind.Weak? && (x.pc.Live? || x.pc.DecRead? || x.pc.DecCas?)
       case Token => x.pc.TokenRead? || x.pc.TokenCas?
       case ObjOwner => x.pc.DeleteObj?
       case HelperOwner => x.pc.DeleteHelper?
  }

  function Owners(s: State, h: HelperId, c: Share): set<PtrId> {
    set p | p in s.ptrs && Owns(s.ptrs[p], h, c)
  }

  /** How many pointer variables own a share `c` of helper `h`. */
  function Num(s: State, h: HelperId, c: Share): nat {
    |Owners(s, h, c)|
  }

  predicate Counting(s: State, h: HelperId)
    requires h in s.helpers
  {
    var y := s.helpers[h];
    && y.shared == Num(s, h, SharedCount)
    && y.weak == Num(s, h, WeakCount) + (if y.shared > 0 then 1 else Num(s, h, ObjOwner) + Num(s, h, Token))
    && (if y.shared > 0 then 0 else 1) >= Num(s, h, ObjOwner) + Num(s, h, Token)
  }

  predicate Deleting(s: State, h: HelperId)
    requires h in s.helpers
  {
    var y := s.helpers[h];
    && y.objDeletes <= 1 && y.helperDeletes <= 1
    && (y.objDeletes == 0 <==> y.shared > 0 || Num(s, h, ObjOwner) > 0)
    && Num(s, h, HelperOwner) <= 1
    && (Num(s, h, HelperOwner) > 0 ==> y.weak == 0)
    && (y.helperDeletes == 0 <==> y.weak > 0 || Num(s, h, HelperOwner) > 0)
  }

  predicate PtrOk(s: State, p: PtrId)
    requires p in s.ptrs
  {
    var x := s.ptrs[p];
    && (!x.pc.Gone? && !x.pc.Null? ==> x.helper in s.helpers)
    && (x.pc.DeleteObj? || x.pc.TokenRead? || x.pc.TokenCas? || x.pc.UpRead? || x.pc.UpCas? ==> x.kind.Strong?)
    && (SourceOf(x.pc).Some? ==> SourceOf(x.pc).value != p && SourceOk(s, x, SourceOf(x.pc).value))
    && (x.pc.UpCas? && x.pc.tmp == 0 ==> s.helpers[x.helper].shared == 0)
  }

  /** The release in `p = p` before it has given up its count. */
  predicate ReleasesItself(pc: Pc) {
    (pc.DecRead? || pc.DecCas?) && pc.next.Itself?
  }

  /** What follows the deletions that a release has come to. */
  function Deletes(pc: Pc): Then {
    if pc.DeleteObj? || pc.TokenRead? || pc.TokenCas? || pc.DeleteHelper? then pc.next else End
  }

  predicate SourceOk(s: State, x: Ptr, q: PtrId) {
    && Resting(s, q)
    && (if x.pc.IncRead? || x.pc.IncCas? then
          s.ptrs[q].pc.Live? && s.ptrs[q].helper == x.helper && (x.kind.Strong? ==> s.ptrs[q].kind.Strong?)
        else if x.pc.UpRead? || x.pc.UpCas? then
          s.ptrs[q].pc.Live? && s.ptrs[q].helper == x.helper && s.ptrs[q].kind.Weak?
        else if ReleasesItself(x.pc) then
          s.ptrs[q].pc.Live? && s.ptrs[q].helper == x.helper && (x.kind.Strong? ==> s.ptrs[q].kind.Strong?)
        else s.ptrs[q].kind == x.kind && !Deletes(x.pc).Itself?)
  }

  ghost predicate Inv(s: State) {
    && (forall p :: p in s.ptrs ==> PtrOk(s, p))
    && (forall h :: h in s.helpers ==> Counting(s, h) && Deleting(s, h))
  }

  // ---------------------------------------------------------------------------------------------
  // Every action keeps the invariant

  lemma OwnersUpdate(s: State, s': State, p: PtrId, x: Ptr, h: HelperId, c: Share)
    requires s'.ptrs == s.ptrs[p := x]
    ensures var rest := Owners(s, h, c) - {p};
            && Owners(s', h, c) == (if Owns(x, h, c) then rest + {p} else rest)
            && Owners(s, h, c) == if p in s.ptrs && Owns(s.ptrs[p], h, c) then rest + {p} else rest
  {
    hide Owns;
  }

  lemma NumUpdate(s: State, s': State, p: PtrId, x: Ptr, h: HelperId, c: Share)
    requires s'.ptrs == s.ptrs[p := x]
    ensures Num(s', h, c) == Num(s, h, c)
                             - (if p in s.ptrs && Owns(s.ptrs[p], h, c) then 1 else 0)
                             + (if Owns(x, h, c) then 1 else 0)
  {
    hide Owns, Owners;
    OwnersUpdate(s, s', p, x, h, c);
  }

  lemma OwnerCounts(s: State, p: PtrId, h: HelperId, c: Share)
    requires p in s.ptrs && Owns(s.ptrs[p], h, c)
    ensures Num(s, h, c) > 0
  {
    assert p in Owners(s, h, c);
  }

  lemma {:induction false} BoundedSet(s: set<nat>, n: nat)
    requires forall i :: i in s ==> i < n
    ensures |s| <= n
  {
    if n > 0 {
      BoundedSet(s - {n - 1}, n - 1);
    } else {
      assert s == {};
    }
  }

  lemma NumFits(s: State, h: HelperId, c: Share)
    ensures Num(s, h, c) <= 0x7fff_fff0
  {
    var owners: set<nat> := set p | p in Owners(s, h, c);
    assert owners == Owners(s, h, c);
    BoundedSet(owners, 0x7fff_fff0);
  }

  /** There are too few pointer variables for a counter to leave the 32-bit range. */
  lemma CountsFit(s: State, h: HelperId)
    requires h in s.helpers && Counting(s, h)
    ensures 0 <= s.helpers[h].shared < 0x7fff_ffff
    ensures 0 <= s.helpers[h].weak < 0x7fff_ffff
  {
    NumFits(s, h, SharedCount);
    NumFits(s, h, WeakCount);
  }

  /** A helper whose owners and counters do not change keeps its accounts. */
  lemma SameAccounts(s: State, s': State, p: PtrId, x: Ptr, h: HelperId)
    requires h in s.helpers && Counting(s, h) && Deleting(s, h)
    requires s'.ptrs == s.ptrs[p := x] && h in s'.helpers && s'.helpers[h] == s.helpers[h]
    requires forall c :: Owns(x, h, c) <==> p in s.ptrs && Owns(s.ptrs[p], h, c)
    ensures Counting(s', h) && Deleting(s', h)
  {
    forall c ensures Num(s', h, c) == Num(s, h, c) {
      NumUpdate(s, s', p, x, h, c);
    }
  }

  lemma TwoOwners(s: State, p: PtrId, q: PtrId, h: HelperId, c: Share)
    requires p in s.ptrs && q in s.ptrs && p != q && Owns(s.ptrs[p], h, c) && Owns(s.ptrs[q], h, c)
    ensures Num(s, h, c) >= 2
  {
    assert |{p, q}| == 2 && Owners(s, h, c) == {p, q} + (Owners(s, h, c) - {p, q});
  }

  /** A release in `p = p` does not give up the last count: `hold` has one too. */
  lemma HeldCount(s: State, p: PtrId)
    requires CanStep(s, p) && PtrOk(s, p) && Counting(s, s.ptrs[p].helper) && ReleasesItself(s.ptrs[p].pc)
    ensures Counter(s.ptrs[p].kind, s.helpers[s.ptrs[p].helper]) >= 2
  {
    var x, q := s.ptrs[p], s.ptrs[p].pc.next.hold;
    if x.kind.Strong? {
      TwoOwners(s, p, q, x.helper, SharedCount);
    } else if s.ptrs[q].kind.Weak? {
      TwoOwners(s, p, q, x.helper, WeakCount);
    } else {
      OwnerCounts(s, p, x.helper, WeakCount);
      OwnerCounts(s, q, x.helper, SharedCount);
    }
  }

  lemma OwnPtr(s: State, p: PtrId)
    requires Enabled(s, Step(p)) && PtrOk(s, p)
    requires SourceOf(s.ptrs[p].pc).Some? ==> PtrOk(s, SourceOf(s.ptrs[p].pc).value)
    requires ReleasesItself(s.ptrs[p].pc) ==> Counter(s.ptrs[p].kind, s.helpers[s.ptrs[p].helper]) >= 2
    ensures PtrOk(Apply(s, Step(p)), p)
  {
  }

  /** A step of `p` leaves every other pointer variable in order. */
  lemma OtherPtr(s: State, p: PtrId, r: PtrId)
    requires Enabled(s, Step(p)) && r in s.ptrs && r != p
    requires PtrOk(s, p) && PtrOk(s, r) && s.ptrs[p].helper in s.helpers && Counting(s, s.ptrs[p].helper)
    ensures PtrOk(Apply(s, Step(p)), r)
  {
    var x := s.ptrs[p];
    CountsFit(s, x.helper);
    if Owns(x, x.helper, SharedCount) { OwnerCounts(s, p, x.helper, SharedCount); }
    if x.pc.IncCas? && x.kind.Strong? { OwnerCounts(s, x.pc.src, x.helper, SharedCount); }
  }

  lemma StepNum(s: State, p: PtrId, h: HelperId, c: Share)
    requires Enabled(s, Step(p)) && h == s.ptrs[p].helper
    ensures Num(Apply(s, Step(p)), h, c) == Num(s, h, c)
                                            - (if Owns(s.ptrs[p], h, c) then 1 else 0)
                                            + (if Owns(StepEffect(s, p).0, h, c) then 1 else 0)
    ensures Owns(s.ptrs[p], h, c) ==> Num(s, h, c) > 0
  {
    NumUpdate(s, Apply(s, Step(p)), p, StepEffect(s, p).0, h, c);
    if Owns(s.ptrs[p], h, c) { OwnerCounts(s, p, h, c); }
  }

  /** The accounts of a helper after a step that acquires a count. */
  lemma AcquireAccounts(s: State, p: PtrId, h: HelperId)
    requires Enabled(s, Step(p)) && h == s.ptrs[p].helper && PtrOk(s, p) && Counting(s, h) && Deleting(s, h)
    requires s.ptrs[p].pc.IncRead? || s.ptrs[p].pc.IncCas? || s.ptrs[p].pc.UpRead? || s.ptrs[p].pc.UpCas?
    ensures Counting(Apply(s, Step(p)), h)
    ensures Deleting(Apply(s, Step(p)), h)
  {
    AcquireCounts(s, p, h);
    AcquireDeletes(s, p, h);
  }

  lemma AcquireCounts(s: State, p: PtrId, h: HelperId)
    requires Enabled(s, Step(p)) && h == s.ptrs[p].helper && PtrOk(s, p) && Counting(s, h)
    requires s.ptrs[p].pc.IncRead? || s.ptrs[p].pc.IncCas? || s.ptrs[p].pc.UpRead? || s.ptrs[p].pc.UpCas?
    ensures Counting(Apply(s, Step(p)), h)
  {
    var q := s.ptrs[p].pc.src;
    CountsFit(s, h);
    OwnerCounts(s, q, h, if s.ptrs[q].kind.Strong? then SharedCount else WeakCount);
    StepNum(s, p, h, SharedCount);
    StepNum(s, p, h, WeakCount);
    StepNum(s, p, h, Token);
    StepNum(s, p, h, ObjOwner);
  }

  lemma AcquireDeletes(s: State, p: PtrId, h: HelperId)
    requires Enabled(s, Step(p)) && h == s.ptrs[p].helper && PtrOk(s, p) && Counting(s, h) && Deleting(s, h)
    requires s.ptrs[p].pc.IncRead? || s.ptrs[p].pc.IncCas? || s.ptrs[p].pc.UpRead? || s.ptrs[p].pc.UpCas?
    ensures Deleting(Apply(s, Step(p)), h)
  {
    var q := s.ptrs[p].pc.src;
    CountsFit(s, h);
    OwnerCounts(s, q, h, if s.ptrs[q].kind.Strong? then SharedCount else WeakCount);
    StepNum(s, p, h, SharedCount);
    StepNum(s, p, h, WeakCount);
    StepNum(s, p, h, Token);
    StepNum(s, p, h, ObjOwner);
    StepNum(s, p, h, HelperOwner);
  }

  /** The accounts of a helper after a step that gives up a count or deletes. */
  lemma ReleaseAccounts(s: State, p: PtrId, h: HelperId)
    requires Enabled(s, Step(p)) && h == s.ptrs[p].helper && PtrOk(s, p) && Counting(s, h) && Deleting(s, h)
    requires !(s.ptrs[p].pc.IncRead? || s.ptrs[p].pc.IncCas? || s.ptrs[p].pc.UpRead? || s.ptrs[p].pc.UpCas?)
    ensures Counting(Apply(s, Step(p)), h)
    ensures Deleting(Apply(s, Step(p)), h)
  {
    ReleaseCounts(s, p, h);
    ReleaseDeletes(s, p, h);
  }

  lemma ReleaseCounts(s: State, p: PtrId, h: HelperId)
    requires Enabled(s, Step(p)) && h == s.ptrs[p].helper && PtrOk(s, p) && Counting(s, h) && Deleting(s, h)
    requires !(s.ptrs[p].pc.IncRead? || s.ptrs[p].pc.IncCas? || s.ptrs[p].pc.UpRead? || s.ptrs[p].pc.UpCas?)
    ensures Counting(Apply(s, Step(p)), h)
  {
    if s.ptrs[p].pc.DecRead? || s.ptrs[p].pc.DecCas? {
      DecCounts(s, p, h);
    } else {
      DeleteCounts(s, p, h);
    }
  }

  lemma DecCounts(s: State, p: PtrId, h: HelperId)
    requires Enabled(s, Step(p)) && h == s.ptrs[p].helper && PtrOk(s, p) && Counting(s, h)
    requires s.ptrs[p].pc.DecRead? || s.ptrs[p].pc.DecCas?
    ensures Counting(Apply(s, Step(p)), h)
  {
    CountsFit(s, h);
    StepNum(s, p, h, SharedCount);
    StepNum(s, p, h, WeakCount);
    StepNum(s, p, h, Token);
    StepNum(s, p, h, ObjOwner);
  }

  lemma DeleteCounts(s: State, p: PtrId, h: HelperId)
    requires Enabled(s, Step(p)) && h == s.ptrs[p].helper && PtrOk(s, p) && Counting(s, h)
    requires s.ptrs[p].pc.DeleteObj? || s.ptrs[p].pc.TokenRead? || s.ptrs[p].pc.TokenCas? || s.ptrs[p].pc.DeleteHelper?
    ensures Counting(Apply(s, Step(p)), h)
  {
    CountsFit(s, h);
    StepNum(s, p, h, SharedCount);
    StepNum(s, p, h, WeakCount);
    StepNum(s, p, h, Token);
    StepNum(s, p, h, ObjOwner);
  }

  lemma ReleaseDeletes(s: State, p: PtrId, h: HelperId)
    requires Enabled(s, Step(p)) && h == s.ptrs[p].helper && PtrOk(s, p) && Counting(s, h) && Deleting(s, h)
    requires !(s.ptrs[p].pc.IncRead? || s.ptrs[p].pc.IncCas? || s.ptrs[p].pc.UpRead? || s.ptrs[p].pc.UpCas?)
    ensures Deleting(Apply(s, Step(p)), h)
  {
    CountsFit(s, h);
    StepNum(s, p, h, SharedCount);
    StepNum(s, p, h, WeakCount);
    StepNum(s, p, h, Token);
    StepNum(s, p, h, ObjOwner);
    StepNum(s, p, h, HelperOwner);
  }

  /** A step moves no share of a helper other than the one it works on. */
  lemma StepStaysAway(s: State, p: PtrId, h: HelperId, c: Share)
    requires Enabled(s, Step(p)) && h != s.ptrs[p].helper
    ensures !Owns(Apply(s, Step(p)).ptrs[p], h, c) && !Owns(s.ptrs[p], h, c)
  {
  }

  lemma StepKeepsPtrs(s: State, p: PtrId)
    requires Inv(s) && Enabled(s, Step(p))
    ensures forall r :: r in Apply(s, Step(p)).ptrs ==> PtrOk(Apply(s, Step(p)), r)
  {
    assert PtrOk(s, p) && Counting(s, s.ptrs[p].helper);
    if ReleasesItself(s.ptrs[p].pc) { HeldCount(s, p); }
    forall r | r in Apply(s, Step(p)).ptrs ensures PtrOk(Apply(s, Step(p)), r) {
      if r == p { OwnPtr(s, p); } else { OtherPtr(s, p, r); }
    }
  }

  lemma StepKeepsHelper(s: State, p: PtrId, h: HelperId)
    requires Inv(s) && Enabled(s, Step(p)) && h in s.helpers
    ensures Counting(Apply(s, Step(p)), h) && Deleting(Apply(s, Step(p)), h)
  {
    assert PtrOk(s, p);
    if h == s.ptrs[p].helper {
      if s.ptrs[p].pc.IncRead? || s.ptrs[p].pc.IncCas? || s.ptrs[p].pc.UpRead? || s.ptrs[p].pc.UpCas? {
        AcquireAccounts(s, p, h);
      } else {
        ReleaseAccounts(s, p, h);
      }
    } else {
      forall c { StepStaysAway(s, p, h, c); }
      SameAccounts(s, Apply(s, Step(p)), p, Apply(s, Step(p)).ptrs[p], h);
    }
  }

  lemma StepKeepsInv(s: State, p: PtrId)
    requires Inv(s) && Enabled(s, Step(p))
    ensures Inv(Apply(s, Step(p)))
  {
    StepKeepsPtrs(s, p);
    forall h | h in Apply(s, Step(p)).helpers
      ensures Counting(Apply(s, Step(p)), h) && Deleting(Apply(s, Step(p)), h)
    {
      StepKeepsHelper(s, p, h);
    }
  }

  /** An action that starts an operation on `a.p` leaves every pointer variable in order. */
  lemma StartKeepsPtr(s: State, a: Action, r: PtrId)
    requires Enabled(s, a) && !a.Step? && !a.New? && r in Apply(s, a).ptrs
    requires r in s.ptrs ==> PtrOk(s, r)
    requires a.p in s.ptrs ==> PtrOk(s, a.p)
    requires a.Copy? || a.Upgrade? || a.Assign? ==> PtrOk(s, a.src)
    ensures PtrOk(Apply(s, a), r)
  {
    assert r in s.ptrs && SourceOf(s.ptrs[r].pc) == Some(a.p) ==> Uses(s.ptrs[r], a.p);
  }

  /** Starting an operation moves no share. */
  lemma StartMovesNothing(s: State, a: Action, h: HelperId, c: Share)
    requires Enabled(s, a) && !a.Step? && !a.New?
    ensures Owns(Apply(s, a).ptrs[a.p], h, c) <==> a.p in s.ptrs && Owns(s.ptrs[a.p], h, c)
  {
  }

  lemma StartKeepsInv(s: State, a: Action)
    requires Inv(s) && Enabled(s, a) && !a.Step? && !a.New?
    ensures Inv(Apply(s, a))
  {
    forall r | r in Apply(s, a).ptrs ensures PtrOk(Apply(s, a), r) {
      StartKeepsPtr(s, a, r);
    }
    forall h | h in Apply(s, a).helpers ensures Counting(Apply(s, a), h) && Deleting(Apply(s, a), h) {
      forall c { StartMovesNothing(s, a, h, c); }
      SameAccounts(s, Apply(s, a), a.p, Apply(s, a).ptrs[a.p], h);
    }
  }

  lemma NewAccounts(s: State, a: Action)
    requires Inv(s) && Enabled(s, a) && a.New?
    ensures Counting(Apply(s, a), a.h) && Deleting(Apply(s, a), a.h)
  {
    var s' := Apply(s, a);
    forall c ensures Owners(s, a.h, c) == {} {
      forall p | p in s.ptrs ensures !Owns(s.ptrs[p], a.h, c) { assert PtrOk(s, p); }
    }
    forall c { NumUpdate(s, s', a.p, s'.ptrs[a.p], a.h, c); }
  }

  lemma NewKeepsInv(s: State, a: Action)
    requires Inv(s) && Enabled(s, a) && a.New?
    ensures Inv(Apply(s, a))
  {
    var s' := Apply(s, a);
    forall r | r in s'.ptrs ensures PtrOk(s', r) {
      assert r in s.ptrs ==> PtrOk(s, r);
    }
    forall h | h in s'.helpers ensures Counting(s', h) && Deleting(s', h) {
      if h == a.h {
        NewAccounts(s, a);
      } else {
        SameAccounts(s, s', a.p, s'.ptrs[a.p], h);
      }
    }
  }

  lemma ApplyKeepsInv(s: State, a: Action)
    requires Inv(s) && Enabled(s, a)
    ensures Inv(Apply(s, a))
  {
    match a
    case Step(p) => StepKeepsInv(s, p);
    case New(_, _) => NewKeepsInv(s, a);
    case _ => StartKeepsInv(s, a);
  }

  lemma NextKeepsInv(s: State, s': State)
    requires Inv(s) && Next(s, s')
    ensures Inv(s')
  {
    var a :| Enabled(s, a) && s' == Apply(s, a);
    ApplyKeepsInv(s, a);
  }

  lemma {:induction false} RunInv(run: seq<State>, i: nat)
    requires IsRun(run) && i < |run|
    ensures Inv(run[i])
  {
    if i > 0 {
      RunInv(run, i - 1);
      NextKeepsInv(run[i - 1], run[i]);
    }
  }

  // ---------------------------------------------------------------------------------------------
  // What the counts are for

  /** `p` holds or is working on a reference to `h`. */
  predicate Refers(s: State, p: PtrId, h: HelperId) {
    p in s.ptrs && s.ptrs[p].helper == h && !s.ptrs[p].pc.Gone? && !s.ptrs[p].pc.Null?
  }

  lemma ReferenceKeepsHelper(s: State, p: PtrId, h: HelperId)
    requires Inv(s) && Refers(s, p, h)
    ensures h in s.helpers && s.helpers[h].helperDeletes == 0
  {
    var x := s.ptrs[p];
    assert PtrOk(s, p);
    assert Counting(s, h) && Deleting(s, h);
    if x.pc.IncRead? || x.pc.IncCas? || x.pc.UpRead? || x.pc.UpCas? {
      OwnerCounts(s, x.pc.src, h, if s.ptrs[x.pc.src].kind.Strong? then SharedCount else WeakCount);
    } else {
      var c :| Owns(x, h, c);
      OwnerCounts(s, p, h, c);
    }
  }

  /**
   * In every state of every run: a pointer in use finds its helper undeleted, a strong pointer finds
   * its object undeleted, nothing is deleted twice, and the helper is deleted after the object.
   */
  lemma NoUseAfterFree(run: seq<State>, i: nat, p: PtrId, h: HelperId)
    requires IsRun(run) && i < |run| && Refers(run[i], p, h)
    ensures h in run[i].helpers
    ensures run[i].helpers[h].helperDeletes == 0
    ensures Owns(run[i].ptrs[p], h, SharedCount) ==> run[i].helpers[h].objDeletes == 0
    ensures run[i].ptrs[p].pc.DeleteObj? ==> run[i].helpers[h].objDeletes == 0
    ensures run[i].ptrs[p].pc.DeleteHelper? ==> run[i].helpers[h].objDeletes == 1
  {
    RunInv(run, i);
    ReferenceKeepsHelper(run[i], p, h);
    assert Counting(run[i], h) && Deleting(run[i], h);
    forall c ensures Owns(run[i].ptrs[p], h, c) ==> Num(run[i], h, c) > 0 {
      if Owns(run[i].ptrs[p], h, c) { OwnerCounts(run[i], p, h, c); }
    }
  }

  /** `shared_cnt` counts the strong pointers; `weak_cnt` the weak ones plus one until that one is dropped. */
  lemma CountersAccount(run: seq<State>, i: nat, h: HelperId)
    requires IsRun(run) && i < |run| && h in run[i].helpers
    ensures run[i].helpers[h].shared == |Owners(run[i], h, SharedCount)|
    ensures run[i].helpers[h].weak == |Owners(run[i], h, WeakCount)| +
              (if Owners(run[i], h, SharedCount) + Owners(run[i], h, ObjOwner) + Owners(run[i], h, Token) != {}
               then 1 else 0)
  {
    RunInv(run, i);
    assert Counting(run[i], h);
  }

  /** Each object and each helper is deleted at most once, and exactly once when nothing refers to it any more. */
  lemma DeletedExactlyOnce(run: seq<State>, i: nat, h: HelperId)
    requires IsRun(run) && i < |run| && h in run[i].helpers
    ensures run[i].helpers[h].helperDeletes <= run[i].helpers[h].objDeletes <= 1
    ensures (forall p :: !Refers(run[i], p, h)) ==>
              run[i].helpers[h].objDeletes == 1 && run[i].helpers[h].helperDeletes == 1
  {
    RunInv(run, i);
    assert Counting(run[i], h) && Deleting(run[i], h);
    if forall p :: !Refers(run[i], p, h) {
      forall c ensures Owners(run[i], h, c) == {} {
        forall p | p in run[i].ptrs ensures !Owns(run[i].ptrs[p], h, c) {
          assert !Refers(run[i], p, h);
        }
      }
    }
  }

  lemma ZeroIsFinalStep(s: State, s': State, h: HelperId)
    requires Inv(s) && Next(s, s') && h in s.helpers && s.helpers[h].shared == 0
    ensures h in s'.helpers && s'.helpers[h].shared == 0
  {
    var a :| Enabled(s, a) && s' == Apply(s, a);
    if a.Step? && s.ptrs[a.p].helper == h {
      var x := s.ptrs[a.p];
      assert PtrOk(s, a.p) && Counting(s, h);
      if Owns(x, h, SharedCount) { OwnerCounts(s, a.p, h, SharedCount); }
      if x.pc.IncCas? && x.kind.Strong? { OwnerCounts(s, x.pc.src, h, SharedCount); }
    }
  }

  /** Once `shared_cnt` has reached zero no copy and no upgrade brings the object back. */
  lemma {:induction false} NoResurrection(run: seq<State>, i: nat, j: nat, h: HelperId)
    requires IsRun(run) && i <= j < |run|
    requires h in run[i].helpers && run[i].helpers[h].shared == 0
    ensures h in run[j].helpers && run[j].helpers[h].shared == 0
    decreases j
  {
    hide Inv, Next;
    if i < j {
      NoResurrection(run, i, j - 1, h);
      RunInv(run, j - 1);
      ZeroIsFinalStep(run[j - 1], run[j], h);
    }
  }

  /**
   * The last access of an upgrade decides it: it yields a strong pointer to an undeleted object, or
   * a null pointer exactly when the object is already given up, or it tries again.
   */
  lemma UpgradeOutcome(run: seq<State>, i: nat, p: PtrId)
    requires IsRun(run) && i < |run| && CanStep(run[i], p) && run[i].ptrs[p].pc.UpCas?
    ensures var s, s', h := run[i], Apply(run[i], Step(p)), run[i].ptrs[p].helper;
            && (s'.ptrs[p].pc.Live? ==> s.helpers[h].objDeletes == 0 && s'.helpers[h].objDeletes == 0
                                        && s'.helpers[h].shared == s.helpers[h].shared + 1)
            && (s'.ptrs[p].pc.Null? ==> s.helpers[h].shared == 0)
            && (s'.ptrs[p].pc.Live? || s'.ptrs[p].pc.Null? || s'.ptrs[p].pc == UpRead(s.ptrs[p].pc.src))
  {
    var s, h := run[i], run[i].ptrs[p].helper;
    RunInv(run, i);
    assert PtrOk(s, p);
    assert Counting(s, h) && Deleting(s, h);
    CountsFit(s, h);
  }

  // ---------------------------------------------------------------------------------------------
  // What the operations yield

  /** What a variable of kind `k` is as a copy of `y`. */
  function CopyOf(k: Kind, y: Ptr): Ptr {
    if y.pc.Live? then Ptr(k, y.helper, Live) else Ptr(k, 0, Null)
  }

  /** A release that `n` follows is under way. */
  predicate Releases(pc: Pc, n: Then) {
    (pc.DecRead? || pc.DecCas? || pc.DeleteObj? || pc.TokenRead? || pc.TokenCas? || pc.DeleteHelper?) && pc.next == n
  }

  /** `p`, of kind `k`, is to become a copy of `q`, which is `y` at rest. */
  predicate Copying(s: State, p: PtrId, k: Kind, q: PtrId, y: Ptr) {
    && p in s.ptrs && q in s.ptrs && q != p && Resting(s, q) && s.ptrs[q] == y && s.ptrs[p].kind == k
    && (|| Releases(s.ptrs[p].pc, From(q))
        || (y.pc.Live? && s.ptrs[p].helper == y.helper && (s.ptrs[p].pc.IncRead? || s.ptrs[p].pc.IncCas?)
            && s.ptrs[p].pc.src == q))
  }

  /** `p` is to become an upgrade of the weak pointer `q`, which is `y` in use. */
  predicate Upgrading(s: State, p: PtrId, q: PtrId, y: Ptr) {
    && p in s.ptrs && q in s.ptrs && q != p && s.ptrs[q] == y && y.pc.Live? && s.ptrs[p].kind.Strong?
    && s.ptrs[p].helper == y.helper && (s.ptrs[p].pc.UpRead? || s.ptrs[p].pc.UpCas?) && s.ptrs[p].pc.src == q
  }

  /** A variable that an operation reads is not touched meanwhile. */
  lemma SourceStays(s: State, a: Action, p: PtrId, q: PtrId)
    requires Enabled(s, a) && p in s.ptrs && Uses(s.ptrs[p], q) && Resting(s, q)
    ensures a.p != q
  {
  }

  lemma CopyOwnStep(s: State, p: PtrId, k: Kind, q: PtrId, y: Ptr)
    requires CanStep(s, p) && Copying(s, p, k, q, y)
    ensures Copying(Apply(s, Step(p)), p, k, q, y) || Apply(s, Step(p)).ptrs[p] == CopyOf(k, y)
  {
  }

  lemma CopyStep(s: State, s': State, p: PtrId, k: Kind, q: PtrId, y: Ptr)
    requires Next(s, s') && Copying(s, p, k, q, y)
    ensures q in s'.ptrs && s'.ptrs[q] == y
    ensures Copying(s', p, k, q, y) || (p in s'.ptrs && s'.ptrs[p] == CopyOf(k, y))
  {
    var a :| Enabled(s, a) && s' == Apply(s, a);
    SourceStays(s, a, p, q);
    hide Apply, Enabled;
    OthersLeave(s, a, q);
    if a.p == p {
      OnlySteps(s, a, p);
      CopyOwnStep(s, p, k, q, y);
    } else {
      OthersLeave(s, a, p);
    }
  }

  lemma UpgradeOwnStep(s: State, p: PtrId, q: PtrId, y: Ptr)
    requires Inv(s) && CanStep(s, p) && Upgrading(s, p, q, y)
    ensures var s' := Apply(s, Step(p));
            || Upgrading(s', p, q, y) || s'.ptrs[p] == Ptr(Strong, y.helper, Live)
            || (s'.ptrs[p] == Ptr(Strong, 0, Null) && y.helper in s'.helpers && s'.helpers[y.helper].shared == 0)
  {
    assert PtrOk(s, p);
  }

  lemma UpgradeStep(s: State, s': State, p: PtrId, q: PtrId, y: Ptr)
    requires Inv(s) && Next(s, s') && Upgrading(s, p, q, y)
    ensures || Upgrading(s', p, q, y) || (p in s'.ptrs && s'.ptrs[p] == Ptr(Strong, y.helper, Live))
            || (p in s'.ptrs && s'.ptrs[p] == Ptr(Strong, 0, Null) && y.helper in s'.helpers
                && s'.helpers[y.helper].shared == 0)
  {
    var a :| Enabled(s, a) && s' == Apply(s, a);
    SourceStays(s, a, p, q);
    hide Inv, Apply, Enabled;
    OthersLeave(s, a, q);
    if a.p == p {
      OnlySteps(s, a, p);
      UpgradeOwnStep(s, p, q, y);
    } else {
      OthersLeave(s, a, p);
    }
  }

  /** `a` makes `p` a copy of `q`: as a new variable of kind `k`, or by assignment. */
  predicate Copies(s: State, a: Action, p: PtrId, k: Kind, q: PtrId) {
    a == Copy(p, k, q) || (a == Assign(p, q) && p in s.ptrs && s.ptrs[p].kind == k)
  }

  lemma CopyStarts(s: State, a: Action, p: PtrId, k: Kind, q: PtrId)
    requires Enabled(s, a) && Copies(s, a, p, k, q)
    ensures q in s.ptrs && Resting(s, q) && q != p
    ensures var s' := Apply(s, a); Copying(s', p, k, q, s.ptrs[q]) || s'.ptrs[p] == CopyOf(k, s.ptrs[q])
  {
  }

  /**
   * In every run, whatever the other threads do: a copy or an assignment of `q` to `p`, strong or weak, makes `p`
   * a pointer in use to what `q` points to, or null if and only if `q` is null, and leaves `q` alone.
   */
  lemma {:induction false} CopyYields(run: seq<State>, a: Action, i: nat, j: nat, p: PtrId, k: Kind, q: PtrId)
    requires IsRun(run) && i < j < |run| && Enabled(run[i], a) && run[i + 1] == Apply(run[i], a)
    requires Copies(run[i], a, p, k, q) && forall m :: i < m < j ==> !Resting(run[m], p)
    ensures q in run[i].ptrs && q in run[j].ptrs && p in run[j].ptrs
    ensures var y := run[i].ptrs[q];
            && run[j].ptrs[q] == y
            && (y.pc.Live? || y.pc.Null?)
            && (Resting(run[j], p) ==> run[j].ptrs[p] == if y.pc.Live? then Ptr(k, y.helper, Live) else Ptr(k, 0, Null))
            && (!Resting(run[j], p) ==> Copying(run[j], p, k, q, y))
    decreases j
  {
    CopyStarts(run[i], a, p, k, q);
    if i + 1 == j {
      KeepsSource(run[i], a, p, k, q);
    } else {
      hide Next, Enabled, Apply;
      CopyYields(run, a, i, j - 1, p, k, q);
      CopyStep(run[j - 1], run[j], p, k, q, run[i].ptrs[q]);
    }
  }

  lemma KeepsSource(s: State, a: Action, p: PtrId, k: Kind, q: PtrId)
    requires Enabled(s, a) && Copies(s, a, p, k, q)
    ensures q in s.ptrs && q in Apply(s, a).ptrs && Apply(s, a).ptrs[q] == s.ptrs[q]
  {
  }

  /**
   * And an upgrade of `q` makes `p` a strong pointer to what `q` points to, or null, which it becomes only if `q`
   * is null or the object was given up before.
   */
  lemma {:induction false} UpgradeYields(run: seq<State>, i: nat, j: nat, p: PtrId, q: PtrId)
    requires IsRun(run) && i < j < |run| && Enabled(run[i], Upgrade(p, q)) && run[i + 1] == Apply(run[i], Upgrade(p, q))
    requires forall m :: i < m < j ==> !Resting(run[m], p)
    ensures q in run[i].ptrs && p in run[j].ptrs
    ensures var y := run[i].ptrs[q];
            if y.pc.Null? then j == i + 1 ==> run[j].ptrs[p] == Ptr(Strong, 0, Null)
            else if !Resting(run[j], p) then Upgrading(run[j], p, q, y)
            else || run[j].ptrs[p] == Ptr(Strong, y.helper, Live)
                 || (&& run[j].ptrs[p] == Ptr(Strong, 0, Null)
                     && y.helper in run[j].helpers && run[j].helpers[y.helper].shared == 0)
    decreases j
  {
    hide Inv, Next, Enabled, Apply, IsRun;
    UpgradeStarts(run[i], p, q);
    if i + 1 < j {
      StepOf(run, j);
      UpgradeYields(run, i, j - 1, p, q);
      RunInv(run, j - 1);
      UpgradeStep(run[j - 1], run[j], p, q, run[i].ptrs[q]);
    }
  }

  lemma StepOf(run: seq<State>, j: nat)
    requires IsRun(run) && 0 < j < |run|
    ensures Next(run[j - 1], run[j])
  {
    hide Next;
  }

  lemma UpgradeStarts(s: State, p: PtrId, q: PtrId)
    requires Enabled(s, Upgrade(p, q))
    ensures q in s.ptrs && p in Apply(s, Upgrade(p, q)).ptrs
    ensures var s', y := Apply(s, Upgrade(p, q)), s.ptrs[q];
            if y.pc.Null? then s'.ptrs[p] == Ptr(Strong, 0, Null) else Upgrading(s', p, q, y) && !Resting(s', p)
  {
  }

  /** A variable that is destroyed gives up its count and is not in use until it is made anew. */
  lemma {:induction false} ReleaseYields(run: seq<State>, i: nat, j: nat, p: PtrId)
    requires IsRun(run) && i < j < |run| && Enabled(run[i], Release(p)) && run[i + 1] == Apply(run[i], Release(p))
    requires forall m :: i < m < j ==> !Free(run[m], p)
    ensures p in run[j].ptrs && (Free(run[j], p) || Releases(run[j].ptrs[p].pc, End))
    decreases j
  {
    if i + 1 < j {
      ReleaseYields(run, i, j - 1, p);
      ReleaseStep(run[j - 1], run[j], p);
    }
  }

  lemma ReleaseStep(s: State, s': State, p: PtrId)
    requires Next(s, s') && p in s.ptrs && Releases(s.ptrs[p].pc, End)
    ensures p in s'.ptrs && (s'.ptrs[p].pc.Gone? || Releases(s'.ptrs[p].pc, End))
  {
    var a :| Enabled(s, a) && s' == Apply(s, a);
    if a.p == p {
      OnlySteps(s, a, p);
    } else {
      OthersLeave(s, a, p);
    }
  }

  // ---------------------------------------------------------------------------------------------
  // Assigning a pointer to itself

  /** `p = p` on a pointer of kind `k` to `h` is under way. */
  predicate AssigningItself(s: State, p: PtrId, k: Kind, h: HelperId) {
    && p in s.ptrs && s.ptrs[p].kind == k && s.ptrs[p].helper == h
    && (ReleasesItself(s.ptrs[p].pc) || s.ptrs[p].pc.IncRead? || s.ptrs[p].pc.IncCas?)
  }

  /** While another pointer is held no step of any thread leads the assignment astray. */
  lemma SelfAssignStep(s: State, s': State, p: PtrId, k: Kind, h: HelperId)
    requires Inv(s) && Next(s, s') && AssigningItself(s, p, k, h)
    ensures AssigningItself(s', p, k, h) || (p in s'.ptrs && s'.ptrs[p] == Ptr(k, h, Live))
  {
    var a :| Enabled(s, a) && s' == Apply(s, a);
    if a.p == p {
      OnlySteps(s, a, p);
      SelfAssignOwnStep(s, p);
    } else {
      OthersLeave(s, a, p);
    }
  }

  /** An operation that is under way is not interrupted by another one on the same variable. */
  lemma OnlySteps(s: State, a: Action, p: PtrId)
    requires Enabled(s, a) && a.p == p && p in s.ptrs && !s.ptrs[p].pc.Gone? && !Resting(s, p)
    ensures a == Step(p)
  {
  }

  lemma OthersLeave(s: State, a: Action, p: PtrId)
    requires Enabled(s, a) && a.p != p && p in s.ptrs
    ensures p in Apply(s, a).ptrs && Apply(s, a).ptrs[p] == s.ptrs[p]
  {
  }

  lemma SelfAssignOwnStep(s: State, p: PtrId)
    requires Inv(s) && CanStep(s, p) && AssigningItself(s, p, s.ptrs[p].kind, s.ptrs[p].helper)
    ensures var x, s' := s.ptrs[p], Apply(s, Step(p));
            AssigningItself(s', p, x.kind, x.helper) || s'.ptrs[p] == x.(pc := Live)
  {
    assert PtrOk(s, p) && Counting(s, s.ptrs[p].helper);
    if ReleasesItself(s.ptrs[p].pc) {
      HeldCount(s, p);
    }
  }

  lemma SelfAssignStarts(s: State, p: PtrId, q: PtrId)
    requires Enabled(s, SelfAssign(p, q)) && s.ptrs[p].pc.Live?
    ensures var s' := Apply(s, SelfAssign(p, q));
            AssigningItself(s', p, s.ptrs[p].kind, s.ptrs[p].helper) && !Resting(s', p)
  {
  }

  lemma SelfAssignState(s: State, p: PtrId, k: Kind, h: HelperId)
    requires Inv(s) && (AssigningItself(s, p, k, h) || (p in s.ptrs && s.ptrs[p] == Ptr(k, h, Live)))
    ensures h in s.helpers && s.helpers[h].helperDeletes == 0 && (k.Strong? ==> s.helpers[h].objDeletes == 0)
  {
    ReferenceKeepsHelper(s, p, h);
    assert PtrOk(s, p) && Counting(s, h) && Deleting(s, h);
    if k.Strong? {
      OwnerCounts(s, if s.ptrs[p].pc.IncRead? || s.ptrs[p].pc.IncCas? then s.ptrs[p].pc.src else p, h, SharedCount);
    }
  }

  ghost predicate IsPath(path: seq<State>) {
    path != [] && forall i :: 0 < i < |path| ==> Next(path[i - 1], path[i])
  }

  lemma {:induction false} HeldPath(path: seq<State>, p: PtrId, k: Kind, h: HelperId)
    requires IsPath(path) && Inv(path[0]) && AssigningItself(path[0], p, k, h)
    requires forall m :: 0 <= m < |path| - 1 ==> !Resting(path[m], p)
    ensures Inv(Last(path))
    ensures AssigningItself(Last(path), p, k, h) || (p in Last(path).ptrs && Last(path).ptrs[p] == Ptr(k, h, Live))
    decreases |path|
  {
    hide Inv, Next;
    if |path| > 1 {
      var front := path[..|path| - 1];
      assert forall m :: 0 <= m < |front| ==> front[m] == path[m];
      HeldPath(front, p, k, h);
      NextKeepsInv(Last(front), Last(path));
      SelfAssignStep(Last(front), Last(path), p, k, h);
    }
  }

  /**
   * In every run, from the start of `p = p` while `q` is held until `p` is at rest again: nothing that `p`
   * points to is deleted, and then `p` is what it was.
   */
  lemma HeldSelfAssignment(run: seq<State>, i: nat, j: nat, p: PtrId, q: PtrId)
    requires IsRun(run) && i < j < |run| && p in run[i].ptrs && run[i].ptrs[p].pc.Live?
    requires Enabled(run[i], SelfAssign(p, q)) && run[i + 1] == Apply(run[i], SelfAssign(p, q))
    requires forall k :: i < k < j ==> !Resting(run[k], p)
    ensures var x := run[i].ptrs[p];
            && x.helper in run[j].helpers && run[j].helpers[x.helper].helperDeletes == 0
            && (x.kind.Strong? ==> run[j].helpers[x.helper].objDeletes == 0)
            && (if Resting(run[j], p) then run[j].ptrs[p] == x else AssigningItself(run[j], p, x.kind, x.helper))
  {
    hide Inv, Next, Enabled, Apply;
    var x, path := run[i].ptrs[p], run[i + 1..j + 1];
    SelfAssignStarts(run[i], p, q);
    RunInv(run, i + 1);
    assert forall m :: 0 <= m < |path| ==> path[m] == run[i + 1 + m];
    HeldPath(path, p, x.kind, x.helper);
    SelfAssignState(run[j], p, x.kind, x.helper);
  }

  // Without a held pointer: the other owners go away in the middle of the assignment.

  lemma Join(a: seq<State>, b: seq<State>)
    requires IsPath(a) && IsPath(b) && Last(a) == b[0]
    ensures IsPath(a + b[1..]) && Last(a + b[1..]) == Last(b) && (a + b[1..])[0] == a[0]
  {
    hide Next;
    var c := a + b[1..];
    forall i | 0 < i < |c| ensures Next(c[i - 1], c[i]) {
      if i >= |a| {
        assert c[i] == b[i - |a| + 1] && c[i - 1] == b[i - |a|];
      }
    }
  }

  /** How many steps the operation on a pointer needs when no other thread runs. */
  function Rank(x: Ptr, y: Helper): nat {
    match x.pc
    case IncRead(_) => 2
    case IncCas(_, tmp) => if tmp == Counter(x.kind, y) then 1 else 3
    case UpRead(_) => 2
    case UpCas(_, tmp) => if tmp == 0 || tmp == y.shared then 1 else 3
    case DecRead(_) => 10
    case DecCas(tmp, _) => if tmp == Counter(x.kind, y) then 9 else 11
    case DeleteObj(_) => 8
    case TokenRead(_) => 5
    case TokenCas(tmp, _) => if tmp == y.weak then 4 else 6
    case DeleteHelper(_) => 3
    case _ => 0
  }

  /** `x` is at rest or no longer in use. */
  predicate Settled(x: Ptr) {
    x.pc.Live? || x.pc.Null? || x.pc.Gone?
  }

  /** `x` is on the way out of use. */
  predicate Dying(x: Ptr) {
    x.pc.Gone? || ((x.pc.DecRead? || x.pc.DecCas?) && x.pc.next.End?) ||
    ((x.pc.DeleteObj? || x.pc.TokenRead? || x.pc.TokenCas? || x.pc.DeleteHelper?) && x.pc.next.End?)
  }

  lemma DyingStep(s: State, p: PtrId)
    requires CanStep(s, p) && Dying(s.ptrs[p])
    ensures Dying(StepEffect(s, p).0)
  {
  }

  lemma EffectLowersRank(s: State, p: PtrId, y: Helper)
    requires CanStep(s, p) && var (x', y') := StepEffect(s, p); y == y' || x'.helper != s.ptrs[p].helper
    ensures var x' := StepEffect(s, p).0; Settled(x') || Rank(x', y) < Rank(s.ptrs[p], s.helpers[s.ptrs[p].helper])
  {
  }

  lemma UnsettledCanStep(s: State, p: PtrId)
    requires p in s.ptrs && PtrOk(s, p) && !Settled(s.ptrs[p])
    ensures CanStep(s, p)
  {
  }

  lemma RankDrops(s: State, p: PtrId)
    requires Inv(s) && CanStep(s, p)
    ensures var s' := Apply(s, Step(p));
            Settled(s'.ptrs[p]) ||
            (CanStep(s', p) && Rank(s'.ptrs[p], s'.helpers[s'.ptrs[p].helper]) < Rank(s.ptrs[p], s.helpers[s.ptrs[p].helper]))
  {
    hide Inv, Rank, StepEffect, PtrOk;
    var s' := Apply(s, Step(p));
    StepKeepsInv(s, p);
    assert PtrOk(s', p) by { InvPtr(s', p); }
    if !Settled(s'.ptrs[p]) {
      UnsettledCanStep(s', p);
      EffectLowersRank(s, p, s'.helpers[s'.ptrs[p].helper]);
    }
  }

  lemma InvPtr(s: State, p: PtrId)
    requires Inv(s) && p in s.ptrs
    ensures PtrOk(s, p)
  {
  }

  /** A path on which nothing happens to `p`. */
  ghost predicate PathBeside(path: seq<State>, p: PtrId)
    ensures PathBeside(path, p) ==> path != []
  {
    path != [] && forall i :: 0 < i < |path| ==> NextBeside(path[i - 1], path[i], p)
  }

  ghost predicate NextBeside(s: State, s': State, p: PtrId) {
    exists a: Action :: a.p != p && Enabled(s, a) && s' == Apply(s, a)
  }

  lemma JoinBeside(a: seq<State>, b: seq<State>, p: PtrId)
    requires PathBeside(a, p) && PathBeside(b, p) && Last(a) == b[0]
    ensures PathBeside(a + b[1..], p) && Last(a + b[1..]) == Last(b) && (a + b[1..])[0] == a[0]
  {
    hide NextBeside;
    var c := a + b[1..];
    forall i | 0 < i < |c| ensures NextBeside(c[i - 1], c[i], p) {
      if i >= |a| {
        assert c[i] == b[i - |a| + 1] && c[i - 1] == b[i - |a|];
      }
    }
  }

  /** Only `r` differs. */
  predicate SameBut(s: State, s': State, r: PtrId) {
    s'.ptrs.Keys == s.ptrs.Keys && forall x :: x in s.ptrs && x != r ==> s'.ptrs[x] == s.ptrs[x]
  }

  /** Running alone, the operation on `r` comes to its end. */
  lemma {:induction false} RunAlone(s: State, r: PtrId, p: PtrId) returns (path: seq<State>)
    requires Inv(s) && r in s.ptrs && r != p
    ensures PathBeside(path, p) && path[0] == s && Inv(Last(path)) && SameBut(s, Last(path), r)
    ensures Settled(Last(path).ptrs[r]) && (Dying(s.ptrs[r]) ==> Last(path).ptrs[r].pc.Gone?)
    decreases if CanStep(s, r) then 1 + Rank(s.ptrs[r], s.helpers[s.ptrs[r].helper]) else 0
  {
    hide Inv, Rank, StepEffect, PtrOk;
    if Settled(s.ptrs[r]) {
      path := [s];
    } else {
      InvPtr(s, r);
      UnsettledCanStep(s, r);
      RankDrops(s, r);
      StepKeepsInv(s, r);
      if Dying(s.ptrs[r]) { DyingStep(s, r); }
      var s' := Apply(s, Step(r));
      assert NextBeside(s, s', p);
      var rest := RunAlone(s', r, p);
      assert PathBeside([s, s'], p);
      JoinBeside([s, s'], rest, p);
      path := [s, s'] + rest[1..];
    }
  }

  function Busy(s: State, p: PtrId): set<PtrId> {
    set r | r in s.ptrs && r != p && !Settled(s.ptrs[r])
  }

  /** From every state of every run the operations of all other threads can come to their end. */
  lemma {:induction false} FinishOthers(s: State, p: PtrId) returns (path: seq<State>)
    requires Inv(s) && p in s.ptrs
    ensures PathBeside(path, p) && path[0] == s && Inv(Last(path)) && Busy(Last(path), p) == {}
    ensures p in Last(path).ptrs && Last(path).ptrs[p] == s.ptrs[p]
    decreases |Busy(s, p)|
  {
    hide Inv, NextBeside, Settled;
    if Busy(s, p) == {} {
      path := [s];
    } else {
      var r :| r in Busy(s, p);
      var first := RunAlone(s, r, p);
      var t := Last(first);
      assert Busy(t, p) == Busy(s, p) - {r};
      var rest := FinishOthers(t, p);
      JoinBeside(first, rest, p);
      path := first + rest[1..];
    }
  }

  /** The owners of a count of `h` other than `p`. */
  function Others(s: State, p: PtrId, h: HelperId): set<PtrId> {
    set r | r in s.ptrs && r != p && (Owns(s.ptrs[r], h, SharedCount) || Owns(s.ptrs[r], h, WeakCount))
  }

  lemma CanRelease(s: State, p: PtrId, r: PtrId, h: HelperId)
    requires Inv(s) && p in s.ptrs && s.ptrs[p].pc == DecRead(End) && Busy(s, p) == {} && r in Others(s, p, h)
    ensures Enabled(s, Release(r)) && Dying(Apply(s, Release(r)).ptrs[r]) && Inv(Apply(s, Release(r)))
    ensures SameBut(s, Apply(s, Release(r)), r)
  {
    hide Inv;
    assert Settled(s.ptrs[r]) by {
      assert r !in Busy(s, p);
    }
    forall x | x in s.ptrs ensures !Uses(s.ptrs[x], r) {
      assert x != p ==> x !in Busy(s, p);
    }
    ApplyKeepsInv(s, Release(r));
  }

  /** Then they can go away. */
  lemma {:induction false} ReleaseOthers(s: State, p: PtrId, h: HelperId) returns (path: seq<State>)
    requires Inv(s) && p in s.ptrs && s.ptrs[p].pc == DecRead(End) && Busy(s, p) == {}
    ensures PathBeside(path, p) && path[0] == s && Inv(Last(path)) && Others(Last(path), p, h) == {}
    ensures p in Last(path).ptrs && Last(path).ptrs[p] == s.ptrs[p] && Busy(Last(path), p) == {}
    decreases |Others(s, p, h)|
  {
    hide Inv, NextBeside, Dying, Enabled, Apply;
    if Others(s, p, h) == {} {
      path := [s];
    } else {
      var r :| r in Others(s, p, h);
      CanRelease(s, p, r, h);
      var s' := Apply(s, Release(r));
      assert PathBeside([s, s'], p) by { OneBeside(s, Release(r), p); }
      var run := RunAlone(s', r, p);
      JoinBeside([s, s'], run, p);
      var first := [s, s'] + run[1..];
      var t := Last(first);
      assert Others(t, p, h) == Others(s, p, h) - {r} && Busy(t, p) == {};
      var rest := ReleaseOthers(t, p, h);
      JoinBeside(first, rest, p);
      path := first + rest[1..];
    }
  }

  lemma OneBeside(s: State, a: Action, p: PtrId)
    requires Enabled(s, a) && a.p != p
    ensures PathBeside([s, Apply(s, a)], p)
  {
    assert NextBeside(s, Apply(s, a), p);
  }

  lemma LiftPins(t: State, p: PtrId, x: PtrId)
    requires p in t.ptrs && t.ptrs[p].pc == DecRead(End) && x != p
    ensures Pinned(StartSelfAssign(t, p, p), x) <==> Pinned(t, x)
  {
    var u := StartSelfAssign(t, p, p);
    if r :| r in u.ptrs && Uses(u.ptrs[r], x) { assert r in t.ptrs && Uses(t.ptrs[r], x); }
    if r :| r in t.ptrs && Uses(t.ptrs[r], x) { assert r in u.ptrs && Uses(u.ptrs[r], x); }
  }

  lemma LiftEffect(t: State, r: PtrId, p: PtrId)
    requires p in t.ptrs && t.ptrs[p].pc == DecRead(End) && r != p && CanStep(t, r) && PtrOk(t, r)
    ensures var u := StartSelfAssign(t, p, p); CanStep(u, r) && StepEffect(u, r) == StepEffect(t, r)
  {
  }

  lemma LiftSource(t: State, q: PtrId, k: Kind, p: PtrId)
    requires p in t.ptrs && t.ptrs[p].pc == DecRead(End) && Resting(t, q)
    ensures var u := StartSelfAssign(t, p, p); Resting(u, q) && q != p && u.ptrs[q] == t.ptrs[q]
    ensures StartCopy(StartSelfAssign(t, p, p), k, q) == StartCopy(t, k, q)
  {
  }

  lemma Commute(m: map<PtrId, Ptr>, p: PtrId, x: Ptr, r: PtrId, y: Ptr)
    requires p != r
    ensures m[p := x][r := y] == m[r := y][p := x]
  {
  }

  lemma LiftStart(t: State, a: Action, p: PtrId)
    requires p in t.ptrs && t.ptrs[p].pc == DecRead(End) && a.p != p && Enabled(t, a) && !a.Step?
    ensures var u := StartSelfAssign(t, p, p);
            Enabled(u, a) && Apply(u, a) == StartSelfAssign(Apply(t, a), p, p)
  {
    hide Pinned, StartCopy;
    var x := t.ptrs[p].(pc := DecRead(Itself(p)));
    LiftPins(t, p, a.p);
    if a.Copy? || a.Upgrade? || a.Assign? {
      LiftSource(t, a.src, if a.Copy? then a.kind else if a.Upgrade? then Strong else t.ptrs[a.p].kind, p);
    }
    if !(a.SelfAssign? && t.ptrs[a.p].pc.Null?) {
      Commute(t.ptrs, p, x, a.p, Apply(t, a).ptrs[a.p]);
    }
  }

  /** What others do beside a release of `p` they can also do beside the assignment of `p` to itself. */
  lemma LiftStep(t: State, a: Action, p: PtrId)
    requires Inv(t) && p in t.ptrs && t.ptrs[p].pc == DecRead(End) && a.p != p && Enabled(t, a)
    ensures var u := StartSelfAssign(t, p, p);
            Enabled(u, a) && Apply(u, a) == StartSelfAssign(Apply(t, a), p, p)
  {
    if a.Step? {
      hide Inv, StepEffect, PtrOk;
      InvPtr(t, a.p);
      LiftEffect(t, a.p, p);
      Commute(t.ptrs, p, t.ptrs[p].(pc := DecRead(Itself(p))), a.p, StepEffect(t, a.p).0);
    } else {
      hide *;
      LiftStart(t, a, p);
    }
  }

  lemma {:induction false} LiftPath(path: seq<State>, p: PtrId) returns (lifted: seq<State>)
    requires PathBeside(path, p) && Inv(path[0]) && p in path[0].ptrs && path[0].ptrs[p].pc == DecRead(End)
    ensures IsPath(lifted) && |lifted| == |path| && p in Last(path).ptrs && Last(path).ptrs[p] == path[0].ptrs[p]
    ensures lifted[0] == StartSelfAssign(path[0], p, p) && Last(lifted) == StartSelfAssign(Last(path), p, p)
    ensures forall k :: 0 <= k < |lifted| ==> p in lifted[k].ptrs && lifted[k].ptrs[p].pc == DecRead(Itself(p))
    decreases |path|
  {
    hide Inv, Enabled, Apply;
    if |path| == 1 {
      lifted := [StartSelfAssign(path[0], p, p)];
    } else {
      var t, t' := path[0], path[1];
      assert NextBeside(t, t', p);
      var a: Action :| a.p != p && Enabled(t, a) && t' == Apply(t, a);
      ApplyKeepsInv(t, a);
      OthersLeave(t, a, p);
      LiftStep(t, a, p);
      assert Next(StartSelfAssign(t, p, p), StartSelfAssign(t', p, p));
      assert path[1..][0] == t';
      var rest := LiftPath(path[1..], p);
      lifted := [StartSelfAssign(t, p, p)] + rest;
    }
  }

  /** `s` with the operation on `p` at `pc` and the helper of `p` replaced. */
  function At(s: State, p: PtrId, pc: Pc, y: Helper): State
    requires p in s.ptrs
  {
    State(s.ptrs[p := s.ptrs[p].(pc := pc)], s.helpers[s.ptrs[p].helper := y])
  }

  lemma AtStep(s: State, p: PtrId, pc: Pc, y: Helper, pc': Pc, y': Helper)
    requires p in s.ptrs && CanStep(At(s, p, pc, y), p)
    requires StepEffect(At(s, p, pc, y), p) == (s.ptrs[p].(pc := pc'), y')
    ensures Next(At(s, p, pc, y), At(s, p, pc', y'))
  {
    assert Enabled(At(s, p, pc, y), Step(p)) && Apply(At(s, p, pc, y), Step(p)) == At(s, p, pc', y');
  }

  /** The operation on `p` goes from one program counter and helper to the next. */
  ghost predicate Goes(s: State, p: PtrId, from: (Pc, Helper), to: (Pc, Helper))
    requires p in s.ptrs
  {
    Next(At(s, p, from.0, from.1), At(s, p, to.0, to.1))
  }

  function Track(s: State, p: PtrId, l: seq<(Pc, Helper)>): (path: seq<State>)
    requires p in s.ptrs
    ensures |path| == |l| && forall k :: 0 <= k < |l| ==> path[k] == At(s, p, l[k].0, l[k].1)
  {
    seq(|l|, k requires 0 <= k < |l| => At(s, p, l[k].0, l[k].1))
  }

  lemma TrackPath(s: State, p: PtrId, l: seq<(Pc, Helper)>)
    requires p in s.ptrs && l != [] && forall k :: 0 < k < |l| ==> Goes(s, p, l[k - 1], l[k])
    requires forall k :: 0 <= k < |l| - 1 ==> !l[k].0.Live? && !l[k].0.Null?
    ensures IsPath(Track(s, p, l)) && forall k :: 0 <= k < |l| - 1 ==> !Resting(Track(s, p, l)[k], p)
  {
    hide Next;
    var path := Track(s, p, l);
    forall i | 0 < i < |path| ensures Next(path[i - 1], path[i]) {
      assert Goes(s, p, l[i - 1], l[i]);
    }
  }

  lemma SoleDeletes(s: State, p: PtrId, y: Helper)
    requires p in s.ptrs && s.ptrs[p].kind.Strong? && y.shared == 1
    ensures var n, zero := Itself(p), y.(shared := 0);
            && Goes(s, p, (DecRead(n), y), (DecCas(1, n), y)) && Goes(s, p, (DecCas(1, n), y), (DeleteObj(n), zero))
            && Goes(s, p, (DeleteObj(n), zero), (TokenRead(n), zero.(objDeletes := y.objDeletes + 1)))
  {
    hide Next;
    var n, zero := Itself(p), y.(shared := 0);
    AtStep(s, p, DecRead(n), y, DecCas(1, n), y);
    AtStep(s, p, DecCas(1, n), y, DeleteObj(n), zero);
    AtStep(s, p, DeleteObj(n), zero, TokenRead(n), zero.(objDeletes := y.objDeletes + 1));
  }

  lemma SoleDropsToken(s: State, p: PtrId, dead: Helper)
    requires p in s.ptrs && s.ptrs[p].kind.Strong? && 0 < dead.weak < 0x7fff_ffff
    ensures var n, less := Itself(p), dead.(weak := dead.weak - 1);
            && Goes(s, p, (TokenRead(n), dead), (TokenCas(dead.weak, n), dead))
            && if dead.weak == 1 then
                 && Goes(s, p, (TokenCas(dead.weak, n), dead), (DeleteHelper(n), less))
                 && Goes(s, p, (DeleteHelper(n), less), (IncRead(p), less.(helperDeletes := dead.helperDeletes + 1)))
               else Goes(s, p, (TokenCas(dead.weak, n), dead), (IncRead(p), less))
  {
    hide Next;
    var n, less := Itself(p), dead.(weak := dead.weak - 1);
    AtStep(s, p, TokenRead(n), dead, TokenCas(dead.weak, n), dead);
    if dead.weak == 1 {
      AtStep(s, p, TokenCas(dead.weak, n), dead, DeleteHelper(n), less);
      AtStep(s, p, DeleteHelper(n), less, IncRead(p), less.(helperDeletes := dead.helperDeletes + 1));
    } else {
      AtStep(s, p, TokenCas(dead.weak, n), dead, IncRead(p), less);
    }
  }

  lemma SoleRevives(s: State, p: PtrId, y: Helper)
    requires p in s.ptrs && s.ptrs[p].kind.Strong? && y.shared == 0
    ensures Goes(s, p, (IncRead(p), y), (IncCas(p, 0), y)) && Goes(s, p, (IncCas(p, 0), y), (Live, y.(shared := 1)))
  {
    hide Next;
    AtStep(s, p, IncRead(p), y, IncCas(p, 0), y);
    AtStep(s, p, IncCas(p, 0), y, Live, y.(shared := 1));
  }

  /** A sole owner deletes the object, drops the token and then copies itself: the count of a deleted object revives. */
  lemma SoleSpoils(s: State, p: PtrId, y: Helper) returns (path: seq<State>)
    requires p in s.ptrs && s.ptrs[p].kind.Strong?
    requires y.shared == 1 && 0 < y.weak < 0x7fff_ffff
    ensures IsPath(path) && path[0] == At(s, p, DecRead(Itself(p)), y)
    ensures forall k :: 0 <= k < |path| - 1 ==> !Resting(path[k], p)
    ensures exists last: Helper :: Last(path) == At(s, p, Live, last) && last.objDeletes == y.objDeletes + 1
  {
    hide Goes, At, IsPath, Resting;
    var n, zero := Itself(p), y.(shared := 0);
    var dead := zero.(objDeletes := y.objDeletes + 1);
    var less := dead.(weak := y.weak - 1);
    var last := if y.weak == 1 then less.(helperDeletes := y.helperDeletes + 1) else less;
    SoleDeletes(s, p, y);
    SoleDropsToken(s, p, dead);
    SoleRevives(s, p, last);
    var a := [(DecRead(n), y), (DecCas(1, n), y), (DeleteObj(n), zero), (TokenRead(n), dead), (TokenCas(y.weak, n), dead)];
    var b := [(IncRead(p), last), (IncCas(p, 0), last), (Live, last.(shared := 1))];
    var l := if y.weak == 1 then a + [(DeleteHelper(n), less)] + b else a + b;
    TrackPath(s, p, l);
    path := Track(s, p, l);
  }

  /** A sole owner that is weak deletes the helper and then copies itself. */
  lemma WeakSpoils(s: State, p: PtrId, y: Helper) returns (path: seq<State>)
    requires p in s.ptrs && s.ptrs[p].kind.Weak? && y.weak == 1
    ensures IsPath(path) && path[0] == At(s, p, DecRead(Itself(p)), y)
    ensures forall k :: 0 <= k < |path| - 1 ==> !Resting(path[k], p)
    ensures exists last: Helper :: Last(path) == At(s, p, Live, last) && last.helperDeletes == y.helperDeletes + 1
  {
    hide At, IsPath, Resting;
    var n, zero := Itself(p), y.(weak := 0);
    var last := zero.(helperDeletes := y.helperDeletes + 1);
    WeakDeletes(s, p, y);
    var l := [(DecRead(n), y), (DecCas(1, n), y), (DeleteHelper(n), zero), (IncRead(p), last), (IncCas(p, 0), last),
              (Live, last.(weak := 1))];
    TrackPath(s, p, l);
    path := Track(s, p, l);
  }

  lemma WeakDeletes(s: State, p: PtrId, y: Helper)
    requires p in s.ptrs && s.ptrs[p].kind.Weak? && y.weak == 1
    ensures var n, zero := Itself(p), y.(weak := 0);
            var last := zero.(helperDeletes := y.helperDeletes + 1);
            && Goes(s, p, (DecRead(n), y), (DecCas(1, n), y)) && Goes(s, p, (DecCas(1, n), y), (DeleteHelper(n), zero))
            && Goes(s, p, (DeleteHelper(n), zero), (IncRead(p), last))
            && Goes(s, p, (IncRead(p), last), (IncCas(p, 0), last))
            && Goes(s, p, (IncCas(p, 0), last), (Live, last.(weak := 1)))
  {
    hide Next;
    var n, zero := Itself(p), y.(weak := 0);
    var last := zero.(helperDeletes := y.helperDeletes + 1);
    AtStep(s, p, DecRead(n), y, DecCas(1, n), y);
    AtStep(s, p, DecCas(1, n), y, DeleteHelper(n), zero);
    AtStep(s, p, DeleteHelper(n), zero, IncRead(p), last);
    AtStep(s, p, IncRead(p), last, IncCas(p, 0), last);
    AtStep(s, p, IncCas(p, 0), last, Live, last.(weak := 1));
  }

  /** What a pointer of kind `k` needs is deleted: the object for a strong one, the helper for a weak one. */
  predicate Lost(k: Kind, y: Helper) {
    if k.Strong? then y.objDeletes > 0 else y.helperDeletes > 0
  }

  /** From `s` on, the assignment of `p` to itself ends with a pointer in use that has lost what it needs. */
  ghost predicate Spoils(path: seq<State>, s: State, p: PtrId, k: Kind, h: HelperId) {
    && IsPath(path) && path[0] == s && (forall i :: 0 <= i < |path| - 1 ==> !Resting(path[i], p))
    && p in Last(path).ptrs && Last(path).ptrs[p] == Ptr(k, h, Live)
    && h in Last(path).helpers && Lost(k, Last(path).helpers[h])
  }

  /** All other threads can leave `p` as the only owner while it releases. */
  lemma LeaveAlone(s: State, p: PtrId) returns (path: seq<State>)
    requires Inv(s) && Enabled(s, Release(p)) && s.ptrs[p].pc.Live?
    ensures PathBeside(path, p) && path[0] == Apply(s, Release(p)) && Inv(path[0]) && Inv(Last(path))
    ensures p in Last(path).ptrs && Last(path).ptrs[p] == s.ptrs[p].(pc := DecRead(End))
    ensures Others(Last(path), p, s.ptrs[p].helper) == {} && Busy(Last(path), p) == {}
  {
    hide Inv, PathBeside, Others, Busy;
    var t := Apply(s, Release(p));
    ApplyKeepsInv(s, Release(p));
    var a := FinishOthers(t, p);
    var b := ReleaseOthers(Last(a), p, s.ptrs[p].helper);
    JoinBeside(a, b, p);
    path := a + b[1..];
  }

  lemma SoleOwner(s: State, p: PtrId, h: HelperId)
    requires Inv(s) && p in s.ptrs && s.ptrs[p] == Ptr(s.ptrs[p].kind, h, DecRead(End))
    requires Others(s, p, h) == {} && Busy(s, p) == {}
    ensures h in s.helpers && s.helpers[h].weak == 1 && s.helpers[h].shared == if s.ptrs[p].kind.Strong? then 1 else 0
  {
    assert PtrOk(s, p) && Counting(s, h);
    var k := s.ptrs[p].kind;
    forall c: Share ensures Num(s, h, c) == if Owns(s.ptrs[p], h, c) then 1 else 0 {
      OnlyOwner(s, p, h, c);
    }
    assert Num(s, h, SharedCount) == (if k.Strong? then 1 else 0) && Num(s, h, WeakCount) == (if k.Strong? then 0 else 1);
    assert Num(s, h, ObjOwner) == 0 == Num(s, h, Token);
  }

  lemma OnlyOwner(s: State, p: PtrId, h: HelperId, c: Share)
    requires p in s.ptrs && Others(s, p, h) == {} && Busy(s, p) == {}
    ensures Num(s, h, c) == if Owns(s.ptrs[p], h, c) then 1 else 0
  {
    forall r | r in Owners(s, h, c) ensures r == p {
      assert r !in Others(s, p, h) && r !in Busy(s, p);
    }
    assert Owners(s, h, c) == if Owns(s.ptrs[p], h, c) then {p} else {};
  }

  lemma UnheldSpoils(s: State, p: PtrId) returns (path: seq<State>)
    requires Inv(s) && Enabled(s, Release(p)) && s.ptrs[p].pc.Live?
    ensures Spoils(path, StartSelfAssign(s, p, p), p, s.ptrs[p].kind, s.ptrs[p].helper)
  {
    hide Inv, Next, PathBeside, Busy, Others;
    var h := s.ptrs[p].helper;
    var beside := LeaveAlone(s, p);
    var t := Last(beside);
    SoleOwner(t, p, h);
    var lifted := LiftPath(beside, p);
    assert lifted[0] == StartSelfAssign(s, p, p);
    var alone := AloneSpoils(t, p);
    assert Last(lifted) == alone[0];
    Join(lifted, alone);
    path := lifted + alone[1..];
    forall k | 0 <= k < |path| - 1 ensures !Resting(path[k], p) {
      assert path[k] == if k < |lifted| then lifted[k] else alone[k - |lifted| + 1];
    }
  }

  lemma AloneSpoils(t: State, p: PtrId) returns (path: seq<State>)
    requires p in t.ptrs && t.ptrs[p].helper in t.helpers && t.helpers[t.ptrs[p].helper].weak == 1
    requires t.helpers[t.ptrs[p].helper].shared == if t.ptrs[p].kind.Strong? then 1 else 0
    ensures Spoils(path, StartSelfAssign(t, p, p), p, t.ptrs[p].kind, t.ptrs[p].helper)
  {
    hide IsPath;
    var y := t.helpers[t.ptrs[p].helper];
    if t.ptrs[p].kind.Strong? {
      path := SoleSpoils(t, p, y);
    } else {
      path := WeakSpoils(t, p, y);
    }
    assert At(t, p, DecRead(Itself(p)), y) == StartSelfAssign(t, p, p);
  }

  /**
   * `p = p` on a strong or a weak pointer, begun in any state of any run with `q` held (`q == p`: nothing is
   * held): some continuation ends with `p` in use and its object, or for a weak one its helper, deleted if and
   * only if nothing is held.
   */
  lemma SelfAssignment(run: seq<State>, i: nat, p: PtrId, q: PtrId)
    requires IsRun(run) && i < |run| && p in run[i].ptrs && run[i].ptrs[p].pc.Live?
    requires !Pinned(run[i], p) && (q == p || Holds(run[i], p, q))
    ensures var x := run[i].ptrs[p];
            (exists path :: Spoils(path, StartSelfAssign(run[i], p, q), p, x.kind, x.helper)) <==> q == p
  {
    var s, k, h := run[i], run[i].ptrs[p].kind, run[i].ptrs[p].helper;
    RunInv(run, i);
    if q == p {
      var path := UnheldSpoils(s, p);
    } else {
      SelfAssignStarts(s, p, q);
      ApplyKeepsInv(s, SelfAssign(p, q));
      forall path | Spoils(path, StartSelfAssign(s, p, q), p, k, h) ensures false {
        HeldPath(path, p, k, h);
        SelfAssignState(Last(path), p, k, h);
      }
    }
  }

  /** Two owners, one of them released while the other is assigned to itself: the object is gone. */
  lemma TwoOwnersAreNotEnough() returns (run: seq<State>, path: seq<State>)
    ensures IsRun(run) && var s := Last(run);
            && 0 in s.ptrs && s.ptrs[0] == Ptr(Strong, 0, Live) && 1 in s.ptrs && s.ptrs[1] == Ptr(Strong, 0, Live)
            && 0 in s.helpers && s.helpers[0].shared == 2 && Spoils(path, StartSelfAssign(s, 0, 0), 0, Strong, 0)
  {
    hide Inv, Spoils;
    var s0 := State(map[], map[]);
    var s1 := Apply(s0, New(0, 0));
    var s2 := Apply(s1, Copy(1, Strong, 0));
    var s3 := Apply(s2, Step(1));
    var s4 := Apply(s3, Step(1));
    run := [s0, s1, s2, s3, s4];
    assert Next(s0, s1) && Next(s1, s2) && Next(s2, s3) && Next(s3, s4);
    RunInv(run, 4);
    path := UnheldSpoils(s4, 0);
  }
}
