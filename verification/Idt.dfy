/**
 * Interrupt vector allocation (source/kernel/idt.cc): both overloads of `SetIntCallback` on the callback
 * tables of the CPUs.
 */
module Idt {
  import opened Lists
  import opened Words

  const FIRST: nat := 64
  const VECTORS: nat := 256
  const ERROR: nat := 63

  /** A slot of a callback table; callback 0 is the null pointer. */
  datatype Slot = Slot(callback: nat, arg: nat, eoi: nat)

  // ---------------------------------------------------------------------------------------------
  // Powers of two
  // ---------------------------------------------------------------------------------------------

  predicate PowerOfTwo(n: int)
    ensures PowerOfTwo(n) ==> n > 0
  {
    n == 1 || (n > 1 && n % 2 == 0 && PowerOfTwo(n / 2))
  }

  lemma {:induction false} Gap(p: nat, q: nat)
    requires PowerOfTwo(p) && PowerOfTwo(q) && p < q
    ensures 2 * p <= q
  {
    if p > 1 {
      Gap(p / 2, q / 2);
    }
  }

  lemma SmallPowers(p: nat)
    requires PowerOfTwo(p) && p <= 256
    ensures p in {1, 2, 4, 8, 16, 32, 64, 128, 256}
  {
  }

  /** Doubling an `int` of 32 bits; what overflows is lost. */
  function Double(p: int32): int32 {
    var d := 2 * p;
    if d >= 0x8000_0000 then d - 0x1_0000_0000 else if d < -0x8000_0000 then d + 0x1_0000_0000 else d
  }

  function Doubled(n: nat): int32 {
    if n == 0 then 1 else Double(Doubled(n - 1))
  }

  /** The powers of two that fit, then the smallest number, then zero. */
  predicate IsDoubled(p: int32) {
    p == -0x8000_0000 || p == 0 || (PowerOfTwo(p) && p <= 0x4000_0000)
  }

  lemma DoubleAgain(p: int32)
    requires IsDoubled(p)
    ensures IsDoubled(Double(p))
  {
    if 0 < p < 0x4000_0000 {
      PowerThirty();
      Gap(p, 0x4000_0000);
      TwicePower(p);
    }
  }

  lemma TwicePower(p: nat)
    requires PowerOfTwo(p)
    ensures PowerOfTwo(2 * p)
  {
  }

  lemma {:induction false} DoubledIs(n: nat)
    ensures IsDoubled(Doubled(n))
  {
    hide IsDoubled, Double;
    if n == 0 {
      FirstDoubled();
    } else {
      DoubledIs(n - 1);
      DoubleAgain(Doubled(n - 1));
    }
  }

  /**
   * The doubling loop. It ends if and only if `range` is at most 2^30, and then finds `range` again exactly
   * when that is a power of two. `None` stands for a loop that does not end.
   */
  method RoundToPower(range: int32) returns (r: Option<int32>)
    ensures r.None? <==> forall n: nat :: Doubled(n) < range
    ensures r.None? <==> range > 0x4000_0000
    ensures r.Some? ==> (r.value == range <==> PowerOfTwo(range))
  {
    hide PowerOfTwo, Doubled, Double;
    var p: int32 := 1;
    ghost var n: nat := 0;
    FirstDoubled();
    while p < range
      invariant p == Doubled(n) && forall k: nat :: k <= n && Doubled(k) >= range ==> k == n
      invariant IsDoubled(p)
      invariant p > 1 ==> p / 2 < range
      invariant p <= 0 ==> range > 0x4000_0000
      decreases if p > 0 then 0x8000_0000 - p else 0, if p == 0 then 0 else 1
    {
      if p == 0 {
        ForEver(n, range);
        return None;
      }
      DoubleStep(p, n, range);
      p := Double(p);
      n := n + 1;
      DoubledIs(n);
    }
    SmallRange(p, range);
    assert Doubled(n) >= range;
    return Some(p);
  }

  lemma FirstDoubled()
    ensures Doubled(0) == 1 && PowerOfTwo(1) && IsDoubled(1)
  {
  }

  lemma DoubleStep(p: int32, n: nat, range: int32)
    requires p == Doubled(n) && p < range && p != 0 && IsDoubled(p)
    requires p <= 0 ==> range > 0x4000_0000
    ensures var d := Double(p);
            && d == Doubled(n + 1) && (d > 1 ==> d / 2 < range) && (d <= 0 ==> range > 0x4000_0000)
            && (p > 0 && d > 0 ==> d > p) && (p < 0 ==> d == 0)
  {
  }

  lemma ForEver(n: nat, range: int32)
    requires Doubled(n) == 0 && range > 0x4000_0000
    ensures forall k: nat :: Doubled(k) < range
  {
    forall k: nat ensures Doubled(k) < range {
      DoubledIs(k);
    }
  }

  lemma SmallRange(p: int32, range: int32)
    requires p >= range && IsDoubled(p)
    requires (p > 1 ==> p / 2 < range) && (p <= 0 ==> range > 0x4000_0000)
    ensures range <= 0x4000_0000 && (p == range <==> PowerOfTwo(range))
  {
    if PowerOfTwo(range) && p != range {
      Gap(range, p);
      assert false;
    }
  }

  lemma SomePowers()
    ensures PowerOfTwo(1) && PowerOfTwo(2) && PowerOfTwo(4) && PowerOfTwo(8) && PowerOfTwo(16) && PowerOfTwo(32)
    ensures PowerOfTwo(64) && PowerOfTwo(128) && PowerOfTwo(256)
  {
  }

  lemma Larger(n: nat)
    requires n == 64 || PowerOfTwo(n)
    ensures PowerOfTwo(8 * n) && PowerOfTwo(64 * n)
  {
    assert PowerOfTwo(n) by {
      SomePowers();
    }
    assert PowerOfTwo(2 * n) && PowerOfTwo(4 * n) && PowerOfTwo(8 * n);
    assert PowerOfTwo(16 * n) && PowerOfTwo(32 * n) && PowerOfTwo(64 * n);
  }

  lemma PowerThirty()
    ensures PowerOfTwo(0x4000_0000)
  {
    Larger(64);
    Larger(0x1000);
    Larger(0x4_0000);
    Larger(0x100_0000);
  }

  lemma AtLeast(d: int, p: nat)
    requires d >= 1
    ensures d * p >= p
  {
  }

  /** Numbers with the same remainder that are less than `p` apart are the same. */
  lemma SameMultiple(q: int, r: int, q': int, r': int, p: nat)
    requires 0 <= r < p && 0 <= r' < p && q * p + r == q' * p + r'
    ensures r == r'
  {
    assert (q - q') * p == r' - r && (q' - q) * p == r - r';
    if q > q' {
      AtLeast(q - q', p);
    } else if q < q' {
      AtLeast(q' - q, p);
    }
  }

  lemma Remainder(q: int, r: int, p: nat)
    requires 0 <= r < p
    ensures (q * p + r) % p == r
  {
    var v := q * p + r;
    SameMultiple(v / p, v % p, q, r, p);
  }

  /** The step of a search by `p`, and where a multiple of `p` stands to the next one. */
  lemma NextMultiple(v: nat, p: nat)
    requires p > 0 && v % p == 0
    ensures (v + p) % p == 0
    ensures forall w :: v <= w < v + p && w % p == 0 ==> w == v
  {
    var q := v / p;
    assert v == q * p && v + p == (q + 1) * p + 0;
    Remainder(q + 1, 0, p);
    forall w | v <= w < v + p && w % p == 0 ensures w == v {
      assert w == q * p + (w - v);
      Remainder(q, w - v, p);
    }
  }

  lemma PowersDivide(p: nat)
    requires PowerOfTwo(p) && p <= 256
    ensures 256 % p == 0 && (p <= 64 ==> 64 % p == 0)
  {
    SmallPowers(p);
    assert 256 % 1 == 0 && 256 % 2 == 0 && 256 % 4 == 0 && 256 % 8 == 0 && 256 % 16 == 0 && 256 % 32 == 0;
    assert 256 % 64 == 0 && 256 % 128 == 0 && 256 % 256 == 0;
    assert 64 % 1 == 0 && 64 % 2 == 0 && 64 % 4 == 0 && 64 % 8 == 0 && 64 % 16 == 0 && 64 % 32 == 0 && 64 % 64 == 0;
  }

  // ---------------------------------------------------------------------------------------------
  // The tables
  // ---------------------------------------------------------------------------------------------

  /** `n` slots of a table from `v` on are free. */
  ghost predicate Free(t: seq<Slot>, v: nat, n: nat) {
    v + n <= |t| && forall i :: v <= i < v + n ==> t[i].callback == 0
  }

  /** Where an aligned block of `n` vectors may lie. */
  ghost predicate Block(v: nat, n: nat) {
    n > 0 && v % n == 0 && FIRST <= v && v + n <= VECTORS
  }

  /** A registration that succeeded. */
  datatype Registration = Registration(cpu: nat, start: nat, range: nat)

  ghost predicate Apart(r: Registration, q: Registration) {
    r.cpu == q.cpu ==> r.start + r.range <= q.start || q.start + q.range <= r.start
  }

  /** The scan of one block. */
  method IsFree(t: array<Slot>, v: nat, range: nat) returns (free: bool)
    requires t.Length == VECTORS && v + range <= VECTORS
    ensures free == Free(t[..], v, range)
  {
    var i := 0;
    while i < range
      invariant i <= range && forall k :: v <= k < v + i ==> t[k].callback == 0
    {
      if t[v + i].callback != 0 {
        assert t[..][v + i].callback != 0;
        return false;
      }
      i := i + 1;
    }
    return true;
  }

  /** The search for an aligned free block, the first one from below. */
  method FindBlock(t: array<Slot>, range: nat) returns (vector: nat)
    requires t.Length == VECTORS && PowerOfTwo(range)
    ensures vector < VECTORS ==> Block(vector, range) && Free(t[..], vector, range)
    ensures forall v: nat :: Block(v, range) && v < vector ==> !Free(t[..], v, range)
    ensures vector >= VECTORS ==> forall v: nat :: Block(v, range) ==> !Free(t[..], v, range)
  {
    hide PowerOfTwo, Free;
    vector := if range > 64 then range else 64;
    Start(range, vector);
    while vector < VECTORS
      invariant vector >= FIRST && vector % range == 0
      invariant forall v: nat :: Block(v, range) && v < vector ==> !Free(t[..], v, range)
    {
      PowersDivide(range);
      NextMultiple(vector, range);
      assert vector + range <= VECTORS;
      var free := IsFree(t, vector, range);
      if free {
        return;
      }
      vector := vector + range;
    }
  }

  lemma Start(range: nat, vector: nat)
    requires PowerOfTwo(range) && vector == if range > 64 then range else 64
    ensures vector % range == 0 && forall v: nat :: Block(v, range) ==> v >= vector
  {
    if range <= 64 {
      PowersDivide(range);
    } else {
      Remainder(1, 0, range);
      Remainder(0, 0, range);
      NextMultiple(0, range);
    }
  }

  /** Writes the callbacks of a block. */
  method FillBlock(t: array<Slot>, v: nat, callback: seq<nat>, arg: seq<nat>, eoi: nat)
    requires t.Length == VECTORS && v + |callback| <= VECTORS && |arg| == |callback|
    modifies t
    ensures forall k :: 0 <= k < 256 ==>
      t[k] == if v <= k < v + |callback| then Slot(callback[k - v], arg[k - v], eoi) else old(t[k])
  {
    var i := 0;
    while i < |callback|
      invariant i <= |callback|
      invariant forall k :: 0 <= k < VECTORS ==>
        t[k] == if v <= k < v + i then Slot(callback[k - v], arg[k - v], eoi) else old(t[k])
    {
      t[v + i] := Slot(callback[i], arg[i], eoi);
      i := i + 1;
    }
  }

  class Table {
    const callback: seq<array<Slot>>        // one table for every CPU
    ghost var regs: seq<Registration>       // the registrations that succeeded

    ghost predicate Shape()
    {
      && (forall c :: 0 <= c < |callback| ==> callback[c].Length == VECTORS)
      && forall c, d :: 0 <= c < d < |callback| ==> callback[c] != callback[d]
    }

    /** Every registration holds its vectors, and no two on one CPU share any. */
    ghost predicate Valid()
      reads this, callback
    {
      && Shape()
      && (forall k :: 0 <= k < |regs| ==> Holds(regs[k]))
      && forall k, n :: 0 <= k < n < |regs| ==> Apart(regs[k], regs[n])
    }

    ghost predicate Holds(r: Registration)
      requires Shape()
      reads callback
    {
      && r.cpu < |callback| && FIRST <= r.start && r.range > 0 && r.start + r.range <= VECTORS
      && forall v :: r.start <= v < r.start + r.range ==> callback[r.cpu][v].callback != 0
    }

    constructor (cpus: nat)
      ensures Valid() && |callback| == cpus && regs == [] && fresh(callback)
      ensures forall c, v :: 0 <= c < cpus && 0 <= v < VECTORS ==> callback[c][v].callback == 0
    {
      var tables: seq<array<Slot>> := [];
      while |tables| < cpus
        invariant |tables| <= cpus && fresh(tables)
        invariant forall c :: 0 <= c < |tables| ==> tables[c].Length == VECTORS
        invariant forall c, d :: 0 <= c < d < |tables| ==> tables[c] != tables[d]
        invariant forall c, v :: 0 <= c < |tables| && 0 <= v < VECTORS ==> tables[c][v].callback == 0
      {
        var t := new Slot[VECTORS](_ => Slot(0, 0, 0));
        tables := tables + [t];
      }
      callback, regs := tables, [];
    }

    /** A free block is apart from every registration. */
    lemma FreeIsApart(r: Registration, cpu: nat, v: nat, range: nat)
      requires Shape() && Holds(r) && cpu < |callback| && range > 0 && Free(callback[cpu][..], v, range)
      ensures Apart(r, Registration(cpu, v, range))
    {
      var x := if v < r.start then r.start else v;
      assert v <= x < v + range ==> callback[cpu][..][x].callback == 0;
      assert r.start <= x < r.start + r.range ==> callback[r.cpu][x].callback != 0;
    }

    /** Writes a block that was free. It counts as registered if every callback is there; a null one takes no slot. */
    method Register(cpu: nat, v: nat, cb: seq<nat>, arg: seq<nat>, eoi: nat)
      requires Valid() && cpu < |callback| && |arg| == |cb| > 0 && FIRST <= v
      requires v + |cb| <= VECTORS && Free(callback[cpu][..], v, |cb|)
      modifies this, callback[cpu]
      ensures Valid() && regs == old(regs) + if 0 in cb then [] else [Registration(cpu, v, |cb|)]
      ensures forall k :: 0 <= k < 256 ==>
        callback[cpu][k] == if v <= k < v + |cb| then Slot(cb[k - v], arg[k - v], eoi) else old(callback[cpu][k])
    {
      ghost var r := Registration(cpu, v, |cb|);
      forall k | 0 <= k < |regs| ensures Apart(regs[k], r) {
        FreeIsApart(regs[k], cpu, v, |cb|);
      }
      FillBlock(callback[cpu], v, cb, arg, eoi);
      forall k | 0 <= k < |regs| ensures Holds(regs[k]) {
        assert old(Holds(regs[k]));
      }
      if 0 !in cb {
        assert Holds(r);
        regs := regs + [r];
      }
    }

    /** The single-vector overload: the lowest free vector. */
    method SetIntCallback(cpu: nat, cb: nat, arg: nat, eoi: nat) returns (vector: nat)
      requires Valid() && cpu < |callback|
      modifies this, callback[cpu]
      ensures Valid()
      ensures forall k, n :: 0 <= k < n < |regs| ==> Apart(regs[k], regs[n])
      ensures vector == 63 <==> forall v :: 64 <= v < 256 ==> old(callback[cpu][v].callback) != 0
      ensures vector == ERROR ==> regs == old(regs) && callback[cpu][..] == old(callback[cpu][..])
      ensures vector != ERROR ==> 64 <= vector < 256
      ensures forall v :: 64 <= v < vector ==> old(callback[cpu][v].callback) != 0
      ensures vector != ERROR ==> regs == old(regs) + if cb == 0 then [] else [Registration(cpu, vector, 1)]
      ensures vector != ERROR ==> old(callback[cpu][vector].callback) == 0
      ensures vector != ERROR ==> callback[cpu][..] == old(callback[cpu][..])[vector := Slot(cb, arg, eoi)]
    {
      vector := FIRST;
      while vector < VECTORS
        invariant FIRST <= vector <= VECTORS && unchanged(this) && unchanged(callback[cpu])
        invariant forall v :: FIRST <= v < vector ==> callback[cpu][v].callback != 0
      {
        if callback[cpu][vector].callback == 0 {
          Register(cpu, vector, [cb], [arg], eoi);
          return;
        }
        vector := vector + 1;
      }
      return ERROR;
    }

    /**
     * The range overload: the lowest aligned block, or an error exactly when there is none or the range is no power of
     * two. `None` stands for a call that does not return.
     */
    method SetIntCallbacks(cpu: nat, cb: seq<nat>, arg: seq<nat>, range: int32, eoi: nat) returns (r: Option<nat>)
      requires Valid() && cpu < |callback| && (range > 0 ==> |cb| == |arg| == range)
      modifies this, callback[cpu]
      ensures Valid()
      ensures forall k, n :: 0 <= k < n < |regs| ==> Apart(regs[k], regs[n])
      ensures r.None? <==> range > 0x4000_0000
      ensures r == Some(63) <==>
                range <= 0x4000_0000 &&
                (!PowerOfTwo(range) || forall v: nat :: Block(v, range) ==> !Free(old(callback[cpu][..]), v, range))
      ensures r.None? || r.value == ERROR ==> regs == old(regs) && callback[cpu][..] == old(callback[cpu][..])
      ensures r.Some? && r.value != ERROR ==>
        && Block(r.value, range) && Free(old(callback[cpu][..]), r.value, range)
        && regs == old(regs) + (if 0 in cb then [] else [Registration(cpu, r.value, range)])
        && r.value % range == 0 && 64 <= r.value && r.value + range <= 256
        && (forall v: nat :: Block(v, range) && v < r.value ==> !Free(old(callback[cpu][..]), v, range))
        && forall k :: 0 <= k < 256 ==>
             callback[cpu][k] == if r.value <= k < r.value + range then Slot(cb[k - r.value], arg[k - r.value], eoi)
                                 else old(callback[cpu][k])
    {
      hide PowerOfTwo, Free;
      var p := RoundToPower(range);
      if p.None? {
        return None;
      }
      if range != p.value {
        return Some(ERROR);
      }
      var vector := FindBlock(callback[cpu], range);
      if vector < VECTORS {
        Register(cpu, vector, cb, arg, eoi);
      } else {
        vector := ERROR;
      }
      return Some(vector);
    }
  }
}
