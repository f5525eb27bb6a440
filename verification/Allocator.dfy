/**
 * The slab allocator (source/kernel/allocator.h): containers of 64 slots in a singly linked list, those
 * with a free slot before the full ones. Operations run one at a time.
 */
module Allocator {
  import opened Lists

  const SLOTS: nat := 64

  /** A container; bit `i` of `flag` says that slot `i` is in use. */
  class Container {
    var next: Container?
    var flag: seq<bool>

    constructor ()
      ensures next == null && flag == seq(64, _ => false)
    {
      next, flag := null, seq(SLOTS, _ => false);
    }
  }

  /** The address of a slot. */
  datatype Entry = Entry(c: Container, i: nat)

  datatype Outcome = Freed | NotFound | Undefined

  predicate Full(flag: seq<bool>) {
    false !in flag
  }

  function After(l: seq<Container>, i: nat): Container? {
    if i + 1 < |l| then l[i + 1] else null
  }

  ghost predicate Linked(l: seq<Container>)
    reads (set c | c in l)`next
  {
    forall i :: 0 <= i < |l| ==> l[i].next == After(l, i)
  }

  /** No container with a free slot comes after a full one. */
  ghost predicate FreeFirst(l: seq<Container>)
    reads (set c | c in l)`flag
  {
    && (forall c :: c in l ==> |c.flag| == SLOTS)
    && forall i, j :: 0 <= i < j < |l| && Full(l[i].flag) ==> Full(l[j].flag)
  }

  /** The slots in use. */
  ghost function InUse(l: seq<Container>): set<Entry>
    reads (set c | c in l)`flag
  {
    set c, i | c in l && 0 <= i < |c.flag| && c.flag[i] :: Entry(c, i)
  }

  lemma NextOf(l: seq<Container>, k: nat)
    requires Linked(l) && k < |l|
    ensures l[k].next == After(l, k)
  {
  }

  /** The list `l` with its head moved behind position `k`. */
  ghost function HeadBehind(l: seq<Container>, k: nat): (r: seq<Container>)
    requires 0 < k < |l|
    ensures |r| == |l|
    ensures forall i :: 0 <= i < |r| ==> r[i] == if i < k then l[i + 1] else if i == k then l[0] else l[i]
  {
    l[1..k + 1] + [l[0]] + l[k + 1..]
  }

  /** The list `l` with the element at position `k` moved to the front. */
  ghost function ToFront(l: seq<Container>, k: nat): (r: seq<Container>)
    requires 0 < k < |l|
    ensures |r| == |l|
    ensures forall i :: 0 <= i < |r| ==> r[i] == if i == 0 then l[k] else if i <= k then l[i - 1] else l[i]
  {
    [l[k]] + l[..k] + l[k + 1..]
  }

  lemma BehindIsPermutation(l: seq<Container>, k: nat)
    requires Distinct(l) && 0 < k < |l|
    ensures Distinct(HeadBehind(l, k)) && multiset(HeadBehind(l, k)) == multiset(l)
  {
    assert Distinct(HeadBehind(l, k));
    hide Distinct;
    var h, a, b := [l[0]], l[1..k + 1], l[k + 1..];
    assert l == h + a + b && HeadBehind(l, k) == a + h + b;
    Commute(h, a, b);
  }

  lemma Commute(h: seq<Container>, a: seq<Container>, b: seq<Container>)
    ensures multiset(a + h + b) == multiset(h + a + b)
  {
  }

  lemma FrontIsPermutation(l: seq<Container>, k: nat)
    requires Distinct(l) && 0 < k < |l|
    ensures Distinct(ToFront(l, k)) && multiset(ToFront(l, k)) == multiset(l)
  {
    var h, a, b := [l[k]], l[..k], l[k + 1..];
    assert l == a + h + b && ToFront(l, k) == h + a + b;
    Commute(h, a, b);
  }

  method MoveHeadBehind(tmp: Container, cur: Container, ghost l: seq<Container>, ghost k: nat, ghost r: seq<Container>)
    requires Linked(l) && Distinct(l) && 0 < k < |l| && tmp == l[0] && cur == l[k]
    requires r == l[1..k + 1] + [l[0]] + l[k + 1..]
    modifies tmp`next, cur`next
    ensures Linked(r)
  {
    assert r == HeadBehind(l, k);
    assert forall i :: 0 <= i < |l| ==> l[i].next == After(l, i);
    tmp.next := cur.next;
    cur.next := tmp;
    forall i | 0 <= i < |r| ensures r[i].next == After(r, i) {
      ghost var j := if i < k then i + 1 else if i == k then 0 else i;
      assert r[i] == l[j] && old(l[j].next) == After(l, j);
      assert j != 0 && j != k ==> l[j] != tmp && l[j] != cur;
    }
  }

  method MoveToFront(before: Container, cur: Container, head: Container, ghost l: seq<Container>, ghost k: nat,
                     ghost r: seq<Container>)
    requires Linked(l) && Distinct(l) && 0 < k < |l| && before == l[k - 1] && cur == l[k] && head == l[0]
    requires r == [l[k]] + l[..k] + l[k + 1..]
    modifies before`next, cur`next
    ensures Linked(r)
  {
    assert r == ToFront(l, k);
    assert forall i :: 0 <= i < |l| ==> l[i].next == After(l, i);
    before.next := cur.next;
    cur.next := head;
    forall i | 0 <= i < |r| ensures r[i].next == After(r, i) {
      ghost var j := if i == 0 then k else if i <= k then i - 1 else i;
      assert r[i] == l[j] && old(l[j].next) == After(l, j);
      assert j != k - 1 && j != k ==> l[j] != before && l[j] != cur;
    }
  }

  /** The first free slot: the bit loop of `Alloc`. */
  method FreeSlot(flag: seq<bool>) returns (i: nat)
    requires |flag| == SLOTS
    ensures i <= SLOTS && (i < SLOTS ==> !flag[i]) && (i == SLOTS <==> Full(flag))
    ensures forall j :: 0 <= j < i ==> flag[j]
  {
    i := 0;
    while i < SLOTS
      invariant i <= SLOTS && forall j :: 0 <= j < i ==> flag[j]
    {
      if !flag[i] {
        break;
      }
      i := i + 1;
    }
  }

  /** With the head and the second container full, all are. */
  lemma RestFull(l: seq<Container>)
    requires |l| > 0 && FreeFirst(l[1..]) && Full(l[0].flag) && |l[0].flag| == SLOTS && (|l| > 1 ==> Full(l[1].flag))
    ensures AllFull(l)
  {
  }

  ghost predicate AllFull(l: seq<Container>)
    reads (set c | c in l)`flag
  {
    forall c :: c in l ==> |c.flag| == SLOTS && Full(c.flag)
  }

  /** An empty container put before a list of full ones. */
  lemma InFront(tmp: Container, l: seq<Container>)
    requires |l| > 0 && Distinct(l) && Linked(l) && AllFull(l) && tmp !in l
    requires tmp.flag == seq(SLOTS, _ => false) && tmp.next == l[0]
    ensures Distinct([tmp] + l) && Linked([tmp] + l) && FreeFirst([tmp] + l)
    ensures InUse([tmp] + l) == InUse(l) && !Full(tmp.flag)
  {
    var r := [tmp] + l;
    assert !tmp.flag[0];
    forall i | 0 <= i < |r| ensures r[i].next == After(r, i) {
      assert i > 0 ==> r[i] == l[i - 1] && l[i - 1].next == After(l, i - 1);
    }
    assert forall c :: c in r <==> c == tmp || c in l;
    assert forall e :: e in InUse(r) <==> e in InUse(l);
  }

  lemma FlagLength(l: seq<Container>, k: nat)
    requires FreeFirst(l) && k < |l|
    ensures |l[k].flag| == SLOTS
  {
  }

  /** A head with a free slot completes the order. */
  lemma OpenIsFree(l: seq<Container>)
    requires |l| > 0 && FreeFirst(l[1..]) && |l[0].flag| == SLOTS && !Full(l[0].flag)
    ensures FreeFirst(l)
  {
  }

  lemma SameInUse(l: seq<Container>, r: seq<Container>)
    requires multiset(l) == multiset(r)
    ensures InUse(l) == InUse(r)
  {
    assert forall c :: c in l <==> c in multiset(l);
    assert forall c :: c in r <==> c in multiset(r);
  }

  /** Behind the last container with a free slot, a full one is in order. */
  lemma SunkFirst(l: seq<Container>, k: nat)
    requires 0 < k < |l| && Full(l[0].flag) && |l[0].flag| == SLOTS && FreeFirst(l[1..])
    requires forall i :: 0 < i < |l| ==> (Full(l[i].flag) <==> i > k)
    ensures FreeFirst(HeadBehind(l, k)) && !Full(HeadBehind(l, k)[0].flag)
  {
  }

  lemma Sunk(l: seq<Container>, k: nat, r: seq<Container>)
    requires Distinct(l) && 0 < k < |l| && Full(l[0].flag) && |l[0].flag| == SLOTS && FreeFirst(l[1..])
    requires (forall i :: 0 < i < |l| ==> (Full(l[i].flag) <==> i > k)) && r == l[1..k + 1] + [l[0]] + l[k + 1..]
    ensures Distinct(r) && multiset(r) == multiset(l) && FreeFirst(r) && !Full(r[0].flag)
    ensures r[0] == l[1] && InUse(r) == InUse(l) && forall c :: c in r <==> c in l
  {
    BehindIsPermutation(l, k);
    SunkFirst(l, k);
    SameInUse(l, r);
    assert forall c :: (c in r <==> c in multiset(r)) && (c in l <==> c in multiset(l));
  }

  /** Behind the head, position `k` is the last one with a free slot. */
  ghost predicate LastOpen(l: seq<Container>, k: nat)
    reads (set c | c in l)`flag
    ensures LastOpen(l, k) ==> 0 < k < |l|
  {
    0 < k < |l| && forall i :: 0 < i < |l| ==> (Full(l[i].flag) <==> i > k)
  }

  /** The scan of `Alloc` for the last container with a free slot, from the second one on. */
  method LastFree(head: Container, ghost l: seq<Container>) returns (cur: Container, ghost k: nat)
    requires |l| > 1 && Linked(l) && FreeFirst(l[1..]) && !Full(l[1].flag) && head == l[0]
    ensures 0 < k < |l| && cur == l[k]
    ensures forall i :: 0 < i < |l| ==> (Full(l[i].flag) <==> i > k)
  {
    hide Linked, FreeFirst, Full;
    NextOf(l, 0);
    cur, k := head.next, 1;
    NextOf(l, 1);
    while cur.next != null && !Full(cur.next.flag)
      invariant 0 < k < |l| && cur == l[k] && cur.next == After(l, k)
      invariant forall i :: 0 < i <= k ==> !Full(l[i].flag)
      decreases |l| - k
    {
      cur := cur.next;
      k := k + 1;
      NextOf(l, k);
    }
    RestAreFull(l, k);
  }

  lemma RestAreFull(l: seq<Container>, k: nat)
    requires 0 < |l| && FreeFirst(l[1..]) && (k + 1 < |l| ==> Full(l[k + 1].flag))
    ensures forall i :: k < i < |l| ==> Full(l[i].flag)
  {
  }

  lemma Promoted(l: seq<Container>, k: nat, r: seq<Container>)
    requires Distinct(l) && 0 < k < |l| && FreeFirst(l) && r == [l[k]] + l[..k] + l[k + 1..]
    ensures Distinct(r) && multiset(r) == multiset(l) && FreeFirst(r[1..]) && InUse(r) == InUse(l) && r[0] == l[k]
  {
    hide Distinct, FreeFirst, InUse, Full;
    assert r == ToFront(l, k);
    FrontIsPermutation(l, k);
    SameInUse(l, r);
    assert r[1..] == l[..k] + l[k + 1..];
    OneLess(l, k, r[1..]);
  }

  lemma OneLess(l: seq<Container>, k: nat, t: seq<Container>)
    requires FreeFirst(l) && k < |l| && t == l[..k] + l[k + 1..]
    ensures FreeFirst(t)
  {
  }

  /** The mask of `Free` for slot `i`, where it is defined, clears slot `k` (`MaskClears`). */
  predicate Clears(i: nat, k: nat) {
    k == i || (i == 31 && k > 31)
  }

  /** The slots that a release of `e` takes out of use. */
  ghost function Released(e: Entry): set<Entry> {
    set k | 0 <= k < SLOTS && Clears(e.i, k) :: Entry(e.c, k)
  }

  lemma ReleasedExact(e: Entry)
    requires e.i < 32
    ensures Released(e) == {e} <==> e.i < 31
  {
    assert e in Released(e);
    if e.i == 31 {
      assert Entry(e.c, 32) in Released(e);
    }
  }

  /** Clears the bits of `cur`, which is the head of the list or was not full. */
  method ClearBit(cur: Container, i: nat, ghost l: seq<Container>)
    requires cur in l && |cur.flag| == SLOTS && i < 32 && Distinct(l)
    requires (FreeFirst(l) && !Full(cur.flag)) || (cur == l[0] && FreeFirst(l[1..]))
    modifies cur`flag
    ensures FreeFirst(l) && !Full(cur.flag) && InUse(l) == old(InUse(l)) - Released(Entry(cur, i))
  {
    assert forall j :: 0 <= j < |l[1..]| ==> l[1..][j] == l[j + 1] != l[0];
    ghost var was := cur.flag;
    var flag := cur.flag;
    cur.flag := seq(SLOTS, k requires 0 <= k < SLOTS => flag[k] && !Clears(i, k));
    assert !cur.flag[i];
    forall e ensures e in InUse(l) <==> e in old(InUse(l)) && e !in Released(Entry(cur, i)) {
      assert e.c == cur && e.i < SLOTS ==> cur.flag[e.i] == (was[e.i] && !Clears(i, e.i));
    }
    if old(Full(cur.flag)) || !old(FreeFirst(l)) {
      OpenIsFree(l);
    }
  }

  /** What the order says about the rest of the list does not depend on the head. */
  lemma HeadFree(l: seq<Container>)
    requires |l| > 0 && Distinct(l) && FreeFirst(l)
    ensures FreeFirst(l[1..]) && l[0] !in l[1..]
  {
  }

  method SetBit(c: Container, i: nat, ghost l: seq<Container>)
    requires c in l && i < |c.flag| && !c.flag[i]
    modifies c`flag
    ensures c.flag == old(c.flag)[i := true]
    ensures InUse(l) == old(InUse(l)) + {Entry(c, i)} && Entry(c, i) !in old(InUse(l))
  {
    c.flag := c.flag[i := true];
    assert forall e :: e in InUse(l) <==> e in old(InUse(l)) || e == Entry(c, i);
  }

  /** Moves the full head of the list `l` behind the last container with a free slot. */
  method SinkHead(head: Container, ghost l: seq<Container>) returns (first: Container, ghost r: seq<Container>)
    requires |l| > 1 && head == l[0] && Distinct(l) && Linked(l) && FreeFirst(l[1..]) && |head.flag| == SLOTS
    requires Full(head.flag) && !Full(l[1].flag)
    modifies (set c | c in l)`next
    ensures |r| > 0 && first == r[0] && Distinct(r) && Linked(r) && FreeFirst(r) && !Full(first.flag)
    ensures multiset(r) == multiset(l) && InUse(r) == old(InUse(l))
    ensures exists k :: old(LastOpen(l, k)) && r == l[1..k + 1] + [l[0]] + l[k + 1..]
  {
    hide Linked, FreeFirst, Distinct, InUse, Full;
    NextOf(l, 0);
    var cur, k := LastFree(head, l);
    assert LastOpen(l, k);
    r := l[1..k + 1] + [l[0]] + l[k + 1..];
    Sunk(l, k, r);
    first := head.next;
    MoveHeadBehind(head, cur, l, k, r);
  }

  class Slab {
    var list: Container
    ghost var l: seq<Container>

    ghost predicate Valid()
      reads this, l
    {
      && |l| > 0 && l[0] == list && Distinct(l) && Linked(l) && FreeFirst(l)
      && !Full(list.flag)
    }

    constructor ()
      ensures Valid() && InUse(l) == {} && fresh(l)
    {
      var c := new Container();
      list, l := c, [c];
      assert !c.flag[0];
    }

    /** The list while `Alloc` works on it: the head may have become full. */
    ghost predicate HeadOpen()
      reads this, l
    {
      && |l| > 0 && l[0] == list && Distinct(l) && Linked(l) && FreeFirst(l[1..])
      && |list.flag| == SLOTS
    }

    /** Takes slot `i` of the first container. */
    method Take(i: nat) returns (r: Entry)
      requires Valid() && i < |list.flag| == SLOTS && !list.flag[i]
      modifies list`flag
      ensures HeadOpen() && r == Entry(list, i) && InUse(l) == old(InUse(l)) + {r} && r !in old(InUse(l))
      ensures list.flag == old(list.flag)[i := true]
      ensures forall j :: 0 < j < |l| ==> l[j].flag == old(l[j].flag)
    {
      r := Entry(list, i);
      HeadFree(l);
      SetBit(list, i, l);
    }

    /** `Extend`: a new container in front of a list that is full. */
    method Extend()
      requires HeadOpen() && Full(list.flag) && (|l| > 1 ==> Full(l[1].flag))
      modifies this
      ensures Valid() && InUse(l) == old(InUse(l))
      ensures |l| == |old(l)| + 1 && fresh(l[0]) && l[1..] == old(l) && unchanged(old(l))
    {
      hide Linked, FreeFirst, Distinct, InUse;
      RestFull(l);
      var tmp := new Container();
      tmp.next := list;
      InFront(tmp, l);
      list := tmp;
      l := [tmp] + l;
    }

    /** The full head goes behind the last container with a free slot. */
    method Sink()
      requires HeadOpen() && Full(list.flag) && |l| > 1 && !Full(l[1].flag)
      modifies this, l
      ensures Valid() && InUse(l) == old(InUse(l)) && multiset(l) == multiset(old(l))
      ensures exists k :: old(LastOpen(l, k)) && l == old(l)[1..k + 1] + [old(l)[0]] + old(l)[k + 1..]
    {
      hide Linked, FreeFirst, Distinct, InUse, Full;
      var first, r := SinkHead(list, l);
      list := first;
      Relist(r);
    }

    ghost method Relist(r: seq<Container>)
      requires |r| > 0 && r[0] == list && Distinct(r) && Linked(r) && FreeFirst(r) && !Full(list.flag)
      modifies `l
      ensures Valid() && l == r
    {
      hide Linked, FreeFirst, Distinct, Full;
      l := r;
    }

    /** `Alloc`: a slot that was free, from the first container. */
    method Alloc() returns (r: Entry)
      requires Valid()
      modifies this, l
      ensures Valid() && r !in old(InUse(l)) && InUse(l) == old(InUse(l)) + {r}
      ensures multiset(l) == multiset(old(l)) || (|l| == |old(l)| + 1 && fresh(l[0]) && l[1..] == old(l))
      ensures r.c == old(list) && r.i < |old(list.flag)| && !old(list.flag)[r.i] && false !in old(list.flag)[..r.i]
      ensures if false in old(list.flag)[r.i := true] then l == old(l)
              else if |old(l)| == 1 || old(Full(l[1].flag)) then |l| > 0 && fresh(l[0]) && l[1..] == old(l)
              else exists k :: old(LastOpen(l, k)) && l == old(l)[1..k + 1] + [old(l)[0]] + old(l)[k + 1..]
    {
      hide Linked, FreeFirst, Distinct, InUse;
      NextOf(l, 0);
      assert |list.flag| == SLOTS by { FlagLength(l, 0); }
      var i := FreeSlot(list.flag);
      r := Take(i);
      assert forall k :: LastOpen(l, k) ==> old(LastOpen(l, k));
      if Full(list.flag) {
        if list.next == null || Full(list.next.flag) {
          Extend();
        } else {
          Sink();
        }
      } else {
        OpenIsFree(l);
      }
    }

    /** The search of `Free` for the container that holds the address. */
    method Holder(data: Entry) returns (before: Container?, cur: Container?, ghost k: nat)
      requires |l| > 0 && list == l[0] && Linked(l)
      ensures cur == null <==> data.c !in l
      ensures cur != null ==> k < |l| && cur == l[k] == data.c && before == if k == 0 then null else l[k - 1]
    {
      hide Linked;
      before, cur, k := null, list, 0;
      while cur != null
        invariant k <= |l| && cur == (if k < |l| then l[k] else null) && data.c !in l[..k]
        invariant before == if k == 0 then null else l[k - 1]
        decreases |l| - k
      {
        if cur == data.c {
          return;
        }
        NextOf(l, k);
        before := cur;
        cur := cur.next;
        k := k + 1;
        assert l[..k] == l[..k - 1] + [l[k - 1]];
      }
      assert l[..k] == l;
    }

    /** The container at position `k` goes to the front. */
    method Promote(before: Container, cur: Container, ghost k: nat)
      requires Valid() && 0 < k < |l| && before == l[k - 1] && cur == l[k]
      modifies this, before`next, cur`next
      ensures list == cur && l == [old(l)[k]] + old(l)[..k] + old(l)[k + 1..]
      ensures Distinct(l) && Linked(l) && FreeFirst(l[1..]) && multiset(l) == multiset(old(l))
      ensures InUse(l) == old(InUse(l))
    {
      hide Linked, FreeFirst, Distinct, InUse, Full;
      ghost var r := [l[k]] + l[..k] + l[k + 1..];
      Promoted(l, k, r);
      MoveToFront(before, cur, list, l, k, r);
      assert FreeFirst(r[1..]) && InUse(r) == old(InUse(l));
      list := cur;
      l := r;
    }

    /** A full container that is not the head goes to the front. */
    method Settle(before: Container?, cur: Container, ghost k: nat)
      requires Valid() && k < |l| && cur == l[k] && before == if k == 0 then null else l[k - 1]
      modifies this, (set c | c in l)`next
      ensures |l| > 0 && l[0] == list && Distinct(l) && Linked(l) && cur in l && |cur.flag| == SLOTS
      ensures (FreeFirst(l) && !Full(cur.flag) && !Full(list.flag)) || (cur == list && FreeFirst(l[1..]))
      ensures multiset(l) == multiset(old(l)) && InUse(l) == old(InUse(l))
      ensures l == if Full(cur.flag) && k > 0 then [cur] + old(l)[..k] + old(l)[k + 1..] else old(l)
    {
      hide Linked, FreeFirst, Distinct, InUse, Full;
      FlagLength(l, k);
      if Full(cur.flag) && before != null {
        Promote(before, cur, k);
      }
    }

    /**
     * `Free`: an address of no container is an assertion failure, and from slot 32 on the mask is undefined.
     * Otherwise the slot is released; slot 31 takes those behind it along.
     */
    method Free(data: Entry) returns (r: Outcome)
      requires Valid() && data.i < SLOTS
      modifies this, l
      ensures r == if data.c !in old(l) then NotFound else if data.i < 32 then Freed else Undefined
      ensures r.NotFound? ==> Valid() && l == old(l) && InUse(l) == old(InUse(l))
      ensures r.Freed? ==> Valid() && multiset(l) == multiset(old(l)) && InUse(l) == old(InUse(l)) - Released(data)
      ensures r.Freed? ==>
                if old(Full(data.c.flag)) && data.c != old(list)
                then exists k :: 0 < k < |old(l)| && old(l)[k] == data.c && l == [data.c] + old(l)[..k] + old(l)[k + 1..]
                else l == old(l)
      ensures r.Freed? && data.i < 31 ==> InUse(l) == old(InUse(l)) - {data}
    {
      hide Linked, FreeFirst, Distinct, InUse, Full, Released;
      var before, cur, k := Holder(data);
      if cur == null {
        return NotFound;
      }
      Settle(before, cur, k);
      if data.i >= 32 {
        return Undefined;
      }
      ClearBit(cur, data.i, l);
      ReleasedExact(data);
      return Freed;
    }
  }

  // ---------------------------------------------------------------------------------------------
  // The mask of `Free`
  // ---------------------------------------------------------------------------------------------

  /** The number of a slot, in the word that holds the bits of a container. */
  type Slot = k: bv64 | k < 64

  predicate Bit(flag: bv64, k: Slot) {
    (flag >> k) & 1 == 1
  }

  /** An `int` where a 64-bit word is needed: the sign is repeated. */
  function SignExtend(x: bv32): bv64 {
    if x & 0x8000_0000 == 0 then x as bv64 else x as bv64 | 0xFFFF_FFFF_0000_0000
  }

  /** `~(1 << i)`: the one is an `int` of 32 bits, and shifting it further than that is undefined. */
  function Mask(i: Slot): (r: Option<bv64>)
    ensures r.Some? <==> i < 32
  {
    if i < 32 then Some(SignExtend(!((1 as bv32) << i))) else None
  }

  /** With the mask for slot `i`, slot `k` stays as it is unless it is that one. */
  predicate Right(i: Slot, flag: bv64, k: Slot)
    requires i < 32
  {
    Bit(flag & Mask(i).value, k) <==> Bit(flag, k) && k != i
  }

  ghost predicate ReleasesOnly(i: Slot) {
    i < 32 && forall flag: bv64, k: Slot :: Right(i, flag, k)
  }

  lemma MaskBits(i: Slot, flag: bv64, k: Slot)
    requires i < 32
    ensures Bit(flag & Mask(i).value, k) <==> Bit(flag, k) && !(k == i || (i == 31 && k > 31))
    ensures i < 31 ==> Right(i, flag, k)
  {
  }

  lemma SameNumbers(i: Slot, k: Slot)
    ensures Clears(i as nat, k as nat) <==> k == i || (i == 31 && k > 31)
  {
  }

  /** Which slots the mask clears. */
  lemma MaskClears(i: Slot, flag: bv64, k: Slot)
    requires i < 32
    ensures Bit(flag & Mask(i).value, k) <==> Bit(flag, k) && !Clears(i as nat, k as nat)
  {
    hide Bit, Mask, Clears;
    MaskBits(i, flag, k);
    SameNumbers(i, k);
  }

  /** Releasing slot 31 of a full container leaves the slots before it, and releases slot 40. */
  lemma Slot31()
    ensures var full: bv64 := 0xFFFF_FFFF_FFFF_FFFF;
            && Mask(31) == Some(0x7FFF_FFFF) && full & Mask(31).value == 0x7FFF_FFFF
            && Bit(full, 40) && !Bit(full & Mask(31).value, 40) && !Right(31, full, 40)
  {
  }

  /** The mask releases exactly the slot it is meant for if and only if that is one of the first 31. */
  lemma MaskExact(i: Slot)
    ensures ReleasesOnly(i) <==> i < 31
  {
    hide Right, Bit, Mask;
    if i < 31 {
      forall flag: bv64, k: Slot ensures Right(i, flag, k) {
        MaskBits(i, flag, k);
      }
    } else if i == 31 {
      Slot31();
    }
  }
}
