/**
 * The counts of the timer (source/kernel/timer.h) and the callout list of one CPU, a singly linked
 * list behind a guard (source/kernel/task.cc): insertion by time, removal, and the drain of due callouts.
 */
module CalloutList {
  import opened Lists
  import opened Words

  /** Counts above this one may compare wrongly; the timer is taken not to reach it. */
  const COUNT_LIMIT: nat := 0xF000000000000000

  predicate IsGreater(n1: nat, n2: nat) {
    n1 >= n2 || (n1 < 0x1000000000000000 && n2 > 0xF000000000000000)
  }

  /** `GetCntAfterPeriod`: the delay is signed, but dividing by the unsigned period makes it unsigned. */
  function CountAfterPeriod(now: nat, us: int32, clkPeriod: nat): nat
    requires clkPeriod > 0
  {
    (now + (us * 1000) % WORD64 / clkPeriod) % WORD64
  }

  /** How many counts fit into a delay that is not negative. */
  function Counts(us: nat, clkPeriod: nat): (n: nat)
    requires clkPeriod > 0
    ensures n * clkPeriod <= us * 1000 < (n + 1) * clkPeriod
    ensures n * clkPeriod == us * 1000 <==> us * 1000 % clkPeriod == 0
  {
    us * 1000 / clkPeriod
  }

  lemma CountsBound(us: nat, clkPeriod: nat)
    requires clkPeriod > 0
    ensures Counts(us, clkPeriod) <= us * 1000
  {
    hide Counts;
    Grows(Counts(us, clkPeriod), clkPeriod - 1);
  }

  lemma Grows(n: nat, p: nat)
    ensures n <= n * (p + 1)
  {
    assert n * (p + 1) == n * p + n;
  }

  /** A delay that is not negative adds the counts that fit into it; it is too short for the sum to wrap. */
  lemma CountsAfter(now: nat, us: nat, clkPeriod: nat)
    requires clkPeriod > 0 && us < 0x8000_0000 && now <= COUNT_LIMIT
    ensures CountAfterPeriod(now, us, clkPeriod) == now + Counts(us, clkPeriod)
  {
    CountsBound(us, clkPeriod);
  }

  /**
   * A negative delay goes back in time by the counts that fit into it, as far as 64 bits go, if and only if one
   * count is one nanosecond, or longer than the delay read as an unsigned number; then it adds nothing.
   */
  lemma NegativeDelay(now: nat, us: int, clkPeriod: nat)
    requires -0x8000_0000 <= us < 0 && now < WORD64 && clkPeriod > 0
    ensures CountAfterPeriod(now, us, clkPeriod) == (now - Counts(-us, clkPeriod)) % WORD64 <==>
            clkPeriod == 1 || clkPeriod > WORD64 + us * 1000
  {
    var k, v := -us * 1000, WORD64 + us * 1000;
    assert (us * 1000) % WORD64 == v;
    CountsIs(-us, clkPeriod);
    hide Counts;
    var q, n := v / clkPeriod, k / clkPeriod;
    if clkPeriod == 1 {
      assert q == v && n == k;
    } else {
      Halves(v, clkPeriod);
      Halves(k, clkPeriod);
    }
    if clkPeriod > v {
      Below(v, clkPeriod);
      Below(k, clkPeriod);
    }
    Around(now, q, n);
  }

  lemma Below(v: nat, p: nat)
    requires v < p
    ensures v / p == 0
  {
  }

  /** Going forward by `q` is going back by `n` if and only if together they go round, or nowhere. */
  lemma Around(now: nat, q: nat, n: nat)
    requires now < WORD64 && q + n <= WORD64
    ensures (now + q) % WORD64 == (now - n) % WORD64 <==> q + n == WORD64 || q + n == 0
  {
    assert (now + q) % WORD64 == if now + q < WORD64 then now + q else now + q - WORD64;
    assert (now - n) % WORD64 == if now >= n then now - n else now - n + WORD64;
  }

  lemma CountsIs(us: nat, clkPeriod: nat)
    requires clkPeriod > 0
    ensures Counts(us, clkPeriod) == us * 1000 / clkPeriod
  {
  }

  lemma Twice(q: nat, d: nat)
    ensures 2 * q <= q * (d + 2) && (q == 0 ==> q * (d + 2) == 0)
  {
    assert q * (d + 2) == q * d + 2 * q;
  }

  lemma Halves(v: nat, p: nat)
    requires p >= 2
    ensures 2 * (v / p) <= v && (v >= p ==> v / p > 0)
  {
    var q, r := v / p, v % p;
    assert v == q * p + r;
    Twice(q, p - 2);
  }

  /** Comparing counts is comparing numbers exactly as long as a late count does not meet an early one. */
  lemma OrderOfCounts(n1: nat, n2: nat)
    ensures (IsGreater(n1, n2) <==> n1 >= n2) <==> !(n1 < 0x1000000000000000 && n2 > 0xF000000000000000)
    ensures n2 <= COUNT_LIMIT ==> (IsGreater(n1, n2) <==> n1 >= n2)
  {
  }

  /** The position where a scan from the front stops for `limit`. */
  function First(times: seq<nat>, limit: nat): (k: nat)
    ensures k <= |times|
    ensures forall i :: 0 <= i < k ==> !IsGreater(times[i], limit)
    ensures k < |times| ==> IsGreater(times[k], limit)
    decreases |times|
  {
    if times == [] || IsGreater(times[0], limit) then 0 else 1 + First(times[1..], limit)
  }

  lemma FirstIs(times: seq<nat>, limit: nat, k: nat)
    requires k <= |times| && (forall i :: 0 <= i < k ==> !IsGreater(times[i], limit))
    requires k < |times| ==> IsGreater(times[k], limit)
    ensures First(times, limit) == k
  {
  }

  ghost predicate Sorted(times: seq<nat>) {
    forall i, j :: 0 <= i < j < |times| ==> times[i] <= times[j]
  }

  /** Inserting where the scan stops keeps the list sorted; what precedes the stop of a drain is what is due. */
  lemma InsertKeepsOrder(times: seq<nat>, t: nat)
    requires Sorted(times) && t <= COUNT_LIMIT
    ensures var k := First(times, t); Sorted(times[..k] + [t] + times[k..])
  {
  }

  lemma DueIsPrefix(times: seq<nat>, limit: nat)
    requires Sorted(times) && limit <= COUNT_LIMIT
    ensures forall i :: 0 <= i < |times| ==> (i < First(times, limit) <==> times[i] < limit)
  {
  }

  class Node {
    var next: Node?
    const time: nat

    constructor (time: nat)
      ensures next == null && this.time == time
    {
      this.next, this.time := null, time;
    }
  }

  function Times(l: seq<Node>): (r: seq<nat>)
    ensures |r| == |l| && forall i :: 0 <= i < |l| ==> r[i] == l[i].time
  {
    seq(|l|, i requires 0 <= i < |l| => l[i].time)
  }

  /** The node behind position `i`. */
  function After(l: seq<Node>, i: nat): Node? {
    if i + 1 < |l| then l[i + 1] else null
  }

  /** `l` is the guard followed by the listed callouts, each once, and the links agree. */
  ghost predicate Linked(l: seq<Node>)
    reads l
    ensures Linked(l) ==> |l| > 0
  {
    && |l| > 0
    && Distinct(l)
    && (forall i :: 0 <= i < |l| ==> l[i].next == After(l, i))
  }

  lemma NextOf(l: seq<Node>, k: nat)
    requires Linked(l) && k < |l|
    ensures l[k].next == if k + 1 < |l| then l[k + 1] else null
  {
  }

  /** Links `task` behind the node at position `k`. */
  method LinkAfter(dt: Node, task: Node, ghost l: seq<Node>, ghost k: nat)
    requires Linked(l) && k < |l| && dt == l[k] && task !in l
    modifies dt, task
    ensures Linked(l[..k + 1] + [task] + l[k + 1..])
  {
    hide Linked, Distinct, After;
    ghost var r := Inserted(l, task, k);
    forall j | 0 <= j < |l| ensures l[j].next == After(l, j) && l[j] != task && (l[j] == dt <==> j == k) {
      NoTwice(l, k);
      NextAfter(l, j);
    }
    task.next := dt.next;
    dt.next := task;
    forall i | 0 <= i < |r| ensures r[i].next == After(r, i) {
      InsertedAfter(l, task, k, r, i);
      assert i != k + 1 ==> r[i] == l[if i <= k then i else i - 1];
    }
    IsLinked(r);
  }

  /** `l` with `task` behind position `k`. */
  lemma Inserted(l: seq<Node>, task: Node, k: nat) returns (r: seq<Node>)
    requires Linked(l) && k < |l| && task !in l
    ensures r == l[..k + 1] + [task] + l[k + 1..] && |r| == |l| + 1 && Distinct(r) && r[k + 1] == task
    ensures forall i :: 0 <= i < |r| && i != k + 1 ==> r[i] == l[if i <= k then i else i - 1]
  {
    r := l[..k + 1] + [task] + l[k + 1..];
  }

  lemma InsertedAfter(l: seq<Node>, task: Node, k: nat, r: seq<Node>, i: nat)
    requires k < |l| && |r| == |l| + 1 && r[k + 1] == task && i < |r|
    requires forall j :: 0 <= j < |r| && j != k + 1 ==> r[j] == l[if j <= k then j else j - 1]
    ensures After(r, i) == if i < k then After(l, i) else if i == k then task else After(l, i - 1)
  {
  }

  lemma NextAfter(l: seq<Node>, k: nat)
    requires Linked(l) && k < |l|
    ensures l[k].next == After(l, k)
  {
  }

  lemma IsLinked(l: seq<Node>)
    requires |l| > 0 && Distinct(l) && forall i :: 0 <= i < |l| ==> l[i].next == After(l, i)
    ensures Linked(l)
  {
  }

  /** Unlinks the node behind the one at position `k`. */
  method UnlinkAfter(dt: Node, ghost l: seq<Node>, ghost k: nat) returns (dtt: Node)
    requires Linked(l) && k + 1 < |l| && dt == l[k]
    modifies dt, l[k + 1]
    ensures dtt == l[k + 1] && dtt.next == null && Linked(l[..k + 1] + l[k + 2..])
  {
    hide Linked, Distinct, After;
    ghost var r := Shortened(l, k);
    forall j | 0 <= j < |l| ensures l[j].next == After(l, j) && (l[j] == dt <==> j == k) && (l[j] == l[k + 1] <==> j == k + 1) {
      NoTwice(l, k);
      NoTwice(l, k + 1);
      NextAfter(l, j);
    }
    NextOf(l, k);
    dtt := dt.next;
    dt.next := dtt.next;
    dtt.next := null;
    forall i | 0 <= i < |r| ensures r[i].next == After(r, i) {
      ShortenedAfter(l, k, r, i);
      assert r[i] == l[if i <= k then i else i + 1];
    }
    IsLinked(r);
  }

  /** `l` without the node behind position `k`. */
  lemma Shortened(l: seq<Node>, k: nat) returns (r: seq<Node>)
    requires Linked(l) && k + 1 < |l|
    ensures r == l[..k + 1] + l[k + 2..] && |r| == |l| - 1 && Distinct(r)
    ensures forall i :: 0 <= i < |r| ==> r[i] == l[if i <= k then i else i + 1]
  {
    r := l[..k + 1] + l[k + 2..];
  }

  lemma ShortenedAfter(l: seq<Node>, k: nat, r: seq<Node>, i: nat)
    requires k + 1 < |l| && |r| == |l| - 1 && i < |r|
    requires forall j :: 0 <= j < |r| ==> r[j] == l[if j <= k then j else j + 1]
    ensures After(r, i) == if i < k then After(l, i) else After(l, i + 1)
  {
  }

  lemma NoTwice(l: seq<Node>, k: nat)
    requires Linked(l) && k < |l|
    ensures Distinct(l) && l[k] !in l[..k] + l[k + 1..]
    ensures forall i :: 0 <= i < |l| && l[i] == l[k] ==> i == k
  {
  }

  /** The nodes `due` were taken from the front of `was`, which leaves `l`. */
  ghost predicate Moved(was: seq<Node>, due: seq<Node>, l: seq<Node>) {
    |due| < |was| && due == was[1..|due| + 1] && l == [was[0]] + was[|due| + 1..]
  }

  lemma MoveOne(was: seq<Node>, due: seq<Node>, l: seq<Node>)
    requires Moved(was, due, l) && |l| > 1
    ensures Moved(was, due + [l[1]], [l[0]] + l[2..]) && l[1] == was[|due| + 1]
  {
  }

  lemma DueNotListed(was: seq<Node>, due: seq<Node>, l: seq<Node>)
    requires Distinct(was) && Moved(was, due, l)
    ensures (forall n :: n in due ==> n !in l) && forall n :: n in l ==> n !in due
  {
  }

  lemma NothingMoved(was: seq<Node>)
    requires was != []
    ensures Moved(was, [], was) && Cut([])
  {
  }

  lemma CutOne(due: seq<Node>, n: Node)
    requires Cut(due) && n.next == null
    ensures Cut(due + [n])
  {
  }

  lemma ListLength(was: seq<Node>, due: seq<Node>, l: seq<Node>)
    requires Moved(was, due, l)
    ensures |l| == |was| - |due| && l[0] == was[0] && l[1..] == was[1..][|due|..] && due == was[1..][..|due|]
  {
  }

  ghost predicate Cut(due: seq<Node>)
    reads due
  {
    forall n :: n in due ==> n.next == null
  }

  lemma DrainEnd(was: seq<Node>, due: seq<Node>, l: seq<Node>, limit: nat)
    requires Moved(was, due, l) && (forall i :: 0 <= i < |due| ==> !IsGreater(due[i].time, limit))
    requires |l| > 1 ==> IsGreater(l[1].time, limit)
    ensures First(Times(was[1..]), limit) == |due| && l[1..] == was[1..][|due|..] && due == was[1..][..|due|]
  {
    hide IsGreater, First;
    ListLength(was, due, l);
    var times, k := Times(was[1..]), |due|;
    assert forall i :: 0 <= i < k ==> times[i] == due[i].time;
    assert k < |times| ==> l[1] == was[1..][k];
    FirstIs(times, limit, k);
  }

  /** An insertion seen from behind the guard. */
  lemma BehindGuard(l: seq<Node>, task: Node, k: nat)
    requires k < |l|
    ensures var r := l[..k + 1] + [task] + l[k + 1..]; r[0] == l[0] && r[1..] == l[1..][..k] + [task] + l[1..][k..]
  {
    var r, t := l[..k + 1] + [task] + l[k + 1..], l[1..][..k] + [task] + l[1..][k..];
    forall i | 0 <= i < |t| ensures r[i + 1] == t[i] {
      if i < k {
        assert t[i] == l[1..][i] == l[i + 1];
      } else if i > k {
        assert t[i] == l[1..][i - 1] == l[i];
      }
    }
  }

  class List {
    var dtop: Node
    ghost var l: seq<Node>

    ghost predicate Valid()
      reads this, l
    {
      Linked(l) && l[0] == dtop
    }

    /** The listed callouts in order. */
    ghost function Listed(): seq<Node>
      requires |l| > 0
      reads this
    {
      l[1..]
    }

    constructor ()
      ensures Valid() && fresh(dtop) && Listed() == []
    {
      var g := new Node(0);
      dtop, l := g, [g];
    }

    /** The insertion loop of `RegisterCallout`. */
    method Insert(task: Node)
      requires Valid() && task !in l
      modifies this`l, l, task
      ensures Valid() && dtop == old(dtop)
      ensures var k := First(Times(old(Listed())), task.time);
              Listed() == old(Listed())[..k] + [task] + old(Listed())[k..]
    {
      hide Linked, IsGreater;
      var dt := dtop;
      ghost var k := 0;
      ghost var times := Times(l[1..]);
      while true
        invariant unchanged(this) && unchanged(l) && unchanged(task)
        invariant 0 <= k < |l| && dt == l[k] && |times| == |l| - 1
        invariant forall i :: 0 <= i < k ==> !IsGreater(times[i], task.time)
        decreases |l| - k
      {
        NextOf(l, k);
        var dtt := dt.next;
        if dtt == null || IsGreater(dtt.time, task.time) {
          break;
        }
        dt := dtt;
        k := k + 1;
      }
      FirstIs(times, task.time, k);
      LinkAfter(dt, task, l, k);
      BehindGuard(l, task, k);
      l := l[..k + 1] + [task] + l[k + 1..];
    }

    /** The unlinking loop of `CancelCallout`: a callout that is not listed changes nothing but its own link. */
    method Remove(task: Node)
      requires Valid() && task != dtop
      modifies this`l, l, task
      ensures Valid() && dtop == old(dtop) && task !in l && task.next == null
      ensures task !in old(l) ==> l == old(l)
      ensures forall i :: 0 < i < |old(l)| && old(l)[i] == task ==> l == old(l)[..i] + old(l)[i + 1..]
    {
      hide Linked;
      var dt := dtop;
      ghost var k := 0;
      while dt.next != null
        invariant 0 <= k < |l| && dt == l[k] && task !in l[..k + 1]
        invariant unchanged(this) && unchanged(l) && unchanged(task)
        decreases |l| - k
      {
        NextOf(l, k);
        var dtt := dt.next;
        if dtt == task {
          NoTwice(l, k + 1);
          dtt := UnlinkAfter(dt, l, k);
          l := l[..k + 1] + l[k + 2..];
          return;
        }
        dt := dtt;
        k := k + 1;
        assert l[..k + 1] == l[..k] + [dt];
      }
      NextOf(l, k);
      assert l[..k + 1] == l;
      task.next := null;
    }

    /** One turn of the drain: the first callout, if it is due before `limit`. */
    method TakeFirst(limit: nat) returns (dtt: Node?)
      requires Valid()
      modifies this`l, l
      ensures Valid() && dtop == old(dtop)
      ensures dtt == null ==> l == old(l) && (|l| > 1 ==> IsGreater(l[1].time, limit))
      ensures dtt != null ==> |old(l)| > 1 && dtt == old(l)[1] && !IsGreater(dtt.time, limit) && dtt.next == null
      ensures dtt != null ==> dtt !in l && l == [old(l)[0]] + old(l)[2..]
    {
      hide Linked, IsGreater, After;
      NextOf(l, 0);
      dtt := dtop.next;
      if dtt == null {
        return;
      }
      if IsGreater(dtt.time, limit) {
        return null;
      }
      NoTwice(l, 1);
      dtt := UnlinkAfter(dtop, l, 0);
      l := l[..1] + l[2..];
    }

    /** The drain has moved the callouts `due`, all due before `limit`, out of what the list `was`. */
    ghost predicate Draining(was: seq<Node>, due: seq<Node>, limit: nat)
      reads this, l, due
    {
      && Valid() && Distinct(was) && Moved(was, due, l) && Cut(due)
      && forall i :: 0 <= i < |due| ==> !IsGreater(due[i].time, limit)
    }

    method DrainTurn(limit: nat, due: seq<Node>, ghost was: seq<Node>) returns (dtt: Node?)
      requires Draining(was, due, limit)
      modifies this`l, l
      ensures dtop == old(dtop)
      ensures dtt == null ==> Draining(was, due, limit) && (|l| > 1 ==> IsGreater(l[1].time, limit))
      ensures dtt != null ==> Draining(was, due + [dtt], limit) && |due| + 1 < |was|
    {
      hide Linked, IsGreater, After, Distinct, Moved;
      DueNotListed(was, due, l);
      ListLength(was, due, l);
      ghost var before := l;
      assert forall n :: n in due ==> n !in l && n.next == null;
      dtt := TakeFirst(limit);
      assert forall n :: n in due ==> n.next == null;
      if dtt != null {
        MoveOne(was, due, before);
        CutOne(due, dtt);
      }
    }

    /** The drain loop of `Run`: unlinks callouts from the front as long as they are due before `limit`. */
    method Drain(limit: nat) returns (due: seq<Node>)
      requires Valid()
      modifies this`l, l
      ensures Valid() && dtop == old(dtop) && Cut(due)
      ensures var k := First(Times(old(Listed())), limit); due == old(Listed())[..k] && Listed() == old(Listed())[k..]
    {
      hide Linked, IsGreater, After, Distinct, Moved, Cut, First;
      due := [];
      ghost var was := l;
      NoTwice(l, 0);
      NothingMoved(was);
      while true
        invariant Draining(was, due, limit) && dtop == old(dtop)
        decreases |was| - |due|
      {
        ListLength(was, due, l);
        var dtt := DrainTurn(limit, due, was);
        if dtt == null {
          break;
        }
        due := due + [dtt];
      }
      DrainEnd(was, due, l, limit);
    }
  }
}
