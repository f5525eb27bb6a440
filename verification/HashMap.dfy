/**
 * The hash map with linked bucket chains (source/kernel/map.h). A key is its value as an unsigned long.
 */
module HashMap {
  import opened Lists

  class Node<V> {
    const key: nat
    var value: V
    var next: Node?<V>

    constructor (key: nat, value: V)
      ensures this.key == key && this.value == value && next == null
    {
      this.key, this.value, next := key, value, null;
    }
  }

  function Hash(key: nat, n: nat): (b: nat)
    requires n > 0
    ensures b < n
  {
    key % n
  }

  /** Keys share a bucket if and only if they differ by a multiple of the number of buckets. */
  lemma SameBucket(k: nat, j: nat, n: nat)
    requires n > 0
    ensures Hash(k, n) == Hash(j, n) <==> exists q: int :: k == j + q * n
  {
    if Hash(k, n) == Hash(j, n) {
      assert k == j + (k / n - j / n) * n;
    }
    if q: int :| k == j + q * n {
      SameRemainder(j, q, n);
    }
  }

  lemma SameRemainder(j: nat, q: int, n: nat)
    requires n > 0 && j + q * n >= 0
    ensures (j + q * n) % n == j % n
  {
    var v := j + q * n;
    var d := v / n - j / n - q;
    assert d * n == j % n - v % n;
    if d >= 1 {
      AtLeast(d, n);
    } else if d <= -1 {
      AtLeast(-d, n);
    }
  }

  lemma AtLeast(d: int, n: nat)
    requires d >= 1
    ensures d * n >= n
  {
  }

  function After<V>(l: seq<Node<V>>, i: int): Node?<V> {
    if 0 <= i + 1 < |l| then l[i + 1] else null
  }

  /** The nodes `l` are linked in this order from `head`. */
  ghost predicate Linked<V>(l: seq<Node<V>>, head: Node?<V>)
    reads (set x | x in l)`next
  {
    head == After(l, -1) && forall i :: 0 <= i < |l| ==> l[i].next == After(l, i)
  }

  /** The nodes `l` belong to bucket `b` in a table of `n`, each key once. */
  ghost predicate Keys<V>(l: seq<Node<V>>, b: nat, n: nat)
    requires n > 0
  {
    && (forall i :: 0 <= i < |l| ==> Hash(l[i].key, n) == b)
    && forall i, j :: 0 <= i < j < |l| ==> l[i].key != l[j].key
  }

  /** The bucket holds what `m` says about the keys that belong there, and nothing else. */
  ghost predicate Shows<V(!new)>(l: seq<Node<V>>, m: map<nat, V>, b: nat, n: nat)
    requires n > 0
    reads (set x | x in l)`value
  {
    && (forall i :: 0 <= i < |l| ==> l[i].key in m && m[l[i].key] == l[i].value)
    && forall k :: k in m && Hash(k, n) == b ==> HasKey(l, k)
  }

  ghost predicate HasKey<V(!new)>(l: seq<Node<V>>, k: nat) {
    exists i :: 0 <= i < |l| && l[i].key == k
  }

  /** The scan for `key` that all three operations begin with. */
  method Scan<V(!new)>(head: Node?<V>, key: nat, ghost l: seq<Node<V>>)
    returns (prev: Node?<V>, entry: Node?<V>, ghost i: nat)
    requires Linked(l, head)
    ensures i <= |l| && entry == (if i < |l| then l[i] else null) && prev == (if i == 0 then null else l[i - 1])
    ensures i < |l| ==> l[i].key == key
    ensures i == |l| ==> !HasKey(l, key)
  {
    prev, entry, i := null, head, 0;
    while entry != null && entry.key != key
      invariant i <= |l| && entry == After(l, i - 1) && prev == (if i == 0 then null else l[i - 1])
      invariant forall j :: 0 <= j < i ==> l[j].key != key
      decreases |l| - i
    {
      assert entry == l[i];
      prev := entry;
      entry := entry.next;
      i := i + 1;
    }
  }

  lemma KeysApart<V>(l: seq<Node<V>>, b: nat, r: seq<Node<V>>, c: nat, n: nat)
    requires n > 0 && b != c && Keys(l, b, n) && Keys(r, c, n)
    ensures forall x :: x in l ==> x !in r
  {
  }

  lemma KeyAdded<V(!new)>(l: seq<Node<V>>, entry: Node<V>, b: nat, n: nat)
    requires n > 0 && Keys(l, b, n) && Hash(entry.key, n) == b && !HasKey(l, entry.key)
    ensures Keys(l + [entry], b, n)
  {
  }

  lemma KeyRemoved<V>(l: seq<Node<V>>, i: nat, b: nat, n: nat)
    requires n > 0 && Keys(l, b, n) && i < |l|
    ensures Keys(Without(l, i), b, n)
  {
  }

  /** Links a new node behind the last one. */
  method LinkLast<V>(prev: Node<V>, entry: Node<V>, head: Node?<V>, ghost l: seq<Node<V>>)
    requires Linked(l, head) && Distinct(l) && l != [] && prev == l[|l| - 1] && entry !in l && entry.next == null
    modifies prev`next
    ensures Linked(l + [entry], head)
  {
    prev.next := entry;
    ghost var r := l + [entry];
    forall i | 0 <= i < |r| ensures r[i].next == After(r, i) {
      assert i < |l| ==> r[i] == l[i] && old(l[i].next) == After(l, i);
      assert i < |l| - 1 ==> l[i] != l[|l| - 1];
    }
  }

  /** The chain behind its first node. */
  lemma TailLinked<V>(l: seq<Node<V>>, head: Node?<V>)
    requires Linked(l, head) && l != []
    ensures Linked(Without(l, 0), l[0].next)
  {
    assert Without(l, 0) == l[1..];
  }

  /** Takes the node at position `i` out of the chain. */
  method UnlinkAt<V>(prev: Node<V>, entry: Node<V>, head: Node<V>, ghost l: seq<Node<V>>, ghost i: nat)
    requires Linked(l, head) && Distinct(l) && 0 < i < |l| && entry == l[i] && prev == l[i - 1]
    modifies prev`next
    ensures Linked(Without(l, i), head)
  {
    hide Without;
    ghost var r := Without(l, i);
    assert forall k :: 0 <= k < |l| ==> l[k].next == After(l, k);
    prev.next := entry.next;
    forall k | 0 <= k < |r| ensures r[k].next == After(r, k) {
      ghost var j := if k < i then k else k + 1;
      assert r[k] == l[j] && old(l[j].next) == After(l, j);
      assert j != i - 1 ==> l[j] != l[i - 1];
    }
  }

  /** What a bucket shows after `key` got `value`, in the bucket of `key` and in the others. */
  lemma ShowsOther<V(!new)>(l: seq<Node<V>>, m: map<nat, V>, b: nat, n: nat, key: nat, m': map<nat, V>)
    requires n > 0 && Keys(l, b, n) && Shows(l, m, b, n) && Hash(key, n) != b
    requires forall k :: k != key ==> (k in m <==> k in m') && (k in m ==> m'[k] == m[k])
    ensures Shows(l, m', b, n)
  {
  }

  lemma ShowsSet<V(!new)>(l: seq<Node<V>>, m: map<nat, V>, b: nat, n: nat, i: nat, m': map<nat, V>)
    requires n > 0 && Keys(l, b, n) && i < |l| && m' == m[l[i].key := l[i].value]
    requires forall j :: 0 <= j < |l| && j != i ==> l[j].key in m && m[l[j].key] == l[j].value
    requires forall k :: k in m && Hash(k, n) == b ==> HasKey(l, k)
    ensures Shows(l, m', b, n)
  {
  }

  lemma KeysOnce<V>(l: seq<Node<V>>, b: nat, n: nat)
    requires n > 0 && Keys(l, b, n)
    ensures Distinct(l)
  {
  }

  ghost function LastOf<V>(l: seq<Node<V>>): Node?<V> {
    if l == [] then null else l[|l| - 1]
  }

  lemma FirstLinked<V>(entry: Node<V>)
    requires entry.next == null
    ensures Linked([entry], entry)
  {
  }

  lemma ShowsAdd<V(!new)>(l: seq<Node<V>>, m: map<nat, V>, b: nat, n: nat, entry: Node<V>, m': map<nat, V>)
    requires n > 0 && Shows(l, m, b, n) && !HasKey(l, entry.key) && m' == m[entry.key := entry.value]
    ensures Shows(l + [entry], m', b, n)
  {
    hide Hash;
    var r := l + [entry];
    forall k | k in m' && Hash(k, n) == b ensures HasKey(r, k) {
      if k == entry.key {
        assert r[|l|].key == k;
      } else {
        var i :| 0 <= i < |l| && l[i].key == k;
        assert r[i].key == k;
      }
    }
    assert forall i :: 0 <= i < |l| ==> l[i].key != entry.key;
  }

  lemma HeadOf<V>(l: seq<Node<V>>, head: Node?<V>)
    requires Linked(l, head) && l != []
    ensures head == l[0]
  {
  }

  lemma AbsentKey<V(!new)>(l: seq<Node<V>>, m: map<nat, V>, b: nat, n: nat, key: nat)
    requires n > 0 && Shows(l, m, b, n) && Hash(key, n) == b && !HasKey(l, key)
    ensures key !in m
  {
  }

  lemma PresentKey<V(!new)>(l: seq<Node<V>>, m: map<nat, V>, b: nat, n: nat, i: nat)
    requires n > 0 && Shows(l, m, b, n) && i < |l|
    ensures l[i].key in m
  {
  }

  lemma ShowsRemove<V(!new)>(l: seq<Node<V>>, m: map<nat, V>, b: nat, n: nat, i: nat, m': map<nat, V>)
    requires n > 0 && Keys(l, b, n) && Shows(l, m, b, n) && i < |l| && m' == m - {l[i].key}
    ensures Shows(Without(l, i), m', b, n)
  {
    hide Hash;
    var r := Without(l, i);
    forall k | k in m' && Hash(k, n) == b ensures HasKey(r, k) {
      var j :| 0 <= j < |l| && l[j].key == k;
      assert r[if j < i then j else j - 1].key == k;
    }
    forall j | 0 <= j < |r| ensures r[j].key in m' && m'[r[j].key] == r[j].value {
      var q := if j < i then j else j + 1;
      assert r[j] == l[q] && l[q].key != l[i].key;
    }
  }

  ghost function NodesOf<V>(chains: seq<seq<Node<V>>>): set<Node<V>> {
    set b, i | 0 <= b < |chains| && 0 <= i < |chains[b]| :: chains[b][i]
  }

  lemma NodesShrink<V>(chains: seq<seq<Node<V>>>, h: nat, i: nat)
    requires h < |chains| && i < |chains[h]|
    requires Distinct(chains[h]) && forall c :: 0 <= c < |chains| && c != h ==> chains[h][i] !in chains[c]
    ensures NodesOf(chains[h := Without(chains[h], i)]) == NodesOf(chains) - {chains[h][i]}
  {
    var l, r := chains[h], chains[h := Without(chains[h], i)];
    forall x | x in NodesOf(chains) && x != l[i] ensures x in NodesOf(r) {
      var b, j :| 0 <= b < |chains| && 0 <= j < |chains[b]| && chains[b][j] == x;
      assert r[b][if b == h && j > i then j - 1 else j] == x;
    }
  }

  lemma NoneBelow<V>(chains: seq<seq<Node<V>>>)
    ensures NodesOf(chains[..0]) == {}
  {
  }

  lemma NoNodes<V>(chains: seq<seq<Node<V>>>)
    requires forall b :: 0 <= b < |chains| ==> chains[b] == []
    ensures NodesOf(chains) == {}
  {
  }

  lemma NodesBelow<V>(chains: seq<seq<Node<V>>>, i: nat)
    requires i < |chains|
    ensures NodesOf(chains[..i + 1]) == NodesOf(chains[..i]) + set x | x in chains[i]
  {
    var r := chains[..i + 1];
    forall x | x in NodesOf(chains[..i]) ensures x in NodesOf(r) {
      var b, j :| 0 <= b < i && 0 <= j < |chains[..i][b]| && chains[..i][b][j] == x;
      assert r[b][j] == x;
    }
    forall x | x in chains[i] ensures x in NodesOf(r) {
      var j :| 0 <= j < |chains[i]| && chains[i][j] == x;
      assert r[i][j] == x;
    }
  }

  lemma EmptyBucket<V(!new)>(b: nat, n: nat)
    requires b < n
    ensures Linked<V>([], null) && Keys<V>([], b, n) && Shows<V>([], map[], b, n)
  {
  }

  lemma NodesGrow<V>(chains: seq<seq<Node<V>>>, h: nat, entry: Node<V>)
    requires h < |chains|
    ensures NodesOf(chains[h := chains[h] + [entry]]) <= NodesOf(chains) + {entry}
  {
  }

  class Map<V(!new)> {
    const table: array<Node?<V>>
    ghost var chains: seq<seq<Node<V>>>   // the nodes of every bucket
    ghost var m: map<nat, V>              // what the table stands for
    ghost var freed: set<Node<V>>         // the nodes that were deleted

    ghost function Nodes(): set<Node<V>>
      reads this
    {
      NodesOf(chains)
    }

    ghost predicate BucketOk(b: nat)
      requires table.Length > 0 && b < |chains| == table.Length
      reads this, table, Nodes()
    {
      BucketFits(b, chains[b], m)
    }

    /** Bucket `b` is linked as `l` and shows its part of `m'`. */
    ghost predicate BucketFits(b: nat, l: seq<Node<V>>, m': map<nat, V>)
      requires b < table.Length
      reads table, l
    {
      Linked(l, table[b]) && Keys(l, b, table.Length) && Shows(l, m', b, table.Length)
    }

    ghost predicate Valid()
      reads this, table, Nodes()
    {
      && 0 < table.Length == |chains| && Nodes() !! freed
      && forall b :: 0 <= b < |chains| ==> BucketOk(b)
    }

    constructor (size: nat)
      requires size > 0
      ensures Valid() && m == map[] && fresh(table) && Nodes() == freed == {}
    {
      table := new Node?<V>[size](_ => null);
      chains := seq(size, _ => []);
      m, freed := map[], {};
    }

    /** `delete`, of a node that was not deleted before. */
    ghost method FreeNode(x: Node<V>)
      requires x !in freed
      modifies `freed
      ensures freed == old(freed) + {x}
    {
      freed := freed + {x};
    }

    method Get(key: nat, before: V) returns (found: bool, value: V)
      requires Valid()
      ensures found == (key in m) && value == if found then m[key] else before
    {
      hide Hash;
      var h := Hash(key, table.Length);
      assert BucketOk(h);
      var prev, entry, i := Scan(table[h], key, chains[h]);
      if entry != null {
        return true, entry.value;
      }
      return false, before;
    }

    /** Buckets other than `h` do not share nodes with it. */
    lemma Others(h: nat)
      requires Valid() && h < |chains|
      ensures forall c :: 0 <= c < |chains| && c != h ==> forall x :: x in chains[c] ==> x !in chains[h]
    {
      hide Hash, Linked, Shows;
      forall c | 0 <= c < |chains| && c != h ensures forall x :: x in chains[c] ==> x !in chains[h] {
        assert BucketOk(c) && BucketOk(h);
        KeysApart(chains[c], c, chains[h], h, table.Length);
      }
    }

    /** The value of a key that is present. */
    method SetValue(entry: Node<V>, value: V, ghost h: nat, ghost i: nat)
      requires Valid() && h < |chains| && i < |chains[h]| && entry == chains[h][i]
      modifies entry`value, `m
      ensures Valid() && m == old(m)[entry.key := value] && chains == old(chains)
    {
      hide Hash, Linked;
      ghost var n, l, key := table.Length, chains[h], entry.key;
      Others(h);
      assert BucketOk(h);
      entry.value := value;
      ghost var m' := m[key := value];
      assert Shows(l, m', h, n) by {
        ShowsSet(l, old(m), h, n, i, m');
      }
      forall c | 0 <= c < |chains| && c != h ensures BucketFits(c, chains[c], m') {
        assert old(BucketOk(c));
        ShowsOther(chains[c], m, c, n, key, m');
      }
      m := m';
    }

    /** Renews the ghost view when bucket `h` is linked as `l`. */
    ghost method SetChain(h: nat, l: seq<Node<V>>, m': map<nat, V>)
      requires h < |chains| == table.Length
      requires NodesOf(chains[h := l]) !! freed
      requires BucketFits(h, l, m') && forall c :: 0 <= c < |chains| && c != h ==> BucketFits(c, chains[c], m')
      modifies `chains, `m
      ensures Valid() && m == m' && chains == old(chains)[h := l]
    {
      hide Hash, Linked, Keys, Shows;
      chains, m := chains[h := l], m';
      forall c | 0 <= c < |chains| ensures BucketOk(c) {
      }
    }

    /** The new last node of its bucket. */
    method Add(prev: Node?<V>, entry: Node<V>, h: nat)
      requires Valid() && h == Hash(entry.key, table.Length) && entry !in Nodes() + freed && entry.next == null
      requires prev == LastOf(chains[h]) && !HasKey(chains[h], entry.key)
      modifies this, table, Nodes()`next
      ensures Valid() && m == old(m)[entry.key := entry.value] && chains == old(chains)[h := old(chains)[h] + [entry]]
      ensures freed == old(freed)
    {
      hide Hash, Linked, Keys, Shows, HasKey;
      ghost var n, l, key := table.Length, chains[h], entry.key;
      Others(h);
      assert BucketOk(h);
      KeyAdded(l, entry, h, n);
      KeysOnce(l, h, n);
      ghost var m' := m[key := entry.value];
      ShowsAdd(l, m, h, n, entry, m');
      OthersShow(h, key, m');
      assert forall x :: x in l ==> x in Nodes();
      if prev == null {
        table[h] := entry;
        FirstLinked(entry);
        assert l + [entry] == [entry];
      } else {
        LinkLast(prev, entry, table[h], l);
      }
      NodesGrow(chains, h, entry);
      SetChain(h, l + [entry], m');
    }

    lemma OthersShow(h: nat, key: nat, m': map<nat, V>)
      requires Valid() && h == Hash(key, table.Length)
      requires forall k :: k != key ==> (k in m <==> k in m') && (k in m ==> m'[k] == m[k])
      ensures forall c :: 0 <= c < |chains| && c != h ==> BucketFits(c, chains[c], m')
    {
      hide Hash, Linked, Keys, Shows, HasKey;
      forall c | 0 <= c < |chains| && c != h ensures BucketFits(c, chains[c], m') {
        assert BucketOk(c);
        ShowsOther(chains[c], m, c, table.Length, key, m');
      }
    }

    /** `Put`: the value is replaced, or a new node is appended to the bucket. */
    method Put(key: nat, value: V)
      requires Valid()
      modifies this, table, Nodes()
      ensures Valid() && m == old(m)[key := value] && fresh(Nodes() - old(Nodes())) && freed == old(freed)
    {
      hide Hash, Linked, Keys, Shows, HasKey;
      var h := Hash(key, table.Length);
      assert BucketOk(h);
      var prev, entry, i := Scan(table[h], key, chains[h]);
      if entry == null {
        entry := new Node(key, value);
        Add(prev, entry, h);
        NodesGrow(old(chains), h, entry);
      } else {
        SetValue(entry, value, h, i);
      }
    }

    /** `Remove`: the node of the key leaves its bucket and is deleted; a key that is absent changes nothing. */
    method Remove(key: nat)
      requires Valid()
      modifies this, table, Nodes()
      ensures Valid() && m == old(m) - {key}
      ensures Nodes() + freed == old(Nodes() + freed) && (key !in old(m) ==> freed == old(freed))
      ensures key in old(m) ==> exists x :: x in old(Nodes()) && x.key == key && freed == old(freed) + {x}
    {
      hide Hash, Linked, Keys, Shows, HasKey;
      var h := Hash(key, table.Length);
      assert BucketOk(h);
      var prev, entry, i := Scan(table[h], key, chains[h]);
      if entry == null {
        AbsentKey(chains[h], m, h, table.Length, key);
        assert m - {key} == m;
      } else {
        PresentKey(chains[h], m, h, table.Length, i);
        assert entry in Nodes();
        Delete(prev, entry, h, i);
      }
    }

    method Delete(prev: Node?<V>, entry: Node<V>, h: nat, ghost i: nat)
      requires Valid() && h == Hash(entry.key, table.Length) && i < |chains[h]| && entry == chains[h][i]
      requires prev == After(chains[h], i - 2) && (prev == null <==> i == 0)
      modifies this, table, Nodes()`next
      ensures Valid() && m == old(m) - {entry.key} && Nodes() == old(Nodes()) - {entry} && freed == old(freed) + {entry}
    {
      hide Hash, Linked, Keys, Shows, HasKey;
      ghost var n, l, key := table.Length, chains[h], entry.key;
      Others(h);
      assert BucketOk(h);
      KeyRemoved(l, i, h, n);
      KeysOnce(l, h, n);
      ghost var m' := m - {key};
      ShowsRemove(l, m, h, n, i, m');
      OthersShow(h, key, m');
      assert forall x :: x in l ==> x in Nodes();
      if prev == null {
        TailLinked(l, table[h]);
        table[h] := entry.next;
      } else {
        HeadOf(l, table[h]);
        UnlinkAt(prev, entry, table[h], l, i);
      }
      NodesShrink(chains, h, i);
      assert forall c :: 0 <= c < |chains| && c != h ==> entry !in chains[c];
      SetChain(h, Without(l, i), m');
      FreeNode(entry);
    }

    /** A bucket before the destructor comes to it. */
    lemma BucketWhole(i: nat)
      requires Valid() && i < |chains|
      ensures Linked(chains[i], table[i]) && Distinct(chains[i])
      ensures forall x :: x in chains[i] ==> x !in freed + NodesOf(chains[..i])
    {
      assert BucketOk(i);
      KeysOnce(chains[i], i, table.Length);
      Others(i);
      assert forall x :: x in chains[i] ==> x in Nodes();
    }

    /** The destructor: every node is deleted once, and no other. */
    method Destroy()
      requires Valid()
      modifies this, table
      ensures Valid() && m == map[] && Nodes() == {} && freed == old(freed) + old(Nodes())
    {
      hide Hash, Linked, Keys, Shows, HasKey, Distinct, NodesOf;
      ghost var n := table.Length;
      NoneBelow(chains);
      forall c: nat | c < n ensures Linked(chains[c], table[c]) && Distinct(chains[c])
        && forall x :: x in chains[c] ==> x !in freed + NodesOf(chains[..c])
      {
        BucketWhole(c);
      }
      for i := 0 to table.Length
        invariant chains == old(chains) && m == old(m) && freed == old(freed) + NodesOf(chains[..i])
        invariant forall c :: 0 <= c < i ==> table[c] == null
        invariant forall c :: i <= c < n ==> table[c] == old(table[c])
        invariant forall c: nat :: i <= c < n ==> Linked(chains[c], table[c])
      {
        FreeChain(table[i], chains[i]);
        table[i] := null;
        NodesBelow(chains, i);
      }
      assert chains[..n] == chains;
      chains, m := seq(n, _ => []), map[];
      NoNodes(chains);
      forall b | 0 <= b < n ensures BucketOk(b) {
        EmptyBucket<V>(b, n);
      }
    }

    /** Walks down bucket `i`, deleting each node when its successor has been read. */
    method FreeChain(head: Node?<V>, ghost l: seq<Node<V>>)
      requires Linked(l, head) && Distinct(l) && forall x :: x in l ==> x !in freed
      modifies `freed
      ensures freed == old(freed) + (set x | x in l)
    {
      var entry := head;
      ghost var k := 0;
      while entry != null
        invariant k <= |l| && entry == After(l, k - 1) && freed == old(freed) + (set x | x in l[..k])
        decreases |l| - k
      {
        var prev := entry;
        entry := entry.next;
        assert prev !in l[..k];
        assert l[..k + 1] == l[..k] + [prev];
        FreeNode(prev);
        k := k + 1;
      }
      assert l[..k] == l;
    }
  }
}
