/**
 * The boot memory map (source/kernel/multiboot.cc): the available entries are collected, sorted by
 * address in place, and the pages between them are reserved.
 */
module BootMemory {
  import opened Lists
  import opened Words

  const PAGE: nat := 4096

  datatype Entry = Entry(addr: uint64, len: uint64, available: bool) {
    function End(): nat { addr + len }
  }

  datatype Range = Range(start: nat, len: nat)

  function RoundDown(addr: nat): nat {
    addr / PAGE * PAGE
  }

  function RoundUp(addr: nat): nat {
    RoundDown((addr + PAGE - 1) % WORD64)
  }

  /** `p` is the address of a page. */
  predicate IsPage(p: nat) {
    p % PAGE == 0
  }

  lemma Down(a: nat, p: nat)
    ensures RoundDown(a) % 4096 == 0 && RoundDown(a) <= a < RoundDown(a) + 4096
    ensures p % 4096 == 0 ==> (p <= a <==> p <= RoundDown(a)) && (p + 4096 <= a <==> p < RoundDown(a))
  {
  }

  lemma Up(a: uint64)
    ensures RoundUp(a) == if a + 4096 <= WORD64 then RoundDown(a + 4095) else 0
  {
    var b := (a + 4095) % WORD64;
    assert b == if a + 4096 <= WORD64 then a + 4095 else a + 4095 - WORD64;
    hide RoundDown;
    Down(b, 0);
  }

  /**
   * Rounding down goes to the next page boundary below. Rounding up goes to the next one above if and only if
   * the address does not lie behind the start of the last page; there it wraps to zero.
   */
  lemma Rounding(a: uint64, p: nat)
    ensures RoundDown(a) % 4096 == 0 && RoundUp(a) % 4096 == 0 && RoundDown(a) <= a
    ensures p % 4096 == 0 ==> (p <= a <==> p <= RoundDown(a)) && (p + 4096 <= a <==> p < RoundDown(a))
    ensures a <= RoundUp(a) <==> a + 4096 <= WORD64
    ensures a + 4096 <= WORD64 && p % 4096 == 0 ==> (a <= p <==> RoundUp(a) <= p)
    ensures a + 4096 > WORD64 ==> RoundUp(a) == 0
  {
    hide RoundDown, RoundUp;
    Down(a, p);
    Up(a);
    Down(a + 4095, p);
  }

  // ---------------------------------------------------------------------------------------------
  // Collecting and sorting
  // ---------------------------------------------------------------------------------------------

  function Available(mmap: seq<Entry>): (r: seq<Entry>)
    ensures |r| <= |mmap|
    ensures forall e :: e in r <==> e in mmap && e.available
    decreases |mmap|
  {
    if mmap == [] then [] else
      assert mmap == [mmap[0]] + mmap[1..];
      (if mmap[0].available then [mmap[0]] else []) + Available(mmap[1..])
  }

  lemma {:induction false} AvailableAppend(s: seq<Entry>, e: Entry)
    ensures Available(s + [e]) == Available(s) + if e.available then [e] else []
    decreases |s|
  {
    if s == [] {
      assert s + [e] == [e];
      assert Available([e][1..]) == [];
    } else {
      assert (s + [e])[1..] == s[1..] + [e];
      AvailableAppend(s[1..], e);
    }
  }

  lemma {:induction false} AvailablePrefix(s: seq<Entry>, i: nat)
    requires i <= |s|
    ensures Available(s[..i]) <= Available(s)
    decreases |s| - i
  {
    if i == |s| {
      assert s[..i] == s;
    } else {
      AvailablePrefix(s, i + 1);
      assert s[..i + 1] == s[..i] + [s[i]];
      AvailableAppend(s[..i], s[i]);
    }
  }

  /** The counting loop. */
  method CountAvailable(mmap: seq<Entry>) returns (n: nat)
    ensures n == |Available(mmap)|
  {
    hide Available;
    assert mmap[..0] == [] && Available([]) == [] by { NoneAvailable(); }
    n := 0;
    for i := 0 to |mmap|
      invariant n == |Available(mmap[..i])|
    {
      assert mmap[..i + 1] == mmap[..i] + [mmap[i]];
      AvailableAppend(mmap[..i], mmap[i]);
      if mmap[i].available {
        n := n + 1;
      }
    }
    assert mmap[..|mmap|] == mmap;
  }

  lemma NoneAvailable()
    ensures Available([]) == []
  {
  }

  /** The two loops that count and copy the available entries. */
  method Collect(mmap: seq<Entry>) returns (entries: array<Entry>)
    ensures fresh(entries) && entries[..] == Available(mmap)
  {
    hide Available;
    assert mmap[..0] == [] && Available([]) == [] by { NoneAvailable(); }
    var availableEntryNum := CountAvailable(mmap);
    entries := new Entry[availableEntryNum](_ => Entry(0, 0, true));
    var cnt := 0;
    for i := 0 to |mmap|
      invariant cnt == |Available(mmap[..i])| <= entries.Length && entries[..cnt] == Available(mmap[..i])
    {
      assert mmap[..i + 1] == mmap[..i] + [mmap[i]];
      AvailableAppend(mmap[..i], mmap[i]);
      AvailablePrefix(mmap, i + 1);
      if mmap[i].available {
        entries[cnt] := mmap[i];
        cnt := cnt + 1;
      }
    }
    assert mmap[..|mmap|] == mmap;
  }

  ghost predicate Sorted(s: seq<Entry>) {
    forall i, j :: 0 <= i < j < |s| ==> s[i].addr <= s[j].addr
  }

  /** The entries from `k` on are in order and none before is above them. */
  ghost predicate TailSorted(s: seq<Entry>, k: int) {
    forall i, j :: 0 <= i < j < |s| && k <= j ==> s[i].addr <= s[j].addr
  }

  /** No entry before `j` is above the one at `j`. */
  ghost predicate TopAt(s: seq<Entry>, j: nat) {
    j < |s| && forall i :: 0 <= i < j ==> s[i].addr <= s[j].addr
  }

  ghost function Swapped(s: seq<Entry>, j: nat): seq<Entry>
    requires j + 1 < |s|
  {
    s[j := s[j + 1]][j + 1 := s[j]]
  }

  /** The entries of `s` that start at `a`, in their order. */
  function At(s: seq<Entry>, a: nat): seq<Entry> {
    if s == [] then [] else At(s[..|s| - 1], a) + if s[|s| - 1].addr == a then [s[|s| - 1]] else []
  }

  lemma {:induction false} AtConcat(s: seq<Entry>, t: seq<Entry>, a: nat)
    ensures At(s + t, a) == At(s, a) + At(t, a)
    decreases |t|
  {
    if t == [] {
      assert s + t == s;
    } else {
      assert (s + t)[..|s + t| - 1] == s + t[..|t| - 1];
      AtConcat(s, t[..|t| - 1], a);
    }
  }

  lemma AtPair(e: Entry, f: Entry, a: nat)
    requires e.addr != f.addr
    ensures At([e, f], a) == At([f, e], a)
  {
    assert [e, f][..1] == [e] && [f, e][..1] == [f] && [e][..0] == [] && [f][..0] == [];
  }

  lemma SwapKeepsOrder(s: seq<Entry>, j: nat, a: nat)
    requires j + 1 < |s| && s[j + 1].addr < s[j].addr
    ensures At(Swapped(s, j), a) == At(s, a)
  {
    hide At;
    var pre, post := s[..j], s[j + 2..];
    assert s == pre + ([s[j], s[j + 1]] + post);
    assert Swapped(s, j) == pre + ([s[j + 1], s[j]] + post);
    AtConcat(pre, [s[j], s[j + 1]] + post, a);
    AtConcat(pre, [s[j + 1], s[j]] + post, a);
    AtConcat([s[j], s[j + 1]], post, a);
    AtConcat([s[j + 1], s[j]], post, a);
    AtPair(s[j], s[j + 1], a);
  }

  ghost predicate Apart(e: Entry, f: Entry) {
    e.End() <= f.addr || f.End() <= e.addr
  }

  /** `e`, listed before `f`, does not overlap it, and is empty if both start at the same address. */
  ghost predicate Fits(e: Entry, f: Entry) {
    Apart(e, f) && (e.addr == f.addr ==> e.len == 0)
  }

  ghost predicate AllFit(s: seq<Entry>) {
    forall i, j :: 0 <= i < j < |s| ==> Fits(s[i], s[j])
  }

  /** For two entries that start at different addresses it does not matter which is listed first. */
  lemma FitsBothWays(e: Entry, f: Entry)
    requires e.addr != f.addr
    ensures Fits(e, f) <==> Fits(f, e)
  {
  }

  lemma SwapBack(s: seq<Entry>, j: nat)
    requires j + 1 < |s|
    ensures Swapped(Swapped(s, j), j) == s
  {
  }

  lemma SwapFits(s: seq<Entry>, j: nat)
    requires j + 1 < |s| && s[j + 1].addr != s[j].addr && AllFit(s)
    ensures AllFit(Swapped(s, j))
  {
    hide Fits;
    var t := Swapped(s, j);
    FitsBothWays(s[j], s[j + 1]);
    forall a, b | 0 <= a < b < |t| ensures Fits(t[a], t[b]) {
      var a' := if a == j then j + 1 else if a == j + 1 then j else a;
      var b' := if b == j then j + 1 else if b == j + 1 then j else b;
      assert t[a] == s[a'] && t[b] == s[b'];
    }
  }

  /** The first page that lies behind the start of an entry, and the end of the last one before its end. */
  function PageStart(e: Entry): nat {
    RoundUp(e.addr)
  }

  function PageEnd(e: Entry): nat {
    RoundDown(e.End())
  }

  /** The pages of `e` end before those of `f` start, and if there are any, not behind the end of those of `f`. */
  ghost predicate PagesFit(e: Entry, f: Entry) {
    PageEnd(e) <= PageStart(f) && (PageStart(e) < PageEnd(e) ==> PageEnd(e) <= PageEnd(f))
  }

  /** The same for `e`, listed before `f`, and `f`, by their addresses. */
  ghost predicate Suits(e: Entry, f: Entry) {
    if e.addr <= f.addr then PagesFit(e, f) else PagesFit(f, e)
  }

  ghost predicate AllSuit(s: seq<Entry>) {
    forall i, j :: 0 <= i < j < |s| ==> Suits(s[i], s[j])
  }

  lemma SwapSuits(s: seq<Entry>, j: nat)
    requires j + 1 < |s| && s[j + 1].addr != s[j].addr && AllSuit(s)
    ensures AllSuit(Swapped(s, j))
  {
    var t := Swapped(s, j);
    assert Suits(s[j + 1], s[j]) by { assert Suits(s[j], s[j + 1]); }
    hide Suits;
    forall a, b | 0 <= a < b < |t| ensures Suits(t[a], t[b]) {
      var a' := if a == j then j + 1 else if a == j + 1 then j else a;
      var b' := if b == j then j + 1 else if b == j + 1 then j else b;
      assert t[a] == s[a'] && t[b] == s[b'];
    }
  }

  /** The same entries, those with equal addresses in the same order, and it does not matter for their fit. */
  ghost predicate Rearranged(s: seq<Entry>, t: seq<Entry>) {
    && multiset(s) == multiset(t)
    && (forall a: nat :: At(s, a) == At(t, a))
    && (AllFit(s) <==> AllFit(t))
    && (AllSuit(s) <==> AllSuit(t))
  }

  lemma SwapStep(s: seq<Entry>, j: nat, n: nat)
    requires j + 1 < n <= |s| && TopAt(s, j) && TailSorted(s, n) && s[j + 1].addr < s[j].addr
    ensures TopAt(Swapped(s, j), j + 1) && TailSorted(Swapped(s, j), n)
  {
  }

  lemma SwapRearranges(s: seq<Entry>, j: nat)
    requires j + 1 < |s| && s[j + 1].addr < s[j].addr
    ensures Rearranged(s, Swapped(s, j))
  {
    hide AllFit, AllSuit, At;
    forall a: nat ensures At(s, a) == At(Swapped(s, j), a) {
      SwapKeepsOrder(s, j, a);
    }
    SwapBack(s, j);
    if AllFit(s) { SwapFits(s, j); }
    if AllFit(Swapped(s, j)) { SwapFits(Swapped(s, j), j); }
    if AllSuit(s) { SwapSuits(s, j); }
    if AllSuit(Swapped(s, j)) { SwapSuits(Swapped(s, j), j); }
  }

  lemma RearrangedOn(s: seq<Entry>, t: seq<Entry>, u: seq<Entry>)
    requires Rearranged(s, t) && Rearranged(t, u)
    ensures Rearranged(s, u)
  {
  }

  method Swap(entries: array<Entry>, j: nat)
    requires j + 1 < entries.Length
    modifies entries
    ensures entries[..] == Swapped(old(entries[..]), j)
  {
    var tmp := entries[j + 1];
    entries[j + 1] := entries[j];
    entries[j] := tmp;
  }

  lemma TopEnds(s: seq<Entry>, n: nat)
    requires 0 < n <= |s| && TopAt(s, n - 1) && TailSorted(s, n)
    ensures TailSorted(s, n - 1)
  {
  }

  /** One pass of the inner loop: the largest of the first `n` entries goes to their end. */
  method Bubble(entries: array<Entry>, n: nat)
    requires 0 < n <= entries.Length && TailSorted(entries[..], n)
    modifies entries
    ensures TailSorted(entries[..], n - 1) && Rearranged(old(entries[..]), entries[..])
  {
    hide TailSorted, Swapped, Rearranged;
    var j := 0;
    SameRearranged(entries[..]);
    while j < n - 1
      invariant 0 <= j <= n - 1 && TailSorted(entries[..], n) && TopAt(entries[..], j)
      invariant Rearranged(old(entries[..]), entries[..])
    {
      if entries[j + 1].addr < entries[j].addr {
        SwapStep(entries[..], j, n);
        SwapRearranges(entries[..], j);
        RearrangedOn(old(entries[..]), entries[..], Swapped(entries[..], j));
        Swap(entries, j);
      }
      j := j + 1;
    }
    TopEnds(entries[..], n);
  }

  lemma SameRearranged(s: seq<Entry>)
    ensures Rearranged(s, s)
  {
  }

  /** The bubble sort: stable, as it swaps strictly descending neighbours only. */
  method Sort(entries: array<Entry>)
    modifies entries
    ensures Sorted(entries[..]) && Rearranged(old(entries[..]), entries[..])
  {
    hide Rearranged;
    SameRearranged(entries[..]);
    var i := 0;
    while i < entries.Length - 1
      invariant 0 <= i && (i <= entries.Length - 1 || entries.Length == 0)
      invariant TailSorted(entries[..], entries.Length - i)
      invariant Rearranged(old(entries[..]), entries[..])
    {
      ghost var was := entries[..];
      Bubble(entries, entries.Length - i);
      RearrangedOn(old(entries[..]), was, entries[..]);
      i := i + 1;
    }
  }

  // ---------------------------------------------------------------------------------------------
  // Reserving what lies between
  // ---------------------------------------------------------------------------------------------

  /** Rounding up the end of an entry does not wrap. */
  ghost predicate Below(s: seq<Entry>) {
    forall i :: 0 <= i < |s| ==> s[i].End() + PAGE <= WORD64
  }

  /** Each entry ends where the next one starts, or before. */
  ghost predicate Packed(s: seq<Entry>) {
    Below(s) && forall i, j :: 0 <= i < j < |s| ==> s[i].End() <= s[j].addr
  }

  lemma BelowMembers(s: seq<Entry>, t: seq<Entry>)
    requires multiset(s) == multiset(t) && Below(s)
    ensures Below(t)
  {
    forall i | 0 <= i < |t| ensures t[i].End() + PAGE <= WORD64 {
      assert t[i] in multiset(s);
    }
  }

  /**
   * Sorting `s` gives packed entries if and only if no two of them overlap and, of those that start at the
   * same address, all but the last listed are empty.
   */
  lemma PackedExact(s: seq<Entry>, sorted: seq<Entry>)
    requires Rearranged(s, sorted) && Sorted(sorted)
    ensures Packed(sorted) <==> Below(s) && AllFit(s)
  {
    hide At;
    if Below(s) {
      BelowMembers(s, sorted);
    }
    if Below(sorted) {
      BelowMembers(sorted, s);
    }
    SortedFits(sorted);
  }

  lemma SortedFits(s: seq<Entry>)
    requires Sorted(s)
    ensures AllFit(s) <==> forall i, j :: 0 <= i < j < |s| ==> s[i].End() <= s[j].addr
  {
    if AllFit(s) {
      forall i, j | 0 <= i < j < |s| ensures s[i].End() <= s[j].addr {
        assert Fits(s[i], s[j]);
      }
    }
  }

  /** The pages of the entries come one after the other. */
  ghost predicate Paged(s: seq<Entry>) {
    Below(s) && forall i, j :: 0 <= i < j < |s| ==> PagesFit(s[i], s[j])
  }

  /** Sorting gives this if and only if it holds of the listed entries by their addresses. */
  lemma PagedExact(s: seq<Entry>, sorted: seq<Entry>)
    requires Rearranged(s, sorted) && Sorted(sorted)
    ensures Paged(sorted) <==> Below(s) && AllSuit(s)
  {
    hide At, PagesFit;
    if Below(s) {
      BelowMembers(s, sorted);
    }
    if Below(sorted) {
      BelowMembers(sorted, s);
    }
    SortedSuits(sorted);
  }

  lemma SortedSuits(s: seq<Entry>)
    requires Sorted(s)
    ensures AllSuit(s) <==> forall i, j :: 0 <= i < j < |s| ==> PagesFit(s[i], s[j])
  {
    hide PagesFit;
    if AllSuit(s) {
      forall i, j | 0 <= i < j < |s| ensures PagesFit(s[i], s[j]) {
        assert Suits(s[i], s[j]);
      }
    }
  }

  lemma PackedIsPaged(s: seq<Entry>)
    requires Packed(s)
    ensures Paged(s)
  {
    forall i, j | 0 <= i < j < |s| ensures PagesFit(s[i], s[j]) {
      hide RoundUp, RoundDown;
      var e, f := s[i], s[j];
      Rounding(e.End(), PageStart(f));
      Rounding(f.addr, PageEnd(e));
      Rounding(f.End(), PageEnd(e));
    }
  }

  /** A page lies wholly in an entry if it is one of its pages. */
  lemma InsidePages(e: Entry, p: nat)
    requires IsPage(p) && e.End() + PAGE <= WORD64
    ensures Inside(e, p) <==> PageStart(e) <= p < PageEnd(e)
  {
    hide RoundUp, RoundDown;
    Rounding(e.addr, p);
    Rounding(e.End(), p);
  }

  lemma StartsUp(e: Entry, f: Entry)
    requires e.addr <= f.addr && f.End() + PAGE <= WORD64
    ensures PageStart(e) <= PageStart(f)
  {
    hide RoundUp;
    Rounding(f.addr, 0);
    Rounding(e.addr, PageStart(f));
  }

  ghost predicate Inside(e: Entry, p: nat) {
    e.addr <= p && p + PAGE <= e.End()
  }

  /** The page at `p` lies wholly in one of the entries. */
  ghost predicate InsideSome(s: seq<Entry>, p: nat) {
    exists i :: 0 <= i < |s| && Inside(s[i], p)
  }

  ghost predicate Overlaps(r: Range, p: nat) {
    r.start < p + PAGE && p < r.start + r.len
  }

  /** Some reservation covers a part of the page at `p`. */
  ghost predicate IsReserved(reserved: seq<Range>, p: nat) {
    exists i :: 0 <= i < |reserved| && Overlaps(reserved[i], p)
  }

  /** Before entry `i` is visited, the pages below `cur` are settled. */
  ghost predicate Settled(s: seq<Entry>, i: nat, cur: nat, reserved: seq<Range>) {
    && i <= |s| && IsPage(cur) && cur == (if i == 0 then 0 else RoundDown(s[i - 1].End()))
    && (forall p: nat :: IsPage(p) && p < cur ==> (IsReserved(reserved, p) <==> !InsideSome(s, p)))
    && forall k :: 0 <= k < |reserved| ==>
         reserved[k].start + reserved[k].len <= if i == 0 then 0 else RoundUp(s[i - 1].addr)
  }

  lemma CurBelowStart(s: seq<Entry>, i: nat, cur: nat, reserved: seq<Range>)
    requires Paged(s) && Sorted(s) && i < |s| && Settled(s, i, cur, reserved)
    ensures cur <= RoundUp(s[i].addr) && RoundUp(s[i].addr) < WORD64
    ensures forall k :: 0 <= k < |reserved| ==> reserved[k].start + reserved[k].len <= RoundUp(s[i].addr)
  {
    Rounding(s[i].addr, 0);
    if i > 0 {
      assert PagesFit(s[i - 1], s[i]);
      StartsUp(s[i - 1], s[i]);
    }
  }

  /** A page in the gap before entry `i` lies in no entry. */
  lemma InGap(s: seq<Entry>, i: nat, cur: nat, p: nat)
    requires Paged(s) && Sorted(s) && i < |s| && cur == (if i == 0 then 0 else RoundDown(s[i - 1].End()))
    requires IsPage(p) && cur <= p < RoundUp(s[i].addr)
    ensures !InsideSome(s, p)
  {
    hide RoundUp, RoundDown, Inside;
    forall j | 0 <= j < |s| ensures !Inside(s[j], p) {
      InsidePages(s[j], p);
      if j >= i {
        StartsUp(s[i], s[j]);
      } else if j < i - 1 {
        assert PagesFit(s[j], s[i - 1]);
      }
    }
  }

  lemma NoOverlapBelow(r: Range, p: nat)
    requires IsPage(p) && IsPage(r.start) && p < r.start
    ensures !Overlaps(r, p)
  {
  }

  /** What one entry settles about the page at `p`. */
  lemma SettlePage(s: seq<Entry>, i: nat, cur: nat, reserved: seq<Range>, reserved': seq<Range>, p: nat)
    requires Paged(s) && Sorted(s) && i < |s| && Settled(s, i, cur, reserved) && IsPage(p) && p < RoundDown(s[i].End())
    requires cur <= RoundUp(s[i].addr)
    requires var start := RoundUp(s[i].addr);
             reserved' == if cur != start then reserved + [Range(cur, start - cur)] else reserved
    ensures IsReserved(reserved', p) <==> !InsideSome(s, p)
  {
    var start := RoundUp(s[i].addr);
    CurBelowStart(s, i, cur, reserved);
    Rounding(s[i].addr, p);
    Rounding(s[i].End(), p);
    if p < cur {
      forall k | 0 <= k < |reserved'| && Overlaps(reserved'[k], p) ensures IsReserved(reserved, p) {
        if k < |reserved| {
          assert Overlaps(reserved[k], p);
        } else {
          NoOverlapBelow(reserved'[k], p);
          assert false;
        }
      }
      forall k | 0 <= k < |reserved| && Overlaps(reserved[k], p) ensures IsReserved(reserved', p) {
        assert reserved'[k] == reserved[k];
      }
    } else if p < start {
      InGap(s, i, cur, p);
      assert Overlaps(reserved'[|reserved|], p);
    } else {
      assert Inside(s[i], p);
      assert forall k :: 0 <= k < |reserved'| ==> reserved'[k].start + reserved'[k].len <= start;
    }
  }

  /** Where the loop stands before entry `i`. */
  function Cur(s: seq<Entry>, i: nat): (cur: uint64)
    requires i <= |s|
    ensures IsPage(cur)
  {
    if i == 0 then 0 else
      Rounding(s[i - 1].End() % WORD64, 0);
      RoundDown(s[i - 1].End() % WORD64)
  }

  /** What the turn for entry `i` reserves; the length is computed in 64 bits. */
  function Gap(s: seq<Entry>, i: nat): seq<Range>
    requires i < |s|
  {
    var start := RoundUp(s[i].addr);
    if Cur(s, i) == start then [] else [Range(Cur(s, i), (start - Cur(s, i)) % WORD64)]
  }

  function Gaps(s: seq<Entry>, i: nat): seq<Range>
    requires i <= |s|
  {
    if i == 0 then [] else Gaps(s, i - 1) + Gap(s, i - 1)
  }

  /** The reserving loop. */
  method ReserveGaps(entries: array<Entry>) returns (end: uint64, reserved: seq<Range>)
    requires entries.Length > 0
    ensures end == entries[entries.Length - 1].End() % WORD64 && reserved == Gaps(entries[..], entries.Length)
  {
    end := (entries[entries.Length - 1].addr + entries[entries.Length - 1].len) % WORD64;
    reserved := [];
    var cur, i := 0, 0;
    while i < entries.Length
      invariant 0 <= i <= entries.Length && cur == Cur(entries[..], i) && reserved == Gaps(entries[..], i)
    {
      var start := RoundUp(entries[i].addr);
      if cur != start {
        reserved := reserved + [Range(cur, (start - cur) % WORD64)];
      }
      cur := RoundDown((entries[i].addr + entries[i].len) % WORD64);
      i := i + 1;
    }
  }

  /** The reservation runs past the end of the address space. */
  predicate Wraps(r: Range) {
    r.start + r.len >= WORD64
  }

  lemma GapWraps(s: seq<Entry>, i: nat)
    requires i < |s|
    ensures (exists r :: r in Gap(s, i) && Wraps(r)) <==> RoundUp(s[i].addr) < Cur(s, i)
  {
    var start, cur := RoundUp(s[i].addr), Cur(s, i);
    Rounding(s[i].addr, 0);
    assert start < WORD64;
    if cur != start {
      assert Range(cur, (start - cur) % WORD64) in Gap(s, i);
    }
  }

  /** Some reservation wraps if and only if some entry starts, rounded up, below the rounded end of the one before. */
  lemma {:induction false} GapsWrap(s: seq<Entry>, i: nat)
    requires i <= |s|
    ensures (exists r :: r in Gaps(s, i) && Wraps(r)) <==> exists k :: 0 <= k < i && RoundUp(s[k].addr) < Cur(s, k)
  {
    hide Wraps, Gap, Cur, RoundUp;
    if i > 0 {
      GapsWrap(s, i - 1);
      GapWraps(s, i - 1);
      assert forall r :: r in Gaps(s, i) <==> r in Gaps(s, i - 1) || r in Gap(s, i - 1);
    }
  }

  ghost predicate WholePages(s: seq<Entry>) {
    forall i :: 0 <= i < |s| ==> IsPage(s[i].addr) && IsPage(s[i].len)
  }

  /**
   * Of sorted entries no reservation wraps if and only if the pages of each end before those of the later ones
   * start; for entries made of whole pages that is: if and only if they are packed.
   */
  lemma WrapExact(s: seq<Entry>)
    requires Sorted(s) && Below(s)
    ensures (forall r :: r in Gaps(s, |s|) ==> !Wraps(r)) <==>
            forall i, j :: 0 <= i < j < |s| ==> PageEnd(s[i]) <= PageStart(s[j])
    ensures WholePages(s) ==> ((forall r :: r in Gaps(s, |s|) ==> !Wraps(r)) <==> Packed(s))
  {
    hide Gaps, Wraps, Cur, PageStart, PageEnd, RoundUp, Packed;
    GapsWrap(s, |s|);
    WrapPairs(s);
    if WholePages(s) {
      WholeWrap(s);
    }
  }

  lemma CurIs(s: seq<Entry>, k: nat)
    requires Below(s) && k < |s|
    ensures RoundUp(s[k].addr) == PageStart(s[k]) && Cur(s, k) == if k == 0 then 0 else PageEnd(s[k - 1])
  {
    hide RoundUp, RoundDown;
  }

  lemma WrapPairs(s: seq<Entry>)
    requires Sorted(s) && Below(s)
    ensures (exists k :: 0 <= k < |s| && RoundUp(s[k].addr) < Cur(s, k)) <==>
            exists i, j :: 0 <= i < j < |s| && PageEnd(s[i]) > PageStart(s[j])
  {
    hide Cur, PageStart, PageEnd, RoundUp;
    if k :| 0 <= k < |s| && RoundUp(s[k].addr) < Cur(s, k) {
      CurIs(s, k);
      assert k > 0 && PageEnd(s[k - 1]) > PageStart(s[k]);
    }
    if i, j :| 0 <= i < j < |s| && PageEnd(s[i]) > PageStart(s[j]) {
      StartsUp(s[i + 1], s[j]);
      CurIs(s, i + 1);
      assert RoundUp(s[i + 1].addr) < Cur(s, i + 1);
    }
  }

  lemma WholeWrap(s: seq<Entry>)
    requires Below(s) && WholePages(s)
    ensures Packed(s) <==> forall i, j :: 0 <= i < j < |s| ==> PageEnd(s[i]) <= PageStart(s[j])
  {
    hide RoundUp, RoundDown;
    forall i | 0 <= i < |s| ensures PageEnd(s[i]) == s[i].End() && PageStart(s[i]) == s[i].addr {
      Rounding(s[i].addr, s[i].addr);
      Rounding(s[i].End(), s[i].End());
    }
  }

  /**
   * An entry of four pages and an empty one at its address. Listed in this order, the empty one comes behind,
   * and the reservation before it is as long as the address space but for the four pages; listed the other
   * way round, only the first page is reserved.
   */
  lemma EmptyEntryBehind()
    ensures var a, b := Entry(0x1000, 0x4000, true), Entry(0x1000, 0, true);
            && Sorted([a, b]) && Apart(a, b) && !Packed([a, b]) && Packed([b, a])
            && Gaps([a, b], 2) == [Range(0, 0x1000), Range(0x5000, WORD64 - 0x4000)]
            && Gaps([b, a], 2) == [Range(0, 0x1000)]
  {
    var a, b := Entry(0x1000, 0x4000, true), Entry(0x1000, 0, true);
    var s, t := [a, b], [b, a];
    assert s[0].End() > s[1].addr;
    FirstGap(s);
    FirstGap(t);
    SecondGap(s);
    SecondGap(t);
    assert (0x1000 - 0x5000) % WORD64 == WORD64 - 0x4000;
  }

  lemma {:induction false} FirstGap(s: seq<Entry>)
    requires |s| > 0 && s[0].addr == 0x1000
    ensures Gaps(s, 1) == [Range(0, 0x1000)]
  {
    assert Gap(s, 0) == [Range(0, 0x1000)];
  }

  lemma {:induction false} SecondGap(s: seq<Entry>)
    requires |s| > 1 && s[1].addr == 0x1000 && s[0].End() in {0x1000, 0x5000}
    ensures var cur := s[0].End();
            Gaps(s, 2) == Gaps(s, 1) + if cur == 0x1000 then [] else [Range(cur, (0x1000 - cur) % WORD64)]
  {
    assert Cur(s, 1) == s[0].End() && RoundUp(s[1].addr) == 0x1000;
  }

  lemma StartSettled(s: seq<Entry>)
    ensures Settled(s, 0, Cur(s, 0), Gaps(s, 0))
  {
  }

  lemma SettleEntry(s: seq<Entry>, i: nat, cur: nat, reserved: seq<Range>)
    requires Paged(s) && Sorted(s) && i < |s| && Settled(s, i, cur, reserved)
    ensures cur <= RoundUp(s[i].addr) && IsPage(cur) && IsPage(RoundUp(s[i].addr))
    ensures var start := RoundUp(s[i].addr);
            Settled(s, i + 1, RoundDown(s[i].End()),
                    if cur != start then reserved + [Range(cur, start - cur)] else reserved)
  {
    hide IsReserved, InsideSome;
    var start := RoundUp(s[i].addr);
    CurBelowStart(s, i, cur, reserved);
    var reserved' := if cur != start then reserved + [Range(cur, start - cur)] else reserved;
    Rounding(s[i].End(), 0);
    Rounding(s[i].addr, 0);
    forall p: nat | IsPage(p) && p < RoundDown(s[i].End()) ensures IsReserved(reserved', p) <==> !InsideSome(s, p) {
      SettlePage(s, i, cur, reserved, reserved', p);
    }
  }

  lemma AllSettled(s: seq<Entry>, cur: nat, reserved: seq<Range>)
    requires |s| > 0 && Below(s) && Settled(s, |s|, cur, reserved)
    ensures forall p: nat :: IsPage(p) && p + PAGE <= s[|s| - 1].End() ==> (IsReserved(reserved, p) <==> !InsideSome(s, p))
  {
  }

  lemma {:induction false} GapsSettled(s: seq<Entry>, i: nat)
    requires Paged(s) && Sorted(s) && i <= |s|
    ensures Settled(s, i, Cur(s, i), Gaps(s, i))
    ensures forall r :: r in Gaps(s, i) ==> IsPage(r.start) && IsPage(r.start + r.len) && 0 < r.len && !Wraps(r)
  {
    hide Settled, Paged, Sorted, Gap, Cur, Wraps;
    if i == 0 {
      StartSettled(s);
    } else {
      GapsSettled(s, i - 1);
      TurnSettled(s, i - 1);
    }
  }

  lemma TurnSettled(s: seq<Entry>, i: nat)
    requires Paged(s) && Sorted(s) && i < |s| && Settled(s, i, Cur(s, i), Gaps(s, i))
    ensures Settled(s, i + 1, Cur(s, i + 1), Gaps(s, i + 1))
    ensures forall r :: r in Gap(s, i) ==> IsPage(r.start) && IsPage(r.start + r.len) && 0 < r.len && !Wraps(r)
  {
    hide Settled, RoundUp, RoundDown;
    CurBelowStart(s, i, Cur(s, i), Gaps(s, i));
    SettleEntry(s, i, Cur(s, i), Gaps(s, i));
    assert Cur(s, i + 1) == RoundDown(s[i].End());
    var cur, start := Cur(s, i), RoundUp(s[i].addr);
    assert Gap(s, i) == if cur != start then [Range(cur, start - cur)] else [];
    assert Gaps(s, i + 1) == if cur != start then Gaps(s, i) + [Range(cur, start - cur)] else Gaps(s, i);
  }

  /** The reservations are right: none wraps, and exactly the pages below `end` that lie wholly in an entry stay free. */
  ghost predicate Right(s: seq<Entry>, end: nat, reserved: seq<Range>) {
    && (forall r :: r in reserved ==> !Wraps(r))
    && (forall p: nat :: IsPage(p) && InsideSome(s, p) ==> p + PAGE <= end)
    && forall p: nat :: IsPage(p) && p + PAGE <= end ==> (IsReserved(reserved, p) <==> !InsideSome(s, p))
  }

  /** Below the end of the last entry a page is reserved iff it lies wholly in no entry; reservations are whole pages. */
  lemma GapsCorrect(s: seq<Entry>)
    requires Paged(s) && Sorted(s) && s != []
    ensures Right(s, Last(s).End(), Gaps(s, |s|))
    ensures forall r :: r in Gaps(s, |s|) ==> IsPage(r.start) && IsPage(r.start + r.len) && 0 < r.len && !Wraps(r)
  {
    hide Sorted, Gaps, Inside, IsReserved, RoundUp, RoundDown;
    GapsSettled(s, |s|);
    AllSettled(s, Cur(s, |s|), Gaps(s, |s|));
    forall p: nat | IsPage(p) && InsideSome(s, p) ensures p + PAGE <= Last(s).End() {
      var j :| 0 <= j < |s| && Inside(s[j], p);
      InsidePages(s[j], p);
      Rounding(Last(s).End(), p);
      assert j < |s| - 1 ==> PagesFit(s[j], Last(s));
    }
  }

  /** And they are only then. */
  lemma RightIsPaged(s: seq<Entry>)
    requires Sorted(s) && Below(s) && s != [] && Right(s, Last(s).End(), Gaps(s, |s|))
    ensures Paged(s)
  {
    hide Gaps, RoundUp, RoundDown, Right;
    RightNoWrap(s);
    WrapExact(s);
    forall j, k | 0 <= j < k < |s| ensures PagesFit(s[j], s[k]) {
      if PageStart(s[j]) < PageEnd(s[j]) && PageEnd(s[j]) > PageEnd(s[k]) {
        LostPage(s, j, k);
        assert false;
      }
    }
  }

  lemma RightNoWrap(s: seq<Entry>)
    requires s != [] && Right(s, Last(s).End(), Gaps(s, |s|))
    ensures forall r :: r in Gaps(s, |s|) ==> !Wraps(r)
  {
  }

  /** A page of entry `j` behind the end of the later entry `k` is reserved before the next one, or cut off at the end. */
  lemma LostPage(s: seq<Entry>, j: nat, k: nat)
    requires Sorted(s) && Below(s) && j < k < |s| && PageStart(s[j]) < PageEnd(s[j]) && PageEnd(s[j]) > PageEnd(s[k])
    requires forall a, b :: 0 <= a < b < |s| ==> PageEnd(s[a]) <= PageStart(s[b])
    ensures !Right(s, Last(s).End(), Gaps(s, |s|))
  {
    hide Gaps, RoundUp, RoundDown, Gap, Inside, IsReserved;
    var p := PageEnd(s[j]) - PAGE;
    Rounding(s[j].End(), 0);
    Rounding(s[j].addr, 0);
    Rounding(s[k].End(), 0);
    PageBefore(PageStart(s[j]), PageEnd(s[j]));
    PageBefore(PageEnd(s[k]), PageEnd(s[j]));
    InsidePages(s[j], p);
    assert InsideSome(s, p);
    if k + 1 < |s| {
      assert PageEnd(s[j]) <= PageStart(s[k + 1]);
      InGapReserved(s, k + 1, p);
    } else {
      Rounding(s[k].End(), PageEnd(s[j]));
    }
  }

  lemma PageBefore(a: nat, b: nat)
    requires IsPage(a) && IsPage(b) && a < b
    ensures a <= b - PAGE && IsPage(b - PAGE)
  {
  }

  lemma InGapReserved(s: seq<Entry>, i: nat, p: nat)
    requires Below(s) && 0 < i < |s| && PageEnd(s[i - 1]) <= p < PageStart(s[i])
    ensures IsReserved(Gaps(s, |s|), p)
  {
    hide Gaps, RoundUp, RoundDown;
    StartFits(s[i]);
    var start, cur := PageStart(s[i]), Cur(s, i);
    assert Range(cur, start - cur) in Gap(s, i);
    GapIsIn(s, i, |s|);
    var k :| 0 <= k < |Gaps(s, |s|)| && Gaps(s, |s|)[k] == Range(cur, start - cur);
    assert Overlaps(Gaps(s, |s|)[k], p);
  }

  lemma StartFits(e: Entry)
    ensures PageStart(e) < WORD64
  {
    Rounding((e.addr + PAGE - 1) % WORD64, 0);
  }

  lemma {:induction false} GapIsIn(s: seq<Entry>, i: nat, n: nat)
    requires i < n <= |s|
    ensures forall r :: r in Gap(s, i) ==> r in Gaps(s, n)
  {
    hide Gap;
    if i < n - 1 {
      GapIsIn(s, i, n - 1);
    }
  }

  /**
   * That no reservation wraps is not enough: an entry of two pages and one that starts and ends inside the
   * second of them. The second page is cut off at the end.
   */
  lemma SmallEntryBehind()
    ensures var s := [Entry(0x1000, 0x2000, true), Entry(0x2400, 0x200, true)];
            && Sorted(s) && Below(s) && !AllSuit(s) && (forall r :: r in Gaps(s, 2) ==> !Wraps(r))
            && !Right(s, 0x2600, Gaps(s, 2))
  {
    var s := [Entry(0x1000, 0x2000, true), Entry(0x2400, 0x200, true)];
    assert PageStart(s[0]) == 0x1000 && PageEnd(s[0]) == 0x3000 && PageStart(s[1]) == 0x3000 && PageEnd(s[1]) == 0x2000;
    hide Gaps, RoundUp, RoundDown, Right;
    assert !Suits(s[0], s[1]);
    WrapExact(s);
    LostPage(s, 0, 1);
  }

  /** The memory part of `Setup`. */
  method Setup(mmap: seq<Entry>) returns (entries: array<Entry>, end: uint64, reserved: seq<Range>)
    requires Available(mmap) != []
    ensures Sorted(entries[..]) && Rearranged(Available(mmap), entries[..])
    ensures Below(Available(mmap)) && AllFit(Available(mmap)) ==>
      && (forall e :: e in mmap && e.available ==> e.End() <= end)
      && (forall p: nat :: IsPage(p) && p + PAGE <= end ==>
            (!IsReserved(reserved, p) <==> exists e :: e in mmap && e.available && Inside(e, p)))
    ensures Below(Available(mmap)) && WholePages(Available(mmap)) ==>
      ((forall r :: r in reserved ==> !Wraps(r)) <==> AllFit(Available(mmap)))
    ensures Below(Available(mmap)) ==> (Right(Available(mmap), end, reserved) <==> AllSuit(Available(mmap)))
  {
    hide Packed, Paged, Sorted, Below, AllFit, AllSuit, IsReserved, Available, Rearranged, WholePages, Gaps, Right;
    entries := Collect(mmap);
    Sort(entries);
    RearrangedLength(Available(mmap), entries[..]);
    end, reserved := ReserveGaps(entries);
    ghost var s := entries[..];
    PackedExact(Available(mmap), s);
    PagedExact(Available(mmap), s);
    if Below(Available(mmap)) {
      RearrangedBelow(Available(mmap), s);
      EndFits(s);
      RightEither(Available(mmap), s, end, reserved);
      if Paged(s) {
        GapsCorrect(s);
      }
      if Right(s, end, reserved) {
        RightIsPaged(s);
      }
    }
    if Packed(s) {
      PackedIsPaged(s);
      RightSays(s, end, reserved);
      Members(mmap, s);
    }
    if Below(Available(mmap)) && WholePages(Available(mmap)) {
      RearrangedPages(Available(mmap), s);
      WrapExact(s);
    }
  }

  lemma RearrangedLength(s: seq<Entry>, t: seq<Entry>)
    requires Rearranged(s, t)
    ensures |s| == |t| && multiset(s) == multiset(t)
  {
    assert |multiset(s)| == |multiset(t)|;
  }

  lemma RearrangedPages(s: seq<Entry>, t: seq<Entry>)
    requires Rearranged(s, t) && Below(s) && WholePages(s)
    ensures Below(t) && WholePages(t)
  {
    BelowMembers(s, t);
    forall i | 0 <= i < |t| ensures IsPage(t[i].addr) && IsPage(t[i].len) {
      assert t[i] in multiset(s);
    }
  }

  lemma EndFits(s: seq<Entry>)
    requires Below(s) && s != []
    ensures Last(s).End() % WORD64 == Last(s).End()
  {
  }

  lemma RearrangedBelow(s: seq<Entry>, t: seq<Entry>)
    requires Rearranged(s, t) && Below(s)
    ensures Below(t)
  {
    BelowMembers(s, t);
  }

  /** Being right is about the members of a list. */
  lemma RightEither(s: seq<Entry>, t: seq<Entry>, end: nat, reserved: seq<Range>)
    requires multiset(s) == multiset(t)
    ensures Right(s, end, reserved) <==> Right(t, end, reserved)
  {
    hide Inside, IsReserved, Wraps;
    forall p: nat ensures InsideSome(s, p) <==> InsideSome(t, p) {
      InsideEither(s, t, p);
      InsideEither(t, s, p);
    }
  }

  lemma InsideEither(s: seq<Entry>, t: seq<Entry>, p: nat)
    requires multiset(s) == multiset(t)
    ensures InsideSome(s, p) ==> InsideSome(t, p)
  {
    if i :| 0 <= i < |s| && Inside(s[i], p) {
      assert s[i] in multiset(t);
    }
  }

  lemma RightSays(s: seq<Entry>, end: nat, reserved: seq<Range>)
    requires Right(s, end, reserved)
    ensures forall p: nat :: IsPage(p) && p + PAGE <= end ==> (IsReserved(reserved, p) <==> !InsideSome(s, p))
  {
  }

  lemma SameMembers(mmap: seq<Entry>, s: seq<Entry>, e: Entry)
    requires multiset(s) == multiset(Available(mmap))
    ensures e in s <==> e in mmap && e.available
  {
    assert e in s <==> e in multiset(s);
    assert e in Available(mmap) <==> e in multiset(Available(mmap));
  }

  lemma Members(mmap: seq<Entry>, s: seq<Entry>)
    requires multiset(s) == multiset(Available(mmap)) && s != [] && Packed(s)
    ensures forall e :: e in mmap && e.available ==> e.End() <= s[|s| - 1].End()
    ensures forall p: nat {:trigger InsideSome(s, p)} ::
              InsideSome(s, p) <==> exists e :: e in mmap && e.available && Inside(e, p)
  {
    hide Available, Inside;
    forall e | e in mmap && e.available ensures e.End() <= s[|s| - 1].End() {
      SameMembers(mmap, s, e);
      var i :| 0 <= i < |s| && s[i] == e;
      assert i < |s| - 1 ==> s[i].End() <= s[|s| - 1].addr;
    }
    forall p: nat ensures InsideSome(s, p) <==> exists e :: e in mmap && e.available && Inside(e, p) {
      if InsideSome(s, p) {
        var i :| 0 <= i < |s| && Inside(s[i], p);
        SameMembers(mmap, s, s[i]);
      }
      if e :| e in mmap && e.available && Inside(e, p) {
        SameMembers(mmap, s, e);
      }
    }
  }
}
