/**
 * What appending to a file does to the disk (source/tool/mkfs.c): the value-level facts behind the
 * methods of `Mkfs`.
 */
module Append {
  import opened DiskLayout
  import opened BlockMap
  import opened Words

  /** What an inode stands for. */
  datatype FileView = FileView(kind: nat, nlink: nat, data: seq<byte>)

  function ViewOf(d: Disk, i: Dinode): FileView
    requires |i.addrs| == NDIRECT + 1
  {
    FileView(i.kind, i.nlink, if i.size <= BSIZE * MAXFILE then Bytes(d, i, i.size) else [])
  }

  /** The inode table as far as it is in use; entry 0 is unused. */
  function Table(d: Disk, n: nat): (t: seq<Dinode>)
    requires n <= NINODES
    ensures |t| == n && forall k :: 0 <= k < n ==> t[k] == InodeAt(d, k) && |t[k].addrs| == NDIRECT + 1
  {
    seq(n, k requires 0 <= k < n => InodeAt(d, k))
  }

  function Views(d: Disk, n: nat): (fs: seq<FileView>)
    requires n <= NINODES
    ensures |fs| == n && forall k :: 1 <= k < n ==> fs[k] == ViewOf(d, InodeAt(d, k))
  {
    seq(n, k requires 0 <= k < n => if k == 0 then FileView(0, 0, []) else ViewOf(d, InodeAt(d, k)))
  }

  function MappedCounts(t: seq<Dinode>): (ms: seq<nat>)
    ensures |ms| == |t| && forall k :: 0 <= k < |t| ==> ms[k] == BlocksOf(t[k].size)
  {
    seq(|t|, k requires 0 <= k < |t| => BlocksOf(t[k].size))
  }

  /** Bytes between the end of the file and the end of its last block are zero. */
  ghost predicate ZeroTail(d: Disk, i: Dinode, m: nat)
    requires |i.addrs| == NDIRECT + 1 && m <= MAXFILE
  {
    forall k :: i.size <= k < BSIZE * m ==> FileByte(d, i, k) == 0
  }

  ghost predicate GoodTable(d: Disk, t: seq<Dinode>) {
    forall k :: 1 <= k < |t| ==> Fits(t[k]) && t[k].size <= BSIZE * MAXFILE && ZeroTail(d, t[k], BlocksOf(t[k].size))
  }

  /** The invariant of an image under construction with inodes 1 to n - 1 in use. */
  ghost predicate GoodDisk(d: Disk, n: nat, free: nat, own: Owners)
    ensures GoodDisk(d, n, free, own) ==> 1 <= n <= NINODES
  {
    && 1 <= n <= NINODES
    && Consistent(d, Table(d, n), MappedCounts(Table(d, n)), free, own)
    && GoodTable(d, Table(d, n))
  }

  // ---------------------------------------------------------------------------------------------
  // Appending within one block

  lemma SizeIrrelevant(d: Disk, inum: nat, i: Dinode, m: nat, free: nat, own: Owners, n: nat)
    requires Mapped(d, inum, i, m, free, own)
    ensures Mapped(d, inum, i.(size := n), m, free, own)
    ensures forall k :: 0 <= k < BSIZE * MAXFILE ==> FileByte(d, i.(size := n), k) == FileByte(d, i, k)
  {
    var i' := i.(size := n);
    assert forall f :: 0 <= f < MAXFILE ==> BlockNo(d, i', f) == BlockNo(d, i, f);
  }

  /** Writing `w` at byte `off` of the last mapped block of a file. */
  lemma WriteChunk(d: Disk, d': Disk, inum: nat, i: Dinode, m: nat, free: nat, own: Owners, off: nat, w: seq<byte>, k: nat)
    requires Mapped(d, inum, i, m, free, own) && m > 0
    requires off / BSIZE == m - 1 && off % BSIZE + |w| <= BSIZE
    requires var x := BlockNo(d, i, m - 1); x < FSSIZE && d' == d[x := Splice(d[x], off % BSIZE, w)]
    requires k < BSIZE * m
    ensures FileByte(d', i, k) == if off <= k < off + |w| then w[k - off] else FileByte(d, i, k)
  {
  }

  /** So the file grows by exactly `w`, and its tail stays zero. */
  lemma AppendChunk(d: Disk, d': Disk, inum: nat, i: Dinode, m: nat, free: nat, own: Owners, w: seq<byte>)
    requires Mapped(d, inum, i, m, free, own) && m > 0 && ZeroTail(d, i, m)
    requires i.size / BSIZE == m - 1 && i.size % BSIZE + |w| <= BSIZE && i.size + |w| <= BSIZE * MAXFILE
    requires var x := BlockNo(d, i, m - 1); x < FSSIZE && d' == d[x := Splice(d[x], i.size % BSIZE, w)]
    ensures Bytes(d', i, i.size + |w|) == Bytes(d, i, i.size) + w
    ensures ZeroTail(d', i.(size := i.size + |w|), m)
  {
    forall k | 0 <= k < BSIZE * m
      ensures FileByte(d', i, k) == if i.size <= k < i.size + |w| then w[k - i.size] else FileByte(d, i, k)
    {
      WriteChunk(d, d', inum, i, m, free, own, i.size, w, k);
    }
    assert Bytes(d', i, i.size + |w|) == Bytes(d, i, i.size) + w;
    var i' := i.(size := i.size + |w|);
    forall k | i'.size <= k < BSIZE * m ensures FileByte(d', i', k) == 0 {
      assert FileByte(d', i', k) == FileByte(d', i, k);
    }
  }

  /** Other files keep every byte they have. */
  lemma OtherFile(d: Disk, d': Disk, inum: nat, i: Dinode, m: nat, free: nat, own: Owners, x: nat, o: Owner, blk: Block)
    requires Mapped(d, inum, i, m, free, own) && OwnedBy(own, free, x, o) && o.slot < MAXFILE && d' == d[x := blk]
    requires o.inum != inum && i.size <= BSIZE * m
    ensures ViewOf(d', i) == ViewOf(d, i)
    ensures ZeroTail(d, i, m) ==> ZeroTail(d', i, m)
  {
    forall k | 0 <= k < BSIZE * m ensures FileByte(d', i, k) == FileByte(d, i, k) {
      WriteKeepsBytes(d, d', inum, i, m, free, own, x, o, blk, k);
    }
    assert Bytes(d', i, i.size) == Bytes(d, i, i.size);
  }

  // ---------------------------------------------------------------------------------------------
  // Mapping the next position of a file

  ghost predicate SameBytes(d: Disk, i: Dinode, d': Disk, i': Dinode, m: nat) {
    && |i.addrs| == NDIRECT + 1 && |i'.addrs| == NDIRECT + 1 && m <= MAXFILE
    && forall k :: 0 <= k < BSIZE * m ==> FileByte(d', i', k) == FileByte(d, i, k)
  }

  /** File `inum` got position `ms[inum]`, all zero, and no byte of any file changed. */
  ghost predicate Grown(d: Disk, tab: seq<Dinode>, ms: seq<nat>, inum: nat, d': Disk, i': Dinode, free': nat, own': Owners)
    requires 1 <= inum < |tab| == |ms|
  {
    && Consistent(d', tab[inum := i'], ms[inum := ms[inum] + 1], free', own')
    && (forall k :: 1 <= k < |tab| ==> SameBytes(d, tab[k], d', tab[inum := i'][k], ms[k]))
    && (forall k :: BSIZE * ms[inum] <= k < BSIZE * (ms[inum] + 1) ==> FileByte(d', i', k) == 0)
    && (forall b :: 0 <= b < NMETA ==> d'[b] == d[b])
  }

  lemma FreshBlockIsZero(d: Disk, i: Dinode, m: nat, b: nat)
    requires |i.addrs| == NDIRECT + 1 && m < MAXFILE && BlockNo(d, i, m) == b < FSSIZE && d[b] == ZeroBlock()
    ensures forall k :: BSIZE * m <= k < BSIZE * (m + 1) ==> FileByte(d, i, k) == 0
  {
  }

  lemma GrowDirect(d: Disk, tab: seq<Dinode>, ms: seq<nat>, free: nat, own: Owners, inum: nat, i': Dinode)
    requires Consistent(d, tab, ms, free, own) && 1 <= inum < |tab| && ms[inum] < NDIRECT && free < FSSIZE
    requires i' == tab[inum].(addrs := tab[inum].addrs[ms[inum] := free])
    ensures Grown(d, tab, ms, inum, d, i', free + 1, own[free := Owner(inum, ms[inum])])
  {
    var m, own' := ms[inum], own[free := Owner(inum, ms[inum])];
    forall k | 1 <= k < |tab| && k != inum ensures Mapped(d, k, tab[k], ms[k], free + 1, own') {
      AllocKeepsMap(d, k, tab[k], ms[k], free, own, Owner(inum, m));
    }
    AllocDirect(d, inum, tab[inum], m, free, own);
    FreshBlockIsZero(d, i', m, free);
    assert forall f :: 0 <= f < m ==> BlockNo(d, i', f) == BlockNo(d, tab[inum], f);
  }

  lemma GrowEntry(d: Disk, tab: seq<Dinode>, ms: seq<nat>, free: nat, own: Owners, inum: nat, d': Disk)
    requires Consistent(d, tab, ms, free, own) && 1 <= inum < |tab| && NDIRECT < ms[inum] < MAXFILE && free < FSSIZE
    requires var x := tab[inum].addrs[NDIRECT]; d' == d[x := SetEntry(d[x], ms[inum] - NDIRECT, free)]
    ensures Grown(d, tab, ms, inum, d', tab[inum], free + 1, own[free := Owner(inum, ms[inum])])
  {
    var i, m, own' := tab[inum], ms[inum], own[free := Owner(inum, ms[inum])];
    var x := i.addrs[NDIRECT];
    assert OwnedBy(own', free + 1, x, Owner(inum, MAXFILE));
    forall k | 1 <= k < |tab| && k != inum
      ensures Mapped(d', k, tab[k], ms[k], free + 1, own') && SameBytes(d, tab[k], d', tab[k], ms[k])
    {
      AllocKeepsMap(d, k, tab[k], ms[k], free, own, Owner(inum, m));
      IndirectWriteKeepsMap(d, d', k, tab[k], ms[k], free + 1, own', x, inum, d'[x]);
    }
    AllocEntry(d, inum, i, m, free, own);
    forall f | 0 <= f <= m ensures BlockNo(d', i, f) == if f == m then free else BlockNo(d, i, f) {
      if f >= NDIRECT { EntryUpdate(d[x], m - NDIRECT, free, f - NDIRECT); }
    }
    forall k | 0 <= k < BSIZE * m ensures FileByte(d', i, k) == FileByte(d, i, k) {
      assert OwnedBy(own, free, BlockNo(d, i, k / BSIZE), Owner(inum, k / BSIZE));
    }
    FreshBlockIsZero(d', i, m, free);
    assert tab[inum := i] == tab;
  }

  lemma GrowIndirect(d: Disk, tab: seq<Dinode>, ms: seq<nat>, free: nat, own: Owners, inum: nat, d': Disk, i': Dinode)
    requires Consistent(d, tab, ms, free, own) && 1 <= inum < |tab| && ms[inum] == NDIRECT && free + 1 < FSSIZE
    requires d' == d[free := SetEntry(d[free], 0, free + 1)]
    requires i' == tab[inum].(addrs := tab[inum].addrs[NDIRECT := free])
    ensures Grown(d, tab, ms, inum, d', i', free + 2, own[free := Owner(inum, MAXFILE)][free + 1 := Owner(inum, NDIRECT)])
  {
    var own1 := own[free := Owner(inum, MAXFILE)];
    var own2 := own1[free + 1 := Owner(inum, NDIRECT)];
    forall k | 1 <= k < |tab| && k != inum
      ensures Mapped(d', k, tab[k], ms[k], free + 2, own2) && SameBytes(d, tab[k], d', tab[k], ms[k])
    {
      AllocKeepsMap(d, k, tab[k], ms[k], free, own, Owner(inum, MAXFILE));
      AllocKeepsMap(d, k, tab[k], ms[k], free + 1, own1, Owner(inum, NDIRECT));
      IndirectWriteKeepsMap(d, d', k, tab[k], ms[k], free + 2, own2, free, inum, d'[free]);
    }
    AllocIndirect(d, inum, tab[inum], free, own);
    EntryUpdate(d[free], 0, free + 1, 0);
    forall k | 0 <= k < BSIZE * NDIRECT ensures FileByte(d', i', k) == FileByte(d, tab[inum], k) {
      assert OwnedBy(own, free, BlockNo(d, tab[inum], k / BSIZE), Owner(inum, k / BSIZE));
    }
    FreshBlockIsZero(d', i', NDIRECT, free + 1);
  }

  // ---------------------------------------------------------------------------------------------
  // One turn of the append loop

  /** The disk before the data is written: position `size / BSIZE` is mapped, fresh or already there. */
  ghost predicate Ready(d: Disk, tab: seq<Dinode>, free: nat, own: Owners, inum: nat,
                        d1: Disk, i1: Dinode, free1: nat, own1: Owners)
  {
    && Consistent(d, tab, MappedCounts(tab), free, own) && GoodTable(d, tab) && 1 <= inum < |tab|
    && |i1.addrs| == NDIRECT + 1 && i1 == tab[inum].(addrs := i1.addrs)
    && if tab[inum].size / BSIZE < BlocksOf(tab[inum].size) then
         d1 == d && i1 == tab[inum] && free1 == free && own1 == own
       else Grown(d, tab, MappedCounts(tab), inum, d1, i1, free1, own1)
  }

  /** In both cases the file has one position more than `size / BSIZE`, and zeros behind its end. */
  lemma ReadyFile(d: Disk, tab: seq<Dinode>, free: nat, own: Owners, inum: nat,
                  d1: Disk, i1: Dinode, free1: nat, own1: Owners)
    requires Ready(d, tab, free, own, inum, d1, i1, free1, own1)
    ensures var m := i1.size / BSIZE + 1;
            && Mapped(d1, inum, i1, m, free1, own1) && ZeroTail(d1, i1, m)
            && OwnedBy(own1, free1, BlockNo(d1, i1, m - 1), Owner(inum, m - 1))
            && i1.size <= BSIZE * MAXFILE && Bytes(d1, i1, i1.size) == Bytes(d, tab[inum], i1.size)
  {
    var i, m := tab[inum], BlocksOf(tab[inum].size);
    assert Fits(i) && ZeroTail(d, i, m);
    if i.size / BSIZE < m {
      assert Mapped(d, inum, i, m, free, own);
    } else {
      assert SameBytes(d, i, d1, i1, m);
      assert Mapped(d1, inum, i1, m + 1, free1, own1);
    }
  }

  /** Every other file is as before, on a disk that stays consistent. */
  lemma ReadyOther(d: Disk, tab: seq<Dinode>, free: nat, own: Owners, inum: nat,
                   d1: Disk, i1: Dinode, free1: nat, own1: Owners, k: nat)
    requires Ready(d, tab, free, own, inum, d1, i1, free1, own1) && 1 <= k < |tab| && k != inum
    ensures var m := BlocksOf(tab[k].size);
            Mapped(d1, k, tab[k], m, free1, own1) && ZeroTail(d1, tab[k], m) && ViewOf(d1, tab[k]) == ViewOf(d, tab[k])
  {
  }

  lemma AddrsFit(d: Disk, inum: nat, i: Dinode, m: nat, free: nat, own: Owners)
    requires Mapped(d, inum, i, m, free, own)
    ensures forall k :: 0 <= k <= NDIRECT ==> i.addrs[k] < 0x1_0000_0000
  {
    forall k | 0 <= k < NDIRECT ensures i.addrs[k] < FSSIZE {
      assert i.addrs[k] == BlockNo(d, i, k);
      if k < m { assert OwnedBy(own, free, BlockNo(d, i, k), Owner(inum, k)); }
    }
  }

  /** The block behind the end of file `inum` gets `w`. */
  ghost predicate Chunk(d: Disk, tab: seq<Dinode>, free: nat, own: Owners, inum: nat,
                        d1: Disk, i1: Dinode, free1: nat, own1: Owners, w: seq<byte>, d2: Disk)
    ensures Chunk(d, tab, free, own, inum, d1, i1, free1, own1, w, d2) ==>
      Ready(d, tab, free, own, inum, d1, i1, free1, own1) && i1.size + |w| <= BSIZE * MAXFILE
  {
    && Ready(d, tab, free, own, inum, d1, i1, free1, own1)
    && 0 < |w| && i1.size % BSIZE + |w| <= BSIZE && i1.size + |w| <= BSIZE * MAXFILE
    && var x := BlockNo(d1, i1, i1.size / BSIZE);
       x < FSSIZE && d2 == d1[x := Splice(d1[x], i1.size % BSIZE, w)]
  }

  lemma AppendOwn(d: Disk, tab: seq<Dinode>, free: nat, own: Owners, inum: nat,
                  d1: Disk, i1: Dinode, free1: nat, own1: Owners, w: seq<byte>, d2: Disk, i2: Dinode)
    requires Chunk(d, tab, free, own, inum, d1, i1, free1, own1, w, d2) && i2 == i1.(size := i1.size + |w|)
    ensures var m := BlocksOf(i2.size); Mapped(d2, inum, i2, m, free1, own1) && ZeroTail(d2, i2, m) && Fits(i2)
    ensures Bytes(d2, i2, i2.size) == Bytes(d, tab[inum], i1.size) + w
  {
    var m := i1.size / BSIZE + 1;
    var x, o := BlockNo(d1, i1, m - 1), Owner(inum, m - 1);
    ReadyFile(d, tab, free, own, inum, d1, i1, free1, own1);
    AppendChunk(d1, d2, inum, i1, m, free1, own1, w);
    WriteKeepsMap(d1, d2, inum, i1, m, free1, own1, x, o, d2[x]);
    SizeIrrelevant(d2, inum, i1, m, free1, own1, i2.size);
    AddrsFit(d2, inum, i2, m, free1, own1);
    assert Bytes(d2, i2, i2.size) == Bytes(d2, i1, i2.size);
    assert BlocksOf(i2.size) == m;
    assert Fits(tab[inum]);
  }

  lemma AppendOther(d: Disk, tab: seq<Dinode>, free: nat, own: Owners, inum: nat,
                    d1: Disk, i1: Dinode, free1: nat, own1: Owners, w: seq<byte>, d2: Disk, k: nat)
    requires Chunk(d, tab, free, own, inum, d1, i1, free1, own1, w, d2) && 1 <= k < |tab| && k != inum
    ensures var m := BlocksOf(tab[k].size); Mapped(d2, k, tab[k], m, free1, own1) && ZeroTail(d2, tab[k], m) && Fits(tab[k])
    ensures ViewOf(d2, tab[k]) == ViewOf(d, tab[k])
  {
    var m := i1.size / BSIZE + 1;
    var x, o := BlockNo(d1, i1, m - 1), Owner(inum, m - 1);
    ReadyFile(d, tab, free, own, inum, d1, i1, free1, own1);
    ReadyOther(d, tab, free, own, inum, d1, i1, free1, own1, k);
    OtherFile(d1, d2, k, tab[k], BlocksOf(tab[k].size), free1, own1, x, o, d2[x]);
    WriteKeepsMap(d1, d2, k, tab[k], BlocksOf(tab[k].size), free1, own1, x, o, d2[x]);
  }

  /** Writing `w` behind the end of file `inum` appends `w` to it and touches nothing else. */
  lemma AppendStep(d: Disk, tab: seq<Dinode>, free: nat, own: Owners, inum: nat,
                   d1: Disk, i1: Dinode, free1: nat, own1: Owners, w: seq<byte>, d2: Disk, tab2: seq<Dinode>)
    requires Chunk(d, tab, free, own, inum, d1, i1, free1, own1, w, d2)
    requires tab2 == tab[inum := i1.(size := i1.size + |w|)]
    ensures Consistent(d2, tab2, MappedCounts(tab2), free1, own1) && GoodTable(d2, tab2)
    ensures forall k :: 1 <= k < |tab| && k != inum ==> ViewOf(d2, tab2[k]) == ViewOf(d, tab[k])
    ensures Bytes(d2, tab2[inum], i1.size + |w|) == Bytes(d, tab[inum], i1.size) + w
  {
    ReadyFile(d, tab, free, own, inum, d1, i1, free1, own1);
    hide Mapped, ZeroTail, ViewOf, Fits, FileByte, BlockNo;
    AppendOwn(d, tab, free, own, inum, d1, i1, free1, own1, w, d2, tab2[inum]);
    forall k | 1 <= k < |tab| && k != inum
      ensures Mapped(d2, k, tab2[k], BlocksOf(tab2[k].size), free1, own1)
      ensures ZeroTail(d2, tab2[k], BlocksOf(tab2[k].size)) && ViewOf(d2, tab2[k]) == ViewOf(d, tab[k]) && Fits(tab[k])
    {
      AppendOther(d, tab, free, own, inum, d1, i1, free1, own1, w, d2, k);
    }
  }

  // ---------------------------------------------------------------------------------------------
  // Metadata blocks hold no file data

  ghost predicate SameData(d: Disk, d': Disk) { forall b :: NMETA <= b < FSSIZE ==> d'[b] == d[b] }

  lemma MetaWriteKeepsFile(d: Disk, d': Disk, inum: nat, i: Dinode, m: nat, free: nat, own: Owners)
    requires Mapped(d, inum, i, m, free, own) && SameData(d, d')
    ensures Mapped(d', inum, i, m, free, own) && SameBytes(d, i, d', i, m)
    ensures i.size <= BSIZE * m ==> ViewOf(d', i) == ViewOf(d, i)
  {
    forall f | 0 <= f < MAXFILE ensures BlockNo(d', i, f) == BlockNo(d, i, f) {}
    forall f | 0 <= f < m ensures OwnedBy(own, free, BlockNo(d', i, f), Owner(inum, f)) {
      assert OwnedBy(own, free, BlockNo(d, i, f), Owner(inum, f));
    }
    forall k | 0 <= k < BSIZE * m ensures FileByte(d', i, k) == FileByte(d, i, k) {
      assert OwnedBy(own, free, BlockNo(d, i, k / BSIZE), Owner(inum, k / BSIZE));
    }
    if i.size <= BSIZE * m { assert Bytes(d', i, i.size) == Bytes(d, i, i.size); }
  }

  lemma MetaWrite(d: Disk, d': Disk, tab: seq<Dinode>, free: nat, own: Owners)
    requires Consistent(d, tab, MappedCounts(tab), free, own) && GoodTable(d, tab) && SameData(d, d')
    ensures Consistent(d', tab, MappedCounts(tab), free, own) && GoodTable(d', tab)
    ensures forall k :: 1 <= k < |tab| ==> ViewOf(d', tab[k]) == ViewOf(d, tab[k])
  {
    forall k | 1 <= k < |tab|
      ensures Mapped(d', k, tab[k], BlocksOf(tab[k].size), free, own) && ZeroTail(d', tab[k], BlocksOf(tab[k].size))
      ensures ViewOf(d', tab[k]) == ViewOf(d, tab[k])
    {
      assert Fits(tab[k]) && ZeroTail(d, tab[k], BlocksOf(tab[k].size));
      MetaWriteKeepsFile(d, d', k, tab[k], BlocksOf(tab[k].size), free, own);
    }
  }

  /** An inode that maps nothing. */
  function EmptyInode(kind: nat): (i: Dinode)
    ensures |i.addrs| == NDIRECT + 1
    ensures kind < 0x1_0000 ==> Fits(i)
  {
    Dinode(kind, 0, 0, 1, 0, [0, 0, 0, 0, 0, 0, 0, 0, 0, 0, 0, 0, 0])
  }

  lemma EmptyInodeMapsNothing(d: Disk, inum: nat, kind: nat, free: nat, own: Owners)
    requires free <= FSSIZE
    ensures Mapped(d, inum, EmptyInode(kind), 0, free, own)
    ensures ViewOf(d, EmptyInode(kind)) == FileView(kind, 1, [])
  {
  }

  /** Only inode `inum` was written, and no file data. */
  ghost predicate InodeWritten(d: Disk, d': Disk, inum: nat, i: Dinode) {
    SameData(d, d') && forall j :: 0 <= j < NINODES ==> InodeAt(d', j) == if j == inum then i else InodeAt(d, j)
  }

  lemma PutInodeWrites(d: Disk, d': Disk, inum: nat, i: Dinode)
    requires inum < NINODES && Fits(i) && d' == PutInode(d, inum, i)
    ensures InodeWritten(d, d', inum, i)
  {
    hide InodeAt, EncodeInode;
    forall j | 0 <= j < NINODES ensures InodeAt(d', j) == if j == inum then i else InodeAt(d, j) {
      InodeUpdate(d, inum, i, j);
    }
  }

  lemma AddInodeTable(d: Disk, d': Disk, tab: seq<Dinode>, tab': seq<Dinode>, kind: nat, free: nat, own: Owners)
    requires Consistent(d, tab, MappedCounts(tab), free, own) && GoodTable(d, tab) && SameData(d, d')
    requires |tab| > 0 && tab' == tab + [EmptyInode(kind)] && kind < 0x1_0000
    ensures Consistent(d', tab', MappedCounts(tab'), free, own) && GoodTable(d', tab')
    ensures forall k :: 1 <= k < |tab| ==> ViewOf(d', tab'[k]) == ViewOf(d, tab[k])
    ensures ViewOf(d', tab'[|tab|]) == FileView(kind, 1, [])
  {
    MetaWrite(d, d', tab, free, own);
    EmptyInodeMapsNothing(d', |tab|, kind, free, own);
    forall k | 1 <= k < |tab'| ensures Mapped(d', k, tab'[k], BlocksOf(tab'[k].size), free, own) {
      if k < |tab| { assert Mapped(d', k, tab[k], BlocksOf(tab[k].size), free, own); }
    }
  }

  /** Writing an empty inode into the next slot adds an empty file. */
  lemma AddInode(d: Disk, d': Disk, n: nat, kind: nat, free: nat, own: Owners)
    requires GoodDisk(d, n, free, own) && n < NINODES && kind < 0x1_0000 && InodeWritten(d, d', n, EmptyInode(kind))
    ensures GoodDisk(d', n + 1, free, own)
    ensures Views(d', n + 1) == Views(d, n) + [FileView(kind, 1, [])]
  {
    assert Table(d', n + 1) == Table(d, n) + [EmptyInode(kind)];
    AddInodeTable(d, d', Table(d, n), Table(d', n + 1), kind, free, own);
    forall k | 1 <= k < n ensures Views(d', n + 1)[k] == Views(d, n)[k] {
      assert ViewOf(d', Table(d', n + 1)[k]) == ViewOf(d, Table(d, n)[k]);
    }
  }

  // ---------------------------------------------------------------------------------------------
  // The append loop

  /** `iappend` has written `w` so far; its local inode `din` is not on disk yet. */
  ghost predicate Appending(d: Disk, tab: seq<Dinode>, views: seq<FileView>, inum: nat, din: Dinode, off: nat,
                            w: seq<byte>, free: nat, own: Owners)
  {
    && 1 <= inum < |tab| == |views|
    && |din.addrs| == NDIRECT + 1 && din == tab[inum].(addrs := din.addrs)
    && off <= BSIZE * MAXFILE
    && Consistent(d, Local(tab, inum, din, off), MappedCounts(Local(tab, inum, din, off)), free, own)
    && GoodTable(d, Local(tab, inum, din, off))
    && (forall k :: 1 <= k < |tab| && k != inum ==> |tab[k].addrs| == NDIRECT + 1 && ViewOf(d, tab[k]) == views[k])
    && Bytes(d, din.(size := off), off) == views[inum].data + w
  }

  /** The inode table as it will be once the local inode is written with size `off`. */
  function Local(tab: seq<Dinode>, inum: nat, din: Dinode, off: nat): seq<Dinode>
    requires inum < |tab|
  {
    tab[inum := din.(size := off)]
  }

  /** One turn of the loop: map, write `c`, advance. */
  lemma AppendTurn(d: Disk, tab: seq<Dinode>, views: seq<FileView>, inum: nat, din: Dinode, off: nat, w: seq<byte>,
                   free: nat, own: Owners, d1: Disk, din1: Dinode, free1: nat, own1: Owners, c: seq<byte>, d2: Disk)
    requires Appending(d, tab, views, inum, din, off, w, free, own)
    requires |din1.addrs| == NDIRECT + 1 && din1 == din.(addrs := din1.addrs)
    requires Ready(d, Local(tab, inum, din, off), free, own, inum, d1, din1.(size := off), free1, own1)
    requires 0 < |c| && off % BSIZE + |c| <= BSIZE && off + |c| <= BSIZE * MAXFILE
    requires var x := BlockNo(d1, din1.(size := off), off / BSIZE); x < FSSIZE && d2 == d1[x := Splice(d1[x], off % BSIZE, c)]
    ensures Appending(d2, tab, views, inum, din1, off + |c|, w + c, free1, own1)
  {
    var t, t2 := Local(tab, inum, din, off), Local(tab, inum, din1, off + |c|);
    var i1 := din1.(size := off);
    assert t2 == t[inum := i1.(size := off + |c|)];
    AppendStep(d, t, free, own, inum, d1, i1, free1, own1, c, d2, t2);
    forall k | 1 <= k < |tab| && k != inum ensures ViewOf(d2, tab[k]) == views[k] {
      assert t[k] == tab[k] == t2[k];
    }
    assert views[inum].data + w + c == views[inum].data + (w + c);
  }

  /** The end of `iappend`: the local inode goes to disk. */
  lemma FinishAppend(d: Disk, d': Disk, n: nat, tab: seq<Dinode>, views: seq<FileView>, inum: nat, din: Dinode,
                     off: nat, w: seq<byte>, free: nat, own: Owners)
    requires Appending(d, tab, views, inum, din, off, w, free, own) && n <= NINODES && tab == Table(d, n)
    requires views[0] == FileView(0, 0, []) && views[inum] == FileView(din.kind, din.nlink, views[inum].data)
    requires InodeWritten(d, d', inum, din.(size := off))
    ensures GoodDisk(d', n, free, own)
    ensures Views(d', n) == views[inum := views[inum].(data := views[inum].data + w)]
  {
    var t := Local(tab, inum, din, off);
    assert Table(d', n) == t;
    MetaWrite(d, d', t, free, own);
    forall k | 0 <= k < n ensures Views(d', n)[k] == views[inum := views[inum].(data := views[inum].data + w)][k] {
      if k > 0 { assert ViewOf(d', t[k]) == ViewOf(d, t[k]); }
    }
  }

  lemma AppendingFits(d: Disk, tab: seq<Dinode>, views: seq<FileView>, inum: nat, din: Dinode, off: nat,
                      w: seq<byte>, free: nat, own: Owners)
    requires Appending(d, tab, views, inum, din, off, w, free, own)
    ensures Fits(din.(size := off))
  {
    assert Fits(Local(tab, inum, din, off)[inum]);
  }

  /** The start of `iappend`: the local inode is the one on disk. */
  lemma StartAppend(d: Disk, n: nat, inum: nat, free: nat, own: Owners)
    requires GoodDisk(d, n, free, own) && 1 <= inum < n
    ensures Appending(d, Table(d, n), Views(d, n), inum, InodeAt(d, inum), InodeAt(d, inum).size, [], free, own)
    ensures |Views(d, n)[inum].data| == InodeAt(d, inum).size
  {
  }

  /** The inode table is metadata. */
  lemma SameMetadataSameTable(d: Disk, d': Disk, n: nat)
    requires n <= NINODES && forall b :: 0 <= b < NMETA ==> d'[b] == d[b]
    ensures Table(d', n) == Table(d, n)
  {
  }

  /** Metadata blocks outside the inode table: boot, super, log and bitmap blocks. */
  ghost predicate OtherMetadataSame(d: Disk, d': Disk) {
    forall b :: 0 <= b < NMETA && !(INODESTART <= b < BMAPSTART) ==> d'[b] == d[b]
  }
}
