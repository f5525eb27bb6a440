/**
 * Which file owns which block while `mkfs` builds an image (source/tool/mkfs.c): block numbers in
 * use lie in [NMETA, free), each has one owner, and everything from `free` on is still zero.
 */
module BlockMap {
  import opened DiskLayout
  import opened Words

  /** Position `slot` of file `inum`; slot `MAXFILE` stands for the indirect block itself. */
  datatype Owner = Owner(inum: nat, slot: nat)

  type Owners = map<nat, Owner>

  ghost predicate OwnedBy(own: Owners, free: nat, b: nat, o: Owner) {
    NMETA <= b < free && b in own && own[b] == o
  }

  /** The first `m` positions of file `inum` are mapped to blocks it owns, the others are unmapped. */
  ghost predicate Mapped(d: Disk, inum: nat, i: Dinode, m: nat, free: nat, own: Owners) {
    && |i.addrs| == NDIRECT + 1 && m <= MAXFILE && free <= FSSIZE
    && (forall f :: 0 <= f < m ==> OwnedBy(own, free, BlockNo(d, i, f), Owner(inum, f)))
    && (forall f :: m <= f < MAXFILE ==> BlockNo(d, i, f) == 0)
    && (if m > NDIRECT then OwnedBy(own, free, i.addrs[NDIRECT], Owner(inum, MAXFILE)) else i.addrs[NDIRECT] == 0)
  }

  /** The whole disk: inode `k` is `tab[k]` and has `ms[k]` mapped positions. */
  ghost predicate Consistent(d: Disk, tab: seq<Dinode>, ms: seq<nat>, free: nat, own: Owners)
    ensures Consistent(d, tab, ms, free, own) ==> NMETA <= free <= FSSIZE && |tab| == |ms|
  {
    && NMETA <= free <= FSSIZE
    && |tab| == |ms|
    && (forall b :: b in own ==> NMETA <= b < free)
    && (forall b :: free <= b < FSSIZE ==> d[b] == ZeroBlock())
    && (forall k :: 1 <= k < |tab| ==> Mapped(d, k, tab[k], ms[k], free, own))
  }

  // ---------------------------------------------------------------------------------------------
  // Writing the data of an owned block

  /** Overwriting a data block changes no block map. */
  lemma WriteKeepsMap(d: Disk, d': Disk, inum: nat, i: Dinode, m: nat, free: nat, own: Owners, x: nat, o: Owner, blk: Block)
    requires Mapped(d, inum, i, m, free, own) && OwnedBy(own, free, x, o) && o.slot < MAXFILE && d' == d[x := blk]
    ensures forall f :: 0 <= f < MAXFILE ==> BlockNo(d', i, f) == BlockNo(d, i, f)
    ensures Mapped(d', inum, i, m, free, own)
  {
  }

  /** Overwriting a data block changes only the bytes of the position that owns it. */
  lemma WriteKeepsBytes(d: Disk, d': Disk, inum: nat, i: Dinode, m: nat, free: nat, own: Owners, x: nat, o: Owner, blk: Block, k: nat)
    requires Mapped(d, inum, i, m, free, own) && OwnedBy(own, free, x, o) && o.slot < MAXFILE && d' == d[x := blk]
    requires k < BSIZE * m && Owner(inum, k / BSIZE) != o
    ensures FileByte(d', i, k) == FileByte(d, i, k)
  {
  }

  lemma WriteConsistent(d: Disk, d': Disk, tab: seq<Dinode>, ms: seq<nat>, free: nat, own: Owners, x: nat, o: Owner, blk: Block)
    requires Consistent(d, tab, ms, free, own) && OwnedBy(own, free, x, o) && o.slot < MAXFILE && d' == d[x := blk]
    ensures Consistent(d', tab, ms, free, own)
  {
    forall k | 1 <= k < |tab| ensures Mapped(d', k, tab[k], ms[k], free, own) {
      WriteKeepsMap(d, d', k, tab[k], ms[k], free, own, x, o, blk);
    }
  }

  // ---------------------------------------------------------------------------------------------
  // Mapping one more position

  /** Taking the next free block into use leaves the other files alone. */
  lemma AllocKeepsMap(d: Disk, inum: nat, i: Dinode, m: nat, free: nat, own: Owners, o: Owner)
    requires Mapped(d, inum, i, m, free, own) && free < FSSIZE && free !in own
    ensures Mapped(d, inum, i, m, free + 1, own[free := o])
  {
  }

  /** Writing an indirect block of another file leaves the block map and the bytes alone. */
  lemma IndirectWriteKeepsMap(d: Disk, d': Disk, inum: nat, i: Dinode, m: nat, free: nat, own: Owners, x: nat, other: nat, blk: Block)
    requires Mapped(d, inum, i, m, free, own) && OwnedBy(own, free, x, Owner(other, MAXFILE)) && other != inum
    requires d' == d[x := blk]
    ensures Mapped(d', inum, i, m, free, own)
    ensures forall k :: 0 <= k < BSIZE * m ==> FileByte(d', i, k) == FileByte(d, i, k)
  {
    assert forall f :: 0 <= f < MAXFILE ==> BlockNo(d', i, f) == BlockNo(d, i, f);
    forall f | 0 <= f < m ensures OwnedBy(own, free, BlockNo(d', i, f), Owner(inum, f)) {
      assert OwnedBy(own, free, BlockNo(d, i, f), Owner(inum, f));
    }
    forall k | 0 <= k < BSIZE * m ensures FileByte(d', i, k) == FileByte(d, i, k) {
      assert OwnedBy(own, free, BlockNo(d, i, k / BSIZE), Owner(inum, k / BSIZE));
    }
  }

  /** A fresh direct block at position `m`. */
  lemma AllocDirect(d: Disk, inum: nat, i: Dinode, m: nat, free: nat, own: Owners)
    requires Mapped(d, inum, i, m, free, own) && NMETA <= free < FSSIZE && free !in own && m < NDIRECT
    ensures Mapped(d, inum, i.(addrs := i.addrs[m := free]), m + 1, free + 1, own[free := Owner(inum, m)])
  {
    AllocKeepsMap(d, inum, i, m, free, own, Owner(inum, m));
    var i', own' := i.(addrs := i.addrs[m := free]), own[free := Owner(inum, m)];
    forall f | 0 <= f < MAXFILE ensures BlockNo(d, i', f) == if f == m then free else BlockNo(d, i, f) {}
  }

  /** A fresh entry in the existing indirect block at position `m`. */
  lemma AllocEntry(d: Disk, inum: nat, i: Dinode, m: nat, free: nat, own: Owners)
    requires Mapped(d, inum, i, m, free, own) && NMETA <= free < FSSIZE && free !in own && NDIRECT < m < MAXFILE
    ensures var x := i.addrs[NDIRECT];
            Mapped(d[x := SetEntry(d[x], m - NDIRECT, free)], inum, i, m + 1, free + 1, own[free := Owner(inum, m)])
  {
    AllocKeepsMap(d, inum, i, m, free, own, Owner(inum, m));
    var x := i.addrs[NDIRECT];
    var d', own' := d[x := SetEntry(d[x], m - NDIRECT, free)], own[free := Owner(inum, m)];
    forall f | 0 <= f < MAXFILE ensures BlockNo(d', i, f) == if f == m then free else BlockNo(d, i, f) {
      if f >= NDIRECT { EntryUpdate(d[x], m - NDIRECT, free, f - NDIRECT); }
    }
  }

  lemma ZeroEntry(k: nat)
    requires k < NINDIRECT
    ensures Entry(ZeroBlock(), k) == 0
  {
  }

  /** The first entry of a fresh indirect block: position `NDIRECT`. */
  lemma AllocIndirect(d: Disk, inum: nat, i: Dinode, free: nat, own: Owners)
    requires Mapped(d, inum, i, NDIRECT, free, own) && NMETA <= free && free + 1 < FSSIZE && free !in own && free + 1 !in own
    requires d[free] == ZeroBlock()
    ensures Mapped(d[free := SetEntry(d[free], 0, free + 1)], inum, i.(addrs := i.addrs[NDIRECT := free]), NDIRECT + 1,
                   free + 2, own[free := Owner(inum, MAXFILE)][free + 1 := Owner(inum, NDIRECT)])
  {
    var own' := own[free := Owner(inum, MAXFILE)];
    AllocKeepsMap(d, inum, i, NDIRECT, free, own, Owner(inum, MAXFILE));
    AllocKeepsMap(d, inum, i, NDIRECT, free + 1, own', Owner(inum, NDIRECT));
    var d', i' := d[free := SetEntry(d[free], 0, free + 1)], i.(addrs := i.addrs[NDIRECT := free]);
    forall f | 0 <= f < MAXFILE ensures BlockNo(d', i', f) == if f == NDIRECT then free + 1 else BlockNo(d, i, f) {
      if f >= NDIRECT {
        EntryUpdate(d[free], 0, free + 1, f - NDIRECT);
        ZeroEntry(f - NDIRECT);
        assert BlockNo(d, i, f) == 0;
      }
    }
  }
}
