/**
 * `mkfs` (source/tool/mkfs.c): builds a file system image by appending to inodes.  The allocator is
 * `freeblock++`; nothing is ever freed.
 */
module Mkfs {
  import opened DiskLayout
  import opened BlockMap
  import opened Append
  import opened ImageSpec
  import opened Words

  /** The files after the root directory has `n + 2` entries and `n` files are complete. */
  ghost function Built(files: seq<HostFile>, n: nat): (fs: seq<FileView>)
    requires n <= |files|
    ensures |fs| == n + 2
  {
    [FileView(0, 0, []), FileView(T_DIR, 1, RootData(files, n + 2))]
    + seq(n, k requires 0 <= k < n => FileView(T_FILE, 1, files[k].data))
  }

  lemma BuiltRoot(files: seq<HostFile>, n: nat)
    requires n <= |files|
    ensures |Built(files, n)[ROOTINO].data| == 16 * (n + 2)
  {
  }

  function BlocksBuilt(files: seq<HostFile>, n: nat): nat
    requires n <= |files|
  {
    NMETA + Need(16 * (n + 2)) + TotalNeed(files, n)
  }

  lemma {:induction false} TotalNeedMonotone(files: seq<HostFile>, n: nat, m: nat)
    requires n <= m <= |files|
    ensures TotalNeed(files, n) <= TotalNeed(files, m)
    decreases m
  {
    if n < m { TotalNeedMonotone(files, n, m - 1); }
  }

  /** Every intermediate stage of a buildable image fits on the disk. */
  lemma StageFits(files: seq<HostFile>, n: nat)
    requires Buildable(files) && n <= |files|
    ensures BlocksBuilt(files, n) <= FSSIZE
    ensures n < |files| ==> NMETA + Need(16 * (n + 3)) + TotalNeed(files, n) + Need(|files[n].data|) <= FSSIZE
  {
    TotalNeedMonotone(files, n, |files|);
    NeedMonotone(16 * (n + 2), 16 * (|files| + 2));
    if n < |files| {
      TotalNeedMonotone(files, n + 1, |files|);
      NeedMonotone(16 * (n + 3), 16 * (|files| + 2));
    }
  }

  /** A new inode, its entry in the root directory and its contents make the next stage. */
  lemma NextStage(files: seq<HostFile>, n: nat)
    requires n < |files|
    ensures var f1 := Built(files, n) + [FileView(T_FILE, 1, [])];
            var f2 := f1[ROOTINO := f1[ROOTINO].(data := f1[ROOTINO].data + DirEntry(n + 2, StoredName(files[n].name)))];
            Built(files, n + 1) == f2[n + 2 := f2[n + 2].(data := files[n].data)]
  {
  }

  /** The root directory with its own two entries is stage 0. */
  lemma FirstStage(files: seq<HostFile>)
    ensures var f1 := [FileView(0, 0, [])] + [FileView(T_DIR, 1, [])];
            var f2 := f1[ROOTINO := f1[ROOTINO].(data := f1[ROOTINO].data + DirEntry(ROOTINO, DOT))];
            Built(files, 0) == f2[ROOTINO := f2[ROOTINO].(data := f2[ROOTINO].data + DirEntry(ROOTINO, DOTDOT))]
    ensures Need(0) == 0 && Need(16) == 1 && Need(32) == 1 && BlocksBuilt(files, 0) == NMETA + 1
  {
    assert RootData(files, 1) == [] + DirEntry(ROOTINO, DOT);
    assert RootData(files, 2) == RootData(files, 1) + DirEntry(ROOTINO, DOTDOT);
  }

  // ---------------------------------------------------------------------------------------------
  // The finished image

  lemma MappedIsReachable(d: Disk, inum: nat, i: Dinode, m: nat, free: nat, own: Owners)
    requires Mapped(d, inum, i, m, free, own)
    ensures Reachable(d, i, m)
  {
  }

  /** File `k` of a consistent disk, seen by a reader of a disk with the same data blocks. */
  lemma FinishedFile(d: Disk, d': Disk, n: nat, free: nat, own: Owners, k: nat)
    requires GoodDisk(d, n, free, own) && 1 <= k < n && SameData(d, d')
    ensures var i := InodeAt(d, k);
            var m := BlocksOf(i.size);
            && i.size <= BSIZE * MAXFILE
            && Reachable(d', i, m) && Bytes(d', i, i.size) == Views(d, n)[k].data
            && forall b :: i.size <= b < BSIZE * m ==> FileByte(d', i, b) == 0
  {
    var i := InodeAt(d, k);
    assert Table(d, n)[k] == i && Fits(i) && ZeroTail(d, i, BlocksOf(i.size));
    MetaWriteKeepsFile(d, d', k, i, BlocksOf(i.size), free, own);
    MappedIsReachable(d', k, i, BlocksOf(i.size), free, own);
  }

  lemma RoundedFits(d: Disk, n: nat, free: nat, own: Owners, k: nat)
    requires GoodDisk(d, n, free, own) && 1 <= k < n
    ensures Fits(InodeAt(d, k).(size := RoundedSize(InodeAt(d, k).size)))
  {
  }

  /** A longer size field alone changes neither the block map nor the bytes. */
  lemma LongerSize(d: Disk, i: Dinode, size: nat, m: nat, n: nat)
    requires Reachable(d, i, m) && n <= BSIZE * MAXFILE
    ensures Reachable(d, i.(size := size), m) && Bytes(d, i.(size := size), n) == Bytes(d, i, n)
    ensures forall k :: 0 <= k < BSIZE * MAXFILE ==> FileByte(d, i.(size := size), k) == FileByte(d, i, k)
  {
    var i' := i.(size := size);
    assert forall f :: 0 <= f < MAXFILE ==> BlockNo(d, i', f) == BlockNo(d, i, f);
  }

  /** The stages are over: the root directory with its size rounded up. */
  lemma FinishedRoot(files: seq<HostFile>, d: Disk, d': Disk, free: nat, own: Owners)
    requires Buildable(files) && GoodDisk(d, |files| + 2, free, own) && Views(d, |files| + 2) == Built(files, |files|)
    requires InodeWritten(d, d', ROOTINO, InodeAt(d, ROOTINO).(size := RoundedSize(InodeAt(d, ROOTINO).size)))
    ensures HoldsRoot(d', files)
  {
    hide GoodDisk;
    var i, n := InodeAt(d, ROOTINO), |files| + 2;
    FinishedFile(d, d', n, free, own, ROOTINO);
    assert Views(d, n)[ROOTINO] == FileView(T_DIR, 1, RootData(files, n));
    assert i.size == |Bytes(d', i, i.size)| == 16 * n;
    LongerSize(d', i, RoundedSize(i.size), BlocksOf(i.size), i.size);
  }

  lemma FinishedData(files: seq<HostFile>, d: Disk, d': Disk, free: nat, own: Owners, i': Dinode, k: nat)
    requires Buildable(files) && GoodDisk(d, |files| + 2, free, own) && Views(d, |files| + 2) == Built(files, |files|)
    requires InodeWritten(d, d', ROOTINO, i') && k < |files|
    ensures HoldsFile(d', k + 2, files[k].data)
  {
    hide GoodDisk, Buildable, Reachable, InodeAt, FileByte;
    FinishedFile(d, d', |files| + 2, free, own, k + 2);
    assert Views(d, |files| + 2)[k + 2] == FileView(T_FILE, 1, files[k].data);
  }

  /** Files are not in metadata blocks, so writing the bitmap leaves the finished files alone. */
  lemma BitmapIsNoFile(files: seq<HostFile>, d: Disk, d': Disk)
    requires Buildable(files) && HoldsRoot(d, files)
    requires forall k :: 0 <= k < |files| ==> HoldsFile(d, k + 2, files[k].data)
    requires forall b :: 0 <= b < FSSIZE && b != BMAPSTART ==> d'[b] == d[b]
    ensures HoldsRoot(d', files)
    ensures forall k :: 0 <= k < |files| ==> HoldsFile(d', k + 2, files[k].data)
  {
    hide HoldsFile, InodeAt;
    forall k | 0 <= k < |files| ensures HoldsFile(d', k + 2, files[k].data) {
      assert HoldsFile(d, k + 2, files[k].data);
      BitmapKeepsFile(d, d', k + 2, files[k].data);
    }
    BitmapKeepsInode(d, d', ROOTINO);
    SameReachable(d, d', InodeAt(d, ROOTINO), BlocksOf(16 * (|files| + 2)), 16 * (|files| + 2));
  }

  lemma BitmapKeepsInode(d: Disk, d': Disk, inum: nat)
    requires inum < NINODES && forall b :: 0 <= b < FSSIZE && b != BMAPSTART ==> d'[b] == d[b]
    ensures InodeAt(d', inum) == InodeAt(d, inum) && SameData(d, d')
  {
  }

  lemma BitmapKeepsFile(d: Disk, d': Disk, inum: nat, data: seq<byte>)
    requires inum < NINODES && HoldsFile(d, inum, data)
    requires forall b :: 0 <= b < FSSIZE && b != BMAPSTART ==> d'[b] == d[b]
    ensures HoldsFile(d', inum, data)
  {
    BitmapKeepsInode(d, d', inum);
    hide InodeAt;
    var i := InodeAt(d, inum);
    SameReachable(d, d', i, BlocksOf(i.size), i.size);
  }

  lemma SameReachable(d: Disk, d': Disk, i: Dinode, m: nat, n: nat)
    requires Reachable(d, i, m) && SameData(d, d') && n <= BSIZE * m
    ensures Reachable(d', i, m) && Bytes(d', i, n) == Bytes(d, i, n)
    ensures forall k :: 0 <= k < BSIZE * m ==> FileByte(d', i, k) == FileByte(d, i, k)
  {
    forall f | 0 <= f < MAXFILE ensures BlockNo(d', i, f) == BlockNo(d, i, f) {}
    forall k | 0 <= k < BSIZE * m ensures FileByte(d', i, k) == FileByte(d, i, k) {
      assert NMETA <= BlockNo(d, i, k / BSIZE) < FSSIZE;
    }
  }

  // ---------------------------------------------------------------------------------------------
  // The free map

  /** `b | (1 << k)` on one byte */
  function SetBit(b: byte, k: nat): byte
    requires k < 8
  {
    if b / Pow2(k) % 2 == 1 then b
    else BitFits(b, k); b + Pow2(k)
  }

  lemma BitFits(b: byte, k: nat)
    requires k < 8 && b / Pow2(k) % 2 == 0
    ensures b + Pow2(k) < 256
  {
  }

  /** A byte with its `k` low bits set. */
  function LowBits(k: nat): byte
    requires k <= 8
  {
    [0, 1, 3, 7, 15, 31, 63, 127, 255][k]
  }

  lemma LowBitsAreSet(k: nat, j: nat)
    requires k <= 8 && j < 8
    ensures LowBits(k) / Pow2(j) % 2 == 1 <==> j < k
  {
  }

  lemma SetNextBit(k: nat)
    requires k < 8
    ensures SetBit(LowBits(k), k) == LowBits(k + 1)
  {
  }

  /** How many bits of byte `t` lie below bit `n` of the map. */
  function BitsBelow(t: nat, n: nat): (k: nat)
    ensures k <= 8
  {
    if n <= 8 * t then 0 else if n >= 8 * t + 8 then 8 else n - 8 * t
  }

  /** `balloc`: exactly the first `used` bits are set. */
  method Bitmap(used: nat) returns (buf: Block)
    requires used < BSIZE * 8
    ensures forall j :: 0 <= j < BSIZE * 8 ==> (Used(buf, j) <==> j < used)
  {
    buf := ZeroBlock();
    for i := 0 to used
      invariant forall t :: 0 <= t < BSIZE ==> buf[t] == LowBits(BitsBelow(t, i))
    {
      SetNextBit(i % 8);
      buf := buf[i / 8 := SetBit(buf[i / 8], i % 8)];
    }
    forall j | 0 <= j < BSIZE * 8 ensures Used(buf, j) <==> j < used {
      LowBitsAreSet(BitsBelow(j / 8, used), j % 8);
    }
  }

  /** What the addresses of an inode say about a position that is the last mapped one or the one behind. */
  lemma PositionFacts(d: Disk, tab: seq<Dinode>, ms: seq<nat>, free: nat, own: Owners, inum: nat, fbn: nat)
    requires Consistent(d, tab, ms, free, own) && 1 <= inum < |tab|
    requires fbn < MAXFILE && ms[inum] - 1 <= fbn <= ms[inum]
    ensures |tab[inum].addrs| == NDIRECT + 1
    ensures fbn < NDIRECT ==> (tab[inum].addrs[fbn] == 0 <==> fbn == ms[inum])
    ensures fbn >= NDIRECT ==> (tab[inum].addrs[NDIRECT] == 0 <==> ms[inum] == NDIRECT)
    ensures ms[inum] > NDIRECT ==> tab[inum].addrs[NDIRECT] < FSSIZE
    ensures fbn >= NDIRECT && ms[inum] > NDIRECT ==>
      (Entry(d[tab[inum].addrs[NDIRECT]], fbn - NDIRECT) == 0 <==> fbn == ms[inum])
    ensures free < FSSIZE ==> d[free] == ZeroBlock()
  {
    var i := tab[inum];
    assert Mapped(d, inum, i, ms[inum], free, own);
    if fbn < ms[inum] {
      assert OwnedBy(own, free, BlockNo(d, i, fbn), Owner(inum, fbn));
    } else {
      assert BlockNo(d, i, fbn) == 0;
    }
  }

  lemma NothingChanged(d: Disk)
    ensures OtherMetadataSame(d, d) && Need(0) == 0
  {
  }

  lemma OtherMetadataStill(d: Disk, d1: Disk, d2: Disk)
    requires OtherMetadataSame(d, d1) && OtherMetadataSame(d1, d2)
    ensures OtherMetadataSame(d, d2)
  {
  }

  /** The image file with the allocation counters; `own` records who each block was given to. */
  class Image {
    var disk: Disk
    var freeinode: nat
    var freeblock: nat
    ghost var own: Owners

    ghost predicate Valid()
      reads this
    {
      GoodDisk(disk, freeinode, freeblock, own)
    }

    /** The files: entry `k` belongs to inode `k`. */
    ghost function Files(): seq<FileView>
      reads this
      requires freeinode <= NINODES
    {
      Views(disk, freeinode)
    }

    /** The block for position `fbn`, taken from `freeblock` if the file has none there yet. */
    method MapPosition(din: Dinode, fbn: nat, ghost inum: nat, ghost tab: seq<Dinode>, ghost ms: seq<nat>)
      returns (din': Dinode, x: nat)
      requires Consistent(disk, tab, ms, freeblock, own) && 1 <= inum < |tab|
      requires tab[inum] == din.(size := tab[inum].size)
      requires fbn < MAXFILE && ms[inum] - 1 <= fbn <= ms[inum]
      requires fbn == ms[inum] ==> freeblock + (if fbn == NDIRECT then 2 else 1) <= FSSIZE
      modifies this`disk, this`freeblock, this`own
      ensures din' == din.(addrs := din'.addrs) && |din'.addrs| == NDIRECT + 1
      ensures var i' := tab[inum].(addrs := din'.addrs);
              && x == BlockNo(disk, i', fbn)
              && if fbn < ms[inum] then
                   i' == tab[inum] && disk == old(disk) && freeblock == old(freeblock) && own == old(own)
                 else
                   && Grown(old(disk), tab, ms, inum, disk, i', freeblock, own)
                   && freeblock == old(freeblock) + (if fbn == NDIRECT then 2 else 1)
    {
      hide Consistent, Grown, SetEntry, Entry;
      PositionFacts(disk, tab, ms, freeblock, own, inum, fbn);
      din' := din;
      if fbn < NDIRECT {
        if din'.addrs[fbn] == 0 {
          GrowDirect(disk, tab, ms, freeblock, own, inum, tab[inum].(addrs := din.addrs[fbn := freeblock]));
          din' := din'.(addrs := din'.addrs[fbn := freeblock]);
          own := own[freeblock := Owner(inum, fbn)];
          freeblock := freeblock + 1;
        }
        x := din'.addrs[fbn];
      } else {
        if din'.addrs[NDIRECT] == 0 {
          ZeroEntry(0);
          GrowIndirect(disk, tab, ms, freeblock, own, inum, disk[freeblock := SetEntry(disk[freeblock], 0, freeblock + 1)],
                       tab[inum].(addrs := din.addrs[NDIRECT := freeblock]));
          din' := din'.(addrs := din'.addrs[NDIRECT := freeblock]);
          own := own[freeblock := Owner(inum, MAXFILE)];
          freeblock := freeblock + 1;
        } else if fbn == ms[inum] {
          var b := din'.addrs[NDIRECT];
          GrowEntry(disk, tab, ms, freeblock, own, inum, disk[b := SetEntry(disk[b], fbn - NDIRECT, freeblock)]);
        }
        var indirect := disk[din'.addrs[NDIRECT]];
        if Entry(indirect, fbn - NDIRECT) == 0 {
          EntryUpdate(indirect, fbn - NDIRECT, freeblock, fbn - NDIRECT);
          indirect := SetEntry(indirect, fbn - NDIRECT, freeblock);
          disk := disk[din'.addrs[NDIRECT] := indirect];
          own := own[freeblock := Owner(inum, fbn)];
          freeblock := freeblock + 1;
        }
        x := Entry(indirect, fbn - NDIRECT);
      }
    }

    /** `winode` */
    method WriteInode(inum: nat, din: Dinode)
      requires inum < NINODES && Fits(din)
      modifies this`disk
      ensures InodeWritten(old(disk), disk, inum, din)
      ensures OtherMetadataSame(old(disk), disk)
    {
      var bn := INODESTART + inum / IPB;
      var buf := Splice(disk[bn], 64 * (inum % IPB), EncodeInode(din));
      disk := disk[bn := buf];
      PutInodeWrites(old(disk), disk, inum, din);
    }

    /** `ialloc`: the next inode, of the given type, with one link and no data. */
    method AllocInode(kind: nat) returns (inum: nat)
      requires Valid() && freeinode < NINODES && kind < 0x1_0000
      modifies this`disk, this`freeinode
      ensures Valid() && inum == old(freeinode) && freeinode == old(freeinode) + 1
      ensures Files() == old(Files()) + [FileView(kind, 1, [])]
      ensures OtherMetadataSame(old(disk), disk)
    {
      inum := freeinode;
      freeinode := freeinode + 1;
      WriteInode(inum, EmptyInode(kind));
      AddInode(old(disk), disk, inum, kind, freeblock, own);
    }

    /** The body of the loop in `iappend`: `c` fits into the block at the end of the file. */
    method AppendToBlock(inum: nat, din: Dinode, off: nat, c: seq<byte>,
                         ghost tab: seq<Dinode>, ghost views: seq<FileView>, ghost w: seq<byte>)
      returns (din': Dinode)
      requires Appending(disk, tab, views, inum, din, off, w, freeblock, own)
      requires 0 < |c| && off % BSIZE + |c| <= BSIZE && off + |c| <= BSIZE * MAXFILE
      requires freeblock + Need(off + |c|) - Need(off) <= FSSIZE
      modifies this`disk, this`freeblock, this`own
      ensures Appending(disk, tab, views, inum, din', off + |c|, w + c, freeblock, own)
      ensures freeblock == old(freeblock) + Need(off + |c|) - Need(off)
      ensures forall b :: 0 <= b < NMETA ==> disk[b] == old(disk)[b]
    {
      ghost var t := Local(tab, inum, din, off);
      var fbn := off / BSIZE;
      var x: nat;
      din', x := MapPosition(din, fbn, inum, t, MappedCounts(t));
      ghost var d1 := disk;
      ReadyFile(old(disk), t, old(freeblock), old(own), inum, d1, din'.(size := off), freeblock, own);
      var buf := Splice(disk[x], off - fbn * BSIZE, c);
      disk := disk[x := buf];
      AppendTurn(old(disk), tab, views, inum, din, off, w, old(freeblock), old(own), d1, din', freeblock, own, c, disk);
    }

    /** The loop of `iappend` over the blocks the bytes `p` fall into. */
    method AppendLoop(inum: nat, din0: Dinode, p: seq<byte>, ghost tab: seq<Dinode>, ghost views: seq<FileView>)
      returns (din: Dinode, off: nat)
      requires Appending(disk, tab, views, inum, din0, din0.size, [], freeblock, own)
      requires din0.size + |p| <= BSIZE * MAXFILE
      requires freeblock + Need(din0.size + |p|) - Need(din0.size) <= FSSIZE
      modifies this`disk, this`freeblock, this`own
      ensures off == din0.size + |p|
      ensures Appending(disk, tab, views, inum, din, off, p, freeblock, own)
      ensures freeblock == old(freeblock) + Need(off) - Need(din0.size)
      ensures forall b :: 0 <= b < NMETA ==> disk[b] == old(disk)[b]
    {
      din, off := din0, din0.size;
      var n: nat, pos: nat := |p|, 0;
      while n > 0
        invariant pos + n == |p| && off == din0.size + pos
        invariant Appending(disk, tab, views, inum, din, off, p[..pos], freeblock, own)
        invariant freeblock == old(freeblock) + Need(off) - Need(din0.size)
        invariant forall b :: 0 <= b < NMETA ==> disk[b] == old(disk)[b]
      {
        var n1 := if n < BSIZE - off % BSIZE then n else BSIZE - off % BSIZE;
        NeedMonotone(off + n1, din0.size + |p|);
        din := AppendToBlock(inum, din, off, p[pos..pos + n1], tab, views, p[..pos]);
        assert p[..pos] + p[pos..pos + n1] == p[..pos + n1];
        n, off, pos := n - n1, off + n1, pos + n1;
      }
      assert p[..pos] == p;
    }

    /** `iappend`: the bytes `p` go to the end of file `inum`. */
    method Append(inum: nat, p: seq<byte>)
      requires Valid() && 1 <= inum < freeinode
      requires |Files()[inum].data| + |p| <= BSIZE * MAXFILE
      requires freeblock + Need(|Files()[inum].data| + |p|) - Need(|Files()[inum].data|) <= FSSIZE
      modifies this`disk, this`freeblock, this`own
      ensures Valid()
      ensures var f := old(Files()[inum]);
              && Files() == old(Files())[inum := f.(data := f.data + p)]
              && freeblock == old(freeblock) + Need(|f.data| + |p|) - Need(|f.data|)
      ensures OtherMetadataSame(old(disk), disk)
    {
      ghost var tab, views := Table(disk, freeinode), Files();
      StartAppend(disk, freeinode, inum, freeblock, own);
      var din, off := AppendLoop(inum, InodeAt(disk, inum), p, tab, views);
      AppendingFits(disk, tab, views, inum, din, off, p, freeblock, own);
      ghost var d := disk;
      SameMetadataSameTable(old(disk), d, freeinode);
      WriteInode(inum, din.(size := off));
      FinishAppend(d, disk, freeinode, tab, views, inum, din, off, p, freeblock, own);
    }

    /** The empty image: zero blocks, superblock in place, nothing allocated. */
    constructor ()
      ensures Valid() && freeinode == 1 && freeblock == NMETA && Files() == [FileView(0, 0, [])]
      ensures disk[1] == SuperBlock()
    {
      disk := seq<Block>(FSSIZE, _ => ZeroBlock())[1 := SuperBlock()];
      freeinode := 1;
      freeblock := NMETA;
      own := map[];
    }

    /** The loop that copies a host file: `read` returns some number of bytes up to the buffer size. */
    method CopyFile(inum: nat, data: seq<byte>)
      requires Valid() && 1 <= inum < freeinode && Files()[inum].data == []
      requires |data| <= BSIZE * MAXFILE && freeblock + Need(|data|) <= FSSIZE
      modifies this`disk, this`freeblock, this`own
      ensures Valid() && freeblock == old(freeblock) + Need(|data|)
      ensures Files() == old(Files())[inum := old(Files())[inum].(data := data)]
      ensures OtherMetadataSame(old(disk), disk)
    {
      hide GoodDisk, Views, Need, OtherMetadataSame;
      var pos: nat := 0;
      assert Files()[inum := Files()[inum].(data := data[..0])] == Files();
      ghost var was := Files();
      NothingChanged(disk);
      while pos < |data|
        invariant pos <= |data|
        invariant Valid() && freeblock == old(freeblock) + Need(pos)
        invariant Files() == was[inum := was[inum].(data := data[..pos])]
        invariant OtherMetadataSame(old(disk), disk)
      {
        var cc: nat :| 0 < cc <= BSIZE && pos + cc <= |data|;
        NeedMonotone(pos + cc, |data|);
        ghost var d := disk;
        Append(inum, data[pos..pos + cc]);
        OtherMetadataStill(old(disk), d, disk);
        assert data[..pos] + data[pos..pos + cc] == data[..pos + cc];
        pos := pos + cc;
      }
      assert data[..pos] == data;
    }

    /** One turn of the loop over the arguments: a new inode, its directory entry, its contents. */
    method AddFile(files: seq<HostFile>, n: nat)
      requires Valid() && Buildable(files) && n < |files|
      requires Files() == Built(files, n) && freeinode == n + 2 && freeblock == BlocksBuilt(files, n)
      modifies this
      ensures Valid()
      ensures Files() == Built(files, n + 1) && freeinode == n + 3 && freeblock == BlocksBuilt(files, n + 1)
      ensures OtherMetadataSame(old(disk), disk)
    {
      hide GoodDisk, Views, Need, Built;
      assert |Built(files, n)[ROOTINO].data| == 16 * (n + 2) by { BuiltRoot(files, n); }
      StageFits(files, n);
      NextStage(files, n);
      var name := files[n].name;
      if name != [] && name[0] == UNDERSCORE {
        name := name[1..];
      }
      var inum := AllocInode(T_FILE);
      Append(ROOTINO, DirEntry(inum, name));
      CopyFile(inum, files[n].data);
    }

    /** The end of `main`: the root size is rounded up to a whole number of blocks, then the bitmap is written. */
    method Finish(files: seq<HostFile>)
      requires Valid() && Buildable(files) && disk[1] == SuperBlock()
      requires freeinode == |files| + 2 && Files() == Built(files, |files|) && freeblock == BlocksBuilt(files, |files|)
      modifies this
      ensures Represents(disk, files, freeblock)
    {
      hide GoodDisk, Views, Need, HoldsRoot, HoldsFile, Built, TotalNeed;
      var din := InodeAt(disk, ROOTINO);
      var rounded := (din.size / BSIZE + 1) * BSIZE;
      RoundedFits(disk, freeinode, freeblock, own, ROOTINO);
      ghost var d0 := disk;
      WriteInode(ROOTINO, din.(size := rounded));
      FinishedRoot(files, d0, disk, freeblock, own);
      forall k | 0 <= k < |files| ensures HoldsFile(disk, k + 2, files[k].data) {
        FinishedData(files, d0, disk, freeblock, own, din.(size := rounded), k);
      }
      StageFits(files, |files|);
      var buf := Bitmap(freeblock);
      ghost var d1 := disk;
      disk := disk[BMAPSTART := buf];
      BitmapIsNoFile(files, d1, disk);
    }
  }

  /** `main`: for every list of files that fits, the image represents exactly those files. */
  method Make(files: seq<HostFile>) returns (d: Disk, free: nat)
    requires Buildable(files)
    ensures Represents(d, files, free)
  {
    hide GoodDisk, Views, Need, Represents;
    var image := new Image();
    var root := image.AllocInode(T_DIR);
    FirstStage(files);
    image.Append(root, DirEntry(ROOTINO, DOT));
    image.Append(root, DirEntry(ROOTINO, DOTDOT));
    var i: nat := 0;
    while i < |files|
      invariant i <= |files| && image.Valid() && image.disk[1] == SuperBlock()
      invariant image.freeinode == i + 2 && image.Files() == Built(files, i) && image.freeblock == BlocksBuilt(files, i)
    {
      image.AddFile(files, i);
      i := i + 1;
    }
    image.Finish(files);
    d, free := image.disk, image.freeblock;
  }
}
