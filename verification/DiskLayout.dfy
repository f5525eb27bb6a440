/**
 * The on-disk format shared by `mkfs` (source/tool/fs.h, source/tool/param.h) and the kernel
 * (source/kernel/v6fs.h): little-endian fields, 64-byte inodes, 12 direct blocks and one indirect
 * block, 16-byte directory entries.
 */
module DiskLayout {
  import opened Words

  const BSIZE: nat := 512
  const FSSIZE: nat := 1000
  const LOGSIZE: nat := 30
  const NINODES: nat := 200
  const IPB: nat := 8
  const NDIRECT: nat := 12
  const NINDIRECT: nat := 128
  const MAXFILE: nat := 140
  const ROOTINO: nat := 1
  const DIRSIZ: nat := 14
  const T_DIR: nat := 1
  const T_FILE: nat := 2
  const INODESTART: nat := 2 + LOGSIZE
  const NINODEBLOCKS: nat := NINODES / IPB + 1
  const BMAPSTART: nat := INODESTART + NINODEBLOCKS
  const NMETA: nat := BMAPSTART + FSSIZE / (BSIZE * 8) + 1

  type Block = b: seq<byte> | |b| == 512 witness seq(512, _ => 0)

  // ---------------------------------------------------------------------------------------------
  // Little-endian numbers

  function U16(x: nat): (b: seq<byte>)
    ensures |b| == 2
  {
    [x % 256, x / 256 % 256]
  }

  function U32(x: nat): (b: seq<byte>)
    ensures |b| == 4
  {
    [x % 256, x / 256 % 256, x / 65536 % 256, x / 16777216 % 256]
  }

  function Le16(b: seq<byte>, o: nat): nat
    requires o + 2 <= |b|
  {
    b[o] as int + 256 * (b[o + 1] as int)
  }

  function Le32(b: seq<byte>, o: nat): nat
    requires o + 4 <= |b|
  {
    b[o] as int + 256 * (b[o + 1] as int) + 65536 * (b[o + 2] as int) + 16777216 * (b[o + 3] as int)
  }

  /** Reading a field back gives the number written, for every number of that width. */
  lemma FieldRoundTrip(x: nat)
    ensures x < 0x1_0000 ==> Le16(U16(x), 0) == x
    ensures x < 0x1_0000_0000 ==> Le32(U32(x), 0) == x
  {
    var a := x / 256;
    var b := a / 256;
    assert b == x / 65536;
    var c := b / 256;
    assert c == x / 16777216;
  }

  /** A field inside a longer record. */
  lemma FieldInRecord(before: seq<byte>, x: nat, after: seq<byte>)
    requires x < 0x1_0000_0000
    ensures Le32(before + U32(x) + after, |before|) == x
  {
    FieldRoundTrip(x);
    var r := before + U32(x) + after;
    assert forall k :: 0 <= k < 4 ==> r[|before| + k] == U32(x)[k];
  }

  /** `b` with the bytes from `o` on replaced by `w`. */
  function Splice(b: seq<byte>, o: nat, w: seq<byte>): (r: seq<byte>)
    requires o + |w| <= |b|
    ensures |r| == |b|
    ensures forall k :: 0 <= k < |b| ==> r[k] == if o <= k < o + |w| then w[k - o] else b[k]
  {
    b[..o] + w + b[o + |w|..]
  }

  /** Entry `k` of an indirect block. */
  function Entry(b: Block, k: nat): nat
    requires k < NINDIRECT
  {
    Le32(b, 4 * k)
  }

  function SetEntry(b: Block, k: nat, x: nat): Block
    requires k < NINDIRECT
  {
    Splice(b, 4 * k, U32(x))
  }

  lemma EntryUpdate(b: Block, k: nat, x: nat, j: nat)
    requires k < NINDIRECT && j < NINDIRECT && x < 0x1_0000_0000
    ensures Entry(SetEntry(b, k, x), j) == if j == k then x else Entry(b, j)
  {
    FieldRoundTrip(x);
  }

  // ---------------------------------------------------------------------------------------------
  // Inodes

  /** `addrs[12]` is the indirect block. */
  datatype Dinode = Dinode(kind: nat, major: nat, minor: nat, nlink: nat, size: nat, addrs: seq<nat>)

  /** All fields fit their on-disk widths. */
  predicate Fits(i: Dinode) {
    && i.kind < 0x1_0000 && i.major < 0x1_0000 && i.minor < 0x1_0000 && i.nlink < 0x1_0000
    && i.size < 0x1_0000_0000
    && |i.addrs| == NDIRECT + 1
    && forall k :: 0 <= k <= NDIRECT ==> i.addrs[k] < 0x1_0000_0000
  }

  function EncodeAddrs(a: seq<nat>): (b: seq<byte>)
    ensures |b| == 4 * |a|
  {
    if a == [] then [] else U32(a[0]) + EncodeAddrs(a[1..])
  }

  function EncodeInode(i: Dinode): (b: seq<byte>)
    requires |i.addrs| == NDIRECT + 1
    ensures |b| == 64
  {
    U16(i.kind) + U16(i.major) + U16(i.minor) + U16(i.nlink) + U32(i.size) + EncodeAddrs(i.addrs)
  }

  function DecodeInode(b: seq<byte>, o: nat): (i: Dinode)
    requires o + 64 <= |b|
    ensures |i.addrs| == NDIRECT + 1
  {
    Dinode(Le16(b, o), Le16(b, o + 2), Le16(b, o + 4), Le16(b, o + 6), Le32(b, o + 8),
           seq(NDIRECT + 1, k requires 0 <= k < NDIRECT + 1 => Le32(b, o + 12 + 4 * k)))
  }

  lemma {:induction false} EncodedAddr(a: seq<nat>, k: nat)
    requires k < |a| && a[k] < 0x1_0000_0000
    ensures Le32(EncodeAddrs(a), 4 * k) == a[k]
  {
    FieldRoundTrip(a[0]);
    if k > 0 {
      EncodedAddr(a[1..], k - 1);
      assert Le32(EncodeAddrs(a), 4 * k) == Le32(EncodeAddrs(a[1..]), 4 * (k - 1));
    }
  }

  /** An inode survives being written to disk. */
  lemma InodeRoundTrip(i: Dinode)
    requires Fits(i)
    ensures DecodeInode(EncodeInode(i), 0) == i
  {
    var b := EncodeInode(i);
    FieldRoundTrip(i.kind);
    FieldRoundTrip(i.major);
    FieldRoundTrip(i.minor);
    FieldRoundTrip(i.nlink);
    FieldRoundTrip(i.size);
    var d := DecodeInode(b, 0);
    assert b[12..] == EncodeAddrs(i.addrs);
    forall k | 0 <= k <= NDIRECT ensures d.addrs[k] == i.addrs[k] {
      EncodedAddr(i.addrs, k);
      assert Le32(b, 12 + 4 * k) == Le32(EncodeAddrs(i.addrs), 4 * k);
    }
    assert d.addrs == i.addrs;
  }

  // ---------------------------------------------------------------------------------------------
  // The disk

  function ZeroBlock(): (b: Block)
    ensures forall k :: 0 <= k < BSIZE ==> b[k] == 0
  {
    seq(512, _ => 0)
  }

  type Disk = d: seq<Block> | |d| == 1000 witness seq<Block>(1000, _ => ZeroBlock())

  function InodeAt(d: Disk, inum: nat): (i: Dinode)
    requires inum < IPB * NINODEBLOCKS
    ensures |i.addrs| == NDIRECT + 1
  {
    DecodeInode(d[INODESTART + inum / IPB], 64 * (inum % IPB))
  }

  /** Decoding looks at the 64 bytes of the inode only. */
  lemma DecodeSlice(b: seq<byte>, o: nat)
    requires o + 64 <= |b|
    ensures DecodeInode(b, o) == DecodeInode(b[o..o + 64], 0)
  {
  }

  /** `d` with inode `inum` overwritten. */
  function PutInode(d: Disk, inum: nat, i: Dinode): Disk
    requires inum < IPB * NINODEBLOCKS && |i.addrs| == NDIRECT + 1
  {
    var bn := INODESTART + inum / IPB;
    d[bn := Splice(d[bn], 64 * (inum % IPB), EncodeInode(i))]
  }

  /** Writing one inode changes that inode only. */
  lemma InodeUpdate(d: Disk, inum: nat, i: Dinode, j: nat)
    requires inum < IPB * NINODEBLOCKS && j < IPB * NINODEBLOCKS && Fits(i)
    ensures InodeAt(PutInode(d, inum, i), j) == if j == inum then i else InodeAt(d, j)
  {
    var d' := PutInode(d, inum, i);
    var b, b' := d[INODESTART + j / IPB], d'[INODESTART + j / IPB];
    var o := 64 * (j % IPB);
    DecodeSlice(b, o);
    DecodeSlice(b', o);
    if j == inum {
      assert b'[o..o + 64] == EncodeInode(i);
      InodeRoundTrip(i);
    } else {
      assert b'[o..o + 64] == b[o..o + 64];
    }
  }

  /** The block number at position `f` of a file; 0 means unmapped. */
  function BlockNo(d: Disk, i: Dinode, f: nat): nat
    requires |i.addrs| == NDIRECT + 1 && f < MAXFILE
  {
    if f < NDIRECT then i.addrs[f]
    else if i.addrs[NDIRECT] == 0 || i.addrs[NDIRECT] >= FSSIZE then 0
    else Entry(d[i.addrs[NDIRECT]], f - NDIRECT)
  }

  /** Byte `k` of a file. */
  function FileByte(d: Disk, i: Dinode, k: nat): byte
    requires |i.addrs| == NDIRECT + 1 && k < BSIZE * MAXFILE
  {
    var b := BlockNo(d, i, k / BSIZE);
    if b < FSSIZE then d[b][k % BSIZE] else 0
  }

  /** The first `n` bytes of a file. */
  function Bytes(d: Disk, i: Dinode, n: nat): (s: seq<byte>)
    requires |i.addrs| == NDIRECT + 1 && n <= BSIZE * MAXFILE
    ensures |s| == n
  {
    seq(n, k requires 0 <= k < n => FileByte(d, i, k))
  }

  /** The number of blocks that hold `n` bytes. */
  function BlocksOf(n: nat): nat { (n + 511) / 512 }

  /** The blocks a file of `n` bytes takes, with its indirect block. */
  function Need(n: nat): nat { BlocksOf(n) + if BlocksOf(n) > NDIRECT then 1 else 0 }

  lemma NeedMonotone(n: nat, n': nat)
    requires n <= n'
    ensures Need(n) <= Need(n')
  {
  }
}
