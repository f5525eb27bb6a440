/**
 * What a finished image promises its reader: the meaning of the bytes `mkfs` leaves on the disk
 * (source/tool/mkfs.c:98-172), free of how they were produced.
 */
module ImageSpec {
  import opened DiskLayout
  import opened Words

  /** A file handed to `mkfs`: its name on the host and its contents. */
  datatype HostFile = HostFile(name: seq<byte>, data: seq<byte>)

  const UNDERSCORE: byte := 95
  const SLASH: byte := 47
  const DOT: seq<byte> := [46]
  const DOTDOT: seq<byte> := [46, 46]

  /** The name without the leading underscore of a build product. */
  function StoredName(name: seq<byte>): seq<byte> {
    if name != [] && name[0] == UNDERSCORE then name[1..] else name
  }

  /** `strncpy` into a zeroed field of 14 bytes. */
  function NameField(name: seq<byte>): (f: seq<byte>)
    ensures |f| == DIRSIZ
  {
    seq(DIRSIZ, k requires 0 <= k < DIRSIZ => if k < |name| then name[k] else 0)
  }

  function DirEntry(inum: nat, name: seq<byte>): (e: seq<byte>)
    ensures |e| == 16
  {
    U16(inum) + NameField(name)
  }

  /** Inode number and name of entry `k` of the root directory. */
  function EntryInum(k: nat): nat { if k < 2 then ROOTINO else k }

  function EntryName(files: seq<HostFile>, k: nat): seq<byte>
    requires k < |files| + 2
  {
    if k == 0 then DOT else if k == 1 then DOTDOT else StoredName(files[k - 2].name)
  }

  /** The first `n` entries of the root directory. */
  function RootData(files: seq<HostFile>, n: nat): (r: seq<byte>)
    requires n <= |files| + 2
    ensures |r| == 16 * n
  {
    if n == 0 then [] else RootData(files, n - 1) + DirEntry(EntryInum(n - 1), EntryName(files, n - 1))
  }

  /** Blocks taken by the first `n` files. */
  function TotalNeed(files: seq<HostFile>, n: nat): nat
    requires n <= |files|
  {
    if n == 0 then 0 else TotalNeed(files, n - 1) + Need(|files[n - 1].data|)
  }

  /** What `mkfs` demands: no file above the maximum size, enough inodes and enough blocks, no '/' in a name. */
  ghost predicate Buildable(files: seq<HostFile>) {
    && |files| + 2 <= NINODES
    && (forall k :: 0 <= k < |files| ==> |files[k].data| <= BSIZE * MAXFILE)
    && (forall k :: 0 <= k < |files| ==> SLASH !in files[k].name)
    && NMETA + Need(16 * (|files| + 2)) + TotalNeed(files, |files|) <= FSSIZE
  }

  /** Six files of any size that one file may have fit on an image. */
  lemma FewFilesFit(files: seq<HostFile>)
    requires |files| <= 6 && forall f :: f in files ==> |f.data| <= BSIZE * MAXFILE && SLASH !in f.name
    ensures Buildable(files)
  {
    TotalNeedBound(files, |files|);
  }

  lemma {:induction false} TotalNeedBound(files: seq<HostFile>, n: nat)
    requires n <= |files| && forall f :: f in files ==> |f.data| <= BSIZE * MAXFILE
    ensures TotalNeed(files, n) <= (MAXFILE + 1) * n
  {
    if n > 0 {
      TotalNeedBound(files, n - 1);
      assert files[n - 1] in files;
    }
  }

  /** The first `m` positions of the file lead to data blocks, the others are unmapped. */
  ghost predicate Reachable(d: Disk, i: Dinode, m: nat)
    ensures Reachable(d, i, m) ==> |i.addrs| == NDIRECT + 1 && m <= MAXFILE
  {
    && |i.addrs| == NDIRECT + 1 && m <= MAXFILE
    && (forall f :: 0 <= f < m ==> NMETA <= BlockNo(d, i, f) < FSSIZE)
    && (forall f :: m <= f < MAXFILE ==> BlockNo(d, i, f) == 0)
    && (if m > NDIRECT then NMETA <= i.addrs[NDIRECT] < FSSIZE else i.addrs[NDIRECT] == 0)
  }

  /** Inode `inum` is a regular file with the given contents. */
  ghost predicate HoldsFile(d: Disk, inum: nat, data: seq<byte>)
    requires inum < NINODES
  {
    var i := InodeAt(d, inum);
    && i.kind == T_FILE && i.size == |data| <= BSIZE * MAXFILE
    && Reachable(d, i, BlocksOf(i.size)) && Bytes(d, i, i.size) == data
  }

  /** `off = ((off / BSIZE) + 1) * BSIZE` */
  function RoundedSize(n: nat): nat { (n / BSIZE + 1) * BSIZE }

  /** Inode 1 is a directory with all entries; its size is rounded up and the rest of its blocks is zero. */
  ghost predicate HoldsRoot(d: Disk, files: seq<HostFile>)
    requires |files| + 2 <= NINODES
  {
    var i, n := InodeAt(d, ROOTINO), 16 * (|files| + 2);
    && i.kind == T_DIR && i.size == RoundedSize(n)
    && Reachable(d, i, BlocksOf(n)) && Bytes(d, i, n) == RootData(files, |files| + 2)
    && forall k :: n <= k < BSIZE * BlocksOf(n) ==> FileByte(d, i, k) == 0
  }

  function SuperFields(): (r: seq<byte>)
    ensures |r| == 28
  {
    U32(FSSIZE) + U32(FSSIZE - NMETA) + U32(NINODES) + U32(LOGSIZE) + U32(2) + U32(INODESTART) + U32(BMAPSTART)
  }

  /** The superblock in block 1. */
  function SuperBlock(): (b: Block) {
    Splice(ZeroBlock(), 0, SuperFields())
  }

  lemma FieldAt(a: seq<byte>, x: nat, b: seq<byte>, s: seq<byte>)
    requires s == a + U32(x) + b && x < 0x1_0000_0000
    ensures |a| + 4 <= |s| && Le32(s, |a|) == x
  {
    FieldInRecord(a, x, b);
  }

  /**
   * The fields of the superblock: size, data blocks, inodes, log blocks, and where the log, the inodes and the
   * bitmap start.
   */
  lemma SuperFieldsReadBack()
    ensures var s := SuperFields();
            && Le32(s, 0) == 1000 && Le32(s, 4) == 941 && Le32(s, 8) == 200 && Le32(s, 12) == 30
            && Le32(s, 16) == 2 && Le32(s, 20) == 32 && Le32(s, 24) == 58
  {
    var s := SuperFields();
    hide U32, Le32, SuperFields;
    var f := [U32(1000), U32(941), U32(200), U32(30), U32(2), U32(32), U32(58)];
    assert s == f[0] + f[1] + f[2] + f[3] + f[4] + f[5] + f[6] by { SuperIs(); }
    FieldAt([], 1000, f[1] + f[2] + f[3] + f[4] + f[5] + f[6], s);
    FieldAt(f[0], 941, f[2] + f[3] + f[4] + f[5] + f[6], s);
    FieldAt(f[0] + f[1], 200, f[3] + f[4] + f[5] + f[6], s);
    FieldAt(f[0] + f[1] + f[2], 30, f[4] + f[5] + f[6], s);
    FieldAt(f[0] + f[1] + f[2] + f[3], 2, f[5] + f[6], s);
    FieldAt(f[0] + f[1] + f[2] + f[3] + f[4], 32, f[6], s);
    FieldAt(f[0] + f[1] + f[2] + f[3] + f[4] + f[5], 58, [], s);
  }

  lemma SuperIs()
    ensures SuperFields() == U32(1000) + U32(941) + U32(200) + U32(30) + U32(2) + U32(32) + U32(58)
  {
  }

  function Pow2(k: nat): nat
    requires k < 8
  {
    [1, 2, 4, 8, 16, 32, 64, 128][k]
  }

  /** Bit `j` of the free map. */
  predicate Used(b: Block, j: nat)
    requires j < BSIZE * 8
  {
    b[j / 8] / Pow2(j % 8) % 2 == 1
  }

  /** The image as a whole: `free` blocks are in use and marked so. */
  ghost predicate Represents(d: Disk, files: seq<HostFile>, free: nat) {
    && Buildable(files)
    && d[1] == SuperBlock()
    && HoldsRoot(d, files)
    && (forall k :: 0 <= k < |files| ==> HoldsFile(d, k + 2, files[k].data))
    && free == NMETA + Need(16 * (|files| + 2)) + TotalNeed(files, |files|)
    && (forall j :: 0 <= j < BSIZE * 8 ==> (Used(d[BMAPSTART], j) <==> j < free))
  }

  // ---------------------------------------------------------------------------------------------
  // The root directory as a list of names

  /** A C string: the bytes before the first zero. */
  function CString(f: seq<byte>): seq<byte> {
    if f == [] || f[0] == 0 then [] else [f[0]] + CString(f[1..])
  }

  /** Names that fit an entry with their terminating zero. */
  predicate GoodName(n: seq<byte>) { 0 < |n| < DIRSIZ && 0 !in n && SLASH !in n }

  predicate GoodNames(files: seq<HostFile>) {
    forall k :: 0 <= k < |files| ==> GoodName(StoredName(files[k].name))
  }

  lemma {:induction false} CStringOfPrefix(n: seq<byte>, f: seq<byte>)
    requires |n| < |f| && n <= f && f[|n|] == 0 && 0 !in n
    ensures CString(f) == n
  {
    if n != [] { CStringOfPrefix(n[1..], f[1..]); }
  }

  /** `strncpy` followed by `strcmp` recovers the name. */
  lemma NameRoundTrip(n: seq<byte>)
    requires |n| < DIRSIZ && 0 !in n
    ensures CString(NameField(n)) == n
  {
    CStringOfPrefix(n, NameField(n));
  }

  lemma {:induction false} RootEntry(files: seq<HostFile>, n: nat, k: nat)
    requires k < n <= |files| + 2
    ensures RootData(files, n)[16 * k..16 * k + 16] == DirEntry(EntryInum(k), EntryName(files, k))
  {
    if k < n - 1 {
      RootEntry(files, n - 1, k);
      assert RootData(files, n)[16 * k..16 * k + 16] == RootData(files, n - 1)[16 * k..16 * k + 16];
    }
  }

  /** The first entry from `k` on with the given name; `|files| + 2` if there is none. */
  function IndexOf(files: seq<HostFile>, name: seq<byte>, k: nat): (j: nat)
    requires k <= |files| + 2
    ensures k <= j <= |files| + 2
    ensures forall t :: k <= t < j ==> EntryName(files, t) != name
    ensures j < |files| + 2 ==> EntryName(files, j) == name
    decreases |files| + 2 - k
  {
    if k == |files| + 2 || EntryName(files, k) == name then k else IndexOf(files, name, k + 1)
  }

  lemma IndexOfFirst(files: seq<HostFile>, name: seq<byte>, k: nat)
    requires k < |files| + 2 && EntryName(files, k) == name
    requires forall t: nat :: t < k ==> EntryName(files, t) != name
    ensures IndexOf(files, name, 0) == k
  {
    hide EntryName;
    var j := IndexOf(files, name, 0);
    assert j < k ==> EntryName(files, j) == name;
  }
}
