/**
 * The kernel's reader (source/kernel/v6fs.cc, source/kernel/v6fs.h) on the images of `mkfs`.
 * Where the kernel would call its block allocator the model stops with `NeedsAllocation`; no method
 * here modifies the storage.
 */
module V6fs {
  import opened DiskLayout
  import opened ImageSpec
  import opened Words

  datatype IoState = Ok | ErrInvalid | ErrNotFound | ErrStorage | NeedsAllocation | Overrun | Panic

  /** `Storage::Read`: `n` consecutive bytes of the device. */
  function DeviceBytes(d: Disk, off: nat, n: nat): (s: seq<byte>)
    requires off + n <= BSIZE * FSSIZE
    ensures |s| == n
  {
    seq(n, k requires 0 <= k < n => d[(off + k) / BSIZE][(off + k) % BSIZE])
  }

  /** A read within one block. */
  lemma WithinBlock(d: Disk, b: nat, o: nat, n: nat)
    requires b < FSSIZE && o + n <= BSIZE
    ensures b * BSIZE + o + n <= BSIZE * FSSIZE && DeviceBytes(d, b * BSIZE + o, n) == d[b][o..o + n]
  {
  }

  /** The address arithmetic of `V6fsInode::Read` hits the 64 bytes `mkfs` wrote. */
  lemma InodeAddress(d: Disk, inum: nat)
    requires inum < NINODES
    ensures INODESTART * BSIZE + 64 * inum + 64 <= BSIZE * FSSIZE
    ensures DecodeInode(DeviceBytes(d, INODESTART * BSIZE + 64 * inum, 64), 0) == InodeAt(d, inum)
  {
    var b, o := INODESTART + inum / IPB, 64 * (inum % IPB);
    assert INODESTART * BSIZE + 64 * inum == b * BSIZE + o;
    WithinBlock(d, b, o, 64);
    DecodeSlice(d[b], o);
  }

  /** What lies in the block of a position is what the file holds there. */
  lemma ChunkOfFile(d: Disk, i: Dinode, m: nat, offset: nat, n: nat)
    requires Reachable(d, i, m) && offset / BSIZE < m && offset % BSIZE + n <= BSIZE
    ensures var addr := BlockNo(d, i, offset / BSIZE);
            && addr * BSIZE + offset % BSIZE + n <= BSIZE * FSSIZE && offset + n <= BSIZE * m
            && var chunk := DeviceBytes(d, addr * BSIZE + offset % BSIZE, n);
               forall k :: 0 <= k < n ==> chunk[k] == FileByte(d, i, offset + k)
  {
  }

  /** Entry `k` of a root directory, byte by byte; behind the last entry everything is zero. */
  lemma RootEntryBytes(d: Disk, files: seq<HostFile>, k: nat, e: seq<byte>)
    requires |files| + 2 <= NINODES && HoldsRoot(d, files) && GoodNames(files) && |e| == 16
    requires 16 * k + 16 <= BSIZE * BlocksOf(16 * (|files| + 2))
    requires forall b :: 0 <= b < 16 ==> e[b] == FileByte(d, InodeAt(d, ROOTINO), 16 * k + b)
    ensures if k < |files| + 2 then Le16(e, 0) == EntryInum(k) && CString(e[2..]) == EntryName(files, k) else Le16(e, 0) == 0
  {
    hide FileByte, InodeAt, NameField, CString, U16, Le16, RootData;
    var i, n := InodeAt(d, ROOTINO), |files| + 2;
    if k < n {
      RootEntry(files, n, k);
      assert e == Bytes(d, i, 16 * n)[16 * k..16 * k + 16];
      var inum, name := EntryInum(k), EntryName(files, k);
      assert e == U16(inum) + NameField(name);
      assert e[2..] == NameField(name);
      EntryInumBack(e, inum);
      NameRoundTrip(name);
    } else {
      ZeroInum(e);
    }
  }

  lemma EntryInumBack(e: seq<byte>, inum: nat)
    requires |e| == 16 && e[..2] == U16(inum) && inum < 0x1_0000
    ensures Le16(e, 0) == inum
  {
  }

  lemma ZeroInum(e: seq<byte>)
    requires |e| == 16 && e[0] == 0 && e[1] == 0
    ensures Le16(e, 0) == 0
  {
  }

  /** Entries do not straddle blocks. */
  lemma EntryInBlock(m: nat, k: nat)
    requires 16 * k < BSIZE * m
    ensures 16 * k + 16 <= BSIZE * m
  {
  }

  /** The rounded size of a directory of `n` entries against the blocks it has. */
  lemma RoundedRoot(n: nat)
    requires 0 < n <= NINODES
    ensures var m := BlocksOf(16 * n);
            && 16 * n <= BSIZE * m && m < MAXFILE
            && RoundedSize(16 * n) == BSIZE * m + (if n % 32 == 0 then BSIZE else 0)
  {
  }

  lemma RootFacts(d: Disk, files: seq<HostFile>)
    requires |files| + 2 <= NINODES && HoldsRoot(d, files)
    ensures var i, n := InodeAt(d, ROOTINO), 16 * (|files| + 2); Reachable(d, i, BlocksOf(n)) && i.size == RoundedSize(n)
  {
  }

  lemma SuperIsRead(d: Disk)
    requires d[1] == SuperBlock()
    ensures DeviceBytes(d, BSIZE, 28) == SuperFields()
  {
    hide SuperFields;
    WithinBlock(d, 1, 0, 28);
  }

  /** Entry `k` lies in the root directory and, below its last block, wholly. */
  lemma EntryFacts(d: Disk, files: seq<HostFile>, k: nat)
    requires |files| + 2 <= NINODES && HoldsRoot(d, files)
    ensures var i, m := InodeAt(d, ROOTINO), BlocksOf(16 * (|files| + 2));
            && Reachable(d, i, m) && i.size < WORD32 && m < MAXFILE && (16 * k < BSIZE * m ==> 16 * k + 16 <= BSIZE * m)
  {
    RoundedRoot(|files| + 2);
    RootFacts(d, files);
    hide FileByte, BlockNo, InodeAt, Reachable, RootData, RoundedSize, BlocksOf, HoldsRoot;
    var m := BlocksOf(16 * (|files| + 2));
    if 16 * k < BSIZE * m { EntryInBlock(m, k); }
  }

  class V6FileSystem {
    var storage: Disk
    var inodestart: nat
    var ninodes: nat

    /** The superblock sits in block 1. */
    constructor (d: Disk)
      requires d[1] == SuperBlock()
      ensures storage == d && inodestart == INODESTART && ninodes == NINODES
    {
      var sb := DeviceBytes(d, BSIZE, 28);
      storage := d;
      ninodes := Le32(sb, 8);
      inodestart := Le32(sb, 20);
      new;
      hide SuperFields, Le32, DeviceBytes, SuperBlock;
      SuperIsRead(d);
      SuperFieldsReadBack();
    }

    predicate Mounted()
      reads this
    {
      inodestart == INODESTART && ninodes == NINODES
    }

    /** `V6fsInode::Read` */
    method ReadInode(inum: nat) returns (i: Dinode)
      requires Mounted() && inum < ninodes
      ensures i == InodeAt(storage, inum)
    {
      InodeAddress(storage, inum);
      i := DecodeInode(DeviceBytes(storage, inodestart * BSIZE + 64 * inum, 64), 0);
    }

    /** `MapBlock` on a file whose first `m` positions are mapped: the block number, without allocating. */
    method MapBlock(i: Dinode, index: nat, ghost m: nat) returns (st: IoState, addr: nat)
      requires Reachable(storage, i, m)
      ensures index < m ==> st == Ok && addr == BlockNo(storage, i, index)
      ensures m <= index < MAXFILE ==> st == NeedsAllocation
      ensures index >= MAXFILE ==> st == ErrInvalid
    {
      addr := 0;
      if index < NDIRECT {
        assert i.addrs[index] == BlockNo(storage, i, index);
        addr := i.addrs[index];
        return if addr == 0 then NeedsAllocation else Ok, addr;
      }
      var e := index - NDIRECT;
      if e < NINDIRECT {
        addr := i.addrs[NDIRECT];
        if addr == 0 {
          return NeedsAllocation, 0;
        }
        WithinBlock(storage, addr, 4 * e, 4);
        assert Le32(storage[addr][4 * e..4 * e + 4], 0) == BlockNo(storage, i, index);
        addr := Le32(DeviceBytes(storage, addr * BSIZE + 4 * e, 4), 0);
        return if addr == 0 then NeedsAllocation else Ok, addr;
      } else {
        return ErrInvalid, 0;
      }
    }

    /**
     * `ReadDataFromInode`: the bytes from `offset0` on, clipped at the size of the file.  A read that
     * runs into an unmapped position delivers the bytes before it and fails.
     */
    method ReadData(buf: array<byte>, i: Dinode, offset0: nat, size0: nat, ghost m: nat)
      returns (st: IoState, size: nat)
      requires Reachable(storage, i, m) && i.size < WORD32 && offset0 < WORD64 && size0 < WORD64 && size0 <= buf.Length
      modifies buf
      ensures var end := if offset0 + size0 > i.size then i.size else offset0 + size0;
              if offset0 > i.size || offset0 + size0 >= WORD64 then st == ErrInvalid && size == size0
              else if end <= BSIZE * m || end == offset0 then st == Ok && size == end - offset0
              else && st == (if m < MAXFILE && offset0 < BSIZE * MAXFILE then NeedsAllocation else ErrInvalid)
                   && size == if offset0 < BSIZE * m then BSIZE * m - offset0 else 0
      ensures offset0 <= i.size && offset0 + size0 < WORD64 ==>
                size <= size0 && (size > 0 ==> offset0 + size <= BSIZE * m) &&
                forall k :: 0 <= k < buf.Length ==>
                  buf[k] == if k < size then FileByte(storage, i, offset0 + k) else old(buf[k])
      ensures offset0 > i.size || offset0 + size0 >= WORD64 ==> buf[..] == old(buf[..])
    {
      hide FileByte, BlockNo, DeviceBytes, Reachable;
      size := size0;
      if offset0 > i.size || (offset0 + size) % WORD64 < offset0 {
        return ErrInvalid, size;
      }
      if offset0 + size > i.size {
        size := i.size - offset0;
      }
      var total: nat, offset := 0, offset0;
      while total < size
        invariant total <= size && offset == offset0 + total
        invariant total > 0 ==> offset <= BSIZE * m
        invariant total == 0 || total == size || offset % BSIZE == 0
        invariant forall k :: 0 <= k < buf.Length ==>
                    buf[k] == if k < total then FileByte(storage, i, offset0 + k) else old(buf[k])
      {
        var addr;
        st, addr := MapBlock(i, offset / BSIZE, m);
        if st != Ok {
          return st, total;
        }
        var cur := BSIZE - offset % BSIZE;
        if cur > size - total {
          cur := size - total;
        }
        ChunkOfFile(storage, i, m, offset, cur);
        var chunk := DeviceBytes(storage, addr * BSIZE + offset % BSIZE, cur);
        forall k | 0 <= k < cur {
          buf[total + k] := chunk[k];
        }
        total, offset := total + cur, offset + cur;
      }
      st := Ok;
    }

    /** The body of the loop in `DirLookup`: entry `k` of the root directory, at byte `i`. */
    method ReadEntry(dinode: Dinode, i: nat, ghost k: nat, ghost files: seq<HostFile>)
      returns (st: IoState, num: nat, name: seq<byte>)
      requires |files| + 2 <= NINODES && HoldsRoot(storage, files) && GoodNames(files)
      requires dinode == InodeAt(storage, ROOTINO) && i == 16 * k && i + 16 <= dinode.size
      requires i <= BSIZE * BlocksOf(16 * (|files| + 2))
      ensures if i == BSIZE * BlocksOf(16 * (|files| + 2)) then st == NeedsAllocation
              else st == Ok && if k < |files| + 2 then num == EntryInum(k) && name == EntryName(files, k) else num == 0
    {
      EntryFacts(storage, files, k);
      hide FileByte, BlockNo, InodeAt, Reachable, RootData, RoundedSize, BlocksOf, CString, Bytes;
      hide EntryName, EntryInum, HoldsRoot, GoodNames;
      num, name := 0, [];
      var entry := new byte[16];
      var size;
      st, size := ReadData(entry, dinode, i, 16, BlocksOf(16 * (|files| + 2)));
      if st == Ok {
        if size != 16 {
          return ErrInvalid, num, name;
        }
        RootEntryBytes(storage, files, k, entry[..]);
        num, name := Le16(entry[..], 0), CString(entry[2..]);
      }
    }

    /**
     * `DirLookup` in the root directory: the first entry with that name.  A search that fails runs into
     * the allocator exactly when the entries fill their last block, because the size was rounded up past it.
     */
    method DirLookup(dinode: Dinode, name: seq<byte>, ghost files: seq<HostFile>)
      returns (st: IoState, offset: nat, inum: nat)
      requires |files| + 2 <= NINODES && HoldsRoot(storage, files) && GoodNames(files)
      requires dinode == InodeAt(storage, ROOTINO)
      ensures var k := IndexOf(files, name, 0);
              if k < |files| + 2 then st == Ok && offset == 16 * k && inum == EntryInum(k)
              else st == if (|files| + 2) % 32 == 0 then NeedsAllocation else ErrNotFound
    {
      ghost var n := |files| + 2;
      ghost var k: nat := 0;
      RoundedRoot(n);
      hide FileByte, BlockNo, InodeAt, Reachable, RootData, RoundedSize, BlocksOf, CString, Bytes;
      hide EntryName, EntryInum, IndexOf;
      offset, inum := 0, 0;
      if dinode.kind != T_DIR {
        return ErrInvalid, offset, inum;
      }
      var i: nat := 0;
      while i < dinode.size
        invariant i == 16 * k && i <= BSIZE * BlocksOf(16 * n)
        invariant forall t: nat :: t < n && t < k ==> EntryName(files, t) != name
      {
        var num, entryName;
        if i < BSIZE * BlocksOf(16 * n) { EntryInBlock(BlocksOf(16 * n), k); }
        st, num, entryName := ReadEntry(dinode, i, k, files);
        if st != Ok {
          return;
        }
        if num != 0 && name == entryName {
          IndexOfFirst(files, name, k);
          return Ok, i, num;
        }
        i := i + 16;
        k := k + 1;
      }
      st := ErrNotFound;
    }
  }
}
