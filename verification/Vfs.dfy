/**
 * Path lookup (source/kernel/fs.cc) on the images of `mkfs`, and the round trip of writer and reader.
 * Paths are C strings without their terminating zero; the walk is over inode numbers.
 */
module Vfs {
  import opened DiskLayout
  import opened ImageSpec
  import opened Lists
  import opened V6fs
  import opened Words
  import Mkfs

  // ---------------------------------------------------------------------------------------------
  // Paths

  function SkipSlashes(p: seq<byte>): (r: seq<byte>)
    ensures |r| <= |p| && r == p[|p| - |r|..] && (r != [] ==> r[0] != SLASH)
  {
    if p != [] && p[0] == SLASH then SkipSlashes(p[1..]) else p
  }

  /** The length of the longest prefix without a slash. */
  function NameLength(p: seq<byte>): (n: nat)
    ensures n <= |p| && (n < |p| ==> p[n] == SLASH) && SLASH !in p[..n]
    ensures p != [] && p[0] != SLASH ==> n > 0
  {
    if p == [] || p[0] == SLASH then 0 else 1 + NameLength(p[1..])
  }

  /** The names between the slashes. */
  function Components(p: seq<byte>): (c: seq<seq<byte>>)
    decreases |p|
  {
    var q := SkipSlashes(p);
    if q == [] then [] else [q[..NameLength(q)]] + Components(q[NameLength(q)..])
  }

  /** What is left of a name in the kernel: its first 14 bytes. */
  function Clipped(name: seq<byte>): seq<byte> {
    if |name| > DIRSIZ then name[..DIRSIZ] else name
  }

  /** A name overruns the buffer of 14 bytes that it is copied to with a terminating zero. */
  predicate Overruns(name: seq<byte>) {
    |Clipped(name)| + 1 > DIRSIZ
  }

  lemma {:induction false} SkipFrom(p: seq<byte>, i: nat, j: nat)
    requires i <= j <= |p| && (forall k :: i <= k < j ==> p[k] == SLASH) && (j < |p| ==> p[j] != SLASH)
    ensures SkipSlashes(p[i..]) == p[j..]
    decreases j - i
  {
    if i < j {
      assert p[i..][1..] == p[i + 1..];
      SkipFrom(p, i + 1, j);
    }
  }

  lemma {:induction false} LengthFrom(p: seq<byte>, i: nat, j: nat)
    requires i <= j <= |p| && (forall k :: i <= k < j ==> p[k] != SLASH) && (j < |p| ==> p[j] == SLASH)
    ensures NameLength(p[i..]) == j - i
    decreases j - i
  {
  }

  /** Slashes in front of a path do not change its components. */
  lemma ComponentsSkip(p: seq<byte>)
    ensures Components(SkipSlashes(p)) == Components(p)
    ensures Components(p) == [] <==> SkipSlashes(p) == []
  {
  }

  /** Slashes from `pos` to `start`, a name from `start` to `end`. */
  lemma FirstComponent(p: seq<byte>, pos: nat, start: nat, end: nat)
    requires pos <= start < end <= |p|
    requires (forall k :: pos <= k < start ==> p[k] == SLASH) && (forall k :: start <= k < end ==> p[k] != SLASH)
    requires end < |p| ==> p[end] == SLASH
    ensures Components(p[pos..]) == [p[start..end]] + Components(p[end..])
    ensures Components(p[pos..])[0] == p[start..end]
  {
    hide SkipSlashes, NameLength, Components;
    SkipFrom(p, pos, start);
    LengthFrom(p, start, end);
    Slices(p, start, end);
    Compose(p[pos..], p[start..], end - start, p[start..end], p[end..]);
  }

  lemma Compose(p: seq<byte>, q: seq<byte>, n: nat, name: seq<byte>, rest: seq<byte>)
    requires SkipSlashes(p) == q && q != [] && NameLength(q) == n <= |q| && q[..n] == name && q[n..] == rest
    ensures Components(p) == [name] + Components(rest)
  {
  }

  lemma Slices(p: seq<byte>, start: nat, end: nat)
    requires start <= end <= |p|
    ensures p[start..][..end - start] == p[start..end] && p[start..][end - start..] == p[end..]
  {
  }

  /** Nothing but slashes from `pos` to `end`. */
  lemma RestComponents(p: seq<byte>, pos: nat, end: nat)
    requires pos <= end <= |p| && (forall k :: pos <= k < end ==> p[k] == SLASH) && (end < |p| ==> p[end] != SLASH)
    ensures Components(p[pos..]) == Components(p[end..])
    ensures Components(p[end..]) == [] <==> end == |p|
  {
    SkipFrom(p, pos, end);
    ComponentsSkip(p[pos..]);
  }

  /** `GetNextPathNameFromPath`: the next name, clipped, and the rest behind it, or nothing. */
  method NextPathName(path: seq<byte>, pos: nat) returns (r: Option<(seq<byte>, nat)>)
    requires pos <= |path|
    ensures r.None? <==> Components(path[pos..]) == []
    ensures r.Some? ==> pos < r.value.1 <= |path|
                        && Components(path[pos..])[1..] == Components(path[r.value.1..])
                        && r.value.0 == Clipped(Components(path[pos..])[0])
                        && (r.value.1 == |path| <==> Components(path[r.value.1..]) == [])
  {
    hide Components, SkipSlashes, NameLength;
    var i := pos;
    while i < |path| && path[i] == SLASH
      invariant pos <= i <= |path| && forall k :: pos <= k < i ==> path[k] == SLASH
    {
      i := i + 1;
    }
    RestComponents(path, pos, i);
    if i == |path| {
      return None;
    }
    var start := i;
    while i < |path| && path[i] != SLASH
      invariant start <= i <= |path| && forall k :: start <= k < i ==> path[k] != SLASH
    {
      i := i + 1;
    }
    FirstComponent(path, pos, start, i);
    ghost var full := path[start..i];
    var len := i - start;
    if len > DIRSIZ {
      len := DIRSIZ;
    }
    var name := path[start..start + len];
    assert name == Clipped(full);
    ghost var rest := i;
    while i < |path| && path[i] == SLASH
      invariant rest <= i <= |path| && forall k :: rest <= k < i ==> path[k] == SLASH
    {
      i := i + 1;
    }
    RestComponents(path, rest, i);
    return Some((name, i));
  }

  // ---------------------------------------------------------------------------------------------
  // Where a path leads in an image

  datatype Resolution = Found(inum: nat) | Failed(st: IoState)

  /** The outcome of `DirLookup` in the root directory. */
  function LookupRoot(files: seq<HostFile>, name: seq<byte>): Resolution {
    var k := IndexOf(files, name, 0);
    if k < |files| + 2 then Found(EntryInum(k))
    else Failed(if (|files| + 2) % 32 == 0 then NeedsAllocation else ErrNotFound)
  }

  /** Following the names from inode `cur`; only the root is a directory. */
  function Resolve(files: seq<HostFile>, cur: nat, names: seq<seq<byte>>): Resolution
    decreases |names|
  {
    if names == [] then Found(cur)
    else if Overruns(names[0]) then Failed(Overrun)
    else if cur != ROOTINO then Failed(ErrInvalid)
    else match LookupRoot(files, names[0])
      case Found(inum) => Resolve(files, inum, names[1..])
      case Failed(st) => Failed(st)
  }

  /** The directory that holds the last name. */
  function ResolveParent(files: seq<HostFile>, cur: nat, names: seq<seq<byte>>): Resolution
    decreases |names|
  {
    if names == [] then Failed(ErrInvalid)
    else if Overruns(names[0]) then Failed(Overrun)
    else if cur != ROOTINO then Failed(ErrInvalid)
    else if |names| == 1 then Found(cur)
    else match LookupRoot(files, names[0])
      case Found(inum) => ResolveParent(files, inum, names[1..])
      case Failed(st) => Failed(st)
  }

  /** Looking up the parent and then the last name is looking up the path. */
  lemma {:induction false} ParentThenName(files: seq<HostFile>, cur: nat, names: seq<seq<byte>>)
    requires names != []
    ensures var last := names[|names| - 1];
            Resolve(files, cur, names) ==
            match ResolveParent(files, cur, names)
            case Found(dir) => Resolve(files, dir, [last])
            case Failed(st) => Failed(st)
    decreases |names|
  {
    if !Overruns(names[0]) && cur == ROOTINO && |names| > 1 && LookupRoot(files, names[0]).Found? {
      ParentThenName(files, LookupRoot(files, names[0]).inum, names[1..]);
      assert names[1..][|names[1..]| - 1] == names[|names| - 1];
    } else if |names| == 1 {
      assert names == [names[0]];
    }
  }

  /** The walk overruns the buffer exactly when it reaches a name of 14 bytes or more. */
  lemma {:induction false} OverrunExact(files: seq<HostFile>, cur: nat, names: seq<seq<byte>>)
    ensures Resolve(files, cur, names) == Failed(Overrun) <==>
            exists k :: 0 <= k < |names| && |names[k]| >= DIRSIZ && Resolve(files, cur, names[..k]).Found?
    decreases |names|
  {
    if names != [] && !Overruns(names[0]) && cur == ROOTINO && LookupRoot(files, names[0]).Found? {
      var next := LookupRoot(files, names[0]).inum;
      OverrunExact(files, next, names[1..]);
      forall k | 0 < k <= |names| ensures Resolve(files, cur, names[..k]) == Resolve(files, next, names[1..][..k - 1]) {
        assert names[..k] == [names[0]] + names[1..][..k - 1];
        WalkStep(files, cur, names[0], names[1..][..k - 1]);
      }
      if k :| 0 <= k < |names[1..]| && |names[1..][k]| >= DIRSIZ && Resolve(files, next, names[1..][..k]).Found? {
        assert |names[k + 1]| >= DIRSIZ && Resolve(files, cur, names[..k + 1]).Found?;
      }
    } else if names != [] {
      assert names[..0] == [];
      forall k | 0 < k < |names| ensures Overruns(names[0]) || !Resolve(files, cur, names[..k]).Found? {
        assert names[..k] == [names[0]] + names[1..k];
        WalkStep(files, cur, names[0], names[1..k]);
      }
    }
  }

  /** What `ReadInode` finds: inode 1 is a directory, the others are files. */
  lemma KindOf(d: Disk, files: seq<HostFile>, free: nat, inum: nat)
    requires Represents(d, files, free) && 1 <= inum < |files| + 2
    ensures InodeAt(d, inum).kind == if inum == ROOTINO then T_DIR else T_FILE
  {
    if inum > 1 { assert HoldsFile(d, inum - 2 + 2, files[inum - 2].data); }
  }

  lemma ImageRoot(d: Disk, files: seq<HostFile>, free: nat)
    requires Represents(d, files, free)
    ensures |files| + 2 <= NINODES && HoldsRoot(d, files)
  {
  }

  lemma ClippedName(name: seq<byte>)
    ensures |Clipped(name)| + 1 <= DIRSIZ ==> Clipped(name) == name
  {
  }

  lemma NoNames(files: seq<HostFile>, cur: nat)
    ensures Resolve(files, cur, []) == Found(cur) && ResolveParent(files, cur, []) == Failed(ErrInvalid)
  {
  }

  /** One name of either walk. */
  lemma WalkStep(files: seq<HostFile>, cur: nat, name: seq<byte>, rest: seq<seq<byte>>)
    ensures Resolve(files, cur, [name] + rest) ==
            if Overruns(name) then Failed(Overrun)
            else if cur != ROOTINO then Failed(ErrInvalid)
            else if LookupRoot(files, name).Found? then Resolve(files, LookupRoot(files, name).inum, rest)
            else LookupRoot(files, name)
    ensures ResolveParent(files, cur, [name] + rest) ==
            if Overruns(name) then Failed(Overrun)
            else if cur != ROOTINO then Failed(ErrInvalid)
            else if rest == [] then Found(cur)
            else if LookupRoot(files, name).Found? then ResolveParent(files, LookupRoot(files, name).inum, rest)
            else LookupRoot(files, name)
  {
  }

  /** One name of the walk: `cinode` has to be a directory; unless its parent is wanted, the name is looked up. */
  method WalkName(fs: V6FileSystem, cinode: nat, name: seq<byte>, stop: bool, ghost files: seq<HostFile>, ghost free: nat)
    returns (r: Resolution)
    requires fs.Mounted() && Represents(fs.storage, files, free) && GoodNames(files) && 1 <= cinode < |files| + 2
    ensures r == if cinode != ROOTINO then Failed(ErrInvalid) else if stop then Found(cinode) else LookupRoot(files, name)
    ensures r.Found? ==> 1 <= r.inum < |files| + 2
  {
    ImageRoot(fs.storage, files, free);
    KindOf(fs.storage, files, free, cinode);
    hide Represents, HoldsRoot, InodeAt;
    var i := fs.ReadInode(cinode);
    if i.kind != T_DIR {
      return Failed(ErrInvalid);
    }
    if stop {
      return Found(cinode);
    }
    var st, offset, inum := fs.DirLookup(i, name, files);
    return if st == Ok then Found(inum) else Failed(st);
  }

  /**
   * `LookupInodeFromPath`: the inode the path leads to, or its parent directory. Copying a name out of its
   * buffer is the outcome `Overrun`.
   */
  method LookupInodeFromPath(fs: V6FileSystem, path: seq<byte>, parent: bool, ghost files: seq<HostFile>, ghost free: nat)
    returns (r: Resolution)
    requires fs.Mounted() && Represents(fs.storage, files, free) && GoodNames(files)
    ensures r == if path == [] || path[0] != SLASH then Failed(Panic)
                 else if parent then ResolveParent(files, ROOTINO, Components(path))
                 else Resolve(files, ROOTINO, Components(path))
  {
    hide Represents, Components, LookupRoot, Resolve, ResolveParent, Clipped;
    if path == [] || path[0] != SLASH {
      return Failed(Panic);
    }
    var cinode, pos := ROOTINO, 0;
    assert path[0..] == path;
    while true
      invariant pos <= |path| && 1 <= cinode < |files| + 2
      invariant Resolve(files, cinode, Components(path[pos..])) == Resolve(files, ROOTINO, Components(path))
      invariant parent ==>
                  ResolveParent(files, cinode, Components(path[pos..])) == ResolveParent(files, ROOTINO, Components(path))
      decreases |path| - pos
    {
      var next := NextPathName(path, pos);
      if next.None? {
        break;
      }
      var name, pos' := next.value.0, next.value.1;
      ghost var names := Components(path[pos..]);
      assert names == [names[0]] + Components(path[pos'..]);
      WalkStep(files, cinode, names[0], Components(path[pos'..]));
      ClippedName(names[0]);
      if |name| + 1 > DIRSIZ {
        return Failed(Overrun);
      }
      var stop := pos' == |path| && parent;
      r := WalkName(fs, cinode, name, stop, files, free);
      if r.Failed? || stop {
        return r;
      }
      cinode, pos := r.inum, pos';
    }
    NoNames(files, cinode);
    if parent {
      return Failed(ErrInvalid);
    }
    return Found(cinode);
  }

  // ---------------------------------------------------------------------------------------------
  // Writer and reader together

  /** No two files share a name, and none is called "." or "..". */
  predicate DistinctNames(files: seq<HostFile>) {
    && (forall j, k :: 0 <= j < k < |files| ==> StoredName(files[j].name) != StoredName(files[k].name))
    && (forall k :: 0 <= k < |files| ==> StoredName(files[k].name) != DOT && StoredName(files[k].name) != DOTDOT)
  }

  lemma EmptyPath()
    ensures Components([]) == []
  {
  }

  /** "/name" has the single component "name". */
  lemma SimplePath(name: seq<byte>)
    requires GoodName(name)
    ensures Components([SLASH] + name) == [name]
  {
    EmptyPath();
    hide Components, SkipSlashes, NameLength;
    var p := [SLASH] + name;
    FirstComponent(p, 0, 1, |p|);
    assert p[0..] == p && p[1..|p|] == name && p[|p|..] == [];
  }

  /** The names behind a slash each. */
  function Join(names: seq<seq<byte>>): seq<byte> {
    if names == [] then [] else [SLASH] + names[0] + Join(names[1..])
  }

  lemma OneMore(n: seq<byte>, rest: seq<byte>)
    requires n != [] && SLASH !in n && (rest == [] || rest[0] == SLASH)
    ensures Components([SLASH] + n + rest) == [n] + Components(rest)
  {
    hide Components, SkipSlashes, NameLength;
    var p, end := [SLASH] + n + rest, 1 + |n|;
    forall k | 1 <= k < end ensures p[k] != SLASH {
      assert p[k] == n[k - 1];
    }
    assert end < |p| ==> p[end] == rest[0];
    FirstComponent(p, 0, 1, end);
    assert p[0..] == p && p[1..end] == n && p[end..] == rest;
  }

  /** Taking a path apart undoes joining names that are not empty and have no slash. */
  lemma {:induction false} JoinComponents(names: seq<seq<byte>>)
    requires forall k :: 0 <= k < |names| ==> names[k] != [] && SLASH !in names[k]
    ensures Components(Join(names)) == names
    decreases |names|
  {
    hide Components;
    if names == [] {
      EmptyPath();
    } else {
      JoinComponents(names[1..]);
      JoinStarts(names[1..]);
      OneMore(names[0], Join(names[1..]));
      assert names == [names[0]] + names[1..];
    }
  }

  lemma JoinStarts(names: seq<seq<byte>>)
    ensures Join(names) == [] || Join(names)[0] == SLASH
  {
  }

  /** Further slashes do not matter. */
  lemma SlashesDoNotMatter(p: seq<byte>)
    ensures Components([SLASH] + p) == Components(p)
  {
    assert ([SLASH] + p)[1..] == p;
    ComponentsSkip(p);
    ComponentsSkip([SLASH] + p);
  }

  lemma EarlierEntry(files: seq<HostFile>, k: nat, t: nat)
    requires DistinctNames(files) && k < |files| && t < k + 2
    ensures EntryName(files, t) != StoredName(files[k].name)
  {
  }

  /** The path of file `k` leads to its inode. */
  lemma FileIsFound(files: seq<HostFile>, k: nat)
    requires GoodNames(files) && DistinctNames(files) && k < |files|
    ensures Resolve(files, ROOTINO, [StoredName(files[k].name)]) == Found(k + 2)
  {
    hide Resolve, EntryName, Clipped;
    var name := StoredName(files[k].name);
    EntryOfFile(files, k);
    IndexOfFirst(files, name, k + 2);
    ShortName(name);
    WalkStep(files, ROOTINO, name, []);
    NoNames(files, k + 2);
    assert [name] + [] == [name];
  }

  /** A host file "_n" is found under "/n", any other one under "/" and its own name. */
  lemma HostNameIsFound(files: seq<HostFile>, k: nat, n: seq<byte>)
    requires GoodNames(files) && DistinctNames(files) && k < |files|
    requires files[k].name == [UNDERSCORE] + n || (files[k].name == n && (n == [] || n[0] != UNDERSCORE))
    ensures Resolve(files, ROOTINO, Components([SLASH] + n)) == Found(k + 2)
  {
    hide Resolve, Components;
    FileIsFound(files, k);
    SimplePath(n);
  }

  /** "/.", "/.." and "/" lead to the root. */
  lemma RootIsFound(files: seq<HostFile>)
    ensures Resolve(files, ROOTINO, []) == Found(ROOTINO)
    ensures Resolve(files, ROOTINO, [DOT]) == Found(ROOTINO) == Resolve(files, ROOTINO, [DOTDOT])
  {
    hide Resolve;
    IndexOfFirst(files, DOT, 0);
    IndexOfFirst(files, DOTDOT, 1);
    WalkStep(files, ROOTINO, DOT, []);
    WalkStep(files, ROOTINO, DOTDOT, []);
    NoNames(files, ROOTINO);
    assert [DOT] + [] == [DOT] && [DOTDOT] + [] == [DOTDOT];
  }

  /** A name that no entry has is not found, or reaches the allocator if the entries fill their last block. */
  lemma OtherNameIsNotFound(files: seq<HostFile>, name: seq<byte>, rest: seq<seq<byte>>)
    requires |name| < DIRSIZ && name != DOT && name != DOTDOT
    requires forall k :: 0 <= k < |files| ==> StoredName(files[k].name) != name
    ensures Resolve(files, ROOTINO, [name] + rest)
            == Failed(if (|files| + 2) % 32 == 0 then NeedsAllocation else ErrNotFound)
  {
    WalkStep(files, ROOTINO, name, rest);
    assert forall t: nat :: t < |files| + 2 ==> EntryName(files, t) != name;
  }

  /** Nothing is found behind a file. */
  lemma FileIsNoDirectory(files: seq<HostFile>, k: nat, name: seq<byte>, rest: seq<seq<byte>>)
    requires GoodNames(files) && DistinctNames(files) && k < |files| && |name| < DIRSIZ
    ensures Resolve(files, ROOTINO, [StoredName(files[k].name)] + ([name] + rest)) == Failed(ErrInvalid)
  {
    hide Resolve, EntryName, Clipped;
    EntryOfFile(files, k);
    IndexOfFirst(files, StoredName(files[k].name), k + 2);
    ShortName(StoredName(files[k].name));
    WalkStep(files, ROOTINO, StoredName(files[k].name), [name] + rest);
    LengthShort(name);
    WalkStep(files, k + 2, name, rest);
  }

  lemma LengthShort(name: seq<byte>)
    requires |name| < DIRSIZ
    ensures !Overruns(name)
  {
  }

  lemma EntryOfFile(files: seq<HostFile>, k: nat)
    requires DistinctNames(files) && k < |files|
    ensures EntryName(files, k + 2) == StoredName(files[k].name)
    ensures forall t: nat :: t < k + 2 ==> EntryName(files, t) != StoredName(files[k].name)
  {
    forall t: nat | t < k + 2 ensures EntryName(files, t) != StoredName(files[k].name) {
      EarlierEntry(files, k, t);
    }
  }

  lemma ShortName(name: seq<byte>)
    requires GoodName(name)
    ensures !Overruns(name)
  {
  }

  /** `ReadDataFromInode` on file `k` of an image: the slice of the host file, clipped at its size. */
  method ReadFile(fs: V6FileSystem, k: nat, offset: nat, size: nat, ghost files: seq<HostFile>, ghost free: nat)
    returns (st: IoState, data: seq<byte>)
    requires fs.Mounted() && Represents(fs.storage, files, free) && k < |files| && offset < WORD64 && size < WORD64
    ensures var f := files[k].data;
            if offset > |f| || offset + size >= WORD64 then st == ErrInvalid && data == []
            else && st == Ok && |data| <= size && offset + |data| <= |f| && (|data| == size || offset + |data| == |f|)
                 && forall b :: 0 <= b < |data| ==> data[b] == f[offset + b]
  {
    hide Represents, InodeAt, FileByte, Reachable, BlocksOf;
    FileFacts(fs.storage, files, free, k);
    var i := fs.ReadInode(k + 2);
    BlocksCover(i.size);
    var buf := new byte[size];
    var n;
    st, n := fs.ReadData(buf, i, offset, size, BlocksOf(i.size));
    data := if st == Ok then buf[..n] else [];
  }

  lemma FileFacts(d: Disk, files: seq<HostFile>, free: nat, k: nat)
    requires Represents(d, files, free) && k < |files|
    ensures k + 2 < NINODES
    ensures var i, f := InodeAt(d, k + 2), files[k].data;
            && Reachable(d, i, BlocksOf(i.size)) && i.size == |f| <= BSIZE * MAXFILE
            && forall b :: 0 <= b < |f| ==> f[b] == FileByte(d, i, b)
  {
    assert HoldsFile(d, k + 2, files[k].data);
    hide FileByte, Reachable, InodeAt;
    var i, f := InodeAt(d, k + 2), files[k].data;
    assert forall b :: 0 <= b < |f| ==> f[b] == Bytes(d, i, i.size)[b];
  }

  lemma BlocksCover(n: nat)
    ensures n <= BSIZE * BlocksOf(n)
  {
  }

  lemma HasSuperBlock(d: Disk, files: seq<HostFile>, free: nat)
    requires Represents(d, files, free)
    ensures d[1] == SuperBlock()
  {
  }

  /**
   * For every list of files, writing an image with `mkfs` and then opening "/name" (or any path with
   * that single component) and reading any range through the kernel returns exactly that range of
   * the original file, clipped at its size.
   */
  method WriteThenRead(files: seq<HostFile>, path: seq<byte>, k: nat, offset: nat, size: nat)
    returns (st: IoState, data: seq<byte>)
    requires Buildable(files) && GoodNames(files) && DistinctNames(files)
    requires k < |files| && path != [] && path[0] == SLASH && Components(path) == [StoredName(files[k].name)]
    requires offset < WORD64 && size < WORD64
    ensures var f := files[k].data;
            if offset > |f| || offset + size >= WORD64 then st == ErrInvalid && data == []
            else && st == Ok && |data| <= size && offset + |data| <= |f| && (|data| == size || offset + |data| == |f|)
                 && forall b :: 0 <= b < |data| ==> data[b] == f[offset + b]
  {
    hide Components, Represents, Buildable, GoodNames, DistinctNames, Resolve, ResolveParent;
    FileIsFound(files, k);
    var d, free := Mkfs.Make(files);
    HasSuperBlock(d, files, free);
    var fs := new V6FileSystem(d);
    var r := LookupInodeFromPath(fs, path, false, files, free);
    st, data := ReadFile(fs, r.inum - 2, offset, size, files, free);
  }

  /** Thirty empty files with names of one letter. */
  function Thirty(): (r: seq<HostFile>)
    ensures |r| == 30 && forall k :: 0 <= k < 30 ==> r[k] == HostFile([65 + k], [])
  {
    seq(30, k requires 0 <= k < 30 => HostFile([65 + k], []))
  }

  lemma {:induction false} NoBlocks(n: nat)
    requires n <= 30
    ensures TotalNeed(Thirty(), n) == 0
  {
    if n > 0 { NoBlocks(n - 1); }
  }

  lemma ThirtyNames(k: nat)
    requires k < 30
    ensures SLASH !in Thirty()[k].name && GoodName(StoredName(Thirty()[k].name))
  {
  }

  lemma ThirtyFit()
    ensures Buildable(Thirty()) && GoodNames(Thirty())
  {
    hide GoodName, StoredName, Thirty, TotalNeed;
    NoBlocks(30);
    assert Need(16 * 32) == 1;
    forall k: nat | k < 30 ensures SLASH !in Thirty()[k].name && GoodName(StoredName(Thirty()[k].name)) {
      ThirtyNames(k);
    }
  }

  lemma ThirtyLack(name: byte)
    requires name > 95
    ensures Resolve(Thirty(), ROOTINO, [[name]]) == Failed(NeedsAllocation)
  {
    assert forall t :: 0 <= t < 32 ==> EntryName(Thirty(), t) != [name];
    assert IndexOf(Thirty(), [name], 0) == 32;
  }

  /**
   * The entries of an image with thirty files fill one block. Looking for a name that is not there runs into
   * the allocator instead of failing.
   */
  method LookupInFullBlock() returns (r: Resolution)
    ensures r == Failed(NeedsAllocation)
  {
    hide Thirty, Buildable, GoodNames, Represents, Resolve, ResolveParent, Components;
    ThirtyFit();
    ThirtyLack(122);
    var d, free := Mkfs.Make(Thirty());
    HasSuperBlock(d, Thirty(), free);
    var fs := new V6FileSystem(d);
    SimplePath([122]);
    r := LookupInodeFromPath(fs, [SLASH] + [122], false, Thirty(), free);
  }
}
