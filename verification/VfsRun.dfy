/** Whole runs: any sequence of calls on a volume made by mksfs, and what holds after each. */
module VfsRun {
  import opened Basics
  import opened Bytes
  import opened Bitmaps
  import opened Uios
  import opened SfsFormat
  import opened SfsOwnership
  import opened SfsVolume
  import opened SfsState
  import opened SfsBmap
  import opened Directory
  import opened SfsDir
  import opened SfsNames
  import opened SfsOps
  import opened SfsFiles
  import M = SfsMount
  import opened VfsPaths
  import opened Vfs
  import Mksfs

  datatype Call =
    | Open(path: Name, flags: Flags, devopen: Errno)
    | Close(x: VRef)
    | Remove(path: Name)
    | Rename(oldpath: Name, newpath: Name)
    | Link(oldpath: Name, newpath: Name)
    | ReadAt(x: VRef, offset: nat, mem: seq<Byte>)
    | WriteAt(x: VRef, offset: nat, mem: seq<Byte>)
    | Truncate(x: VRef, len: nat)
    | Sync
    | Chdir(path: Name)
    | ClearCurdir
    | SetBootfs(path: Name)
    | ClearBootfs
    | Fork
    | Switch(thread: nat)

  /** What callers must see to: offsets fit a 32-bit off_t, and only regular files are linked. */
  predicate Allowed(c: Call, table: map<Name, Target>) {
    match c
    case ReadAt(_, off, mem) => off + |mem| < 0x8000_0000
    case WriteAt(_, off, mem) => off + |mem| < 0x8000_0000
    case Truncate(_, len) => len < 0x8000_0000
    case Link(path, _) => Parse(path).1 != [] || NamesPlain(table, path)
    case _ => true
  }

  /** Not a truncation to a length that leaves old bytes behind in some file. */
  predicate Tidy(c: Call) {
    c.Truncate? ==> SafeLength(c.len)
  }

  /** A truncation of an open file that leaves old bytes behind past the new end. */
  ghost predicate Cuts(v: Vfs, c: Call)
    requires Valid(v.fs)
    reads v, v.fs, v.fs.freemap
  {
    && c.Truncate? && c.x in v.h.handles && c.x.Node? && IsFile(v.fs, c.x.p)
    && !TailErased(FileAt(v.fs, c.x.p).bytes, c.len)
  }

  /** Truncation to a safe length, or to no less than the size, leaves none. */
  lemma CutsNot(v: Vfs, c: Call)
    requires Valid(v.fs)
    ensures Tidy(c) ==> !Cuts(v, c)
    ensures c.Truncate? && c.x.Node? && IsFile(v.fs, c.x.p) && c.len >= |FileAt(v.fs, c.x.p).bytes| ==> !Cuts(v, c)
  {
    hide Sfs.Sound, NamesOk, ViewOf;
    if c.Truncate? && c.x.Node? && IsFile(v.fs, c.x.p) {
      var s := FileAt(v.fs, c.x.p).bytes;
      hide TailErased;
      if SafeLength(c.len) {
        SafeTail(s, c.len);
      }
      if c.len >= |s| {
        TruncateClean(s, c.len);
      }
    }
  }

  /** If only file ino changed, and all was clean, all is clean exactly if that file is. */
  lemma OneClean(v: View, w: View, ino: int, g: File)
    requires OnlyFile(v, w, ino, g) && AllClean(v)
    ensures AllClean(w) <==> g.clean
  {
    assert ino in w.files && w.files[ino] == g;
  }

  lemma WasClean(v: View, ino: int)
    requires AllClean(v) && ino in v.files
    ensures v.files[ino].clean
  {
  }

  lemma HandleInMem(v: Vfs, x: VRef)
    requires v.Conserved() && x in v.h.handles && x.Node?
    ensures x.p in v.fs.tab.heap
  {
    hide Sfs.Sound, NamesOk, Tied, Dirs;
    HeldLoaded(v.fs);
    TiedFacts(v.fs.tab, v.fs.refs, v.devs, v.h, multiset{}, multiset{}, x);
  }

  /** read, write and ftruncate on a regular file. */
  method Act(fs: Sfs, p: int, c: Call)
    requires Valid(fs) && IsFile(fs, p) && (c.ReadAt? || c.WriteAt? || c.Truncate?) && Allowed(c, map[])
    modifies fs, fs.freemap
    ensures Valid(fs) && IsFile(fs, p) && fs.refs == old(fs.refs) && OnlyInode(old(fs.tab), fs.tab, p)
    ensures Sight(fs).names == old(Sight(fs)).names && (c.Truncate? ==> |FileAt(fs, p).bytes| == c.len)
    ensures old(AllClean(Sight(fs))) ==>
      (AllClean(Sight(fs)) <==> (c.Truncate? ==> TailErased(old(FileAt(fs, p)).bytes, c.len)))
  {
    hide Sfs.Sound, NamesOk, ViewOf, AllClean, TailErased;
    ghost var view, was := Sight(fs), FileAt(fs, p);
    if AllClean(view) {
      WasClean(view, fs.tab.heap[p].ino);
    }
    var err;
    match c {
      case ReadAt(_, off, mem) =>
        var uio := new Uio(Read, off, mem);
        err := ReadFile(fs, p, uio);
      case WriteAt(_, off, mem) =>
        var uio := new Uio(Write, off, mem);
        err := WriteFile(fs, p, uio);
      case Truncate(_, len) =>
        TruncateFile(fs, p, len);
    }
    if AllClean(view) && !c.ReadAt? {
      OneClean(view, Sight(fs), fs.tab.heap[p].ino, FileAt(fs, p));
    }
  }

  /** x is an open handle of a regular file. */
  ghost predicate Opened(fs: Sfs, h: Holders, x: VRef)
    reads fs
  {
    x in h.handles && x.Node? && IsFile(fs, x.p)
  }

  /** read, write and ftruncate on an open handle. */
  method FileCall(v: Vfs, c: Call)
    requires v.Conserved() && (c.ReadAt? || c.WriteAt? || c.Truncate?) && Allowed(c, v.table)
    modifies v.fs, v.fs.freemap
    ensures v.Conserved() && Sight(v.fs).names == old(Sight(v.fs)).names
    ensures old(AllClean(Sight(v.fs))) ==> (AllClean(Sight(v.fs)) <==> !old(Cuts(v, c)))
    ensures c.Truncate? && Opened(v.fs, v.h, c.x) ==> |FileAt(v.fs, c.x.p).bytes| == c.len
  {
    hide Sfs.Sound, NamesOk, Tied, Dirs, Owned, ViewOf, AllClean, TailErased;
    if c.x !in v.h.handles || c.x.Raw? {
      return;
    }
    HandleInMem(v, c.x);
    KindOf(v.fs, c.x.p);
    if v.fs.tab.heap[c.x.p].inode.kind == TYPE_DIR {
      return;
    }
    ghost var t, r := v.fs.tab, v.fs.refs;
    Act(v.fs, c.x.p, c);
    SettledSame(v, t, r, multiset{}, multiset{});
  }

  method SyncAll(v: Vfs)
    requires v.Conserved()
    modifies v.fs
    ensures v.Conserved() && M.Synced(v.fs) && Sight(v.fs) == old(Sight(v.fs)) && v.fs.refs == old(v.fs.refs)
  {
    hide Sfs.Sound, NamesOk, Tied, Dirs, Owned, ViewOf;
    ghost var t, r := v.fs.tab, v.fs.refs;
    M.Sync(v.fs);
    SettledSame(v, t, r, multiset{}, multiset{});
  }

  /** What a call has done, and said. */
  twostate predicate Did(v: Vfs, c: Call, err: Errno)
    requires old(Valid(v.fs)) && Valid(v.fs)
    reads v, v.fs, v.fs.freemap
  {
    var names, names' := old(Sight(v.fs)).names, Sight(v.fs).names;
    match c
    case Open(path, f, devopen) =>
      && OpenResult(v.table, old(v.h), old(v.cur), path, f, devopen, old(v.fs.Vol()), names, names', err)
      && |v.h.handles| == |old(v.h).handles| + (if err == OK then 1 else 0)
    case Close(x) => v.h == old(v.h).(handles := old(v.h).handles - multiset{x}) && names' == names
    case Remove(path) =>
      if err == OK then Parse(path).1 in names && names' == names - {Parse(path).1} else Sight(v.fs) == old(Sight(v.fs))
    case Rename(path, newpath) =>
      if err == OK then Renames(old(Sight(v.fs)), Sight(v.fs), Parse(path).1, Parse(newpath).1, OK)
      else Sight(v.fs) == old(Sight(v.fs))
    case Link(path, newpath) =>
      && LinkResult(v.table, old(v.h), old(v.cur), path, newpath, names, err)
      && (err == OK ==> Parse(path).1 in names && names' == names[Parse(newpath).1 := names[Parse(path).1]])
    case ReadAt(_, _, _) => names' == names
    case WriteAt(_, _, _) => names' == names
    case Truncate(x, len) => names' == names && (Opened(v.fs, v.h, x) ==> |FileAt(v.fs, x.p).bytes| == len)
    case Sync => M.Synced(v.fs) && Sight(v.fs) == old(Sight(v.fs))
    case Chdir(path) => err == ChdirError(v.table, old(v.h), old(v.cur), path, names) && names' == names
    case ClearCurdir => v.cur < |v.h.cwds| && v.h.cwds[v.cur].None?
    case SetBootfs(_) => err == OK ==> v.h.bootfs.Some?
    case ClearBootfs => v.h.bootfs.None?
    case Fork => |v.h.cwds| == |old(v.h).cwds| + 1
    case Switch(i) => i < |v.h.cwds| ==> v.cur == i
  }

  /** The calls on names. */
  method NameCall(v: Vfs, c: Call) returns (err: Errno)
    requires v.Conserved() && Allowed(c, v.table)
    requires c.Open? || c.Close? || c.Remove? || c.Rename? || c.Link?
    modifies v, v.fs, v.fs.freemap
    ensures v.Conserved() && (old(AllClean(Sight(v.fs))) ==> (AllClean(Sight(v.fs)) <==> !old(Cuts(v, c))))
    ensures Did(v, c, err)
  {
    hide Sfs.Sound, NamesOk, Tied, Dirs, Owned, ViewOf, Parse, NamesPlain, AllClean, OpenResult, LinkResult, ChdirError;
    err := OK;
    var x;
    match c {
      case Open(path, f, devopen) => err, x := v.Open(path, f, devopen);
      case Close(y) => if y in v.h.handles { v.Close(y); }
      case Remove(path) => err := v.Remove(path);
      case Rename(path, newpath) => err := v.Rename(path, newpath);
      case Link(path, newpath) => err := v.Link(path, newpath);
    }
  }

  /** The calls on working directories and the boot file system. */
  method HomeCall(v: Vfs, c: Call) returns (err: Errno)
    requires v.Conserved() && Allowed(c, v.table)
    requires c.Chdir? || c.ClearCurdir? || c.SetBootfs? || c.ClearBootfs? || c.Fork? || c.Switch?
    modifies v, v.fs, v.fs.freemap
    ensures v.Conserved() && (old(AllClean(Sight(v.fs))) ==> (AllClean(Sight(v.fs)) <==> !old(Cuts(v, c))))
    ensures Did(v, c, err)
  {
    hide Sfs.Sound, NamesOk, Tied, Dirs, Owned, ViewOf, Parse, NamesPlain, AllClean, OpenResult, LinkResult, ChdirError;
    err := OK;
    match c {
      case Chdir(path) => err := v.Chdir(path);
      case ClearCurdir => v.ClearCurdir();
      case SetBootfs(path) => err := v.SetBootfs(path);
      case ClearBootfs => v.ClearBootfs();
      case Fork => v.Fork();
      case Switch(i) => if i < |v.h.cwds| { v.cur := i; }
    }
  }

  /** One call by the current thread. */
  method Step(v: Vfs, c: Call) returns (err: Errno)
    requires v.Conserved() && Allowed(c, v.table)
    modifies v, v.fs, v.fs.freemap
    ensures v.Conserved() && (old(AllClean(Sight(v.fs))) ==> (AllClean(Sight(v.fs)) <==> !old(Cuts(v, c))))
    ensures Did(v, c, err)
  {
    hide Sfs.Sound, NamesOk, Tied, Dirs, Owned, ViewOf, Parse, NamesPlain, AllClean, OpenResult, LinkResult, ChdirError;
    err := OK;
    if c.ReadAt? || c.WriteAt? || c.Truncate? {
      FileCall(v, c);
    } else if c.Sync? {
      SyncAll(v);
    } else if c.Open? || c.Close? || c.Remove? || c.Rename? || c.Link? {
      err := NameCall(v, c);
    } else {
      err := HomeCall(v, c);
    }
  }

  /** Every run of calls, whichever of them fail, keeps the invariant.  If none of them cuts, bytes
      past the end of a file stay zero, so every write is a write to a byte string; none does if
      all truncations are to safe lengths. */
  method Run(v: Vfs, calls: seq<Call>) returns (ghost cut: bool)
    requires v.Conserved() && forall k :: 0 <= k < |calls| ==> Allowed(calls[k], v.table)
    modifies v, v.fs, v.fs.freemap
    ensures v.Conserved() && (!cut ==> StaysClean(old(Sight(v.fs)), Sight(v.fs)))
    ensures cut ==> exists k :: 0 <= k < |calls| && !Tidy(calls[k])
  {
    hide Valid, Tied, Dirs, ViewOf, AllClean, Cuts, Tidy;
    cut := false;
    for k := 0 to |calls|
      invariant v.Conserved() && (!cut ==> StaysClean(old(Sight(v.fs)), Sight(v.fs)))
      invariant cut ==> exists j :: 0 <= j < |calls| && !Tidy(calls[j])
    {
      CutsNot(v, calls[k]);
      if Cuts(v, calls[k]) {
        cut := true;
      }
      var err := Step(v, calls[k]);
    }
  }

  lemma HasMagic(v: Vol, loaded: set<int>)
    requires M.DiskHolds(v, loaded)
    ensures |v.disk| > 0 && WordAt(v.disk[SUPER_LOCATION], 0) == MAGIC
  {
  }

  lemma MarksOwned(v: Vol)
    requires VolOk(v)
    ensures |v.disk| <= |v.bits| && BitsOk(|v.disk|, v.bits, v.owner)
  {
    assert Is(v, v);
  }

  lemma NoLarger(s: set<int>, t: set<int>)
    requires s <= t
    ensures |s| <= |t|
  {
    assert t == s + (t - s);
  }

  lemma ThreeFree(v: Vol, b: int)
    requires 0 <= b && b + 3 <= |v.disk| <= |v.bits| && !v.bits[b] && !v.bits[b + 1] && !v.bits[b + 2]
    ensures !Scarce(v, 2)
  {
    NoLarger({b, b + 1, b + 2}, FreeSet(v));
  }

  lemma FreshRoom(disk: seq<Block>)
    requires MAP_LOCATION + BitBlocks(|disk|) <= |disk| && M.DiskHolds(Mksfs.FreshVol(disk), {})
    ensures RootSize(Mksfs.FreshVol(disk)) == 0
    ensures |disk| >= MAP_LOCATION + BitBlocks(|disk|) + 3 ==> !Scarce(Mksfs.FreshVol(disk), 2)
  {
    hide VolOk, Bits, M.MapBytes, NamesOk, IsSuper, BitBlocks, Scarce;
    var v := Mksfs.FreshVol(disk);
    MarksOwned(v);
    if |disk| >= MAP_LOCATION + BitBlocks(|disk|) + 3 {
      ThreeFree(v, MAP_LOCATION + BitBlocks(|disk|));
    }
  }

  lemma StartsConserved(v: Vfs)
    requires v.Inv(multiset{}, multiset{})
    ensures v.Conserved()
  {
    hide Vfs.Inv;
  }

  /** A device formatted by mksfs and mounted. */
  method Mounted(dev: seq<Block>, volname: seq<Byte>, table: map<Name, Target>, devices: set<Name>)
    returns (ok: bool, v: Vfs?)
    requires 3 <= |dev| < 0x1_0000_0000
    requires forall n :: n in table && table[n].Plain? ==> table[n].dev in devices
    ensures ok <==>
      Mksfs.LegalName(volname) && |Mksfs.BareName(volname)| < VOLNAMESIZE && BitBlocks(|dev|) <= MAXBITBLOCKS
    ensures ok ==> v != null && fresh(v) && fresh(v.fs) && fresh(v.fs.freemap) && v.Conserved() && v.table == table
    ensures ok ==> Sight(v.fs) == View(map[], map[]) && RootSize(v.fs.Vol()) == 0
    ensures ok && |dev| >= MAP_LOCATION + BitBlocks(|dev|) + 3 ==> !Scarce(v.fs.Vol(), 2)
  {
    hide NamesOk, Sfs.Sound, Tied, Dirs, M.DiskHolds, ViewOf, BitBlocks, Scarce, RootSize;
    var disk, err, fs;
    ok, disk := Mksfs.MakeSfs(dev, volname);
    if !ok {
      return false, null;
    }
    HasMagic(Mksfs.FreshVol(disk), {});
    FreshRoom(disk);
    err, fs := M.DoMount(disk, Mksfs.FreshVol(disk));
    v := new Vfs(fs, table, devices);
    StartsConserved(v);
  }

  /** From a device formatted by mksfs, through mounting, to the end of any run. */
  method FromScratch(dev: seq<Block>, volname: seq<Byte>, table: map<Name, Target>, devices: set<Name>,
    calls: seq<Call>)
    returns (ok: bool, v: Vfs?, ghost cut: bool)
    requires 3 <= |dev| < 0x1_0000_0000
    requires forall n :: n in table && table[n].Plain? ==> table[n].dev in devices
    requires forall k :: 0 <= k < |calls| ==> Allowed(calls[k], table)
    ensures ok <==>
      Mksfs.LegalName(volname) && |Mksfs.BareName(volname)| < VOLNAMESIZE && BitBlocks(|dev|) <= MAXBITBLOCKS
    ensures ok ==> v != null && v.Conserved()
    ensures ok && !cut ==> AllClean(Sight(v.fs))
    ensures ok && (forall k :: 0 <= k < |calls| ==> Tidy(calls[k])) ==> !cut
  {
    hide NamesOk, Sfs.Sound, Tied, Dirs, ViewOf, BitBlocks, Scarce, RootSize, Tidy, Allowed;
    ok, v := Mounted(dev, volname, table, devices);
    cut := false;
    if ok {
      cut := Run(v, calls);
    }
  }

  // ---- what is stored under a name is found under it ----

  /** write on an open handle of a regular file. */
  method PutBytes(v: Vfs, x: VRef, offset: int, data: seq<Byte>) returns (err: Errno)
    requires v.Conserved() && x in v.h.handles && x.Node? && IsFile(v.fs, x.p)
    requires 0 <= offset && offset + |data| < 0x8000_0000
    modifies v.fs, v.fs.freemap
    ensures v.Conserved() && IsFile(v.fs, x.p) && InoOf(v.fs.tab, x) == InoOf(old(v.fs.tab), x)
    ensures OnlyFile(old(Sight(v.fs)), Sight(v.fs), InoOf(v.fs.tab, x), FileAt(v.fs, x.p))
    ensures err == OK ==> Holds(old(FileAt(v.fs, x.p)).bytes, FileAt(v.fs, x.p).bytes, offset, data)
  {
    hide Sfs.Sound, NamesOk, Tied, Dirs, Owned, ViewOf, Holds, WriteBytes, GapZero, Files;
    ghost var t, r := v.fs.tab, v.fs.refs;
    var uio := new Uio(Write, offset, data);
    err := WriteFile(v.fs, x.p, uio);
    assert data[0..|data|] == data;
    SettledSame(v, t, r, multiset{}, multiset{});
  }

  /** read of n bytes on an open handle of a regular file. */
  method GetBytes(v: Vfs, x: VRef, offset: int, n: nat) returns (err: Errno, back: seq<Byte>)
    requires v.Conserved() && x in v.h.handles && x.Node? && IsFile(v.fs, x.p)
    requires 0 <= offset && offset + n < 0x8000_0000
    modifies v.fs, v.fs.freemap
    ensures v.Conserved() && IsFile(v.fs, x.p) && v.fs.tab == old(v.fs.tab) && Sight(v.fs) == old(Sight(v.fs))
    ensures err == OK && offset + n <= |FileAt(v.fs, x.p).bytes| ==>
      back == FileAt(v.fs, x.p).bytes[offset..offset + n]
  {
    hide Sfs.Sound, NamesOk, Tied, Dirs, Owned, ViewOf;
    ghost var t, r := v.fs.tab, v.fs.refs;
    var uio := new Uio(Read, offset, Zeros(n));
    err := ReadFile(v.fs, x.p, uio);
    back := uio.c.mem;
    assert n > 0 ==> back[0..n] == back;
    SettledSame(v, t, r, multiset{}, multiset{});
  }

  /** The file of this name has these bytes. */
  ghost predicate StoredAs(v: View, name: Name, data: seq<Byte>) {
    name in v.names && v.names[name] in v.files && v.files[v.names[name]].bytes == data
  }

  lemma WholeFile(t: seq<Byte>, data: seq<Byte>)
    ensures Holds([], t, 0, data) ==> t == data
  {
  }

  /** A handle of a named file is that of a regular file in memory. */
  lemma IsOpen(v: Vfs, x: VRef, n: Name, ino: int)
    requires v.Conserved() && x in v.h.handles && x.Node? && InoOf(v.fs.tab, x) == ino
    requires n in Sight(v.fs).names && Sight(v.fs).names[n] == ino
    ensures IsFile(v.fs, x.p) && FileAt(v.fs, x.p) == Sight(v.fs).files[ino]
  {
    hide Sfs.Sound, Tied, Dirs;
    HandleInMem(v, x);
  }

  /** open to write, write and close. */
  method Store(v: Vfs, path: Name, data: seq<Byte>) returns (err: Errno)
    requires v.Conserved() && Parse(path).1 != [] && |data| < 0x8000_0000
    modifies v, v.fs, v.fs.freemap
    ensures v.Conserved() && v.h == old(v.h) && v.cur == old(v.cur)
    ensures err == OK ==>
      StoredAs(Sight(v.fs), Parse(path).1, data) &&
      Sight(v.fs).names.Keys == old(Sight(v.fs)).names.Keys + {Parse(path).1}
  {
    hide Sfs.Sound, NamesOk, Tied, Dirs, Owned, ViewOf, Parse, OpenResult, AllClean, Holds;
    var x;
    err, x := v.Open(path, Flags(1, true, false, true, false), OK);
    if err != OK {
      return;
    }
    ghost var n, ino := Parse(path).1, InoOf(v.fs.tab, x);
    IsOpen(v, x, n, ino);
    err := PutBytes(v, x, 0, data);
    WholeFile(FileAt(v.fs, x.p).bytes, data);
    v.Close(x);
  }

  /** open to read, read n bytes and close. */
  method Fetch(v: Vfs, path: Name, n: nat) returns (err: Errno, back: seq<Byte>)
    requires v.Conserved() && Parse(path).1 != [] && n < 0x8000_0000
    modifies v, v.fs, v.fs.freemap
    ensures v.Conserved() && v.h == old(v.h) && v.cur == old(v.cur) && Sight(v.fs) == old(Sight(v.fs))
    ensures err == OK ==> var name := Parse(path).1;
      name in Sight(v.fs).names && Sight(v.fs).names[name] in Sight(v.fs).files &&
      var s := Sight(v.fs).files[Sight(v.fs).names[name]].bytes; n <= |s| ==> back == s[..n]
  {
    hide Sfs.Sound, NamesOk, Tied, Dirs, Owned, ViewOf, Parse, OpenResult, AllClean;
    back := [];
    var x;
    err, x := v.Open(path, Flags(0, false, false, false, false), OK);
    if err != OK {
      return;
    }
    ghost var name, ino := Parse(path).1, InoOf(v.fs.tab, x);
    IsOpen(v, x, name, ino);
    ghost var s := FileAt(v.fs, x.p).bytes;
    assert n <= |s| ==> s[0..n] == s[..n];
    err, back := GetBytes(v, x, 0, n);
    v.Close(x);
  }

  /** What is stored through one path is found through every path to the same name, and once the name
      is removed it is not found: with no error on the way the data comes back. */
  method StoreFetchRemove(v: Vfs, path: Name, path2: Name, data: seq<Byte>)
    returns (err: Errno, back: seq<Byte>, gone: Errno)
    requires v.Conserved() && |data| < 0x8000_0000 && Parse(path).1 == Parse(path2).1 != []
    modifies v, v.fs, v.fs.freemap
    ensures v.Conserved() && v.h == old(v.h) && (err == OK ==> back == data && gone == ENOENT)
    ensures err == OK ==> Sight(v.fs).names.Keys == old(Sight(v.fs)).names.Keys - {Parse(path).1}
  {
    hide Sfs.Sound, NamesOk, Tied, Dirs, Owned, ViewOf, Parse, AllClean;
    back, gone := [], OK;
    err := Store(v, path, data);
    if err != OK {
      return;
    }
    err, back := Fetch(v, path2, |data|);
    if err != OK {
      return;
    }
    assert data[..|data|] == data;
    err := v.Remove(path);
    if err != OK {
      return;
    }
    var x;
    gone, x := v.Open(path, Flags(0, false, false, false, false), OK);
  }

  // ---- a new file left behind ----

  /** Whenever there is room for the file that it is to make, vfs_open with O_CREAT and flags that
      cannot be met fails, and the file is there. */
  method OpenLeaves(v: Vfs, path: Name, f: Flags, devopen: Errno) returns (err: Errno)
    requires v.Conserved() && 0 <= f.how <= 2 && f.creat && (f.append || (f.trunc && f.how == 0))
    requires ParentError(v.table, v.h, v.cur, path) == OK && Parse(path).1 !in Sight(v.fs).names
    requires |Parse(path).1| < NAMELEN && !Scarce(v.fs.Vol(), 2) && RootSize(v.fs.Vol()) < MAXBYTES
    modifies v, v.fs, v.fs.freemap
    ensures v.Conserved() && err != OK && Sight(v.fs).names.Keys == old(Sight(v.fs)).names.Keys + {Parse(path).1}
  {
    hide Sfs.Sound, NamesOk, Tied, Dirs, Owned, ViewOf, Parse, ParentError, Scarce, RootSize;
    ghost var h, vol, names := v.h, v.fs.Vol(), Sight(v.fs).names;
    var x;
    err, x := v.Open(path, f, devopen);
    LeftBehind(v.table, h, v.cur, path, f, devopen, vol, names, Sight(v.fs).names, err);
  }

  /** On a new volume, opening "d:a" to create it and append to it: the call fails and leaves a. */
  method AppendNew(dev: seq<Block>) returns (v: Vfs, err: Errno)
    requires 8 <= |dev| <= BLOCKBITS
    ensures v.Conserved() && err != OK && Sight(v.fs).names.Keys == {[97]}
  {
    hide Sfs.Sound, NamesOk, Tied, Dirs, Owned, ViewOf, Scarce, RootSize;
    var table: map<Name, Target> := map[[100] := Volume];
    var ok, w := Mounted(dev, [], table, {});
    v := w;
    var path: Name := [100, COLON, 97];
    DevicePath([100], 0, [97]);
    assert [100] + [COLON] + seq(0, _ => SLASH) + [97] == path;
    err := OpenLeaves(v, path, Flags(1, true, false, false, true), OK);
  }

  // ---- what the invariant says ----

  /** Reference counts are exact and a vnode is in memory exactly while someone holds it. */
  lemma ReferencesExact(v: Vfs, p: int)
    requires v.Conserved()
    ensures p in v.fs.tab.heap <==> Owned(v.h, Node(p)) > 0
    ensures p in v.fs.tab.heap ==>
      var n := v.fs.tab.heap[p];
      n.refcount == Owned(v.h, Node(p)) && n.opencount == v.h.handles[Node(p)] <= n.refcount
  {
    hide Sfs.Sound, NamesOk, Tied, Dirs, Owned;
    HeldLoaded(v.fs);
    SfsOps.Counts(v.fs);
    TiedFacts(v.fs.tab, v.fs.refs, v.devs, v.h, multiset{}, multiset{}, Node(p));
  }

  lemma DeviceReferencesExact(v: Vfs, d: Name)
    requires v.Conserved() && d in v.devs
    ensures v.devs[d] == DevCounts(1 + v.h.handles[Raw(d)], v.h.handles[Raw(d)])
  {
    hide Sfs.Sound, NamesOk, Dirs;
    assert TiedAt(v.fs.refs, v.devs, v.h, multiset{}, multiset{}, Raw(d));
  }

  /** The free map marks exactly the blocks with one claim. */
  lemma FreeMapExact(v: Vfs, b: int)
    requires v.Conserved() && 0 <= b < |v.fs.disk|
    ensures b < |Bits(v.fs.freemap.v)| && |Claims(v.fs.Vol(), b)| == if Bits(v.fs.freemap.v)[b] then 1 else 0
  {
    hide Claims;
    ExactOwnership(v.fs.Vol(), b);
  }

  /** Each name leads to a live file, and a file's link count is the number of its names. */
  lemma LinksExact(v: Vfs, p: int)
    requires v.Conserved() && IsFile(v.fs, p)
    ensures v.fs.tab.heap[p].inode.links == |NamesOf(Sight(v.fs).names, v.fs.tab.heap[p].ino)|
  {
    hide Sfs.Sound, Files, LinkCount, Names, Contents;
    LoadedInode(v.fs, p);
    CountNames(DirSlots(v.fs.Vol()), v.fs.tab.heap[p].ino);
  }

  // ---- a clean shutdown loses nothing ----

  lemma NobodyLeft(v: Vfs)
    requires v.Conserved() && v.h.handles == multiset{} && v.h.bootfs.None? && forall i :: 0 <= i < |v.h.cwds| ==>
      v.h.cwds[i].None?
    ensures v.fs.refs.held == multiset{}
  {
    hide Sfs.Sound, NamesOk, Dirs;
    forall p
      ensures p !in v.fs.refs.held
    {
      assert TiedAt(v.fs.refs, v.devs, v.h, multiset{}, multiset{}, Node(p));
      assert Some(p) !in v.h.cwds;
      assert Some(p) !in multiset(v.h.cwds);
    }
  }

  /** When nobody holds a vnode any more the volume can be unmounted, and mounting the disk again
      brings back the same names, the same files and the same free map. */
  method Remount(v: Vfs) returns (fs: Sfs?)
    requires v.Conserved() && v.h.handles == multiset{} && v.h.bootfs.None? && forall i :: 0 <= i < |v.h.cwds| ==>
      v.h.cwds[i].None?
    modifies v.fs
    ensures fs != null && fresh(fs) && Valid(fs) && Sight(fs) == old(Sight(v.fs))
    ensures fs.Vol().bits == old(v.fs.Vol().bits)
  {
    hide Sfs.Sound, NamesOk, ViewOf;
    NobodyLeft(v);
    M.Sync(v.fs);
    var err := M.Unmount(v.fs);
    assert err == OK;
    HasMagic(v.fs.Vol(), {});
    err, fs := M.DoMount(v.fs.disk, v.fs.Vol());
  }
}
