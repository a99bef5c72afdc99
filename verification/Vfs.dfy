/** Pathname calls and who holds which vnode: kern/fs/vfs/vfspath.c, vfslookup.c and vfscwd.c. */
module Vfs {
  import opened Basics
  import opened SfsFormat
  import opened SfsVolume
  import opened VnodeTable
  import opened SfsState
  import opened SfsBmap
  import opened Directory
  import opened SfsDir
  import opened SfsNames
  import opened SfsOps
  import opened SfsFiles
  import opened SfsMount
  import N = Vnodes
  import opened VfsPaths

  const NAME_MAX := 255

  /** A vnode pointer: a device's vnode, or a vnode of the mounted volume. */
  datatype VRef = Raw(dev: Name) | Node(p: int)

  /** The counts in a device's vnode. */
  datatype DevCounts = DevCounts(refcount: int, opencount: int)

  /** What a name in the device table leads to: the mounted volume, a device without a file
      system, or a device with none mounted. */
  datatype Target = Volume | Plain(dev: Name) | Unmounted

  /** Everyone who keeps a vnode between calls: open handles, the threads' working directories,
      and the boot file system. */
  datatype Holders = Holders(handles: multiset<VRef>, cwds: seq<Option<int>>, bootfs: Option<int>)

  ghost function Owned(h: Holders, x: VRef): nat {
    h.handles[x] + (if x.Node? then multiset(h.cwds)[Some(x.p)] + (if h.bootfs == Some(x.p) then 1 else 0) else 0)
  }

  /** A vnode's reference count is what its holders and the running call (e) hold, a device
      having one more reference in the device table; its open count is the number of open handles,
      with those being opened or closed by the running call (o). */
  ghost predicate TiedAt(r: Refs, devs: map<Name, DevCounts>, h: Holders, e: multiset<VRef>, o: multiset<VRef>,
    x: VRef) {
    && o[x] <= e[x]
    && match x
       case Node(p) => r.held[p] == Owned(h, x) + e[x] && r.opens[p] == h.handles[x] + o[x]
       case Raw(d) =>
         if d in devs then devs[d] == DevCounts(1 + Owned(h, x) + e[x], h.handles[x] + o[x])
         else Owned(h, x) + e[x] == 0
  }

  ghost predicate Tied(r: Refs, devs: map<Name, DevCounts>, h: Holders, e: multiset<VRef>, o: multiset<VRef>) {
    forall x :: TiedAt(r, devs, h, e, o, x)
  }

  /** Working directories and the boot file system are directories. */
  ghost predicate Dirs(t: Table, h: Holders) {
    && (forall i :: 0 <= i < |h.cwds| && h.cwds[i].Some? ==>
      h.cwds[i].value in t.heap && t.heap[h.cwds[i].value].ino == ROOT)
    && (h.bootfs.Some? ==> h.bootfs.value in t.heap && t.heap[h.bootfs.value].ino == ROOT)
  }

  /** A vnode that someone keeps is in memory. */
  ghost predicate HeldIn(t: Table, r: Refs) {
    forall p :: p in r.held <==> p in t.heap
  }

  lemma HeldLoaded(fs: Sfs)
    requires fs.Sound()
    ensures HeldIn(fs.tab, fs.refs)
  {
    SfsOps.Counts(fs);
  }

  lemma OwnedDir(h: Holders, i: int)
    requires 0 <= i < |h.cwds| && h.cwds[i].Some?
    ensures Owned(h, Node(h.cwds[i].value)) > 0
  {
    assert h.cwds[i] in multiset(h.cwds);
  }

  /** Work on the volume that changed no holder keeps the directories. */
  lemma DirsKept(t: Table, u: Table, r: Refs, devs: map<Name, DevCounts>, h: Holders, e: multiset<VRef>,
    o: multiset<VRef>)
    requires Dirs(t, h) && Kin(t, u) && Tied(r, devs, h, e, o) && HeldIn(u, r)
    ensures Dirs(u, h)
  {
    forall i | 0 <= i < |h.cwds| && h.cwds[i].Some?
      ensures h.cwds[i].value in u.heap && u.heap[h.cwds[i].value].ino == ROOT
    {
      OwnedDir(h, i);
      assert TiedAt(r, devs, h, e, o, Node(h.cwds[i].value));
      assert h.cwds[i].value in r.held;
    }
    if h.bootfs.Some? {
      assert TiedAt(r, devs, h, e, o, Node(h.bootfs.value));
      assert h.bootfs.value in r.held;
    }
  }

  lemma TiedInc(r: Refs, r': Refs, devs: map<Name, DevCounts>, h: Holders, e: multiset<VRef>, o: multiset<VRef>, p: int)
    requires Tied(r, devs, h, e, o) && r'.held == r.held + multiset{p} && r'.opens == r.opens
    ensures Tied(r', devs, h, e + multiset{Node(p)}, o)
  {
    hide Owned;
    forall x
      ensures TiedAt(r', devs, h, e + multiset{Node(p)}, o, x)
    {
      assert TiedAt(r, devs, h, e, o, x);
    }
  }

  lemma TiedDec(r: Refs, r': Refs, devs: map<Name, DevCounts>, h: Holders, e: multiset<VRef>, o: multiset<VRef>, p: int)
    requires Tied(r, devs, h, e, o) && e[Node(p)] > o[Node(p)] && r'.held == r.held - multiset{p} && r'.opens == r.opens
    ensures Tied(r', devs, h, e - multiset{Node(p)}, o)
  {
    hide Owned;
    forall x
      ensures TiedAt(r', devs, h, e - multiset{Node(p)}, o, x)
    {
      assert TiedAt(r, devs, h, e, o, x);
    }
  }

  /** What snprintf leaves of a name in the buffer of vfs_setbootfs. */
  function Clipped(name: Name): Name {
    if |name| < NAME_MAX then name else name[..NAME_MAX - 1]
  }

  /** At most 254 characters are left, and those as they were. */
  lemma ClippedName(name: Name)
    ensures Clipped(name) <= name && |Clipped(name)| == if |name| < 254 then |name| else 254
  {
  }

  ghost function AsRef(d: Option<int>): multiset<VRef> {
    if d.Some? then multiset{Node(d.value)} else multiset{}
  }

  lemma CountSwap(s: seq<Option<int>>, i: int, d: Option<int>, y: Option<int>)
    requires 0 <= i < |s|
    ensures multiset(s[i := d])[y] + (if s[i] == y then 1 else 0) == multiset(s)[y] + if d == y then 1 else 0
  {
    assert s[i] in multiset(s);
  }

  lemma OwnedSwap(h: Holders, i: int, d: Option<int>, x: VRef)
    requires 0 <= i < |h.cwds|
    ensures Owned(h.(cwds := h.cwds[i := d]), x) + AsRef(h.cwds[i])[x] == Owned(h, x) + AsRef(d)[x]
  {
    if x.Node? {
      CountSwap(h.cwds, i, d, Some(x.p));
    }
  }

  lemma SwapCwd(r: Refs, devs: map<Name, DevCounts>, h: Holders, e: multiset<VRef>, i: int, d: Option<int>)
    requires Tied(r, devs, h, e + AsRef(d), multiset{}) && 0 <= i < |h.cwds|
    ensures Tied(r, devs, h.(cwds := h.cwds[i := d]), e + AsRef(h.cwds[i]), multiset{})
  {
    hide Owned, AsRef;
    var h' := h.(cwds := h.cwds[i := d]);
    forall x
      ensures TiedAt(r, devs, h', e + AsRef(h.cwds[i]), multiset{}, x)
    {
      assert TiedAt(r, devs, h, e + AsRef(d), multiset{}, x);
      OwnedSwap(h, i, d, x);
    }
  }

  lemma SwapBoot(r: Refs, devs: map<Name, DevCounts>, h: Holders, d: Option<int>)
    requires Tied(r, devs, h, AsRef(d), multiset{})
    ensures Tied(r, devs, h.(bootfs := d), AsRef(h.bootfs), multiset{})
  {
    forall x
      ensures TiedAt(r, devs, h.(bootfs := d), AsRef(h.bootfs), multiset{}, x)
    {
      assert TiedAt(r, devs, h, AsRef(d), multiset{}, x);
    }
  }

  lemma NewCwd(r: Refs, devs: map<Name, DevCounts>, h: Holders, d: Option<int>)
    requires Tied(r, devs, h, AsRef(d), multiset{})
    ensures Tied(r, devs, h.(cwds := h.cwds + [d]), multiset{}, multiset{})
  {
    var h' := h.(cwds := h.cwds + [d]);
    forall x
      ensures TiedAt(r, devs, h', multiset{}, multiset{}, x)
    {
      assert TiedAt(r, devs, h, AsRef(d), multiset{}, x);
    }
  }

  ghost predicate AllClean(v: View) {
    forall ino :: ino in v.files ==> v.files[ino].clean
  }

  /** If nothing but zeros lay past the end of any file, it is still so. */
  ghost predicate StaysClean(v: View, w: View) {
    AllClean(v) ==> AllClean(w)
  }

  /** The flags of open: how is O_RDONLY (0), O_WRONLY (1) or O_RDWR (2). */
  datatype Flags = Flags(how: int, creat: bool, excl: bool, trunc: bool, append: bool)

  /** What sfs_open, sfs_opendir and dev_open say; a device's own opening routine says devopen. */
  function OpenCheck(raw: bool, dir: bool, f: Flags, devopen: Errno): Errno {
    if raw then if f.creat || f.trunc || f.excl || f.append then EINVAL else devopen
    else if dir then if f.how != 0 || f.append then EISDIR else OK
    else if f.append then EUNIMP else OK
  }

  /** What vfs_open says once it has the vnode. */
  function OpenError(raw: bool, dir: bool, f: Flags, devopen: Errno): Errno {
    var err := OpenCheck(raw, dir, f, devopen);
    if err != OK then err else if f.trunc && f.how == 0 then EINVAL else OK
  }

  /** Which opens succeed, and what the others say: a regular file unless it is to be appended to, or
      truncated without writing; a directory only for reading; a device if its own routine agrees and
      no flag asks for a file. */
  lemma WhoOpens(f: Flags, devopen: Errno)
    ensures OpenError(false, false, f, devopen) ==
      if f.append then EUNIMP else if f.trunc && f.how == 0 then EINVAL else OK
    ensures OpenError(false, true, f, devopen) == OK <==> f.how == 0 && !f.append && !f.trunc
    ensures f.how != 0 || f.append ==> OpenError(false, true, f, devopen) == EISDIR
    ensures OpenError(true, false, f, devopen) == OK <==>
      devopen == OK && !f.creat && !f.excl && !f.trunc && !f.append
    ensures f.creat || f.excl || f.trunc || f.append ==> OpenError(true, false, f, devopen) == EINVAL
  {
  }

  /** A file of the volume has a name; directories and devices are not meant. */
  ghost predicate HasName(t: Table, v: View, x: VRef) {
    x.Node? && x.p in t.heap && t.heap[x.p].ino != ROOT ==> t.heap[x.p].ino in v.names.Values
  }

  /** A creation, successful or not, from view v to w. */
  ghost predicate Adds(v: View, w: View, name: Name, excl: bool, err: Errno) {
    && (err == EEXIST <==> name in v.names && excl)
    && (name !in v.names ==> err in {OK, ENOSPC, EINVAL, ENAMETOOLONG} && (err == OK ==> |name| < NAMELEN))
    && (err != OK ==> w == v)
    && (err == OK ==> name in w.names)
    && (name in v.names && !excl ==> err == OK && w == v)
    && (err == OK && name !in v.names ==>
          var ino := w.names[name];
          ino !in v.files && w == View(v.names[name := ino], v.files[ino := File([], true)]))
  }

  lemma OneRoot(fs: Sfs, p: int, q: int)
    requires fs.Sound() && IsDir(fs, p) && IsDir(fs, q)
    ensures p == q
  {
    OneVnodePerInode(fs.tab, fs.refs, p, q);
  }

  lemma KindOf(fs: Sfs, p: int)
    requires Valid(fs) && p in fs.tab.heap
    ensures fs.tab.heap[p].inode.kind == TYPE_DIR <==> IsDir(fs, p)
  {
    hide Sfs.Sound, LinkCount, DirSlots;
    LoadedInode(fs, p);
  }

  lemma KeepHandle(t: Table, r: Refs, devs: map<Name, DevCounts>, h: Holders, x: VRef)
    requires Tied(r, devs, h, multiset{x}, multiset{x}) && Dirs(t, h)
    ensures var h' := h.(handles := h.handles + multiset{x});
            Tied(r, devs, h', multiset{}, multiset{}) && Dirs(t, h')
  {
    var h' := h.(handles := h.handles + multiset{x});
    forall y
      ensures TiedAt(r, devs, h', multiset{}, multiset{}, y)
    {
      assert TiedAt(r, devs, h, multiset{x}, multiset{x}, y);
    }
  }

  lemma TakeHandle(t: Table, r: Refs, devs: map<Name, DevCounts>, h: Holders, x: VRef)
    requires Tied(r, devs, h, multiset{}, multiset{}) && Dirs(t, h) && x in h.handles
    ensures var h' := h.(handles := h.handles - multiset{x});
            Tied(r, devs, h', multiset{x}, multiset{x}) && Dirs(t, h')
  {
    var h' := h.(handles := h.handles - multiset{x});
    forall y
      ensures TiedAt(r, devs, h', multiset{x}, multiset{x}, y)
    {
      assert TiedAt(r, devs, h, multiset{}, multiset{}, y);
    }
  }

  /** How a lookup of the path starts out. */
  function StartError(table: map<Name, Target>, h: Holders, cur: nat, path: Name): Errno {
    match Parse(path).0
    case Device(n) => if n !in table then ENODEV else if table[n].Unmounted? then ENXIO else OK
    case BootFs => if h.bootfs.Some? then OK else ENOENT
    case _ => if cur < |h.cwds| && h.cwds[cur].Some? then OK else ENOENT
  }

  /** The path starts at a device that has no file system. */
  predicate NamesPlain(table: map<Name, Target>, path: Name) {
    var start := Parse(path).0;
    start.Device? && start.name in table && table[start.name].Plain?
  }

  /** What vfs_lookparent says. */
  function ParentError(table: map<Name, Target>, h: Holders, cur: nat, path: Name): Errno {
    var err, sub := StartError(table, h, cur, path), Parse(path).1;
    if err != OK then err
    else if sub == [] then EINVAL
    else if NamesPlain(table, path) then ENOTDIR
    else if |sub| > NAME_MAX then ENAMETOOLONG
    else OK
  }

  /** What vfs_lookup says when these are the names on the volume. */
  function LookupError(table: map<Name, Target>, h: Holders, cur: nat, path: Name, names: map<Name, int>): Errno {
    var err, sub := StartError(table, h, cur, path), Parse(path).1;
    if err != OK then err else if sub == [] || (!NamesPlain(table, path) && sub in names) then OK else ENOENT
  }

  lemma NotSpace(table: map<Name, Target>, h: Holders, cur: nat, path: Name, names: map<Name, int>)
    ensures ParentError(table, h, cur, path) != ENOSPC && LookupError(table, h, cur, path, names) != ENOSPC
  {
    hide Parse;
  }

  /** A name without marks: found exactly if there is a working directory and the name is in it (or
      is empty, and means the directory); a place for a new file exactly if it is not empty and not
      too long. */
  lemma PlainErrors(table: map<Name, Target>, h: Holders, cur: nat, name: Name, names: map<Name, int>)
    requires Unmarked(name) && cur < |h.cwds|
    ensures LookupError(table, h, cur, name, names) ==
      if h.cwds[cur].Some? && (name == [] || name in names) then OK else ENOENT
    ensures ParentError(table, h, cur, name) ==
      if h.cwds[cur].None? then ENOENT else if name == [] then EINVAL else if |name| > 255 then ENAMETOOLONG else OK
  {
    hide Parse;
    PlainPath(name);
  }

  /** The same for a path from the boot file system. */
  lemma AbsoluteErrors(table: map<Name, Target>, h: Holders, cur: nat, n: nat, name: Name, names: map<Name, int>)
    requires name != [] ==> name[0] != SLASH
    ensures var path := [SLASH] + seq(n, _ => SLASH) + name;
            && LookupError(table, h, cur, path, names) ==
                 (if h.bootfs.Some? && (name == [] || name in names) then OK else ENOENT)
            && ParentError(table, h, cur, path) ==
                 if h.bootfs.None? then ENOENT else if name == [] then EINVAL
                 else if |name| > 255 then ENAMETOOLONG else OK
  {
    hide Parse;
    AbsolutePath(n, name);
  }

  /** The same for a path from a device, which must be in the table and have a file system; one
      without leads to the device itself and to nothing on it. */
  lemma DeviceErrors(table: map<Name, Target>, h: Holders, cur: nat, dev: Name, n: nat, name: Name,
                     names: map<Name, int>)
    requires dev != [] && Unmarked(dev) && (name != [] ==> name[0] != SLASH)
    ensures var path := dev + [COLON] + seq(n, _ => SLASH) + name;
            var e := LookupError(table, h, cur, path, names);
            if dev !in table then e == ENODEV && ParentError(table, h, cur, path) == ENODEV
            else match table[dev]
              case Unmounted => e == ENXIO && ParentError(table, h, cur, path) == ENXIO
              case Plain(_) =>
                && e == (if name == [] then OK else ENOENT)
                && ParentError(table, h, cur, path) == if name == [] then EINVAL else ENOTDIR
              case Volume =>
                && e == (if name == [] || name in names then OK else ENOENT)
                && ParentError(table, h, cur, path) ==
                     if name == [] then EINVAL else if |name| > 255 then ENAMETOOLONG else OK
  {
    hide Parse;
    DevicePath(dev, n, name);
  }

  /** The inode number of a vnode of the volume. */
  ghost function InoOf(t: Table, x: VRef): int {
    if x.Node? && x.p in t.heap then t.heap[x.p].ino else 0
  }

  /** Every vnode but x is as it was. */
  ghost predicate SameBut(t: Table, u: Table, x: VRef) {
    && (forall p :: x != Node(p) ==> (p in u.heap <==> p in t.heap) && (p in t.heap ==> u.heap[p] == t.heap[p]))
    && (x.Node? && x.p in u.heap ==> x.p in t.heap && u.heap[x.p].ino == t.heap[x.p].ino)
  }

  lemma StillInMemory(t: Table, u: Table, x: VRef, ino: int)
    requires SameBut(t, u, x) && InoOf(t, x) != ino && x.Node? && x.p in t.heap
    ensures InMemory(t, ino) <==> InMemory(u, ino)
  {
    if InMemory(t, ino) {
      var p :| p in t.heap && t.heap[p].ino == ino;
      assert p in u.heap && u.heap[p].ino == ino;
    }
  }

  /** The vnode was forgotten. */
  ghost predicate Forgot(t: Table, u: Table, x: VRef) {
    x.Node? && x.p in t.heap && x.p !in u.heap
  }

  /** File ino is erased exactly if it has no name and nobody holds it any more; nothing else
      changes. */
  ghost predicate Erases(v: View, w: View, ino: int, forgot: bool) {
    w == if forgot && ino != ROOT && ino !in v.names.Values then v.(files := v.files - {ino}) else v
  }

  lemma RootLinks(fs: Sfs)
    requires Valid(fs)
    ensures forall p :: IsDir(fs, p) ==> fs.tab.heap[p].inode.links == 1
  {
    hide Sfs.Sound, NamesOk;
    SightFacts(fs);
    forall p | IsDir(fs, p)
      ensures fs.tab.heap[p].inode.links == 1
    {
      LoadedInode(fs, p);
    }
  }

  lemma NoNames(fs: Sfs, p: int)
    requires Valid(fs) && p in fs.tab.heap
    ensures fs.tab.heap[p].inode.links == 0 <==>
      fs.tab.heap[p].ino != ROOT && fs.tab.heap[p].ino !in Sight(fs).names.Values
  {
    hide Sfs.Sound, NamesOk, ViewOf;
    RootLinks(fs);
    if IsFile(fs, p) {
      Unnamed(fs, p);
    }
  }

  /** All files but one are the same. */
  ghost predicate Spares(v: View, w: View, ino: int) {
    w.files - {ino} == v.files - {ino}
  }

  /** From view v to w: at most the name n was added, and at most the file that was opened is new or
      has been truncated. */
  ghost predicate Opens(v: View, w: View, n: Name, f: Flags, ino: int, err: Errno) {
    && (w.names == v.names || (f.creat && n !in v.names && n in w.names && w.names == v.names[n := w.names[n]]))
    && (err == OK ==> Spares(v, w, ino) && (!f.creat && !f.trunc ==> w == v))
    && (err == OK && f.trunc ==> ino in w.files && w.files[ino] == File([], true))
    && (err != OK ==> w == v || (f.creat && n !in v.names && n in w.names && Spares(v, w, w.names[n])))
  }

  /** The device that the path starts at. */
  function PlainDevice(table: map<Name, Target>, path: Name): VRef
    requires NamesPlain(table, path)
  {
    Raw(table[Parse(path).0.name].dev)
  }

  /** What the path of a successful vfs_open leads to: a device, the root, or the file of that name. */
  ghost predicate OpensAt(table: map<Name, Target>, path: Name, x: VRef, ino: int, names: map<Name, int>) {
    var n := Parse(path).1;
    if x.Raw? then n == [] && NamesPlain(table, path) && x == PlainDevice(table, path)
    else if n == [] then ino == ROOT
    else n in names && ino == names[n]
  }

  /** A lookup starts at a device or at the root directory. */
  ghost predicate StartVnode(fs: Sfs, x: VRef)
    reads fs
  {
    x.Raw? || IsDir(fs, x.p)
  }

  /** What vfs_lookup hands back: the place the lookup starts when there is nothing more to look
      up, or else the file of that name. */
  ghost predicate LeadsTo(fs: Sfs, path: Name, x: VRef)
    requires Valid(fs)
    reads fs, fs.freemap
  {
    var sub := Parse(path).1;
    if sub == [] then StartVnode(fs, x)
    else x.Node? && IsFile(fs, x.p) && sub in Sight(fs).names && fs.tab.heap[x.p].ino == Sight(fs).names[sub]
  }

  lemma LedTo(fs: Sfs, table: map<Name, Target>, path: Name, x: VRef)
    requires Valid(fs) && LeadsTo(fs, path, x) && (x.Raw? ==> NamesPlain(table, path) && x == PlainDevice(table, path))
    ensures OpensAt(table, path, x, InoOf(fs.tab, x), Sight(fs).names)
  {
    hide Sfs.Sound, NamesOk, ViewOf, Parse, NamesPlain, PlainDevice;
  }

  lemma Led(fs: Sfs, path: Name, x: VRef)
    requires Valid(fs) && LeadsTo(fs, path, x)
    ensures HasName(fs.tab, Sight(fs), x) && (x.Raw? ==> Parse(path).1 == [])
    ensures x.Node? ==> (IsDir(fs, x.p) <==> Parse(path).1 == [])
    ensures Parse(path).1 != [] ==>
      Parse(path).1 in Sight(fs).names && InoOf(fs.tab, x) == Sight(fs).names[Parse(path).1]
  {
    hide Sfs.Sound, NamesOk, ViewOf, Parse;
    var n := Parse(path).1;
    assert n in Sight(fs).names ==> Sight(fs).names[n] in Sight(fs).names.Values;
  }

  lemma Emptied(raw: bool, dir: bool, f: Flags, devopen: Errno)
    requires f.trunc && OpenCheck(raw, dir, f, devopen) == OK
    ensures !raw && !(dir && f.how != 0)
  {
  }

  /** Every vnode in e is still there, for the same inode. */
  ghost predicate Keeps(t: Table, u: Table, e: multiset<VRef>) {
    forall p :: Node(p) in e ==> p in t.heap && p in u.heap && u.heap[p].ino == t.heap[p].ino
  }

  lemma KeptIno(t: Table, u: Table, e: multiset<VRef>, x: VRef)
    requires Keeps(t, u, e) && x in e
    ensures InoOf(u, x) == InoOf(t, x) &&
      (x.Node? ==> x.p in t.heap && x.p in u.heap && u.heap[x.p].ino == t.heap[x.p].ino)
  {
  }

  /** What vfs_open says when vol is the volume before the call and these are the names on it before
      and after. */
  ghost predicate OpenResult(table: map<Name, Target>, h: Holders, cur: nat, path: Name, f: Flags, devopen: Errno,
                             vol: Vol, names: map<Name, int>, names': map<Name, int>, err: Errno) {
    var n, plain := Parse(path).1, NamesPlain(table, path);
    if !(0 <= f.how <= 2) then err == EINVAL
    else if !f.creat then
      var e := LookupError(table, h, cur, path, names);
      err == if e != OK then e else OpenError(n == [] && plain, n == [] && !plain, f, devopen)
    else
      var e := ParentError(table, h, cur, path);
      if e != OK then err == e
      else if n in names then err == if f.excl then EEXIST else OpenError(false, false, f, devopen)
      else if n in names' then err == OpenError(false, false, f, devopen)
      else err != OK && MakeResult(vol, n, err)
  }

  lemma BadFlags(table: map<Name, Target>, h: Holders, cur: nat, path: Name, f: Flags, devopen: Errno, vol: Vol,
    names: map<Name, int>)
    requires !(0 <= f.how <= 2)
    ensures OpenResult(table, h, cur, path, f, devopen, vol, names, names, EINVAL)
  {
  }

  /** The two halves of vfs_open, e being what the first one says. */
  lemma ResultBy(table: map<Name, Target>, h: Holders, cur: nat, path: Name, f: Flags, devopen: Errno,
                 vol: Vol, v: View, u: View, raw: bool, dir: bool, e: Errno, err: Errno)
    requires 0 <= f.how <= 2
    requires !f.creat ==>
      && e == LookupError(table, h, cur, path, v.names)
      && (e == OK ==> raw == (NamesPlain(table, path) && Parse(path).1 == []) && dir == (!raw && Parse(path).1 == []))
    requires f.creat ==>
      var p := ParentError(table, h, cur, path);
      if p != OK then e == p
      else
        Parse(path).1 != [] && Adds(v, u, Parse(path).1, f.excl, e) && !raw && !dir &&
        (Parse(path).1 !in v.names ==> MakeResult(vol, Parse(path).1, e))
    requires err == if e != OK then e else OpenError(raw, dir, f, devopen)
    ensures OpenResult(table, h, cur, path, f, devopen, vol, v.names, u.names, err)
  {
    hide Parse, LookupError, ParentError, NamesPlain, OpenError, MakeResult;
  }

  lemma NamesAfter(u: View, w: View, ino: int, f: Flags, err: Errno)
    requires if err == OK && f.trunc then OnlyFile(u, w, ino, File([], true)) else w == u
    ensures w.names == u.names
  {
  }

  lemma OpensNot(v: View, n: Name, f: Flags, ino: int, err: Errno)
    requires err != OK
    ensures Opens(v, v, n, f, ino, err)
  {
  }

  lemma OpensBy(v: View, u: View, w: View, n: Name, f: Flags, ino: int, err: Errno)
    requires if f.creat then Adds(v, u, n, f.excl, OK) && n in u.names && (err == OK ==> ino == u.names[n]) else u == v
    requires if err == OK && f.trunc then OnlyFile(u, w, ino, File([], true)) else w == u
    ensures Opens(v, w, n, f, ino, err)
  {
  }

  /** What vfs_chdir says when these are the names on the volume, all of them of regular files. */
  function ChdirError(table: map<Name, Target>, h: Holders, cur: nat, path: Name, names: map<Name, int>): Errno {
    var e := LookupError(table, h, cur, path, names);
    if e != OK then e else if Parse(path).1 == [] && !NamesPlain(table, path) then OK else ENOTDIR
  }

  /** What vfs_link says when these are the names on the volume. */
  ghost predicate LinkResult(table: map<Name, Target>, h: Holders, cur: nat, oldpath: Name, newpath: Name,
    names: map<Name, int>, err: Errno) {
    var e1, e2, n := LookupError(table, h, cur, oldpath, names), ParentError(table, h, cur, newpath), Parse(newpath).1;
    if e1 != OK then err == e1
    else if e2 != OK then err == e2
    else if Parse(oldpath).1 == [] then err == EXDEV
    else (err == EEXIST <==> n in names) && (err == ENAMETOOLONG <==> n !in names && |n| >= NAMELEN)
  }

  /** Dropping the first of two references. */
  lemma LetGo(e: multiset<VRef>, o: multiset<VRef>, x: VRef, y: VRef)
    requires o <= e
    ensures (e + multiset{x} + multiset{y})[x] > o[x] && e + multiset{x} + multiset{y} - multiset{x} == e + multiset{y}
  {
  }

  lemma OwnedBoot(h: Holders)
    requires h.bootfs.Some?
    ensures Owned(h, Node(h.bootfs.value)) > 0
  {
  }

  lemma TiedOpen(r: Refs, r': Refs, devs: map<Name, DevCounts>, devs': map<Name, DevCounts>, h: Holders,
    e: multiset<VRef>, o: multiset<VRef>, o': multiset<VRef>, x: VRef)
    requires Tied(r, devs, h, e, o) && r'.held == r.held && o' == o[x := o'[x]] && o'[x] <= e[x]
    requires match x
             case Node(p) => devs' == devs && r'.opens == r.opens[p := r'.opens[p]] &&
               r'.opens[p] + o[x] == r.opens[p] + o'[x]
             case Raw(d) =>
               r' == r && d in devs &&
               devs' == devs[d := devs[d].(opencount := devs[d].opencount + o'[x] - o[x])]
    ensures Tied(r', devs', h, e, o')
  {
    hide Owned;
    assert TiedAt(r, devs, h, e, o, x);
    forall y
      ensures TiedAt(r', devs', h, e, o', y)
    {
      assert TiedAt(r, devs, h, e, o, y);
    }
  }

  lemma TookRef(t: Table, r: Refs, u: Table, r': Refs, devs: map<Name, DevCounts>, h: Holders, e: multiset<VRef>,
    o: multiset<VRef>, p: int)
    requires Tied(r, devs, h, e, o) && Took(t, r, u, r', p)
    ensures Tied(r', devs, h, e + multiset{Node(p)}, o) && Kin(t, u)
  {
    TiedInc(r, r', devs, h, e, o, p);
  }

  lemma OpensIn(v: Vfs, e: multiset<VRef>, o: multiset<VRef>)
    requires v.Inv(e, o)
    ensures o <= e
  {
    hide Sfs.Sound, NamesOk, Owned;
    forall x
      ensures o[x] <= e[x]
    {
      assert TiedAt(v.fs.refs, v.devs, v.h, e, o, x);
    }
  }

  lemma TiedFacts(t: Table, r: Refs, devs: map<Name, DevCounts>, h: Holders, e: multiset<VRef>, o: multiset<VRef>,
    x: VRef)
    requires Tied(r, devs, h, e, o) && HeldIn(t, r)
    ensures x.Node? ==>
      r.held[x.p] == Owned(h, x) + e[x] && r.opens[x.p] == h.handles[x] + o[x] && h.handles[x] <= Owned(h, x)
    ensures o[x] <= e[x]
    ensures x.Node? && (x in e || Owned(h, x) > 0) ==> x.p in t.heap
    ensures x.Raw? && (x in e || Owned(h, x) > 0) ==> x.dev in devs
    ensures x.Raw? && x.dev in devs ==> devs[x.dev].refcount == 1 + Owned(h, x) + e[x]
  {
    assert TiedAt(r, devs, h, e, o, x);
  }

  /** A vnode that the running call holds is in memory. */
  lemma InHand(v: Vfs, e: multiset<VRef>, o: multiset<VRef>, p: int)
    requires v.Inv(e, o) && Node(p) in e
    ensures p in v.fs.tab.heap
  {
    hide Sfs.Sound, NamesOk;
    HeldLoaded(v.fs);
    TiedFacts(v.fs.tab, v.fs.refs, v.devs, v.h, e, o, Node(p));
  }

  lemma HandleOwned(h: Holders, x: VRef)
    requires x in h.handles
    ensures Owned(h, x) > 0
  {
  }

  /** A vnode is in memory exactly while someone holds it. */
  lemma HeldIff(v: Vfs, p: int)
    requires v.Conserved()
    ensures p in v.fs.tab.heap <==> Owned(v.h, Node(p)) > 0
  {
    hide Sfs.Sound, NamesOk, Owned;
    HeldLoaded(v.fs);
    assert TiedAt(v.fs.refs, v.devs, v.h, multiset{}, multiset{}, Node(p));
  }

  /** Every vnode in e is in memory. */
  ghost predicate InMem(t: Table, e: multiset<VRef>) {
    forall p :: Node(p) in e ==> p in t.heap
  }

  lemma AllInHand(v: Vfs, e: multiset<VRef>, o: multiset<VRef>)
    requires v.Inv(e, o)
    ensures InMem(v.fs.tab, e)
  {
    hide Vfs.Inv;
    forall p | Node(p) in e
      ensures p in v.fs.tab.heap
    {
      InHand(v, e, o, p);
    }
  }

  lemma KeepsStep(v: Vfs, t: Table, e: multiset<VRef>, e': multiset<VRef>, o: multiset<VRef>)
    requires v.Inv(e', o) && e <= e' && InMem(t, e) && Kin(t, v.fs.tab)
    ensures Keeps(t, v.fs.tab, e)
  {
    hide Vfs.Inv;
    AllInHand(v, e', o);
    forall p | Node(p) in e
      ensures p in v.fs.tab.heap
    {
      assert Node(p) in e';
    }
  }

  lemma KeepsTwice(t: Table, u: Table, w: Table, e: multiset<VRef>)
    requires Keeps(t, u, e) && Keeps(u, w, e)
    ensures Keeps(t, w, e)
  {
  }

  lemma KinSelf(t: Table)
    ensures Kin(t, t)
  {
  }

  lemma KinReleased(t: Table, u: Table, p: int)
    requires p in t.heap && (u.heap == t.heap - {p} ||
      u.heap == t.heap[p := t.heap[p].(refcount := t.heap[p].refcount - 1)])
    ensures Kin(t, u)
  {
  }

  /** A reference to a device's vnode taken or dropped. */
  lemma RawCount(r: Refs, devs: map<Name, DevCounts>, h: Holders, e: multiset<VRef>, o: multiset<VRef>, d: Name,
    delta: int)
    requires Tied(r, devs, h, e, o) && d in devs && (delta == 1 || (delta == -1 && e[Raw(d)] > o[Raw(d)]))
    ensures Tied(r, devs[d := devs[d].(refcount := devs[d].refcount + delta)], h, if delta == 1
      then e + multiset{Raw(d)} else e - multiset{Raw(d)}, o)
    ensures delta == -1 ==> devs[d].refcount > 1
  {
    hide Owned;
    var devs' := devs[d := devs[d].(refcount := devs[d].refcount + delta)];
    var e' := if delta == 1 then e + multiset{Raw(d)} else e - multiset{Raw(d)};
    assert TiedAt(r, devs, h, e, o, Raw(d));
    forall x
      ensures TiedAt(r, devs', h, e', o, x)
    {
      assert TiedAt(r, devs, h, e, o, x);
    }
  }

  lemma SettledSame(v: Vfs, t: Table, r: Refs, e: multiset<VRef>, o: multiset<VRef>)
    requires Valid(v.fs) && Tied(r, v.devs, v.h, e, o) && Dirs(t, v.h) && v.cur < |v.h.cwds|
    requires forall n :: n in v.table && v.table[n].Plain? ==> v.table[n].dev in v.devs
    requires Kin(t, v.fs.tab) && v.fs.refs.held == r.held && v.fs.refs.opens == r.opens
    ensures v.Inv(e, o)
  {
    hide Sfs.Sound, NamesOk, Dirs, Owned;
    assert Tied(v.fs.refs, v.devs, v.h, e, o) by {
      forall x
        ensures TiedAt(v.fs.refs, v.devs, v.h, e, o, x)
      {
        assert TiedAt(r, v.devs, v.h, e, o, x);
      }
    }
    HeldLoaded(v.fs);
    DirsKept(t, v.fs.tab, v.fs.refs, v.devs, v.h, e, o);
  }

  class Vfs {
    const fs: Sfs
    const table: map<Name, Target>
    var devs: map<Name, DevCounts>
    var h: Holders
    var cur: nat

    /** The invariant while a call has references e in hand, o of them with an open. */
    ghost predicate Inv(e: multiset<VRef>, o: multiset<VRef>)
      reads this, fs, fs.freemap
    {
      && Valid(fs) && Tied(fs.refs, devs, h, e, o) && Dirs(fs.tab, h) && cur < |h.cwds|
      && forall n :: n in table && table[n].Plain? ==> table[n].dev in devs
    }

    /** One thread without a working directory; the device table holds its devices' vnodes. */
    constructor (fs: Sfs, table: map<Name, Target>, devices: set<Name>)
      requires Valid(fs) && fs.refs.held == fs.refs.opens == multiset{}
      requires forall n :: n in table && table[n].Plain? ==> table[n].dev in devices
      ensures this.fs == fs && this.table == table && devs.Keys == devices && Inv(multiset{}, multiset{})
    {
      hide Sfs.Sound, NamesOk;
      this.fs, this.table := fs, table;
      devs := map d | d in devices :: DevCounts(1, 0);
      h, cur := Holders(multiset{}, [None], None), 0;
    }

    // ---- references ----

    method IncRef(x: VRef, ghost e: multiset<VRef>, ghost o: multiset<VRef>)
      requires Inv(e, o) && (x in e || Owned(h, x) > 0 || (x.Raw? && x.dev in devs))
      modifies this`devs, fs`tab, fs`refs
      ensures Inv(e + multiset{x}, o) && fs.Vol() == old(fs.Vol()) && Keeps(old(fs.tab), fs.tab, e) &&
        devs.Keys == old(devs.Keys)
    {
      hide Sfs.Sound, NamesOk, Tied, Dirs, Owned, HeldIn, Kin, InMem, Keeps;
      ghost var t0 := fs.tab;
      AllInHand(this, e, o);
      HeldLoaded(fs);
      TiedFacts(fs.tab, fs.refs, devs, h, e, o, x);
      match x {
      case Node(p) =>
        ghost var r, t := fs.refs, fs.tab;
        N.IncRef(fs, p);
        TiedInc(r, fs.refs, devs, h, e, o, p);
        HeldLoaded(fs);
        DirsKept(t, fs.tab, fs.refs, devs, h, e + multiset{x}, o);
      case Raw(d) =>
        RawCount(fs.refs, devs, h, e, o, d, 1);
        KinSelf(fs.tab);
        devs := devs[d := devs[d].(refcount := devs[d].refcount + 1)];
      }
      KeepsStep(this, t0, e, e + multiset{x}, o);
    }

    method DecRef(x: VRef, ghost e: multiset<VRef>, ghost o: multiset<VRef>)
      requires Inv(e, o) && e[x] > o[x]
      modifies this`devs, fs, fs.freemap
      ensures Inv(e - multiset{x}, o) && Keeps(old(fs.tab), fs.tab, e - multiset{x}) && devs.Keys == old(devs.Keys)
      ensures Sight(fs).names == old(Sight(fs)).names && StaysClean(old(Sight(fs)), Sight(fs))
      ensures x.Raw? || old(IsDir(fs, x.p)) ==>
        Sight(fs) == old(Sight(fs)) && FreeSet(fs.Vol()) == FreeSet(old(fs.Vol())) &&
        RootSize(fs.Vol()) == RootSize(old(fs.Vol()))
      ensures Erases(old(Sight(fs)), Sight(fs), InoOf(old(fs.tab), x), Forgot(old(fs.tab), fs.tab, x)) &&
        SameBut(old(fs.tab), fs.tab, x)
    {
      hide Sfs.Sound, NamesOk, Tied, Dirs, Owned, HeldIn, Kin, Keeps, ViewOf, FreeSet, RootSize;
      ghost var t0 := fs.tab;
      AllInHand(this, e, o);
      HeldLoaded(fs);
      TiedFacts(fs.tab, fs.refs, devs, h, e, o, x);
      match x {
      case Node(p) =>
        ghost var r, t := fs.refs, fs.tab;
        SfsOps.Counts(fs);
        RootLinks(fs);
        NoNames(fs, p);
        Release(fs, p);
        TiedDec(r, fs.refs, devs, h, e, o, p);
        HeldLoaded(fs);
        KinReleased(t, fs.tab, p);
        DirsKept(t, fs.tab, fs.refs, devs, h, e - multiset{x}, o);
      case Raw(d) =>
        RawCount(fs.refs, devs, h, e, o, d, -1);
        KinSelf(fs.tab);
        devs := devs[d := devs[d].(refcount := devs[d].refcount - 1)];
      }
      KeepsStep(this, t0, e - multiset{x}, e - multiset{x}, o);
    }

    method IncOpen(x: VRef, ghost e: multiset<VRef>, ghost o: multiset<VRef>)
      requires Inv(e, o) && e[x] > o[x]
      modifies this`devs, fs`tab, fs`refs
      ensures Inv(e, o + multiset{x}) && fs.Vol() == old(fs.Vol()) && Keeps(old(fs.tab), fs.tab, e) &&
        devs.Keys == old(devs.Keys)
    {
      hide Sfs.Sound, NamesOk, Tied, Dirs, Owned, HeldIn, Kin, InMem, Keeps;
      ghost var t0 := fs.tab;
      AllInHand(this, e, o);
      HeldLoaded(fs);
      TiedFacts(fs.tab, fs.refs, devs, h, e, o, x);
      ghost var r, t, ds := fs.refs, fs.tab, devs;
      match x {
      case Node(p) =>
        N.IncOpen(fs, p);
        TiedOpen(r, fs.refs, ds, devs, h, e, o, o + multiset{x}, x);
        HeldLoaded(fs);
        DirsKept(t, fs.tab, fs.refs, devs, h, e, o + multiset{x});
      case Raw(d) =>
        KinSelf(fs.tab);
        devs := devs[d := devs[d].(opencount := devs[d].opencount + 1)];
        TiedOpen(r, fs.refs, ds, devs, h, e, o, o + multiset{x}, x);
      }
      KeepsStep(this, t0, e, e, o + multiset{x});
    }

    method DecOpen(x: VRef, ghost e: multiset<VRef>, ghost o: multiset<VRef>)
      requires Inv(e, o) && o[x] > 0
      modifies this`devs, fs`disk, fs`tab, fs`refs
      ensures Inv(e, o - multiset{x}) && Sight(fs) == old(Sight(fs)) && Keeps(old(fs.tab), fs.tab, e) &&
        devs.Keys == old(devs.Keys)
    {
      hide Sfs.Sound, NamesOk, Tied, Dirs, Owned, HeldIn, Kin, InMem, Keeps, ViewOf;
      ghost var t0 := fs.tab;
      AllInHand(this, e, o);
      HeldLoaded(fs);
      TiedFacts(fs.tab, fs.refs, devs, h, e, o, x);
      ghost var r, t, ds := fs.refs, fs.tab, devs;
      match x {
      case Node(p) =>
        N.DecOpen(fs, p);
        TiedOpen(r, fs.refs, ds, devs, h, e, o, o - multiset{x}, x);
        HeldLoaded(fs);
        DirsKept(t, fs.tab, fs.refs, devs, h, e, o - multiset{x});
      case Raw(d) =>
        KinSelf(fs.tab);
        devs := devs[d := devs[d].(opencount := devs[d].opencount - 1)];
        TiedOpen(r, fs.refs, ds, devs, h, e, o, o - multiset{x}, x);
      }
      KeepsStep(this, t0, e, e, o - multiset{x});
    }

    // ---- where a lookup starts ----

    /** vfs_getcurdir */
    method GetCurdir(ghost e: multiset<VRef>, ghost o: multiset<VRef>) returns (err: Errno, p: int)
      requires Inv(e, o)
      modifies this`devs, fs`tab, fs`refs
      ensures fs.Vol() == old(fs.Vol()) && Keeps(old(fs.tab), fs.tab, e) && devs.Keys == old(devs.Keys)
      ensures err == if h.cwds[cur].Some? then OK else ENOENT
      ensures err != OK ==> Inv(e, o)
      ensures err == OK ==> Inv(e + multiset{Node(p)}, o) && IsDir(fs, p) && h.cwds[cur] == Some(p)
    {
      hide Sfs.Sound, NamesOk, Tied, Owned;
      AllInHand(this, e, o);
      if h.cwds[cur].None? {
        return ENOENT, 0;
      }
      p := h.cwds[cur].value;
      OwnedDir(h, cur);
      IncRef(Node(p), e, o);
      InHand(this, e + multiset{Node(p)}, o, p);
      err := OK;
    }

    /** FSOP_GETROOT of the mounted volume */
    method VolumeRoot(ghost e: multiset<VRef>, ghost o: multiset<VRef>) returns (p: int)
      requires Inv(e, o)
      modifies fs`tab, fs`refs, fs`inodes
      ensures Inv(e + multiset{Node(p)}, o) && IsDir(fs, p) && fs.Vol() == old(fs.Vol()) &&
        Keeps(old(fs.tab), fs.tab, e)
    {
      hide Sfs.Sound, NamesOk, Tied, Dirs, Owned;
      AllInHand(this, e, o);
      ghost var t, r := fs.tab, fs.refs;
      p := GetRoot(fs);
      TookRef(t, r, fs.tab, fs.refs, devs, h, e, o, p);
      HeldLoaded(fs);
      DirsKept(t, fs.tab, fs.refs, devs, h, e + multiset{Node(p)}, o);
      KeepsStep(this, t, e, e + multiset{Node(p)}, o);
    }

    /** vfs_getroot, with the device table as a map. */
    method DeviceRoot(name: Name, ghost e: multiset<VRef>, ghost o: multiset<VRef>) returns (err: Errno, x: VRef)
      requires Inv(e, o)
      modifies this`devs, fs`tab, fs`refs, fs`inodes
      ensures fs.Vol() == old(fs.Vol()) && Keeps(old(fs.tab), fs.tab, e) && devs.Keys == old(devs.Keys)
      ensures err == if name !in table then ENODEV else if table[name].Unmounted? then ENXIO else OK
      ensures err != OK ==> Inv(e, o)
      ensures err == OK ==> Inv(e + multiset{x}, o) && StartVnode(fs, x)
      ensures err == OK ==> (x.Raw? <==> table[name].Plain?) && (x.Raw? ==> x == Raw(table[name].dev))
    {
      hide Sfs.Sound, NamesOk, Tied, Dirs, Owned;
      AllInHand(this, e, o);
      if name !in table {
        return ENODEV, Node(0);
      }
      match table[name]
      case Unmounted => return ENXIO, Node(0);
      case Volume =>
        var p := VolumeRoot(e, o);
        return OK, Node(p);
      case Plain(d) =>
        IncRef(Raw(d), e, o);
        return OK, Raw(d);
    }

    /** getdevice */
    method GetDevice(path: Name, ghost e: multiset<VRef>, ghost o: multiset<VRef>)
      returns (err: Errno, x: VRef, subpath: Name)
      requires Inv(e, o)
      modifies this`devs, fs, fs.freemap
      ensures Valid(fs) && Sight(fs) == old(Sight(fs)) && Keeps(old(fs.tab), fs.tab, e) && devs.Keys == old(devs.Keys)
      ensures FreeSet(fs.Vol()) == FreeSet(old(fs.Vol())) && RootSize(fs.Vol()) == RootSize(old(fs.Vol()))
      ensures err != OK ==> Inv(e, o)
      ensures err == StartError(table, h, cur, path)
      ensures err == OK ==> Inv(e + multiset{x}, o) && StartVnode(fs, x) && subpath == Parse(path).1
      ensures err == OK ==> (x.Raw? <==> NamesPlain(table, path)) && (x.Raw? ==> x == PlainDevice(table, path))
    {
      hide Sfs.Sound, NamesOk, Tied, Owned, Parse;
      AllInHand(this, e, o);
      var start;
      start, subpath := SplitPath(path);
      match start
      case CurrentDir =>
        var p;
        err, p := GetCurdir(e, o);
        x := Node(p);
      case Device(name) =>
        err, x := DeviceRoot(name, e, o);
      case BootFs =>
        if h.bootfs.None? {
          return ENOENT, Node(0), subpath;
        }
        x := Node(h.bootfs.value);
        OwnedBoot(h);
        IncRef(x, e, o);
        err := OK;
      case CurrentFs =>
        err, x := CurrentRoot(e, o);
    }

    /** The root of the current directory's file system. */
    method CurrentRoot(ghost e: multiset<VRef>, ghost o: multiset<VRef>) returns (err: Errno, x: VRef)
      requires Inv(e, o)
      modifies this`devs, fs, fs.freemap
      ensures Valid(fs) && Sight(fs) == old(Sight(fs)) && Keeps(old(fs.tab), fs.tab, e) && devs.Keys == old(devs.Keys)
      ensures FreeSet(fs.Vol()) == FreeSet(old(fs.Vol())) && RootSize(fs.Vol()) == RootSize(old(fs.Vol()))
      ensures err != OK ==> Inv(e, o)
      ensures err == if h.cwds[cur].Some? then OK else ENOENT
      ensures err == OK ==> Inv(e + multiset{x}, o) && x.Node? && IsDir(fs, x.p)
    {
      hide Sfs.Sound, NamesOk, Tied, Dirs, Owned, ViewOf;
      OpensIn(this, e, o);
      var vn, p;
      err, vn := GetCurdir(e, o);
      if err != OK {
        return err, Node(0);
      }
      ghost var e1 := e + multiset{Node(vn)};
      p := VolumeRoot(e1, o);
      x := Node(p);
      assert Node(vn) in e1 && x in e + multiset{x};
      LetGo(e, o, Node(vn), x);
      DecRef(Node(vn), e1 + multiset{x}, o);
    }

    // ---- name lookup ----

    /** vfs_lookparent: the directory a path's last component is in, and that component. */
    method LookParent(path: Name, ghost e: multiset<VRef>, ghost o: multiset<VRef>)
      returns (err: Errno, dir: int, name: Name)
      requires Inv(e, o)
      modifies this`devs, fs, fs.freemap
      ensures Valid(fs) && Sight(fs) == old(Sight(fs)) && Keeps(old(fs.tab), fs.tab, e) && devs.Keys == old(devs.Keys)
      ensures FreeSet(fs.Vol()) == FreeSet(old(fs.Vol())) && RootSize(fs.Vol()) == RootSize(old(fs.Vol()))
      ensures err != OK ==> Inv(e, o)
      ensures err == OK ==>
        && Inv(e + multiset{Node(dir)}, o) && IsDir(fs, dir)
        && name == Parse(path).1 != [] && |name| <= NAME_MAX
      ensures err == ParentError(table, h, cur, path)
    {
      hide Sfs.Sound, NamesOk, Tied, Dirs, Owned, ViewOf, Parse, FreeSet, RootSize;
      OpensIn(this, e, o);
      var x, sub;
      err, x, sub := GetDevice(path, e, o);
      if err != OK {
        return err, 0, [];
      }
      ghost var e1 := e + multiset{x};
      LetGo(e, o, x, x);
      if |sub| == 0 || x.Raw? || |sub| + 1 > NAME_MAX + 1 {
        DecRef(x, e1, o);
        assert e1 - multiset{x} == e;
        err := if |sub| == 0 then EINVAL else if x.Raw? then ENOTDIR else ENAMETOOLONG;
        return err, 0, [];
      }
      assert x in e1;
      IncRef(x, e1, o);
      DecRef(x, e1 + multiset{x}, o);
      return OK, x.p, sub;
    }

    /** VOP_LOOKUP in a directory */
    method VopLookup(dir: int, name: Name, ghost e: multiset<VRef>, ghost o: multiset<VRef>)
      returns (err: Errno, q: int)
      requires Inv(e, o) && IsDir(fs, dir)
      modifies fs, fs.freemap
      ensures Valid(fs) && fs.Vol() == old(fs.Vol()) && IsDir(fs, dir) && Keeps(old(fs.tab), fs.tab, e)
      ensures err == if name in Sight(fs).names then OK else ENOENT
      ensures err != OK ==> Inv(e, o)
      ensures err == OK ==>
        Inv(e + multiset{Node(q)}, o) && IsFile(fs, q) && fs.tab.heap[q].ino == Sight(fs).names[name]
    {
      hide Sfs.Sound, NamesOk, Tied, Dirs, Owned;
      AllInHand(this, e, o);
      ghost var t, r := fs.tab, fs.refs;
      var slot;
      err, q, slot := LookOnce(fs, dir, name);
      if err == OK {
        SettledTook(this, t, r, e, o, q);
        KeepsStep(this, t, e, e + multiset{Node(q)}, o);
      } else {
        SettledSame(this, t, r, e, o);
      }
    }

    /** vfs_lookup */
    method Lookup(path: Name, ghost e: multiset<VRef>, ghost o: multiset<VRef>) returns (err: Errno, x: VRef)
      requires Inv(e, o)
      modifies this`devs, fs, fs.freemap
      ensures Valid(fs) && Sight(fs) == old(Sight(fs)) && Keeps(old(fs.tab), fs.tab, e) && devs.Keys == old(devs.Keys)
      ensures FreeSet(fs.Vol()) == FreeSet(old(fs.Vol())) && RootSize(fs.Vol()) == RootSize(old(fs.Vol()))
      ensures err != OK ==> Inv(e, o)
      ensures err == LookupError(table, h, cur, path, Sight(fs).names)
      ensures err == OK ==> Inv(e + multiset{x}, o) && LeadsTo(fs, path, x)
      ensures err == OK ==>
        (x.Raw? <==> NamesPlain(table, path) && Parse(path).1 == []) && (x.Raw? ==> x == PlainDevice(table, path))
    {
      hide Sfs.Sound, NamesOk, Tied, Dirs, Owned, ViewOf, Parse, Keeps, NamesPlain, FreeSet, RootSize;
      ghost var t0 := fs.tab;
      OpensIn(this, e, o);
      var start, sub;
      err, start, sub := GetDevice(path, e, o);
      if err != OK {
        return err, start;
      }
      if |sub| == 0 {
        return OK, start;
      }
      ghost var e1, t1 := e + multiset{start}, fs.tab;
      if start.Raw? {
        LetGo(e, o, start, start);
        DecRef(start, e1, o);
        assert e1 - multiset{start} == e;
        KeepsTwice(t0, t1, fs.tab, e);
        return ENOENT, start;
      }
      err, x := LookupFrom(start.p, sub, e, o);
      KeepsTwice(t0, t1, fs.tab, e);
    }

    /** The end of vfs_lookup: look up the name, then let go of the directory. */
    method LookupFrom(dir: int, name: Name, ghost e: multiset<VRef>, ghost o: multiset<VRef>)
      returns (err: Errno, x: VRef)
      requires Inv(e + multiset{Node(dir)}, o) && IsDir(fs, dir) && o <= e
      modifies this`devs, fs, fs.freemap
      ensures Valid(fs) && Sight(fs) == old(Sight(fs)) && Keeps(old(fs.tab), fs.tab, e) && devs.Keys == old(devs.Keys)
      ensures FreeSet(fs.Vol()) == FreeSet(old(fs.Vol())) && RootSize(fs.Vol()) == RootSize(old(fs.Vol()))
      ensures err == if name in Sight(fs).names then OK else ENOENT
      ensures err != OK ==> Inv(e, o)
      ensures err == OK ==>
        Inv(e + multiset{x}, o) && x.Node? && IsFile(fs, x.p) && fs.tab.heap[x.p].ino == Sight(fs).names[name]
    {
      hide Sfs.Sound, NamesOk, Tied, Dirs, Owned, ViewOf, FreeSet, RootSize;
      ghost var e1 := e + multiset{Node(dir)};
      var q;
      err, q := VopLookup(dir, name, e1, o);
      x := Node(q);
      LetGo(e, o, Node(dir), x);
      assert e1 - multiset{Node(dir)} == e && x in e + multiset{x};
      if err != OK {
        DecRefDir(dir, e1, o);
      } else {
        DecRefDir(dir, e1 + multiset{x}, o);
      }
    }

    // ---- opening and closing ----

    /** Between calls every reference is kept by a handle, a working directory, the boot file
        system or the device table, and every open by a handle. */
    ghost predicate Conserved()
      reads this, fs, fs.freemap
    {
      Inv(multiset{}, multiset{})
    }

    /** VOP_CREAT in a directory */
    method VopCreat(dir: int, name: Name, excl: bool, ghost e: multiset<VRef>, ghost o: multiset<VRef>)
      returns (err: Errno, q: int)
      requires Inv(e, o) && IsDir(fs, dir)
      modifies fs, fs.freemap
      ensures Valid(fs) && IsDir(fs, dir) && Adds(old(Sight(fs)), Sight(fs), name, excl, err)
      ensures name !in old(Sight(fs)).names ==> MakeResult(old(fs.Vol()), name, err)
      ensures err != OK ==> Inv(e, o)
      ensures err == OK ==>
        Inv(e + multiset{Node(q)}, o) && IsFile(fs, q) && fs.tab.heap[q].ino == Sight(fs).names[name]
    {
      hide Sfs.Sound, NamesOk, Tied, Dirs, Owned, ViewOf;
      ghost var t, r := fs.tab, fs.refs;
      err, q := Creat(fs, dir, name, excl);
      if err == OK {
        SettledTook(this, t, r, e, o, q);
      } else {
        SettledSame(this, t, r, e, o);
      }
    }

    /** The first half of vfs_open: find the vnode or make the file. */
    method FindOrMake(path: Name, f: Flags) returns (err: Errno, x: VRef)
      requires Conserved()
      modifies this`devs, fs, fs.freemap
      ensures Valid(fs) && devs.Keys == old(devs.Keys)
      ensures err != OK ==> Conserved() && Sight(fs) == old(Sight(fs))
      ensures err == OK ==>
        Inv(multiset{x}, multiset{}) && LeadsTo(fs, path, x) && StaysClean(old(Sight(fs)), Sight(fs))
      ensures !f.creat ==> err == LookupError(table, h, cur, path, old(Sight(fs)).names) && Sight(fs) == old(Sight(fs))
      ensures !f.creat && err == OK ==> (x.Raw? <==> NamesPlain(table, path) && Parse(path).1 == [])
      ensures err == OK && x.Raw? ==> NamesPlain(table, path) && x == PlainDevice(table, path)
      ensures f.creat && ParentError(table, h, cur, path) != OK ==> err == ParentError(table, h, cur, path)
      ensures f.creat && ParentError(table, h, cur, path) == OK ==>
        Parse(path).1 != [] && Adds(old(Sight(fs)), Sight(fs), Parse(path).1, f.excl, err)
      ensures f.creat && ParentError(table, h, cur, path) == OK && Parse(path).1 !in old(Sight(fs)).names ==>
        MakeResult(old(fs.Vol()), Parse(path).1, err)
    {
      hide Sfs.Sound, NamesOk, Tied, Dirs, Owned, ViewOf, Parse, NamesPlain, LookupError, ParentError, Adds, MakeResult,
        PlainDevice, AllClean;
      ghost var z: multiset<VRef> := multiset{};
      if f.creat {
        err, x := Make(path, f.excl);
        return;
      }
      err, x := Lookup(path, z, z);
      assert z + multiset{x} == multiset{x};
    }

    /** O_CREAT in vfs_open */
    method Make(path: Name, excl: bool) returns (err: Errno, x: VRef)
      requires Conserved()
      modifies this`devs, fs, fs.freemap
      ensures Valid(fs) && devs.Keys == old(devs.Keys)
      ensures err != OK ==> Conserved() && Sight(fs) == old(Sight(fs))
      ensures err == OK ==>
        Inv(multiset{x}, multiset{}) && LeadsTo(fs, path, x) && StaysClean(old(Sight(fs)), Sight(fs)) && x.Node?
      ensures ParentError(table, h, cur, path) != OK ==> err == ParentError(table, h, cur, path)
      ensures ParentError(table, h, cur, path) == OK ==>
        Parse(path).1 != [] && Adds(old(Sight(fs)), Sight(fs), Parse(path).1, excl, err)
      ensures ParentError(table, h, cur, path) == OK && Parse(path).1 !in old(Sight(fs)).names ==>
        MakeResult(old(fs.Vol()), Parse(path).1, err)
    {
      hide Sfs.Sound, NamesOk, Tied, Dirs, Owned, ViewOf, Parse, FreeSet, RootSize;
      ghost var z: multiset<VRef> := multiset{};
      var dir, name, q;
      err, dir, name := LookParent(path, z, z);
      if err != OK {
        return err, Raw([]);
      }
      hide ParentError;
      ghost var d := Node(dir);
      err, q := VopCreat(dir, name, excl, z + multiset{d}, z);
      x := Node(q);
      LetGo(z, z, d, x);
      assert z + multiset{x} == multiset{x} && z + multiset{d} - multiset{d} == z;
      if err != OK {
        DecRef(Node(dir), z + multiset{d}, z);
      } else {
        assert x in z + multiset{x};
        DecRef(Node(dir), z + multiset{d} + multiset{x}, z);
      }
    }

    /** VOP_OPEN */
    method VopOpen(x: VRef, f: Flags, devopen: Errno) returns (err: Errno)
      requires Inv(multiset{x}, multiset{})
      ensures err == OpenCheck(x.Raw?, x.Node? && IsDir(fs, x.p), f, devopen)
    {
      hide Sfs.Sound, NamesOk, Tied, Dirs, Owned;
      match x {
        case Raw(_) =>
          if f.creat || f.trunc || f.excl || f.append {
            return EINVAL;
          }
          err := devopen;
        case Node(p) =>
          InHand(this, multiset{x}, multiset{}, p);
          KindOf(fs, p);
          if fs.tab.heap[p].inode.kind == TYPE_DIR {
            if f.how != 0 || f.append {
              return EISDIR;
            }
          } else if f.append {
            return EUNIMP;
          }
          err := OK;
      }
    }

    /** VOP_TRUNCATE to no bytes, of a vnode that was opened with O_TRUNC. */
    method VopTruncate(x: VRef) returns (err: Errno)
      requires Inv(multiset{x}, multiset{x}) && x.Node?
      modifies fs, fs.freemap
      ensures Inv(multiset{x}, multiset{x}) && StaysClean(old(Sight(fs)), Sight(fs))
      ensures if err == OK then OnlyFile(old(Sight(fs)), Sight(fs), InoOf(fs.tab, x), File([], true))
        else Sight(fs) == old(Sight(fs))
      ensures old(x.p in fs.tab.heap) && err == if old(IsDir(fs, x.p)) then EISDIR else OK
      ensures x.p in fs.tab.heap && fs.tab.heap[x.p].ino == old(fs.tab.heap[x.p]).ino
      ensures err == OK ==> IsFile(fs, x.p) && FileAt(fs, x.p) == File([], true)
    {
      hide Sfs.Sound, NamesOk, Tied, Dirs, Owned, ViewOf;
      InHand(this, multiset{x}, multiset{x}, x.p);
      KindOf(fs, x.p);
      if fs.tab.heap[x.p].inode.kind == TYPE_DIR {
        return EISDIR;
      }
      ghost var t, r := fs.tab, fs.refs;
      TruncateFile(fs, x.p, 0);
      SettledSame(this, t, r, multiset{x}, multiset{x});
      err := OK;
    }

    /** The second half of vfs_open: the vnode in hand becomes a handle, or is let go. */
    method Opening(x: VRef, f: Flags, devopen: Errno) returns (err: Errno)
      requires Inv(multiset{x}, multiset{}) && 0 <= f.how <= 2 && HasName(fs.tab, Sight(fs), x)
      modifies this`devs, this`h, fs, fs.freemap
      ensures Conserved() && StaysClean(old(Sight(fs)), Sight(fs)) && devs.Keys == old(devs.Keys)
      ensures err == OpenError(x.Raw?, x.Node? && old(IsDir(fs, x.p)), f, devopen) &&
        (err == OK ==> InoOf(fs.tab, x) == InoOf(old(fs.tab), x))
      ensures if err == OK && f.trunc then OnlyFile(old(Sight(fs)), Sight(fs), InoOf(fs.tab, x), File([], true))
        else Sight(fs) == old(Sight(fs))
      ensures h == old(h).(handles := old(h).handles + if err == OK then multiset{x} else multiset{})
    {
      hide Sfs.Sound, NamesOk, Tied, Dirs, Owned, ViewOf, AllClean, OnlyFile, OpenCheck, HasName;
      ghost var dir := x.Node? && IsDir(fs, x.p);
      err := CountOpen(x, f, devopen);
      if err != OK {
        return;
      }
      if f.trunc {
        Emptied(x.Raw?, dir, f, devopen);
        err := Empty(x, f);
        if err != OK {
          return;
        }
      }
      AddHandle(x);
    }

    /** VOP_OPEN and VOP_INCOPEN. */
    method CountOpen(x: VRef, f: Flags, devopen: Errno) returns (err: Errno)
      requires Inv(multiset{x}, multiset{}) && HasName(fs.tab, Sight(fs), x)
      modifies this`devs, fs, fs.freemap
      ensures Valid(fs) && Sight(fs) == old(Sight(fs)) && devs.Keys == old(devs.Keys)
      ensures err == OpenCheck(x.Raw?, x.Node? && old(IsDir(fs, x.p)), f, devopen)
      ensures err != OK ==> Conserved()
      ensures err == OK ==>
        Inv(multiset{x}, multiset{x}) && HasName(fs.tab, Sight(fs), x) && InoOf(fs.tab, x) == InoOf(old(fs.tab), x)
      ensures err == OK && x.Node? ==> x.p in fs.tab.heap && (IsDir(fs, x.p) <==> old(IsDir(fs, x.p)))
    {
      hide Sfs.Sound, NamesOk, Tied, Dirs, Owned, ViewOf, OpenCheck, Keeps;
      ghost var e, z: multiset<VRef> := multiset{x}, multiset{};
      ghost var t := fs.tab;
      assert z + multiset{x} == e;
      err := VopOpen(x, f, devopen);
      if err != OK {
        LetGoNamed(x);
        return;
      }
      IncOpen(x, e, z);
      KeptIno(t, fs.tab, e, x);
    }

    method AddHandle(x: VRef)
      requires Inv(multiset{x}, multiset{x})
      modifies this`h
      ensures Conserved() && h == old(h).(handles := old(h).handles + multiset{x})
    {
      hide Sfs.Sound, NamesOk, Tied, Dirs, Owned, ViewOf;
      KeepHandle(fs.tab, fs.refs, devs, h, x);
      h := h.(handles := h.handles + multiset{x});
    }

    /** The vnode in hand is let go; if it is a file's, the file stays, for it has a name. */
    method LetGoNamed(x: VRef)
      requires Inv(multiset{x}, multiset{}) && HasName(fs.tab, Sight(fs), x)
      modifies this`devs, fs, fs.freemap
      ensures Conserved() && Sight(fs) == old(Sight(fs)) && devs.Keys == old(devs.Keys)
    {
      hide Sfs.Sound, NamesOk, Tied, Dirs, Owned, ViewOf;
      ghost var e, z: multiset<VRef> := multiset{x}, multiset{};
      assert e - multiset{x} == z;
      AllInHand(this, e, z);
      DecRef(x, e, z);
    }

    /** O_TRUNC in vfs_open; a vnode that cannot be truncated is let go. */
    method Empty(x: VRef, f: Flags) returns (err: Errno)
      requires Inv(multiset{x}, multiset{x}) && HasName(fs.tab, Sight(fs), x) && x.Node? &&
        !(IsDir(fs, x.p) && f.how != 0)
      modifies this`devs, fs, fs.freemap
      ensures Valid(fs) && StaysClean(old(Sight(fs)), Sight(fs)) && devs.Keys == old(devs.Keys)
      ensures err == if f.how == 0 then EINVAL else OK
      ensures err != OK ==> Conserved() && Sight(fs) == old(Sight(fs))
      ensures err == OK ==>
        && Inv(multiset{x}, multiset{x})
        && OnlyFile(old(Sight(fs)), Sight(fs), InoOf(fs.tab, x), File([], true))
        && InoOf(fs.tab, x) == InoOf(old(fs.tab), x)
    {
      hide Sfs.Sound, NamesOk, Tied, Dirs, Owned, ViewOf;
      ghost var e, z: multiset<VRef> := multiset{x}, multiset{};
      assert e - multiset{x} == z;
      AllInHand(this, e, e);
      if f.how == 0 {
        err := EINVAL;
      } else {
        err := VopTruncate(x);
      }
      if err != OK {
        DecOpen(x, e, e);
        LetGoNamed(x);
      }
    }

    /** vfs_open */
    method Open(path: Name, f: Flags, devopen: Errno) returns (err: Errno, x: VRef)
      requires Conserved()
      modifies this`devs, this`h, fs, fs.freemap
      ensures Conserved() && StaysClean(old(Sight(fs)), Sight(fs)) && devs.Keys == old(devs.Keys)
      ensures h == old(h).(handles := old(h).handles + if err == OK then multiset{x} else multiset{})
      ensures OpenResult(table, old(h), cur, path, f, devopen, old(fs.Vol()), old(Sight(fs)).names, Sight(fs).names,
        err)
      ensures Opens(old(Sight(fs)), Sight(fs), Parse(path).1, f, InoOf(fs.tab, x), err)
      ensures err == OK ==> OpensAt(table, path, x, InoOf(fs.tab, x), Sight(fs).names)
    {
      hide Sfs.Sound, NamesOk, Tied, Dirs, Owned, ViewOf, Parse, NamesPlain, LookupError, ParentError, OpenError,
        Opens, OpensAt, PlainDevice, OnlyFile, AllClean, LeadsTo, OpenResult, Adds, MakeResult;
      ghost var v, vol := Sight(fs), fs.Vol();
      if !(0 <= f.how <= 2) {
        BadFlags(table, h, cur, path, f, devopen, vol, v.names);
        OpensNot(v, Parse(path).1, f, 0, EINVAL);
        return EINVAL, Raw([]);
      }
      err, x := FindOrMake(path, f);
      ghost var n, u := Parse(path).1, Sight(fs);
      if err != OK {
        OpensNot(v, n, f, InoOf(fs.tab, x), err);
        ResultBy(table, h, cur, path, f, devopen, vol, v, u, false, false, err, err);
        return;
      }
      Led(fs, path, x);
      LedTo(fs, table, path, x);
      ghost var h0, raw := h, x.Raw?;
      err := Opening(x, f, devopen);
      assert Sight(fs).names == u.names by { NamesAfter(u, Sight(fs), InoOf(fs.tab, x), f, err); }
      ResultBy(table, h0, cur, path, f, devopen, vol, v, u, raw, !raw && n == [], OK, err);
      OpensBy(v, u, Sight(fs), n, f, InoOf(fs.tab, x), err);
    }

    /** vfs_close of an open handle */
    method Close(x: VRef)
      requires Conserved() && x in h.handles
      modifies this`devs, this`h, fs, fs.freemap
      ensures Conserved() && StaysClean(old(Sight(fs)), Sight(fs)) && devs.Keys == old(devs.Keys)
      ensures Erases(old(Sight(fs)), Sight(fs), InoOf(old(fs.tab), x), Forgot(old(fs.tab), fs.tab, x))
      ensures x.Node? ==> (Forgot(old(fs.tab), fs.tab, x) <==> Owned(h, x) == 0)
      ensures h == old(h).(handles := old(h).handles - multiset{x})
    {
      hide Sfs.Sound, NamesOk, Tied, Dirs, Owned, ViewOf;
      ghost var e, z: multiset<VRef> := multiset{x}, multiset{};
      if x.Node? {
        HandleOwned(h, x);
        HeldIff(this, x.p);
      }
      TakeHandle(fs.tab, fs.refs, devs, h, x);
      h := h.(handles := h.handles - multiset{x});
      assert e - multiset{x} == z;
      DecOpen(x, e, e);
      DecRef(x, e, z);
      if x.Node? {
        HeldIff(this, x.p);
      }
    }

    // ---- the other calls on names ----

    /** vfs_remove */
    method Remove(path: Name) returns (err: Errno)
      requires Conserved()
      modifies this`devs, fs, fs.freemap
      ensures Conserved() && StaysClean(old(Sight(fs)), Sight(fs)) && devs.Keys == old(devs.Keys)
      ensures err != OK ==> Sight(fs) == old(Sight(fs))
      ensures err == OK ==>
        var v, n := old(Sight(fs)), Parse(path).1;
        && n in v.names && Sight(fs).names == v.names - {n}
        && Sight(fs).files == (if v.names[n] in (v.names - {n}).Values || InMemory(fs.tab, v.names[n]) then v.files
          else v.files - {v.names[n]})
      ensures var e := ParentError(table, h, cur, path);
              err == if e != OK then e else if Parse(path).1 in old(Sight(fs)).names then OK else ENOENT
    {
      hide Sfs.Sound, NamesOk, Tied, Dirs, Owned, ViewOf, Parse, ParentError;
      ghost var z: multiset<VRef> := multiset{};
      var dir, name;
      err, dir, name := LookParent(path, z, z);
      if err != OK {
        return;
      }
      ghost var e, t, r := z + multiset{Node(dir)}, fs.tab, fs.refs;
      err := SfsOps.Remove(fs, dir, name);
      SettledSame(this, t, r, e, z);
      assert e - multiset{Node(dir)} == z;
      ghost var u := fs.tab;
      DecRef(Node(dir), e, z);
      if err == OK {
        StillInMemory(u, fs.tab, Node(dir), old(Sight(fs)).names[name]);
      }
    }

    /** vfs_rename.  Both directories are the root, so sfs_rename always gets the same one twice. */
    method Rename(oldpath: Name, newpath: Name) returns (err: Errno)
      requires Conserved()
      modifies this`devs, fs, fs.freemap
      ensures Conserved() && StaysClean(old(Sight(fs)), Sight(fs)) && devs.Keys == old(devs.Keys)
      ensures err != OK ==> Sight(fs) == old(Sight(fs))
      ensures var e1, e2 := ParentError(table, h, cur, oldpath), ParentError(table, h, cur, newpath);
              if e1 != OK then err == e1
              else if e2 != OK then err == e2
              else Renames(old(Sight(fs)), Sight(fs), Parse(oldpath).1, Parse(newpath).1, err)
      ensures err == ENOSPC ==> Scarce(old(fs.Vol()), 1)
    {
      hide Sfs.Sound, NamesOk, Tied, Dirs, Owned, ViewOf, Parse, ParentError;
      ghost var z: multiset<VRef> := multiset{};
      NotSpace(table, h, cur, oldpath, map[]);
      NotSpace(table, h, cur, newpath, map[]);
      var olddir, oldname, newdir, newname;
      err, olddir, oldname := LookParent(oldpath, z, z);
      if err != OK {
        return;
      }
      ghost var e1 := z + multiset{Node(olddir)};
      assert e1 - multiset{Node(olddir)} == z;
      err, newdir, newname := LookParent(newpath, e1, z);
      if err != OK {
        DecRefDir(olddir, e1, z);
        return;
      }
      ghost var e2 := e1 + multiset{Node(newdir)};
      assert e2 - multiset{Node(newdir)} == e1;
      assert Node(olddir) in e1;
      OneRoot(fs, olddir, newdir);
      assert olddir == newdir;
      ghost var t, r := fs.tab, fs.refs;
      err := SfsOps.Rename(fs, olddir, oldname, newname);
      SettledSame(this, t, r, e2, z);
      DecRefDir(newdir, e2, z);
      DecRefDir(olddir, e1, z);
    }

    /** VOP_DECREF of a directory */
    method DecRefDir(dir: int, ghost e: multiset<VRef>, ghost o: multiset<VRef>)
      requires Inv(e, o) && e[Node(dir)] > o[Node(dir)]
      modifies this`devs, fs, fs.freemap
      ensures Inv(e - multiset{Node(dir)}, o) && Keeps(old(fs.tab), fs.tab, e - multiset{Node(dir)}) &&
        devs.Keys == old(devs.Keys)
      ensures Sight(fs).names == old(Sight(fs)).names && StaysClean(old(Sight(fs)), Sight(fs))
      ensures old(IsDir(fs, dir)) ==>
        Sight(fs) == old(Sight(fs)) && FreeSet(fs.Vol()) == FreeSet(old(fs.Vol())) &&
        RootSize(fs.Vol()) == RootSize(old(fs.Vol()))
    {
      hide Sfs.Sound, NamesOk, Tied, Dirs, Owned, ViewOf, FreeSet, RootSize;
      DecRef(Node(dir), e, o);
    }

    /** vfs_link of anything but a directory */
    method Link(oldpath: Name, newpath: Name) returns (err: Errno)
      requires Conserved() && (Parse(oldpath).1 != [] || NamesPlain(table, oldpath))
      modifies this`devs, fs, fs.freemap
      ensures Conserved() && StaysClean(old(Sight(fs)), Sight(fs)) && devs.Keys == old(devs.Keys)
      ensures err != OK ==> Sight(fs) == old(Sight(fs))
      ensures err == OK ==>
        var v, n1, n2 := old(Sight(fs)), Parse(oldpath).1, Parse(newpath).1;
        n1 in v.names && n2 !in v.names && Sight(fs) == v.(names := v.names[n2 := v.names[n1]])
      ensures LinkResult(table, h, cur, oldpath, newpath, old(Sight(fs)).names, err) &&
        (err == ENOSPC ==> Scarce(old(fs.Vol()), 1))
    {
      hide Sfs.Sound, NamesOk, Tied, Dirs, Owned, ViewOf, Parse, LookupError, ParentError, NamesPlain;
      ghost var z: multiset<VRef> := multiset{};
      NotSpace(table, h, cur, oldpath, Sight(fs).names);
      NotSpace(table, h, cur, newpath, map[]);
      var x, dir, name, slot;
      err, x := Lookup(oldpath, z, z);
      if err != OK {
        return;
      }
      ghost var e1 := z + multiset{x};
      assert e1 - multiset{x} == z;
      err, dir, name := LookParent(newpath, e1, z);
      if err != OK {
        DecRef(x, e1, z);
        return;
      }
      ghost var e2 := e1 + multiset{Node(dir)};
      assert e2 - multiset{Node(dir)} == e1;
      if x.Raw? {
        err := EXDEV;
      } else {
        assert x in e1;
        ghost var t, r := fs.tab, fs.refs;
        err, slot := SfsOps.Link(fs, dir, name, x.p);
        SettledSame(this, t, r, e2, z);
        assert err == OK ==> fs.tab.heap[x.p].ino == Sight(fs).names[name] && name in Sight(fs).names.Keys;
      }
      DecRefDir(dir, e2, z);
      DecRef(x, e1, z);
    }

    // ---- working directories and the boot file system ----

    /** Thread i's working directory becomes d; the caller had a reference to d in hand, and has
        the old directory in hand afterwards. */
    method PutCwd(i: int, d: Option<int>, ghost e: multiset<VRef>) returns (was: Option<int>)
      requires Inv(e + AsRef(d), multiset{}) && 0 <= i < |h.cwds| && (d.Some? ==> IsDir(fs, d.value))
      modifies this`h
      ensures was == old(h).cwds[i] && h == old(h).(cwds := old(h).cwds[i := d])
      ensures Inv(e + AsRef(was), multiset{}) && (was.Some? ==> IsDir(fs, was.value))
    {
      hide Sfs.Sound, NamesOk, Tied, Owned;
      was := h.cwds[i];
      SwapCwd(fs.refs, devs, h, e, i, d);
      h := h.(cwds := h.cwds[i := d]);
    }

    /** Let go of what a working directory or the boot file system held. */
    method DropDir(d: Option<int>, ghost e: multiset<VRef>)
      requires Inv(e + AsRef(d), multiset{}) && (d.Some? ==> IsDir(fs, d.value))
      modifies this`devs, fs, fs.freemap
      ensures Inv(e, multiset{}) && Sight(fs) == old(Sight(fs)) && Keeps(old(fs.tab), fs.tab, e) &&
        devs.Keys == old(devs.Keys)
    {
      hide Sfs.Sound, NamesOk, Tied, Dirs, Owned, ViewOf;
      AllInHand(this, e + AsRef(d), multiset{});
      if d.Some? {
        assert e + AsRef(d) - multiset{Node(d.value)} == e;
        DecRefDir(d.value, e + AsRef(d), multiset{});
      } else {
        assert e + AsRef(d) == e;
      }
    }

    /** vfs_setcurdir with a vnode the caller holds */
    method SetCurdir(x: VRef, ghost e: multiset<VRef>) returns (err: Errno)
      requires Inv(e, multiset{}) && x in e
      modifies this`devs, this`h, fs, fs.freemap
      ensures Inv(e, multiset{}) && Sight(fs) == old(Sight(fs)) && devs.Keys == old(devs.Keys)
      ensures old(x.Node? ==> x.p in fs.tab.heap) && err == if x.Node? && old(IsDir(fs, x.p)) then OK else ENOTDIR
      ensures h == if err == OK then old(h).(cwds := old(h).cwds[cur := Some(x.p)]) else old(h)
      ensures Keeps(old(fs.tab), fs.tab, e)
    {
      hide Sfs.Sound, NamesOk, Tied, Dirs, Owned, ViewOf;
      AllInHand(this, e, multiset{});
      if x.Raw? {
        return ENOTDIR;
      }
      KindOf(fs, x.p);
      if fs.tab.heap[x.p].inode.kind != TYPE_DIR {
        return ENOTDIR;
      }
      IncRef(x, e, multiset{});
      var was := PutCwd(cur, Some(x.p), e);
      DropDir(was, e);
      err := OK;
    }

    /** vfs_clearcurdir, and the end of a thread (thread_exit) */
    method ClearCurdir()
      requires Conserved()
      modifies this`devs, this`h, fs, fs.freemap
      ensures Conserved() && Sight(fs) == old(Sight(fs)) && devs.Keys == old(devs.Keys)
      ensures h == old(h).(cwds := old(h).cwds[cur := None])
    {
      hide Sfs.Sound, NamesOk, Tied, Dirs, Owned, ViewOf;
      ghost var z: multiset<VRef> := multiset{};
      assert z + AsRef(None) == z;
      var was := PutCwd(cur, None, z);
      DropDir(was, z);
    }

    /** vfs_chdir */
    method Chdir(path: Name) returns (err: Errno)
      requires Conserved()
      modifies this`devs, this`h, fs, fs.freemap
      ensures Conserved() && Sight(fs) == old(Sight(fs)) && devs.Keys == old(devs.Keys)
      ensures err == ChdirError(table, old(h), cur, path, Sight(fs).names)
      ensures err != OK ==> h == old(h)
      ensures err == OK ==> h.cwds[cur].Some? && h == old(h).(cwds := old(h).cwds[cur := h.cwds[cur]])
    {
      hide Sfs.Sound, NamesOk, Tied, Dirs, Owned, ViewOf, Parse;
      ghost var z: multiset<VRef> := multiset{};
      var x;
      err, x := Lookup(path, z, z);
      if err != OK {
        return;
      }
      ghost var e := z + multiset{x};
      assert e - multiset{x} == z;
      err := SetCurdir(x, e);
      DecRef(x, e, z);
    }

    /** change_bootfs, with a reference to the new directory in hand */
    method ChangeBootfs(d: Option<int>)
      requires Inv(AsRef(d), multiset{}) && (d.Some? ==> IsDir(fs, d.value))
      modifies this`devs, this`h, fs, fs.freemap
      ensures Conserved() && Sight(fs) == old(Sight(fs)) && devs.Keys == old(devs.Keys)
      ensures h == old(h).(bootfs := d)
    {
      hide Sfs.Sound, NamesOk, Tied, Owned, ViewOf;
      ghost var z: multiset<VRef> := multiset{};
      var was := h.bootfs;
      SwapBoot(fs.refs, devs, h, d);
      h := h.(bootfs := d);
      assert z + AsRef(was) == AsRef(was);
      DropDir(was, z);
    }

    /** vfs_setbootfs.  The name is cut off after 254 characters; a name with a colon anywhere is
        refused, also if the colon is at its end. */
    method SetBootfs(fsname: Name) returns (err: Errno)
      requires Conserved()
      modifies this`devs, this`h, fs, fs.freemap
      ensures Conserved() && Sight(fs) == old(Sight(fs)) && devs.Keys == old(devs.Keys)
      ensures var tmp := Clipped(fsname);
              err == if COLON in tmp then EINVAL else ChdirError(table, old(h), cur, tmp + [COLON], Sight(fs).names)
      ensures err != OK ==> h == old(h)
      ensures err == OK ==> h.bootfs == h.cwds[cur] && h.bootfs.Some?
    {
      hide Sfs.Sound, NamesOk, Tied, Dirs, Owned, ViewOf, Parse, ChdirError, Clipped;
      var tmp := Clipped(fsname);
      if COLON in tmp {
        return EINVAL;
      }
      err := BootFrom(tmp + [COLON]);
    }

    /** The rest of vfs_setbootfs, with a path that names a device. */
    method BootFrom(path: Name) returns (err: Errno)
      requires Conserved()
      modifies this`devs, this`h, fs, fs.freemap
      ensures Conserved() && Sight(fs) == old(Sight(fs)) && devs.Keys == old(devs.Keys)
      ensures err == ChdirError(table, old(h), cur, path, Sight(fs).names)
      ensures err != OK ==> h == old(h)
      ensures err == OK ==> h.bootfs == h.cwds[cur] && h.bootfs.Some?
    {
      hide Sfs.Sound, NamesOk, Tied, Dirs, Owned, ViewOf, Parse;
      ghost var z: multiset<VRef> := multiset{};
      err := Chdir(path);
      if err != OK {
        return;
      }
      var newguy;
      err, newguy := GetCurdir(z, z);
      assert z + multiset{Node(newguy)} == AsRef(Some(newguy));
      ChangeBootfs(Some(newguy));
    }

    /** vfs_clearbootfs */
    method ClearBootfs()
      requires Conserved()
      modifies this`devs, this`h, fs, fs.freemap
      ensures Conserved() && Sight(fs) == old(Sight(fs)) && h == old(h).(bootfs := None) && devs.Keys == old(devs.Keys)
    {
      ChangeBootfs(None);
    }

    /** thread_fork: the new thread starts in the parent's working directory. */
    method Fork()
      requires Conserved()
      modifies this`devs, this`h, fs`tab, fs`refs
      ensures Conserved() && fs.Vol() == old(fs.Vol()) && h == old(h).(cwds := old(h).cwds + [old(h).cwds[cur]]) &&
        devs.Keys == old(devs.Keys)
    {
      hide Sfs.Sound, NamesOk, Tied, Owned;
      ghost var z: multiset<VRef> := multiset{};
      var d := h.cwds[cur];
      if d.Some? {
        OwnedDir(h, cur);
        IncRef(Node(d.value), z, z);
        InHand(this, z + multiset{Node(d.value)}, z, d.value);
      }
      assert d.Some? ==> z + multiset{Node(d.value)} == AsRef(d);
      NewCwd(fs.refs, devs, h, d);
      h := h.(cwds := h.cwds + [d]);
    }
  }

  lemma SettledTook(v: Vfs, t: Table, r: Refs, e: multiset<VRef>, o: multiset<VRef>, q: int)
    requires Valid(v.fs) && Tied(r, v.devs, v.h, e, o) && Dirs(t, v.h) && v.cur < |v.h.cwds|
    requires forall n :: n in v.table && v.table[n].Plain? ==> v.table[n].dev in v.devs
    requires Kin(t, v.fs.tab) && v.fs.refs.held == r.held + multiset{q} && v.fs.refs.opens == r.opens
    ensures v.Inv(e + multiset{Node(q)}, o)
  {
    hide Sfs.Sound, NamesOk, Tied, Dirs, Owned;
    TiedInc(r, v.fs.refs, v.devs, v.h, e, o, q);
    HeldLoaded(v.fs);
    DirsKept(t, v.fs.tab, v.fs.refs, v.devs, v.h, e + multiset{Node(q)}, o);
  }

  /** The name of a boot file system with a colon at its end is refused. */
  lemma ColonRefused(name: Name)
    requires |name| < NAME_MAX - 1
    ensures COLON in Clipped(name + [COLON])
  {
    assert (name + [COLON])[|name|] == COLON;
  }

  /** A file that vfs_open made is left behind, though the call fails, exactly if the flags ask to
      append, or to truncate without writing. */
  lemma LeftBehind(table: map<Name, Target>, h: Holders, cur: nat, path: Name, f: Flags, devopen: Errno,
                   vol: Vol, names: map<Name, int>, names': map<Name, int>, err: Errno)
    requires OpenResult(table, h, cur, path, f, devopen, vol, names, names', err) && 0 <= f.how <= 2 && f.creat
    requires ParentError(table, h, cur, path) == OK && Parse(path).1 !in names && Parse(path).1 in names'
    ensures err != OK <==> f.append || (f.trunc && f.how == 0)
  {
    hide Parse, ParentError;
  }
}
