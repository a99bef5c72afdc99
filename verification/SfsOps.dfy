/** The vnode operations of an SFS directory and its files: sfs_lookup, sfs_creat, sfs_link,
    sfs_remove, sfs_rename, sfs_read, sfs_write and sfs_truncate of kern/fs/sfs/sfs_vnode.c. */
module SfsOps {
  import opened Bitmaps
  import opened SfsFormat
  import opened SfsVolume
  import opened VnodeTable
  import opened SfsState
  import opened SfsBmap
  import opened SfsIo
  import opened SfsVnodes
  import opened Directory
  import opened SfsDir
  import opened SfsNames

  /** The invariant of a mounted volume between calls. */
  ghost predicate Valid(fs: Sfs)
    reads fs, fs.freemap
  {
    fs.Sound() && NamesOk(fs.Vol(), fs.refs.cache.Keys)
  }

  ghost function Sight(fs: Sfs): View
    requires Valid(fs)
    reads fs, fs.freemap
  {
    ViewOf(fs.Vol())
  }

  /** p is a loaded vnode of the root directory. */
  ghost predicate IsDir(fs: Sfs, p: int)
    reads fs
  {
    p in fs.tab.heap && fs.tab.heap[p].ino == ROOT
  }

  /** p is a loaded vnode of a regular file. */
  ghost predicate IsFile(fs: Sfs, p: int)
    reads fs
  {
    p in fs.tab.heap && fs.tab.heap[p].ino != ROOT
  }

  /** Every vnode of t but those in s is as it was in u. */
  ghost predicate Others(t: Table, u: Table, s: set<int>) {
    forall p :: p in t.heap && p !in s ==> p in u.heap && u.heap[p] == t.heap[p]
  }

  /** A vnode in both tables is for the same inode. */
  ghost predicate Kin(t: Table, u: Table) {
    forall p :: p in t.heap && p in u.heap ==> u.heap[p].ino == t.heap[p].ino
  }

  lemma MoreLoaded(v: Vol, loaded: set<int>, loaded': set<int>)
    requires NamesOk(v, loaded) && loaded <= loaded'
    ensures NamesOk(v, loaded')
  {
    hide Files, Names, LinkCount, DirSlots, DirShape;
  }

  lemma EntryLive(v: Vol, loaded: set<int>, slot: int)
    requires NamesOk(v, loaded) && 0 <= slot < |DirSlots(v)| && DirSlots(v)[slot].ino != NOINO
    ensures var ino := DirSlots(v)[slot].ino;
            ino in v.inodes && ino != ROOT && v.inodes[ino].kind == TYPE_FILE && v.inodes[ino].links > 0
  {
    hide Files, LinkCount;
    Linked(DirSlots(v), slot);
  }

  /** From tables t to u one reference to the vnode at q was taken, loading it if need be. */
  ghost predicate Took(t: Table, r: Refs, u: Table, r': Refs, q: int) {
    && q in u.heap && u.heap == t.heap[q := u.heap[q]] && u.heap[q].opencount < u.heap[q].refcount
    && var ino := u.heap[q].ino;
    && r' == Refs(r.cache[ino := q], r.held + multiset{q}, r.opens)
    && (if ino in r.cache then q == r.cache[ino] && q in t.heap &&
      u.heap[q] == t.heap[q].(refcount := t.heap[q].refcount + 1)
        else q !in t.heap && u.heap[q].refcount == 1 && u.heap[q].opencount == 0)
  }

  lemma Counts(fs: Sfs)
    requires fs.Sound()
    ensures forall q :: q in fs.tab.heap ==>
      var v := fs.tab.heap[q];
      0 <= v.opencount == fs.refs.opens[q] <= v.refcount && 1 <= v.refcount == fs.refs.held[q]
  {
  }

  /** sfs_loadvnode of the file an entry names. */
  method Grab(fs: Sfs, ino: int, ghost slot: int) returns (q: int)
    requires Valid(fs) && 0 <= slot < |DirSlots(fs.Vol())| && DirSlots(fs.Vol())[slot].ino == ino != NOINO
    modifies fs`tab, fs`refs, fs`inodes
    ensures Valid(fs) && IsFile(fs, q) && fs.tab.heap[q].ino == ino && fs.Vol() == old(fs.Vol())
    ensures fs.tab.heap[q].inode.links > 0 && Took(old(fs.tab), old(fs.refs), fs.tab, fs.refs, q)
  {
    hide Sfs.Sound, NamesOk, DirSlots, Names, Files, PtrMap;
    ghost var a, r := fs.Vol(), fs.refs;
    Counts(fs);
    EntryLive(a, r.cache.Keys, slot);
    q := LoadVnode(fs, ino, TYPE_INVAL);
    MoreLoaded(a, r.cache.Keys, fs.refs.cache.Keys);
    LoadedInode(fs, q);
  }

  lemma SightFacts(fs: Sfs)
    requires Valid(fs)
    ensures SizesOk(fs.Vol()) && DirShape(fs.Vol()) && Unique(DirSlots(fs.Vol()))
    ensures Sight(fs).names == Names(DirSlots(fs.Vol()))
    ensures ROOT in fs.inodes && fs.inodes[ROOT].links == 1
  {
    hide Sfs.Sound, DirSlots;
  }

  /** sfs_lookonce, which is all that sfs_lookup does. */
  method LookOnce(fs: Sfs, p: int, name: Name) returns (err: Errno, q: int, slot: int)
    requires Valid(fs) && IsDir(fs, p)
    modifies fs, fs.freemap
    ensures Valid(fs) && IsDir(fs, p) && fs.Vol() == old(fs.Vol())
    ensures err == if name in old(Sight(fs)).names then OK else ENOENT
    ensures err == ENOENT ==> fs.tab == old(fs.tab) && fs.refs == old(fs.refs)
    ensures err == OK ==>
      && IsFile(fs, q) && fs.tab.heap[q].ino == Sight(fs).names[name]
      && Took(old(fs.tab), old(fs.refs), fs.tab, fs.refs, q)
      && 0 <= slot < |DirSlots(fs.Vol())| && DirSlots(fs.Vol())[slot] == Dirent(fs.tab.heap[q].ino, name)
  {
    hide Sfs.Sound, NamesOk, DirSlots, Names, Files, PtrMap;
    SightFacts(fs);
    var found, ino, sl, empty := FindName(fs, p, name);
    if !found {
      return ENOENT, 0, 0;
    }
    slot := sl;
    q := Grab(fs, ino, slot);
    assert fs.tab.heap[q].inode.links != 0;
    err := OK;
  }

  // ---- the steps of the directory operations ----

  /** A change of the link count in memory. */
  method SetLinkCount(fs: Sfs, q: int, links: int)
    requires fs.Sound() && q in fs.tab.heap
    requires VolOk(fs.Vol().(inodes := fs.inodes[fs.tab.heap[q].ino := fs.tab.heap[q].inode.(links := links)]))
    modifies fs`tab, fs`inodes, fs`owner
    ensures fs.Sound() && fs.Vol() == old(fs.Vol().(inodes :=
      fs.inodes[fs.tab.heap[q].ino := fs.tab.heap[q].inode.(links := links)]))
    ensures OnlyInode(old(fs.tab), fs.tab, q) && fs.tab.heap[q].inode == old(fs.tab.heap[q]).inode.(links := links)
  {
    hide VolOk, Coherent, TableOk, MapStored, Bits, IsSuper;
    PutInode(fs, q, fs.tab.heap[q].inode.(links := links), fs.owner);
  }

  /** Every vnode in both tables is for the same inode and has the same counts. */
  ghost predicate SameCounts(t: Table, u: Table) {
    forall p :: p in t.heap && p in u.heap ==>
      u.heap[p].ino == t.heap[p].ino && u.heap[p].refcount == t.heap[p].refcount &&
        u.heap[p].opencount == t.heap[p].opencount
  }

  lemma OneInode(t: Table, u: Table, p: int, q: int)
    requires OnlyInode(t, u, p) && p in t.heap && q in t.heap && p != q
    ensures u.heap.Keys == t.heap.Keys && Others(t, u, {p, q}) && SameCounts(t, u)
    ensures u.heap[q] == t.heap[q] && u.heap[p].ino == t.heap[p].ino
  {
  }

  /** Changes to the directory's vnode and then to the file's. */
  lemma TwoInodes(t: Table, u: Table, w: Table, p: int, q: int)
    requires OnlyInode(t, u, p) && OnlyInode(u, w, q) && p in t.heap && q in t.heap && p != q
    ensures w.heap.Keys == t.heap.Keys && Others(t, w, {p, q}) && SameCounts(t, w)
    ensures w.heap[q].ino == t.heap[q].ino && w.heap[p].ino == t.heap[p].ino
  {
  }

  lemma StepOnDir(a: Vol, b: Vol, s: seq<Dirent>)
    requires DirStep(a, b, s)
    ensures DirShape(b) && DirSlots(b) == s && b.inodes.Keys == a.inodes.Keys
    ensures forall ino :: ino in a.inodes && ino != ROOT ==> b.inodes[ino] == a.inodes[ino]
  {
    hide Files, DirSlots, DirShape;
  }

  lemma SlotsKept(b: Vol, c: Vol, ino: int)
    requires VolOk(b) && DirShape(b) && ino in b.inodes && ino != ROOT && VolOk(c) && ROOT in b.inodes
    requires c.inodes.Keys == b.inodes.Keys && c.inodes[ROOT] == b.inodes[ROOT] &&
      c == b.(inodes := b.inodes[ino := c.inodes[ino]])
    requires c.inodes[ino].direct == b.inodes[ino].direct && c.inodes[ino].indirect == b.inodes[ino].indirect
    ensures DirShape(c) && DirSlots(c) == DirSlots(b)
  {
    hide VolOk, Files, DirShape, DirSlots;
    InodeFacts(c, ino);
    SetMeta(b, c, ino, c.inodes[ino]);
    DirUnmoved(b, c);
  }

  /** A directory entry for the file at q, and one more link: sfs_link. */
  method Link(fs: Sfs, p: int, name: Name, q: int) returns (err: Errno, slot: int)
    requires Valid(fs) && IsDir(fs, p) && IsFile(fs, q)
    modifies fs, fs.freemap
    ensures Valid(fs) && IsDir(fs, p) && IsFile(fs, q) && fs.refs == old(fs.refs)
    ensures fs.tab.heap.Keys == old(fs.tab.heap.Keys) && Others(old(fs.tab), fs.tab, {p, q})
    ensures fs.tab.heap[q].ino == old(fs.tab.heap[q]).ino && SameCounts(old(fs.tab), fs.tab)
    ensures fs.tab.heap[q].inode.links == old(fs.tab.heap[q]).inode.links + if err == OK then 1 else 0
    ensures err == EEXIST <==> name in old(Sight(fs)).names
    ensures err == ENAMETOOLONG <==> name !in old(Sight(fs)).names && |name| >= NAMELEN
    ensures err in {OK, EEXIST, ENAMETOOLONG, ENOSPC, EINVAL} &&
      (err == ENOSPC ==> Full(fs.Vol()) && Scarce(old(fs.Vol()), 1))
    ensures err == EINVAL ==> |DirSlots(old(fs.Vol()))| * DIRENTSIZE >= MAXBYTES
    ensures err != OK ==> Sight(fs) == old(Sight(fs))
    ensures err == OK ==> Sight(fs) == old(Sight(fs)).(names := old(Sight(fs)).names[name := fs.tab.heap[q].ino])
    ensures err == OK ==>
      var s := DirSlots(old(fs.Vol()));
      0 <= slot <= |s| && (slot < |s| ==> s[slot].ino == NOINO) &&
        DirSlots(fs.Vol()) == Put(s, slot, Dirent(fs.tab.heap[q].ino, name))
  {
    hide Sfs.Sound, VolOk, NamesOk, DirSlots, Names, Files, PtrMap, DirStep, OnlyInode, SameCounts, Others;
    SightFacts(fs);
    LoadedInode(fs, q);
    ghost var a, loaded, t := fs.Vol(), fs.refs.cache.Keys, fs.tab;
    SoundVol(fs);
    SmallBlock(a, fs.tab.heap[q].ino);
    err, slot := DirLink(fs, p, name, fs.tab.heap[q].ino);
    ghost var b, t1 := fs.Vol(), fs.tab;
    OneInode(t, t1, p, q);
    if err != OK {
      KeptNames(a, b, loaded);
      return;
    }
    LoadedInode(fs, q);
    var v := fs.tab.heap[q];
    ghost var c := b.(inodes := b.inodes[v.ino := v.inode.(links := v.inode.links + 1)]);
    SoundVol(fs);
    StepOnDir(a, b, Put(DirSlots(a), slot, Dirent(v.ino, name)));
    LinkedVol(a, b, c, loaded, slot, v.ino, name);
    SlotsKept(b, c, v.ino);
    SetLinkCount(fs, q, v.inode.links + 1);
    TwoInodes(t, t1, fs.tab, p, q);
  }

  lemma Cached(fs: Sfs, q: int)
    requires fs.Sound() && q in fs.tab.heap
    ensures fs.tab.heap[q].ino in fs.refs.cache && fs.refs.cache[fs.tab.heap[q].ino] == q && fs.tab.heap[q].ino != NOINO
  {
    LoadedInode(fs, q);
  }

  /** A directory entry of the file at q goes, and one link with it. */
  method Unlink(fs: Sfs, p: int, slot: int, q: int)
    requires Valid(fs) && IsDir(fs, p) && IsFile(fs, q)
    requires 0 <= slot < |DirSlots(fs.Vol())| && DirSlots(fs.Vol())[slot].ino == fs.tab.heap[q].ino
    modifies fs, fs.freemap
    ensures Valid(fs) && IsDir(fs, p) && IsFile(fs, q) && fs.refs == old(fs.refs)
    ensures fs.tab.heap.Keys == old(fs.tab.heap.Keys) && Others(old(fs.tab), fs.tab, {p, q})
    ensures fs.tab.heap[q].ino == old(fs.tab.heap[q]).ino && SameCounts(old(fs.tab), fs.tab)
    ensures fs.tab.heap[q].inode.links == old(fs.tab.heap[q]).inode.links - 1 >= 0
    ensures Sight(fs) == old(Sight(fs)).(names := old(Sight(fs)).names - {DirSlots(old(fs.Vol()))[slot].name})
  {
    hide Sfs.Sound, VolOk, NamesOk, DirSlots, Names, Files, PtrMap, DirStep;
    SightFacts(fs);
    LoadedInode(fs, q);
    Cached(fs, q);
    ghost var a, loaded := fs.Vol(), fs.refs.cache.Keys;
    var err := DirUnlink(fs, p, slot);
    assert err == OK;
    ghost var b := fs.Vol();
    LoadedInode(fs, q);
    var v := fs.tab.heap[q];
    ghost var c := b.(inodes := b.inodes[v.ino := v.inode.(links := v.inode.links - 1)]);
    SoundVol(fs);
    StepOnDir(a, b, DirSlots(a)[slot := Dirent(NOINO, [])]);
    UnlinkedVol(a, b, c, loaded, slot, v.ino);
    assert v.inode.links > 0;
    SetLinkCount(fs, q, v.inode.links - 1);
  }

  /** A reference to the vnode at q was dropped. */
  ghost predicate Dropped(t: Table, r: Refs, v: View, u: Table, r': Refs, w: View, q: int) {
    && q in t.heap
    && var n := t.heap[q];
    && r' == (if n.refcount > 1 then r.(held := r.held - multiset{q}) else DropRef(r, q, n.ino))
    && u.heap == (if n.refcount > 1 then t.heap[q := n.(refcount := n.refcount - 1)] else t.heap - {q})
    && w == (if n.refcount == 1 && n.inode.links == 0 then v.(files := v.files - {n.ino}) else v)
  }

  lemma ReleasedView(a: Vol, t: Table, r: Refs, b: Vol, u: Table, r': Refs, q: int)
    requires Released(a, t, r, b, u, r', q) && NamesOk(a, r.cache.Keys) && t.heap[q].refcount >= 1
    requires var n := t.heap[q];
      n.ino in a.inodes && a.inodes[n.ino] == n.inode && (n.inode.links == 0 ==> n.ino != ROOT)
    ensures NamesOk(b, r'.cache.Keys) && Dropped(t, r, ViewOf(a), u, r', ViewOf(b), q)
    ensures t.heap[q].inode.links != 0 ==> FreeSet(b) == FreeSet(a) && RootSize(b) == RootSize(a)
  {
    var n := t.heap[q];
    assert n.inode.links != 0 ==> FreeSet(b) == FreeSet(a) && RootSize(b) == RootSize(a);
    hide NamesOk, ViewOf, Quiet, Erased, FreeSet, RootSize;
    if n.refcount <= 1 {
      assert r'.cache.Keys == r.cache.Keys - {n.ino};
      if n.inode.links == 0 {
        ErasedNames(a, b, r.cache.Keys, n.ino);
      } else {
        QuietNames(a, b, r.cache.Keys, r'.cache.Keys);
      }
    }
  }

  /** VOP_DECREF.  The file disappears exactly when this was the last reference to a file
      without links. */
  method Release(fs: Sfs, q: int)
    requires Valid(fs) && q in fs.tab.heap && fs.tab.heap[q].opencount < fs.tab.heap[q].refcount
    modifies fs, fs.freemap
    ensures Valid(fs) && Dropped(old(fs.tab), old(fs.refs), old(Sight(fs)), fs.tab, fs.refs, Sight(fs), q)
    ensures old(fs.tab.heap[q]).inode.links != 0 ==>
      FreeSet(fs.Vol()) == FreeSet(old(fs.Vol())) && RootSize(fs.Vol()) == RootSize(old(fs.Vol()))
  {
    hide Sfs.Sound, NamesOk, ViewOf, Released, Dropped, FreeSet, RootSize;
    Cached(fs, q);
    LoadedInode(fs, q);
    SightFacts(fs);
    Counts(fs);
    ghost var a, t, r := fs.Vol(), fs.tab, fs.refs;
    Decref(fs, q);
    ReleasedView(a, t, r, fs.Vol(), fs.tab, fs.refs, q);
  }

  // ---- the operations ----

  /** sfs_makeobj for a regular file: a file of no bytes and no links, held in memory. */
  method MakeFile(fs: Sfs) returns (err: Errno, q: int)
    requires Valid(fs)
    modifies fs, fs.freemap
    ensures Valid(fs) && (err == OK || err == ENOSPC)
    ensures err == ENOSPC ==>
      Sight(fs) == old(Sight(fs)) && fs.refs == old(fs.refs) && fs.tab == old(fs.tab) && Full(old(fs.Vol()))
    ensures err == OK ==>
      && IsFile(fs, q) && q !in old(fs.tab.heap) && fs.tab.heap == old(fs.tab.heap)[q := fs.tab.heap[q]]
      && var v := fs.tab.heap[q];
      && v.refcount == 1 && v.opencount == 0 && v.inode.links == 0 && v.ino !in old(fs.inodes)
      && v.ino !in old(fs.refs.cache)
      && fs.refs == AddRef(old(fs.refs), q, v.ino)
      && Sight(fs) == old(Sight(fs)).(files := old(Sight(fs)).files[v.ino := File([], true)])
      && OneTaken(old(fs.Vol()), fs.Vol(), v.ino) && DirSlots(fs.Vol()) == DirSlots(old(fs.Vol()))
  {
    hide Sfs.Sound, NamesOk, DirSlots, Names, Files, PtrMap, ViewOf;
    SightFacts(fs);
    ghost var a, r := fs.Vol(), fs.refs;
    err, q := MakeObj(fs, TYPE_FILE);
    if err == OK {
      LoadedInode(fs, q);
      MadeNames(a, fs.Vol(), r.cache.Keys, fs.tab.heap[q].ino);
      assert fs.refs.cache.Keys == r.cache.Keys + {fs.tab.heap[q].ino};
    }
  }

  lemma Undone(r: Refs, q: int, ino: int)
    requires ino !in r.cache
    ensures DropRef(AddRef(r, q, ino), q, ino) == r
  {
    assert r.cache[ino := q] - {ino} == r.cache;
  }

  /** How the making of a file can end: for want of space only if at most two blocks are free, else
      always with ENAMETOOLONG if the name is too long, and for want of room in the directory only
      if that has the largest size. */
  ghost predicate MakeResult(v: Vol, name: Name, err: Errno) {
    && (if |name| >= NAMELEN then err in {ENOSPC, ENAMETOOLONG} else err in {OK, ENOSPC, EINVAL})
    && (err == ENOSPC ==> Scarce(v, 2)) && (err == EINVAL ==> RootSize(v) >= MAXBYTES)
  }

  lemma RootSlots(v: Vol, loaded: set<int>)
    requires NamesOk(v, loaded)
    ensures |DirSlots(v)| * DIRENTSIZE == RootSize(v)
  {
    hide Ptr;
  }

  lemma FilesLive(fs: Sfs)
    requires Valid(fs)
    ensures Sight(fs).files.Keys == fs.inodes.Keys - {ROOT}
  {
    hide Sfs.Sound;
  }

  /** The part of sfs_creat that makes the file.  A call that fails, even after the inode was
      made, changes no name, no file and no reference. */
  method NewFile(fs: Sfs, p: int, name: Name) returns (err: Errno, q: int)
    requires Valid(fs) && IsDir(fs, p) && name !in Sight(fs).names
    modifies fs, fs.freemap
    ensures Valid(fs) && IsDir(fs, p) && SameCounts(old(fs.tab), fs.tab)
    ensures MakeResult(old(fs.Vol()), name, err)
    ensures err != OK ==>
      Sight(fs) == old(Sight(fs)) && fs.refs == old(fs.refs) && fs.tab.heap.Keys == old(fs.tab.heap.Keys)
    ensures err == OK ==>
      && IsFile(fs, q) && q !in old(fs.tab.heap) && fs.tab.heap.Keys == old(fs.tab.heap.Keys) + {q}
      && var v := fs.tab.heap[q];
      && v.refcount == 1 && v.opencount == 0 && v.ino !in old(Sight(fs)).files
      && fs.refs == AddRef(old(fs.refs), q, v.ino)
      && Sight(fs) == View(old(Sight(fs)).names[name := v.ino], old(Sight(fs)).files[v.ino := File([], true)])
  {
    hide Sfs.Sound, NamesOk, DirSlots, Names, Files, PtrMap, ViewOf, RootSize;
    ghost var a, r, t := fs.Vol(), fs.refs, fs.tab;
    FilesLive(fs);
    err, q := MakeFile(fs);
    if err != OK {
      FullScarce(a);
      return;
    }
    ghost var b := fs.Vol();
    ghost var ino := fs.tab.heap[q].ino;
    var slot;
    err, slot := Link(fs, p, name, q);
    if err == ENOSPC {
      TakenScarce(a, b, ino, 1);
    } else if err == EINVAL {
      RootSlots(a, r.cache.Keys);
    }
    if err != OK {
      Release(fs, q);
      Undone(r, q, ino);
    }
  }

  /** sfs_creat.  An existing file is opened unless excl; a new one starts empty. */
  method Creat(fs: Sfs, p: int, name: Name, excl: bool) returns (err: Errno, q: int)
    requires Valid(fs) && IsDir(fs, p)
    modifies fs, fs.freemap
    ensures Valid(fs) && IsDir(fs, p) && Kin(old(fs.tab), fs.tab)
    ensures err == EEXIST <==> name in old(Sight(fs)).names && excl
    ensures name !in old(Sight(fs)).names ==> MakeResult(old(fs.Vol()), name, err)
    ensures err != OK ==>
      Sight(fs) == old(Sight(fs)) && fs.refs == old(fs.refs) && fs.tab.heap.Keys == old(fs.tab.heap.Keys)
    ensures err == OK ==> IsFile(fs, q) && name in Sight(fs).names && fs.tab.heap[q].ino == Sight(fs).names[name]
    ensures name in old(Sight(fs)).names && !excl ==>
      err == OK && Sight(fs) == old(Sight(fs)) && Took(old(fs.tab), old(fs.refs), fs.tab, fs.refs, q)
    ensures err == OK && name !in old(Sight(fs)).names ==>
      && q !in old(fs.tab.heap) && fs.tab.heap.Keys == old(fs.tab.heap.Keys) + {q}
      && var v := fs.tab.heap[q];
      && v.refcount == 1 && v.opencount == 0 && v.ino !in old(Sight(fs)).files
      && fs.refs == AddRef(old(fs.refs), q, v.ino)
      && Sight(fs) == View(old(Sight(fs)).names[name := v.ino], old(Sight(fs)).files[v.ino := File([], true)])
  {
    hide Sfs.Sound, NamesOk, DirSlots, Names, Files, PtrMap, Content, Contents;
    SightFacts(fs);
    var found, ino, slot, empty := FindName(fs, p, name);
    if found && excl {
      return EEXIST, 0;
    }
    if found {
      q := Grab(fs, ino, slot);
      return OK, q;
    }
    err, q := NewFile(fs, p, name);
  }

  /** The reference that was taken is dropped again. */
  lemma GaveBack(t: Table, r: Refs, t1: Table, r1: Refs, t2: Table, t3: Table, r3: Refs, q: int)
    requires Took(t, r, t1, r1, q) && t2.heap.Keys == t1.heap.Keys && SameCounts(t1, t2) &&
      t2.heap[q].ino == t1.heap[q].ino
    requires q in t.heap ==> t.heap[q].refcount >= 1
    requires var v := t2.heap[q];
             && r3 == (if v.refcount > 1 then r1.(held := r1.held - multiset{q}) else DropRef(r1, q, v.ino))
             && t3.heap == (if v.refcount > 1 then t2.heap[q := v.(refcount := v.refcount - 1)] else t2.heap - {q})
    ensures r3 == r && t3.heap.Keys == t.heap.Keys && SameCounts(t, t3)
  {
    var ino := t1.heap[q].ino;
    if ino in r.cache {
      assert r.cache[ino := q] == r.cache;
    } else {
      Undone(r, q, ino);
    }
  }

  /** The link count is zero exactly when no name is left. */
  lemma Unnamed(fs: Sfs, q: int)
    requires Valid(fs) && IsFile(fs, q)
    ensures fs.tab.heap[q].inode.links == 0 <==> fs.tab.heap[q].ino !in Sight(fs).names.Values
  {
    hide Sfs.Sound, Names, Files, Contents, DirShape;
    LoadedInode(fs, q);
    var s, ino := DirSlots(fs.Vol()), fs.tab.heap[q].ino;
    hide DirSlots;
    if fs.inodes[ino].links != 0 {
      var k := LinkedBy(s, ino);
      NameAt(s, k);
      assert s[k].name in Sight(fs).names;
    }
    forall n | n in Sight(fs).names && Sight(fs).names[n] == ino
      ensures fs.inodes[ino].links != 0
    {
      var k := SlotOf(s, n);
      Linked(s, k);
    }
  }

  /** The vnode of inode ino is in memory, as it is while someone holds it. */
  ghost predicate InMemory(t: Table, ino: int) {
    exists p :: p in t.heap && t.heap[p].ino == ino
  }

  lemma CachedInMemory(fs: Sfs, ino: int)
    requires fs.Sound()
    ensures ino in fs.refs.cache <==> InMemory(fs.tab, ino)
  {
    if ino in fs.refs.cache {
      CachedVnode(fs.tab, fs.refs, ino);
      var p := fs.refs.cache[ino];
      assert p in fs.tab.heap && fs.tab.heap[p].ino == ino;
    }
    if InMemory(fs.tab, ino) {
      var p :| p in fs.tab.heap && fs.tab.heap[p].ino == ino;
      Cached(fs, p);
    }
  }

  /** sfs_remove.  The name goes.  The file goes with it when it has no other name and nobody
      holds it. */
  method Remove(fs: Sfs, p: int, name: Name) returns (err: Errno)
    requires Valid(fs) && IsDir(fs, p)
    modifies fs, fs.freemap
    ensures Valid(fs) && IsDir(fs, p) && fs.refs == old(fs.refs) && fs.tab.heap.Keys == old(fs.tab.heap.Keys) &&
      SameCounts(old(fs.tab), fs.tab)
    ensures err == if name in old(Sight(fs)).names then OK else ENOENT
    ensures err != OK ==> Sight(fs) == old(Sight(fs))
    ensures err == OK ==>
      var v, ino := old(Sight(fs)), old(Sight(fs)).names[name];
      && Sight(fs).names == v.names - {name}
      && ino != ROOT
      && Sight(fs).files == if ino in (v.names - {name}).Values || InMemory(fs.tab, ino) then v.files
        else v.files - {ino}
  {
    hide Sfs.Sound, NamesOk, DirSlots, Names, Files, PtrMap, ViewOf;
    ghost var t, r := fs.tab, fs.refs;
    Counts(fs);
    var victim, slot;
    err, victim, slot := LookOnce(fs, p, name);
    if err != OK {
      return;
    }
    ghost var t1, r1 := fs.tab, fs.refs;
    Unlink(fs, p, slot, victim);
    Unnamed(fs, victim);
    ghost var t2 := fs.tab;
    Release(fs, victim);
    GaveBack(t, r, t1, r1, t2, fs.tab, fs.refs, victim);
    CachedInMemory(fs, t1.heap[victim].ino);
  }

  /** The new entry first, then the old one goes. */
  method Relink(fs: Sfs, p: int, slot1: int, n2: Name, g1: int) returns (err: Errno)
    requires Valid(fs) && IsDir(fs, p) && IsFile(fs, g1)
    requires 0 <= slot1 < |DirSlots(fs.Vol())| && DirSlots(fs.Vol())[slot1].ino == fs.tab.heap[g1].ino
    modifies fs, fs.freemap
    ensures Valid(fs) && IsDir(fs, p) && IsFile(fs, g1) && fs.refs == old(fs.refs)
    ensures fs.tab.heap.Keys == old(fs.tab.heap.Keys) && SameCounts(old(fs.tab), fs.tab)
    ensures fs.tab.heap[g1].ino == old(fs.tab.heap[g1]).ino &&
      fs.tab.heap[g1].inode.links == old(fs.tab.heap[g1]).inode.links
    ensures err == EEXIST <==> n2 in old(Sight(fs)).names
    ensures err == ENAMETOOLONG <==> n2 !in old(Sight(fs)).names && |n2| >= NAMELEN
    ensures err in {OK, EEXIST, ENAMETOOLONG, ENOSPC, EINVAL} &&
      (err == ENOSPC ==> Full(fs.Vol()) && Scarce(old(fs.Vol()), 1))
    ensures err == EINVAL ==> |DirSlots(old(fs.Vol()))| * DIRENTSIZE >= MAXBYTES
    ensures err != OK ==> Sight(fs) == old(Sight(fs))
    ensures err == OK ==>
      && |n2| < NAMELEN
      && Sight(fs) == old(Sight(fs)).(names :=
        old(Sight(fs)).names[n2 := fs.tab.heap[g1].ino] - {DirSlots(old(fs.Vol()))[slot1].name})
  {
    hide Sfs.Sound, NamesOk, DirSlots, Names, Files, PtrMap, ViewOf;
    Cached(fs, g1);
    var slot2;
    err, slot2 := Link(fs, p, n2, g1);
    if err == OK {
      Unlink(fs, p, slot1, g1);
    }
  }

  /** The file changes its name, or the call fails and nothing changes. */
  ghost predicate Renames(v: View, w: View, n1: Name, n2: Name, err: Errno) {
    && (err == ENOENT <==> n1 !in v.names)
    && (err == EEXIST <==> n1 in v.names && n2 in v.names)
    && (err == ENAMETOOLONG <==> n1 in v.names && n2 !in v.names && |n2| >= NAMELEN)
    && (err == OK ==> n1 in v.names && |n2| < NAMELEN && w == v.(names := (v.names - {n1})[n2 := v.names[n1]]))
    && (err != OK ==> w == v)
  }

  lemma NotRenamed(v: View, n1: Name, n2: Name)
    requires n1 !in v.names
    ensures Renames(v, v, n1, n2, ENOENT)
  {
  }

  lemma Renamed(v: View, w: View, n1: Name, n2: Name, err: Errno)
    requires n1 in v.names && (err == EEXIST <==> n2 in v.names) && err != ENOENT
    requires err == ENAMETOOLONG <==> n2 !in v.names && |n2| >= NAMELEN
    requires err != OK ==> w == v
    requires err == OK ==> |n2| < NAMELEN && w == v.(names := v.names[n2 := v.names[n1]] - {n1})
    ensures Renames(v, w, n1, n2, err)
  {
    assert n2 !in v.names ==> v.names[n2 := v.names[n1]] - {n1} == (v.names - {n1})[n2 := v.names[n1]];
  }

  /** A reference to a file with links, taken from t and r to t1, is dropped again. */
  method PutBack(fs: Sfs, q: int, ghost t: Table, ghost r: Refs, ghost t1: Table)
    requires Valid(fs) && Took(t, r, t1, fs.refs, q) && (q in t.heap ==> t.heap[q].refcount >= 1)
    requires fs.tab.heap.Keys == t1.heap.Keys && SameCounts(t1, fs.tab) && fs.tab.heap[q].inode.links != 0
    modifies fs, fs.freemap
    ensures Valid(fs) && Sight(fs) == old(Sight(fs)) && fs.refs == r && fs.tab.heap.Keys == t.heap.Keys &&
      SameCounts(t, fs.tab)
  {
    hide Sfs.Sound, NamesOk, DirSlots, Names, Files, PtrMap, ViewOf;
    ghost var t2, r2 := fs.tab, fs.refs;
    assert q in t1.heap && q in t2.heap;
    Release(fs, q);
    GaveBack(t, r, t1, r2, t2, fs.tab, fs.refs, q);
  }

  /** The part of sfs_rename with a reference to the file, taken since t and r, in hand. */
  method RenameHeld(fs: Sfs, p: int, slot1: int, n1: Name, n2: Name, g1: int, ghost t: Table, ghost r: Refs)
    returns (err: Errno)
    requires Valid(fs) && IsDir(fs, p) && IsFile(fs, g1) && Took(t, r, fs.tab, fs.refs, g1) &&
      (g1 in t.heap ==> t.heap[g1].refcount >= 1)
    requires 0 <= slot1 < |DirSlots(fs.Vol())| && DirSlots(fs.Vol())[slot1] == Dirent(fs.tab.heap[g1].ino, n1)
    requires n1 in Sight(fs).names && fs.tab.heap[g1].ino == Sight(fs).names[n1]
    modifies fs, fs.freemap
    ensures Valid(fs) && Renames(old(Sight(fs)), Sight(fs), n1, n2, err)
    ensures err in {OK, EEXIST, ENAMETOOLONG, ENOSPC, EINVAL} && (err == ENOSPC ==> Scarce(old(fs.Vol()), 1))
    ensures err == EINVAL ==> |DirSlots(old(fs.Vol()))| * DIRENTSIZE >= MAXBYTES
    ensures fs.refs == r && fs.tab.heap.Keys == t.heap.Keys && SameCounts(t, fs.tab)
  {
    hide Sfs.Sound, NamesOk, DirSlots, Names, Files, PtrMap, ViewOf, Renames, Took, SameCounts;
    ghost var v, t1 := Sight(fs), fs.tab;
    assert n1 in v.names.Keys && v.names[n1] in v.names.Values;
    Unnamed(fs, g1);
    err := Relink(fs, p, slot1, n2, g1);
    Renamed(v, Sight(fs), n1, n2, err);
    PutBack(fs, g1, t, r, t1);
  }

  /** sfs_rename */
  method Rename(fs: Sfs, p: int, n1: Name, n2: Name) returns (err: Errno)
    requires Valid(fs) && IsDir(fs, p)
    modifies fs, fs.freemap
    ensures Valid(fs) && IsDir(fs, p) && Renames(old(Sight(fs)), Sight(fs), n1, n2, err)
    ensures fs.refs == old(fs.refs) && fs.tab.heap.Keys == old(fs.tab.heap.Keys) && SameCounts(old(fs.tab), fs.tab)
    ensures err in {OK, ENOENT, EEXIST, ENAMETOOLONG, ENOSPC, EINVAL} && (err == ENOSPC ==> Scarce(old(fs.Vol()), 1))
    ensures err == EINVAL ==> |DirSlots(old(fs.Vol()))| * DIRENTSIZE >= MAXBYTES
  {
    hide Sfs.Sound, NamesOk, DirSlots, Names, Files, PtrMap, ViewOf, Renames, Took;
    ghost var t, r, v := fs.tab, fs.refs, Sight(fs);
    Counts(fs);
    var g1, slot1;
    err, g1, slot1 := LookOnce(fs, p, n1);
    if err != OK {
      NotRenamed(v, n1, n2);
      return;
    }
    err := RenameHeld(fs, p, slot1, n1, n2, g1, t, r);
  }
}
