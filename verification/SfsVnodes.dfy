/** Loading, syncing and reclaiming vnodes: sfs_sync_inode, sfs_loadvnode, sfs_reclaim and
    sfs_makeobj of kern/fs/sfs/sfs_vnode.c, with vnode_incref and vnode_decref of
    kern/fs/vfs/vnode.c. */
module SfsVnodes {
  import opened Basics
  import opened Bytes
  import opened Bitmaps
  import opened SfsFormat
  import opened SfsOwnership
  import opened SfsVolume
  import opened VnodeTable
  import opened SfsState
  import opened SfsBmap
  import opened SfsIo
  import opened SfsTruncate

  /** Nothing changed from volume a to b but blocks that hold no file bytes. */
  ghost predicate Quiet(a: Vol, b: Vol) {
    && b == a.(disk := b.disk) && |b.disk| == |a.disk|
    && Files(b) == Files(a) && PtrMap(b) == PtrMap(a)
  }

  // ---- sfs_sync_inode ----

  lemma StoredEncoding(i: Inode)
    requires InodeFits(i)
    ensures Stored(EncodeInode(i), i)
  {
    hide EncodeInode;
    InodeRoundTrip(i);
  }

  lemma StoreInode(v: Vol, t: Table, r: Refs, p: int)
    requires VolOk(v) && TableOk(t, r) && Coherent(v.disk, v.inodes, t, r) && p in t.heap
    requires InodeFits(t.heap[p].inode) && 0 <= t.heap[p].ino < |v.disk|
    ensures var d := v.disk[t.heap[p].ino := EncodeInode(t.heap[p].inode)];
            var u := t.(heap := t.heap[p := t.heap[p].(dirty := false)]);
            TableOk(u, r) && Coherent(d, v.inodes, u, r)
  {
    hide VolOk, EncodeInode, DecodeInode;
    var v := t.heap[p];
    SetVnode(t, r, p, v.(dirty := false));
    StoredEncoding(v.inode);
  }

  lemma SyncedVol(v: Vol, ino: int, x: Block)
    requires VolOk(v) && ino in v.inodes
    ensures 0 < ino < |v.disk| && VolOk(v.(disk := v.disk[ino := x])) && Quiet(v, v.(disk := v.disk[ino := x]))
    ensures !IsReserved(ino, |v.disk|)
  {
    InodeFacts(v, ino);
    WriteElsewhere(v, ino, x);
    assert Is(v, v);
  }

  lemma QuietSelf(a: Vol)
    ensures Quiet(a, a)
  {
  }

  /** A dirty inode goes to its block; the vnode is clean afterwards. */
  method SyncInode(fs: Sfs, p: int)
    requires fs.Sound() && p in fs.tab.heap
    modifies fs`disk, fs`tab
    ensures fs.Sound() && Quiet(old(fs.Vol()), fs.Vol())
    ensures fs.tab == old(fs.tab).(heap := old(fs.tab).heap[p := old(fs.tab).heap[p].(dirty := false)])
  {
    hide VolOk, Coherent, TableOk, MapStored, Bits, IsSuper, Quiet, EncodeInode;
    LoadedInode(fs, p);
    var v := fs.tab.heap[p];
    if v.dirty {
      var x := EncodeInode(v.inode);
      SyncedVol(fs.Vol(), v.ino, x);
      StoreInode(fs.Vol(), fs.tab, fs.refs, p);
      if !fs.freemapDirty {
        MapStoredWrite(fs.disk, fs.freemap.v, v.ino, x);
      }
      fs.disk := fs.disk[v.ino := x];
      fs.tab := fs.tab.(heap := fs.tab.heap[p := v.(dirty := false)]);
    } else {
      QuietSelf(fs.Vol());
      assert fs.tab.heap[p := v.(dirty := false)] == fs.tab.heap;
    }
  }

  // ---- sfs_loadvnode ----

  lemma Above(s: set<int>) returns (b: int)
    ensures forall x :: x in s ==> x < b
  {
    b := 0;
    if y :| y in s {
      var c := Above(s - {y});
      b := if c <= y then y + 1 else c;
      forall x | x in s ensures x < b {
        assert x == y || x in s - {y};
      }
    }
  }

  /** kmalloc: an address where no vnode lives. */
  method NewAddress(heap: map<int, Vnode>) returns (p: int)
    ensures p !in heap
  {
    ghost var b := Above(heap.Keys);
    assert b !in heap;
    p :| p !in heap;
  }

  /** The vnode table after ino was loaded: the vnode already there gains a reference, or a new
      one is made at p from inode. */
  ghost predicate Loaded(t: Table, r: Refs, t': Table, r': Refs, p: int, ino: int, inode: Inode) {
    && p in t'.heap && t'.heap[p].ino == ino
    && r' == Refs(r.cache[ino := p], r.held + multiset{p}, r.opens)
    && t'.heap == t.heap[p := t'.heap[p]]
    && (if ino in r.cache then p == r.cache[ino] && p in t.heap &&
      t'.heap[p] == t.heap[p].(refcount := t.heap[p].refcount + 1)
        else p !in t.heap && t'.heap[p].inode == inode && t'.heap[p].refcount == 1 && t'.heap[p].opencount == 0)
  }

  lemma TakeRef(t: Table, r: Refs, p: int)
    requires TableOk(t, r) && p in t.heap
    ensures var v := t.heap[p].(refcount := t.heap[p].refcount + 1);
            TableOk(t.(heap := t.heap[p := v]), r.(held := r.held + multiset{p}))
  {
    var held := r.held + multiset{p};
    assert held == r.held[p := held[p]];
    SetCounts(t, r, p, t.heap[p].(refcount := t.heap[p].refcount + 1), held, r.opens);
  }

  /** Changing only a vnode's counts. */
  lemma CoherentCounts(disk: seq<Block>, inodes: map<int, Inode>, t: Table, r: Refs, t': Table, r': Refs, p: int)
    requires TableOk(t, r) && Coherent(disk, inodes, t, r) && p in t.heap
    requires r'.cache == r.cache && p in t'.heap && t'.heap == t.heap[p := t'.heap[p]]
    requires t'.heap[p] == t.heap[p].(refcount := t'.heap[p].refcount, opencount := t'.heap[p].opencount)
    ensures Coherent(disk, inodes, t', r')
  {
    forall ino | ino in inodes && !IsDirty(ino, t', r')
      ensures 0 <= ino < |disk| && Stored(disk[ino], inodes[ino])
    {
      assert !IsDirty(ino, t, r);
    }
  }

  method Incref(fs: Sfs, p: int)
    requires fs.Sound() && p in fs.tab.heap
    modifies fs`tab, fs`refs
    ensures fs.Sound() && fs.Vol() == old(fs.Vol())
    ensures fs.tab == old(fs.tab).(heap :=
      old(fs.tab).heap[p := old(fs.tab).heap[p].(refcount := old(fs.tab).heap[p].refcount + 1)])
    ensures fs.refs == old(fs.refs).(held := old(fs.refs).held + multiset{p})
  {
    hide VolOk, Coherent, TableOk, MapStored, Bits, IsSuper;
    var v := fs.tab.heap[p];
    ghost var r := fs.refs.(held := fs.refs.held + multiset{p});
    var t := fs.tab.(heap := fs.tab.heap[p := v.(refcount := v.refcount + 1)]);
    TakeRef(fs.tab, fs.refs, p);
    CoherentCounts(fs.disk, fs.inodes, fs.tab, fs.refs, t, r, p);
    fs.tab, fs.refs := t, r;
  }

  lemma LoadNew(v: Vol, t: Table, r: Refs, p: int, ino: int, inode: Inode, dirty: bool)
    requires TableOk(t, r) && Coherent(v.disk, v.inodes, t, r) && p !in t.heap && ino in v.inodes && ino !in r.cache
    requires !dirty ==> inode == v.inodes[ino]
    ensures var t' := Table(t.heap[p := Vnode(ino, inode, dirty, 1, 0)], t.vnodes + [p]);
            TableOk(t', AddRef(r, p, ino)) && Coherent(v.disk, v.inodes[ino := inode], t', AddRef(r, p, ino))
  {
    var n := Vnode(ino, inode, dirty, 1, 0);
    AddVnode(t, r, p, n);
    var t', r', inodes := Table(t.heap[p := n], t.vnodes + [p]), AddRef(r, p, ino), v.inodes[ino := inode];
    forall x | x in inodes && !IsDirty(x, t', r')
      ensures 0 <= x < |v.disk| && Stored(v.disk[x], inodes[x])
    {
      assert x != ino ==> !IsDirty(x, t, r);
      assert !IsDirty(ino, t, r);
    }
  }

  lemma StoredInode(v: Vol, t: Table, r: Refs, ino: int)
    requires Coherent(v.disk, v.inodes, t, r) && ino in v.inodes && ino !in r.cache
    ensures 0 <= ino < |v.disk| && DecodeInode(v.disk[ino]) == v.inodes[ino]
  {
    assert !IsDirty(ino, t, r);
    assert Copy(v.disk[ino], v.disk[ino]);
  }

  lemma SetKind(v: Vol, ino: int, kind: int)
    requires VolOk(v) && ino in v.inodes && 0 <= kind < 0x1_0000
    ensures var w := v.(inodes := v.inodes[ino := v.inodes[ino].(kind := kind)]);
            VolOk(w) && Files(w) == Files(v) && PtrMap(w) == PtrMap(v)
  {
    hide VolOk, Files;
    InodeFacts(v, ino);
    SetMeta(v, v.(inodes := v.inodes[ino := v.inodes[ino].(kind := kind)]), ino, v.inodes[ino].(kind := kind));
  }

  /** The inodes after loading ino with a forced type, if any. */
  ghost function Forced(inodes: map<int, Inode>, ino: int, forcetype: int): map<int, Inode>
    requires ino in inodes
  {
    if forcetype == TYPE_INVAL then inodes else inodes[ino := inodes[ino].(kind := forcetype)]
  }

  /** The new vnode enters the table with one reference. */
  method InstallVnode(fs: Sfs, p: int, ino: int, inode: Inode, dirty: bool)
    requires fs.Sound() && p !in fs.tab.heap && ino in fs.inodes && ino !in fs.refs.cache
    requires !dirty ==> inode == fs.inodes[ino]
    requires VolOk(fs.Vol().(inodes := fs.inodes[ino := inode]))
    modifies fs`tab, fs`refs, fs`inodes
    ensures fs.Sound() && fs.Vol() == old(fs.Vol()).(inodes := old(fs.inodes)[ino := inode])
    ensures Loaded(old(fs.tab), old(fs.refs), fs.tab, fs.refs, p, ino, inode)
  {
    hide VolOk, Coherent, TableOk, MapStored, Bits, IsSuper;
    LoadNew(fs.Vol(), fs.tab, fs.refs, p, ino, inode, dirty);
    fs.inodes := fs.inodes[ino := inode];
    fs.tab := Table(fs.tab.heap[p := Vnode(ino, inode, dirty, 1, 0)], fs.tab.vnodes + [p]);
    fs.refs := AddRef(fs.refs, p, ino);
  }

  lemma CachedVnode(t: Table, r: Refs, ino: int)
    requires TableOk(t, r) && ino in r.cache
    ensures r.cache[ino] in t.heap && t.heap[r.cache[ino]].ino == ino
  {
  }

  /** Every inode in memory is in an allocated block. */
  lemma LoadedUsed(fs: Sfs)
    requires fs.Sound()
    ensures forall p :: p in fs.tab.heap ==>
      0 < fs.tab.heap[p].ino < |fs.Vol().bits| && fs.Vol().bits[fs.tab.heap[p].ino]
  {
    forall p | p in fs.tab.heap
      ensures 0 < fs.tab.heap[p].ino < |fs.Vol().bits| && fs.Vol().bits[fs.tab.heap[p].ino]
    {
      InodeFacts(fs.Vol(), fs.tab.heap[p].ino);
    }
  }

  method LoadVnode(fs: Sfs, ino: int, forcetype: int) returns (p: int)
    requires fs.Sound() && ino in fs.inodes && forcetype in {TYPE_INVAL, TYPE_FILE, TYPE_DIR}
    requires forcetype == TYPE_INVAL ==> fs.inodes[ino].kind in {TYPE_FILE, TYPE_DIR}
    requires forcetype != TYPE_INVAL ==> ino !in fs.refs.cache && fs.inodes[ino].kind == TYPE_INVAL
    modifies fs`tab, fs`refs, fs`inodes
    ensures fs.Vol() == old(fs.Vol()).(inodes := Forced(old(fs.inodes), ino, forcetype)) &&
      fs.inodes.Keys == old(fs.inodes.Keys)
    ensures fs.Sound() && Loaded(old(fs.tab), old(fs.refs), fs.tab, fs.refs, p, ino, fs.inodes[ino])
    ensures Files(fs.Vol()) == Files(old(fs.Vol())) && PtrMap(fs.Vol()) == PtrMap(old(fs.Vol()))
  {
    hide VolOk, Coherent, TableOk, MapStored, Bits, IsSuper, Files, PtrMap;
    LoadedUsed(fs);
    var found;
    found, p := Find(fs.tab, fs.refs, ino);
    if found {
      assert forcetype == TYPE_INVAL;
      CachedVnode(fs.tab, fs.refs, ino);
      Incref(fs, p);
      assert fs.refs.cache == fs.refs.cache[ino := p];
      return;
    }
    p := NewAddress(fs.tab.heap);
    StoredInode(fs.Vol(), fs.tab, fs.refs, ino);
    var inode, dirty := DecodeInode(fs.disk[ino]), false;
    if forcetype != TYPE_INVAL {
      assert inode.kind == TYPE_INVAL;
      SetKind(fs.Vol(), ino, forcetype);
      inode, dirty := inode.(kind := forcetype), true;
    }
    assert inode.kind == TYPE_FILE || inode.kind == TYPE_DIR;
    assert fs.inodes[ino := inode] == Forced(fs.inodes, ino, forcetype);
    InstallVnode(fs, p, ino, inode, dirty);
  }

  // ---- sfs_makeobj ----

  /** From volume a to b, a new empty file appeared at inode number ino. */
  ghost predicate Made(a: Vol, b: Vol, ino: int, kind: int) {
    && |b.disk| == |a.disk| && ino !in a.inodes
    && b.inodes == a.inodes[ino := ZeroInode().(kind := kind)]
    && Files(b) == Files(a)[ino := Zeros(MAXBYTES)]
    && (forall x :: x in a.inodes ==> PtrMap(b)[x] == PtrMap(a)[x])
  }

  lemma NewInode(a: Vol, m: Vol, ino: int)
    requires VolOk(a) && Claimed(a, m, ino)
    ensures var b := m.(inodes := m.inodes[ino := ZeroInode()], owner := m.owner[ino := InodeBlock(ino)]);
            && ino !in a.inodes && VolOk(b) && Files(b) == Files(a)[ino := Zeros(MAXBYTES)]
            && (forall x :: x in a.inodes ==> PtrMap(b)[x] == PtrMap(a)[x])
  {
    hide VolOk, Files;
    var z := a.(disk := m.disk);
    AddInode(z, m.(inodes := m.inodes[ino := ZeroInode()], owner := m.owner[ino := InodeBlock(ino)]), ino);
  }

  lemma CachedLive(disk: seq<Block>, inodes: map<int, Inode>, t: Table, r: Refs)
    requires TableOk(t, r) && Coherent(disk, inodes, t, r)
    ensures r.cache.Keys <= inodes.Keys
  {
    forall ino | ino in r.cache
      ensures ino in inodes
    {
      var p := r.cache[ino];
      assert p in t.heap && t.heap[p].ino == ino;
    }
  }

  lemma CoherentNew(disk: seq<Block>, inodes: map<int, Inode>, t: Table, r: Refs, ino: int)
    requires TableOk(t, r) && Coherent(disk, inodes, t, r) && ino !in inodes && 0 <= ino < |disk| &&
      disk[ino] == ZeroBlock()
    ensures Coherent(disk, inodes[ino := ZeroInode()], t, r) && ino !in r.cache
  {
    hide DecodeInode;
    ClearedInode(disk[ino]);
    assert Stored(disk[ino], ZeroInode());
    CachedLive(disk, inodes, t, r);
  }

  lemma ZeroKind()
    ensures ZeroInode().kind == TYPE_INVAL
  {
  }

  method MakeObj(fs: Sfs, kind: int) returns (err: Errno, p: int)
    requires fs.Sound() && kind in {TYPE_FILE, TYPE_DIR}
    modifies fs, fs.freemap
    ensures fs.Sound() && (err == OK || err == ENOSPC)
    ensures err == ENOSPC ==>
      fs.Vol() == old(fs.Vol()) && fs.tab == old(fs.tab) && fs.refs == old(fs.refs) && Full(fs.Vol())
    ensures err == OK ==>
      && p in fs.tab.heap && p !in old(fs.tab.heap) && fs.tab.heap == old(fs.tab.heap)[p := fs.tab.heap[p]]
      && var v := fs.tab.heap[p];
      && v.refcount == 1 && v.opencount == 0 && v.ino !in old(fs.inodes) && v.ino !in old(fs.refs.cache)
      && fs.refs == AddRef(old(fs.refs), p, v.ino) && Made(old(fs.Vol()), fs.Vol(), v.ino, kind)
      && OneTaken(old(fs.Vol()), fs.Vol(), v.ino)
  {
    hide VolOk, Coherent, TableOk, MapStored, Bits, IsSuper, Files, PtrMap, ZeroInode;
    ghost var a := fs.Vol();
    var r := Balloc(fs);
    if r.NoSpace? {
      return ENOSPC, 0;
    }
    var ino := r.index;
    NewInode(a, fs.Vol(), ino);
    CoherentNew(fs.disk, fs.inodes, fs.tab, fs.refs, ino);
    fs.inodes := fs.inodes[ino := ZeroInode()];
    fs.owner := fs.owner[ino := InodeBlock(ino)];
    ZeroKind();
    p := LoadVnode(fs, ino, kind);
    err := OK;
  }

  // ---- sfs_reclaim and vnode_decref ----

  /** From volume a to b, file ino and all its blocks went away; other files are as they were. */
  ghost predicate Erased(a: Vol, b: Vol, ino: int) {
    && |b.disk| == |a.disk| && b.inodes == a.inodes - {ino}
    && Files(b) == Files(a) - {ino} && PtrMap(b) == PtrMap(a) - {ino}
  }

  lemma EraseInode(a: Vol, b: Vol, c: Vol, ino: int)
    requires VolOk(a) && Truncated(a, b, ino, 0) && VolOk(c) && Quiet(b, c)
    requires ino != ROOT_LOCATION && c.inodes[ino].indirect == 0
    ensures 0 <= ino < |c.bits| && c.bits[ino]
    ensures var d := c.(bits := c.bits[ino := false], inodes := c.inodes - {ino}, owner := c.owner - {ino});
            VolOk(d) && Erased(a, d, ino)
  {
    hide VolOk, Files, Cut;
    InodeFacts(c, ino);
    forall i | 0 <= i < NDIRECT
      ensures c.inodes[ino].direct[i] == 0
    {
      DirectIsPtr(b, ino, i);
      assert Ptr(b, ino, i) == 0;
    }
    hide Ptr;
    DropInode(c, c.(bits := c.bits[ino := false], inodes := c.inodes - {ino}, owner := c.owner - {ino}), ino);
    hide PtrMap;
  }

  lemma CoherentDrop(disk: seq<Block>, inodes: map<int, Inode>, t: Table, r: Refs, ix: int, erase: bool)
    requires TableOk(t, r) && Coherent(disk, inodes, t, r) && 0 <= ix < |t.vnodes| && t.vnodes[ix] in t.heap
    requires var v := t.heap[t.vnodes[ix]]; v.refcount == 1 && v.opencount == 0 && !v.dirty
    ensures var p := t.vnodes[ix]; var ino := t.heap[p].ino;
            var u, q := Table(t.heap - {p}, Without(t.vnodes, ix)), DropRef(r, p, ino);
            TableOk(u, q) && Coherent(disk, if erase then inodes - {ino} else inodes, u, q)
  {
    RemoveVnode(t, r, ix);
    var p := t.vnodes[ix];
    var ino := t.heap[p].ino;
    var u, q := Table(t.heap - {p}, Without(t.vnodes, ix)), DropRef(r, p, ino);
    forall x | x in inodes && !IsDirty(x, u, q)
      ensures 0 <= x < |disk| && Stored(disk[x], inodes[x])
    {
      assert !IsDirty(x, t, r);
    }
  }

  /** Drop the vnode from the table; when the file is to be erased, its inode block is freed too. */
  method Forget(fs: Sfs, p: int, erase: bool)
    requires fs.Sound() && p in fs.tab.heap && !fs.tab.heap[p].dirty
    requires fs.tab.heap[p].refcount == 1 && fs.tab.heap[p].opencount == 0
    requires erase ==>
      var ino, v := fs.tab.heap[p].ino, fs.Vol();
      && 0 <= ino < |v.bits| && v.bits[ino]
      && VolOk(v.(bits := v.bits[ino := false], inodes := v.inodes - {ino}, owner := v.owner - {ino}))
    modifies fs, fs.freemap
    ensures fs.Sound()
    ensures var ino, v := old(fs.tab).heap[p].ino, old(fs.Vol());
            && fs.tab.heap == old(fs.tab.heap) - {p} && fs.refs == DropRef(old(fs.refs), p, ino)
            && (erase ==>
              0 <= ino < |v.bits| &&
              fs.Vol() == v.(bits := v.bits[ino := false], inodes := v.inodes - {ino}, owner := v.owner - {ino}))
            && (!erase ==> fs.Vol() == v)
  {
    hide VolOk, Coherent, TableOk, MapStored, Bits, IsSuper;
    var ino := fs.tab.heap[p].ino;
    var ix := FindSlot(fs.tab, fs.refs, p);
    CoherentDrop(fs.disk, fs.inodes, fs.tab, fs.refs, ix, erase);
    fs.refs := DropRef(fs.refs, p, ino);
    fs.tab := Table(fs.tab.heap - {p}, Without(fs.tab.vnodes, ix));
    if erase {
      Bfree(fs, ino);
      fs.inodes, fs.owner := fs.inodes - {ino}, fs.owner - {ino};
    }
  }

  /** The last reference goes.  A file with links stays as it is on disk; one without links is
      erased, its blocks and its inode block freed. */
  method Reclaim(fs: Sfs, p: int)
    requires fs.Sound() && p in fs.tab.heap
    requires fs.tab.heap[p].refcount == 1 && fs.tab.heap[p].opencount == 0
    requires fs.tab.heap[p].inode.links == 0 ==> fs.tab.heap[p].ino != ROOT_LOCATION
    modifies fs, fs.freemap
    ensures fs.Sound()
    ensures var v := old(fs.tab).heap[p];
            && fs.tab.heap == old(fs.tab.heap) - {p} && fs.refs == DropRef(old(fs.refs), p, v.ino)
            && (if v.inode.links == 0 then Erased(old(fs.Vol()), fs.Vol(), v.ino) else Quiet(old(fs.Vol()), fs.Vol()))
  {
    hide Sfs.Sound, VolOk, Truncated, Quiet, Erased;
    ghost var a, t := fs.Vol(), fs.tab;
    SoundVol(fs);
    LoadedInode(fs, p);
    var erase := fs.tab.heap[p].inode.links == 0;
    if erase {
      Truncate(fs, p, 0);
    }
    ghost var b := fs.Vol();
    LoadedInode(fs, p);
    SyncInode(fs, p);
    ghost var c := fs.Vol();
    SoundVol(fs);
    LoadedInode(fs, p);
    if erase {
      EraseInode(a, b, c, fs.tab.heap[p].ino);
    }
    assert fs.tab.heap - {p} == t.heap - {p};
    Forget(fs, p, erase);
  }

  /** One reference to the vnode at p was dropped, from (a, t, r) to (b, t', r'). */
  ghost predicate Released(a: Vol, t: Table, r: Refs, b: Vol, t': Table, r': Refs, p: int) {
    && p in t.heap
    && var v := t.heap[p];
    if v.refcount > 1 then
      b == a && t' == t.(heap := t.heap[p := v.(refcount := v.refcount - 1)]) && r' == r.(held := r.held - multiset{p})
    else
      && t'.heap == t.heap - {p} && r' == DropRef(r, p, v.ino)
      && (if v.inode.links == 0 then Erased(a, b, v.ino) else Quiet(a, b))
  }

  lemma GiveRef(t: Table, r: Refs, p: int)
    requires TableOk(t, r) && p in t.heap && t.heap[p].refcount > 1 && t.heap[p].opencount < t.heap[p].refcount
    ensures var v := t.heap[p].(refcount := t.heap[p].refcount - 1);
            TableOk(t.(heap := t.heap[p := v]), r.(held := r.held - multiset{p}))
  {
    var held := r.held - multiset{p};
    assert held == r.held[p := held[p]];
    SetCounts(t, r, p, t.heap[p].(refcount := t.heap[p].refcount - 1), held, r.opens);
  }

  lemma LastRef(t: Table, r: Refs, p: int)
    requires TableOk(t, r) && p in t.heap && t.heap[p].refcount <= 1 && t.heap[p].opencount < t.heap[p].refcount
    ensures t.heap[p].refcount == 1 && t.heap[p].opencount == 0
  {
  }

  /** vnode_decref: the vnode is reclaimed exactly when the last reference goes. */
  method Decref(fs: Sfs, p: int)
    requires fs.Sound() && p in fs.tab.heap && fs.tab.heap[p].opencount < fs.tab.heap[p].refcount
    requires fs.tab.heap[p].inode.links == 0 ==> fs.tab.heap[p].ino != ROOT_LOCATION
    modifies fs, fs.freemap
    ensures fs.Sound() && Released(old(fs.Vol()), old(fs.tab), old(fs.refs), fs.Vol(), fs.tab, fs.refs, p)
  {
    hide VolOk, Coherent, TableOk, MapStored, Bits, IsSuper, Erased, Quiet;
    var v := fs.tab.heap[p];
    if v.refcount > 1 {
      ghost var r := fs.refs.(held := fs.refs.held - multiset{p});
      var t := fs.tab.(heap := fs.tab.heap[p := v.(refcount := v.refcount - 1)]);
      GiveRef(fs.tab, fs.refs, p);
      CoherentCounts(fs.disk, fs.inodes, fs.tab, fs.refs, t, r, p);
      fs.tab, fs.refs := t, r;
    } else {
      LastRef(fs.tab, fs.refs, p);
      Reclaim(fs, p);
    }
  }
}
