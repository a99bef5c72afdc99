/** Syncing, mounting and unmounting a volume: kern/fs/sfs/sfs_fs.c, with sfs_getroot of
    kern/fs/sfs/sfs_vnode.c. */
module SfsMount {
  import opened Bytes
  import opened Bitmaps
  import opened SfsFormat
  import opened SfsOwnership
  import opened SfsVolume
  import opened VnodeTable
  import opened SfsState
  import opened SfsVnodes
  import opened Directory
  import opened SfsDir
  import opened SfsNames
  import opened SfsOps

  // ---- sfs_mapio ----

  lemma WriteReserved(v: Vol, b: int, x: Block)
    requires VolOk(v) && IsReserved(b, |v.disk|)
    ensures 0 <= b < |v.disk| && b !in v.inodes
    ensures VolOk(v.(disk := v.disk[b := x])) && Quiet(v, v.(disk := v.disk[b := x]))
  {
    hide Files, PtrMap, BitBlocks;
    assert Is(v, v);
    assert v.inodes.Keys == IndMap(v).Keys;
    WriteElsewhere(v, b, x);
  }

  lemma QuietTwice(a: Vol, b: Vol, c: Vol)
    requires Quiet(a, b) && Quiet(b, c)
    ensures Quiet(a, c)
  {
    hide Files, PtrMap;
  }

  lemma MapRoom(v: Vol)
    requires VolOk(v)
    ensures MAP_LOCATION + BitBlocks(|v.disk|) <= |v.disk|
    ensures BLOCKSIZE * BitBlocks(|v.disk|) * 8 == BitmapSize(|v.disk|)
  {
    assert Is(v, v);
  }

  function Sector(v: seq<Byte>, j: int): (x: Block)
    requires 0 <= j && BLOCKSIZE * j + BLOCKSIZE <= |v|
    ensures x == MapBlock(v, j)
  {
    v[BLOCKSIZE * j..BLOCKSIZE * j + BLOCKSIZE]
  }

  /** sfs_mapio for writing, called while the map is dirty. */
  method WriteMap(fs: Sfs)
    requires fs.Sound() && fs.freemapDirty
    modifies fs`disk
    ensures fs.Sound() && fs.freemapDirty && Quiet(old(fs.Vol()), fs.Vol())
    ensures MapStored(fs.disk, fs.freemap.v)
  {
    hide VolOk, Coherent, TableOk, Bits, Quiet, BitBlocks, MapBlock, IsSuper;
    var mapsize := BitBlocks(|fs.disk|);
    MapRoom(fs.Vol());
    QuietSelf(fs.Vol());
    for j := 0 to mapsize
      invariant fs.Sound() && fs.freemapDirty && Quiet(old(fs.Vol()), fs.Vol()) && |fs.disk| == old(|fs.disk|)
      invariant forall b :: MAP_LOCATION <= b < MAP_LOCATION + j ==>
        fs.disk[b] == MapBlock(fs.freemap.v, b - MAP_LOCATION)
    {
      var x := Sector(fs.freemap.v, j);
      WriteReserved(fs.Vol(), MAP_LOCATION + j, x);
      CoherentWrite(fs.disk, fs.inodes, fs.tab, fs.refs, MAP_LOCATION + j, x);
      QuietTwice(old(fs.Vol()), fs.Vol(), fs.Vol().(disk := fs.disk[MAP_LOCATION + j := x]));
      fs.disk := fs.disk[MAP_LOCATION + j := x];
    }
  }

  // ---- sfs_sync ----

  /** Table u is t with some dirty marks cleared. */
  ghost predicate Cleaner(t: Table, u: Table) {
    && u.vnodes == t.vnodes && u.heap.Keys == t.heap.Keys
    && forall p :: p in t.heap ==> u.heap[p] == t.heap[p].(dirty := u.heap[p].dirty)
  }

  ghost predicate Synced(fs: Sfs)
    reads fs
  {
    !fs.freemapDirty && forall p :: p in fs.tab.heap ==> !fs.tab.heap[p].dirty
  }

  lemma AllListed(fs: Sfs)
    requires fs.Sound()
    ensures forall p :: p in fs.tab.vnodes <==> p in fs.tab.heap
  {
    forall p
      ensures p in fs.tab.vnodes <==> p in fs.tab.heap
    {
      Listed(fs.tab, fs.refs, p);
    }
  }

  /** The loop of sfs_sync over the loaded vnodes. */
  method SyncVnodes(fs: Sfs)
    requires fs.Sound()
    modifies fs`disk, fs`tab
    ensures fs.Sound() && Quiet(old(fs.Vol()), fs.Vol()) && Cleaner(old(fs.tab), fs.tab)
    ensures forall p :: p in fs.tab.heap ==> !fs.tab.heap[p].dirty
  {
    hide Sfs.Sound, Quiet;
    QuietSelf(fs.Vol());
    var num := |fs.tab.vnodes|;
    for i := 0 to num
      invariant fs.Sound() && Quiet(old(fs.Vol()), fs.Vol()) && Cleaner(old(fs.tab), fs.tab)
      invariant forall j :: 0 <= j < i ==> fs.tab.vnodes[j] in fs.tab.heap && !fs.tab.heap[fs.tab.vnodes[j]].dirty
    {
      AllListed(fs);
      ghost var b := fs.Vol();
      SyncInode(fs, fs.tab.vnodes[i]);
      QuietTwice(old(fs.Vol()), b, fs.Vol());
    }
    AllListed(fs);
  }

  lemma QuietOnlyDisk(a: Vol, b: Vol)
    requires Quiet(a, b)
    ensures b == a.(disk := b.disk)
  {
  }

  /** sfs_sync: nothing a user can see changes, and afterwards the disk is up to date. */
  method Sync(fs: Sfs)
    requires Valid(fs)
    modifies fs`disk, fs`tab, fs`freemapDirty
    ensures Valid(fs) && Synced(fs) && Sight(fs) == old(Sight(fs))
    ensures fs.refs == old(fs.refs) && Cleaner(old(fs.tab), fs.tab) && fs.Vol() == old(fs.Vol()).(disk := fs.disk)
  {
    hide VolOk, Coherent, TableOk, Bits, Quiet, NamesOk, MapStored, IsSuper, ViewOf;
    ghost var a, loaded := fs.Vol(), fs.refs.cache.Keys;
    SyncVnodes(fs);
    if fs.freemapDirty {
      ghost var b := fs.Vol();
      WriteMap(fs);
      QuietTwice(a, b, fs.Vol());
      fs.freemapDirty := false;
    }
    QuietNames(a, fs.Vol(), loaded, loaded);
    QuietOnlyDisk(a, fs.Vol());
  }

  // ---- what the disk alone says ----

  /** The bytes in the bitmap's blocks. */
  ghost function MapBytes(disk: seq<Block>): (v: seq<Byte>)
    requires MAP_LOCATION + BitBlocks(|disk|) <= |disk|
    ensures |v| == BLOCKSIZE * BitBlocks(|disk|)
  {
    seq(BLOCKSIZE * BitBlocks(|disk|),
      k requires 0 <= k < BLOCKSIZE * BitBlocks(|disk|) => disk[MAP_LOCATION + k / BLOCKSIZE][k % BLOCKSIZE])
  }

  /** Where the mark of block b is on disk: the map starts at block 2, with 4096 marks to a block and
      eight to a byte. */
  lemma MarkOnDisk(disk: seq<Block>, b: nat)
    requires MAP_LOCATION + BitBlocks(|disk|) <= |disk| && b < |disk|
    ensures b < |Bits(MapBytes(disk))| && 2 + b / 4096 < |disk|
    ensures Bits(MapBytes(disk))[b] <==> Bit(disk[2 + b / 4096][b % 4096 / 8], b % 8)
  {
    hide Bit;
    assert b / 8 / 512 == b / 4096 && b / 8 % 512 == b % 4096 / 8;
  }

  /** The blocks of v hold all of it: superblock, free map and every live inode.  Files with no
      name are in `loaded`. */
  ghost predicate DiskHolds(v: Vol, loaded: set<int>) {
    && VolOk(v) && NamesOk(v, loaded)
    && |v.disk| > 0 && IsSuper(v.disk[SUPER_LOCATION], |v.disk|)
    && MAP_LOCATION + BitBlocks(|v.disk|) <= |v.disk| && v.bits == Bits(MapBytes(v.disk))
    && forall ino :: ino in v.inodes ==> 0 <= ino < |v.disk| && Stored(v.disk[ino], v.inodes[ino])
  }

  lemma MapRead(disk: seq<Block>, v: seq<Byte>)
    requires MapStored(disk, v) && |v| == BLOCKSIZE * BitBlocks(|disk|)
    ensures MapBytes(disk) == v
  {
    hide BitBlocks;
    forall k | 0 <= k < |v|
      ensures MapBytes(disk)[k] == v[k]
    {
      var j := k / BLOCKSIZE;
      assert disk[MAP_LOCATION + j] == MapBlock(v, j);
    }
  }

  lemma CleanTable(t: Table, r: Refs, ino: int)
    requires forall p :: p in t.heap ==> !t.heap[p].dirty
    ensures !IsDirty(ino, t, r)
  {
    if ino in r.cache {
      var p := r.cache[ino];
      assert p in t.heap ==> !t.heap[p].dirty;
    }
  }

  lemma SyncedDisk(fs: Sfs)
    requires Valid(fs) && Synced(fs)
    ensures DiskHolds(fs.Vol(), fs.refs.cache.Keys)
  {
    hide VolOk, TableOk, Bits, NamesOk, IsSuper, Stored;
    MapRoom(fs.Vol());
    MapRead(fs.disk, fs.freemap.v);
    forall ino | ino in fs.inodes
      ensures 0 <= ino < |fs.disk| && Stored(fs.disk[ino], fs.inodes[ino])
    {
      CleanTable(fs.tab, fs.refs, ino);
    }
  }

  lemma SameInode(v: Vol, w: Vol, ino: int)
    requires v.disk == w.disk && ino in v.inodes && ino in w.inodes && 0 <= ino < |v.disk|
    requires Stored(v.disk[ino], v.inodes[ino]) && Stored(w.disk[ino], w.inodes[ino])
    ensures v.inodes[ino] == w.inodes[ino] && Files(v)[ino] == Files(w)[ino] && PtrMap(v)[ino] == PtrMap(w)[ino]
  {
    assert Copy(v.disk[ino], v.disk[ino]);
  }

  lemma NamedLive(v: Vol, loaded: set<int>, n: Name)
    requires NamesOk(v, loaded) && n in ViewOf(v).names
    ensures ViewOf(v).names[n] in v.inodes && ViewOf(v).names[n] != ROOT
  {
    hide Files, LinkCount, Names, DirSlots;
    var k := SlotOf(DirSlots(v), n);
  }

  lemma AllNamed(v: Vol, w: Vol)
    requires NamesOk(v, {}) && NamesOk(w, {}) && DirSlots(v) == DirSlots(w)
    ensures v.inodes.Keys <= w.inodes.Keys
  {
    hide Files, LinkCount, Names, DirSlots;
    forall ino | ino in v.inodes && ino != ROOT
      ensures ino in w.inodes
    {
      var k := LinkedBy(DirSlots(v), ino);
    }
  }

  /** A disk decides the free map, the names and the contents of every named file; when every
      live file has a name it decides everything. */
  lemma DiskDecides(v: Vol, w: Vol, lv: set<int>, lw: set<int>)
    requires DiskHolds(v, lv) && DiskHolds(w, lw) && v.disk == w.disk
    ensures v.bits == w.bits && ViewOf(v).names == ViewOf(w).names
    ensures forall n :: n in ViewOf(v).names ==>
      var ino := ViewOf(v).names[n];
      ino in ViewOf(v).files && ino in ViewOf(w).files && ViewOf(v).files[ino] == ViewOf(w).files[ino]
    ensures lv == lw == {} ==> v.inodes == w.inodes && ViewOf(v) == ViewOf(w)
  {
    hide VolOk, Bits, IsSuper, Stored, Files, PtrMap, Names, LinkCount, Content, BitBlocks, MapBytes;
    SameInode(v, w, ROOT);
    DirUnmoved(v, w);
    forall n | n in ViewOf(v).names
      ensures var ino := ViewOf(v).names[n];
              ino in ViewOf(v).files && ino in ViewOf(w).files && ViewOf(v).files[ino] == ViewOf(w).files[ino]
    {
      NamedLive(v, lv, n);
      NamedLive(w, lw, n);
      SameInode(v, w, ViewOf(v).names[n]);
    }
    if lv == lw == {} {
      AllNamed(v, w);
      AllNamed(w, v);
      forall ino | ino in v.inodes
        ensures v.inodes[ino] == w.inodes[ino] && Files(v)[ino] == Files(w)[ino]
      {
        SameInode(v, w, ino);
      }
    }
  }

  // ---- sfs_domount, sfs_getroot, sfs_unmount ----

  /** sfs_mapio for reading. */
  method ReadMap(dev: seq<Block>) returns (v: seq<Byte>)
    requires MAP_LOCATION + BitBlocks(|dev|) <= |dev|
    ensures v == MapBytes(dev)
  {
    hide BitBlocks;
    var mapsize := BitBlocks(|dev|);
    v := Zeros(BLOCKSIZE * mapsize);
    for j := 0 to mapsize
      invariant |v| == BLOCKSIZE * mapsize
      invariant forall k :: 0 <= k < BLOCKSIZE * j ==> v[k] == MapBytes(dev)[k]
    {
      v := v[..BLOCKSIZE * j] + dev[MAP_LOCATION + j] + v[BLOCKSIZE * j + BLOCKSIZE..];
      forall k | BLOCKSIZE * j <= k < BLOCKSIZE * j + BLOCKSIZE
        ensures v[k] == MapBytes(dev)[k]
      {
        assert k / BLOCKSIZE == j && k % BLOCKSIZE == k - BLOCKSIZE * j;
      }
    }
  }

  lemma NothingLoaded(v: Vol)
    requires forall ino :: ino in v.inodes ==> 0 <= ino < |v.disk| && Stored(v.disk[ino], v.inodes[ino])
    ensures var t, r := Table(map[], []), Refs(map[], multiset{}, multiset{});
            TableOk(t, r) && Coherent(v.disk, v.inodes, t, r)
  {
    assert multiset(Table(map[], []).vnodes) == multiset{};
  }

  lemma MapLoaded(dev: seq<Block>)
    requires MAP_LOCATION + BitBlocks(|dev|) <= |dev|
    ensures MapStored(dev, MapBytes(dev))
  {
    hide BitBlocks;
    forall b | MAP_LOCATION <= b < MAP_LOCATION + BitBlocks(|dev|)
      ensures dev[b] == MapBlock(MapBytes(dev), b - MAP_LOCATION)
    {
      var j := b - MAP_LOCATION;
      var x := MapBlock(MapBytes(dev), j);
      forall k | 0 <= k < BLOCKSIZE
        ensures x[k] == dev[b][k]
      {
        var i := BLOCKSIZE * j + k;
        assert i / BLOCKSIZE == j && i % BLOCKSIZE == k;
        assert x[k] == MapBytes(dev)[i];
      }
    }
  }

  /** sfs_domount of a device that holds volume v if it has the magic number. */
  method DoMount(dev: seq<Block>, ghost v: Vol) returns (err: Errno, fs: Sfs?)
    requires |dev| > 0
    requires WordAt(dev[SUPER_LOCATION], 0) == MAGIC ==> DiskHolds(v, {}) && v.disk == dev
    ensures err == if WordAt(dev[SUPER_LOCATION], 0) == MAGIC then OK else EINVAL
    ensures err == OK ==>
      && fs != null && fresh(fs) && fresh(fs.freemap) && Valid(fs) && fs.Vol() == v
      && fs.tab == Table(map[], []) && fs.refs == Refs(map[], multiset{}, multiset{}) && Synced(fs)
  {
    hide VolOk, NamesOk, Bits, Stored, MapBytes;
    if WordAt(dev[SUPER_LOCATION], 0) != MAGIC {
      return EINVAL, null;
    }
    MapRoom(v);
    var nblocks := WordAt(dev[SUPER_LOCATION], 4);
    assert nblocks == |dev|;
    var freemap := new Bitmap(BitmapSize(nblocks));
    var bytes := ReadMap(dev);
    freemap.v := bytes;
    fs := new Sfs(dev, freemap);
    fs.inodes, fs.owner := v.inodes, v.owner;
    MapLoaded(dev);
    NothingLoaded(v);
    assert freemap.Valid() && freemap.nbits == BitmapSize(|dev|) == 8 * |freemap.v|;
    hide MapStored, BitBlocks, TableOk, Coherent, IsSuper;
    assert fs.MapOk() && fs.Vol() == v && fs.refs.cache.Keys == {};
    err := OK;
  }

  /** sfs_getroot */
  method GetRoot(fs: Sfs) returns (p: int)
    requires Valid(fs)
    modifies fs`tab, fs`refs, fs`inodes
    ensures Valid(fs) && IsDir(fs, p) && fs.Vol() == old(fs.Vol()) &&
      Took(old(fs.tab), old(fs.refs), fs.tab, fs.refs, p)
  {
    hide Sfs.Sound, NamesOk, DirSlots, Files, PtrMap;
    SightFacts(fs);
    Counts(fs);
    ghost var a, r := fs.Vol(), fs.refs;
    p := LoadVnode(fs, ROOT, TYPE_INVAL);
    MoreLoaded(a, r.cache.Keys, fs.refs.cache.Keys);
  }

  lemma NobodyHolds(t: Table, r: Refs)
    requires TableOk(t, r)
    ensures |t.vnodes| == 0 <==> r.held == multiset{}
    ensures |t.vnodes| == 0 ==> r.cache.Keys == {}
  {
    if |t.vnodes| > 0 {
      Listed(t, r, t.vnodes[0]);
      assert r.held[t.vnodes[0]] > 0;
    } else {
      forall p
        ensures p !in t.heap && p !in r.held
      {
        Listed(t, r, p);
      }
      assert r.held == multiset{};
      forall ino | ino in r.cache
        ensures r.cache[ino] in t.heap
      {
      }
    }
  }

  /** sfs_unmount, called right after a sync: refused exactly while some vnode is held. */
  method Unmount(fs: Sfs) returns (err: Errno)
    requires Valid(fs) && Synced(fs)
    ensures err == if fs.refs.held == multiset{} then OK else EBUSY
    ensures err == OK ==> DiskHolds(fs.Vol(), {})
  {
    hide NamesOk, VolOk, Coherent, Bits, IsSuper;
    NobodyHolds(fs.tab, fs.refs);
    if |fs.tab.vnodes| > 0 {
      return EBUSY;
    }
    assert !fs.freemapDirty;
    SyncedDisk(fs);
    err := OK;
  }
}
