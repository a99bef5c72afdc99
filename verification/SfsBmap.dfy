/** Block mapping: sfs_bmap of kern/fs/sfs/sfs_vnode.c. */
module SfsBmap {
  import opened Bytes
  import opened Bitmaps
  import opened SfsFormat
  import opened SfsOwnership
  import opened SfsVolume
  import opened VnodeTable
  import opened SfsState

  // ---- what block mapping may change ----

  ghost predicate SameMeta(i: Inode, j: Inode) {
    i.size == j.size && i.kind == j.kind && i.links == j.links
  }

  /** From volume a to b, file ino gained blocks and nothing else changed: no byte of any file,
      no other inode, no block it already had. */
  ghost predicate Grew(a: Vol, b: Vol, ino: int) {
    && |b.disk| == |a.disk| && ino in a.inodes && ino in b.inodes
    && b.inodes == a.inodes[ino := b.inodes[ino]] && PtrMap(b) == PtrMap(a)[ino := PtrMap(b)[ino]]
    && SameMeta(a.inodes[ino], b.inodes[ino])
    && Files(b) == Files(a)
    && (forall i :: Ptr(a, ino, i) != 0 ==> Ptr(b, ino, i) == Ptr(a, ino, i))
  }

  lemma GrewSelf(a: Vol, ino: int)
    requires ino in a.inodes
    ensures Grew(a, a, ino)
  {
  }

  lemma GrewTwice(a: Vol, b: Vol, c: Vol, ino: int)
    requires Grew(a, b, ino) && Grew(b, c, ino)
    ensures Grew(a, c, ino)
  {
    hide Files, Ptr, PtrMap;
  }

  /** The table with the inode of the vnode at p replaced and the vnode marked dirty. */
  function Dirtied(t: Table, p: int, inode: Inode): Table
    requires p in t.heap
  {
    t.(heap := t.heap[p := t.heap[p].(inode := inode, dirty := true)])
  }

  /** From table t to u, only inodes and dirty marks changed, and only at p. */
  ghost predicate OnlyInode(t: Table, u: Table, p: int) {
    && p in t.heap && p in u.heap && u.vnodes == t.vnodes
    && u.heap == t.heap[p := u.heap[p]]
    && u.heap[p] == t.heap[p].(inode := u.heap[p].inode, dirty := u.heap[p].dirty)
  }

  lemma DirtyInode(disk: seq<Block>, inodes: map<int, Inode>, t: Table, r: Refs, p: int, inode: Inode)
    requires TableOk(t, r) && Coherent(disk, inodes, t, r) && p in t.heap
    ensures TableOk(Dirtied(t, p, inode), r)
    ensures Coherent(disk, inodes[t.heap[p].ino := inode], Dirtied(t, p, inode), r)
  {
    SetVnode(t, r, p, t.heap[p].(inode := inode, dirty := true));
  }

  lemma LoadedInode(fs: Sfs, p: int)
    requires fs.Sound() && p in fs.tab.heap
    ensures var v := fs.tab.heap[p];
            v.ino in fs.inodes && fs.inodes[v.ino] == v.inode && InodeOk(v.inode, |fs.disk|) && 0 < v.ino < |fs.disk|
  {
    InodeFacts(fs.Vol(), fs.tab.heap[p].ino);
  }

  /** Store an inode in its vnode and mark the vnode dirty; the ghost roles follow. */
  method PutInode(fs: Sfs, p: int, inode: Inode, ghost owner: map<int, Role>)
    requires fs.MapOk() && TableOk(fs.tab, fs.refs) && Coherent(fs.disk, fs.inodes, fs.tab, fs.refs)
    requires p in fs.tab.heap
    requires VolOk(fs.Vol().(inodes := fs.inodes[fs.tab.heap[p].ino := inode], owner := owner))
    modifies fs`tab, fs`inodes, fs`owner
    ensures fs.Sound() && fs.tab == Dirtied(old(fs.tab), p, inode)
    ensures fs.Vol() == old(fs.Vol().(inodes := fs.inodes[fs.tab.heap[p].ino := inode], owner := owner))
  {
    hide VolOk, Coherent, TableOk, MapStored, Bits, IsSuper;
    DirtyInode(fs.disk, fs.inodes, fs.tab, fs.refs, p, inode);
    fs.inodes := fs.inodes[fs.tab.heap[p].ino := inode];
    fs.owner := owner;
    fs.tab := Dirtied(fs.tab, p, inode);
  }

  /** sfs_wblock on a block that is no inode's; the ghost roles follow. */
  method WriteBlock(fs: Sfs, b: int, x: Block, ghost owner: map<int, Role>)
    requires fs.MapOk() && TableOk(fs.tab, fs.refs) && Coherent(fs.disk, fs.inodes, fs.tab, fs.refs)
    requires 0 <= b < |fs.disk| && b !in fs.inodes && !IsReserved(b, |fs.disk|)
    requires VolOk(fs.Vol().(disk := fs.disk[b := x], owner := owner))
    modifies fs`disk, fs`owner
    ensures fs.Sound() && fs.Vol() == old(fs.Vol().(disk := fs.disk[b := x], owner := owner))
  {
    hide VolOk, Coherent, TableOk, MapStored, Bits, IsSuper;
    CoherentWrite(fs.disk, fs.inodes, fs.tab, fs.refs, b, x);
    if !fs.freemapDirty {
      MapStoredWrite(fs.disk, fs.freemap.v, b, x);
    }
    fs.disk := fs.disk[b := x];
    fs.owner := owner;
  }

  // ---- direct blocks ----

  lemma GrewPtr(a: Vol, b: Vol, ino: int, i: int, x: int)
    requires ino in a.inodes && 0 <= i < |PtrMap(a)[ino]| && Ptr(a, ino, i) == 0
    requires PtrMap(b) == PtrMap(a)[ino := PtrMap(a)[ino][i := x]]
    ensures Ptr(b, ino, i) == x
    ensures forall j :: Ptr(a, ino, j) != 0 ==> Ptr(b, ino, j) == Ptr(a, ino, j)
  {
  }

  /** balloc followed by storing the block number in a direct slot. */
  lemma GrowDirect(a: Vol, m: Vol, b: Vol, ino: int, i: int, block: int)
    requires VolOk(a) && Claimed(a, m, block) && ino in a.inodes
    requires 0 <= i < NDIRECT == |a.inodes[ino].direct| && a.inodes[ino].direct[i] == 0
    requires b == m.(inodes := m.inodes[ino := WithDirect(m.inodes[ino], i, block)],
                     owner := m.owner[block := DataBlock(ino, i)])
    ensures VolOk(b) && Grew(a, b, ino) && block == Ptr(b, ino, i) != 0
  {
    var z := a.(disk := m.disk);
    assert PtrMap(a)[ino][i] == 0;
    LinkDirect(z, b, ino, i, block);
    GrewPtr(z, b, ino, i, block);
    assert block != 0 by { assert Is(a, a); }
  }

  method AllocDirect(fs: Sfs, p: int, i: int) returns (err: Errno, block: int)
    requires fs.Sound() && p in fs.tab.heap
    requires 0 <= i < NDIRECT == |fs.tab.heap[p].inode.direct| && fs.tab.heap[p].inode.direct[i] == 0
    modifies fs, fs.freemap
    ensures fs.Sound() && fs.refs == old(fs.refs) && OnlyInode(old(fs.tab), fs.tab, p)
    ensures err == OK || err == ENOSPC
    ensures err == ENOSPC ==> fs.Vol() == old(fs.Vol()) && fs.tab == old(fs.tab) && Full(fs.Vol())
    ensures err == OK ==>
      var ino := fs.tab.heap[p].ino;
      Grew(old(fs.Vol()), fs.Vol(), ino) && block == Ptr(fs.Vol(), ino, i) != 0
  {
    hide VolOk, Coherent, TableOk, MapStored, Grew, Bits, IsSuper, Bitmap.Valid, BitmapSize, Ptr, PtrMap, Files;
    LoadedInode(fs, p);
    ghost var a := fs.Vol();
    var v := fs.tab.heap[p];
    var r := Balloc(fs);
    if r.NoSpace? {
      return ENOSPC, 0;
    }
    block := r.index;
    ghost var m := fs.Vol();
    ghost var owner := fs.owner[block := DataBlock(v.ino, i)];
    GrowDirect(a, m, m.(inodes := m.inodes[v.ino := WithDirect(v.inode, i, block)], owner := owner), v.ino, i, block);
    PutInode(fs, p, v.inode.(direct := v.inode.direct[i := block]), owner);
    err := OK;
  }

  // ---- the indirect block and its entries ----

  lemma GrowIndirect(a: Vol, m: Vol, b: Vol, ino: int, block: int)
    requires VolOk(a) && Claimed(a, m, block) && ino in a.inodes && a.inodes[ino].indirect == 0
    requires b == m.(inodes := m.inodes[ino := m.inodes[ino].(indirect := block)],
                     owner := m.owner[block := IndirectBlock(ino)])
    ensures VolOk(b) && Grew(a, b, ino) && 0 < block < |b.disk| && b.disk[block] == ZeroBlock()
  {
    var z := a.(disk := m.disk);
    LinkIndirectBlock(z, b, ino, block);
    assert block != 0 by { assert Is(a, a); }
  }

  method AllocIndirect(fs: Sfs, p: int) returns (err: Errno, block: int)
    requires fs.Sound() && p in fs.tab.heap && fs.tab.heap[p].inode.indirect == 0
    modifies fs, fs.freemap
    ensures fs.Sound() && fs.refs == old(fs.refs) && OnlyInode(old(fs.tab), fs.tab, p)
    ensures err == OK || err == ENOSPC
    ensures err == ENOSPC ==> fs.Vol() == old(fs.Vol()) && fs.tab == old(fs.tab) && Full(fs.Vol())
    ensures err == OK ==>
      && Grew(old(fs.Vol()), fs.Vol(), fs.tab.heap[p].ino) && OneTaken(old(fs.Vol()), fs.Vol(), block)
      && 0 < block == fs.tab.heap[p].inode.indirect < |fs.disk| && fs.disk[block] == ZeroBlock()
  {
    hide VolOk, Coherent, TableOk, MapStored, Grew, Bits, IsSuper, Bitmap.Valid, BitmapSize, Ptr, PtrMap, Files;
    LoadedInode(fs, p);
    ghost var a := fs.Vol();
    var v := fs.tab.heap[p];
    var r := Balloc(fs);
    if r.NoSpace? {
      return ENOSPC, 0;
    }
    block := r.index;
    ghost var m := fs.Vol();
    ghost var owner := fs.owner[block := IndirectBlock(v.ino)];
    GrowIndirect(a, m, m.(inodes := m.inodes[v.ino := v.inode.(indirect := block)], owner := owner), v.ino, block);
    PutInode(fs, p, v.inode.(indirect := block), owner);
    err := OK;
  }

  /** The block number in entry j of the file's indirect block. */
  lemma EntryIsPtr(v: Vol, ino: int, j: int)
    requires VolOk(v) && ino in v.inodes && 0 < v.inodes[ino].indirect < |v.disk| && 0 <= j < DBPERIDB
    ensures Ptr(v, ino, NDIRECT + j) == DecodeIndirect(v.disk[v.inodes[ino].indirect])[j]
    ensures |v.inodes[ino].direct| == NDIRECT
  {
    InodeFacts(v, ino);
  }

  /** An indirect block is no free block, no inode and not reserved. */
  lemma IndirectApart(a: Vol, ino: int, block: int)
    requires VolOk(a) && ino in a.inodes && a.inodes[ino].indirect != 0
    requires 0 <= block < |a.disk| && !a.bits[block]
    ensures var id := a.inodes[ino].indirect;
            id != block && block != 0 && id !in a.inodes && !IsReserved(id, |a.disk|)
  {
    OnlyIndirect(a, ino);
    assert Is(a, a);
    assert a.inodes.Keys == IndMap(a).Keys;
  }

  lemma PtrCount(v: Vol, ino: int)
    requires VolOk(v) && ino in v.inodes
    ensures |PtrMap(v)[ino]| == NFILEBLOCKS
  {
    InodeFacts(v, ino);
  }

  lemma GrowEntry(a: Vol, m: Vol, b: Vol, ino: int, j: int, block: int)
    requires VolOk(a) && Claimed(a, m, block) && ino in a.inodes
    requires 0 < a.inodes[ino].indirect < |a.disk| && 0 <= j < DBPERIDB && IsU32(block)
    requires Ptr(a, ino, NDIRECT + j) == 0
    requires var id := a.inodes[ino].indirect;
             b == m.(disk := m.disk[id := PutEntry(a.disk[id], j, block)],
                     owner := m.owner[block := DataBlock(ino, NDIRECT + j)])
    ensures VolOk(b) && Grew(a, b, ino) && block == Ptr(b, ino, NDIRECT + j) != 0
  {
    hide VolOk, PutEntry, Files, Ptr, PtrMap;
    var z := a.(disk := m.disk);
    InodeFacts(a, ino);
    IndirectApart(a, ino, block);
    PtrCount(a, ino);
    SamePtr(a, z, ino);
    LinkEntry(z, b, ino, j, block);
    GrewPtr(z, b, ino, NDIRECT + j, block);
  }

  lemma SmallBlock(v: Vol, b: int)
    requires VolOk(v) && 0 <= b < |v.disk|
    ensures IsU32(b)
  {
    assert Is(v, v);
  }

  lemma PutEntryIs(x: Block, ids: seq<int>, j: int, b: int)
    requires ids == DecodeIndirect(x) && 0 <= j < DBPERIDB && IsU32(b)
    ensures PutEntry(x, j, b) == EncodeIndirect(ids[j := b])
  {
  }

  method AllocEntry(fs: Sfs, p: int, idbuf: seq<int>, j: int) returns (err: Errno, block: int)
    requires fs.Sound() && p in fs.tab.heap && 0 <= j < DBPERIDB
    requires 0 < fs.tab.heap[p].inode.indirect < |fs.disk|
    requires idbuf == DecodeIndirect(fs.disk[fs.tab.heap[p].inode.indirect]) && idbuf[j] == 0
    modifies fs, fs.freemap
    ensures fs.Sound() && fs.refs == old(fs.refs) && fs.tab == old(fs.tab)
    ensures err == OK || err == ENOSPC
    ensures err == ENOSPC ==> fs.Vol() == old(fs.Vol()) && Full(fs.Vol())
    ensures err == OK ==>
      var ino := fs.tab.heap[p].ino;
      Grew(old(fs.Vol()), fs.Vol(), ino) && block == Ptr(fs.Vol(), ino, NDIRECT + j) != 0
  {
    hide VolOk, Coherent, TableOk, MapStored, Grew, Bits, IsSuper, Bitmap.Valid, BitmapSize, PutEntry, Ptr, PtrMap,
      Files, EncodeIndirect, DecodeIndirect;
    LoadedInode(fs, p);
    ghost var a := fs.Vol();
    var v := fs.tab.heap[p];
    EntryIsPtr(a, v.ino, j);
    var r := Balloc(fs);
    if r.NoSpace? {
      return ENOSPC, 0;
    }
    block := r.index;
    ghost var m := fs.Vol();
    SmallBlock(a, block);
    var x := EncodeIndirect(idbuf[j := block]);
    PutEntryIs(a.disk[v.inode.indirect], idbuf, j, block);
    ghost var owner := fs.owner[block := DataBlock(v.ino, NDIRECT + j)];
    GrowEntry(a, m, m.(disk := m.disk[v.inode.indirect := x], owner := owner), v.ino, j, block);
    IndirectApart(a, v.ino, block);
    WriteBlock(fs, v.inode.indirect, x, owner);
    err := OK;
  }

  // ---- sfs_bmap ----

  /** sfs_bused */
  method Bused(fs: Sfs, block: int) returns (used: bool)
    requires fs.Sound() && 0 <= block < |fs.disk|
    ensures used == fs.Vol().bits[block]
  {
    hide VolOk, Coherent, TableOk, MapStored, Bits, IsSuper;
    used := fs.freemap.IsSet(block);
  }

  lemma MappedBlockUsed(v: Vol, ino: int, i: int)
    requires VolOk(v) && Ptr(v, ino, i) != 0
    ensures 0 < Ptr(v, ino, i) < |v.disk| <= |v.bits| && v.bits[Ptr(v, ino, i)]
    ensures var b := Ptr(v, ino, i); b in v.owner && v.owner[b] == DataBlock(ino, i)
  {
    assert Is(v, v);
  }

  /** The consistency test at each exit of sfs_bmap: a mapped block is never marked free. */
  method CheckMapped(fs: Sfs, ghost ino: int, ghost i: int, block: int)
    requires fs.Sound() && block == Ptr(fs.Vol(), ino, i)
  {
    if block != 0 {
      MappedBlockUsed(fs.Vol(), ino, i);
      var used := Bused(fs, block);
      assert used;
    }
  }

  lemma DirectIsPtr(v: Vol, ino: int, i: int)
    requires ino in v.inodes && 0 <= i < |v.inodes[ino].direct|
    ensures Ptr(v, ino, i) == v.inodes[ino].direct[i]
  {
  }

  method BmapDirect(fs: Sfs, p: int, fileblock: int, doalloc: bool) returns (err: Errno, block: int)
    requires fs.Sound() && p in fs.tab.heap && 0 <= fileblock < NDIRECT
    modifies fs, fs.freemap
    ensures fs.Sound() && fs.refs == old(fs.refs) && OnlyInode(old(fs.tab), fs.tab, p)
    ensures Grew(old(fs.Vol()), fs.Vol(), fs.tab.heap[p].ino)
    ensures err == OK ==> block == Ptr(fs.Vol(), fs.tab.heap[p].ino, fileblock)
    ensures err == OK && doalloc ==> block != 0
    ensures err == ENOSPC ==> doalloc && Full(fs.Vol()) && Ptr(old(fs.Vol()), fs.tab.heap[p].ino, fileblock) == 0
    ensures err == ENOSPC ==> Scarce(old(fs.Vol()), 1)
    ensures err == OK || err == ENOSPC
    ensures !doalloc ==> fs.Vol() == old(fs.Vol()) && fs.tab == old(fs.tab)
  {
    hide Sfs.Sound, Grew;
    LoadedInode(fs, p);
    var v := fs.tab.heap[p];
    GrewSelf(fs.Vol(), v.ino);
    DirectIsPtr(fs.Vol(), v.ino, fileblock);
    block := v.inode.direct[fileblock];
    err := OK;
    if block == 0 && doalloc {
      err, block := AllocDirect(fs, p, fileblock);
    }
  }

  lemma NoIndirect(v: Vol, ino: int, j: int)
    requires ino in v.inodes && v.inodes[ino].indirect == 0 && |v.inodes[ino].direct| == NDIRECT && 0 <= j < DBPERIDB
    ensures Ptr(v, ino, NDIRECT + j) == 0
  {
  }

  lemma ZeroIds(x: Block, ids: seq<int>)
    requires x == ZeroBlock() && ids == seq(DBPERIDB, _ => 0)
    ensures DecodeIndirect(x) == ids
  {
    ZeroWords(x, DBPERIDB);
  }

  lemma IndexEntry(fs: Sfs, p: int, j: int)
    requires fs.Sound() && p in fs.tab.heap && 0 <= j < DBPERIDB
    requires 0 < fs.tab.heap[p].inode.indirect < |fs.disk|
    ensures Ptr(fs.Vol(), fs.tab.heap[p].ino, NDIRECT + j) == DecodeIndirect(fs.disk[fs.tab.heap[p].inode.indirect])[j]
  {
    LoadedInode(fs, p);
    EntryIsPtr(fs.Vol(), fs.tab.heap[p].ino, j);
  }

  lemma GrewHole(a: Vol, b: Vol, ino: int, i: int)
    requires Grew(a, b, ino) && Ptr(b, ino, i) == 0
    ensures Ptr(a, ino, i) == 0
  {
  }

  method BmapIndirect(fs: Sfs, p: int, idoff: int, doalloc: bool) returns (err: Errno, block: int)
    requires fs.Sound() && p in fs.tab.heap && 0 <= idoff < DBPERIDB
    modifies fs, fs.freemap
    ensures fs.Sound() && fs.refs == old(fs.refs) && OnlyInode(old(fs.tab), fs.tab, p)
    ensures Grew(old(fs.Vol()), fs.Vol(), fs.tab.heap[p].ino)
    ensures err == OK ==> block == Ptr(fs.Vol(), fs.tab.heap[p].ino, NDIRECT + idoff)
    ensures err == OK && doalloc ==> block != 0
    ensures err == ENOSPC ==> doalloc && Full(fs.Vol()) && Ptr(old(fs.Vol()), fs.tab.heap[p].ino, NDIRECT + idoff) == 0
    ensures err == ENOSPC ==> Scarce(old(fs.Vol()), 1)
    ensures err == OK || err == ENOSPC
    ensures !doalloc ==> fs.Vol() == old(fs.Vol()) && fs.tab == old(fs.tab)
  {
    hide Sfs.Sound, Grew, Ptr, DecodeIndirect;
    LoadedInode(fs, p);
    var v := fs.tab.heap[p];
    ghost var a := fs.Vol();
    GrewSelf(a, v.ino);
    var idblock := v.inode.indirect;
    var idbuf: seq<int>;
    if idblock == 0 {
      NoIndirect(a, v.ino, idoff);
      if !doalloc {
        return OK, 0;
      }
      err, idblock := AllocIndirect(fs, p);
      if err != OK {
        FullScarce(a);
        return err, 0;
      }
      idbuf := seq(DBPERIDB, _ => 0);
      ZeroIds(fs.disk[idblock], idbuf);
    } else {
      idbuf := DecodeIndirect(fs.disk[idblock]);
    }
    ghost var m := fs.Vol();
    IndexEntry(fs, p, idoff);
    block := idbuf[idoff];
    err := OK;
    if block == 0 && doalloc {
      err, block := AllocEntry(fs, p, idbuf, idoff);
      if err == OK {
        GrewTwice(a, m, fs.Vol(), v.ino);
      } else {
        GrewHole(a, m, v.ino, NDIRECT + idoff);
        FullScarce(m);
        if v.inode.indirect == 0 {
          TakenScarce(a, m, idblock, 0);
        }
      }
    }
  }

  /** A lookup reports the mapped block; a lookup for writing never reports a hole.  Past the
      last block of the indirect block the call fails; it runs out of space only when asked to
      fill a hole.  Either way no byte of any file changes. */
  method Bmap(fs: Sfs, p: int, fileblock: int, doalloc: bool) returns (err: Errno, block: int)
    requires fs.Sound() && p in fs.tab.heap && 0 <= fileblock
    modifies fs, fs.freemap
    ensures fs.Sound() && fs.refs == old(fs.refs) && OnlyInode(old(fs.tab), fs.tab, p)
    ensures Grew(old(fs.Vol()), fs.Vol(), fs.tab.heap[p].ino)
    ensures err == EINVAL <==> fileblock >= NFILEBLOCKS
    ensures err == OK ==> block == Ptr(fs.Vol(), fs.tab.heap[p].ino, fileblock)
    ensures err == OK && doalloc ==> block != 0
    ensures err == ENOSPC ==> doalloc && Full(fs.Vol()) && Ptr(old(fs.Vol()), fs.tab.heap[p].ino, fileblock) == 0
    ensures err == ENOSPC ==> Scarce(old(fs.Vol()), 1)
    ensures err in {OK, EINVAL, ENOSPC}
    ensures !doalloc || err == EINVAL ==> fs.Vol() == old(fs.Vol()) && fs.tab == old(fs.tab)
  {
    hide Sfs.Sound, Grew, Ptr;
    LoadedInode(fs, p);
    ghost var ino := fs.tab.heap[p].ino;
    GrewSelf(fs.Vol(), ino);
    if fileblock < NDIRECT {
      err, block := BmapDirect(fs, p, fileblock, doalloc);
    } else if fileblock - NDIRECT >= DBPERIDB {
      return EINVAL, 0;
    } else {
      err, block := BmapIndirect(fs, p, fileblock - NDIRECT, doalloc);
    }
    if err == OK {
      CheckMapped(fs, ino, fileblock, block);
    }
  }
}
