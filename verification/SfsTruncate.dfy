/** sfs_truncate of kern/fs/sfs/sfs_vnode.c. */
module SfsTruncate {
  import opened Bytes
  import opened Bitmaps
  import opened SfsFormat
  import opened SfsOwnership
  import opened SfsVolume
  import opened VnodeTable
  import opened SfsState
  import opened SfsBmap
  import opened SfsIo

  /** The file blocks that survive a truncation to blocklen blocks.  In the indirect range the
      comparison is off by one, so block blocklen itself survives there. */
  predicate Kept(i: int, blocklen: int) {
    if i < NDIRECT then i < blocklen else i <= blocklen
  }

  /** r with the doomed blocks among the first n zeroed */
  ghost function Cut(r: seq<Byte>, blocklen: int, n: int): (r': seq<Byte>)
    requires |r| == MAXBYTES
    ensures |r'| == MAXBYTES
  {
    seq(MAXBYTES, k requires 0 <= k < MAXBYTES =>
      if k / BLOCKSIZE < n && !Kept(k / BLOCKSIZE, blocklen) then 0 else r[k])
  }

  lemma CutStep(r: seq<Byte>, blocklen: int, n: int)
    requires |r| == MAXBYTES && 0 <= n < NFILEBLOCKS
    ensures Cut(r, blocklen, n + 1) ==
            if Kept(n, blocklen) then Cut(r, blocklen, n) else PutBlock(Cut(r, blocklen, n), n, ZeroBlock())
  {
    var x, y := Cut(r, blocklen, n + 1), PutBlock(Cut(r, blocklen, n), n, ZeroBlock());
    if Kept(n, blocklen) {
      assert x == Cut(r, blocklen, n);
    } else {
      forall k | 0 <= k < MAXBYTES
        ensures x[k] == y[k]
      {
        if k / BLOCKSIZE == n {
          assert k == BLOCKSIZE * n + k % BLOCKSIZE;
        }
      }
    }
  }

  lemma PutSameBlock(r: seq<Byte>, i: int, x: Block)
    requires |r| == MAXBYTES && 0 <= i < NFILEBLOCKS && r[BLOCKSIZE * i..BLOCKSIZE * i + BLOCKSIZE] == x
    ensures PutBlock(r, i, x) == r
  {
    assert r == r[..BLOCKSIZE * i] + r[BLOCKSIZE * i..BLOCKSIZE * i + BLOCKSIZE] + r[BLOCKSIZE * i + BLOCKSIZE..];
  }

  /** From volume a to b, the doomed blocks among the first n of file ino were given up. */
  ghost predicate CutVol(a: Vol, b: Vol, ino: int, blocklen: int, n: int) {
    && |b.disk| == |a.disk| && ino in a.inodes && ino in b.inodes
    && b.inodes == a.inodes[ino := b.inodes[ino]] && PtrMap(b) == PtrMap(a)[ino := PtrMap(b)[ino]]
    && SameMeta(a.inodes[ino], b.inodes[ino])
    && Files(b) == Files(a)[ino := Cut(Files(a)[ino], blocklen, n)]
    && (forall i :: Ptr(b, ino, i) == if 0 <= i < n && !Kept(i, blocklen) then 0 else Ptr(a, ino, i))
  }

  lemma CutStart(a: Vol, ino: int, blocklen: int)
    requires ino in a.inodes
    ensures CutVol(a, a, ino, blocklen, 0)
  {
    hide Files, Ptr, PtrMap;
    assert Cut(Files(a)[ino], blocklen, 0) == Files(a)[ino];
  }

  /** A block that survives, or is a hole already. */
  lemma CutKeep(a: Vol, b: Vol, ino: int, blocklen: int, n: int)
    requires VolOk(b) && CutVol(a, b, ino, blocklen, n) && 0 <= n < NFILEBLOCKS
    requires Kept(n, blocklen) || Ptr(b, ino, n) == 0
    ensures CutVol(a, b, ino, blocklen, n + 1)
  {
    hide Files, Ptr, VolOk, Cut;
    CutStep(Files(a)[ino], blocklen, n);
    if !Kept(n, blocklen) {
      MappedBytes(b, ino, n);
      PutSameBlock(Files(b)[ino], n, ZeroBlock());
    }
  }

  /** A doomed block is unlinked and freed. */
  lemma CutDrop(a: Vol, b: Vol, c: Vol, ino: int, blocklen: int, n: int)
    requires CutVol(a, b, ino, blocklen, n) && 0 <= n < NFILEBLOCKS && !Kept(n, blocklen)
    requires |c.disk| == |b.disk| && ino in c.inodes && c.inodes == b.inodes[ino := c.inodes[ino]]
    requires PtrMap(c) == PtrMap(b)[ino := PtrMap(c)[ino]]
    requires SameMeta(b.inodes[ino], c.inodes[ino])
    requires Files(c) == Files(b)[ino := PutBlock(Files(b)[ino], n, ZeroBlock())]
    requires forall i :: Ptr(c, ino, i) == if i == n then 0 else Ptr(b, ino, i)
    ensures CutVol(a, c, ino, blocklen, n + 1)
  {
    hide Files, Ptr, PtrMap, Cut;
    CutStep(Files(a)[ino], blocklen, n);
  }

  lemma PtrCleared(b: Vol, c: Vol, ino: int, n: int)
    requires ino in b.inodes && c.inodes.Keys == b.inodes.Keys && 0 <= n < |PtrMap(b)[ino]|
    requires PtrMap(c) == PtrMap(b)[ino := PtrMap(b)[ino][n := 0]]
    ensures forall i :: Ptr(c, ino, i) == if i == n then 0 else Ptr(b, ino, i)
  {
  }

  /** sfs_bfree */
  method Bfree(fs: Sfs, b: int)
    requires fs.MapOk() && 0 <= b < |fs.Vol().bits| && fs.Vol().bits[b]
    modifies fs`freemapDirty, fs.freemap
    ensures fs.MapOk() && fs.freemapDirty && fs.Vol() == old(fs.Vol()).(bits := old(fs.Vol()).bits[b := false])
  {
    hide MapStored, Bits, Bitmap.Valid, BitmapSize;
    fs.freemap.Unmark(b);
    fs.freemapDirty := true;
  }

  // ---- direct blocks ----

  lemma DropDirect(a: Vol, b: Vol, c: Vol, ino: int, blocklen: int, n: int)
    requires VolOk(b) && CutVol(a, b, ino, blocklen, n) && 0 <= n < NDIRECT && !Kept(n, blocklen)
    requires |b.inodes[ino].direct| == NDIRECT && b.inodes[ino].direct[n] != 0
    requires var x := b.inodes[ino].direct[n];
             0 <= x < |b.bits| &&
             c == Vol(b.disk, b.bits[x := false], b.inodes[ino := WithDirect(b.inodes[ino], n, 0)], b.owner - {x})
    ensures VolOk(c) && CutVol(a, c, ino, blocklen, n + 1)
  {
    hide VolOk, Files, Cut;
    DirectIsPtr(b, ino, n);
    UnlinkDirect(b, c, ino, n);
    PtrCleared(b, c, ino, n);
    hide Ptr;
    CutDrop(a, b, c, ino, blocklen, n);
  }

  /** One round of the loop over the direct blocks. */
  method TruncateSlot(fs: Sfs, p: int, blocklen: int, i: int, ghost a: Vol)
    requires fs.Sound() && p in fs.tab.heap && 0 <= i < NDIRECT
    requires CutVol(a, fs.Vol(), fs.tab.heap[p].ino, blocklen, i)
    modifies fs, fs.freemap
    ensures fs.Sound() && fs.refs == old(fs.refs) && OnlyInode(old(fs.tab), fs.tab, p)
    ensures CutVol(a, fs.Vol(), fs.tab.heap[p].ino, blocklen, i + 1)
  {
    hide VolOk, Coherent, TableOk, MapStored, Bits, IsSuper, CutVol, Ptr, PtrMap, Bitmap.Valid, BitmapSize;
    LoadedInode(fs, p);
    ghost var b := fs.Vol();
    var v := fs.tab.heap[p];
    var block := v.inode.direct[i];
    DirectIsPtr(b, v.ino, i);
    if i >= blocklen && block != 0 {
      MappedBlockUsed(b, v.ino, i);
      Bfree(fs, block);
      ghost var owner := fs.owner - {block};
      DropDirect(a, b, fs.Vol().(inodes := fs.inodes[v.ino := WithDirect(v.inode, i, 0)], owner := owner), v.ino,
        blocklen, i);
      PutInode(fs, p, v.inode.(direct := v.inode.direct[i := 0]), owner);
    } else {
      CutKeep(a, b, v.ino, blocklen, i);
    }
  }

  method TruncateDirect(fs: Sfs, p: int, blocklen: int)
    requires fs.Sound() && p in fs.tab.heap
    modifies fs, fs.freemap
    ensures fs.Sound() && fs.refs == old(fs.refs) && OnlyInode(old(fs.tab), fs.tab, p)
    ensures CutVol(old(fs.Vol()), fs.Vol(), fs.tab.heap[p].ino, blocklen, NDIRECT)
  {
    hide VolOk, Coherent, TableOk, MapStored, Bits, IsSuper, CutVol;
    LoadedInode(fs, p);
    ghost var a, ino := fs.Vol(), fs.tab.heap[p].ino;
    CutStart(a, ino, blocklen);
    for i := 0 to NDIRECT
      invariant fs.Sound() && fs.refs == old(fs.refs) && OnlyInode(old(fs.tab), fs.tab, p)
      invariant CutVol(a, fs.Vol(), ino, blocklen, i)
    {
      TruncateSlot(fs, p, blocklen, i, a);
    }
  }

  // ---- the indirect block ----

  lemma {:induction false} CutKeepAll(a: Vol, b: Vol, ino: int, blocklen: int, n: int)
    requires VolOk(b) && CutVol(a, b, ino, blocklen, n) && 0 <= n <= NFILEBLOCKS
    requires forall i :: n <= i < NFILEBLOCKS ==> Kept(i, blocklen) || Ptr(b, ino, i) == 0
    ensures CutVol(a, b, ino, blocklen, NFILEBLOCKS)
    decreases NFILEBLOCKS - n
  {
    hide VolOk, CutVol, Ptr;
    if n < NFILEBLOCKS {
      CutKeep(a, b, ino, blocklen, n);
      CutKeepAll(a, b, ino, blocklen, n + 1);
    }
  }

  /** While the entries are being freed, g is the volume as it will be when the buffer idbuf
      is written back to the indirect block id. */
  ghost predicate Pending(v: Vol, g: Vol, ino: int, id: int, idbuf: seq<int>) {
    && 0 < id < |v.disk| == |g.disk| && ino in v.inodes && v.inodes[ino].indirect == id
    && g == v.(disk := v.disk[id := g.disk[id]])
    && DecodeIndirect(g.disk[id]) == idbuf
  }

  ghost function DroppedEntry(g: Vol, id: int, j: int, x: int): Vol
    requires 0 <= id < |g.disk| && 0 <= j < DBPERIDB && 0 <= x < |g.bits|
  {
    g.(disk := g.disk[id := PutEntry(g.disk[id], j, 0)], bits := g.bits[x := false], owner := g.owner - {x})
  }

  lemma IdsRoundTrip(ids: seq<int>)
    requires |ids| == DBPERIDB && AllU32(ids)
    ensures DecodeIndirect(EncodeIndirect(ids)) == ids
  {
    WordsRoundTrip(ids);
  }

  lemma DropEntry(a: Vol, v: Vol, g: Vol, ino: int, id: int, idbuf: seq<int>, blocklen: int, j: int)
    requires VolOk(g) && Pending(v, g, ino, id, idbuf) && CutVol(a, g, ino, blocklen, NDIRECT + j)
    requires 0 <= j < DBPERIDB && !Kept(NDIRECT + j, blocklen) && idbuf[j] != 0
    ensures var x := idbuf[j];
            && 0 <= x < |v.bits| && v.bits[x] && AllU32(idbuf[j := 0])
            && var h := DroppedEntry(g, id, j, x);
            && VolOk(h) && CutVol(a, h, ino, blocklen, NDIRECT + j + 1)
            && Pending(v.(bits := v.bits[x := false], owner := v.owner - {x}), h, ino, id, idbuf[j := 0])
            && h.disk[id] == EncodeIndirect(idbuf[j := 0])
  {
    hide VolOk, Files, Cut, DecodeIndirect, EncodeIndirect, Ptr;
    var x := idbuf[j];
    EntryIsPtr(g, ino, j);
    MappedBlockUsed(g, ino, NDIRECT + j);
    var h := DroppedEntry(g, id, j, x);
    UnlinkEntry(g, h, ino, j);
    InodeFacts(g, ino);
    PtrCleared(g, h, ino, NDIRECT + j);
    CutDrop(a, g, h, ino, blocklen, NDIRECT + j);
    PutEntryIs(g.disk[id], idbuf, j, 0);
    IdsRoundTrip(idbuf[j := 0]);
  }

  lemma KeepEntry(a: Vol, v: Vol, g: Vol, ino: int, id: int, idbuf: seq<int>, blocklen: int, j: int)
    requires VolOk(g) && Pending(v, g, ino, id, idbuf) && CutVol(a, g, ino, blocklen, NDIRECT + j)
    requires 0 <= j < DBPERIDB && (Kept(NDIRECT + j, blocklen) || idbuf[j] == 0)
    ensures CutVol(a, g, ino, blocklen, NDIRECT + j + 1)
  {
    hide VolOk, CutVol, DecodeIndirect, Ptr;
    EntryIsPtr(g, ino, j);
    CutKeep(a, g, ino, blocklen, NDIRECT + j);
  }

  /** The loop over the entries: the doomed ones are freed and cleared in the buffer only. */
  method FreeEntries(fs: Sfs, p: int, blocklen: int, ghost a: Vol)
    returns (idbuf: seq<int>, hasnonzero: bool, iddirty: bool, ghost g: Vol)
    requires fs.Sound() && p in fs.tab.heap && fs.tab.heap[p].inode.indirect != 0
    requires CutVol(a, fs.Vol(), fs.tab.heap[p].ino, blocklen, NDIRECT)
    modifies fs`freemapDirty, fs`owner, fs.freemap
    ensures fs.MapOk() && VolOk(g) && Pending(fs.Vol(), g, fs.tab.heap[p].ino, fs.tab.heap[p].inode.indirect, idbuf)
    ensures CutVol(a, g, fs.tab.heap[p].ino, blocklen, NFILEBLOCKS)
    ensures |idbuf| == DBPERIDB && AllU32(idbuf)
    ensures hasnonzero <==> exists j :: 0 <= j < DBPERIDB && idbuf[j] != 0
    ensures if iddirty then g.disk[fs.tab.heap[p].inode.indirect] == EncodeIndirect(idbuf) else g == fs.Vol()
  {
    hide VolOk, Coherent, TableOk, MapStored, Bits, IsSuper, CutVol, DecodeIndirect, EncodeIndirect;
    LoadedInode(fs, p);
    var id := fs.tab.heap[p].inode.indirect;
    ghost var ino := fs.tab.heap[p].ino;
    g := fs.Vol();
    idbuf := DecodeIndirect(fs.disk[id]);
    hasnonzero, iddirty := false, false;
    ghost var w := 0;
    for j := 0 to DBPERIDB
      invariant fs.MapOk() && VolOk(g) && Pending(fs.Vol(), g, ino, id, idbuf)
      invariant CutVol(a, g, ino, blocklen, NDIRECT + j)
      invariant |idbuf| == DBPERIDB && AllU32(idbuf)
      invariant !hasnonzero ==> forall k :: 0 <= k < j ==> idbuf[k] == 0
      invariant hasnonzero ==> 0 <= w < j && idbuf[w] != 0
      invariant if iddirty then g.disk[id] == EncodeIndirect(idbuf) else g == fs.Vol()
    {
      if blocklen < NDIRECT + j && idbuf[j] != 0 {
        DropEntry(a, fs.Vol(), g, ino, id, idbuf, blocklen, j);
        g := DroppedEntry(g, id, j, idbuf[j]);
        Bfree(fs, idbuf[j]);
        fs.owner := fs.owner - {idbuf[j]};
        idbuf := idbuf[j := 0];
        iddirty := true;
      } else {
        KeepEntry(a, fs.Vol(), g, ino, id, idbuf, blocklen, j);
      }
      if idbuf[j] != 0 {
        hasnonzero, w := true, j;
      }
    }
  }

  lemma IndirectUsed(v: Vol, ino: int)
    requires VolOk(v) && ino in v.inodes && v.inodes[ino].indirect != 0
    ensures var id := v.inodes[ino].indirect;
            && 0 < id < |v.disk| <= |v.bits| && v.bits[id] && id !in v.inodes && !IsReserved(id, |v.disk|)
            && id in v.owner && v.owner[id] == IndirectBlock(ino)
  {
    OnlyIndirect(v, ino);
    assert Is(v, v);
    assert v.inodes.Keys == IndMap(v).Keys;
  }

  lemma EmptyIndirect(a: Vol, v: Vol, g: Vol, ino: int, id: int, idbuf: seq<int>, blocklen: int)
    requires VolOk(g) && Pending(v, g, ino, id, idbuf) && CutVol(a, g, ino, blocklen, NFILEBLOCKS)
    requires forall j :: 0 <= j < DBPERIDB ==> idbuf[j] == 0
    ensures id < |v.bits| && v.bits[id]
    ensures var w := v.(bits := v.bits[id := false], inodes := v.inodes[ino := v.inodes[ino].(indirect := 0)],
      owner := v.owner - {id});
            VolOk(w) && CutVol(a, w, ino, blocklen, NFILEBLOCKS)
  {
    hide VolOk, Files, Cut, DecodeIndirect;
    IndirectUsed(g, ino);
    var h := Vol(g.disk, g.bits[id := false], g.inodes[ino := g.inodes[ino].(indirect := 0)], g.owner - {id});
    UnlinkIndirectBlock(g, h, ino);
    WriteElsewhere(h, id, v.disk[id]);
    var w := h.(disk := h.disk[id := v.disk[id]]);
    assert w.disk == v.disk;
    SamePtr(g, w, ino);
    hide Ptr;
  }

  lemma NothingLeft(a: Vol, v: Vol, g: Vol, ino: int, id: int, idbuf: seq<int>, blocklen: int)
    requires VolOk(g) && Pending(v, g, ino, id, idbuf) && CutVol(a, g, ino, blocklen, NFILEBLOCKS)
    ensures blocklen < NDIRECT ==> forall j :: 0 <= j < DBPERIDB ==> idbuf[j] == 0
  {
    hide VolOk, Files, Ptr, DecodeIndirect;
    forall j | 0 <= j < DBPERIDB && blocklen < NDIRECT
      ensures idbuf[j] == 0
    {
      EntryIsPtr(g, ino, j);
    }
  }

  lemma NoIndirects(v: Vol, ino: int, blocklen: int)
    requires VolOk(v) && ino in v.inodes && (blocklen >= NFILEBLOCKS - 1 || v.inodes[ino].indirect == 0)
    ensures forall i :: NDIRECT <= i < NFILEBLOCKS ==> Kept(i, blocklen) || Ptr(v, ino, i) == 0
  {
    InodeFacts(v, ino);
  }

  method TruncateIndirect(fs: Sfs, p: int, blocklen: int, ghost a: Vol)
    requires fs.Sound() && p in fs.tab.heap
    requires CutVol(a, fs.Vol(), fs.tab.heap[p].ino, blocklen, NDIRECT)
    modifies fs, fs.freemap
    ensures fs.Sound() && fs.refs == old(fs.refs) && OnlyInode(old(fs.tab), fs.tab, p)
    ensures CutVol(a, fs.Vol(), fs.tab.heap[p].ino, blocklen, NFILEBLOCKS)
    ensures blocklen < NDIRECT ==> fs.tab.heap[p].inode.indirect == 0
  {
    hide VolOk, Coherent, TableOk, MapStored, Bits, IsSuper, CutVol, DecodeIndirect, EncodeIndirect;
    LoadedInode(fs, p);
    var idblock, baseblock := fs.tab.heap[p].inode.indirect, NDIRECT;
    var highblock := baseblock + DBPERIDB - 1;
    ghost var ino := fs.tab.heap[p].ino;
    if blocklen < highblock && idblock != 0 {
      var idbuf, hasnonzero, iddirty;
      ghost var g;
      idbuf, hasnonzero, iddirty, g := FreeEntries(fs, p, blocklen, a);
      NothingLeft(a, fs.Vol(), g, ino, idblock, idbuf, blocklen);
      if !hasnonzero {
        EmptyIndirect(a, fs.Vol(), g, ino, idblock, idbuf, blocklen);
        Bfree(fs, idblock);
        PutInode(fs, p, fs.tab.heap[p].inode.(indirect := 0), fs.owner - {idblock});
      } else if iddirty {
        IndirectUsed(g, ino);
        WriteBlock(fs, idblock, EncodeIndirect(idbuf), fs.owner);
      }
    } else {
      NoIndirects(fs.Vol(), ino, blocklen);
      CutKeepAll(a, fs.Vol(), ino, blocklen, NDIRECT);
    }
  }

  // ---- sfs_truncate ----

  function BlockLen(len: int): int {
    (len + BLOCKSIZE - 1) / BLOCKSIZE
  }

  /** From volume a to b, file ino was truncated to len bytes: the doomed blocks were given up,
      the size is len, and nothing else changed. */
  ghost predicate Truncated(a: Vol, b: Vol, ino: int, len: int) {
    && |b.disk| == |a.disk| && ino in a.inodes && ino in b.inodes
    && b.inodes == a.inodes[ino := b.inodes[ino]] && PtrMap(b) == PtrMap(a)[ino := PtrMap(b)[ino]]
    && b.inodes[ino].size == len
    && b.inodes[ino].kind == a.inodes[ino].kind && b.inodes[ino].links == a.inodes[ino].links
    && Files(b) == Files(a)[ino := Cut(Files(a)[ino], BlockLen(len), NFILEBLOCKS)]
    && (forall i :: Ptr(b, ino, i) == if 0 <= i < NFILEBLOCKS && !Kept(i, BlockLen(len)) then 0 else Ptr(a, ino, i))
  }

  lemma SetSize(a: Vol, b: Vol, c: Vol, ino: int, len: int)
    requires VolOk(b) && CutVol(a, b, ino, BlockLen(len), NFILEBLOCKS) && IsU32(len)
    requires c == b.(inodes := b.inodes[ino := b.inodes[ino].(size := len)])
    ensures VolOk(c) && Truncated(a, c, ino, len)
  {
    hide VolOk, Files, Ptr, Cut, PtrMap, Kept, BlockLen;
    InodeFacts(b, ino);
    SetMeta(b, c, ino, c.inodes[ino]);
    SamePtr(b, c, ino);
  }

  /** Truncation always succeeds; truncation to a direct length leaves no indirect block. */
  method Truncate(fs: Sfs, p: int, len: int)
    requires fs.Sound() && p in fs.tab.heap && 0 <= len < 0x8000_0000
    modifies fs, fs.freemap
    ensures fs.Sound() && fs.refs == old(fs.refs) && OnlyInode(old(fs.tab), fs.tab, p)
    ensures Truncated(old(fs.Vol()), fs.Vol(), fs.tab.heap[p].ino, len)
    ensures BlockLen(len) < NDIRECT ==> fs.tab.heap[p].inode.indirect == 0
  {
    hide VolOk, Coherent, TableOk, MapStored, Bits, IsSuper, CutVol, Truncated;
    ghost var a := fs.Vol();
    var blocklen := BlockLen(len);
    TruncateDirect(fs, p, blocklen);
    TruncateIndirect(fs, p, blocklen, a);
    LoadedInode(fs, p);
    var v := fs.tab.heap[p];
    SetSize(a, fs.Vol(), fs.Vol().(inodes := fs.inodes[v.ino := v.inode.(size := len)]), v.ino, len);
    PutInode(fs, p, v.inode.(size := len), fs.owner);
  }
}
