/** File I/O: sfs_partialio, sfs_blockio and sfs_io of kern/fs/sfs/sfs_vnode.c. */
module SfsIo {
  import opened Bytes
  import opened Bitmaps
  import opened Uios
  import opened SfsFormat
  import opened SfsOwnership
  import opened SfsVolume
  import opened VnodeTable
  import opened SfsState
  import opened SfsBmap

  // ---- what a write may change ----

  /** From volume a to b, the bytes d were stored at offset off of file ino.  Nothing else
      changed: no other byte of any file, no other inode, no block the file already had. */
  ghost predicate Wrote(a: Vol, b: Vol, ino: int, off: int, d: seq<Byte>) {
    && |b.disk| == |a.disk| && ino in a.inodes && ino in b.inodes
    && b.inodes == a.inodes[ino := b.inodes[ino]] && PtrMap(b) == PtrMap(a)[ino := PtrMap(b)[ino]]
    && SameMeta(a.inodes[ino], b.inodes[ino])
    && 0 <= off && (d == [] || off + |d| <= MAXBYTES)
    && Files(b) == Files(a)[ino := Overlay(Files(a)[ino], off, d)]
    && (forall i :: Ptr(a, ino, i) != 0 ==> Ptr(b, ino, i) == Ptr(a, ino, i))
  }

  lemma WroteNothing(a: Vol, b: Vol, ino: int, off: int)
    requires Grew(a, b, ino) && 0 <= off
    ensures Wrote(a, b, ino, off, [])
  {
    hide Files, Ptr, PtrMap;
  }

  lemma WroteTwice(a: Vol, b: Vol, c: Vol, ino: int, off: int, d: seq<Byte>, e: seq<Byte>)
    requires Wrote(a, b, ino, off, d) && Wrote(b, c, ino, off + |d|, e)
    ensures Wrote(a, c, ino, off, d + e)
  {
    hide Files, Ptr, PtrMap;
    OverlayTwice(Files(a)[ino], off, d, e);
  }

  lemma OverlayBlock(r: seq<Byte>, i: int, x: Block, skip: int, d: seq<Byte>)
    requires |r| == MAXBYTES && 0 <= i < NFILEBLOCKS && 0 <= skip && skip + |d| <= BLOCKSIZE
    requires x == r[BLOCKSIZE * i..BLOCKSIZE * i + BLOCKSIZE]
    ensures PutBlock(r, i, Overlay(x, skip, d)) == Overlay(r, BLOCKSIZE * i + skip, d)
  {
  }

  lemma RawBlock(p: seq<int>, disk: seq<Block>, i: int)
    requires PtrsIn(p, |disk|) && 0 <= i < NFILEBLOCKS
    ensures Raw(p, disk)[BLOCKSIZE * i..BLOCKSIZE * i + BLOCKSIZE] == BlockOf(p[i], disk)
  {
    var s := Raw(p, disk)[BLOCKSIZE * i..BLOCKSIZE * i + BLOCKSIZE];
    forall k | 0 <= k < BLOCKSIZE
      ensures s[k] == BlockOf(p[i], disk)[k]
    {
      assert s[k] == ByteAt(p, disk, BLOCKSIZE * i + k);
      assert (BLOCKSIZE * i + k) / BLOCKSIZE == i && (BLOCKSIZE * i + k) % BLOCKSIZE == k;
    }
  }

  /** The bytes of file block i are those of the block it is mapped to, or zeros in a hole. */
  lemma MappedBytes(v: Vol, ino: int, i: int)
    requires VolOk(v) && ino in v.inodes && 0 <= i < NFILEBLOCKS
    ensures var b := Ptr(v, ino, i);
            0 <= b < |v.disk| && Files(v)[ino][BLOCKSIZE * i..BLOCKSIZE * i + BLOCKSIZE] == BlockOf(b, v.disk)
  {
    assert Is(v, v);
    hide OwnOk;
    RawBlock(PtrMap(v)[ino], v.disk, i);
  }

  lemma StoreBytes(a: Vol, g: Vol, b: Vol, ino: int, i: int, skip: int, d: seq<Byte>)
    requires VolOk(g) && Grew(a, g, ino) && 0 <= i < NFILEBLOCKS && 0 < Ptr(g, ino, i) < |g.disk|
    requires 0 <= skip && skip + |d| <= BLOCKSIZE
    requires var block := Ptr(g, ino, i); b == g.(disk := g.disk[block := Overlay(g.disk[block], skip, d)])
    ensures VolOk(b) && Wrote(a, b, ino, BLOCKSIZE * i + skip, d)
    ensures Ptr(b, ino, i) == Ptr(g, ino, i)
  {
    hide Files, VolOk;
    var block := Ptr(g, ino, i);
    MappedBytes(g, ino, i);
    WriteData(g, ino, i, Overlay(g.disk[block], skip, d));
    OverlayBlock(Files(g)[ino], i, g.disk[block], skip, d);
  }

  // ---- one step of I/O ----

  /** The m bytes that a transfer from c moves: the caller's for a write, the file's for a read. */
  ghost function Transfer(a: Vol, ino: int, c: Cursor, m: int): (d: seq<Byte>)
    requires CursorOk(c) && 0 <= m <= c.resid && (m == 0 || c.offset + m <= MAXBYTES) && ino in a.inodes
    ensures |d| == m
  {
    if c.rw.Write? then c.mem[c.pos..c.pos + m] else if m == 0 then [] else Files(a)[ino][c.offset..c.offset + m]
  }

  /** From volume a and cursor c to b and c': the bytes between the two cursors were moved, to
      the file by a write, to the caller by a read; and nothing else changed. */
  ghost predicate IoStep(a: Vol, b: Vol, ino: int, c: Cursor, c': Cursor) {
    var m := c'.pos - c.pos;
    && CursorOk(c) && CursorOk(c') && ino in a.inodes
    && 0 <= m <= c.resid && (m == 0 || c.offset + m <= MAXBYTES)
    && c' == Advance(c, Transfer(a, ino, c, m))
    && (if c.rw.Write? then Wrote(a, b, ino, c.offset, Transfer(a, ino, c, m)) else b == a)
  }

  lemma TransferTwice(a: Vol, b: Vol, ino: int, c: Cursor, m: int, n: int)
    requires CursorOk(c) && 0 <= m && 0 <= n && m + n <= c.resid && (m + n == 0 || c.offset + m + n <= MAXBYTES)
    requires ino in a.inodes && ino in b.inodes && (c.rw.Read? ==> b == a)
    requires CursorOk(Advance(c, Transfer(a, ino, c, m)))
    ensures Transfer(a, ino, c, m + n) == Transfer(a, ino, c, m) + Transfer(b, ino,
      Advance(c, Transfer(a, ino, c, m)), n)
  {
    hide Files, Overlay;
  }

  lemma IoStepTwice(a: Vol, b: Vol, v: Vol, ino: int, c: Cursor, c': Cursor, c'': Cursor)
    requires IoStep(a, b, ino, c, c') && IoStep(b, v, ino, c', c'')
    ensures IoStep(a, v, ino, c, c'')
  {
    hide Files, Wrote, Transfer, Overlay;
    var m, n := c'.pos - c.pos, c''.pos - c'.pos;
    var d, e := Transfer(a, ino, c, m), Transfer(b, ino, c', n);
    AdvanceTwice(c, d, e);
    TransferTwice(a, b, ino, c, m, n);
    if c.rw.Write? {
      WroteTwice(a, b, v, ino, c.offset, d, e);
    }
  }

  lemma IoStepNone(a: Vol, b: Vol, ino: int, c: Cursor)
    requires CursorOk(c) && ino in a.inodes && (if c.rw.Write? then Grew(a, b, ino) else b == a)
    ensures IoStep(a, b, ino, c, c)
  {
    hide Files;
    if c.rw.Write? {
      WroteNothing(a, b, ino, c.offset);
      assert Transfer(a, ino, c, 0) == [];
    }
  }

  /** Why a transfer that reached cursor c stopped there. */
  ghost predicate StopReason(a: Vol, ino: int, c: Cursor, err: Errno) {
    && err in {OK, EINVAL, ENOSPC, EFAULT}
    && (err == EINVAL <==> err != OK && c.offset / BLOCKSIZE >= NFILEBLOCKS)
    && (err == ENOSPC ==> c.rw.Write? && Ptr(a, ino, c.offset / BLOCKSIZE) == 0)
    && (err == EFAULT ==> c.limit < |c.mem|)
  }

  // ---- sfs_partialio ----

  lemma DataApart(v: Vol, ino: int, i: int)
    requires VolOk(v) && Ptr(v, ino, i) != 0
    ensures var b := Ptr(v, ino, i);
            0 < b < |v.disk| && b !in v.inodes && !IsReserved(b, |v.disk|) && 0 <= i < NFILEBLOCKS && ino in v.inodes
  {
    MappedBlockUsed(v, ino, i);
    assert Is(v, v);
    assert v.inodes.Keys == IndMap(v).Keys;
  }

  lemma SliceOfSlice(r: seq<Byte>, lo: int, hi: int, s: int, t: int)
    requires 0 <= lo <= hi <= |r| && 0 <= s <= t <= hi - lo
    ensures r[lo..hi][s..t] == r[lo + s..lo + t]
  {
    assert forall k :: 0 <= k < t - s ==> r[lo..hi][s..t][k] == r[lo + s..lo + t][k];
  }

  lemma FileSlice(a: Vol, ino: int, off: int, len: int, iobuf: Block)
    requires VolOk(a) && ino in a.inodes && 0 <= off && off / BLOCKSIZE < NFILEBLOCKS
    requires 0 <= len && off % BLOCKSIZE + len <= BLOCKSIZE
    requires 0 <= Ptr(a, ino, off / BLOCKSIZE) < |a.disk| && iobuf == BlockOf(Ptr(a, ino, off / BLOCKSIZE), a.disk)
    ensures off + len <= MAXBYTES
    ensures Files(a)[ino][off..off + len] == iobuf[off % BLOCKSIZE..off % BLOCKSIZE + len]
  {
    hide VolOk, BlockOf, Files, Ptr;
    var i, skip, r := off / BLOCKSIZE, off % BLOCKSIZE, Files(a)[ino];
    MappedBytes(a, ino, i);
    assert off == BLOCKSIZE * i + skip;
    SliceOfSlice(r, BLOCKSIZE * i, BLOCKSIZE * i + BLOCKSIZE, skip, skip + len);
  }

  lemma ReadPart(a: Vol, ino: int, c: Cursor, skip: int, len: int, iobuf: Block)
    requires VolOk(a) && ino in a.inodes && CursorOk(c) && c.rw.Read?
    requires 0 <= skip == c.offset % BLOCKSIZE && 0 <= len <= c.resid && skip + len <= BLOCKSIZE
    requires c.offset / BLOCKSIZE < NFILEBLOCKS
    requires 0 <= Ptr(a, ino, c.offset / BLOCKSIZE) < |a.disk| &&
      iobuf == BlockOf(Ptr(a, ino, c.offset / BLOCKSIZE), a.disk)
    ensures c.offset + len <= MAXBYTES
    ensures CursorOk(Advance(c, iobuf[skip..skip + len])) && IoStep(a, a, ino, c, Advance(c, iobuf[skip..skip + len]))
  {
    hide VolOk, BlockOf, Overlay, Files, Ptr;
    FileSlice(a, ino, c.offset, len, iobuf);
    assert Transfer(a, ino, c, len) == iobuf[skip..skip + len];
  }

  lemma GrewHas(a: Vol, b: Vol, ino: int)
    requires Grew(a, b, ino)
    ensures ino in a.inodes && ino in b.inodes && |a.disk| == |b.disk|
  {
  }

  lemma WritePart(a: Vol, g: Vol, ino: int, c: Cursor, skip: int, block: int, x: Block, d: seq<Byte>)
    requires VolOk(g) && Grew(a, g, ino) && CursorOk(c) && c.rw.Write?
    requires 0 <= skip == c.offset % BLOCKSIZE && |d| <= c.resid && skip + |d| <= BLOCKSIZE
    requires c.offset / BLOCKSIZE < NFILEBLOCKS && 0 < block == Ptr(g, ino, c.offset / BLOCKSIZE) < |g.disk|
    requires d == c.mem[c.pos..c.pos + |d|] && x == Overlay(g.disk[block], skip, d)
    ensures var b := g.(disk := g.disk[block := x]);
            VolOk(b) && IoStep(a, b, ino, c, Advance(c, d)) && Ptr(b, ino, c.offset / BLOCKSIZE) != 0
  {
    hide VolOk, Files, Ptr, Wrote, Grew;
    var i, b := c.offset / BLOCKSIZE, g.(disk := g.disk[block := x]);
    assert c.offset == BLOCKSIZE * i + skip;
    StoreBytes(a, g, b, ino, i, skip, d);
    assert ino in a.inodes by { GrewHas(a, g, ino); }
  }

  lemma SoundVol(fs: Sfs)
    requires fs.Sound()
    ensures VolOk(fs.Vol())
  {
  }

  /** sfs_wblock on a data block. */
  method StoreBlock(fs: Sfs, b: int, x: Block)
    requires fs.Sound() && 0 <= b < |fs.disk| && b !in fs.inodes && !IsReserved(b, |fs.disk|)
    requires VolOk(fs.Vol().(disk := fs.disk[b := x]))
    modifies fs`disk, fs`owner
    ensures fs.Sound() && fs.Vol() == old(fs.Vol().(disk := fs.disk[b := x]))
  {
    hide VolOk, Coherent, TableOk, MapStored, Bits, IsSuper;
    WriteBlock(fs, b, x, fs.owner);
  }

  /** All of the part is moved, or nothing. */
  method PartialIo(fs: Sfs, p: int, uio: Uio, skip: int, len: int) returns (err: Errno)
    requires fs.Sound() && p in fs.tab.heap && CursorOk(uio.c)
    requires 0 <= skip == uio.c.offset % BLOCKSIZE && 0 <= len <= uio.c.resid && skip + len <= BLOCKSIZE
    modifies fs, fs.freemap, uio
    ensures fs.Sound() && fs.refs == old(fs.refs) && OnlyInode(old(fs.tab), fs.tab, p)
    ensures uio.c.rw.Read? ==> fs.tab == old(fs.tab)
    ensures IoStep(old(fs.Vol()), fs.Vol(), fs.tab.heap[p].ino, old(uio.c), uio.c)
    ensures StopReason(old(fs.Vol()), fs.tab.heap[p].ino, uio.c, err) && (err == ENOSPC ==> Full(fs.Vol()))
    ensures err == ENOSPC && uio.c.pos == old(uio.c).pos ==> Scarce(old(fs.Vol()), 1)
    ensures uio.c.pos == old(uio.c).pos + if err == OK then len else 0
    ensures err == OK && uio.c.rw.Write? ==> Ptr(fs.Vol(), fs.tab.heap[p].ino, old(uio.c).offset / BLOCKSIZE) != 0
  {
    hide VolOk, Sfs.Sound, IoStep, Grew, Ptr, Overlay;
    LoadedInode(fs, p);
    ghost var a, ino, c := fs.Vol(), fs.tab.heap[p].ino, uio.c;
    var fileblock, diskblock := uio.c.offset / BLOCKSIZE, 0;
    err, diskblock := Bmap(fs, p, fileblock, uio.c.rw.Write?);
    ghost var g := fs.Vol();
    SoundVol(fs);
    if err != OK {
      IoStepNone(a, g, ino, c);
      return;
    }
    var iobuf := ZeroBlock();
    if diskblock != 0 {
      DataApart(g, ino, fileblock);
      iobuf := fs.disk[diskblock];
    }
    var fault, out := uio.Move(iobuf[skip..skip + len]);
    if fault {
      IoStepNone(a, g, ino, c);
      return EFAULT;
    }
    if uio.c.rw.Write? {
      iobuf := Overlay(iobuf, skip, out);
      WritePart(a, g, ino, c, skip, diskblock, iobuf, out);
      StoreBlock(fs, diskblock, iobuf);
    } else {
      ReadPart(a, ino, c, skip, len, iobuf);
    }
  }

  // ---- sfs_blockio ----

  /** One sector went between block b and the caller, or, if the caller's memory was not
      accessible, nothing did. */
  ghost predicate SectorMoved(v: Vol, w: Vol, b: int, c: Cursor, c': Cursor, err: Errno) {
    && 0 < b < |v.disk| && CursorOk(c) && CursorOk(c') && c.resid == BLOCKSIZE
    && err == (if c.pos + BLOCKSIZE > c.limit then EFAULT else OK)
    && var d := if c.rw.Read? then v.disk[b] else c.mem[c.pos..c.pos + BLOCKSIZE];
    if err != OK then c' == c && w == v
    else c' == Advance(c, d) && w == if c.rw.Read? then v else v.(disk := v.disk[b := d])
  }

  lemma WriteDataOk(v: Vol, ino: int, i: int, x: Block)
    requires VolOk(v) && 0 < Ptr(v, ino, i) < |v.disk|
    ensures VolOk(v.(disk := v.disk[Ptr(v, ino, i) := x]))
  {
    hide VolOk;
    WriteData(v, ino, i, x);
  }

  /** sfs_rwblock with a cursor aimed at data block b: one sector between the disk and the caller. */
  method RwBlock(fs: Sfs, uio: Uio, b: int, ghost ino: int, ghost i: int) returns (err: Errno)
    requires fs.Sound() && Ptr(fs.Vol(), ino, i) == b != 0
    requires CursorOk(uio.c) && uio.c.offset == BLOCKSIZE * b && uio.c.resid == BLOCKSIZE
    modifies fs`disk, fs`owner, uio
    ensures fs.Sound() && SectorMoved(old(fs.Vol()), fs.Vol(), b, old(uio.c), uio.c, err)
  {
    hide Sfs.Sound, VolOk, Ptr, Overlay;
    SoundVol(fs);
    DataApart(fs.Vol(), ino, i);
    var sector := uio.c.offset / BLOCKSIZE;
    assert sector == b && uio.c.offset % BLOCKSIZE == 0;
    var fault, out := uio.Move(fs.disk[sector]);
    if fault {
      return EFAULT;
    }
    err := OK;
    if uio.c.rw.Write? {
      WriteDataOk(fs.Vol(), ino, i, out);
      StoreBlock(fs, sector, out);
    }
  }

  lemma ReadZeros(a: Vol, ino: int, c: Cursor, m: int)
    requires VolOk(a) && ino in a.inodes && CursorOk(c) && c.rw.Read?
    requires c.offset % BLOCKSIZE == 0 && 0 <= m <= BLOCKSIZE <= c.resid && c.offset / BLOCKSIZE < NFILEBLOCKS
    requires Ptr(a, ino, c.offset / BLOCKSIZE) == 0
    ensures CursorOk(Advance(c, Zeros(m))) && IoStep(a, a, ino, c, Advance(c, Zeros(m)))
  {
    hide VolOk, Overlay;
    MappedBytes(a, ino, c.offset / BLOCKSIZE);
    ReadPart(a, ino, c, 0, m, ZeroBlock());
    assert ZeroBlock()[0..m] == Zeros(m);
  }

  /** What the direct transfer of a whole block amounts to. */
  lemma BlockMoved(a: Vol, g: Vol, ino: int, c: Cursor, block: int, fault: bool)
    requires VolOk(g) && CursorOk(c) && ino in a.inodes && (if c.rw.Write? then Grew(a, g, ino) else g == a)
    requires c.offset % BLOCKSIZE == 0 && c.resid >= BLOCKSIZE && c.offset / BLOCKSIZE < NFILEBLOCKS
    requires 0 < block == Ptr(g, ino, c.offset / BLOCKSIZE) < |g.disk|
    ensures fault ==> IoStep(a, g, ino, c, c)
    ensures !fault && c.rw.Read? ==>
      CursorOk(Advance(c, g.disk[block])) && IoStep(a, a, ino, c, Advance(c, g.disk[block]))
    ensures !fault && c.rw.Write? ==>
      var d := c.mem[c.pos..c.pos + BLOCKSIZE];
      var b := g.(disk := g.disk[block := d]);
      IoStep(a, b, ino, c, Advance(c, d)) && Ptr(b, ino, c.offset / BLOCKSIZE) != 0
  {
    hide VolOk, IoStep, Grew, Ptr;
    if fault {
      IoStepNone(a, g, ino, c);
    } else if c.rw.Read? {
      ReadPart(a, ino, c, 0, BLOCKSIZE, g.disk[block]);
      assert g.disk[block][0..BLOCKSIZE] == g.disk[block];
    } else {
      var d := c.mem[c.pos..c.pos + BLOCKSIZE];
      assert Overlay(g.disk[block], 0, d) == d;
      WritePart(a, g, ino, c, 0, block, d, d);
    }
  }

  /** The transfer between disk and caller, with the cursor aimed at the disk meanwhile. */
  method DirectIo(fs: Sfs, uio: Uio, diskblock: int, ghost ino: int, ghost i: int, ghost a: Vol) returns (err: Errno)
    requires fs.Sound() && CursorOk(uio.c) && uio.c.offset == BLOCKSIZE * i && uio.c.resid >= BLOCKSIZE
    requires Ptr(fs.Vol(), ino, i) == diskblock != 0
    requires ino in a.inodes && (if uio.c.rw.Write? then Grew(a, fs.Vol(), ino) else fs.Vol() == a)
    modifies fs`disk, fs`owner, uio
    ensures fs.Sound() && IoStep(a, fs.Vol(), ino, old(uio.c), uio.c)
    ensures err == OK || (err == EFAULT && uio.c.limit < |uio.c.mem| && uio.c == old(uio.c))
    ensures err == OK ==> uio.c.pos == old(uio.c).pos + BLOCKSIZE
    ensures err == OK && uio.c.rw.Write? ==> Ptr(fs.Vol(), ino, i) != 0
  {
    hide VolOk, Sfs.Sound, IoStep, Grew, Ptr, Overlay;
    SoundVol(fs);
    ghost var g, c := fs.Vol(), uio.c;
    DataApart(g, ino, i);
    var saveoff, saveres, diskoff := uio.c.offset, uio.c.resid, diskblock * BLOCKSIZE;
    uio.c := uio.c.(offset := diskoff, resid := BLOCKSIZE);
    err := RwBlock(fs, uio, diskblock, ino, i);
    uio.c := uio.c.(offset := uio.c.offset - diskoff + saveoff, resid := uio.c.resid - BLOCKSIZE + saveres);
    BlockMoved(a, g, ino, c, diskblock, err != OK);
  }

  lemma StepFacts(a: Vol, b: Vol, ino: int, c: Cursor, c': Cursor)
    requires IoStep(a, b, ino, c, c')
    ensures c'.rw == c.rw && CursorOk(c') && c'.offset - c.offset == c'.pos - c.pos == c.resid - c'.resid >= 0
    ensures c.rw.Read? ==> b == a
  {
    hide Files, Wrote, Overlay;
  }

  /** A whole block is moved; a write that fails moves nothing. */
  method BlockIo(fs: Sfs, p: int, uio: Uio) returns (err: Errno)
    requires fs.Sound() && p in fs.tab.heap && CursorOk(uio.c)
    requires uio.c.offset % BLOCKSIZE == 0 && uio.c.resid >= BLOCKSIZE
    modifies fs, fs.freemap, uio
    ensures fs.Sound() && fs.refs == old(fs.refs) && OnlyInode(old(fs.tab), fs.tab, p)
    ensures uio.c.rw.Read? ==> fs.tab == old(fs.tab)
    ensures IoStep(old(fs.Vol()), fs.Vol(), fs.tab.heap[p].ino, old(uio.c), uio.c)
    ensures err != OK && uio.c.rw.Write? ==> uio.c == old(uio.c)
    ensures StopReason(old(fs.Vol()), fs.tab.heap[p].ino, uio.c, err) && (err == ENOSPC ==> Full(fs.Vol()))
    ensures err == ENOSPC && uio.c.pos == old(uio.c).pos ==> Scarce(old(fs.Vol()), 1)
    ensures uio.c.pos <= old(uio.c).pos + BLOCKSIZE && (err == OK <==> uio.c.pos == old(uio.c).pos + BLOCKSIZE)
    ensures err == OK && uio.c.rw.Write? ==> Ptr(fs.Vol(), fs.tab.heap[p].ino, old(uio.c).offset / BLOCKSIZE) != 0
  {
    hide VolOk, Sfs.Sound, IoStep, Grew, Ptr, Overlay;
    LoadedInode(fs, p);
    ghost var a, ino, c := fs.Vol(), fs.tab.heap[p].ino, uio.c;
    var fileblock, diskblock := uio.c.offset / BLOCKSIZE, 0;
    err, diskblock := Bmap(fs, p, fileblock, uio.c.rw.Write?);
    ghost var g := fs.Vol();
    SoundVol(fs);
    if err != OK {
      IoStepNone(a, g, ino, c);
      return;
    }
    if diskblock == 0 {
      var fault; ghost var m;
      fault, m := uio.MoveZeros(BLOCKSIZE);
      ReadZeros(a, ino, c, m);
      return if fault then EFAULT else OK;
    }
    err := DirectIo(fs, uio, diskblock, ino, fileblock, a);
    StepFacts(a, fs.Vol(), ino, c, uio.c);
  }

  // ---- sfs_io ----

  /** Every block with a byte in lo..hi is mapped. */
  ghost predicate Mapped(v: Vol, ino: int, lo: int, hi: int) {
    forall i :: lo < hi && lo < BLOCKSIZE * i + BLOCKSIZE && BLOCKSIZE * i < hi ==> Ptr(v, ino, i) != 0
  }

  lemma MappedMore(a: Vol, b: Vol, ino: int, c: Cursor, c': Cursor, c'': Cursor)
    requires Mapped(a, ino, c.offset, c'.offset) && IoStep(a, b, ino, c', c'')
    requires c.rw.Write? && c'.rw.Write? &&
      c.offset <= c'.offset <= c''.offset <= BLOCKSIZE * (c'.offset / BLOCKSIZE) + BLOCKSIZE
    requires c'.offset < c''.offset ==> Ptr(b, ino, c'.offset / BLOCKSIZE) != 0
    ensures Mapped(b, ino, c.offset, c''.offset)
  {
    hide Files, Ptr, PtrMap;
    forall i | c.offset < c''.offset && c.offset < BLOCKSIZE * i + BLOCKSIZE && BLOCKSIZE * i < c''.offset
      ensures Ptr(b, ino, i) != 0
    {
      if c.offset < c'.offset && BLOCKSIZE * i < c'.offset {
        assert Ptr(a, ino, i) != 0;
      } else {
        assert i == c'.offset / BLOCKSIZE;
      }
    }
  }

  lemma StopReasonBack(a: Vol, b: Vol, ino: int, c: Cursor, c': Cursor, c'': Cursor, err: Errno)
    requires IoStep(a, b, ino, c, c') && StopReason(b, ino, c'', err) && c''.rw == c.rw
    ensures StopReason(a, ino, c'', err)
  {
    hide Files, Ptr, PtrMap;
  }

  /** The invariant between the steps of one transfer. */
  ghost predicate Moving(a: Vol, b: Vol, ino: int, c: Cursor, c': Cursor) {
    IoStep(a, b, ino, c, c') && (c.rw.Write? ==> Mapped(b, ino, c.offset, c'.offset))
  }

  lemma MoveOn(a: Vol, b: Vol, v: Vol, ino: int, c: Cursor, c': Cursor, c'': Cursor, err: Errno)
    requires Moving(a, b, ino, c, c') && IoStep(b, v, ino, c', c'') && StopReason(b, ino, c'', err)
    requires c''.offset <= BLOCKSIZE * (c'.offset / BLOCKSIZE) + BLOCKSIZE
    requires c.rw.Write? && c'.offset < c''.offset ==> Ptr(v, ino, c'.offset / BLOCKSIZE) != 0
    ensures Moving(a, v, ino, c, c'') && StopReason(a, ino, c'', err)
  {
    hide Wrote, Ptr, Transfer, Mapped, StopReason, Overlay;
    IoStepTwice(a, b, v, ino, c, c', c'');
    StopReasonBack(a, b, ino, c, c', c'', err);
    if c.rw.Write? {
      MappedMore(b, v, ino, c, c', c'');
    }
  }

  lemma MoveStart(a: Vol, ino: int, c: Cursor)
    requires CursorOk(c) && ino in a.inodes
    ensures Moving(a, a, ino, c, c)
  {
    GrewSelf(a, ino);
    IoStepNone(a, a, ino, c);
  }

  method MoveLeading(fs: Sfs, p: int, uio: Uio) returns (err: Errno)
    requires fs.Sound() && p in fs.tab.heap && CursorOk(uio.c)
    modifies fs, fs.freemap, uio
    ensures fs.Sound() && fs.refs == old(fs.refs) && OnlyInode(old(fs.tab), fs.tab, p)
    ensures uio.c.rw.Read? ==> fs.tab == old(fs.tab)
    ensures CursorOk(uio.c) && uio.c.rw == old(uio.c).rw
    ensures Moving(old(fs.Vol()), fs.Vol(), fs.tab.heap[p].ino, old(uio.c), uio.c)
    ensures StopReason(old(fs.Vol()), fs.tab.heap[p].ino, uio.c, err) && (err == ENOSPC ==> Full(fs.Vol()))
    ensures err == ENOSPC && uio.c.pos == old(uio.c).pos ==> Scarce(old(fs.Vol()), 1)
    ensures err == OK ==> uio.c.resid == 0 || uio.c.offset % BLOCKSIZE == 0
    ensures err != OK ==> uio.c.pos == old(uio.c).pos
    ensures err == OK && uio.c.pos == old(uio.c).pos && old(uio.c).resid > 0 ==> fs.Vol() == old(fs.Vol())
  {
    hide Sfs.Sound, IoStep, Ptr, Mapped;
    LoadedInode(fs, p);
    ghost var a, ino, c := fs.Vol(), fs.tab.heap[p].ino, uio.c;
    MoveStart(a, ino, c);
    err := OK;
    var blkoff := uio.c.offset % BLOCKSIZE;
    if blkoff != 0 {
      var len := BLOCKSIZE - blkoff;
      if len > uio.c.resid {
        len := uio.c.resid;
      }
      err := PartialIo(fs, p, uio, blkoff, len);
      StepFacts(a, fs.Vol(), ino, c, uio.c);
      hide StopReason;
      MoveOn(a, a, fs.Vol(), ino, c, c, uio.c, err);
    }
  }

  /** The leading part block, the whole blocks, the trailing part block.  A write that stops
      early stops at a block boundary. */
  method MoveAll(fs: Sfs, p: int, uio: Uio) returns (err: Errno)
    requires fs.Sound() && p in fs.tab.heap && CursorOk(uio.c)
    modifies fs, fs.freemap, uio
    ensures fs.Sound() && fs.refs == old(fs.refs) && OnlyInode(old(fs.tab), fs.tab, p)
    ensures uio.c.rw.Read? ==> fs.tab == old(fs.tab)
    ensures Moving(old(fs.Vol()), fs.Vol(), fs.tab.heap[p].ino, old(uio.c), uio.c)
    ensures StopReason(old(fs.Vol()), fs.tab.heap[p].ino, uio.c, err) && (err == ENOSPC ==> Full(fs.Vol()))
    ensures err == ENOSPC && uio.c.pos == old(uio.c).pos ==> Scarce(old(fs.Vol()), 1)
    ensures err == OK ==> uio.c.resid == 0
    ensures err != OK && old(uio.c).resid > 0 ==> uio.c.resid > 0
    ensures err != OK && uio.c.rw.Write? && uio.c.pos > old(uio.c).pos ==> uio.c.offset % BLOCKSIZE == 0
  {
    hide Sfs.Sound, IoStep, Ptr, Mapped, StopReason;
    LoadedInode(fs, p);
    ghost var a, ino, c := fs.Vol(), fs.tab.heap[p].ino, uio.c;
    MoveStart(a, ino, c);
    err := MoveLeading(fs, p, uio);
    StepFacts(a, fs.Vol(), ino, c, uio.c);
    if err != OK || uio.c.resid == 0 {
      return;
    }
    var nblocks := uio.c.resid / BLOCKSIZE;
    var i := 0;
    ghost var tab := fs.tab;
    while i < nblocks
      invariant 0 <= i <= nblocks && uio.c.resid >= BLOCKSIZE * (nblocks - i) &&
        uio.c.resid < BLOCKSIZE * (nblocks - i) + BLOCKSIZE
      invariant fs.Sound() && fs.refs == old(fs.refs) && OnlyInode(old(fs.tab), fs.tab, p)
      invariant uio.c.rw.Read? ==> fs.tab == old(fs.tab)
      invariant uio.c.rw == c.rw && CursorOk(uio.c) && uio.c.offset % BLOCKSIZE == 0
      invariant Moving(a, fs.Vol(), ino, c, uio.c) && err == OK && StopReason(a, ino, uio.c, err)
      invariant uio.c.pos >= c.pos && (uio.c.pos == c.pos ==> fs.Vol() == a)
    {
      ghost var b, c' := fs.Vol(), uio.c;
      err := BlockIo(fs, p, uio);
      StepFacts(b, fs.Vol(), ino, c', uio.c);
      MoveOn(a, b, fs.Vol(), ino, c, c', uio.c, err);
      if err != OK {
        return;
      }
      i := i + 1;
    }
    if uio.c.resid > 0 {
      ghost var b, c' := fs.Vol(), uio.c;
      err := PartialIo(fs, p, uio, 0, uio.c.resid);
      StepFacts(b, fs.Vol(), ino, c', uio.c);
      MoveOn(a, b, fs.Vol(), ino, c, c', uio.c, err);
    }
  }

  function Max(x: int, y: int): int {
    if x < y then y else x
  }

  /** From volume a to b, the bytes d were written at offset off of file ino: the size is at least
      the end of what was written, and nothing else changed. */
  ghost predicate WroteFile(a: Vol, b: Vol, ino: int, off: int, d: seq<Byte>) {
    && |b.disk| == |a.disk| && ino in a.inodes && ino in b.inodes
    && b.inodes == a.inodes[ino := b.inodes[ino]] && PtrMap(b) == PtrMap(a)[ino := PtrMap(b)[ino]]
    && b.inodes[ino].size == Max(a.inodes[ino].size, off + |d|)
    && b.inodes[ino].kind == a.inodes[ino].kind && b.inodes[ino].links == a.inodes[ino].links
    && 0 <= off && (d == [] || off + |d| <= MAXBYTES)
    && Files(b) == Files(a)[ino := Overlay(Files(a)[ino], off, d)]
    && (forall i :: Ptr(a, ino, i) != 0 ==> Ptr(b, ino, i) == Ptr(a, ino, i))
    && Mapped(b, ino, off, off + |d|)
  }

  lemma WroteSize(a: Vol, b: Vol, v: Vol, ino: int, off: int, d: seq<Byte>)
    requires VolOk(b) && Wrote(a, b, ino, off, d) && Mapped(b, ino, off, off + |d|)
    requires IsU32(Max(a.inodes[ino].size, off + |d|))
    requires v == b.(inodes := b.inodes[ino := b.inodes[ino].(size := Max(a.inodes[ino].size, off + |d|))])
    ensures VolOk(v) && WroteFile(a, v, ino, off, d)
  {
    hide VolOk, Files, Ptr;
    InodeFacts(b, ino);
    SetMeta(b, v, ino, v.inodes[ino]);
    SamePtr(b, v, ino);
  }

  lemma WroteSameSize(a: Vol, b: Vol, ino: int, off: int, d: seq<Byte>)
    requires Wrote(a, b, ino, off, d) && Mapped(b, ino, off, off + |d|)
    requires off + |d| <= a.inodes[ino].size
    ensures WroteFile(a, b, ino, off, d)
  {
    hide Files, Ptr, PtrMap;
  }

  lemma StopOk(a: Vol, ino: int, c: Cursor)
    ensures StopReason(a, ino, c, OK)
  {
  }

  lemma StopSame(a: Vol, ino: int, c: Cursor, c': Cursor, err: Errno)
    requires StopReason(a, ino, c, err) && c' == c.(resid := c'.resid)
    ensures StopReason(a, ino, c', err)
  {
  }

  lemma WidenStep(a: Vol, ino: int, c: Cursor, c': Cursor, extra: int)
    requires CursorOk(c) && c.rw.Read? && 0 <= extra <= c.resid
    requires IoStep(a, a, ino, c.(resid := c.resid - extra), c')
    ensures CursorOk(c'.(resid := c'.resid + extra)) && IoStep(a, a, ino, c, c'.(resid := c'.resid + extra))
  {
    hide Files, Overlay;
  }

  /** The end of sfs_io for a write: the file reaches at least the cursor. */
  method Extend(fs: Sfs, p: int, uio: Uio, ghost a: Vol, ghost c: Cursor)
    requires fs.Sound() && p in fs.tab.heap && c.rw.Write? && c.offset + c.resid < 0x8000_0000
    requires Moving(a, fs.Vol(), fs.tab.heap[p].ino, c, uio.c)
    modifies fs`tab, fs`inodes, fs`owner
    ensures fs.Sound() && OnlyInode(old(fs.tab), fs.tab, p) && 0 <= c.pos <= uio.c.pos <= |c.mem|
    ensures var d := c.mem[c.pos..uio.c.pos];
            WroteFile(a, fs.Vol(), fs.tab.heap[p].ino, c.offset, d) && uio.c == Advance(c, d)
  {
    hide VolOk, Coherent, TableOk, MapStored, Bits, IsSuper, Mapped, Ptr, PtrMap, Files, WroteFile;
    ghost var b, ino, d := fs.Vol(), fs.tab.heap[p].ino, c.mem[c.pos..uio.c.pos];
    LoadedInode(fs, p);
    assert Transfer(a, ino, c, uio.c.pos - c.pos) == d;
    if uio.c.offset > fs.tab.heap[p].inode.size {
      ghost var inode := fs.tab.heap[p].inode.(size := uio.c.offset);
      WroteSize(a, b, b.(inodes := b.inodes[ino := inode]), ino, c.offset, d);
      PutInode(fs, p, fs.tab.heap[p].inode.(size := uio.c.offset), fs.owner);
    } else {
      WroteSameSize(a, b, ino, c.offset, d);
    }
  }

  /** A read delivers exactly the bytes from the offset to the end of the file and leaves the rest
      of the request in resid.  A write that stops after m bytes has written those m and nothing
      else; it extends the file to the place it reached, even when m is 0. */
  method Io(fs: Sfs, p: int, uio: Uio) returns (err: Errno)
    requires fs.Sound() && p in fs.tab.heap && CursorOk(uio.c)
    requires uio.c.offset + uio.c.resid < 0x8000_0000
    modifies fs, fs.freemap, uio
    ensures fs.Sound() && fs.refs == old(fs.refs) && OnlyInode(old(fs.tab), fs.tab, p)
    ensures CursorOk(uio.c) && 0 <= uio.c.pos - old(uio.c).pos <= old(uio.c).resid
    ensures old(uio.c).rw.Read? ==> fs.Vol() == old(fs.Vol()) && fs.tab == old(fs.tab)
    ensures uio.c.offset - old(uio.c).offset == uio.c.pos - old(uio.c).pos == old(uio.c).resid - uio.c.resid
    ensures old(uio.c).rw.Read? ==> IoStep(old(fs.Vol()), fs.Vol(), fs.tab.heap[p].ino, old(uio.c), uio.c)
    ensures old(uio.c).rw.Read? ==>
      var size := old(fs.tab.heap[p].inode).size;
      && (uio.c.pos > old(uio.c).pos ==> uio.c.offset <= size)
      && (err == OK ==> uio.c.resid == 0 || uio.c.offset >= size)
    ensures old(uio.c).rw.Write? ==>
      var d := old(uio.c).mem[old(uio.c).pos..uio.c.pos];
      uio.c == Advance(old(uio.c), d) && WroteFile(old(fs.Vol()), fs.Vol(), fs.tab.heap[p].ino, old(uio.c).offset, d)
    ensures old(uio.c).rw.Write? && err == OK ==> uio.c.resid == 0
    ensures old(uio.c).rw.Write? && err != OK && uio.c.pos > old(uio.c).pos ==> uio.c.offset % BLOCKSIZE == 0
    ensures StopReason(old(fs.Vol()), fs.tab.heap[p].ino, uio.c, err) && (err == ENOSPC ==> Full(fs.Vol()))
    ensures err == ENOSPC && uio.c.pos == old(uio.c).pos ==> Scarce(old(fs.Vol()), 1)
    ensures err != OK && old(uio.c).resid > 0 ==> uio.c.resid > 0
  {
    hide Sfs.Sound, VolOk, IoStep, Mapped, Ptr, StopReason, WroteFile, Scarce;
    LoadedInode(fs, p);
    ghost var a, ino, c := fs.Vol(), fs.tab.heap[p].ino, uio.c;
    MoveStart(a, ino, c);
    StopOk(a, ino, c);
    var size, extraresid := fs.tab.heap[p].inode.size, 0;
    if uio.c.rw.Read? {
      var endpos := uio.c.offset + uio.c.resid;
      if uio.c.offset >= size {
        return OK;
      }
      if endpos > size {
        extraresid := endpos - size;
        uio.c := uio.c.(resid := uio.c.resid - extraresid);
      }
    }
    err := MoveAll(fs, p, uio);
    StepFacts(a, fs.Vol(), ino, c.(resid := c.resid - extraresid), uio.c);
    if uio.c.rw.Write? {
      Extend(fs, p, uio, a, c);
    }
    ghost var c' := uio.c;
    uio.c := uio.c.(resid := uio.c.resid + extraresid);
    if uio.c.rw.Read? {
      WidenStep(a, ino, c, c', extraresid);
      StopSame(a, ino, c', uio.c, err);
    }
  }
}
