/** The in-memory state of a mounted SFS (struct sfs_fs) and block allocation. */
module SfsState {
  import opened Bytes
  import opened Bitmaps
  import opened SfsFormat
  import opened SfsOwnership
  import opened SfsVolume
  import opened VnodeTable

  datatype Errno = OK | ENOSPC | EINVAL | EFAULT | ENOENT | EEXIST | ENAMETOOLONG | ENOTDIR | EISDIR | EBUSY |
    EUNIMP | EXDEV | ENODEV | ENXIO

  // ---- what the disk holds ----

  ghost predicate Copy(c: Block, b: Block) {
    c == b
  }

  /** Block b holds inode i; unfolded only where Copy(b, b) is mentioned. */
  ghost predicate Stored(b: Block, i: Inode) {
    forall c {:trigger Copy(c, b)} :: Copy(c, b) ==> DecodeInode(c) == i
  }

  ghost predicate IsDirty(ino: int, t: Table, r: Refs) {
    ino in r.cache && r.cache[ino] in t.heap && t.heap[r.cache[ino]].dirty
  }

  /** The loaded inodes are the current ones, and an inode that is not loaded, or is loaded and
      clean, is current on disk. */
  ghost predicate Coherent(disk: seq<Block>, inodes: map<int, Inode>, t: Table, r: Refs) {
    && (forall p :: p in t.heap ==> t.heap[p].ino in inodes && inodes[t.heap[p].ino] == t.heap[p].inode)
    && (forall ino :: ino in inodes && !IsDirty(ino, t, r) ==> 0 <= ino < |disk| && Stored(disk[ino], inodes[ino]))
  }

  ghost function MapBlock(v: seq<Byte>, j: int): seq<Byte> {
    if 0 <= j && BLOCKSIZE * j + BLOCKSIZE <= |v| then v[BLOCKSIZE * j..BLOCKSIZE * j + BLOCKSIZE] else []
  }

  /** The bitmap's blocks hold the bitmap's bytes. */
  ghost predicate MapStored(disk: seq<Block>, v: seq<Byte>) {
    && MAP_LOCATION + BitBlocks(|disk|) <= |disk|
    && forall b :: MAP_LOCATION <= b < MAP_LOCATION + BitBlocks(|disk|) ==> disk[b] == MapBlock(v, b - MAP_LOCATION)
  }

  class Sfs {
    const freemap: Bitmap
    var disk: seq<Block>
    var freemapDirty: bool
    var tab: Table

    /** The current inode of every live file, loaded or not; the role of every used block. */
    ghost var inodes: map<int, Inode>
    ghost var owner: map<int, Role>
    ghost var refs: Refs

    constructor (dev: seq<Block>, freemap: Bitmap)
      ensures this.freemap == freemap && disk == dev && !freemapDirty && tab == Table(map[], [])
      ensures inodes == map[] && owner == map[] && refs == Refs(map[], multiset{}, multiset{})
    {
      this.freemap, disk, freemapDirty, tab := freemap, dev, false, Table(map[], []);
      inodes, owner, refs := map[], map[], Refs(map[], multiset{}, multiset{});
    }

    ghost function Vol(): Vol
      reads this, freemap
    {
      SfsVolume.Vol(disk, Bits(freemap.v), inodes, owner)
    }

    ghost predicate MapOk()
      reads this, freemap
    {
      && |disk| > 0 && IsSuper(disk[SUPER_LOCATION], |disk|)
      && freemap.Valid() && freemap.nbits == BitmapSize(|disk|) == 8 * |freemap.v|
      && (!freemapDirty ==> MapStored(disk, freemap.v))
    }

    ghost predicate Sound()
      reads this, freemap
    {
      && MapOk() && VolOk(Vol())
      && TableOk(tab, refs) && Coherent(disk, inodes, tab, refs)
    }
  }

  lemma InodeFacts(v: Vol, ino: int)
    requires VolOk(v) && ino in v.inodes
    ensures InodeOk(v.inodes[ino], |v.disk|)
    ensures 0 < ino < |v.disk| <= |v.bits| && v.bits[ino]
    ensures ino in v.owner && v.owner[ino] == InodeBlock(ino)
  {
    assert Is(v, v);
    assert ino in IndMap(v);
  }

  /** Writing a block that is no live inode's disturbs nothing. */
  lemma CoherentWrite(disk: seq<Block>, inodes: map<int, Inode>, t: Table, r: Refs, b: int, x: Block)
    requires Coherent(disk, inodes, t, r) && 0 <= b < |disk| && b !in inodes
    ensures Coherent(disk[b := x], inodes, t, r)
  {
  }

  lemma MapStoredWrite(disk: seq<Block>, v: seq<Byte>, b: int, x: Block)
    requires MapStored(disk, v) && 0 <= b < |disk| && !IsReserved(b, |disk|)
    ensures MapStored(disk[b := x], v)
  {
    hide BitBlocks, MapBlock;
    var d := disk[b := x];
    forall c | MAP_LOCATION <= c < MAP_LOCATION + BitBlocks(|disk|)
      ensures d[c] == MapBlock(v, c - MAP_LOCATION)
    {
      assert disk[c] == MapBlock(v, c - MAP_LOCATION);
    }
  }

  /** Every block of the device is marked in use. */
  ghost predicate Full(v: Vol) {
    forall b :: 0 <= b < |v.disk| && b < |v.bits| ==> v.bits[b]
  }

  ghost function FreeSet(v: Vol): set<int> {
    set b | 0 <= b < |v.disk| && b < |v.bits| && !v.bits[b]
  }

  /** At most n blocks are free. */
  ghost predicate Scarce(v: Vol, n: int) {
    |FreeSet(v)| <= n
  }

  /** From volume a to b at most block c was taken. */
  ghost predicate OneTaken(a: Vol, b: Vol, c: int) {
    |b.disk| == |a.disk| && |b.bits| == |a.bits| && forall x :: 0 <= x < |a.bits| && b.bits[x] ==> a.bits[x] || x == c
  }

  lemma FullScarce(v: Vol)
    requires Full(v)
    ensures Scarce(v, 0)
  {
    assert FreeSet(v) == {};
  }

  lemma TakenScarce(a: Vol, b: Vol, c: int, n: int)
    requires OneTaken(a, b, c) && Scarce(b, n)
    ensures Scarce(a, n + 1)
  {
    var s, t := FreeSet(a), FreeSet(b) + {c};
    assert t == s + (t - s);
  }

  /** v' is v with its lowest free block b marked and cleared, and not yet linked anywhere. */
  ghost predicate Claimed(v: Vol, v': Vol, b: int) {
    && 0 <= b < |v.disk| <= |v.bits| && !v.bits[b]
    && v' == v.(disk := v.disk[b := ZeroBlock()], bits := v.bits[b := true])
    && (forall c :: 0 <= c < b ==> v.bits[c])
    && VolOk(v.(disk := v'.disk)) && PtrMap(v.(disk := v'.disk)) == PtrMap(v)
    && Files(v.(disk := v'.disk)) == Files(v)
  }

  lemma FreeBlock(v: Vol, b: int)
    requires VolOk(v) && 0 <= b < |v.bits| && !v.bits[b]
    ensures b < |v.disk| && b !in v.owner && b !in v.inodes
    ensures !IsReserved(b, |v.disk|)
  {
    assert Is(v, v);
    assert v.inodes.Keys == IndMap(v).Keys;
  }

  lemma ClaimBlock(v: Vol, b: int)
    requires VolOk(v) && 0 <= b < |v.disk| && b !in v.owner
    ensures VolOk(v.(disk := v.disk[b := ZeroBlock()]))
    ensures PtrMap(v.(disk := v.disk[b := ZeroBlock()])) == PtrMap(v)
    ensures Files(v.(disk := v.disk[b := ZeroBlock()])) == Files(v)
  {
    WriteElsewhere(v, b, ZeroBlock());
  }

  /** sfs_balloc: the lowest free block, marked and cleared. */
  method Balloc(fs: Sfs) returns (r: Found)
    requires fs.Sound()
    modifies fs`disk, fs`freemapDirty, fs.freemap
    ensures fs.MapOk() && Coherent(fs.disk, fs.inodes, fs.tab, fs.refs)
    ensures r.NoSpace? ==> fs.Vol() == old(fs.Vol()) && Full(fs.Vol())
    ensures r.Found? ==> Claimed(old(fs.Vol()), fs.Vol(), r.index) && fs.freemapDirty
  {
    hide VolOk, Coherent, TableOk, MapStored, Bits, IsSuper;
    ghost var v := fs.Vol();
    r := fs.freemap.Alloc();
    if r.NoSpace? {
      return;
    }
    fs.freemapDirty := true;
    FreeBlock(v, r.index);
    ClaimBlock(v, r.index);
    CoherentWrite(fs.disk, fs.inodes, fs.tab, fs.refs, r.index, ZeroBlock());
    fs.disk := fs.disk[r.index := ZeroBlock()];
  }
}
