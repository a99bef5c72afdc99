/** A volume as one value: disk blocks, free bits, current inodes and block roles.
    Each lemma below is one elementary update of a volume; it keeps the volume consistent
    and says what the update does to the bytes of every file. */
module SfsVolume {
  import opened Bytes
  import opened SfsFormat
  import opened SfsOwnership

  datatype Vol = Vol(disk: seq<Block>, bits: seq<bool>, inodes: map<int, Inode>, owner: map<int, Role>)

  // ---- block pointers and bytes of one file ----

  ghost predicate InodeOk(i: Inode, n: nat) {
    && InodeFits(i)
    && (forall j :: 0 <= j < NDIRECT ==> i.direct[j] < n)
    && i.indirect < n
  }

  /** The block numbers of file blocks 0..142; 0 is a hole. */
  ghost function Ptrs(i: Inode, disk: seq<Block>): (p: seq<int>)
    ensures |p| == |i.direct| + DBPERIDB
  {
    i.direct + (if 0 < i.indirect < |disk| then DecodeIndirect(disk[i.indirect]) else seq(DBPERIDB, _ => 0))
  }

  ghost predicate PtrsIn(p: seq<int>, n: nat) {
    |p| == NFILEBLOCKS && forall i :: 0 <= i < NFILEBLOCKS ==> 0 <= p[i] < n
  }

  ghost function ByteAt(p: seq<int>, disk: seq<Block>, k: int): Byte
    requires 0 <= k < MAXBYTES
  {
    var i := k / BLOCKSIZE;
    if i < |p| && 0 < p[i] < |disk| then disk[p[i]][k % BLOCKSIZE] else 0
  }

  /** All the bytes a file can have, holes read as zeros and the file size ignored. */
  ghost function Raw(p: seq<int>, disk: seq<Block>): (r: seq<Byte>)
    ensures |r| == MAXBYTES
  {
    seq(MAXBYTES, k requires 0 <= k < MAXBYTES => ByteAt(p, disk, k))
  }

  ghost predicate AllIn(ptrs: map<int, seq<int>>, n: nat) {
    forall ino :: ino in ptrs ==> PtrsIn(ptrs[ino], n)
  }

  ghost function RawMap(ptrs: map<int, seq<int>>, disk: seq<Block>): (m: map<int, seq<Byte>>)
    ensures m.Keys == ptrs.Keys
    ensures forall ino :: ino in m ==> |m[ino]| == MAXBYTES
  {
    map ino | ino in ptrs :: Raw(ptrs[ino], disk)
  }

  // ---- whole volumes ----

  ghost predicate Shaped(v: Vol) {
    && 3 <= |v.disk| <= MAXBITBLOCKS * BLOCKBITS
    && |v.bits| == BitmapSize(|v.disk|) && |v.disk| <= |v.bits|
    && forall ino :: ino in v.inodes ==> InodeOk(v.inodes[ino], |v.disk|)
  }

  ghost function PtrMap(v: Vol): (m: map<int, seq<int>>)
    ensures m.Keys == v.inodes.Keys
  {
    map ino | ino in v.inodes :: Ptrs(v.inodes[ino], v.disk)
  }

  ghost function IndMap(v: Vol): (m: map<int, int>)
    ensures m.Keys == v.inodes.Keys
  {
    map ino | ino in v.inodes :: v.inodes[ino].indirect
  }

  /** The bytes of every live file. */
  ghost function Files(v: Vol): (m: map<int, seq<Byte>>)
    ensures m.Keys == v.inodes.Keys
    ensures forall ino :: ino in m ==> |m[ino]| == MAXBYTES
  {
    RawMap(PtrMap(v), v.disk)
  }

  /** Where byte k of a file is on disk: in the block named by the inode for the first 15 blocks, by
      the words of the indirect block for the rest; without a block it is zero. */
  lemma ByteOnDisk(v: Vol, ino: int, k: int)
    requires ino in v.inodes && |v.inodes[ino].direct| == NDIRECT && 0 <= k < MAXBYTES
    ensures var n, i := v.inodes[ino], k / 512;
            var b := if i < 15 then n.direct[i]
                     else if 0 < n.indirect < |v.disk| then WordAt(v.disk[n.indirect], 4 * (i - 15)) else 0;
            Files(v)[ino][k] == if 0 < b < |v.disk| then v.disk[b][k % 512] else 0
  {
  }

  /** The disk block behind file block i, 0 for a hole. */
  ghost function Ptr(v: Vol, ino: int, i: int): int {
    if ino in v.inodes && 0 <= i < |PtrMap(v)[ino]| then PtrMap(v)[ino][i] else 0
  }

  lemma SamePtr(a: Vol, b: Vol, ino: int)
    requires PtrMap(b) == PtrMap(a) && b.inodes.Keys == a.inodes.Keys
    ensures forall i :: Ptr(b, ino, i) == Ptr(a, ino, i)
  {
  }

  ghost predicate Consistent(v: Vol) {
    && Shaped(v) && AllIn(PtrMap(v), |v.disk|)
    && ROOT_LOCATION in v.inodes
    && OwnOk(|v.disk|, v.bits, PtrMap(v), IndMap(v), v.owner)
  }

  ghost predicate Is(w: Vol, v: Vol) {
    w == v
  }

  /** Consistent(v), unfolded by the verifier only where Is(v, v) is mentioned. */
  ghost predicate VolOk(v: Vol) {
    |v.disk| <= |v.bits| && forall w {:trigger Is(w, v)} :: Is(w, v) ==> Consistent(w)
  }

  // ---- writing blocks ----

  /** r with file block i replaced by x */
  ghost function PutBlock(r: seq<Byte>, i: int, x: Block): (r': seq<Byte>)
    requires |r| == MAXBYTES && 0 <= i < NFILEBLOCKS
    ensures |r'| == MAXBYTES
  {
    r[..BLOCKSIZE * i] + x + r[BLOCKSIZE * i + BLOCKSIZE..]
  }

  lemma RawSameBlocks(p: seq<int>, disk: seq<Block>, disk': seq<Block>)
    requires |disk| == |disk'| && PtrsIn(p, |disk|)
    requires forall i :: 0 <= i < NFILEBLOCKS && p[i] != 0 ==> disk[p[i]] == disk'[p[i]]
    ensures Raw(p, disk') == Raw(p, disk)
  {
  }

  /** No pointer leads to a block without a data role. */
  lemma NotPointedTo(v: Vol, b: int)
    requires VolOk(v) && Shaped(v) && b != 0
    requires b in v.owner ==> !v.owner[b].DataBlock?
    ensures forall ino, i :: ino in v.inodes && 0 <= i < NFILEBLOCKS ==> PtrMap(v)[ino][i] != b
  {
    assert Is(v, v);
    forall ino, i | ino in v.inodes && 0 <= i < NFILEBLOCKS
      ensures PtrMap(v)[ino][i] != b
    {
    }
  }

  lemma SameFiles(ptrs: map<int, seq<int>>, disk: seq<Block>, b: int, x: Block)
    requires AllIn(ptrs, |disk|) && 0 <= b < |disk|
    requires b == 0 || forall ino, i :: ino in ptrs && 0 <= i < NFILEBLOCKS ==> ptrs[ino][i] != b
    ensures RawMap(ptrs, disk[b := x]) == RawMap(ptrs, disk)
  {
    forall ino | ino in ptrs
      ensures Raw(ptrs[ino], disk[b := x]) == Raw(ptrs[ino], disk)
    {
      RawSameBlocks(ptrs[ino], disk, disk[b := x]);
    }
  }

  lemma NotIndirect(v: Vol, b: int)
    requires VolOk(v)
    requires b in v.owner ==> !v.owner[b].IndirectBlock?
    ensures forall ino :: ino in v.inodes && v.inodes[ino].indirect != 0 ==> v.inodes[ino].indirect != b
  {
    assert Is(v, v);
    forall ino | ino in v.inodes && v.inodes[ino].indirect != 0
      ensures v.inodes[ino].indirect != b
    {
      assert IndMap(v)[ino] == v.inodes[ino].indirect;
    }
  }

  lemma PtrsElsewhere(v: Vol, b: int, x: Block)
    requires Shaped(v) && 0 <= b < |v.disk|
    requires forall ino :: ino in v.inodes && v.inodes[ino].indirect != 0 ==> v.inodes[ino].indirect != b
    ensures PtrMap(v.(disk := v.disk[b := x])) == PtrMap(v)
  {
    var v' := v.(disk := v.disk[b := x]);
    forall ino | ino in v.inodes
      ensures PtrMap(v')[ino] == PtrMap(v)[ino]
    {
    }
  }

  lemma SamePtrs(v: Vol, b: int, x: Block)
    requires VolOk(v) && 0 <= b < |v.disk|
    requires b in v.owner ==> !v.owner[b].IndirectBlock?
    ensures PtrMap(v.(disk := v.disk[b := x])) == PtrMap(v)
  {
    assert Is(v, v);
    NotIndirect(v, b);
    PtrsElsewhere(v, b, x);
  }

  /** A block that is neither a data block nor an indirect block holds no file byte. */
  lemma WriteElsewhere(v: Vol, b: int, x: Block)
    requires VolOk(v) && 0 <= b < |v.disk|
    requires b in v.owner ==> v.owner[b].Reserved? || v.owner[b].InodeBlock?
    ensures var v' := v.(disk := v.disk[b := x]);
            VolOk(v') && PtrMap(v') == PtrMap(v) && Files(v') == Files(v)
  {
    hide OwnOk;
    assert Is(v, v);
    var v' := v.(disk := v.disk[b := x]);
    SamePtrs(v, b, x);
    assert IndMap(v') == IndMap(v);
    if b != 0 {
      NotPointedTo(v, b);
    }
    SameFiles(PtrMap(v), v.disk, b, x);
  }

  lemma RawPutBlock(p: seq<int>, disk: seq<Block>, i: int, x: Block)
    requires PtrsIn(p, |disk|) && 0 <= i < NFILEBLOCKS && p[i] != 0
    requires forall j :: 0 <= j < NFILEBLOCKS && j != i ==> p[j] != p[i]
    ensures Raw(p, disk[p[i] := x]) == PutBlock(Raw(p, disk), i, x)
  {
    var r, r' := Raw(p, disk), Raw(p, disk[p[i] := x]);
    forall k | 0 <= k < MAXBYTES
      ensures r'[k] == PutBlock(r, i, x)[k]
    {
      if k / BLOCKSIZE == i {
        assert k == BLOCKSIZE * i + k % BLOCKSIZE;
      }
    }
  }

  lemma OnlyPointer(v: Vol, ino: int, i: int)
    requires VolOk(v) && Shaped(v) && Ptr(v, ino, i) != 0
    ensures forall ino', j :: ino' in v.inodes && 0 <= j < NFILEBLOCKS && (ino' != ino || j != i) ==>
              PtrMap(v)[ino'][j] != PtrMap(v)[ino][i]
  {
    assert Is(v, v);
    forall ino', j | ino' in v.inodes && 0 <= j < NFILEBLOCKS && (ino' != ino || j != i)
      ensures PtrMap(v)[ino'][j] != PtrMap(v)[ino][i]
    {
    }
  }

  lemma WriteDataFiles(ptrs: map<int, seq<int>>, disk: seq<Block>, ino: int, i: int, x: Block)
    requires AllIn(ptrs, |disk|) && ino in ptrs && 0 <= i < NFILEBLOCKS
    requires ptrs[ino][i] != 0
    requires forall ino', j :: ino' in ptrs && 0 <= j < NFILEBLOCKS && (ino' != ino || j != i) ==>
              ptrs[ino'][j] != ptrs[ino][i]
    ensures var fs := RawMap(ptrs, disk);
            RawMap(ptrs, disk[ptrs[ino][i] := x]) == fs[ino := PutBlock(fs[ino], i, x)]
  {
    var b := ptrs[ino][i];
    RawPutBlock(ptrs[ino], disk, i, x);
    forall ino' | ino' in ptrs && ino' != ino
      ensures Raw(ptrs[ino'], disk[b := x]) == Raw(ptrs[ino'], disk)
    {
      RawSameBlocks(ptrs[ino'], disk, disk[b := x]);
    }
  }

  /** Overwriting a data block changes that block of that file and nothing else. */
  lemma WriteData(v: Vol, ino: int, i: int, x: Block)
    requires VolOk(v) && Ptr(v, ino, i) != 0
    ensures 0 <= i < NFILEBLOCKS && 0 <= Ptr(v, ino, i) < |v.disk|
    ensures var v' := v.(disk := v.disk[Ptr(v, ino, i) := x]);
            && VolOk(v') && PtrMap(v') == PtrMap(v)
            && Files(v') == Files(v)[ino := PutBlock(Files(v)[ino], i, x)]
  {
    assert Is(v, v);
    var b := PtrMap(v)[ino][i];
    var v' := v.(disk := v.disk[b := x]);
    assert v.owner[b] == DataBlock(ino, i);
    SamePtrs(v, b, x);
    assert IndMap(v') == IndMap(v);
    OnlyPointer(v, ino, i);
    WriteDataFiles(PtrMap(v), v.disk, ino, i, x);
  }

  // ---- linking and unlinking blocks ----

  ghost function BlockOf(b: int, disk: seq<Block>): Block
    requires 0 <= b < |disk|
  {
    if b == 0 then ZeroBlock() else disk[b]
  }

  lemma RawSetPtr(p: seq<int>, disk: seq<Block>, i: int, b: int)
    requires PtrsIn(p, |disk|) && 0 <= i < NFILEBLOCKS && 0 <= b < |disk|
    ensures PtrsIn(p[i := b], |disk|)
    ensures Raw(p[i := b], disk) == PutBlock(Raw(p, disk), i, BlockOf(b, disk))
  {
    var r, r' := Raw(p, disk), Raw(p[i := b], disk);
    forall k | 0 <= k < MAXBYTES
      ensures r'[k] == PutBlock(r, i, BlockOf(b, disk))[k]
    {
      if k / BLOCKSIZE == i {
        assert k == BLOCKSIZE * i + k % BLOCKSIZE;
      }
    }
  }

  lemma FilesSetPtr(ptrs: map<int, seq<int>>, disk: seq<Block>, ino: int, i: int, b: int)
    requires AllIn(ptrs, |disk|) && ino in ptrs && 0 <= i < NFILEBLOCKS && 0 <= b < |disk|
    ensures AllIn(ptrs[ino := ptrs[ino][i := b]], |disk|)
    ensures var fs := RawMap(ptrs, disk);
            RawMap(ptrs[ino := ptrs[ino][i := b]], disk) == fs[ino := PutBlock(fs[ino], i, BlockOf(b, disk))]
  {
    RawSetPtr(ptrs[ino], disk, i, b);
  }

  /** Pointing a hole at a cleared block changes no byte. */
  lemma FilesFillHole(ptrs: map<int, seq<int>>, disk: seq<Block>, ino: int, i: int, b: int)
    requires AllIn(ptrs, |disk|) && ino in ptrs && 0 <= i < NFILEBLOCKS && 0 <= b < |disk|
    requires ptrs[ino][i] == 0 && disk[b] == ZeroBlock()
    ensures AllIn(ptrs[ino := ptrs[ino][i := b]], |disk|)
    ensures RawMap(ptrs[ino := ptrs[ino][i := b]], disk) == RawMap(ptrs, disk)
  {
    FilesSetPtr(ptrs, disk, ino, i, b);
    var r := Raw(ptrs[ino], disk);
    forall k | 0 <= k < MAXBYTES
      ensures r[k] == PutBlock(r, i, ZeroBlock())[k]
    {
      if k / BLOCKSIZE == i {
        assert k == BLOCKSIZE * i + k % BLOCKSIZE;
      }
    }
    assert r == PutBlock(r, i, ZeroBlock());
  }

  lemma PtrsDirect(inode: Inode, disk: seq<Block>, i: int, b: int)
    requires |inode.direct| == NDIRECT && 0 <= inode.indirect < |disk| && 0 <= i < NDIRECT
    ensures Ptrs(inode.(direct := inode.direct[i := b]), disk) == Ptrs(inode, disk)[i := b]
  {
  }

  ghost function PutEntry(x: Block, j: int, b: int): Block
    requires 0 <= j < DBPERIDB && IsU32(b)
  {
    EncodeIndirect(DecodeIndirect(x)[j := b])
  }

  lemma PtrsEntry(inode: Inode, disk: seq<Block>, j: int, b: int)
    requires |inode.direct| == NDIRECT && 0 < inode.indirect < |disk| && 0 <= j < DBPERIDB && IsU32(b)
    ensures var id := inode.indirect;
            Ptrs(inode, disk[id := PutEntry(disk[id], j, b)]) == Ptrs(inode, disk)[NDIRECT + j := b]
  {
    WordsRoundTrip(DecodeIndirect(disk[inode.indirect])[j := b]);
  }

  // -- direct pointers

  ghost function WithDirect(inode: Inode, i: int, b: int): Inode
    requires 0 <= i < |inode.direct|
  {
    inode.(direct := inode.direct[i := b])
  }

  lemma DirectPtrs(v: Vol, v': Vol, ino: int, i: int, b: int)
    requires Shaped(v) && ino in v.inodes && 0 <= i < NDIRECT && 0 <= b < |v.disk|
    requires v'.inodes == v.inodes[ino := WithDirect(v.inodes[ino], i, b)]
    requires v'.disk == v.disk && |v'.bits| == |v.bits|
    ensures Shaped(v') && PtrMap(v') == PtrMap(v)[ino := PtrMap(v)[ino][i := b]] && IndMap(v') == IndMap(v)
  {
    PtrsDirect(v.inodes[ino], v.disk, i, b);
  }

  lemma LinkDirect(v: Vol, v': Vol, ino: int, i: int, b: int)
    requires VolOk(v) && ino in v.inodes && 0 <= i < NDIRECT == |v.inodes[ino].direct| && Ptr(v, ino, i) == 0
    requires 0 <= b < |v.disk| && !v.bits[b] && v.disk[b] == ZeroBlock()
    requires v' == Vol(v.disk, v.bits[b := true], v.inodes[ino := WithDirect(v.inodes[ino], i, b)],
                       v.owner[b := DataBlock(ino, i)])
    ensures VolOk(v') && Files(v') == Files(v) && PtrMap(v') == PtrMap(v)[ino := PtrMap(v)[ino][i := b]]
  {
    hide OwnOk;
    assert Is(v, v);
    var ptrs := PtrMap(v);
    assert ptrs[ino][i] == 0;
    DirectPtrs(v, v', ino, i, b);
    LinkData(|v.disk|, v.bits, ptrs, IndMap(v), v.owner, ino, i, b);
    FilesFillHole(ptrs, v.disk, ino, i, b);
  }

  lemma UnlinkDirect(v: Vol, v': Vol, ino: int, i: int)
    requires VolOk(v) && ino in v.inodes && 0 <= i < NDIRECT == |v.inodes[ino].direct| && Ptr(v, ino, i) != 0
    requires var b := Ptr(v, ino, i);
             0 <= b < |v.bits| &&
             v' == Vol(v.disk, v.bits[b := false], v.inodes[ino := WithDirect(v.inodes[ino], i, 0)], v.owner - {b})
    ensures VolOk(v') && PtrMap(v') == PtrMap(v)[ino := PtrMap(v)[ino][i := 0]]
    ensures Files(v') == Files(v)[ino := PutBlock(Files(v)[ino], i, ZeroBlock())]
  {
    hide OwnOk;
    assert Is(v, v);
    var ptrs := PtrMap(v);
    assert ptrs[ino][i] == v.inodes[ino].direct[i];
    DirectPtrs(v, v', ino, i, 0);
    UnlinkData(|v.disk|, v.bits, ptrs, IndMap(v), v.owner, ino, i);
    FilesSetPtr(ptrs, v.disk, ino, i, 0);
  }

  // -- the indirect block

  lemma IndirectPtrs(v: Vol, v': Vol, ino: int, b: int)
    requires Shaped(v) && ino in v.inodes && 0 <= b < |v.disk|
    requires v'.inodes == v.inodes[ino := v.inodes[ino].(indirect := b)]
    requires v'.disk == v.disk && |v'.bits| == |v.bits|
    requires b == 0 || (forall j :: 0 <= j < DBPERIDB ==> DecodeIndirect(v.disk[b])[j] == 0)
    requires var c := v.inodes[ino].indirect;
             c == 0 || (forall j :: 0 <= j < DBPERIDB ==> DecodeIndirect(v.disk[c])[j] == 0)
    ensures Shaped(v') && PtrMap(v') == PtrMap(v) && IndMap(v') == IndMap(v)[ino := b]
  {
    var inode := v.inodes[ino];
    assert Ptrs(inode.(indirect := b), v.disk) == Ptrs(inode, v.disk);
  }

  lemma LinkIndirectBlock(v: Vol, v': Vol, ino: int, b: int)
    requires VolOk(v) && ino in v.inodes && v.inodes[ino].indirect == 0
    requires 0 <= b < |v.disk| && !v.bits[b] && v.disk[b] == ZeroBlock()
    requires v' == Vol(v.disk, v.bits[b := true], v.inodes[ino := v.inodes[ino].(indirect := b)],
                       v.owner[b := IndirectBlock(ino)])
    ensures VolOk(v') && Files(v') == Files(v) && PtrMap(v') == PtrMap(v)
  {
    hide OwnOk;
    assert Is(v, v);
    ZeroWords(v.disk[b], DBPERIDB);
    IndirectPtrs(v, v', ino, b);
    LinkIndirect(|v.disk|, v.bits, PtrMap(v), IndMap(v), v.owner, ino, b);
  }

  lemma UnlinkIndirectBlock(v: Vol, v': Vol, ino: int)
    requires VolOk(v) && ino in v.inodes && 0 < v.inodes[ino].indirect < |v.disk|
    requires forall j :: 0 <= j < DBPERIDB ==> DecodeIndirect(v.disk[v.inodes[ino].indirect])[j] == 0
    requires var b := v.inodes[ino].indirect;
             v' == Vol(v.disk, v.bits[b := false], v.inodes[ino := v.inodes[ino].(indirect := 0)], v.owner - {b})
    ensures VolOk(v') && Files(v') == Files(v) && PtrMap(v') == PtrMap(v)
  {
    assert Is(v, v);
    hide OwnOk, DecodeIndirect;
    IndirectPtrs(v, v', ino, 0);
    assert IndMap(v)[ino] == v.inodes[ino].indirect;
    UnlinkIndirect(|v.disk|, v.bits, PtrMap(v), IndMap(v), v.owner, ino);
  }

  // -- entries of the indirect block

  lemma EntryPtrs(v: Vol, v': Vol, ino: int, j: int, b: int)
    requires Shaped(v) && ino in v.inodes && v.inodes[ino].indirect != 0
    requires 0 <= j < DBPERIDB && 0 <= b < |v.disk|
    requires forall ino' :: ino' in v.inodes && ino' != ino ==> v.inodes[ino'].indirect != v.inodes[ino].indirect
    requires v'.inodes == v.inodes && |v'.bits| == |v.bits|
    requires var id := v.inodes[ino].indirect; v'.disk == v.disk[id := PutEntry(v.disk[id], j, b)]
    ensures Shaped(v') && PtrMap(v') == PtrMap(v)[ino := PtrMap(v)[ino][NDIRECT + j := b]]
    ensures IndMap(v') == IndMap(v)
  {
    hide PutEntry, DecodeIndirect;
    PtrsEntry(v.inodes[ino], v.disk, j, b);
    forall ino' | ino' in v.inodes && ino' != ino
      ensures Ptrs(v.inodes[ino'], v'.disk) == Ptrs(v.inodes[ino'], v.disk)
    {
    }
  }

  lemma OnlyIndirect(v: Vol, ino: int)
    requires VolOk(v) && ino in v.inodes && v.inodes[ino].indirect != 0
    ensures forall ino' :: ino' in v.inodes && ino' != ino ==> v.inodes[ino'].indirect != v.inodes[ino].indirect
    ensures v.inodes[ino].indirect in v.owner && v.owner[v.inodes[ino].indirect] == IndirectBlock(ino)
  {
    assert Is(v, v);
    var m := IndMap(v);
    assert m[ino] == v.inodes[ino].indirect;
    forall ino' | ino' in v.inodes && ino' != ino
      ensures v.inodes[ino'].indirect != v.inodes[ino].indirect
    {
      assert m[ino'] == v.inodes[ino'].indirect;
    }
  }

  lemma EntryFiles(ptrs: map<int, seq<int>>, disk: seq<Block>, id: int, x: Block, ino: int, i: int, b: int)
    requires AllIn(ptrs, |disk|) && ino in ptrs && 0 <= i < NFILEBLOCKS && 0 <= b < |disk|
    requires ptrs[ino][i] == 0 && disk[b] == ZeroBlock() && 0 <= id < |disk| && b != id
    requires forall ino', j :: ino' in ptrs && 0 <= j < NFILEBLOCKS ==> ptrs[ino'][j] != id
    ensures RawMap(ptrs[ino := ptrs[ino][i := b]], disk[id := x]) == RawMap(ptrs, disk)
    ensures AllIn(ptrs[ino := ptrs[ino][i := b]], |disk|)
  {
    SameFiles(ptrs, disk, id, x);
    FilesFillHole(ptrs, disk[id := x], ino, i, b);
  }

  lemma LinkEntry(v: Vol, v': Vol, ino: int, j: int, b: int)
    requires VolOk(v) && ino in v.inodes && 0 < v.inodes[ino].indirect < |v.disk| && |v.inodes[ino].direct| == NDIRECT
    requires 0 <= j < DBPERIDB && Ptr(v, ino, NDIRECT + j) == 0
    requires IsU32(b) && b < |v.disk| && !v.bits[b] && v.disk[b] == ZeroBlock()
    requires var id := v.inodes[ino].indirect;
             v' == Vol(v.disk[id := PutEntry(v.disk[id], j, b)], v.bits[b := true], v.inodes,
                       v.owner[b := DataBlock(ino, NDIRECT + j)])
    ensures VolOk(v') && Files(v') == Files(v)
    ensures PtrMap(v') == PtrMap(v)[ino := PtrMap(v)[ino][NDIRECT + j := b]]
  {
    assert Is(v, v);
    var ptrs, id, i := PtrMap(v), v.inodes[ino].indirect, NDIRECT + j;
    assert ptrs[ino][i] == 0;
    OnlyIndirect(v, ino);
    EntryPtrs(v, v', ino, j, b);
    LinkData(|v.disk|, v.bits, ptrs, IndMap(v), v.owner, ino, i, b);
    NotPointedTo(v, id);
    EntryFiles(ptrs, v.disk, id, v'.disk[id], ino, i, b);
  }

  lemma UnlinkEntry(v: Vol, v': Vol, ino: int, j: int)
    requires VolOk(v) && ino in v.inodes && 0 < v.inodes[ino].indirect < |v.disk|
    requires 0 <= j < DBPERIDB && Ptr(v, ino, NDIRECT + j) != 0
    requires var id := v.inodes[ino].indirect; var b := Ptr(v, ino, NDIRECT + j);
             0 <= b < |v.bits| &&
             v' == Vol(v.disk[id := PutEntry(v.disk[id], j, 0)], v.bits[b := false], v.inodes, v.owner - {b})
    ensures VolOk(v') && PtrMap(v') == PtrMap(v)[ino := PtrMap(v)[ino][NDIRECT + j := 0]]
    ensures Files(v') == Files(v)[ino := PutBlock(Files(v)[ino], NDIRECT + j, ZeroBlock())]
  {
    hide OwnOk;
    assert Is(v, v);
    var ptrs, id, i := PtrMap(v), v.inodes[ino].indirect, NDIRECT + j;
    OnlyIndirect(v, ino);
    EntryPtrs(v, v', ino, j, 0);
    UnlinkData(|v.disk|, v.bits, ptrs, IndMap(v), v.owner, ino, i);
    NotPointedTo(v, id);
    SameFiles(ptrs, v.disk, id, v'.disk[id]);
    FilesSetPtr(ptrs, v'.disk, ino, i, 0);
  }

  // -- inodes

  lemma MetaPtrs(v: Vol, v': Vol, ino: int, inode: Inode)
    requires Shaped(v) && ino in v.inodes && InodeFits(inode)
    requires inode.direct == v.inodes[ino].direct && inode.indirect == v.inodes[ino].indirect
    requires v' == v.(inodes := v.inodes[ino := inode])
    ensures Shaped(v') && PtrMap(v') == PtrMap(v) && IndMap(v') == IndMap(v)
  {
    assert Ptrs(inode, v.disk) == Ptrs(v.inodes[ino], v.disk);
  }

  /** Changing only the size, type or link count moves no block. */
  lemma SetMeta(v: Vol, v': Vol, ino: int, inode: Inode)
    requires VolOk(v) && ino in v.inodes && InodeFits(inode)
    requires inode.direct == v.inodes[ino].direct && inode.indirect == v.inodes[ino].indirect
    requires v' == v.(inodes := v.inodes[ino := inode])
    ensures VolOk(v') && PtrMap(v') == PtrMap(v) && Files(v') == Files(v)
  {
    hide OwnOk;
    assert Is(v, v);
    MetaPtrs(v, v', ino, inode);
  }

  lemma EmptyFile(disk: seq<Block>)
    requires |disk| > 0
    ensures var p := Ptrs(ZeroInode(), disk);
            PtrsIn(p, |disk|) && Raw(p, disk) == Zeros(MAXBYTES)
            && forall i :: 0 <= i < NFILEBLOCKS ==> p[i] == 0
  {
    var p := Ptrs(ZeroInode(), disk);
    assert forall i :: 0 <= i < NFILEBLOCKS ==> p[i] == 0;
  }

  lemma AddInodePtrs(v: Vol, v': Vol, b: int)
    requires Shaped(v) && b !in v.inodes
    requires v'.disk == v.disk && |v'.bits| == |v.bits| && v'.inodes == v.inodes[b := ZeroInode()]
    ensures Shaped(v')
    ensures PtrMap(v') == PtrMap(v)[b := Ptrs(ZeroInode(), v.disk)] && IndMap(v') == IndMap(v)[b := 0]
  {
  }

  lemma AddInode(v: Vol, v': Vol, b: int)
    requires VolOk(v) && 0 <= b < |v.disk| && !v.bits[b] && v.disk[b] == ZeroBlock()
    requires v' == Vol(v.disk, v.bits[b := true], v.inodes[b := ZeroInode()], v.owner[b := InodeBlock(b)])
    ensures b !in v.inodes && VolOk(v') && Files(v') == Files(v)[b := Zeros(MAXBYTES)]
  {
    hide OwnOk;
    assert Is(v, v);
    var p := Ptrs(ZeroInode(), v.disk);
    EmptyFile(v.disk);
    LinkInode(|v.disk|, v.bits, PtrMap(v), IndMap(v), v.owner, b, p);
    AddInodePtrs(v, v', b);
  }

  lemma DropInodePtrs(v: Vol, v': Vol, ino: int)
    requires Shaped(v) && v'.disk == v.disk && |v'.bits| == |v.bits| && v'.inodes == v.inodes - {ino}
    ensures Shaped(v') && PtrMap(v') == PtrMap(v) - {ino} && IndMap(v') == IndMap(v) - {ino}
  {
  }

  lemma DropInode(v: Vol, v': Vol, ino: int)
    requires VolOk(v) && ino in v.inodes && ino != ROOT_LOCATION && v.inodes[ino].indirect == 0
    requires |v.inodes[ino].direct| == NDIRECT && forall i :: 0 <= i < NDIRECT ==> v.inodes[ino].direct[i] == 0
    requires 0 <= ino < |v.bits|
    requires v' == Vol(v.disk, v.bits[ino := false], v.inodes - {ino}, v.owner - {ino})
    ensures VolOk(v') && PtrMap(v') == PtrMap(v) - {ino} && Files(v') == Files(v) - {ino}
  {
    hide OwnOk;
    assert Is(v, v);
    assert IndMap(v)[ino] == 0;
    forall i | 0 <= i < NFILEBLOCKS
      ensures PtrMap(v)[ino][i] == 0
    {
    }
    UnlinkInode(|v.disk|, v.bits, PtrMap(v), IndMap(v), v.owner, ino);
    DropInodePtrs(v, v', ino);
  }

  // ---- the free map is exact ----

  /** Everything that lays claim to block b: the reserved blocks, the inodes, and each indirect
      block and each file block with a nonzero number. */
  ghost function Claims(v: Vol, b: int): set<Role> {
    (if IsReserved(b, |v.disk|) then {Reserved} else {})
    + (if b in v.inodes then {InodeBlock(b)} else {})
    + (set ino | ino in v.inodes && b != 0 && v.inodes[ino].indirect == b :: IndirectBlock(ino))
    + (set ino, i | ino in v.inodes && 0 <= i < NFILEBLOCKS && b != 0 && Ptr(v, ino, i) == b :: DataBlock(ino, i))
  }

  lemma MarkedIffOwned(v: Vol, b: int)
    requires VolOk(v) && 0 <= b < |v.disk|
    ensures v.bits[b] <==> b in v.owner
  {
    assert Is(v, v);
  }

  lemma NotZero(v: Vol, b: int)
    requires VolOk(v) && b in v.owner && !v.owner[b].Reserved?
    ensures b != 0
  {
    assert Is(v, v);
  }

  lemma OwnerClaims(v: Vol, b: int)
    requires VolOk(v) && b in v.owner
    ensures v.owner[b] in Claims(v, b)
  {
    assert Is(v, v);
    assert RoleOk(b, v.owner[b], |v.disk|, PtrMap(v), IndMap(v));
    hide VolOk, Consistent, OwnOk;
    match v.owner[b] {
      case Reserved =>
      case InodeBlock(ino) =>
      case IndirectBlock(ino) => NotZero(v, b);
      case DataBlock(ino, i) =>
        NotZero(v, b);
        assert Ptr(v, ino, i) == b;
    }
  }

  lemma OneClaim(v: Vol, b: int, r: Role)
    requires VolOk(v) && r in Claims(v, b)
    ensures b in v.owner && v.owner[b] == r
  {
    assert Is(v, v);
    assert PointersOk(|v.disk|, PtrMap(v), IndMap(v), v.owner);
    hide VolOk, Consistent, OwnOk, Ptrs;
    match r {
      case Reserved =>
      case InodeBlock(ino) =>
      case IndirectBlock(ino) => assert IndMap(v)[ino] == b;
      case DataBlock(ino, i) => assert PtrMap(v)[ino][i] == b;
    }
  }

  lemma ClaimIsOwner(v: Vol, b: int)
    requires VolOk(v)
    ensures forall r :: r in Claims(v, b) ==> b in v.owner && v.owner[b] == r
  {
    hide VolOk, Claims;
    forall r | r in Claims(v, b)
      ensures b in v.owner && v.owner[b] == r
    {
      OneClaim(v, b, r);
    }
  }

  /** A block is marked in use if and only if exactly one claim is laid to it, and is free if and
      only if there is none. */
  lemma ExactOwnership(v: Vol, b: int)
    requires VolOk(v) && 0 <= b < |v.disk|
    ensures |Claims(v, b)| == if v.bits[b] then 1 else 0
  {
    hide Claims;
    ClaimIsOwner(v, b);
    MarkedIffOwned(v, b);
    if v.bits[b] {
      OwnerClaims(v, b);
      assert Claims(v, b) == {v.owner[b]};
    } else {
      assert Claims(v, b) == {};
    }
  }
}
