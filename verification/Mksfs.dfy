/** Making an empty volume: sbin/mksfs/mksfs.c. */
module Mksfs {
  import opened Bytes
  import opened Bitmaps
  import opened SfsFormat
  import opened SfsOwnership
  import opened SfsVolume
  import opened SfsState
  import opened SfsVnodes
  import opened SfsNames
  import opened SfsMount
  import opened VfsPaths

  /** The map's own blocks fit on the device, and doallocbit never meets a bit already set,
      exactly from three blocks on. */
  lemma MapFits(n: nat)
    ensures MAP_LOCATION + BitBlocks(n) <= n <==> 3 <= n
  {
  }

  /** doallocbit */
  method DoAllocBit(bitbuf: seq<Byte>, bit: nat) returns (buf: seq<Byte>)
    requires bit < 8 * |bitbuf| && !Bits(bitbuf)[bit]
    ensures |buf| == |bitbuf| && Bits(buf) == Bits(bitbuf)[bit := true]
  {
    assert !Bit(bitbuf[bit / 8], bit % 8);
    BitsPut(bitbuf, bit, true);
    buf := bitbuf[bit / 8 := WithBit(bitbuf[bit / 8], bit % 8, true)];
  }

  lemma ZeroBits(n: nat)
    ensures forall k :: 0 <= k < 8 * n ==> !Bits(Zeros(n))[k]
  {
    forall k | 0 <= k < 8 * n
      ensures !Bits(Zeros(n))[k]
    {
      ZeroBit(k % 8);
    }
  }

  /** The marking loops of writebitmap. */
  method MarkUsed(fsblocks: nat) returns (bitbuf: seq<Byte>)
    requires 3 <= fsblocks && BitBlocks(fsblocks) <= MAXBITBLOCKS
    ensures |bitbuf| == MAXBITBLOCKS * BLOCKSIZE
    ensures forall k :: 0 <= k < BitmapSize(fsblocks) ==>
      (Bits(bitbuf)[k] <==> k < MAP_LOCATION + BitBlocks(fsblocks) || fsblocks <= k)
  {
    hide Bits;
    var nbits, nblocks := BitmapSize(fsblocks), BitBlocks(fsblocks);
    MapFits(fsblocks);
    bitbuf := Zeros(MAXBITBLOCKS * BLOCKSIZE);
    ZeroBits(|bitbuf|);
    bitbuf := DoAllocBit(bitbuf, SUPER_LOCATION);
    bitbuf := DoAllocBit(bitbuf, ROOT_LOCATION);
    for i := 0 to nblocks
      invariant |bitbuf| == MAXBITBLOCKS * BLOCKSIZE
      invariant forall k :: 0 <= k < 8 * |bitbuf| ==> (Bits(bitbuf)[k] <==> k < MAP_LOCATION + i)
    {
      bitbuf := DoAllocBit(bitbuf, MAP_LOCATION + i);
    }
    for i := fsblocks to nbits
      invariant |bitbuf| == MAXBITBLOCKS * BLOCKSIZE
      invariant forall k :: 0 <= k < 8 * |bitbuf| ==>
        (Bits(bitbuf)[k] <==> k < MAP_LOCATION + nblocks || fsblocks <= k < i)
    {
      bitbuf := DoAllocBit(bitbuf, i);
    }
  }

  lemma MapPrefix(disk: seq<Block>, v: seq<Byte>)
    requires MAP_LOCATION + BitBlocks(|disk|) <= |disk| && BLOCKSIZE * BitBlocks(|disk|) <= |v|
    requires forall b :: MAP_LOCATION <= b < MAP_LOCATION + BitBlocks(|disk|) ==>
      disk[b] == MapBlock(v, b - MAP_LOCATION)
    ensures forall k :: 0 <= k < BitmapSize(|disk|) ==> Bits(MapBytes(disk))[k] == Bits(v)[k]
  {
    hide BitBlocks;
    forall k | 0 <= k < BLOCKSIZE * BitBlocks(|disk|)
      ensures MapBytes(disk)[k] == v[k]
    {
      var j := k / BLOCKSIZE;
      assert disk[MAP_LOCATION + j] == MapBlock(v, j);
    }
  }

  /** writebitmap */
  method WriteBitmap(dev: seq<Block>) returns (disk: seq<Block>)
    requires 3 <= |dev| && BitBlocks(|dev|) <= MAXBITBLOCKS
    ensures |disk| == |dev| && disk[..MAP_LOCATION] == dev[..MAP_LOCATION] && MAP_LOCATION + BitBlocks(|disk|) <= |disk|
    ensures forall k :: 0 <= k < BitmapSize(|disk|) ==>
      (Bits(MapBytes(disk))[k] <==> k < MAP_LOCATION + BitBlocks(|disk|) || |disk| <= k)
  {
    hide Bits, BitBlocks, MapBytes;
    MapFits(|dev|);
    var bitbuf := MarkUsed(|dev|);
    var nblocks := BitBlocks(|dev|);
    disk := dev;
    for i := 0 to nblocks
      invariant |disk| == |dev| && disk[..MAP_LOCATION] == dev[..MAP_LOCATION]
      invariant forall b :: MAP_LOCATION <= b < MAP_LOCATION + i ==> disk[b] == MapBlock(bitbuf, b - MAP_LOCATION)
    {
      disk := disk[MAP_LOCATION + i := Sector(bitbuf, i)];
    }
    MapPrefix(disk, bitbuf);
  }

  const ROOT_INODE: Inode := ZeroInode().(kind := TYPE_DIR, links := 1)

  /** The roles in a new volume. */
  ghost function FreshOwner(n: nat): map<int, Role> {
    map b | 0 <= b < MAP_LOCATION + BitBlocks(n) :: if b == ROOT_LOCATION then InodeBlock(b) else Reserved
  }

  ghost function FreshVol(disk: seq<Block>): Vol
    requires MAP_LOCATION + BitBlocks(|disk|) <= |disk|
  {
    Vol(disk, Bits(MapBytes(disk)), map[ROOT_LOCATION := ROOT_INODE], FreshOwner(|disk|))
  }

  lemma RoundedUp(n: nat)
    ensures n <= BitmapSize(n) == 8 * (BLOCKSIZE * BitBlocks(n))
  {
  }

  lemma FreshVolOk(disk: seq<Block>)
    requires 3 <= |disk| <= MAXBITBLOCKS * BLOCKBITS && MAP_LOCATION + BitBlocks(|disk|) <= |disk|
    requires forall k :: 0 <= k < BitmapSize(|disk|) ==>
      (Bits(MapBytes(disk))[k] <==> k < MAP_LOCATION + BitBlocks(|disk|) || |disk| <= k)
    ensures VolOk(FreshVol(disk))
  {
    hide Bits, MapBytes, BitBlocks;
    var v := FreshVol(disk);
    RoundedUp(|disk|);
    assert PtrMap(v)[ROOT_LOCATION] == seq(NFILEBLOCKS, _ => 0);
    assert BitsOk(|disk|, v.bits, v.owner);
    assert RolesOk(|disk|, PtrMap(v), IndMap(v), v.owner);
    assert PointersOk(|disk|, PtrMap(v), IndMap(v), v.owner);
    assert Consistent(v);
  }

  lemma FreshNames(disk: seq<Block>)
    requires MAP_LOCATION + BitBlocks(|disk|) <= |disk|
    ensures NamesOk(FreshVol(disk), {}) && ViewOf(FreshVol(disk)) == View(map[], map[])
  {
    hide Files, Ptr, Bits, MapBytes, BitBlocks;
  }

  /** A new volume is consistent, holds no names and no files, and its disk is up to date.
      It is refused exactly when the volume name or the bitmap is too long. */
  method Format(dev: seq<Block>, volname: seq<Byte>) returns (ok: bool, disk: seq<Block>)
    requires 3 <= |dev| < 0x1_0000_0000
    ensures ok <==> |volname| < VOLNAMESIZE && BitBlocks(|dev|) <= MAXBITBLOCKS
    ensures ok ==> |disk| == |dev| && MAP_LOCATION + BitBlocks(|disk|) <= |disk|
    ensures ok ==> DiskHolds(FreshVol(disk), {}) && ViewOf(FreshVol(disk)) == View(map[], map[])
  {
    hide Bits, MapBytes, VolOk, NamesOk, IsSuper, EncodeInode, EncodeSuper, ViewOf;
    disk := dev;
    if |volname| >= VOLNAMESIZE {
      return false, disk;
    }
    SuperRoundTrip(|dev|, volname);
    disk := disk[SUPER_LOCATION := EncodeSuper(|dev|, volname)];
    StoredEncoding(ROOT_INODE);
    disk := disk[ROOT_LOCATION := EncodeInode(ROOT_INODE)];
    if BitBlocks(|dev|) > MAXBITBLOCKS {
      return false, disk;
    }
    ghost var d := disk;
    disk := WriteBitmap(disk);
    assert disk[0] == d[..2][0] && disk[1] == d[..2][1];
    FreshVolOk(disk);
    FreshNames(disk);
    ok := true;
  }

  /** The volume name without its one trailing colon, if it has one. */
  function BareName(arg: seq<Byte>): seq<Byte> {
    if arg != [] && arg[|arg| - 1] == COLON then arg[..|arg| - 1] else arg
  }

  predicate LegalName(arg: seq<Byte>) {
    COLON !in BareName(arg) && SLASH !in BareName(arg)
  }

  /** Which volume names are legal: those without colon and slash, with one colon at the end or none. */
  lemma LegalNames(arg: seq<Byte>, name: seq<Byte>)
    requires COLON !in name && SLASH !in name
    ensures LegalName(name) && BareName(name) == name
    ensures LegalName(name + [COLON]) && BareName(name + [COLON]) == name
    ensures LegalName(arg) <==> SLASH !in arg && forall k :: 0 <= k < |arg| - 1 ==> arg[k] != COLON
  {
    assert name != [] ==> name[|name| - 1] in name;
    assert (name + [COLON])[..|name|] == name;
    var b := BareName(arg);
    assert forall k :: 0 <= k < |b| ==> b[k] == arg[k];
    if LegalName(arg) {
      assert forall k :: 0 <= k < |b| ==> b[k] in b;
      assert forall k :: 0 <= k < |arg| ==> k < |b| || arg[k] == COLON;
    } else if SLASH in b {
      assert SLASH in arg;
    } else {
      var k :| 0 <= k < |b| && b[k] == COLON;
      assert k < |arg| - 1;
    }
  }

  /** strchr: the first place of ch in s, or -1. */
  method StrChr(s: seq<Byte>, ch: Byte) returns (i: int)
    ensures if ch in s then 0 <= i < |s| && s[i] == ch && ch !in s[..i] else i == -1
  {
    for k := 0 to |s|
      invariant ch !in s[..k]
    {
      if s[k] == ch {
        return k;
      }
      assert s[..k + 1] == s[..k] + [s[k]];
    }
    assert s[..|s|] == s;
    i := -1;
  }

  /** mksfs with a device of 512-byte blocks.  It refuses exactly a volume name that is too long, or
      has a slash or a colon other than one at its end, and a device that is too large. */
  method MakeSfs(dev: seq<Block>, arg: seq<Byte>) returns (ok: bool, disk: seq<Block>)
    requires 3 <= |dev| < 0x1_0000_0000
    ensures ok <==> LegalName(arg) && |BareName(arg)| < VOLNAMESIZE && BitBlocks(|dev|) <= MAXBITBLOCKS
    ensures ok ==> |disk| == |dev| && MAP_LOCATION + BitBlocks(|disk|) <= |disk|
    ensures ok ==> DiskHolds(FreshVol(disk), {}) && ViewOf(FreshVol(disk)) == View(map[], map[])
  {
    hide FreshVol, DiskHolds, ViewOf;
    var volname := arg;
    var s := StrChr(volname, COLON);
    if s != -1 {
      if |volname| - s != 1 {
        assert COLON in BareName(arg) by { assert BareName(arg)[s] == COLON; }
        return false, dev;
      }
      volname := volname[..s];
    }
    assert volname == BareName(arg) && COLON !in volname;
    s := StrChr(volname, SLASH);
    if s != -1 {
      return false, dev;
    }
    ok, disk := Format(dev, volname);
  }
}
