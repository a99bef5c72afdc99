/** The on-disk structures of kern/include/kern/sfs.h as byte layouts. */
module SfsFormat {
  import opened Bytes

  const NDIRECT := 15
  const DBPERIDB := 128
  const NFILEBLOCKS := 143           // NDIRECT + DBPERIDB
  const MAXBYTES := 73216            // NFILEBLOCKS * BLOCKSIZE
  const NAMELEN := 60
  const DIRENTSIZE := 64
  const SUPER_LOCATION := 0
  const ROOT_LOCATION := 1
  const MAP_LOCATION := 2
  const NOINO := 0
  const TYPE_INVAL := 0
  const TYPE_FILE := 1
  const TYPE_DIR := 2
  const BLOCKBITS := 4096            // BLOCKSIZE * CHAR_BIT
  const MAXBITBLOCKS := 32

  function BitBlocks(nblocks: nat): nat {
    (nblocks + BLOCKBITS - 1) / BLOCKBITS
  }

  function BitmapSize(nblocks: nat): nat {
    BitBlocks(nblocks) * BLOCKBITS
  }

  // ---- the superblock ----

  const MAGIC := 0xabadf001
  const VOLNAMESIZE := 32

  /** struct sfs_super: magic number, number of blocks, volume name, reserved words. */
  function EncodeSuper(nblocks: int, volname: seq<Byte>): Block
    requires IsU32(nblocks) && |volname| < VOLNAMESIZE
  {
    Word(MAGIC) + Word(nblocks) + volname + Zeros(504 - |volname|)
  }

  predicate IsSuper(b: Block, nblocks: int) {
    WordAt(b, 0) == MAGIC && WordAt(b, 4) == nblocks
  }

  lemma SuperRoundTrip(nblocks: int, volname: seq<Byte>)
    requires IsU32(nblocks) && |volname| < VOLNAMESIZE
    ensures IsSuper(EncodeSuper(nblocks, volname), nblocks)
    ensures var b := EncodeSuper(nblocks, volname);
            WordAt(b, 0) == 0xabadf001 && WordAt(b, 4) == nblocks && b[8..8 + |volname|] == volname
  {
    var b := EncodeSuper(nblocks, volname);
    assert b[..4] == Word(MAGIC) && b[4..8] == Word(nblocks);
    WordRoundTrip(MAGIC);
    WordRoundTrip(nblocks);
  }

  // ---- inodes ----

  datatype Inode = Inode(size: int, kind: int, links: int, direct: seq<int>, indirect: int)

  ghost predicate InodeFits(i: Inode) {
    && IsU32(i.size) && 0 <= i.kind < 0x1_0000 && 0 <= i.links < 0x1_0000
    && |i.direct| == NDIRECT && AllU32(i.direct) && IsU32(i.indirect)
  }

  function ZeroInode(): Inode {
    Inode(0, TYPE_INVAL, 0, seq(NDIRECT, _ => 0), 0)
  }

  /** The 128 words of a struct sfs_inode: size, type and link count, direct, indirect, waste. */
  function InodeWords(i: Inode): (ws: seq<int>)
    requires InodeFits(i)
    ensures |ws| == 128 && AllU32(ws)
  {
    [i.size, i.kind * 0x1_0000 + i.links] + i.direct + [i.indirect] + seq(110, _ => 0)
  }

  function InodeOfWords(w: seq<int>): Inode
    requires |w| == 128
  {
    Inode(w[0], w[1] / 0x1_0000, w[1] % 0x1_0000, w[2..17], w[17])
  }

  function EncodeInode(i: Inode): Block
    requires InodeFits(i)
  {
    EncodeWords(InodeWords(i))
  }

  function DecodeInode(b: Block): Inode {
    InodeOfWords(DecodeWords(b, 128))
  }

  lemma InodeWordsRoundTrip(i: Inode)
    requires InodeFits(i)
    ensures InodeOfWords(InodeWords(i)) == i
  {
    assert InodeWords(i)[2..17] == i.direct;
    assert InodeWords(i)[17] == i.indirect;
  }

  lemma InodeRoundTrip(i: Inode)
    requires InodeFits(i)
    ensures DecodeInode(EncodeInode(i)) == i
  {
    WordsRoundTrip(InodeWords(i));
    InodeWordsRoundTrip(i);
  }

  lemma ZeroWordsInode(w: seq<int>)
    requires |w| == 128 && forall j :: 0 <= j < 128 ==> w[j] == 0
    ensures InodeOfWords(w) == ZeroInode()
  {
    assert w[2..17] == seq(NDIRECT, _ => 0);
  }

  lemma WordIn(ws: seq<int>, j: nat)
    requires AllU32(ws) && j < |ws|
    ensures WordAt(EncodeWords(ws), 4 * j) == ws[j]
  {
    WordsRoundTrip(ws);
    assert DecodeWords(EncodeWords(ws), |ws|)[j] == WordAt(EncodeWords(ws), 4 * j);
  }

  /** Where each field of an inode is on disk: size at 0, type at 4 and link count at 6, both of 16
      bits, direct blocks from 8 on, the indirect block at 68. */
  lemma InodeLayout(i: Inode, j: nat)
    requires InodeFits(i) && j < NDIRECT
    ensures var b := EncodeInode(i);
            && WordAt(b, 0) == i.size && WordAt(b, 4) == i.kind * 0x1_0000 + i.links
            && WordAt(b, 8 + 4 * j) == i.direct[j] && WordAt(b, 68) == i.indirect
    ensures 0 <= i.links < 0x1_0000
  {
    var ws := InodeWords(i);
    WordIn(ws, 0);
    WordIn(ws, 1);
    WordIn(ws, 2 + j);
    WordIn(ws, 17);
  }

  /** A block cleared by balloc reads as an inode of no type, no links and no blocks. */
  lemma ClearedInode(z: Block)
    requires forall k :: 0 <= k < 512 ==> z[k] == 0
    ensures DecodeInode(z) == ZeroInode()
  {
    ZeroWords(z, 128);
    ZeroWordsInode(DecodeWords(z, 128));
  }

  // ---- indirect blocks ----

  function EncodeIndirect(ids: seq<int>): Block
    requires |ids| == DBPERIDB && AllU32(ids)
  {
    EncodeWords(ids)
  }

  function DecodeIndirect(b: Block): (ids: seq<int>)
    ensures |ids| == DBPERIDB && AllU32(ids)
  {
    DecodeWords(b, DBPERIDB)
  }

  // ---- directory entries ----

  /** A C string: its bytes up to, not including, the terminating zero. */
  type Name = s: seq<Byte> | forall k :: 0 <= k < |s| ==> s[k] != 0

  datatype Dirent = Dirent(ino: int, name: Name)

  /** The string starting at s, read no further than |s|. */
  function CString(s: seq<Byte>): (n: Name)
    ensures |n| <= |s| && n == s[..|n|]
    ensures |n| < |s| ==> s[|n|] == 0
  {
    if s == [] || s[0] == 0 then [] else [s[0]] + CString(s[1..])
  }

  /** Reading an entry forces a terminator into the last byte of the name field. */
  function DecodeDirent(b: seq<Byte>): Dirent
    requires |b| == DIRENTSIZE
  {
    Dirent(WordAt(b, 0), CString(b[4..63]))
  }

  function EncodeDirent(ino: int, name: Name): (b: seq<Byte>)
    requires IsU32(ino) && |name| < NAMELEN
    ensures |b| == DIRENTSIZE
  {
    Word(ino) + name + Zeros(NAMELEN - |name|)
  }

  lemma CStringPadded(n: Name, pad: seq<Byte>)
    requires pad != [] && pad[0] == 0
    ensures CString(n + pad) == n
  {
    if n == [] {
      assert n + pad == pad;
    } else {
      assert (n + pad)[1..] == n[1..] + pad;
      CStringPadded(n[1..], pad);
    }
  }

  lemma CStringFull(n: Name)
    ensures CString(n) == n
  {
  }

  lemma DirentRoundTrip(ino: int, name: Name)
    requires IsU32(ino) && |name| < NAMELEN
    ensures DecodeDirent(EncodeDirent(ino, name)) == Dirent(ino, name)
    ensures var b := EncodeDirent(ino, name);
            && WordAt(b, 0) == ino && b[4..4 + |name|] == name
            && forall k :: 4 + |name| <= k < |b| ==> b[k] == 0
  {
    var b := EncodeDirent(ino, name);
    assert b[..4] == Word(ino);
    WordRoundTrip(ino);
    assert b[0] == Word(ino)[0] && b[1] == Word(ino)[1] && b[2] == Word(ino)[2] && b[3] == Word(ino)[3];
    if |name| == NAMELEN - 1 {
      assert b[4..63] == name;
      CStringFull(name);
    } else {
      assert b[4..63] == name + Zeros(59 - |name|);
      CStringPadded(name, Zeros(59 - |name|));
    }
  }
}
