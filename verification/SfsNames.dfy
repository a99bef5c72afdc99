/** The volume as users see it, a map from names to files, and how the steps of the directory
    operations change it. */
module SfsNames {
  import opened Bytes
  import opened Uios
  import opened SfsFormat
  import opened SfsVolume
  import opened SfsState
  import opened SfsIo
  import opened SfsTruncate
  import opened SfsVnodes
  import opened Directory
  import opened SfsDir

  /** A file as its readers and writers see it: its bytes, and whether everything past its end
      is zero, as it must be if a later write past the end is to leave a gap of zeros. */
  datatype File = File(bytes: seq<Byte>, clean: bool)

  ghost function Content(r: seq<Byte>, size: int): (f: File)
    requires |r| == MAXBYTES && 0 <= size
    ensures |f.bytes| == size
  {
    File(if size <= MAXBYTES then r[..size] else r + Zeros(size - MAXBYTES),
         forall k :: size <= k < MAXBYTES ==> r[k] == 0)
  }

  /** names: the directory.  files: every live file, named or not. */
  datatype View = View(names: map<Name, int>, files: map<int, File>)

  ghost predicate SizesOk(v: Vol) {
    forall ino :: ino in v.inodes ==> 0 <= v.inodes[ino].size
  }

  ghost function Contents(v: Vol): (m: map<int, File>)
    requires SizesOk(v)
    ensures m.Keys == v.inodes.Keys - {ROOT}
  {
    map ino | ino in v.inodes && ino != ROOT :: Content(Files(v)[ino], v.inodes[ino].size)
  }

  /** Every entry names a live regular file; a regular file's link count is the number of entries
      that name it; a file with no links is held in memory. */
  ghost predicate LinksOk(inodes: map<int, Inode>, s: seq<Dirent>, loaded: set<int>) {
    && Unique(s)
    && (forall k :: 0 <= k < |s| && s[k].ino != NOINO ==> s[k].ino in inodes && s[k].ino != ROOT)
    && (forall ino :: ino in inodes && ino != ROOT ==>
          && inodes[ino].kind == TYPE_FILE && inodes[ino].links == LinkCount(s, ino)
          && (inodes[ino].links == 0 ==> ino in loaded))
  }

  ghost predicate NamesOk(v: Vol, loaded: set<int>) {
    SizesOk(v) && DirShape(v) && NOINO !in v.inodes && LinksOk(v.inodes, DirSlots(v), loaded)
  }

  ghost function ViewOf(v: Vol): View
    requires SizesOk(v) && DirShape(v) && Unique(DirSlots(v))
  {
    View(Names(DirSlots(v)), Contents(v))
  }

  /** Same inode sizes, same bytes: same contents. */
  lemma SameContents(a: Vol, b: Vol)
    requires SizesOk(a) && b.inodes.Keys == a.inodes.Keys
    requires forall ino :: ino in a.inodes && ino != ROOT ==>
      b.inodes[ino].size == a.inodes[ino].size && Files(b)[ino] == Files(a)[ino]
    requires ROOT in b.inodes ==> 0 <= b.inodes[ROOT].size
    ensures SizesOk(b) && Contents(b) == Contents(a)
  {
    hide Files, Content;
  }

  // ---- linking ----

  lemma SetLinks(a: Vol, b: Vol, ino: int, links: int)
    requires VolOk(a) && ino in a.inodes && 0 <= links < 0x1_0000
    requires b == a.(inodes := a.inodes[ino := a.inodes[ino].(links := links)])
    ensures VolOk(b) && Files(b) == Files(a) && PtrMap(b) == PtrMap(a)
  {
    hide VolOk, Files;
    InodeFacts(a, ino);
    SetMeta(a, b, ino, b.inodes[ino]);
  }

  lemma DirUnmoved(a: Vol, b: Vol)
    requires DirShape(a) && ROOT in b.inodes && b.inodes[ROOT] == a.inodes[ROOT]
    requires Files(b)[ROOT] == Files(a)[ROOT] && PtrMap(b)[ROOT] == PtrMap(a)[ROOT]
    ensures DirShape(b) && DirSlots(b) == DirSlots(a)
  {
    hide Files, PtrMap;
    forall j | 0 <= j && BLOCKSIZE * j < b.inodes[ROOT].size
      ensures Ptr(b, ROOT, j) != 0
    {
      assert Ptr(a, ROOT, j) != 0;
      assert Ptr(b, ROOT, j) == Ptr(a, ROOT, j);
    }
  }

  /** A new entry for ino and one more link. */
  lemma AddEntry(inodes: map<int, Inode>, s: seq<Dirent>, loaded: set<int>, slot: int, ino: int, name: Name,
    inodes': map<int, Inode>)
    requires LinksOk(inodes, s, loaded) && NOINO !in inodes && ino in inodes && ino != ROOT
    requires 0 <= slot <= |s| && (slot < |s| ==> s[slot].ino == NOINO) && name !in Names(s)
    requires inodes'.Keys == inodes.Keys && inodes'[ino] == inodes[ino].(links := inodes[ino].links + 1)
    requires forall x :: x in inodes && x != ino && x != ROOT ==> inodes'[x] == inodes[x]
    ensures var s' := Put(s, slot, Dirent(ino, name));
            LinksOk(inodes', s', loaded) && Names(s') == Names(s)[name := ino]
  {
    hide Names;
    var e := Dirent(ino, name);
    NamesAdd(s, slot, e);
    var s' := Put(s, slot, e);
    forall x | x in inodes' && x != ROOT
      ensures inodes'[x].kind == TYPE_FILE && inodes'[x].links == LinkCount(s', x)
    {
      LinkCountPut(s, slot, e, x);
    }
    hide LinkCount;
  }

  /** An entry for ino goes, and one link. */
  lemma RemoveEntry(inodes: map<int, Inode>, s: seq<Dirent>, loaded: set<int>, slot: int, inodes': map<int, Inode>)
    requires LinksOk(inodes, s, loaded) && NOINO !in inodes && 0 <= slot < |s| && s[slot].ino != NOINO &&
      s[slot].ino in loaded
    requires var ino := s[slot].ino;
             && inodes'.Keys == inodes.Keys && ino in inodes
             && inodes'[ino] == inodes[ino].(links := inodes[ino].links - 1)
             && forall x :: x in inodes && x != ino && x != ROOT ==> inodes'[x] == inodes[x]
    ensures var s' := s[slot := Dirent(NOINO, [])];
            LinksOk(inodes', s', loaded) && Names(s') == Names(s) - {s[slot].name}
  {
    hide Names;
    var e := Dirent(NOINO, []);
    NamesRemove(s, slot, e);
    var s' := s[slot := e];
    forall x | x in inodes' && x != ROOT
      ensures inodes'[x].kind == TYPE_FILE && inodes'[x].links == LinkCount(s', x)
    {
      LinkCountPut(s, slot, e, x);
    }
    hide LinkCount;
  }

  // ---- the same steps on volumes ----

  lemma DirStepContents(a: Vol, b: Vol, s: seq<Dirent>)
    requires SizesOk(a) && DirStep(a, b, s)
    ensures SizesOk(b) && Contents(b) == Contents(a)
  {
    hide Files, Ptr, DirSlots;
    SameContents(a, b);
  }

  /** A directory write that failed. */
  lemma KeptNames(a: Vol, b: Vol, loaded: set<int>)
    requires NamesOk(a, loaded) && DirStep(a, b, DirSlots(a))
    ensures NamesOk(b, loaded) && ViewOf(b) == ViewOf(a)
  {
    hide Files, Ptr, DirSlots, Contents, Names, LinkCount;
    DirStepContents(a, b, DirSlots(a));
  }

  lemma FewLinks(v: Vol, loaded: set<int>, ino: int)
    requires NamesOk(v, loaded) && ino in v.inodes && ino != ROOT
    ensures 0 <= v.inodes[ino].links <= MAXBYTES / DIRENTSIZE
  {
    hide Files, LinkCount;
    LinkCountBound(DirSlots(v), ino);
  }

  lemma UniqueOf(inodes: map<int, Inode>, s: seq<Dirent>, loaded: set<int>)
    requires LinksOk(inodes, s, loaded)
    ensures Unique(s)
  {
  }

  lemma LinkedVol(a: Vol, b: Vol, c: Vol, loaded: set<int>, slot: int, ino: int, name: Name)
    requires NamesOk(a, loaded) && VolOk(b) && ino in a.inodes && ino != ROOT
    requires 0 <= slot <= |DirSlots(a)| && (slot < |DirSlots(a)| ==> DirSlots(a)[slot].ino == NOINO) &&
      name !in Names(DirSlots(a))
    requires DirStep(a, b, Put(DirSlots(a), slot, Dirent(ino, name)))
    requires c == b.(inodes := b.inodes[ino := b.inodes[ino].(links := b.inodes[ino].links + 1)])
    ensures VolOk(c) && NamesOk(c, loaded) && ViewOf(c) == ViewOf(a).(names := ViewOf(a).names[name := ino])
  {
    hide VolOk, Files, Ptr, PtrMap, DirSlots, Contents, Names, LinkCount, DirShape, LinksOk;
    var s := DirSlots(a);
    FewLinks(a, loaded, ino);
    AddEntry(a.inodes, s, loaded, slot, ino, name, c.inodes);
    SetLinks(b, c, ino, b.inodes[ino].links + 1);
    DirUnmoved(b, c);
    DirStepContents(a, b, Put(s, slot, Dirent(ino, name)));
    SameContents(b, c);
    UniqueOf(c.inodes, Put(s, slot, Dirent(ino, name)), loaded);
    UniqueOf(a.inodes, s, loaded);
  }

  lemma UnlinkedVol(a: Vol, b: Vol, c: Vol, loaded: set<int>, slot: int, ino: int)
    requires NamesOk(a, loaded) && VolOk(b) && 0 <= slot < |DirSlots(a)|
    requires ino == DirSlots(a)[slot].ino != NOINO && ino in loaded && ino in a.inodes && ino != ROOT
    requires DirStep(a, b, DirSlots(a)[slot := Dirent(NOINO, [])])
    requires c == b.(inodes := b.inodes[ino := b.inodes[ino].(links := b.inodes[ino].links - 1)])
    ensures a.inodes[ino].links > 0
    ensures VolOk(c) && NamesOk(c, loaded) &&
      ViewOf(c) == ViewOf(a).(names := ViewOf(a).names - {DirSlots(a)[slot].name})
  {
    hide VolOk, Files, Ptr, PtrMap, DirSlots, Contents, Names, LinkCount, DirShape;
    var s := DirSlots(a);
    FewLinks(a, loaded, ino);
    Linked(s, slot);
    RemoveEntry(a.inodes, s, loaded, slot, c.inodes);
    hide LinksOk;
    SetLinks(b, c, ino, b.inodes[ino].links - 1);
    DirUnmoved(b, c);
    DirStepContents(a, b, s[slot := Dirent(NOINO, [])]);
    SameContents(b, c);
    UniqueOf(c.inodes, s[slot := Dirent(NOINO, [])], loaded);
    UniqueOf(a.inodes, s, loaded);
  }

  /** Work on a regular file leaves the names alone. */
  lemma FileWork(a: Vol, b: Vol, loaded: set<int>, ino: int)
    requires NamesOk(a, loaded) && ino in a.inodes && ino != ROOT && b.inodes.Keys == a.inodes.Keys
    requires b.inodes == a.inodes[ino := b.inodes[ino]] && PtrMap(b) == PtrMap(a)[ino := PtrMap(b)[ino]]
    requires Files(b) == Files(a)[ino := Files(b)[ino]] && 0 <= b.inodes[ino].size
    requires b.inodes[ino].kind == a.inodes[ino].kind && b.inodes[ino].links == a.inodes[ino].links
    ensures NamesOk(b, loaded)
    ensures ViewOf(b) == ViewOf(a).(files := ViewOf(a).files[ino := Content(Files(b)[ino], b.inodes[ino].size)])
  {
    hide Files, Ptr, PtrMap, Names, LinkCount, Content;
    DirUnmoved(a, b);
    assert SizesOk(b);
    assert Contents(b) == Contents(a)[ino := Content(Files(b)[ino], b.inodes[ino].size)];
  }

  lemma QuietNames(a: Vol, b: Vol, loaded: set<int>, loaded': set<int>)
    requires NamesOk(a, loaded) && Quiet(a, b)
    requires forall ino :: ino in loaded && ino in a.inodes && a.inodes[ino].links == 0 ==> ino in loaded'
    ensures NamesOk(b, loaded') && ViewOf(b) == ViewOf(a)
  {
    hide Files, Ptr, PtrMap, Names, LinkCount, DirSlots, Contents;
    DirUnmoved(a, b);
    SameContents(a, b);
  }

  lemma NoEntries(a: Vol, loaded: set<int>, ino: int)
    requires NamesOk(a, loaded) && ino !in a.inodes && ino != NOINO
    ensures LinkCount(DirSlots(a), ino) == 0
  {
    hide Files;
    if LinkCount(DirSlots(a), ino) > 0 {
      var k := LinkedBy(DirSlots(a), ino);
      assert false;
    }
  }

  lemma MadeNames(a: Vol, b: Vol, loaded: set<int>, ino: int)
    requires NamesOk(a, loaded) && Made(a, b, ino, TYPE_FILE) && ino != NOINO
    ensures NamesOk(b, loaded + {ino}) && ViewOf(b) == ViewOf(a).(files := ViewOf(a).files[ino := File([], true)])
    ensures DirSlots(b) == DirSlots(a)
  {
    hide Files, Ptr, PtrMap, Names, LinkCount, DirSlots;
    DirUnmoved(a, b);
    NoEntries(a, loaded, ino);
    assert SizesOk(b);
    assert Contents(b) == Contents(a)[ino := File([], true)];
  }

  lemma ErasedNames(a: Vol, b: Vol, loaded: set<int>, ino: int)
    requires NamesOk(a, loaded) && Erased(a, b, ino) && ino in a.inodes && ino != ROOT && a.inodes[ino].links == 0
    ensures NamesOk(b, loaded - {ino}) && ViewOf(b) == ViewOf(a).(files := ViewOf(a).files - {ino})
  {
    hide Files, Ptr, PtrMap, Names, DirSlots;
    DirUnmoved(a, b);
    var s := DirSlots(a);
    forall k | 0 <= k < |s| && s[k].ino != NOINO
      ensures s[k].ino != ino
    {
      Linked(s, k);
    }
    hide LinkCount;
    assert SizesOk(b);
    assert Contents(b) == Contents(a) - {ino};
  }

  // ---- reading and writing bytes ----

  /** s with d stored at off, zero-filled up to off if s is shorter. */
  function WriteBytes(s: seq<Byte>, off: int, d: seq<Byte>): (t: seq<Byte>)
    requires 0 <= off
    ensures |t| == Max(|s|, off + |d|)
  {
    seq(Max(|s|, off + |d|), k requires 0 <= k < Max(|s|, off + |d|) =>
      if off <= k < off + |d| then d[k - off] else if k < |s| then s[k] else 0)
  }

  /** A write that stores nothing leaves the file as it was exactly if it is not past the end; else
      it extends the file with zeros. */
  lemma NothingWritten(s: seq<Byte>, off: int)
    requires 0 <= off
    ensures WriteBytes(s, off, []) == s <==> off <= |s|
    ensures off > |s| ==> WriteBytes(s, off, []) == s + Zeros(off - |s|)
  {
    var t := WriteBytes(s, off, []);
    assert off <= |s| ==> t == s;
    assert off > |s| ==> t == s + Zeros(off - |s|);
  }

  /** Bytes past the end of a file that a write at off would expose. */
  ghost predicate GapZero(r: seq<Byte>, size: int, off: int)
    requires |r| == MAXBYTES && 0 <= size
  {
    forall k :: size <= k < off && k < MAXBYTES ==> r[k] == 0
  }

  lemma NoGap(r: seq<Byte>, size: int, off: int)
    requires |r| == MAXBYTES && 0 <= off <= size
    ensures GapZero(r, size, off)
  {
  }

  lemma WriteByte(r: seq<Byte>, size: int, off: int, d: seq<Byte>, k: int)
    requires |r| == MAXBYTES && 0 <= size && 0 <= off && (d == [] || off + |d| <= MAXBYTES)
    requires 0 <= k < Max(size, off + |d|)
    ensures Content(Overlay(r, off, d), Max(size, off + |d|)).bytes[k] == WriteBytes(Content(r, size).bytes, off, d)[k]
       <==> !(size <= k < off && k < MAXBYTES && r[k] != 0)
  {
  }

  /** A write refines a write to a byte string exactly when the gap it leaves is zero, which is so
      for every clean file. */
  lemma WriteRefines(r: seq<Byte>, size: int, off: int, d: seq<Byte>)
    requires |r| == MAXBYTES && 0 <= size && 0 <= off && (d == [] || off + |d| <= MAXBYTES)
    ensures var f := Content(Overlay(r, off, d), Max(size, off + |d|));
            && (f.bytes == WriteBytes(Content(r, size).bytes, off, d) <==> GapZero(r, size, off))
            && (f.clean <==> GapZero(r, Max(size, off + |d|), MAXBYTES))
            && (Content(r, size).clean ==> f.clean && GapZero(r, size, off))
  {
    var size' := Max(size, off + |d|);
    var f, t, r' := Content(Overlay(r, off, d), size'), WriteBytes(Content(r, size).bytes, off, d), Overlay(r, off, d);
    forall k | 0 <= k < size'
      ensures f.bytes[k] == t[k] <==> !(size <= k < off && k < MAXBYTES && r[k] != 0)
    {
      WriteByte(r, size, off, d, k);
    }
    if GapZero(r, size, off) {
      assert f.bytes == t;
    } else {
      var k :| size <= k < off && k < MAXBYTES && r[k] != 0;
      assert f.bytes[k] != t[k];
    }
  }

  /** t has d at off, is no longer than it must be, and has every other byte of s. */
  ghost predicate Holds(s: seq<Byte>, t: seq<Byte>, off: int, d: seq<Byte>) {
    && 0 <= off && |t| == Max(|s|, off + |d|) && t[off..off + |d|] == d
    && forall k :: 0 <= k < |s| && !(off <= k < off + |d|) ==> t[k] == s[k]
  }

  /** So it is for the bytes of any file after a write. */
  lemma Written(r: seq<Byte>, size: int, off: int, d: seq<Byte>)
    requires |r| == MAXBYTES && 0 <= size && 0 <= off && (d == [] || off + |d| <= MAXBYTES)
    ensures Holds(Content(r, size).bytes, Content(Overlay(r, off, d), Max(size, off + |d|)).bytes, off, d)
  {
    var t := Content(Overlay(r, off, d), Max(size, off + |d|)).bytes;
    assert t[off..off + |d|] == d;
  }

  /** What a read finds is a slice of the byte string. */
  lemma ReadRefines(r: seq<Byte>, size: int, off: int, m: int)
    requires |r| == MAXBYTES && 0 <= off && 0 <= m && off + m <= size && off + m <= MAXBYTES
    ensures r[off..off + m] == Content(r, size).bytes[off..off + m]
  {
  }

  // ---- truncation ----

  /** s cut off at len, or zero-filled up to it. */
  function Resize(s: seq<Byte>, len: int): (t: seq<Byte>)
    requires 0 <= len
    ensures |t| == len
  {
    if len <= |s| then s[..len] else s + Zeros(len - |s|)
  }

  /** The end of the blocks that a truncation to len bytes keeps. */
  function KeptEnd(len: int): int {
    if BlockLen(len) < NDIRECT then BLOCKSIZE * BlockLen(len) else BLOCKSIZE * BlockLen(len) + BLOCKSIZE
  }

  /** The last kept block is not cleared past the new end, and from 15 blocks on one block too
      many is kept. */
  ghost predicate TailErased(s: seq<Byte>, len: int) {
    forall k :: len <= k < |s| && k < KeptEnd(len) && k < MAXBYTES && 0 <= k ==> s[k] == 0
  }

  lemma CutByte(r: seq<Byte>, len: int, k: int)
    requires |r| == MAXBYTES && 0 <= len && 0 <= k < MAXBYTES
    ensures Cut(r, BlockLen(len), NFILEBLOCKS)[k] == if k < KeptEnd(len) then r[k] else 0
    ensures len <= KeptEnd(len)
  {
  }

  lemma ResizeRefines(r: seq<Byte>, r': seq<Byte>, size: int, len: int)
    requires |r| == |r'| == MAXBYTES && 0 <= size && 0 <= len
    requires forall k :: 0 <= k < len && k < MAXBYTES ==> r'[k] == r[k]
    ensures Content(r', len).bytes == Resize(Content(r, size).bytes, len) <==> GapZero(r, size, len)
  {
    var s, t := Content(r', len).bytes, Resize(Content(r, size).bytes, len);
    if GapZero(r, size, len) {
      assert s == t;
    } else {
      var k :| size <= k < len && k < MAXBYTES && r[k] != 0;
      assert s[k] != t[k];
    }
  }

  lemma CleanRefines(r: seq<Byte>, r': seq<Byte>, size: int, len: int)
    requires |r| == |r'| == MAXBYTES && 0 <= size && 0 <= len
    requires forall k :: 0 <= k < MAXBYTES ==> r'[k] == if k < KeptEnd(len) then r[k] else 0
    ensures Content(r', len).clean <==> GapZero(r, len, KeptEnd(len))
    ensures Content(r, size).clean ==>
      GapZero(r, size, len) && (GapZero(r, len, KeptEnd(len)) <==> TailErased(Content(r, size).bytes, len))
  {
    hide KeptEnd;
    var f := Content(r, size);
    if f.clean && TailErased(f.bytes, len) {
      forall k | len <= k < KeptEnd(len) && k < MAXBYTES
        ensures r[k] == 0
      {
        assert k < size ==> f.bytes[k] == r[k];
      }
    }
    if f.clean && GapZero(r, len, KeptEnd(len)) {
      forall k | len <= k < |f.bytes| && k < KeptEnd(len) && k < MAXBYTES && 0 <= k
        ensures f.bytes[k] == 0
      {
        assert f.bytes[k] == r[k];
      }
    }
  }

  /** Truncation refines truncation of a byte string exactly when the bytes it exposes are zero, and
      leaves a clean file exactly when those past the new end in the kept blocks are. */
  lemma TruncateRefines(r: seq<Byte>, size: int, len: int)
    requires |r| == MAXBYTES && 0 <= size && 0 <= len
    ensures var f, g := Content(r, size), Content(Cut(r, BlockLen(len), NFILEBLOCKS), len);
            && (g.bytes == Resize(f.bytes, len) <==> GapZero(r, size, len))
            && (g.clean <==> GapZero(r, len, KeptEnd(len)))
            && (f.clean ==> GapZero(r, size, len) && (g.clean <==> TailErased(f.bytes, len)))
  {
    hide Cut, BlockLen;
    var r' := Cut(r, BlockLen(len), NFILEBLOCKS);
    forall k | 0 <= k < MAXBYTES
      ensures r'[k] == if k < KeptEnd(len) then r[k] else 0
      ensures len <= KeptEnd(len)
    {
      CutByte(r, len, k);
    }
    CutByte(r, len, 0);
    hide KeptEnd;
    ResizeRefines(r, r', size, len);
    CleanRefines(r, r', size, len);
  }

  /** Whole blocks, fewer than 15 of them, or no less than the largest file. */
  predicate SafeLength(len: int) {
    (len % BLOCKSIZE == 0 && len < BLOCKSIZE * NDIRECT) || len >= MAXBYTES
  }

  lemma SafeTail(s: seq<Byte>, len: int)
    requires 0 <= len && SafeLength(len)
    ensures TailErased(s, len)
  {
  }

  /** The lengths to which every file can be truncated and be clean afterwards. */
  lemma CleanLengths(len: int)
    requires 0 <= len
    ensures (forall r: seq<Byte> :: |r| == MAXBYTES ==> Content(Cut(r, BlockLen(len), NFILEBLOCKS), len).clean)
       <==> SafeLength(len)
  {
    hide Cut, Content;
    forall r: seq<Byte> | |r| == MAXBYTES
      ensures Content(Cut(r, BlockLen(len), NFILEBLOCKS), len).clean <==> GapZero(r, len, KeptEnd(len))
    {
      TruncateRefines(r, 0, len);
    }
    if len < MAXBYTES && !(len % BLOCKSIZE == 0 && len < BLOCKSIZE * NDIRECT) {
      var r: seq<Byte> := Zeros(MAXBYTES)[len := 7];
      assert len < KeptEnd(len) && r[len] != 0;
    }
  }

  /** Truncation to nothing, or to no less than the size, always leaves a clean file. */
  lemma TruncateClean(s: seq<Byte>, len: int)
    requires len == 0 || len >= |s|
    ensures TailErased(s, len)
  {
  }

  /** A two-byte file cut to one byte keeps its second byte: a write past the end brings it back. */
  lemma TruncateNotClean()
    ensures !TailErased([7, 7], 1)
    ensures forall r: seq<Byte> :: |r| == MAXBYTES && r[1] == 7 && Content(r, 2).clean ==>
              var g := Cut(r, BlockLen(1), NFILEBLOCKS);
              Content(Overlay(g, 2, [9]), 3).bytes[1] == 7 != WriteBytes(Content(g, 1).bytes, 2, [9])[1]
  {
    var s: seq<Byte> := [7, 7];
    assert 1 <= 1 < |s| && 1 < KeptEnd(1) && s[1] != 0;
    forall r: seq<Byte> | |r| == MAXBYTES && r[1] == 7 && Content(r, 2).clean
      ensures var g := Cut(r, BlockLen(1), NFILEBLOCKS);
              Content(Overlay(g, 2, [9]), 3).bytes[1] == 7 != WriteBytes(Content(g, 1).bytes, 2, [9])[1]
    {
      CutByte(r, 1, 1);
    }
  }

  /** The same file cut to one byte and then extended to two: the second byte is 7 again, not 0. */
  lemma CutThenExtend(r: seq<Byte>)
    requires |r| == MAXBYTES && r[1] == 7
    ensures var g := Cut(r, BlockLen(1), NFILEBLOCKS);
            Content(Cut(g, BlockLen(2), NFILEBLOCKS), 2).bytes[1] == 7 != Resize(Content(g, 1).bytes, 2)[1]
  {
    hide Cut;
    CutByte(r, 1, 1);
    CutByte(Cut(r, BlockLen(1), NFILEBLOCKS), 2, 1);
  }

  /** A file of n blocks and one more byte, a 7, cut to n whole blocks and extended by a byte again:
      the byte is 0 as long as n is below 15, and 7 from 15 on, as the block it is in was kept. */
  lemma SixteenthBlock(r: seq<Byte>, n: int)
    requires |r| == MAXBYTES && 0 <= n < NFILEBLOCKS && r[BLOCKSIZE * n] == 7
    ensures var g := Cut(r, BlockLen(BLOCKSIZE * n), NFILEBLOCKS);
            Content(Cut(g, BlockLen(BLOCKSIZE * n + 1), NFILEBLOCKS), BLOCKSIZE * n + 1).bytes[BLOCKSIZE * n] ==
            if n < NDIRECT then 0 else 7
  {
    hide Cut;
    var len := BLOCKSIZE * n;
    assert BlockLen(len) == n && BlockLen(len + 1) == n + 1;
    CutByte(r, len, len);
    CutByte(Cut(r, BlockLen(len), NFILEBLOCKS), len + 1, len);
  }
}
