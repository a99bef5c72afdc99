/** Reading, writing and truncating regular files, against byte strings. */
module SfsFiles {
  import opened Bytes
  import opened Uios
  import opened SfsFormat
  import opened SfsVolume
  import opened SfsState
  import opened SfsBmap
  import opened SfsIo
  import opened SfsTruncate
  import opened SfsDir
  import opened SfsNames
  import opened SfsOps

  lemma FileHere(fs: Sfs, p: int)
    requires Valid(fs) && IsFile(fs, p)
    ensures fs.tab.heap[p].ino in fs.inodes && fs.tab.heap[p].ino in Sight(fs).files
    ensures fs.tab.heap[p].inode == fs.inodes[fs.tab.heap[p].ino] && 0 <= fs.tab.heap[p].inode.size
    ensures Sight(fs).files[fs.tab.heap[p].ino] == Content(Files(fs.Vol())[fs.tab.heap[p].ino],
      fs.tab.heap[p].inode.size)
  {
    hide Sfs.Sound, Files, Content, DirSlots;
    LoadedInode(fs, p);
  }

  /** The file behind a loaded vnode. */
  ghost function FileAt(fs: Sfs, p: int): (f: File)
    requires Valid(fs) && IsFile(fs, p)
    reads fs, fs.freemap
    ensures fs.tab.heap[p].ino in Sight(fs).files && f == Sight(fs).files[fs.tab.heap[p].ino]
  {
    FileHere(fs, p);
    Sight(fs).files[fs.tab.heap[p].ino]
  }

  /** Only the file of the vnode at p changed, from view v to w; it is now g. */
  ghost predicate OnlyFile(v: View, w: View, ino: int, g: File) {
    w == v.(files := v.files[ino := g])
  }

  lemma ReadPart(a: Vol, ino: int, size: int, c: Cursor, c': Cursor)
    requires IoStep(a, a, ino, c, c') && c.rw.Read? && (c'.pos > c.pos ==> c'.offset <= size) && 0 <= size
    requires c'.offset - c.offset == c'.pos - c.pos
    ensures var m := c'.pos - c.pos;
            m > 0 ==>
              c.offset + m <= size && c' == Advance(c, Content(Files(a)[ino], size).bytes[c.offset..c.offset + m])
    ensures c'.pos == c.pos ==> c' == Advance(c, [])
    ensures c'.offset == c.offset + (c'.pos - c.pos) && c'.limit == c.limit && |c'.mem| == |c.mem|
  {
    hide Files;
    var m := c'.pos - c.pos;
    if m > 0 {
      ReadRefines(Files(a)[ino], size, c.offset, m);
    } else {
      assert Transfer(a, ino, c, 0) == [];
    }
  }

  lemma Stored(c: Cursor, d: seq<Byte>)
    requires CursorOk(c) && c.rw.Read? && 0 < |d| <= c.resid
    ensures var m := Advance(c, d).mem;
            && |m| == |c.mem| && m[..c.pos] == c.mem[..c.pos] && m[c.pos..c.pos + |d|] == d
            && m[c.pos + |d|..] == c.mem[c.pos + |d|..]
  {
  }

  /** sfs_read: exactly the bytes up to the end of the file; the rest of the request stays in
      resid.  Only a fault in the reader's memory, or a place past the largest possible file, can
      make it stop earlier. */
  method ReadFile(fs: Sfs, p: int, uio: Uio) returns (err: Errno)
    requires Valid(fs) && IsFile(fs, p) && CursorOk(uio.c) && uio.c.rw.Read?
    requires uio.c.offset + uio.c.resid < 0x8000_0000
    modifies fs, fs.freemap, uio
    ensures Valid(fs) && IsFile(fs, p) && fs.refs == old(fs.refs) && fs.tab == old(fs.tab) &&
      Sight(fs) == old(Sight(fs))
    ensures var c, f, m := old(uio.c), FileAt(fs, p), uio.c.pos - old(uio.c).pos;
            && 0 <= m <= c.resid && uio.c.offset == c.offset + m && uio.c.resid == c.resid - m
            && (m > 0 ==> c.offset + m <= |f.bytes|)
            && (err == OK ==> uio.c.resid == 0 || uio.c.offset >= |f.bytes|)
            && |uio.c.mem| == |c.mem| && uio.c.mem[..c.pos] == c.mem[..c.pos]
            && (m > 0 ==> uio.c.mem[c.pos..c.pos + m] == f.bytes[c.offset..c.offset + m])
            && uio.c.mem[c.pos + m..] == c.mem[c.pos + m..]
            && uio.c == Advance(c, if m == 0 then [] else f.bytes[c.offset..c.offset + m])
            && (err == EFAULT ==> c.limit < |c.mem|) && (err == EINVAL ==> c.offset + m >= MAXBYTES) &&
              err in {OK, EFAULT, EINVAL}
  {
    hide Sfs.Sound, NamesOk, ViewOf, Files, Content;
    FileHere(fs, p);
    ghost var a, c := fs.Vol(), uio.c;
    ghost var ino := fs.tab.heap[p].ino;
    ghost var size := fs.tab.heap[p].inode.size;
    err := Io(fs, p, uio);
    ReadPart(a, ino, size, c, uio.c);
    if uio.c.pos > c.pos {
      Stored(c, FileAt(fs, p).bytes[c.offset..uio.c.offset]);
    }
  }

  /** sfs_write.  The d bytes written are a prefix of the request, all of it if the call
      succeeds; a clean file becomes exactly the byte string with d stored at the offset, any gap
      filled with zeros; for other files that is so exactly if the bytes in the gap are zero. */
  method WriteFile(fs: Sfs, p: int, uio: Uio) returns (err: Errno)
    requires Valid(fs) && IsFile(fs, p) && CursorOk(uio.c) && uio.c.rw.Write?
    requires uio.c.offset + uio.c.resid < 0x8000_0000
    modifies fs, fs.freemap, uio
    ensures Valid(fs) && IsFile(fs, p) && fs.refs == old(fs.refs) && OnlyInode(old(fs.tab), fs.tab, p)
    ensures var c, f, g := old(uio.c), old(FileAt(fs, p)), FileAt(fs, p);
            && 0 <= uio.c.pos - c.pos <= c.resid
            && var d := c.mem[c.pos..uio.c.pos];
            && uio.c == Advance(c, d) && (err == OK ==> uio.c.resid == 0)
            && OnlyFile(old(Sight(fs)), Sight(fs), fs.tab.heap[p].ino, g)
            && Holds(f.bytes, g.bytes, c.offset, d)
            && (f.clean ==> g == File(WriteBytes(f.bytes, c.offset, d), true))
            && (d == [] ==> (g.bytes == f.bytes <==> c.offset <= |f.bytes|))
            && (g.clean <==> GapZero(Files(old(fs.Vol()))[fs.tab.heap[p].ino], |g.bytes|, MAXBYTES))
            && (g.bytes == WriteBytes(f.bytes, c.offset, d) <==>
                GapZero(Files(old(fs.Vol()))[fs.tab.heap[p].ino], |f.bytes|, c.offset))
    ensures err in {OK, ENOSPC, EFAULT, EINVAL} && (err == ENOSPC ==> Full(fs.Vol()))
    ensures (err == EFAULT ==> uio.c.limit < |uio.c.mem|) && (err == EINVAL <==> err != OK && uio.c.offset >= MAXBYTES)
    ensures uio.c.pos == old(uio.c).pos || uio.c.offset <= MAXBYTES
  {
    hide Sfs.Sound, NamesOk, ViewOf, Files, Content, WriteBytes, GapZero, PtrMap, Holds;
    FileHere(fs, p);
    ghost var a, c, loaded := fs.Vol(), uio.c, fs.refs.cache.Keys;
    ghost var ino := fs.tab.heap[p].ino;
    ghost var size := fs.tab.heap[p].inode.size;
    err := Io(fs, p, uio);
    ghost var d := c.mem[c.pos..uio.c.pos];
    FileWork(a, fs.Vol(), loaded, ino);
    WriteRefines(Files(a)[ino], size, c.offset, d);
    Written(Files(a)[ino], size, c.offset, d);
    if c.offset <= size {
      NoGap(Files(a)[ino], size, c.offset);
      NothingWritten(Content(Files(a)[ino], size).bytes, c.offset);
    }
    FileHere(fs, p);
  }

  /** What was written is read back, whatever else the file holds. */
  method WriteThenRead(fs: Sfs, p: int, offset: int, data: seq<Byte>) returns (err: Errno, back: seq<Byte>)
    requires Valid(fs) && IsFile(fs, p) && 0 <= offset && offset + |data| < 0x8000_0000
    modifies fs, fs.freemap
    ensures Valid(fs) && IsFile(fs, p) && (err == OK ==> back == data)
  {
    hide Sfs.Sound, NamesOk, ViewOf, FileAt, GapZero, WriteBytes;
    var out := new Uio(Write, offset, data);
    err := WriteFile(fs, p, out);
    back := [];
    if err != OK {
      return;
    }
    assert data[0..|data|] == data;
    var room := new Uio(Read, offset, Zeros(|data|));
    err := ReadFile(fs, p, room);
    back := room.c.mem;
    if err == OK && data != [] {
      assert back[0..|data|] == back;
    }
  }

  /** A write past the largest possible file stores nothing and fails, and yet extends an empty file
      to its offset. */
  method WriteAtLimit(fs: Sfs, p: int, uio: Uio) returns (err: Errno)
    requires Valid(fs) && IsFile(fs, p) && FileAt(fs, p) == File([], true)
    requires CursorOk(uio.c) && uio.c.rw.Write? && uio.c.offset == MAXBYTES && 0 < uio.c.resid < 0x1000_0000
    modifies fs, fs.freemap, uio
    ensures err == EINVAL && uio.c == old(uio.c)
    ensures Valid(fs) && IsFile(fs, p) && FileAt(fs, p) == File(Zeros(MAXBYTES), true)
  {
    hide Sfs.Sound, NamesOk, ViewOf, FileAt, GapZero, WriteBytes;
    ghost var c := uio.c;
    err := WriteFile(fs, p, uio);
    assert c.mem[c.pos..uio.c.pos] == [];
    NothingWritten([], MAXBYTES);
  }

  /** Truncating to nothing leaves no byte behind, whatever the file was. */
  lemma CutAll(r: seq<Byte>)
    requires |r| == MAXBYTES
    ensures Content(Cut(r, BlockLen(0), NFILEBLOCKS), 0) == File([], true)
  {
    forall k | 0 <= k < MAXBYTES
      ensures Cut(r, BlockLen(0), NFILEBLOCKS)[k] == 0
    {
      CutByte(r, 0, k);
    }
  }

  /** sfs_truncate.  The file is cut, or extended with zeros, to len bytes, exactly if the bytes an
      extension exposes are zero, as they are in a clean file; it is clean afterwards exactly if the
      bytes past the new end in the blocks kept are zero. */
  method TruncateFile(fs: Sfs, p: int, len: int)
    requires Valid(fs) && IsFile(fs, p) && 0 <= len < 0x8000_0000
    modifies fs, fs.freemap
    ensures Valid(fs) && IsFile(fs, p) && fs.refs == old(fs.refs) && OnlyInode(old(fs.tab), fs.tab, p)
    ensures var f, g := old(FileAt(fs, p)), FileAt(fs, p);
            && OnlyFile(old(Sight(fs)), Sight(fs), fs.tab.heap[p].ino, g) && |g.bytes| == len
            && (f.clean ==> g.bytes == Resize(f.bytes, len) && (g.clean <==> TailErased(f.bytes, len)))
            && (len == 0 ==> g == File([], true))
            && var r := Files(old(fs.Vol()))[fs.tab.heap[p].ino];
            && (g.bytes == Resize(f.bytes, len) <==> GapZero(r, |f.bytes|, len))
            && (g.clean <==> GapZero(r, len, KeptEnd(len)))
  {
    hide Sfs.Sound, NamesOk, ViewOf, Files, Content, PtrMap, Cut, Resize, TailErased, GapZero, KeptEnd;
    FileHere(fs, p);
    ghost var a, loaded := fs.Vol(), fs.refs.cache.Keys;
    ghost var ino := fs.tab.heap[p].ino;
    ghost var size := fs.tab.heap[p].inode.size;
    Truncate(fs, p, len);
    FileWork(a, fs.Vol(), loaded, ino);
    TruncateRefines(Files(a)[ino], size, len);
    if len == 0 {
      CutAll(Files(a)[ino]);
    }
    FileHere(fs, p);
  }
}
