/** Directory I/O: sfs_readdir, sfs_writedir, sfs_dir_findname, sfs_dir_link and sfs_dir_unlink of
    kern/fs/sfs/sfs_vnode.c. */
module SfsDir {
  import opened Bytes
  import opened Uios
  import opened SfsFormat
  import opened SfsVolume
  import opened SfsState
  import opened SfsBmap
  import opened SfsIo
  import opened Directory

  const ROOT := ROOT_LOCATION

  /** The root directory holds whole entries and has no holes. */
  ghost predicate DirShape(v: Vol) {
    && ROOT in v.inodes
    && var i := v.inodes[ROOT];
    && i.kind == TYPE_DIR && i.links == 1 && 0 <= i.size <= MAXBYTES && i.size % DIRENTSIZE == 0
    && forall j :: 0 <= j && BLOCKSIZE * j < i.size ==> Ptr(v, ROOT, j) != 0
  }

  ghost function RootSize(v: Vol): int {
    if ROOT in v.inodes then v.inodes[ROOT].size else 0
  }

  ghost function DirSlots(v: Vol): seq<Dirent>
    requires DirShape(v)
  {
    Slots(Files(v)[ROOT], v.inodes[ROOT].size / DIRENTSIZE)
  }

  /** From volume a to b, only the root directory changed; its entries are now s. */
  ghost predicate DirStep(a: Vol, b: Vol, s: seq<Dirent>) {
    && DirShape(b) && DirSlots(b) == s && ROOT in a.inodes
    && |b.disk| == |a.disk| && b.inodes == a.inodes[ROOT := b.inodes[ROOT]]
    && Files(b) == Files(a)[ROOT := Files(b)[ROOT]]
  }

  lemma DirWrite(a: Vol, b: Vol, k: int, d: seq<Byte>)
    requires DirShape(a) && WroteFile(a, b, ROOT, DIRENTSIZE * k, d) && |d| == DIRENTSIZE
    requires 0 <= k <= |DirSlots(a)|
    ensures DirStep(a, b, Put(DirSlots(a), k, DecodeDirent(d)))
  {
    hide Files, Ptr, PtrMap, DecodeDirent;
    var n := a.inodes[ROOT].size / DIRENTSIZE;
    SlotsPut(Files(a)[ROOT], n, k, d);
    forall j | 0 <= j && BLOCKSIZE * j < b.inodes[ROOT].size
      ensures Ptr(b, ROOT, j) != 0
    {
      assert BLOCKSIZE * j < a.inodes[ROOT].size ==> Ptr(a, ROOT, j) != 0;
    }
  }

  lemma DirNoWrite(a: Vol, b: Vol, k: int)
    requires DirShape(a) && WroteFile(a, b, ROOT, DIRENTSIZE * k, []) && 0 <= k <= |DirSlots(a)|
    ensures DirStep(a, b, DirSlots(a))
  {
    hide Files, Ptr, PtrMap;
  }

  lemma DirStepNone(a: Vol)
    requires DirShape(a)
    ensures DirStep(a, a, DirSlots(a))
  {
  }

  lemma ReadBack(a: Vol, ino: int, c: Cursor, c': Cursor)
    requires IoStep(a, a, ino, c, c') && c.rw.Read? && c.pos == 0 && c.resid == |c.mem| && c'.resid == 0 && |c.mem| > 0
    ensures c.offset + |c.mem| <= MAXBYTES && c'.mem == Files(a)[ino][c.offset..c.offset + |c.mem|]
  {
    hide Files;
  }

  /** sfs_readdir: never short, never fails. */
  method ReadDir(fs: Sfs, p: int, slot: int) returns (e: Dirent)
    requires fs.Sound() && p in fs.tab.heap && fs.tab.heap[p].ino == ROOT
    requires DirShape(fs.Vol()) && 0 <= slot < |DirSlots(fs.Vol())|
    modifies fs, fs.freemap
    ensures fs.Sound() && fs.Vol() == old(fs.Vol()) && fs.tab == old(fs.tab) && fs.refs == old(fs.refs)
    ensures e == DirSlots(fs.Vol())[slot]
  {
    hide Sfs.Sound, WroteFile, Ptr, Files, DecodeDirent;
    LoadedInode(fs, p);
    ghost var a := fs.Vol();
    var actualpos := slot * DIRENTSIZE;
    var ku := new Uio(Read, actualpos, Zeros(DIRENTSIZE));
    ghost var c := ku.c;
    var err := Io(fs, p, ku);
    StepFacts(a, a, ROOT, c, ku.c);
    assert err == OK && ku.c.resid == 0;
    ReadBack(a, ROOT, c, ku.c);
    e := DecodeDirent(ku.c.mem);
  }

  /** sfs_writedir: the whole entry is written or the directory is as it was; overwriting an
      existing slot never fails. */
  method WriteDir(fs: Sfs, p: int, d: seq<Byte>, slot: int) returns (err: Errno)
    requires fs.Sound() && p in fs.tab.heap && fs.tab.heap[p].ino == ROOT && |d| == DIRENTSIZE
    requires DirShape(fs.Vol()) && 0 <= slot <= |DirSlots(fs.Vol())|
    modifies fs, fs.freemap
    ensures fs.Sound() && fs.refs == old(fs.refs) && OnlyInode(old(fs.tab), fs.tab, p)
    ensures DirStep(old(fs.Vol()), fs.Vol(), if err == OK then Put(DirSlots(old(fs.Vol())), slot, DecodeDirent(d))
      else DirSlots(old(fs.Vol())))
    ensures slot < |DirSlots(old(fs.Vol()))| ==> err == OK
    ensures err in {OK, ENOSPC, EINVAL} && (err == ENOSPC ==> Full(fs.Vol()) && Scarce(old(fs.Vol()), 1)) &&
      (err == EINVAL ==> slot * DIRENTSIZE >= MAXBYTES)
  {
    hide Sfs.Sound, WroteFile, Ptr, Files, DecodeDirent, DirStep;
    LoadedInode(fs, p);
    ghost var a := fs.Vol();
    var actualpos := slot * DIRENTSIZE;
    var ku := new Uio(Write, actualpos, d);
    ghost var c := ku.c;
    err := Io(fs, p, ku);
    if err == OK {
      assert c.mem[c.pos..ku.c.pos] == d;
      DirWrite(a, fs.Vol(), slot, d);
    } else {
      assert ku.c.pos == c.pos;
      assert c.mem[c.pos..ku.c.pos] == [];
      DirNoWrite(a, fs.Vol(), slot);
    }
  }

  /** sfs_dir_nentries */
  method NEntries(fs: Sfs, p: int) returns (n: int)
    requires fs.Sound() && p in fs.tab.heap && fs.tab.heap[p].ino == ROOT && DirShape(fs.Vol())
    ensures n == |DirSlots(fs.Vol())|
  {
    hide Sfs.Sound, Ptr, Files;
    LoadedInode(fs, p);
    var i := fs.tab.heap[p].inode;
    assert i.kind == TYPE_DIR && i.size % DIRENTSIZE == 0;
    n := i.size / DIRENTSIZE;
  }

  /** sfs_dir_findname: the slot and inode number entered under the name, and the last free slot
      (-1 if there is none).  The name is met at most once. */
  method FindName(fs: Sfs, p: int, name: Name) returns (found: bool, ino: int, slot: int, emptyslot: int)
    requires fs.Sound() && p in fs.tab.heap && fs.tab.heap[p].ino == ROOT
    requires DirShape(fs.Vol()) && Unique(DirSlots(fs.Vol()))
    modifies fs, fs.freemap
    ensures fs.Sound() && fs.Vol() == old(fs.Vol()) && fs.tab == old(fs.tab) && fs.refs == old(fs.refs)
    ensures var s := DirSlots(fs.Vol());
            && (found <==> name in Names(s))
            && (found ==> 0 <= slot < |s| && s[slot] == Dirent(ino, name) && ino == Names(s)[name] != NOINO)
            && -1 <= emptyslot < |s| && (emptyslot >= 0 ==> s[emptyslot].ino == NOINO)
            && (forall k :: emptyslot < k < |s| ==> s[k].ino != NOINO)
  {
    hide Sfs.Sound, DirSlots, DirShape;
    ghost var s := DirSlots(fs.Vol());
    var nentries := NEntries(fs, p);
    found, ino, slot, emptyslot := false, 0, 0, -1;
    for i := 0 to nentries
      invariant fs.Sound() && fs.Vol() == old(fs.Vol()) && fs.tab == old(fs.tab) && fs.refs == old(fs.refs)
      invariant found ==> 0 <= slot < i && s[slot] == Dirent(ino, name) && ino != NOINO
      invariant !found ==> forall k :: 0 <= k < i && s[k].ino != NOINO ==> s[k].name != name
      invariant -1 <= emptyslot < i && (emptyslot >= 0 ==> s[emptyslot].ino == NOINO)
      invariant forall k :: emptyslot < k < i ==> s[k].ino != NOINO
    {
      var tsd := ReadDir(fs, p, i);
      if tsd.ino == NOINO {
        emptyslot := i;
      } else if tsd.name == name {
        assert !found;
        found, slot, ino := true, i, tsd.ino;
      }
    }
    if found {
      NameAt(s, slot);
    }
  }

  /** sfs_dir_link: a new entry in a free slot or at the end, unless the name exists or is too
      long.  A call that fails leaves the entries as they were. */
  method DirLink(fs: Sfs, p: int, name: Name, ino: int) returns (err: Errno, slot: int)
    requires fs.Sound() && p in fs.tab.heap && fs.tab.heap[p].ino == ROOT && IsU32(ino) && ino != NOINO
    requires DirShape(fs.Vol()) && Unique(DirSlots(fs.Vol()))
    modifies fs, fs.freemap
    ensures fs.Sound() && fs.refs == old(fs.refs) && OnlyInode(old(fs.tab), fs.tab, p)
    ensures var s := DirSlots(old(fs.Vol()));
            && (err == EEXIST <==> name in Names(s))
            && (err == ENAMETOOLONG <==> name !in Names(s) && |name| >= NAMELEN)
            && (err == OK ==> 0 <= slot <= |s| && (slot < |s| ==> s[slot].ino == NOINO))
            && (err == OK ==> DirStep(old(fs.Vol()), fs.Vol(), Put(s, slot, Dirent(ino, name))))
            && (err != OK ==> DirStep(old(fs.Vol()), fs.Vol(), s))
    ensures err in {OK, EEXIST, ENAMETOOLONG, ENOSPC, EINVAL} &&
      (err == ENOSPC ==> Full(fs.Vol()) && Scarce(old(fs.Vol()), 1))
    ensures err == EINVAL ==> |DirSlots(old(fs.Vol()))| * DIRENTSIZE >= MAXBYTES
  {
    hide Sfs.Sound, DirSlots, DirShape, DirStep, DecodeDirent, Unique, Names, EncodeDirent;
    ghost var a := fs.Vol();
    ghost var s := DirSlots(a);
    DirStepNone(a);
    var found, oldino, oldslot, emptyslot := FindName(fs, p, name);
    if found {
      return EEXIST, 0;
    }
    if |name| + 1 > NAMELEN {
      return ENAMETOOLONG, 0;
    }
    if emptyslot < 0 {
      emptyslot := NEntries(fs, p);
    }
    slot := emptyslot;
    DirentRoundTrip(ino, name);
    err := WriteDir(fs, p, EncodeDirent(ino, name), slot);
  }

  /** The entry sfs_dir_unlink writes: all zero bytes. */
  lemma BlankEntry()
    ensures DecodeDirent(Zeros(DIRENTSIZE)) == Dirent(NOINO, [])
  {
  }

  /** sfs_dir_unlink: never fails. */
  method DirUnlink(fs: Sfs, p: int, slot: int) returns (err: Errno)
    requires fs.Sound() && p in fs.tab.heap && fs.tab.heap[p].ino == ROOT
    requires DirShape(fs.Vol()) && 0 <= slot < |DirSlots(fs.Vol())|
    modifies fs, fs.freemap
    ensures fs.Sound() && fs.refs == old(fs.refs) && OnlyInode(old(fs.tab), fs.tab, p) && err == OK
    ensures DirStep(old(fs.Vol()), fs.Vol(), DirSlots(old(fs.Vol()))[slot := Dirent(NOINO, [])])
  {
    hide Sfs.Sound, DirSlots, DirShape, DirStep, DecodeDirent;
    BlankEntry();
    err := WriteDir(fs, p, Zeros(DIRENTSIZE), slot);
  }
}
