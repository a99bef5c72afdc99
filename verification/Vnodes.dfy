/** The counts of a vnode: kern/fs/vfs/vnode.c, on the vnodes of a mounted volume. */
module Vnodes {
  import opened Bitmaps
  import opened SfsFormat
  import opened SfsVolume
  import opened VnodeTable
  import opened SfsState
  import opened SfsVnodes
  import opened SfsNames
  import opened SfsOps

  /** vnode_incref */
  method IncRef(fs: Sfs, p: int)
    requires Valid(fs) && p in fs.tab.heap
    modifies fs`tab, fs`refs
    ensures Valid(fs) && fs.Vol() == old(fs.Vol()) && p in fs.tab.heap && Kin(old(fs.tab), fs.tab)
    ensures fs.refs == old(fs.refs).(held := old(fs.refs).held + multiset{p})
  {
    hide Sfs.Sound, NamesOk;
    Incref(fs, p);
  }

  lemma OpenCount(t: Table, r: Refs, p: int, n: int, opens: multiset<int>)
    requires TableOk(t, r) && p in t.heap && 0 <= n <= t.heap[p].refcount
    requires opens == r.opens[p := n]
    ensures TableOk(t.(heap := t.heap[p := t.heap[p].(opencount := n)]), r.(opens := opens))
  {
    SetCounts(t, r, p, t.heap[p].(opencount := n), r.held, opens);
  }

  /** The open count of the vnode at p becomes n. */
  method SetOpen(fs: Sfs, p: int, n: int)
    requires fs.Sound() && p in fs.tab.heap && 0 <= n <= fs.tab.heap[p].refcount
    modifies fs`tab, fs`refs
    ensures fs.Sound() && fs.Vol() == old(fs.Vol()) && fs.refs == old(fs.refs).(opens := old(fs.refs).opens[p := n])
    ensures fs.tab == old(fs.tab).(heap := old(fs.tab).heap[p := old(fs.tab).heap[p].(opencount := n)])
  {
    hide VolOk, Coherent, TableOk, MapStored, Bits, IsSuper;
    ghost var r := fs.refs.(opens := fs.refs.opens[p := n]);
    var t := fs.tab.(heap := fs.tab.heap[p := fs.tab.heap[p].(opencount := n)]);
    OpenCount(fs.tab, fs.refs, p, n, r.opens);
    CoherentCounts(fs.disk, fs.inodes, fs.tab, fs.refs, t, r, p);
    fs.tab, fs.refs := t, r;
  }

  /** vnode_incopen, on a vnode with a reference that no open accounts for. */
  method IncOpen(fs: Sfs, p: int)
    requires Valid(fs) && p in fs.tab.heap && fs.refs.opens[p] < fs.refs.held[p]
    modifies fs`tab, fs`refs
    ensures Valid(fs) && fs.Vol() == old(fs.Vol()) && p in fs.tab.heap && Kin(old(fs.tab), fs.tab)
    ensures fs.refs == old(fs.refs).(opens := old(fs.refs).opens + multiset{p})
  {
    hide Sfs.Sound, NamesOk;
    Counts(fs);
    ghost var opens := fs.refs.opens;
    SetOpen(fs, p, fs.tab.heap[p].opencount + 1);
    assert opens[p := opens[p] + 1] == opens + multiset{p};
  }

  /** vnode_decopen: the last close syncs the inode. */
  method DecOpen(fs: Sfs, p: int)
    requires Valid(fs) && p in fs.tab.heap && fs.refs.opens[p] > 0
    modifies fs`disk, fs`tab, fs`refs
    ensures Valid(fs) && Sight(fs) == old(Sight(fs)) && p in fs.tab.heap && Kin(old(fs.tab), fs.tab)
    ensures fs.refs == old(fs.refs).(opens := old(fs.refs).opens - multiset{p})
    ensures fs.refs.opens[p] == 0 ==> !fs.tab.heap[p].dirty
  {
    hide Sfs.Sound, NamesOk, Quiet, ViewOf;
    Counts(fs);
    ghost var opens, a, loaded := fs.refs.opens, fs.Vol(), fs.refs.cache.Keys;
    var opencount := fs.tab.heap[p].opencount - 1;
    SetOpen(fs, p, opencount);
    assert opens[p := opens[p] - 1] == opens - multiset{p};
    if opencount > 0 {
      return;
    }
    SyncInode(fs, p);
    QuietNames(a, fs.Vol(), loaded, loaded);
  }
}
