/** Loaded vnodes.  A vnode pointer is an address in the map `heap`; the table `vnodes` kept in
    struct sfs_fs is a list of such addresses. */
module VnodeTable {
  import opened Basics
  import opened SfsFormat

  /** struct sfs_vnode with the counts of its struct vnode */
  datatype Vnode = Vnode(ino: int, inode: Inode, dirty: bool, refcount: int, opencount: int)

  datatype Table = Table(heap: map<int, Vnode>, vnodes: seq<int>)

  /** The loaded vnode of an inode number, and the references to each vnode handed out, with
      those of them made by opening it (one element for each). */
  datatype Refs = Refs(cache: map<int, int>, held: multiset<int>, opens: multiset<int>)

  ghost predicate CountsOk(v: Vnode, p: int, r: Refs) {
    1 <= v.refcount == r.held[p] && v.opencount == r.opens[p] && v.opencount <= v.refcount
  }

  ghost predicate ListedOnce(t: Table) {
    forall p :: multiset(t.vnodes)[p] == if p in t.heap then 1 else 0
  }

  ghost predicate CacheOk(heap: map<int, Vnode>, cache: map<int, int>) {
    && (forall p :: p in heap ==> heap[p].ino in cache && cache[heap[p].ino] == p)
    && (forall ino :: ino in cache ==> cache[ino] in heap && heap[cache[ino]].ino == ino)
  }

  ghost predicate Counted(heap: map<int, Vnode>, r: Refs) {
    && (forall p :: p in heap ==> CountsOk(heap[p], p, r))
    && (forall p :: p in r.held || p in r.opens ==> p in heap)
  }

  /** Each loaded vnode is listed once, there is at most one for an inode number, and its counts
      are the numbers of references handed out. */
  ghost predicate TableOk(t: Table, r: Refs) {
    ListedOnce(t) && CacheOk(t.heap, r.cache) && Counted(t.heap, r)
  }

  lemma OneVnodePerInode(t: Table, r: Refs, p: int, q: int)
    requires TableOk(t, r) && p in t.heap && q in t.heap && t.heap[p].ino == t.heap[q].ino
    ensures p == q
  {
  }

  lemma Listed(t: Table, r: Refs, p: int)
    requires TableOk(t, r)
    ensures p in t.vnodes <==> p in t.heap
  {
    assert p in t.vnodes <==> p in multiset(t.vnodes);
  }

  // ---- adding, removing and changing vnodes ----

  /** A new vnode at address p with one reference. */
  ghost function AddRef(r: Refs, p: int, ino: int): Refs {
    Refs(r.cache[ino := p], r.held + multiset{p}, r.opens)
  }

  lemma AddVnode(t: Table, r: Refs, p: int, v: Vnode)
    requires TableOk(t, r) && p !in t.heap && v.ino !in r.cache && v.refcount == 1 && v.opencount == 0
    ensures TableOk(Table(t.heap[p := v], t.vnodes + [p]), AddRef(r, p, v.ino))
  {
    assert ListedOnce(Table(t.heap[p := v], t.vnodes + [p]));
    assert CacheOk(t.heap[p := v], r.cache[v.ino := p]);
    hide ListedOnce, CacheOk;
    assert p !in r.held && p !in r.opens;
  }

  ghost function DropRef(r: Refs, p: int, ino: int): Refs {
    Refs(r.cache - {ino}, r.held - multiset{p}, r.opens)
  }

  lemma WithoutOne(s: seq<int>, ix: int)
    requires 0 <= ix < |s|
    ensures multiset(Without(s, ix)) == multiset(s) - multiset{s[ix]}
  {
    assert s == s[..ix] + [s[ix]] + s[ix + 1..];
  }

  lemma CacheDrop(heap: map<int, Vnode>, cache: map<int, int>, p: int)
    requires CacheOk(heap, cache) && p in heap
    ensures CacheOk(heap - {p}, cache - {heap[p].ino})
  {
  }

  lemma RemoveVnode(t: Table, r: Refs, ix: int)
    requires TableOk(t, r) && 0 <= ix < |t.vnodes| && t.vnodes[ix] in t.heap
    requires t.heap[t.vnodes[ix]].refcount == 1 && t.heap[t.vnodes[ix]].opencount == 0
    ensures var p := t.vnodes[ix];
            TableOk(Table(t.heap - {p}, Without(t.vnodes, ix)), DropRef(r, p, t.heap[p].ino))
  {
    var p := t.vnodes[ix];
    WithoutOne(t.vnodes, ix);
    assert ListedOnce(Table(t.heap - {p}, Without(t.vnodes, ix)));
    hide ListedOnce, Without;
    CacheDrop(t.heap, r.cache, p);
    hide CacheOk;
  }

  /** Changing a vnode's inode or dirty mark. */
  lemma SetVnode(t: Table, r: Refs, p: int, v: Vnode)
    requires TableOk(t, r) && p in t.heap && v.ino == t.heap[p].ino
    requires v.refcount == t.heap[p].refcount && v.opencount == t.heap[p].opencount
    ensures TableOk(t.(heap := t.heap[p := v]), r)
  {
  }

  /** Taking or dropping a reference to a vnode that keeps at least one. */
  lemma SetCounts(t: Table, r: Refs, p: int, v: Vnode, held: multiset<int>, opens: multiset<int>)
    requires TableOk(t, r) && p in t.heap && v.ino == t.heap[p].ino
    requires held == r.held[p := held[p]] && opens == r.opens[p := opens[p]]
    requires CountsOk(v, p, Refs(r.cache, held, opens))
    ensures TableOk(t.(heap := t.heap[p := v]), Refs(r.cache, held, opens))
  {
  }

  // ---- the loops over the table ----

  /** The search of sfs_loadvnode. */
  method Find(t: Table, ghost r: Refs, ino: int) returns (found: bool, p: int)
    requires TableOk(t, r)
    ensures found <==> ino in r.cache
    ensures found ==> p in t.heap && p == r.cache[ino]
  {
    for i := 0 to |t.vnodes|
      invariant forall j :: 0 <= j < i ==> t.vnodes[j] in t.heap && t.heap[t.vnodes[j]].ino != ino
    {
      Listed(t, r, t.vnodes[i]);
      if t.heap[t.vnodes[i]].ino == ino {
        return true, t.vnodes[i];
      }
    }
    if ino in r.cache {
      Listed(t, r, r.cache[ino]);
      assert false;
    }
    return false, 0;
  }

  /** The search at the end of sfs_reclaim. */
  method FindSlot(t: Table, ghost r: Refs, p: int) returns (ix: int)
    requires TableOk(t, r) && p in t.heap
    ensures 0 <= ix < |t.vnodes| && t.vnodes[ix] == p
  {
    Listed(t, r, p);
    ix := 0;
    while t.vnodes[ix] != p
      invariant 0 <= ix < |t.vnodes|
      invariant p in t.vnodes[ix..]
      decreases |t.vnodes| - ix
    {
      ix := ix + 1;
    }
  }
}
