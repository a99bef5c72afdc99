/** Runs of kmalloc and kfree, by a kernel that frees only what it got and writes only there. */
module KheapRun {
  import opened Basics
  import opened Bitmaps
  import opened K = Kheap

  /** A block that kmalloc gave for a request of sz bytes. */
  datatype Held = Held(addr: int, sz: int)

  /** Pages that kmalloc took whole. */
  datatype Extent = Extent(addr: int, n: int)

  /** The kernel names what it holds by its place in a list.  page is what alloc_kpages gives. */
  datatype Call =
    | Alloc(sz: nat, page: int)
    | Release(j: nat)
    | ReleasePages(j: nat)
    | Store(j: nat, off: nat, w: int)

  // ---- what the kernel holds ----

  ghost predicate Good(refs: seq<PageRef>, fl: map<int, seq<int>>, x: Held) {
    exists i, b :: LiveAt(refs, fl, i, b, x.addr) && x.sz <= Size(refs[i].blktype)
  }

  predicate Has(held: seq<Held>, a: int) {
    exists j :: 0 <= j < |held| && held[j].addr == a
  }

  /** The live blocks are those held, each once, with room for what was asked. */
  ghost predicate Holds(h: K.Kheap, held: seq<Held>)
    reads h
  {
    && (forall j :: 0 <= j < |held| ==> Good(h.refs, h.fl, held[j]))
    && (forall i, j :: 0 <= i < j < |held| ==> held[i].addr != held[j].addr)
    && (forall a :: h.Live(a) ==> Has(held, a))
  }

  /** No page of the extent is one of the pages with blocks. */
  ghost predicate Outside(refs: seq<PageRef>, fl: map<int, seq<int>>, e: Extent) {
    && 0 < e.addr && e.addr % PAGE_SIZE == 0 && 1 <= e.n
    && forall i :: i in fl && 0 <= i < |refs| ==> !(e.addr <= refs[i].page < e.addr + e.n * PAGE_SIZE)
  }

  ghost predicate AllOutside(h: K.Kheap, whole: seq<Extent>)
    reads h
  {
    forall j :: 0 <= j < |whole| ==> Outside(h.refs, h.fl, whole[j])
  }

  predicate Disjoint(e: Extent, f: Extent) {
    e.addr + e.n * PAGE_SIZE <= f.addr || f.addr + f.n * PAGE_SIZE <= e.addr
  }

  /** alloc_kpages gives pages that are not in use. */
  predicate Unused(h: K.Kheap, whole: seq<Extent>, e: Extent)
    reads h
  {
    && 0 < e.addr && e.addr % PAGE_SIZE == 0 && 1 <= e.n
    && |h.inuse| == 8 && |h.refs| == NPAGEREFS
    && (forall i :: 0 <= i < NPAGEREFS && BitOf(h.inuse[i / 32], i % 32) ==>
          !(e.addr <= h.refs[i].page < e.addr + e.n * PAGE_SIZE))
    && forall j :: 0 <= j < |whole| ==> Disjoint(e, whole[j])
  }

  lemma UnusedOutside(h: K.Kheap, whole: seq<Extent>, e: Extent)
    requires h.Valid() && Unused(h, whole, e)
    ensures Outside(h.refs, h.fl, e) && forall i :: i in h.fl ==> 0 <= i < |h.refs| && h.refs[i].page != e.addr
  {
    hide PageOk, SomeLive, ListOk;
    forall i | i in h.fl
      ensures 0 <= i < |h.refs| && !(e.addr <= h.refs[i].page < e.addr + e.n * PAGE_SIZE)
    {
      assert BitOf(h.inuse[i / 32], i % 32);
    }
  }

  /** A block that stays live stays on its page. */
  lemma SizeKept(refs: seq<PageRef>, mem: map<int, int>, fl: map<int, seq<int>>,
                 refs': seq<PageRef>, mem': map<int, int>, fl': map<int, seq<int>>, page: int, x: Held)
    requires PagesOk(refs, mem, fl) && PagesOk(refs', mem', fl') && PagesFrom(refs, fl, refs', fl', page)
    requires page % PAGE_SIZE == 0 && forall i :: i in fl && 0 <= i < |refs| ==> refs[i].page != page
    requires Good(refs, fl, x) && IsLive(refs', fl', x.addr)
    ensures Good(refs', fl', x)
  {
    var i, b :| LiveAt(refs, fl, i, b, x.addr) && x.sz <= Size(refs[i].blktype);
    var j, c :| LiveAt(refs', fl', j, c, x.addr);
    OnPage(b, refs[i].blktype);
    OnPage(c, refs'[j].blktype);
    assert PageOk(mem, refs[i], fl[i]) && PageOk(mem', refs'[j], fl'[j]);
    if refs[i].page != refs'[j].page {
      PagesApart(refs[i].page, refs'[j].page);
    }
    assert refs'[j].page != page;
    assert i == j;
  }

  lemma OutsideKept(refs: seq<PageRef>, fl: map<int, seq<int>>, refs': seq<PageRef>, fl': map<int, seq<int>>,
    page: int, e: Extent)
    requires PagesFrom(refs, fl, refs', fl', page) && Outside(refs, fl, e)
    requires page == 0 || Disjoint(Extent(page, 1), e)
    ensures Outside(refs', fl', e)
  {
  }

  lemma PagesOf(h: K.Kheap)
    requires h.Valid()
    ensures PagesOk(h.refs, h.mem, h.fl) && forall i :: i in h.fl && 0 <= i < |h.refs| ==> h.refs[i].page != 0
  {
    hide BitsAre, ListsOk, SomeLive;
    forall i | i in h.fl && 0 <= i < |h.refs|
      ensures h.refs[i].page != 0
    {
      assert PageOk(h.mem, h.refs[i], h.fl[i]);
    }
  }

  lemma AllKept(h: K.Kheap, refs: seq<PageRef>, mem: map<int, int>, fl: map<int, seq<int>>, page: int,
    held: seq<Held>, whole: seq<Extent>)
    requires h.Valid() && PagesOk(refs, mem, fl) && PagesFrom(refs, fl, h.refs, h.fl, page)
    requires page % PAGE_SIZE == 0 && forall i :: i in fl && 0 <= i < |refs| ==> refs[i].page != page
    requires forall j :: 0 <= j < |held| ==> Good(refs, fl, held[j])
    requires forall j :: 0 <= j < |whole| ==> Outside(refs, fl, whole[j])
    requires page == 0 || forall j :: 0 <= j < |whole| ==> Disjoint(Extent(page, 1), whole[j])
    ensures forall j :: 0 <= j < |held| && h.Live(held[j].addr) ==> Good(h.refs, h.fl, held[j])
    ensures AllOutside(h, whole)
  {
    hide PagesOk, PagesFrom, Good, Outside, Disjoint, K.Kheap.Valid;
    PagesOf(h);
    forall j | 0 <= j < |held| && h.Live(held[j].addr)
      ensures Good(h.refs, h.fl, held[j])
    {
      SizeKept(refs, mem, fl, h.refs, h.mem, h.fl, page, held[j]);
    }
    forall j | 0 <= j < |whole|
      ensures Outside(h.refs, h.fl, whole[j])
    {
      OutsideKept(refs, fl, h.refs, h.fl, page, whole[j]);
    }
  }

  // ---- the calls ----

  lemma MoreHeld(h: K.Kheap, held: seq<Held>, x: Held)
    requires (forall j :: 0 <= j < |held| ==> Good(h.refs, h.fl, held[j]) && held[j].addr != x.addr)
    requires (forall i, j :: 0 <= i < j < |held| ==> held[i].addr != held[j].addr) && Good(h.refs, h.fl, x)
    requires forall a :: h.Live(a) ==> Has(held, a) || a == x.addr
    ensures Holds(h, held + [x])
  {
    hide Good;
    var all := held + [x];
    forall a | h.Live(a)
      ensures Has(all, a)
    {
      if Has(held, a) {
        var j :| 0 <= j < |held| && held[j].addr == a;
        assert all[j].addr == a;
      } else {
        assert all[|held|].addr == a;
      }
    }
  }

  /** kmalloc of less than 2048 bytes */
  method AllocBlock(h: K.Kheap, held: seq<Held>, whole: seq<Extent>, sz: nat, page: int) returns (held': seq<Held>)
    requires h.Valid() && Holds(h, held) && AllOutside(h, whole) && sz < 2048
    requires page == 0 || Unused(h, whole, Extent(page, 1))
    modifies h
    ensures h.Valid() && Holds(h, held') && AllOutside(h, whole)
    ensures held' == held || (|held'| == |held| + 1 && held' == held + [held'[|held|]] && held'[|held|].sz == sz)
  {
    hide K.Kheap.Valid, PagesFrom, PagesOk, NoneFree, Outside;
    ghost var refs, mem, fl := h.refs, h.mem, h.fl;
    PagesOf(h);
    if page != 0 {
      UnusedOutside(h, whole, Extent(page, 1));
    }
    var p, n := h.Kmalloc(sz, page);
    AllKept(h, refs, mem, fl, page, held, whole);
    held' := held;
    if p != 0 {
      held' := held + [Held(p, sz)];
      MoreHeld(h, held, Held(p, sz));
    }
  }

  /** kmalloc of whole pages */
  method AllocPages(h: K.Kheap, held: seq<Held>, whole: seq<Extent>, sz: nat, page: int) returns (whole': seq<Extent>)
    requires h.Valid() && Holds(h, held) && AllOutside(h, whole) && sz >= 2048
    requires page == 0 || Unused(h, whole, Extent(page, (sz + PAGE_SIZE - 1) / PAGE_SIZE))
    modifies h
    ensures h.Valid() && Holds(h, held) && AllOutside(h, whole')
    ensures whole' == whole + if page == 0 then [] else [Extent(page, (sz + PAGE_SIZE - 1) / PAGE_SIZE)]
  {
    hide K.Kheap.Valid, PagesFrom, PagesOk, NoneFree, Good, Outside;
    var n := (sz + PAGE_SIZE - 1) / PAGE_SIZE;
    if page != 0 {
      UnusedOutside(h, whole, Extent(page, n));
    }
    var p, np := h.Kmalloc(sz, page);
    assert np == n;
    whole' := if p == 0 then whole else whole + [Extent(p, n)];
  }

  lemma GoodLive(h: K.Kheap, x: Held)
    requires h.Valid() && Good(h.refs, h.fl, x)
    ensures h.Live(x.addr) && x.addr > 0
  {
    hide BitsAre, ListsOk, SomeLive;
    var i, b :| LiveAt(h.refs, h.fl, i, b, x.addr) && x.sz <= Size(h.refs[i].blktype);
    assert PageOk(h.mem, h.refs[i], h.fl[i]);
    OnPage(b, h.refs[i].blktype);
  }

  lemma FewerHeld(h: K.Kheap, held: seq<Held>, j: nat)
    requires j < |held| && (forall i :: 0 <= i < |held| && i != j ==> Good(h.refs, h.fl, held[i]))
    requires forall i, k :: 0 <= i < k < |held| ==> held[i].addr != held[k].addr
    requires forall a :: h.Live(a) ==> Has(held, a) && a != held[j].addr
    ensures Holds(h, Without(held, j))
  {
    hide Good;
    var rest := Without(held, j);
    forall a | h.Live(a)
      ensures Has(rest, a)
    {
      var i :| 0 <= i < |held| && held[i].addr == a;
      assert rest[if i < j then i else i - 1].addr == a;
    }
  }

  /** kfree of a block */
  method FreeBlock(h: K.Kheap, held: seq<Held>, whole: seq<Extent>, j: nat) returns (freed: int)
    requires h.Valid() && Holds(h, held) && AllOutside(h, whole) && j < |held|
    modifies h
    ensures h.Valid() && Holds(h, Without(held, j)) && AllOutside(h, whole)
    ensures freed != 0 ==> forall a :: h.Live(a) ==> !(freed <= a < freed + PAGE_SIZE)
    ensures freed == 0 ==> exists a :: h.Live(a) && SamePage(a, held[j].addr)
  {
    hide K.Kheap.Valid, PagesFrom, PagesOk, Outside;
    ghost var refs, mem, fl := h.refs, h.mem, h.fl;
    PagesOf(h);
    GoodLive(h, held[j]);
    LiveNotFree(h.refs, h.mem, h.fl, held[j].addr);
    var panics;
    freed, panics := h.Kfree(held[j].addr);
    AllKept(h, refs, mem, fl, 0, held, whole);
    FewerHeld(h, held, j);
  }

  lemma OnNoPage(h: K.Kheap, e: Extent)
    requires h.Valid() && Outside(h.refs, h.fl, e)
    ensures e.addr % PAGE_SIZE == 0 && 0 < e.addr && !h.Live(e.addr)
    ensures forall i :: i in h.fl && 0 <= i < |h.refs| ==> !(h.refs[i].page <= e.addr < h.refs[i].page + PAGE_SIZE)
  {
    hide BitsAre, ListsOk, SomeLive;
    forall i | i in h.fl && 0 <= i < |h.refs|
      ensures !(h.refs[i].page <= e.addr < h.refs[i].page + PAGE_SIZE)
    {
      assert PageOk(h.mem, h.refs[i], h.fl[i]);
      PagesApart(h.refs[i].page, e.addr);
    }
    LiveOnPage(h.refs, h.mem, h.fl, e.addr);
  }

  /** kfree of whole pages */
  method FreePages(h: K.Kheap, held: seq<Held>, whole: seq<Extent>, j: nat) returns (freed: int)
    requires h.Valid() && Holds(h, held) && AllOutside(h, whole) && j < |whole|
    modifies h
    ensures h.Valid() && Holds(h, held) && AllOutside(h, Without(whole, j)) && freed == whole[j].addr
  {
    hide K.Kheap.Valid, PagesFrom, PagesOk, Outside;
    ghost var refs, mem, fl := h.refs, h.mem, h.fl;
    PagesOf(h);
    OnNoPage(h, whole[j]);
    LiveNotFree(h.refs, h.mem, h.fl, whole[j].addr);
    var panics;
    freed, panics := h.Kfree(whole[j].addr);
    AllKept(h, refs, mem, fl, 0, held, whole);
  }

  /** The kernel writes a word inside a block it holds. */
  method Write(h: K.Kheap, held: seq<Held>, whole: seq<Extent>, j: nat, off: nat, w: int)
    requires h.Valid() && Holds(h, held) && AllOutside(h, whole) && j < |held| && off < held[j].sz
    modifies h
    ensures h.Valid() && Holds(h, held) && AllOutside(h, whole)
  {
    hide K.Kheap.Valid, Outside;
    ghost var i, b :| LiveAt(h.refs, h.fl, i, b, held[j].addr) && held[j].sz <= Size(h.refs[i].blktype);
    h.Store(held[j].addr, off, w, i, b);
  }

  // ---- runs ----

  method Step(h: K.Kheap, held: seq<Held>, whole: seq<Extent>, c: Call) returns (held': seq<Held>, whole': seq<Extent>)
    requires h.Valid() && Holds(h, held) && AllOutside(h, whole)
    modifies h
    ensures h.Valid() && Holds(h, held') && AllOutside(h, whole')
  {
    hide K.Kheap.Valid, Holds, AllOutside, Unused;
    held', whole' := held, whole;
    match c {
      case Alloc(sz, page) =>
        var n := if sz >= 2048 then (sz + PAGE_SIZE - 1) / PAGE_SIZE else 1;
        var pages := if Unused(h, whole, Extent(page, n)) then page else 0;
        if sz >= 2048 {
          whole' := AllocPages(h, held, whole, sz, pages);
        } else {
          held' := AllocBlock(h, held, whole, sz, pages);
        }
      case Release(j) =>
        if j < |held| {
          var freed := FreeBlock(h, held, whole, j);
          held' := Without(held, j);
        }
      case ReleasePages(j) =>
        if j < |whole| {
          var freed := FreePages(h, held, whole, j);
          whole' := Without(whole, j);
        }
      case Store(j, off, w) =>
        if j < |held| && off < held[j].sz {
          Write(h, held, whole, j, off, w);
        }
    }
  }

  /** Every run of calls keeps the heap well-formed; the live blocks are exactly those the kernel
      holds, each large enough, apart from each other and from the pages taken whole. */
  method Run(h: K.Kheap, calls: seq<Call>) returns (held: seq<Held>, whole: seq<Extent>)
    requires h.Valid() && forall a :: !h.Live(a)
    modifies h
    ensures h.Valid() && Holds(h, held) && AllOutside(h, whole)
  {
    hide K.Kheap.Valid, Good, Outside, Unused;
    held, whole := [], [];
    for i := 0 to |calls|
      invariant h.Valid() && Holds(h, held) && AllOutside(h, whole)
    {
      held, whole := Step(h, held, whole, calls[i]);
    }
  }
}
