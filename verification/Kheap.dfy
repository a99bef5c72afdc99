/** The kernel's subpage allocator, kern/lib/kheap.c. */
module Kheap {
  import opened Basics
  import opened Bitmaps

  const PAGE_SIZE := 4096
  const NSIZES := 8
  const SIZES: seq<int> := [16, 32, 64, 128, 256, 512, 1024, 2048]
  const NPAGEREFS := 256
  const INVALID_OFFSET := 0xffff
  const NONE := -1                  // a null pageref pointer
  const PANIC := -2

  /** The words of a block at ptr, between lo and hi, hold 0xdeadbeef. */
  ghost predicate Wiped(mem: map<int, int>, ptr: int, lo: int, hi: int) {
    forall a :: lo <= a && a + 4 <= hi && (a - ptr) % 4 == 0 ==> a in mem && mem[a] == 0xdeadbeef
  }

  function Size(t: int): (s: int)
    ensures 16 <= s <= 2048
  {
    if 0 <= t < NSIZES then SIZES[t] else 16
  }

  /** Each size is twice the one before. */
  lemma SizesDouble(t: nat)
    requires t < NSIZES
    ensures Size(t) == 16 * Pow2(t)
  {
    assert Pow2(3) == 8 && Pow2(5) == 32;
  }

  /** How many blocks of type t fit on a page. */
  function Cap(t: int): (n: int)
    ensures 2 <= n <= 256 && n * Size(t) == PAGE_SIZE
  {
    if 0 <= t < NSIZES then [256, 128, 64, 32, 16, 8, 4, 2][t] else 256
  }

  /** struct pageref, pointers as indices into pagerefs. */
  datatype PageRef = PageRef(nextSame: int, nextAll: int, page: int, blktype: int, freeoff: int, nfree: int)

  // ---- one page ----

  /** The word at the start of free block j of the list f: the address of the next free block. */
  function Link(page: int, t: int, f: seq<int>, j: int): int
    requires 0 <= j < |f|
  {
    if j + 1 < |f| then page + f[j + 1] * Size(t) else 0
  }

  ghost predicate NoDup(s: seq<int>) {
    forall i, j :: 0 <= i < j < |s| ==> s[i] != s[j]
  }

  ghost predicate FreeAt(mem: map<int, int>, r: PageRef, f: seq<int>, j: int) {
    && 0 <= j < |f| && 0 <= f[j] < Cap(r.blktype)
    && var a := r.page + f[j] * Size(r.blktype);
    a in mem && mem[a] == Link(r.page, r.blktype, f, j)
  }

  /** The free blocks of a page, by number, are f: the list starts at the page record's offset and
      runs through the blocks' first words; it is nfree long, has no cycle and stays on the page. */
  ghost predicate PageOk(mem: map<int, int>, r: PageRef, f: seq<int>) {
    && 0 <= r.blktype < NSIZES && 0 < r.page && r.page % PAGE_SIZE == 0
    && |f| == r.nfree && NoDup(f)
    && r.freeoff == (if f == [] then INVALID_OFFSET else f[0] * Size(r.blktype))
    && (forall j :: 0 <= j < |f| ==> FreeAt(mem, r, f, j))
  }

  lemma Times(a: int, b: int, s: int)
    requires a < b && 0 < s
    ensures a * s + s <= b * s
  {
    assert b * s == (a + 1) * s + (b - a - 1) * s;
  }

  lemma OnPage(b: int, t: int)
    requires 0 <= b < Cap(t)
    ensures 0 <= b * Size(t) && b * Size(t) + Size(t) <= PAGE_SIZE
  {
    Times(b, Cap(t), Size(t));
    assert b * Size(t) >= 0;
  }

  /** Different blocks of a page do not overlap. */
  lemma BlocksApart(b: int, c: int, t: int)
    requires b != c
    ensures b * Size(t) + Size(t) <= c * Size(t) || c * Size(t) + Size(t) <= b * Size(t)
  {
    if b < c {
      Times(b, c, Size(t));
    } else {
      Times(c, b, Size(t));
    }
  }

  /** Words that are not the first word of a free block do not matter. */
  lemma PageKept(mem: map<int, int>, mem': map<int, int>, r: PageRef, f: seq<int>)
    requires PageOk(mem, r, f)
    requires forall j :: 0 <= j < |f| ==>
      var a := r.page + f[j] * Size(r.blktype); a in mem && a in mem' && mem'[a] == mem[a]
    ensures PageOk(mem', r, f)
  {
    forall j | 0 <= j < |f|
      ensures FreeAt(mem', r, f, j)
    {
      assert FreeAt(mem, r, f, j);
    }
  }

  /** Taking the first free block. */
  lemma PopBlock(mem: map<int, int>, r: PageRef, f: seq<int>)
    requires PageOk(mem, r, f) && f != []
    ensures 0 <= r.freeoff < PAGE_SIZE && FreeAt(mem, r, f, 0) && r.freeoff == f[0] * Size(r.blktype)
    ensures var next := mem[r.page + r.freeoff];
            && (next != 0 <==> |f| > 1) && (next != 0 ==> 0 <= next - r.page < PAGE_SIZE)
            && PageOk(mem, r.(nfree := r.nfree - 1, freeoff := if next != 0 then next - r.page else INVALID_OFFSET),
              f[1..])
  {
    assert FreeAt(mem, r, f, 0);
    OnPage(f[0], r.blktype);
    var next := mem[r.page + r.freeoff];
    var r' := r.(nfree := r.nfree - 1, freeoff := if next != 0 then next - r.page else INVALID_OFFSET);
    if |f| > 1 {
      assert FreeAt(mem, r, f, 1);
      OnPage(f[1], r.blktype);
    }
    forall j | 0 <= j < |f| - 1
      ensures FreeAt(mem, r', f[1..], j)
    {
      assert FreeAt(mem, r, f, j + 1);
    }
  }

  /** Putting block b at the front of the list. */
  lemma PushBlock(mem: map<int, int>, mem': map<int, int>, r: PageRef, f: seq<int>, b: int)
    requires PageOk(mem, r, f) && b !in f && 0 <= b < Cap(r.blktype)
    requires var a := r.page + b * Size(r.blktype);
             a in mem' && mem'[a] == if f == [] then 0 else r.page + r.freeoff
    requires forall j :: 0 <= j < |f| ==>
      var a := r.page + f[j] * Size(r.blktype); a in mem && a in mem' && mem'[a] == mem[a]
    ensures PageOk(mem', r.(nfree := r.nfree + 1, freeoff := b * Size(r.blktype)), [b] + f)
  {
    var r' := r.(nfree := r.nfree + 1, freeoff := b * Size(r.blktype));
    forall j | 0 <= j < |f| + 1
      ensures FreeAt(mem', r', [b] + f, j)
    {
      if j > 0 {
        assert FreeAt(mem, r, f, j - 1);
      }
    }
  }

  // ---- linked lists of page records ----

  function Next(r: PageRef, same: bool): int {
    if same then r.nextSame else r.nextAll
  }

  ghost predicate LinkAt(refs: seq<PageRef>, l: seq<int>, same: bool, j: int) {
    0 <= j < |l| && 0 <= l[j] < |refs| && Next(refs[l[j]], same) == if j + 1 < |l| then l[j + 1] else NONE
  }

  /** The list that starts at base is l. */
  ghost predicate ListOk(refs: seq<PageRef>, base: int, l: seq<int>, same: bool) {
    && NoDup(l) && base == (if l == [] then NONE else l[0])
    && forall j :: 0 <= j < |l| ==> LinkAt(refs, l, same, j)
  }

  lemma ListKept(refs: seq<PageRef>, refs': seq<PageRef>, base: int, l: seq<int>, same: bool)
    requires ListOk(refs, base, l, same) && |refs'| == |refs|
    requires forall i :: i in l && 0 <= i < |refs| ==> Next(refs'[i], same) == Next(refs[i], same)
    ensures ListOk(refs', base, l, same)
  {
    forall j | 0 <= j < |l|
      ensures LinkAt(refs', l, same, j)
    {
      assert LinkAt(refs, l, same, j);
      assert l[j] in l;
    }
  }

  lemma PushList(refs: seq<PageRef>, refs': seq<PageRef>, base: int, l: seq<int>, same: bool, x: int)
    requires ListOk(refs, base, l, same) && x !in l && 0 <= x < |refs| == |refs'|
    requires Next(refs'[x], same) == base && forall i :: i in l && 0 <= i < |refs| ==>
      Next(refs'[i], same) == Next(refs[i], same)
    ensures ListOk(refs', x, [x] + l, same)
  {
    ListKept(refs, refs', base, l, same);
    forall j | 0 <= j < |l| + 1
      ensures LinkAt(refs', [x] + l, same, j)
    {
      if j > 0 {
        assert LinkAt(refs', l, same, j - 1);
      }
    }
  }

  /** Unlinking entry p: the head or the entry before it now points past it. */
  lemma CutList(refs: seq<PageRef>, refs': seq<PageRef>, base: int, base': int, l: seq<int>, same: bool, p: int)
    requires ListOk(refs, base, l, same) && 0 <= p < |l| && |refs'| == |refs| && 0 <= l[p] < |refs|
    requires base' == if p == 0 then Next(refs[l[p]], same) else base
    requires forall j :: 0 <= j < |l| && 0 <= l[j] < |refs| ==>
      Next(refs'[l[j]], same) == if j == p - 1 then Next(refs[l[p]], same) else Next(refs[l[j]], same)
    ensures ListOk(refs', base', Without(l, p), same)
  {
    var k := Without(l, p);
    assert LinkAt(refs, l, same, p);
    forall j | 0 <= j < |k|
      ensures LinkAt(refs', k, same, j)
    {
      var o := if j < p then j else j + 1;
      assert k[j] == l[o];
      assert LinkAt(refs, l, same, o);
    }
  }

  // ---- the whole allocator ----

  ghost predicate BitsAre(inuse: seq<nat>, used: set<int>) {
    && |inuse| == 8 && (forall w :: 0 <= w < 8 ==> inuse[w] < Pow2(32))
    && forall i :: 0 <= i < NPAGEREFS ==> (i in used <==> BitOf(inuse[i / 32], i % 32))
  }

  /** Every page record in use is once in the list of all and once in the list of its size. */
  ghost predicate ListsOk(refs: seq<PageRef>, allbase: int, sizebases: seq<int>, all: seq<int>, sl: seq<seq<int>>,
    used: set<int>) {
    && |refs| == NPAGEREFS && |sizebases| == NSIZES == |sl|
    && ListOk(refs, allbase, all, false) && (forall t :: 0 <= t < NSIZES ==> ListOk(refs, sizebases[t], sl[t], true))
    && (forall i :: i in all <==> i in used) && (forall i :: i in used ==> 0 <= i < NPAGEREFS)
    && (forall t, i :: 0 <= t < NSIZES ==> (i in sl[t] <==> i in used && refs[i].blktype == t))
  }

  /** Every page in use has a good free list; no two records are for the same page. */
  ghost predicate PagesOk(refs: seq<PageRef>, mem: map<int, int>, fl: map<int, seq<int>>) {
    && (forall i :: i in fl ==> 0 <= i < |refs| && PageOk(mem, refs[i], fl[i]))
    && (forall i, j :: i in fl && j in fl && i != j ==> refs[i].page != refs[j].page)
  }

  /** No page in use but x is entirely free. */
  ghost predicate SomeLive(refs: seq<PageRef>, fl: map<int, seq<int>>, x: int) {
    forall i :: i in fl && i != x ==> 0 <= i < |refs| && |fl[i]| < Cap(refs[i].blktype)
  }

  /** Block b of page record i is at address a and not free. */
  ghost predicate LiveAt(refs: seq<PageRef>, fl: map<int, seq<int>>, i: int, b: int, a: int) {
    && i in fl && 0 <= i < |refs| && 0 <= b < Cap(refs[i].blktype) && b !in fl[i]
    && a == refs[i].page + b * Size(refs[i].blktype)
  }

  ghost predicate IsLive(refs: seq<PageRef>, fl: map<int, seq<int>>, a: int) {
    exists i, b :: LiveAt(refs, fl, i, b, a)
  }

  lemma PagesApart(p: int, q: int)
    requires p % PAGE_SIZE == 0 && q % PAGE_SIZE == 0 && p != q
    ensures p + PAGE_SIZE <= q || q + PAGE_SIZE <= p
  {
  }

  /** Live blocks do not overlap. */
  lemma LiveApart(refs: seq<PageRef>, mem: map<int, int>, fl: map<int, seq<int>>, i: int, b: int, a: int, j: int,
    c: int, d: int)
    requires PagesOk(refs, mem, fl) && LiveAt(refs, fl, i, b, a) && LiveAt(refs, fl, j, c, d) && a != d
    ensures a + Size(refs[i].blktype) <= d || d + Size(refs[j].blktype) <= a
  {
    OnPage(b, refs[i].blktype);
    OnPage(c, refs[j].blktype);
    if i == j {
      BlocksApart(b, c, refs[i].blktype);
    } else {
      PagesApart(refs[i].page, refs[j].page);
    }
  }

  /** A list without repetition has as many elements as entries. */
  lemma {:induction false} CountNoDup(f: seq<int>)
    requires NoDup(f)
    ensures |(set b | b in f)| == |f|
  {
    if f == [] {
      assert (set b | b in f) == {};
    } else {
      CountNoDup(f[1..]);
      assert (set b | b in f) == (set b | b in f[1..]) + {f[0]};
    }
  }

  function Range(n: nat): (s: set<int>)
    ensures |s| == n && forall b :: b in s <==> 0 <= b < n
  {
    if n == 0 then {} else Range(n - 1) + {n - 1}
  }

  /** Free blocks and live blocks make up the page. */
  lemma FreePlusLive(mem: map<int, int>, r: PageRef, f: seq<int>)
    requires PageOk(mem, r, f)
    ensures r.nfree + |(set b | 0 <= b < Cap(r.blktype) && b !in f)| == Cap(r.blktype)
  {
    CountNoDup(f);
    var n := Cap(r.blktype);
    var free, live := (set b | b in f), (set b | 0 <= b < n && b !in f);
    forall b | b in f
      ensures 0 <= b < n
    {
      var j :| 0 <= j < |f| && f[j] == b;
      assert FreeAt(mem, r, f, j);
    }
    assert Range(n) == free + live;
  }

  lemma AllBlocksFree(mem: map<int, int>, r: PageRef, f: seq<int>, b: int)
    requires PageOk(mem, r, f) && |f| == Cap(r.blktype) && 0 <= b < Cap(r.blktype)
    ensures b in f
  {
    FreePlusLive(mem, r, f);
    var live := (set b | 0 <= b < Cap(r.blktype) && b !in f);
    assert live == {};
    assert b !in live;
  }

  // ---- the steps ----

  /** Of the pages in use afterwards, only one at address page can be new. */
  ghost predicate PagesFrom(refs: seq<PageRef>, fl: map<int, seq<int>>, refs': seq<PageRef>, fl': map<int, seq<int>>,
    page: int) {
    forall i :: i in fl' && 0 <= i < |refs'| ==>
      refs'[i].page == page || (i in fl && 0 <= i < |refs| && refs'[i].page == refs[i].page &&
        refs'[i].blktype == refs[i].blktype)
  }

  predicate FitsType(sz: int, t: int) {
    sz <= Size(t) && forall u :: 0 <= u < t ==> Size(u) < sz
  }

  /** No page has a free block of the size that a request for sz bytes gets. */
  ghost predicate NoneFree(refs: seq<PageRef>, fl: map<int, seq<int>>, sz: int) {
    forall i :: i in fl && 0 <= i < |refs| && FitsType(sz, refs[i].blktype) ==> fl[i] == []
  }

  ghost predicate OnlyIn(mem: map<int, int>, mem': map<int, int>, lo: int, hi: int) {
    forall a :: a in mem && !(lo <= a < hi) ==> a in mem' && mem'[a] == mem[a]
  }

  /** A call that writes only inside one live block leaves the words of every other one alone. */
  lemma OthersIntact(refs: seq<PageRef>, mem: map<int, int>, mem': map<int, int>, fl: map<int, seq<int>>,
                     i: int, b: int, a: int, j: int, c: int, d: int, k: int)
    requires PagesOk(refs, mem, fl) && LiveAt(refs, fl, i, b, a) && LiveAt(refs, fl, j, c, d) && a != d
    requires OnlyIn(mem, mem', a, a + Size(refs[i].blktype)) && d <= k < d + Size(refs[j].blktype) && k in mem
    ensures k in mem' && mem'[k] == mem[k]
  {
    LiveApart(refs, mem, fl, i, b, a, j, c, d);
  }

  /** The first word of a free block lies in no block that is not free. */
  lemma FreeOutside(refs: seq<PageRef>, mem: map<int, int>, fl: map<int, seq<int>>, x: int, b: int, a: int, i: int,
    j: int)
    requires PagesOk(refs, mem, fl) && LiveAt(refs, fl, x, b, a) && i in fl && 0 <= j < |fl[i]|
    ensures var r := refs[i]; var w := r.page + fl[i][j] * Size(r.blktype);
            w in mem && !(a <= w < a + Size(refs[x].blktype))
  {
    assert FreeAt(mem, refs[i], fl[i], j);
    OnPage(b, refs[x].blktype);
    OnPage(fl[i][j], refs[i].blktype);
    if i == x {
      BlocksApart(b, fl[i][j], refs[i].blktype);
    } else {
      PagesApart(refs[i].page, refs[x].page);
    }
  }

  /** A write inside a live block. */
  lemma StoreKeeps(refs: seq<PageRef>, mem: map<int, int>, mem': map<int, int>, fl: map<int, seq<int>>, x: int,
    b: int, a: int)
    requires PagesOk(refs, mem, fl) && LiveAt(refs, fl, x, b, a) && OnlyIn(mem, mem', a, a + Size(refs[x].blktype))
    ensures PagesOk(refs, mem', fl)
  {
    forall i | i in fl
      ensures PageOk(mem', refs[i], fl[i])
    {
      forall j | 0 <= j < |fl[i]|
        ensures var w := refs[i].page + fl[i][j] * Size(refs[i].blktype); w in mem && w in mem' && mem'[w] == mem[w]
      {
        FreeOutside(refs, mem, fl, x, b, a, i, j);
      }
      PageKept(mem, mem', refs[i], fl[i]);
    }
  }

  /** Page record x changed only its offset and count. */
  ghost predicate SameRef(refs: seq<PageRef>, refs': seq<PageRef>, x: int) {
    && |refs'| == |refs| && 0 <= x < |refs|
    && refs' == refs[x := refs[x].(freeoff := refs'[x].freeoff, nfree := refs'[x].nfree)]
  }

  lemma ListsKept(refs: seq<PageRef>, refs': seq<PageRef>, allbase: int, sizebases: seq<int>, all: seq<int>,
    sl: seq<seq<int>>, used: set<int>, x: int)
    requires ListsOk(refs, allbase, sizebases, all, sl, used) && SameRef(refs, refs', x)
    ensures ListsOk(refs', allbase, sizebases, all, sl, used)
  {
    ListKept(refs, refs', allbase, all, false);
    forall t | 0 <= t < NSIZES
      ensures ListOk(refs', sizebases[t], sl[t], true)
    {
      ListKept(refs, refs', sizebases[t], sl[t], true);
    }
    forall t, i | 0 <= t < NSIZES
      ensures i in sl[t] <==> i in used && refs'[i].blktype == t
    {
      assert 0 <= i < NPAGEREFS ==> refs'[i].blktype == refs[i].blktype;
    }
  }

  lemma PagesSet(refs: seq<PageRef>, refs': seq<PageRef>, mem: map<int, int>, fl: map<int, seq<int>>, x: int,
    f: seq<int>)
    requires PagesOk(refs, mem, fl) && x in fl && SameRef(refs, refs', x) && PageOk(mem, refs'[x], f)
    ensures PagesOk(refs', mem, fl[x := f])
  {
  }

  /** The first free block of x becomes live. */
  lemma PopLive(refs: seq<PageRef>, refs': seq<PageRef>, fl: map<int, seq<int>>, x: int, a: int)
    requires x in fl && SameRef(refs, refs', x) && fl[x] != [] && NoDup(fl[x]) && 0 <= fl[x][0] < Cap(refs[x].blktype)
    ensures var r := refs[x].page + fl[x][0] * Size(refs[x].blktype);
            IsLive(refs', fl[x := fl[x][1..]], a) <==> IsLive(refs, fl, a) || a == r
  {
    var f := fl[x];
    var fl' := fl[x := f[1..]];
    var r := refs[x].page + f[0] * Size(refs[x].blktype);
    assert LiveAt(refs', fl', x, f[0], r);
    if IsLive(refs, fl, a) {
      var i, b :| LiveAt(refs, fl, i, b, a);
      assert LiveAt(refs', fl', i, b, a);
    }
    if IsLive(refs', fl', a) && a != r {
      var i, b :| LiveAt(refs', fl', i, b, a);
      assert LiveAt(refs, fl, i, b, a);
    }
  }

  /** A live address is one block's. */
  lemma SameBlock(refs: seq<PageRef>, mem: map<int, int>, fl: map<int, seq<int>>, i: int, b: int, j: int, c: int,
    a: int)
    requires PagesOk(refs, mem, fl) && LiveAt(refs, fl, i, b, a) && LiveAt(refs, fl, j, c, a)
    ensures i == j && b == c
  {
    OnPage(b, refs[i].blktype);
    OnPage(c, refs[j].blktype);
    if i != j {
      PagesApart(refs[i].page, refs[j].page);
    } else if b != c {
      BlocksApart(b, c, refs[i].blktype);
    }
  }

  /** Block b of x is free again. */
  lemma PushLive(refs: seq<PageRef>, refs': seq<PageRef>, mem: map<int, int>, fl: map<int, seq<int>>, x: int, b: int,
    r: int, a: int)
    requires PagesOk(refs, mem, fl) && LiveAt(refs, fl, x, b, r) && SameRef(refs, refs', x)
    ensures IsLive(refs', fl[x := [b] + fl[x]], a) <==> IsLive(refs, fl, a) && a != r
  {
    var fl' := fl[x := [b] + fl[x]];
    if IsLive(refs, fl, a) && a != r {
      var i, c :| LiveAt(refs, fl, i, c, a);
      assert LiveAt(refs', fl', i, c, a);
    }
    if IsLive(refs', fl', a) {
      var i, c :| LiveAt(refs', fl', i, c, a);
      assert LiveAt(refs, fl, i, c, a);
      if a == r {
        SameBlock(refs, mem, fl, x, b, i, c, a);
        assert false;
      }
    }
  }

  /** A page without live blocks is dropped. */
  lemma DropLive(refs: seq<PageRef>, refs': seq<PageRef>, mem: map<int, int>, fl: map<int, seq<int>>, x: int, a: int)
    requires PagesOk(refs, mem, fl) && x in fl && |fl[x]| == Cap(refs[x].blktype) && |refs'| == |refs|
    requires forall i :: i in fl && i != x ==> refs'[i].page == refs[i].page && refs'[i].blktype == refs[i].blktype
    ensures IsLive(refs', fl - {x}, a) <==> IsLive(refs, fl, a)
  {
    if IsLive(refs, fl, a) {
      var i, b :| LiveAt(refs, fl, i, b, a);
      if i == x {
        AllBlocksFree(mem, refs[x], fl[x], b);
      }
      assert LiveAt(refs', fl - {x}, i, b, a);
    }
    if IsLive(refs', fl - {x}, a) {
      var i, b :| LiveAt(refs', fl - {x}, i, b, a);
      assert LiveAt(refs, fl, i, b, a);
    }
  }

  /** A new page, entirely free. */
  lemma AddLive(refs: seq<PageRef>, refs': seq<PageRef>, mem': map<int, int>, fl: map<int, seq<int>>, x: int,
    f: seq<int>, a: int)
    requires x !in fl && 0 <= x < |refs| == |refs'| && PageOk(mem', refs'[x], f) && |f| == Cap(refs'[x].blktype)
    requires forall i :: 0 <= i < |refs| && i != x ==> refs'[i] == refs[i]
    ensures IsLive(refs', fl[x := f], a) <==> IsLive(refs, fl, a)
  {
    var fl' := fl[x := f];
    if IsLive(refs, fl, a) {
      var i, b :| LiveAt(refs, fl, i, b, a);
      assert LiveAt(refs', fl', i, b, a);
    }
    if IsLive(refs', fl', a) {
      var i, b :| LiveAt(refs', fl', i, b, a);
      if i == x {
        AllBlocksFree(mem', refs'[x], f, b);
      }
      assert LiveAt(refs, fl, i, b, a);
    }
  }

  // ---- allocpageref and freepageref ----

  lemma SetBit(inuse: seq<nat>, used: set<int>, i: int, x: bool)
    requires BitsAre(inuse, used) && 0 <= i < NPAGEREFS
    ensures BitsAre(inuse[i / 32 := PutBit(inuse[i / 32], i % 32, x)], if x then used + {i} else used - {i})
  {
    var inuse' := inuse[i / 32 := PutBit(inuse[i / 32], i % 32, x)];
    PutBitBound(inuse[i / 32], i % 32, x, 32);
    forall k | 0 <= k < NPAGEREFS
      ensures BitOf(inuse'[k / 32], k % 32) <==> if k == i then x else k in used
    {
      if k / 32 == i / 32 {
        PutBitEffect(inuse[i / 32], i % 32, x, k % 32);
      }
    }
  }

  /** Address a is on one of the pages with blocks. */
  ghost predicate OnSomePage(refs: seq<PageRef>, fl: map<int, seq<int>>, a: int) {
    exists i :: i in fl && 0 <= i < |refs| && refs[i].page <= a < refs[i].page + PAGE_SIZE
  }

  ghost predicate FreeBlockAt(refs: seq<PageRef>, fl: map<int, seq<int>>, i: int, j: int, a: int) {
    i in fl && 0 <= i < |refs| && 0 <= j < |fl[i]| && a == refs[i].page + fl[i][j] * Size(refs[i].blktype)
  }

  /** Address a is that of a free block. */
  ghost predicate FreeAddress(refs: seq<PageRef>, fl: map<int, seq<int>>, a: int) {
    exists i, j :: FreeBlockAt(refs, fl, i, j, a)
  }

  lemma BlockNumber(d: int, t: int) returns (b: int)
    requires 0 <= d < PAGE_SIZE && d % Size(t) == 0
    ensures 0 <= b < Cap(t) && d == b * Size(t)
  {
    hide Size, Cap;
    b := d / Size(t);
    assert d == b * Size(t);
    if b >= Cap(t) {
      Times(Cap(t) - 1, b, Size(t));
      assert false;
    }
  }

  lemma NotFreeLive(refs: seq<PageRef>, fl: map<int, seq<int>>, x: int, b: int, a: int)
    requires x in fl && 0 <= x < |refs| && 0 <= b < Cap(refs[x].blktype) &&
      a == refs[x].page + b * Size(refs[x].blktype)
    ensures IsLive(refs, fl, a) || FreeAddress(refs, fl, a)
  {
    if b in fl[x] {
      var j :| 0 <= j < |fl[x]| && fl[x][j] == b;
      assert FreeBlockAt(refs, fl, x, j, a);
    } else {
      assert LiveAt(refs, fl, x, b, a);
    }
  }

  lemma Multiple(b: int, s: int)
    requires s > 0
    ensures b * s % s == 0
  {
    assert b * s == s * b + 0;
    var q, r := b * s / s, b * s % s;
    assert b * s == q * s + r && 0 <= r < s;
    if q < b {
      Times(q, b, s);
    } else if b < q {
      Times(b, q, s);
    }
  }

  /** A live address on page x is one of its blocks. */
  lemma LiveBlock(refs: seq<PageRef>, mem: map<int, int>, fl: map<int, seq<int>>, x: int, a: int) returns (b: int)
    requires PagesOk(refs, mem, fl) && x in fl && 0 <= x < |refs| && refs[x].page <= a < refs[x].page + PAGE_SIZE
    requires IsLive(refs, fl, a) || !(refs[x].page <= a < refs[x].page + PAGE_SIZE)
    ensures LiveAt(refs, fl, x, b, a)
  {
    var i, c :| LiveAt(refs, fl, i, c, a);
    OnPage(c, refs[i].blktype);
    if i != x {
      PagesApart(refs[i].page, refs[x].page);
      assert false;
    }
    b := c;
  }

  /** An address on page x is live, or that of a free block, exactly if a block starts there. */
  lemma StartsBlock(refs: seq<PageRef>, mem: map<int, int>, fl: map<int, seq<int>>, x: int, a: int)
    requires PagesOk(refs, mem, fl) && x in fl && 0 <= x < |refs| && refs[x].page <= a < refs[x].page + PAGE_SIZE
    requires !FreeAddress(refs, fl, a)
    ensures IsLive(refs, fl, a) <==> (a - refs[x].page) % Size(refs[x].blktype) == 0
  {
    hide PageOk, FreeAddress, IsLive;
    var t := refs[x].blktype;
    if IsLive(refs, fl, a) {
      var b := LiveBlock(refs, mem, fl, x, a);
      Multiple(b, Size(t));
    }
    if (a - refs[x].page) % Size(t) == 0 {
      var b := BlockNumber(a - refs[x].page, t);
      NotFreeLive(refs, fl, x, b, a);
    }
  }

  lemma PagesSame(refs: seq<PageRef>, refs': seq<PageRef>, fl: map<int, seq<int>>, fl': map<int, seq<int>>, x: int)
    requires SameRef(refs, refs', x) && fl'.Keys == fl.Keys
    ensures PagesFrom(refs, fl, refs', fl', 0)
  {
  }

  lemma PagesTwice(r0: seq<PageRef>, f0: map<int, seq<int>>, r1: seq<PageRef>, f1: map<int, seq<int>>,
    r2: seq<PageRef>, f2: map<int, seq<int>>)
    requires PagesFrom(r0, f0, r1, f1, 0) && PagesFrom(r1, f1, r2, f2, 0)
    ensures PagesFrom(r0, f0, r2, f2, 0)
  {
  }

  predicate SamePage(a: int, b: int) {
    a / PAGE_SIZE == b / PAGE_SIZE
  }

  lemma LiveOnPage(refs: seq<PageRef>, mem: map<int, int>, fl: map<int, seq<int>>, a: int)
    requires PagesOk(refs, mem, fl)
    requires forall i :: i in fl && 0 <= i < |refs| ==> !(refs[i].page <= a < refs[i].page + PAGE_SIZE)
    ensures !IsLive(refs, fl, a)
  {
    if i, b :| LiveAt(refs, fl, i, b, a) {
      OnPage(b, refs[i].blktype);
      assert false;
    }
  }

  lemma NothingLiveOn(refs: seq<PageRef>, mem: map<int, int>, fl: map<int, seq<int>>, x: int)
    requires PagesOk(refs, mem, fl) && x in fl && 0 <= x < |refs| && |fl[x]| == Cap(refs[x].blktype)
    ensures forall a :: IsLive(refs, fl, a) ==> !(refs[x].page <= a < refs[x].page + PAGE_SIZE)
  {
    forall a | IsLive(refs, fl, a) && refs[x].page <= a < refs[x].page + PAGE_SIZE
      ensures false
    {
      var b := LiveBlock(refs, mem, fl, x, a);
      AllBlocksFree(mem, refs[x], fl[x], b);
    }
  }

  lemma OneFrame(page: int, a: int, b: int)
    requires page % PAGE_SIZE == 0 && page <= a < page + PAGE_SIZE && page <= b < page + PAGE_SIZE
    ensures SamePage(a, b)
  {
  }

  lemma StillLive(refs: seq<PageRef>, mem: map<int, int>, fl: map<int, seq<int>>, x: int, p: int) returns (a: int)
    requires PagesOk(refs, mem, fl) && x in fl && 0 <= x < |refs| && |fl[x]| < Cap(refs[x].blktype)
    requires refs[x].page <= p < refs[x].page + PAGE_SIZE
    ensures IsLive(refs, fl, a) && SamePage(a, p)
  {
    var r := refs[x];
    FreePlusLive(mem, r, fl[x]);
    var live := (set b | 0 <= b < Cap(r.blktype) && b !in fl[x]);
    assert live != {};
    var b :| b in live;
    OnPage(b, r.blktype);
    a := r.page + b * Size(r.blktype);
    assert LiveAt(refs, fl, x, b, a);
    OneFrame(r.page, a, p);
  }

  lemma NotEmpty(refs: seq<PageRef>, fl: map<int, seq<int>>, x: int)
    requires SomeLive(refs, fl, x) && x in fl && 0 <= x < |refs| && |fl[x]| < Cap(refs[x].blktype)
    ensures SomeLive(refs, fl, NONE)
  {
  }

  lemma UsedType(refs: seq<PageRef>, mem: map<int, int>, fl: map<int, seq<int>>, x: int)
    requires PagesOk(refs, mem, fl) && x in fl
    ensures 0 <= x < |refs| && 0 <= refs[x].blktype < NSIZES && 0 < refs[x].page
  {
  }

  lemma PutOk(refs: seq<PageRef>, refs': seq<PageRef>, mem: map<int, int>, mem': map<int, int>, fl: map<int,
    seq<int>>, x: int, b: int, a: int)
    requires PagesOk(refs, mem, fl) && SomeLive(refs, fl, NONE) && LiveAt(refs, fl, x, b, a)
    requires OnlyIn(mem, mem', a, a + Size(refs[x].blktype)) && a in mem' && mem'[a] == if fl[x] == [] then 0
      else refs[x].page + refs[x].freeoff
    requires refs' == refs[x := refs[x].(nfree := refs[x].nfree + 1, freeoff := b * Size(refs[x].blktype))]
    ensures PagesOk(refs', mem', fl[x := [b] + fl[x]]) && SomeLive(refs', fl[x := [b] + fl[x]], x)
  {
    StoreKeeps(refs, mem, mem', fl, x, b, a);
    forall j | 0 <= j < |fl[x]|
      ensures var w := refs[x].page + fl[x][j] * Size(refs[x].blktype); w in mem && w in mem' && mem'[w] == mem[w]
    {
      FreeOutside(refs, mem, fl, x, b, a, x, j);
    }
    PushBlock(mem, mem', refs[x], fl[x], b);
    hide PageOk;
    PagesSet(refs, refs', mem', fl, x, [b] + fl[x]);
  }

  /** The free list does not depend on the record's links. */
  lemma Relinked(mem: map<int, int>, r: PageRef, r': PageRef, f: seq<int>)
    requires PageOk(mem, r, f) && r' == r.(nextSame := r'.nextSame, nextAll := r'.nextAll)
    ensures PageOk(mem, r', f)
  {
    forall j | 0 <= j < |f|
      ensures FreeAt(mem, r', f, j)
    {
      assert FreeAt(mem, r, f, j);
    }
  }

  lemma DropPages(refs: seq<PageRef>, refs': seq<PageRef>, mem: map<int, int>, fl: map<int, seq<int>>, x: int)
    requires PagesOk(refs, mem, fl) && SomeLive(refs, fl, x) && |refs'| == |refs|
    requires forall i :: 0 <= i < |refs| ==>
      refs'[i] == refs[i].(nextSame := refs'[i].nextSame, nextAll := refs'[i].nextAll)
    ensures PagesOk(refs', mem, fl - {x}) && SomeLive(refs', fl - {x}, NONE)
  {
    forall i | i in fl
      ensures 0 <= i < |refs| && PageOk(mem, refs'[i], fl[i])
    {
      Relinked(mem, refs[i], refs'[i], fl[i]);
    }
    hide PageOk;
  }

  lemma InWithout(l: seq<int>, p: int, i: int)
    requires NoDup(l) && 0 <= p < |l|
    ensures i in Without(l, p) <==> i in l && i != l[p]
  {
    var k := Without(l, p);
    if i in l && i != l[p] {
      var j :| 0 <= j < |l| && l[j] == i;
      assert k[if j < p then j else j - 1] == i;
    }
    if i in k {
      var j :| 0 <= j < |k| && k[j] == i;
      assert l[if j < p then j else j + 1] == i;
    }
  }

  lemma DropLists(refs: seq<PageRef>, refs1: seq<PageRef>, refs2: seq<PageRef>, allbase: int, ab: int,
    sizebases: seq<int>, sb: int,
                  all: seq<int>, sl: seq<seq<int>>, used: set<int>, x: int, p: int, q: int)
    requires ListsOk(refs, allbase, sizebases, all, sl, used) && x in used && 0 <= refs[x].blktype < NSIZES
    requires var t := refs[x].blktype;
             && 0 <= p < |sl[t]| && sl[t][p] == x && ListOk(refs1, sb, Without(sl[t], p), true) && |refs1| == |refs|
             && (forall i :: 0 <= i < |refs| ==>
               refs1[i] == refs[i].(nextSame := refs1[i].nextSame) && (i !in sl[t] ==> refs1[i] == refs[i]))
    requires 0 <= q < |all| && all[q] == x && ListOk(refs2, ab, Without(all, q), false) && |refs2| == |refs|
    requires forall i :: 0 <= i < |refs| ==> refs2[i] == refs1[i].(nextAll := refs2[i].nextAll)
    ensures var t := refs[x].blktype;
            ListsOk(refs2, ab, sizebases[t := sb], Without(all, q), sl[t := Without(sl[t], p)], used - {x})
  {
    hide Without;
    var t := refs[x].blktype;
    var sb', sl' := sizebases[t := sb], sl[t := Without(sl[t], p)];
    forall u | 0 <= u < NSIZES
      ensures ListOk(refs2, sb'[u], sl'[u], true)
    {
      if u == t {
        ListKept(refs1, refs2, sb, sl'[t], true);
      } else {
        ListKept(refs, refs2, sizebases[u], sl[u], true);
      }
    }
    forall i
      ensures i in Without(all, q) <==> i in used - {x}
    {
      InWithout(all, q, i);
    }
    forall u, i | 0 <= u < NSIZES
      ensures i in sl'[u] <==> i in used - {x} && refs2[i].blktype == u
    {
      InWithout(sl[t], p, i);
      assert i in sl[u] <==> i in used && refs[i].blktype == u;
    }
  }

  lemma NoneOfType(refs: seq<PageRef>, mem: map<int, int>, fl: map<int, seq<int>>, sz: int, t: int)
    requires PagesOk(refs, mem, fl) && 0 <= t < NSIZES && FitsType(sz, t)
    requires forall i :: i in fl && 0 <= i < |refs| && refs[i].blktype == t ==> fl[i] == []
    ensures NoneFree(refs, fl, sz)
  {
    forall i | i in fl && 0 <= i < |refs| && FitsType(sz, refs[i].blktype)
      ensures fl[i] == []
    {
      assert PageOk(mem, refs[i], fl[i]);
      var u := refs[i].blktype;
      assert u < t ==> Size(u) < sz;
      assert t < u ==> Size(t) < sz;
    }
  }

  lemma NewPageApart(refs: seq<PageRef>, mem: map<int, int>, mem': map<int, int>, fl: map<int, seq<int>>, page: int)
    requires PagesOk(refs, mem, fl) && page % PAGE_SIZE == 0 && OnlyIn(mem, mem', page, page + PAGE_SIZE)
    requires forall i :: i in fl ==> 0 <= i < |refs| && refs[i].page != page
    ensures PagesOk(refs, mem', fl)
  {
    forall i | i in fl
      ensures PageOk(mem', refs[i], fl[i])
    {
      forall j | 0 <= j < |fl[i]|
        ensures var w := refs[i].page + fl[i][j] * Size(refs[i].blktype); w in mem && w in mem' && mem'[w] == mem[w]
      {
        assert FreeAt(mem, refs[i], fl[i], j);
        OnPage(fl[i][j], refs[i].blktype);
        PagesApart(refs[i].page, page);
      }
      PageKept(mem, mem', refs[i], fl[i]);
    }
  }

  lemma Weaken(refs: seq<PageRef>, mem: map<int, int>, fl: map<int, seq<int>>, x: int)
    requires PagesOk(refs, mem, fl) && SomeLive(refs, fl, NONE)
    ensures SomeLive(refs, fl, x)
  {
  }

  lemma UsedIn(refs: seq<PageRef>, mem: map<int, int>, fl: map<int, seq<int>>)
    requires PagesOk(refs, mem, fl)
    ensures forall i :: i in fl ==> 0 <= i < |refs|
  {
  }

  lemma ListSizes(refs: seq<PageRef>, allbase: int, sizebases: seq<int>, all: seq<int>, sl: seq<seq<int>>,
    used: set<int>)
    requires ListsOk(refs, allbase, sizebases, all, sl, used)
    ensures |refs| == NPAGEREFS && |sizebases| == NSIZES == |sl|
  {
  }

  lemma AddPages(refs: seq<PageRef>, refs': seq<PageRef>, mem: map<int, int>, fl: map<int, seq<int>>, x: int,
    f: seq<int>)
    requires PagesOk(refs, mem, fl) && SomeLive(refs, fl, NONE) && x !in fl && 0 <= x < |refs| == |refs'|
    requires refs' == refs[x := refs'[x]] && PageOk(mem, refs'[x], f) && forall i :: i in fl ==>
      0 <= i < |refs| && refs[i].page != refs'[x].page
    ensures PagesOk(refs', mem, fl[x := f]) && SomeLive(refs', fl[x := f], x)
  {
    hide PageOk;
  }

  /** i - 1, ..., 1, 0 */
  function Down(i: nat): (f: seq<int>)
    ensures |f| == i && (forall j :: 0 <= j < i ==> f[j] == i - 1 - j)
  {
    if i == 0 then [] else [i - 1] + Down(i - 1)
  }

  lemma FormatStep(mem: map<int, int>, mem': map<int, int>, page: int, t: int, i: int)
    requires 0 <= t < NSIZES && 1 <= i < Cap(t) && mem' == mem[page + i * Size(t) := page + (i - 1) * Size(t)]
    requires PageOk(mem, PageRef(NONE, NONE, page, t, (i - 1) * Size(t), i), Down(i))
    ensures PageOk(mem', PageRef(NONE, NONE, page, t, i * Size(t), i + 1), [i] + Down(i)) &&
      [i] + Down(i) == Down(i + 1)
  {
    var r, f := PageRef(NONE, NONE, page, t, (i - 1) * Size(t), i), Down(i);
    forall j | 0 <= j < |f|
      ensures var a := page + f[j] * Size(t); a in mem && a in mem' && mem'[a] == mem[a]
    {
      assert FreeAt(mem, r, f, j);
      BlocksApart(f[j], i, t);
    }
    PushBlock(mem, mem', r, f, i);
  }

  lemma TakeOk(refs: seq<PageRef>, refs': seq<PageRef>, mem: map<int, int>, fl: map<int, seq<int>>, x: int)
    requires PagesOk(refs, mem, fl) && x in fl && fl[x] != [] && SomeLive(refs, fl, x) && SameRef(refs, refs', x)
    requires PageOk(mem, refs'[x], fl[x][1..])
    ensures PagesOk(refs', mem, fl[x := fl[x][1..]]) && SomeLive(refs', fl[x := fl[x][1..]], NONE)
  {
    PagesSet(refs, refs', mem, fl, x, fl[x][1..]);
    FreePlusLive(mem, refs[x], fl[x]);
  }

  lemma FreeNotLive(refs: seq<PageRef>, mem: map<int, int>, fl: map<int, seq<int>>, x: int, a: int)
    requires PagesOk(refs, mem, fl) && x in fl && fl[x] != [] && a == refs[x].page + fl[x][0] * Size(refs[x].blktype)
    ensures !IsLive(refs, fl, a)
  {
    if i, b :| LiveAt(refs, fl, i, b, a) {
      FreeOutside(refs, mem, fl, i, b, a, x, 0);
      assert false;
    }
  }

  lemma AddLists(refs: seq<PageRef>, refs': seq<PageRef>, allbase: int, sizebases: seq<int>, all: seq<int>,
    sl: seq<seq<int>>, used: set<int>, x: int)
    requires ListsOk(refs, allbase, sizebases, all, sl, used) && x !in used && 0 <= x < NPAGEREFS
    requires |refs'| == NPAGEREFS && refs' == refs[x := refs'[x]] && 0 <= refs'[x].blktype < NSIZES
    requires refs'[x].nextAll == allbase && refs'[x].nextSame == sizebases[refs'[x].blktype]
    ensures var t := refs'[x].blktype;
            ListsOk(refs', x, sizebases[t := x], [x] + all, sl[t := [x] + sl[t]], used + {x})
  {
    var t := refs'[x].blktype;
    PushList(refs, refs', allbase, all, false, x);
    var sb, sl' := sizebases[t := x], sl[t := [x] + sl[t]];
    forall u | 0 <= u < NSIZES
      ensures ListOk(refs', sb[u], sl'[u], true)
    {
      if u == t {
        PushList(refs, refs', sizebases[t], sl[t], true, x);
      } else {
        ListKept(refs, refs', sizebases[u], sl[u], true);
      }
    }
    forall u, i | 0 <= u < NSIZES
      ensures i in sl'[u] <==> i in used + {x} && refs'[i].blktype == u
    {
      assert i in sl[u] <==> i in used && refs[i].blktype == u;
    }
  }

  lemma ClearBitIn32(w: nat) returns (p: nat)
    requires w < Pow2(32) && w != 0xffff_ffff
    ensures p < 32 && !BitOf(w, p)
  {
    Pow2Of32();
    p := ClearBitIn(w, 32);
  }

  class Kheap {
    var refs: seq<PageRef>
    var inuse: seq<nat>
    var sizebases: seq<int>
    var allbase: int
    var mem: map<int, int>

    /** The list of all page records, the lists by size, and each page's free blocks. */
    ghost var all: seq<int>
    ghost var sl: seq<seq<int>>
    ghost var fl: map<int, seq<int>>

    /** Page x, if any, may be entirely free. */
    ghost predicate Sound(x: int)
      reads this
    {
      && BitsAre(inuse, fl.Keys) && ListsOk(refs, allbase, sizebases, all, sl, fl.Keys)
      && PagesOk(refs, mem, fl) && SomeLive(refs, fl, x)
    }

    ghost predicate Valid()
      reads this
    {
      Sound(NONE)
    }

    ghost predicate Live(a: int)
      reads this
    {
      IsLive(refs, fl, a)
    }

    constructor ()
      ensures Valid() && forall a :: !Live(a)
    {
      refs := seq(NPAGEREFS, _ => PageRef(0, 0, 0, 0, 0, 0));
      inuse := seq(8, _ => 0);
      sizebases, allbase, mem := seq(NSIZES, _ => NONE), NONE, map[];
      all, sl, fl := [], seq(NSIZES, _ => []), map[];
      new;
      forall i | 0 <= i < NPAGEREFS
        ensures !BitOf(inuse[i / 32], i % 32)
      {
        ZeroBit(i % 32);
      }
      Pow2Of32();
    }

    /** allocpageref: the lowest record not in use. */
    method AllocPageRef(ghost used: set<int>) returns (x: int)
      requires BitsAre(inuse, used)
      modifies this`inuse
      ensures x == NONE ==> inuse == old(inuse) && forall i :: 0 <= i < NPAGEREFS ==> i in used
      ensures x != NONE ==> 0 <= x < NPAGEREFS && x !in used && BitsAre(inuse, used + {x}) && forall i ::
        0 <= i < x ==> i in used
    {
      for i := 0 to 8
        invariant inuse == old(inuse) && forall k :: 0 <= k < 32 * i ==> k in used
      {
        if inuse[i] != 0xffff_ffff {
          ghost var c := ClearBitIn32(inuse[i]);
          var j := 0;
          while BitOf(inuse[i], j)
            invariant 0 <= j <= c && forall k :: 0 <= k < j ==> BitOf(inuse[i], k)
            decreases c - j
          {
            assert j != c;
            j := j + 1;
          }
          x := i * 32 + j;
          forall k | 32 * i <= k < x
            ensures k in used
          {
            assert k / 32 == i && BitOf(inuse[i], k % 32);
          }
          assert x / 32 == i && x % 32 == j;
          SetBit(inuse, used, x, true);
          inuse := inuse[i := PutBit(inuse[i], j, true)];
          return;
        }
        forall k | 32 * i <= k < 32 * i + 32
          ensures k in used
        {
          assert k / 32 == i && Pow2(32) == 0x1_0000_0000 by { Pow2Of32(); }
          FullWordBit(inuse[i], 32, k % 32);
        }
      }
      x := NONE;
    }

    /** freepageref */
    method FreePageRef(j: int, ghost used: set<int>)
      requires BitsAre(inuse, used) && 0 <= j < NPAGEREFS && j in used
      modifies this`inuse
      ensures BitsAre(inuse, used - {j})
    {
      assert BitOf(inuse[j / 32], j % 32);
      SetBit(inuse, used, j, false);
      inuse := inuse[j / 32 := PutBit(inuse[j / 32], j % 32, false)];
    }

    /** blocktype: the smallest block size that will do. */
    static method BlockType(sz: int) returns (t: int)
      requires 0 <= sz <= 2048
      ensures 0 <= t < NSIZES && sz <= Size(t) && forall u :: 0 <= u < t ==> Size(u) < sz
    {
      t := 0;
      while sz > SIZES[t]
        invariant 0 <= t < NSIZES && forall u :: 0 <= u < t ==> Size(u) < sz
        decreases NSIZES - t
      {
        t := t + 1;
      }
    }

    /** The block at the head of page x's free list is handed out. */
    method TakeBlock(x: int) returns (retptr: int)
      requires Sound(x) && x in fl && fl[x] != []
      modifies this`refs, this`fl
      ensures Valid() && x in old(fl) && 0 <= x < |old(refs)| && old(fl)[x] != []
      ensures retptr == old(refs)[x].page + old(fl)[x][0] * Size(old(refs)[x].blktype)
      ensures fl == old(fl)[x := old(fl)[x][1..]] && SameRef(old(refs), refs, x)
      ensures !old(Live(retptr)) && forall a :: Live(a) <==> old(Live(a)) || a == retptr
    {
      hide BitsAre, ListsOk;
      var r := refs[x];
      PopBlock(mem, r, fl[x]);
      retptr := r.page + r.freeoff;
      var next := mem[retptr];
      var r' := r.(nfree := r.nfree - 1, freeoff := if next != 0 then next - r.page else INVALID_OFFSET);
      ghost var refs0, fl0 := refs, fl;
      refs, fl := refs[x := r'], fl[x := fl[x][1..]];
      TakeOk(refs0, refs, mem, fl0, x);
      ListsKept(refs0, refs, allbase, sizebases, all, sl, fl0.Keys, x);
      assert fl.Keys == fl0.Keys;
      forall a
        ensures IsLive(refs, fl, a) <==> IsLive(refs0, fl0, a) || a == retptr
      {
        PopLive(refs0, refs, fl0, x, a);
      }
      FreeNotLive(refs0, mem, fl0, x, retptr);
    }

    /** The word written at the start of each block of a new page. */
    method FormatPage(page: int, t: int) returns (ghost f: seq<int>)
      requires 0 <= t < NSIZES && 0 < page && page % PAGE_SIZE == 0
      modifies this`mem
      ensures PageOk(mem, PageRef(NONE, NONE, page, t, (Cap(t) - 1) * Size(t), Cap(t)), f) && |f| == Cap(t)
      ensures OnlyIn(old(mem), mem, page, page + PAGE_SIZE)
    {
      var n, sz := Cap(t), SIZES[t];
      mem := mem[page := 0];
      f := [0];
      var i := 1;
      OnPage(0, t);
      while i < n
        invariant 1 <= i <= n && f == Down(i)
        invariant PageOk(mem, PageRef(NONE, NONE, page, t, (i - 1) * sz, i), f)
        invariant OnlyIn(old(mem), mem, page, page + PAGE_SIZE)
      {
        OnPage(i, t);
        ghost var mem0 := mem;
        mem := mem[page + i * sz := page + (i - 1) * sz];
        FormatStep(mem0, mem, page, t, i);
        f := [i] + f;
        i := i + 1;
      }
    }

    /** The links of a new page record: first in both lists. */
    method AddPage(x: int, page: int, t: int, off: int, n: int, ghost f: seq<int>)
      requires 0 <= x < NPAGEREFS && x !in fl && 0 <= t < NSIZES
      requires BitsAre(inuse, fl.Keys + {x}) && ListsOk(refs, allbase, sizebases, all, sl, fl.Keys)
      requires PagesOk(refs, mem, fl) && SomeLive(refs, fl, NONE) && forall i :: i in fl ==> refs[i].page != page
      requires PageOk(mem, PageRef(NONE, NONE, page, t, off, n), f) && |f| == Cap(t)
      modifies this`refs, this`sizebases, this`allbase, this`all, this`sl, this`fl
      ensures Sound(x) && fl == old(fl)[x := f] && refs[x].page == page && refs[x].blktype == t
      ensures PagesFrom(old(refs), old(fl), refs, fl, page)
      ensures forall a :: Live(a) <==> old(Live(a))
    {
      hide PageOk, ListsOk, BitsAre, PagesOk, SomeLive, IsLive;
      ghost var refs0, fl0 := refs, fl;
      ghost var r := PageRef(NONE, NONE, page, t, off, n);
      ListSizes(refs, allbase, sizebases, all, sl, fl.Keys);
      UsedIn(refs, mem, fl);
      refs := refs[x := PageRef(sizebases[t], allbase, page, t, off, n)];
      Relinked(mem, r, refs[x], f);
      AddLists(refs0, refs, allbase, sizebases, all, sl, fl.Keys, x);
      AddPages(refs0, refs, mem, fl0, x, f);
      sizebases, allbase := sizebases[t := x], x;
      all, sl, fl := [x] + all, sl[t := [x] + sl[t]], fl[x := f];
      assert fl.Keys == fl0.Keys + {x};
      forall a
        ensures IsLive(refs, fl, a) <==> IsLive(refs0, fl0, a)
      {
        AddLive(refs0, refs, mem, fl0, x, f, a);
      }
    }

    /** subpage_kmalloc.  page is what alloc_kpages gives when asked: 0, or a page not in use here. */
    method SubpageKmalloc(sz: int, page: int) returns (retptr: int)
      requires Valid() && 0 <= sz <= 2048
      requires page == 0 || (0 < page && page % PAGE_SIZE == 0 && forall i :: i in fl ==>
        0 <= i < |refs| && refs[i].page != page)
      modifies this
      ensures Valid() && (retptr == 0 ==> forall a :: Live(a) <==> old(Live(a)))
      ensures OnlyIn(old(mem), mem, page, if page == 0 then 0 else page + PAGE_SIZE) &&
        PagesFrom(old(refs), old(fl), refs, fl, page)
      ensures retptr == 0 || fl.Keys != old(fl.Keys) ==> NoneFree(old(refs), old(fl), sz)
      ensures retptr == 0 ==> page == 0 || forall i :: 0 <= i < NPAGEREFS ==> i in fl
      ensures retptr != 0 ==>
        && !old(Live(retptr)) && (forall a :: Live(a) <==> old(Live(a)) || a == retptr)
        && exists i, b :: LiveAt(refs, fl, i, b, retptr) && FitsType(sz, refs[i].blktype)
    {
      hide BitsAre, ListsOk, PagesOk, SomeLive, IsLive;
      var t := BlockType(sz);
      var pr := FindPage(t);
      if pr == NONE {
        NoneOfType(refs, mem, fl, sz, t);
      }
      hide NoneFree;
      if pr != NONE {
        Weaken(refs, mem, fl, pr);
        retptr := TakeBlock(pr);
        Handed(pr, old(refs), old(fl), mem, retptr);
        return;
      }
      var x := AllocPageRef(fl.Keys);
      if x == NONE {
        return 0;
      }
      if page == 0 {
        FreePageRef(x, fl.Keys + {x});
        assert fl.Keys + {x} - {x} == fl.Keys;
        return 0;
      }
      ghost var mem0 := mem;
      ghost var f := FormatPage(page, t);
      NewPageApart(refs, mem0, mem, fl, page);
      AddPage(x, page, t, (Cap(t) - 1) * SIZES[t], Cap(t), f);
      ghost var refs1, fl1 := refs, fl;
      retptr := TakeBlock(x);
      Handed(x, refs1, fl1, mem, retptr);
    }

    /** The search for a page of blocks of type t with a free block. */
    method FindPage(t: int) returns (pr: int)
      requires Valid() && 0 <= t < NSIZES
      ensures pr != NONE ==> pr in fl && fl[pr] != [] && 0 <= pr < |refs| && refs[pr].blktype == t
      ensures pr == NONE ==> forall i :: i in fl && 0 <= i < |refs| && refs[i].blktype == t ==> fl[i] == []
    {
      hide BitsAre, SomeLive;
      ghost var j := 0;
      pr := sizebases[t];
      assert |sl[t]| > 0 ==> LinkAt(refs, sl[t], true, 0);
      while pr != NONE
        invariant 0 <= j <= |sl[t]| && (pr != NONE <==> j < |sl[t]|) && (j < |sl[t]| ==> pr == sl[t][j])
        invariant forall k :: 0 <= k < j ==> sl[t][k] in fl && fl[sl[t][k]] == []
        decreases |sl[t]| - j
      {
        assert LinkAt(refs, sl[t], true, j) && sl[t][j] in sl[t];
        assert j + 1 < |sl[t]| ==> LinkAt(refs, sl[t], true, j + 1);
        assert PageOk(mem, refs[pr], fl[pr]) && refs[pr].blktype == t;
        if refs[pr].nfree > 0 {
          return;
        }
        pr := refs[pr].nextSame;
        j := j + 1;
      }
      forall i | i in sl[t]
        ensures fl[i] == []
      {
        var k :| 0 <= k < |sl[t]| && sl[t][k] == i;
      }
    }

    /** What was just taken from page x is live and on a page of its type. */
    lemma Handed(x: int, refs0: seq<PageRef>, fl0: map<int, seq<int>>, mem0: map<int, int>, a: int)
      requires PagesOk(refs0, mem0, fl0) && x in fl0 && 0 <= x < |refs0| && fl0[x] != [] &&
        SameRef(refs0, refs, x) && fl == fl0[x := fl0[x][1..]]
      requires a == refs0[x].page + fl0[x][0] * Size(refs0[x].blktype)
      ensures LiveAt(refs, fl, x, fl0[x][0], a) && refs[x].blktype == refs0[x].blktype && a != 0
    {
      assert FreeAt(mem0, refs0[x], fl0[x], 0);
      OnPage(fl0[x][0], refs0[x].blktype);
    }

    // ---- freeing ----

    /** fill_deadbeef */
    method FillDeadbeef(ptr: int, n: int)
      requires 0 <= n
      modifies this`mem
      ensures OnlyIn(old(mem), mem, ptr, ptr + n) && old(mem.Keys) <= mem.Keys && Wiped(mem, ptr, ptr, ptr + n)
    {
      for i := 0 to n / 4
        invariant OnlyIn(old(mem), mem, ptr, ptr + n) && old(mem.Keys) <= mem.Keys && Wiped(mem, ptr, ptr, ptr + 4 * i)
      {
        mem := mem[ptr + 4 * i := 0xdeadbeef];
      }
    }

    /** Block b of page x, at ptr, goes to the front of the page's free list. */
    method PutBlock(x: int, ptr: int, ghost b: int)
      requires Valid() && LiveAt(refs, fl, x, b, ptr)
      modifies this`mem, this`refs, this`fl
      ensures Sound(x) && fl == old(fl)[x := [b] + old(fl)[x]] && SameRef(old(refs), refs, x)
      ensures 0 <= x < |old(refs)| && OnlyIn(old(mem), mem, ptr, ptr + Size(old(refs)[x].blktype))
      ensures Wiped(mem, ptr, ptr + 4, ptr + Size(old(refs)[x].blktype))
      ensures forall a :: Live(a) <==> old(Live(a)) && a != ptr
      ensures refs[x].nfree == |fl[x]| <= Cap(refs[x].blktype)
    {
      hide BitsAre, ListsOk;
      ghost var refs0, fl0, mem0 := refs, fl, mem;
      var r := refs[x];
      OnPage(b, r.blktype);
      var offset := ptr - r.page;
      FillDeadbeef(ptr, SIZES[r.blktype]);
      mem := mem[ptr := if r.freeoff == INVALID_OFFSET then 0 else r.page + r.freeoff];
      refs := refs[x := r.(freeoff := offset, nfree := r.nfree + 1)];
      fl := fl[x := [b] + fl[x]];
      PutOk(refs0, refs, mem0, mem, fl0, x, b, ptr);
      ListsKept(refs0, refs, allbase, sizebases, all, sl, fl0.Keys, x);
      assert fl.Keys == fl0.Keys;
      forall a
        ensures IsLive(refs, fl, a) <==> IsLive(refs0, fl0, a) && a != ptr
      {
        PushLive(refs0, refs, mem0, fl0, x, b, ptr, a);
      }
      FreePlusLive(mem, refs[x], fl[x]);
    }

    /** One of the loops of remove_lists: x is taken out of the list l. */
    static method CutOut(refs: seq<PageRef>, base: int, x: int, same: bool, ghost l: seq<int>)
      returns (refs': seq<PageRef>, base': int, ghost p: int)
      requires ListOk(refs, base, l, same) && x in l
      ensures 0 <= p < |l| && l[p] == x && ListOk(refs', base', Without(l, p), same)
      ensures |refs'| == |refs| && forall i :: 0 <= i < |refs| ==>
        && refs'[i] == (if same then refs[i].(nextSame := refs'[i].nextSame) else refs[i].(nextAll := refs'[i].nextAll))
        && (i !in l ==> refs'[i] == refs[i])
    {
      p :| 0 <= p < |l| && l[p] == x;
      assert LinkAt(refs, l, same, p);
      refs', base' := refs, base;
      if base == x {
        base' := Next(refs[x], same);
        CutList(refs, refs', base, base', l, same, p);
        return;
      }
      assert LinkAt(refs, l, same, 0);
      var guy := base;
      ghost var j := 0;
      while Next(refs[guy], same) != x
        invariant 0 <= j < p && guy == l[j] && 0 <= guy < |refs|
        invariant LinkAt(refs, l, same, j)
        decreases p - j
      {
        assert LinkAt(refs, l, same, j + 1);
        guy := Next(refs[guy], same);
        j := j + 1;
      }
      assert j == p - 1;
      var next := Next(refs[x], same);
      refs' := refs[guy := if same then refs[guy].(nextSame := next) else refs[guy].(nextAll := next)];
      CutList(refs, refs', base, base', l, same, p);
    }

    /** remove_lists, free_kpages and freepageref for a page x that is entirely free. */
    method ReleasePage(x: int)
      requires Sound(x) && x in fl && 0 <= x < |refs| && |fl[x]| == Cap(refs[x].blktype)
      modifies this`refs, this`sizebases, this`allbase, this`all, this`sl, this`fl, this`inuse
      ensures Valid() && fl == old(fl) - {x}
      ensures forall a :: Live(a) <==> old(Live(a))
      ensures forall i :: i in fl ==> 0 <= i < |refs| && refs[i].page == old(refs)[i].page
      ensures PagesFrom(old(refs), old(fl), refs, fl, 0)
    {
      hide BitsAre, PagesOk, SomeLive, IsLive;
      ghost var refs0, fl0, sl0, all0 := refs, fl, sl, all;
      var t := refs[x].blktype;
      ghost var p, q;
      var refs1, refs2, sb, ab;
      UsedType(refs, mem, fl, x);
      refs1, sb, p := CutOut(refs, sizebases[t], x, true, sl[t]);
      ListKept(refs, refs1, allbase, all, false);
      refs2, ab, q := CutOut(refs1, allbase, x, false, all);
      DropLists(refs, refs1, refs2, allbase, ab, sizebases, sb, all, sl, fl.Keys, x, p, q);
      DropPages(refs, refs2, mem, fl, x);
      refs, allbase, sizebases := refs2, ab, sizebases[t := sb];
      all, sl, fl := Without(all, q), sl[t := Without(sl[t], p)], fl - {x};
      assert fl.Keys == fl0.Keys - {x};
      FreePageRef(x, fl0.Keys);
      forall a
        ensures IsLive(refs, fl, a) <==> IsLive(refs0, fl0, a)
      {
        DropLive(refs0, refs, mem, fl0, x, a);
      }
    }

    /** The search of subpage_kfree: the record of the page that address a is on. */
    method PageOf(a: int) returns (pr: int)
      requires Valid()
      ensures pr != NONE ==> pr in fl && 0 <= pr < |refs| && refs[pr].page <= a < refs[pr].page + PAGE_SIZE
      ensures pr == NONE ==> forall i :: i in fl && 0 <= i < |refs| ==> !(refs[i].page <= a < refs[i].page + PAGE_SIZE)
    {
      hide BitsAre, SomeLive, PagesOk;
      ghost var j := 0;
      pr := allbase;
      assert |all| > 0 ==> LinkAt(refs, all, false, 0);
      while pr != NONE
        invariant 0 <= j <= |all| && (pr != NONE <==> j < |all|) && (j < |all| ==> pr == all[j])
        invariant forall k :: 0 <= k < j ==>
          0 <= all[k] < |refs| && !(refs[all[k]].page <= a < refs[all[k]].page + PAGE_SIZE)
        decreases |all| - j
      {
        assert LinkAt(refs, all, false, j) && all[j] in all;
        assert j + 1 < |all| ==> LinkAt(refs, all, false, j + 1);
        if refs[pr].page <= a < refs[pr].page + PAGE_SIZE {
          return;
        }
        pr := refs[pr].nextAll;
        j := j + 1;
      }
      forall i | i in all
        ensures 0 <= i < |refs| && !(refs[i].page <= a < refs[i].page + PAGE_SIZE)
      {
        var k :| 0 <= k < |all| && all[k] == i;
      }
    }

    /** subpage_kfree of any address but that of a free block, which the code does not notice.  res is
        0 for a live block, -1 for an address on none of the pages here, and PANIC for one that is
        not the start of a block.  freed is the page given back, 0 if none: it is given back exactly
        when it has no live block left. */
    method SubpageKfree(ptr: int) returns (res: int, freed: int)
      requires Valid() && !FreeAddress(refs, fl, ptr)
      modifies this
      ensures Valid() && res == if old(Live(ptr)) then 0 else if old(OnSomePage(refs, fl, ptr)) then PANIC else -1
      ensures forall a :: Live(a) <==> old(Live(a)) && a != ptr
      ensures freed != 0 ==> freed <= ptr < freed + PAGE_SIZE && forall a :: Live(a) ==>
        !(freed <= a < freed + PAGE_SIZE)
      ensures res == 0 && freed == 0 ==> exists a :: Live(a) && SamePage(a, ptr)
      ensures res == 0 ==> exists i, b ::
        old(LiveAt(refs, fl, i, b, ptr)) && OnlyIn(old(mem), mem, ptr, ptr + Size(old(refs)[i].blktype)) &&
        Wiped(mem, ptr, ptr + 4, ptr + Size(old(refs)[i].blktype))
      ensures res != 0 ==> mem == old(mem) && freed == 0
      ensures PagesFrom(old(refs), old(fl), refs, fl, 0)
    {
      hide BitsAre, ListsOk, PagesOk, SomeLive, IsLive;
      var pr := PageOf(ptr);
      if pr == NONE {
        LiveOnPage(refs, mem, fl, ptr);
        return -1, 0;
      }
      StartsBlock(refs, mem, fl, pr, ptr);
      UsedType(refs, mem, fl, pr);
      if (ptr - refs[pr].page) % SIZES[refs[pr].blktype] != 0 {
        return PANIC, 0;
      }
      ghost var b := LiveBlock(refs, mem, fl, pr, ptr);
      var prpage, t := refs[pr].page, refs[pr].blktype;
      PutBlock(pr, ptr, b);
      PagesSame(old(refs), refs, old(fl), fl, pr);
      res, freed := 0, 0;
      hide PagesFrom;
      if refs[pr].nfree == Cap(t) {
        NothingLiveOn(refs, mem, fl, pr);
        ghost var refs1, fl1 := refs, fl;
        ReleasePage(pr);
        PagesTwice(old(refs), old(fl), refs1, fl1, refs, fl);
        freed := prpage;
      } else {
        NotEmpty(refs, fl, pr);
        ghost var a := StillLive(refs, mem, fl, pr, ptr);
        assert Live(a);
      }
    }

    /** The kernel writes a word inside a live block. */
    method Store(a: int, off: int, w: int, ghost i: int, ghost b: int)
      requires Valid() && LiveAt(refs, fl, i, b, a) && 0 <= off < Size(refs[i].blktype)
      modifies this`mem
      ensures Valid() && forall x :: Live(x) <==> old(Live(x))
    {
      hide BitsAre, ListsOk;
      ghost var mem0 := mem;
      mem := mem[a + off := w];
      StoreKeeps(refs, mem0, mem, fl, i, b, a);
    }

    /** kmalloc: pages for large requests (alloc_kpages gives npages), blocks for small ones. */
    method Kmalloc(sz: int, page: int) returns (p: int, npages: int)
      requires Valid() && 0 <= sz
      requires page == 0 || (0 < page && page % PAGE_SIZE == 0 && forall i :: i in fl ==>
        0 <= i < |refs| && refs[i].page != page)
      modifies this
      ensures Valid() && PagesFrom(old(refs), old(fl), refs, fl, page)
      ensures sz >= 2048 ==> p == page && npages * PAGE_SIZE >= sz > (npages - 1) * PAGE_SIZE
      ensures sz >= 2048 ==> refs == old(refs) && fl == old(fl) && mem == old(mem)
      ensures sz < 2048 ==> npages == 0 && forall a :: Live(a) <==> old(Live(a)) || (a == p && p != 0)
      ensures sz < 2048 && p == 0 ==>
        NoneFree(old(refs), old(fl), sz) && (page == 0 || forall i :: 0 <= i < NPAGEREFS ==> i in fl)
      ensures sz < 2048 && p != 0 ==> !old(Live(p)) && exists i, b ::
        LiveAt(refs, fl, i, b, p) && FitsType(sz, refs[i].blktype)
    {
      hide Sound;
      if sz >= 2048 {
        return page, (sz + PAGE_SIZE - 1) / PAGE_SIZE;
      }
      p := SubpageKmalloc(sz, page);
      npages := 0;
    }

    /** kfree of any address but that of a free block.  A live block is freed; pages that kmalloc took
        whole go back; everything else but a null pointer is a panic.  freed is what goes back to
        free_kpages, 0 if nothing does. */
    method Kfree(ptr: int) returns (freed: int, panics: bool)
      requires Valid() && !FreeAddress(refs, fl, ptr)
      modifies this
      ensures Valid() && (forall a :: Live(a) <==> old(Live(a)) && (a != ptr || ptr == 0))
      ensures PagesFrom(old(refs), old(fl), refs, fl, 0)
      ensures panics <==> ptr != 0 && !old(Live(ptr)) && (old(OnSomePage(refs, fl, ptr)) || ptr % PAGE_SIZE != 0)
      ensures ptr == 0 || panics ==> freed == 0
      ensures ptr != 0 && !panics && !old(Live(ptr)) ==> freed == ptr
      ensures ptr != 0 && old(Live(ptr)) && freed != 0 ==> freed <= ptr < freed + PAGE_SIZE && forall a ::
        Live(a) ==> !(freed <= a < freed + PAGE_SIZE)
      ensures ptr != 0 && old(Live(ptr)) && freed == 0 ==> exists a :: Live(a) && SamePage(a, ptr)
    {
      hide Sound;
      panics := false;
      if ptr == 0 {
        return 0, false;
      }
      var res;
      res, freed := SubpageKfree(ptr);
      if res == PANIC || (res != 0 && ptr % PAGE_SIZE != 0) {
        return 0, true;
      }
      if res != 0 {
        freed := ptr;
      }
    }
  }

  lemma FreeNotLiveAt(refs: seq<PageRef>, mem: map<int, int>, fl: map<int, seq<int>>, i: int, j: int, a: int)
    requires PagesOk(refs, mem, fl) && FreeBlockAt(refs, fl, i, j, a)
    ensures !IsLive(refs, fl, a)
  {
    assert PageOk(mem, refs[i], fl[i]) && FreeAt(mem, refs[i], fl[i], j);
    OnPage(fl[i][j], refs[i].blktype);
    if IsLive(refs, fl, a) {
      var b := LiveBlock(refs, mem, fl, i, a);
      if b != fl[i][j] {
        BlocksApart(b, fl[i][j], refs[i].blktype);
      }
      assert false;
    }
  }

  lemma LiveNotFree(refs: seq<PageRef>, mem: map<int, int>, fl: map<int, seq<int>>, a: int)
    requires PagesOk(refs, mem, fl) && (IsLive(refs, fl, a) || !OnSomePage(refs, fl, a))
    ensures !FreeAddress(refs, fl, a)
  {
    forall i, j | FreeBlockAt(refs, fl, i, j, a)
      ensures false
    {
      assert PageOk(mem, refs[i], fl[i]) && FreeAt(mem, refs[i], fl[i], j);
      OnPage(fl[i][j], refs[i].blktype);
      assert OnSomePage(refs, fl, a);
      FreeNotLiveAt(refs, mem, fl, i, j, a);
    }
  }
}
