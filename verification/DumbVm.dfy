/** The simple virtual memory of kern/arch/mips/mips/dumbvm.c over ram_stealmem of
    kern/arch/mips/mips/ram.c.  Virtual and physical addresses are counted in pages. */
module DumbVm {
  import opened Basics

  const STACKPAGES := 12
  const USERSTACK := 0x80000          // 0x80000000 bytes
  const STACKBASE := 0x7fff4          // USERSTACK - STACKPAGES
  const NUM_TLB := 64
  const PAGES := 0x10_0000            // pages in 2^32 bytes

  /** struct addrspace */
  datatype Space = Space(vbase1: int, npages1: int, pbase1: int, vbase2: int, npages2: int, pbase2: int,
    stackpbase: int)

  datatype Entry = Entry(valid: bool, page: int, frame: int)

  /** The three regions of an address space: where they start, how long they are, and their frames. */
  function Vbase(a: Space, k: int): int {
    if k == 0 then a.vbase1 else if k == 1 then a.vbase2 else STACKBASE
  }

  function Len(a: Space, k: int): int {
    if k == 0 then a.npages1 else if k == 1 then a.npages2 else STACKPAGES
  }

  function Pbase(a: Space, k: int): int {
    if k == 0 then a.pbase1 else if k == 1 then a.pbase2 else a.stackpbase
  }

  /** Page p is in region k, as vm_fault sees it: the end of the region is a 32-bit address. */
  predicate In(a: Space, k: int, p: int) {
    Vbase(a, k) <= p < (Vbase(a, k) + Len(a, k)) % PAGES
  }

  /** Where regions can be, and how long. */
  predicate Shaped(a: Space) {
    0 <= a.vbase1 < PAGES && 0 <= a.npages1 < PAGES && 0 <= a.vbase2 < PAGES && 0 <= a.npages2 < PAGES
  }

  /** A region that is not empty has all its pages exactly if it ends below 2^32; else it has none. */
  lemma WholeRegion(a: Space, k: int)
    requires Shaped(a) && 0 <= k < 3 && Len(a, k) > 0
    ensures (forall p :: Vbase(a, k) <= p < Vbase(a, k) + Len(a, k) ==> In(a, k, p)) <==>
      Vbase(a, k) + Len(a, k) < PAGES
    ensures Vbase(a, k) + Len(a, k) >= PAGES ==> forall p :: !In(a, k, p)
  {
    if Vbase(a, k) + Len(a, k) >= PAGES {
      assert !In(a, k, Vbase(a, k));
    }
  }

  lemma InRegion(a: Space, k: int, p: int)
    requires Shaped(a) && In(a, k, p)
    ensures 0 <= p - Vbase(a, k) < Len(a, k)
  {
  }

  /** The region that page p is in; 3 if none. */
  function RegionOf(a: Space, p: int): int {
    if In(a, 0, p) then 0 else if In(a, 1, p) then 1 else if In(a, 2, p) then 2 else 3
  }

  function Translate(a: Space, p: int): Option<int> {
    var k := RegionOf(a, p);
    if k == 3 then None else Some(p - Vbase(a, k) + Pbase(a, k))
  }

  /** The first of the regions a page is in decides; without one it is not mapped. */
  lemma FirstRegion(a: Space, p: int)
    ensures var k := RegionOf(a, p);
            && 0 <= k <= 3 && (k < 3 ==> In(a, k, p)) && (forall j :: 0 <= j < k && j < 3 ==> !In(a, j, p))
            && (Translate(a, p) == None <==> forall j :: 0 <= j < 3 ==> !In(a, j, p))
  {
    assert RegionOf(a, p) == 3 ==> !In(a, 0, p) && !In(a, 1, p) && !In(a, 2, p);
    if Translate(a, p) == None {
      assert RegionOf(a, p) == 3;
    } else {
      assert In(a, RegionOf(a, p), p);
    }
  }

  /** No page is in two regions. */
  ghost predicate Apart(a: Space) {
    forall j, k, p :: 0 <= j < k < 3 ==> !(In(a, j, p) && In(a, k, p))
  }

  /** Page i of region k has frame i of the region. */
  lemma PageOfRegion(a: Space, k: int, i: int)
    requires Shaped(a) && Apart(a) && 0 <= k < 3 && 0 <= i < Len(a, k) && Vbase(a, k) + Len(a, k) < PAGES
    ensures Translate(a, Vbase(a, k) + i) == Some(Pbase(a, k) + i)
  {
    var p := Vbase(a, k) + i;
    WholeRegion(a, k);
    assert In(a, k, p);
    FirstRegion(a, p);
    assert RegionOf(a, p) == k;
  }

  /** What vm_fault asserts of an address space. */
  predicate Ready(a: Space) {
    a.vbase1 != 0 && a.pbase1 != 0 && a.npages1 != 0 && a.vbase2 != 0 && a.pbase2 != 0 && a.npages2 != 0 &&
      a.stackpbase != 0
  }

  predicate Loaded(a: Space) {
    a.pbase1 != 0 && a.pbase2 != 0 && a.stackpbase != 0
  }

  /** Who has a frame: page i of region k of address space s. */
  datatype User = User(s: int, k: int, i: int)

  ghost predicate OwnsAt(user: map<int, User>, s: int, a: Space, k: int, i: int) {
    Pbase(a, k) + i in user && user[Pbase(a, k) + i] == User(s, k, i)
  }

  /** The frames of a loaded address space are its own. */
  ghost predicate Owns(user: map<int, User>, s: int, a: Space) {
    Loaded(a) ==> forall k, i :: 0 <= k < 3 && 0 <= i < Len(a, k) ==> OwnsAt(user, s, a, k, i)
  }

  /** Valid entries are the translations of a, and no page has two. */
  ghost predicate TlbOk(tlb: seq<Entry>, a: Space) {
    && (forall i :: 0 <= i < |tlb| && tlb[i].valid ==> Translate(a, tlb[i].page) == Some(tlb[i].frame))
    && (forall i, j :: 0 <= i < j < |tlb| && tlb[i].valid && tlb[j].valid ==> tlb[i].page != tlb[j].page)
  }

  // ---- ram_stealmem ----

  /** firstpaddr after a successful request for n pages, in 32-bit arithmetic. */
  function Bump(first: int, n: int): int {
    (first + n % PAGES) % PAGES
  }

  /** A request for n pages that wraps around and is granted. */
  predicate Wraps(first: int, last: int, n: int) {
    first + n >= PAGES && Bump(first, n) <= last
  }

  /** One of the three requests of as_prepare_load, after those before it were met, wraps around. */
  predicate LoadWraps(first: int, last: int, n1: int, n2: int) {
    || Wraps(first, last, n1)
    || (first + n1 <= last && Wraps(first + n1, last, n2))
    || (first + n1 + n2 <= last && Wraps(first + n1 + n2, last, STACKPAGES))
  }

  /** The memory handed out is new, and below the end of memory, exactly when the sum does not wrap
      around. */
  lemma StealFresh(first: int, last: int, n: int)
    requires 0 < first <= last < PAGES && 0 <= n && Bump(first, n) <= last
    ensures first <= Bump(first, n) && Bump(first, n) == first + n <==> first + n < PAGES
  {
  }

  /** A request for all but one of the 2^20 pages succeeds, and the next one gets the same frames. */
  lemma StealWraps(first: int, last: int)
    requires 2 <= first <= last < PAGES
    ensures Bump(first, PAGES - 1) <= last && Bump(first, PAGES - 1) == first - 1
  {
  }

  /** Pages vbase to vbase + n are the fewest that hold bytes vaddr to vaddr + sz. */
  predicate Covers(vbase: int, n: int, vaddr: int, sz: int) {
    && 4096 * vbase <= vaddr < 4096 * (vbase + 1)
    && vaddr + sz <= 4096 * (vbase + n) < vaddr + sz + 4096 && 0 <= n
  }

  /** The pages that as_define_region gives to sz bytes at vaddr, in 32-bit arithmetic. */
  function PagesFor(vaddr: int, sz: int): int {
    ((sz + vaddr % 4096) % TWO32 + 4095) % TWO32 / 4096
  }

  lemma RegionSize(vaddr: int, sz: int)
    requires 0 <= vaddr < TWO32 && 0 <= sz < TWO32
    ensures 0 <= vaddr / 4096 < PAGES && 0 <= PagesFor(vaddr, sz) < PAGES
    ensures Covers(vaddr / 4096, PagesFor(vaddr, sz), vaddr, sz) <==> sz + vaddr % 4096 + 4095 < TWO32
  {
  }

  /** A size just below 2^32, such as 0xfffff001, gives a region of no pages. */
  lemma RegionVanishes(vaddr: int, sz: int)
    requires 0 <= vaddr < TWO32 && vaddr % 4096 == 0 && TWO32 - 4096 < sz < TWO32
    ensures PagesFor(vaddr, sz) == 0
  {
  }

  /** The frames of a lie below f0. */
  ghost predicate OldBelow(a: Space, f0: int) {
    && (a.npages1 > 0 ==> 0 < a.pbase1 && a.pbase1 + a.npages1 <= f0)
    && (a.npages2 > 0 ==> 0 < a.pbase2 && a.pbase2 + a.npages2 <= f0)
    && 0 < a.stackpbase && a.stackpbase + STACKPAGES <= f0
  }

  /** The frames of b lie between f0 and first, region after region. */
  ghost predicate NewAbove(b: Space, f0: int, first: int) {
    && f0 <= b.pbase1 && b.pbase1 + b.npages1 <= b.pbase2 && b.pbase2 + b.npages2 <= b.stackpbase
    && b.stackpbase + STACKPAGES <= first
  }

  ghost predicate SamePage(a: Space, b: Space, mem: seq<int>, p: int) {
    match Translate(a, p)
    case None => Translate(b, p) == None
    case Some(f) =>
      && var g := Translate(b, p);
      g.Some? && g.value != f && 0 <= f < |mem| && 0 <= g.value < |mem| && mem[g.value] == mem[f]
  }

  /** Every page mapped by a is mapped by b, to another frame with the same contents, and no others. */
  ghost predicate SameImage(a: Space, b: Space, mem: seq<int>) {
    forall p :: SamePage(a, b, mem, p)
  }

  /** m' is m with n pages copied from src to dst. */
  ghost predicate Blit(m: seq<int>, m': seq<int>, dst: int, src: int, n: int) {
    && |m'| == |m| && 0 <= n && (n > 0 ==> 0 <= src && src + n <= dst) && 0 <= dst && dst + n <= |m|
    && forall f {:trigger m'[f]} :: 0 <= f < |m| ==> m'[f] == if dst <= f < dst + n then m[src + f - dst] else m[f]
  }

  lemma BlitBelow(m: seq<int>, m': seq<int>, dst: int, src: int, n: int, f0: int)
    requires Blit(m, m', dst, src, n) && 0 <= f0 <= dst
    ensures |m'| == |m| && f0 <= |m| && m'[..f0] == m[..f0]
  {
  }

  lemma CopiedPage(a: Space, b: Space, m0: seq<int>, m1: seq<int>, m2: seq<int>, m3: seq<int>, f0: int, k: int, i: int)
    requires b == a.(pbase1 := b.pbase1, pbase2 := b.pbase2, stackpbase := b.stackpbase) && 0 <= k < 3 &&
      0 <= i < Len(a, k)
    requires OldBelow(a, f0) && NewAbove(b, f0, |m0|) && 0 <= a.npages1 && 0 <= a.npages2
    requires Blit(m0, m1, b.pbase1, a.pbase1, a.npages1) && Blit(m1, m2, b.pbase2, a.pbase2, a.npages2)
    requires Blit(m2, m3, b.stackpbase, a.stackpbase, STACKPAGES)
    ensures 0 <= Pbase(a, k) + i < |m3| && 0 <= Pbase(b, k) + i < |m3| && m3[Pbase(b, k) + i] == m3[Pbase(a, k) + i]
  {
    var f, g := Pbase(a, k) + i, Pbase(b, k) + i;
    assert m3[f] == m2[f] && m2[f] == m1[f] && m1[f] == m0[f];
    if k == 0 {
      assert m3[g] == m2[g] && m2[g] == m1[g] && m1[g] == m0[f];
    } else if k == 1 {
      assert m3[g] == m2[g] && m2[g] == m1[f];
    } else {
      assert m3[g] == m2[f];
    }
  }

  lemma SameRegion(a: Space, b: Space, p: int)
    requires b == a.(pbase1 := b.pbase1, pbase2 := b.pbase2, stackpbase := b.stackpbase)
    ensures RegionOf(b, p) == RegionOf(a, p)
  {
    assert forall k :: In(b, k, p) == In(a, k, p);
  }

  lemma CopiedAt(a: Space, b: Space, m0: seq<int>, m1: seq<int>, m2: seq<int>, m3: seq<int>, f0: int, p: int)
    requires b == a.(pbase1 := b.pbase1, pbase2 := b.pbase2, stackpbase := b.stackpbase) && Shaped(a)
    requires OldBelow(a, f0) && NewAbove(b, f0, |m0|)
    requires Blit(m0, m1, b.pbase1, a.pbase1, a.npages1) && Blit(m1, m2, b.pbase2, a.pbase2, a.npages2)
    requires Blit(m2, m3, b.stackpbase, a.stackpbase, STACKPAGES)
    ensures SamePage(a, b, m3, p)
  {
    hide Blit;
    var k := RegionOf(a, p);
    SameRegion(a, b, p);
    if k != 3 {
      InRegion(a, k, p);
      hide In, RegionOf;
      CopiedPage(a, b, m0, m1, m2, m3, f0, k, p - Vbase(a, k));
    }
  }

  lemma Copied(a: Space, b: Space, m0: seq<int>, m1: seq<int>, m2: seq<int>, m3: seq<int>, f0: int)
    requires b == a.(pbase1 := b.pbase1, pbase2 := b.pbase2, stackpbase := b.stackpbase) && Shaped(a)
    requires OldBelow(a, f0) && NewAbove(b, f0, |m0|)
    requires Blit(m0, m1, b.pbase1, a.pbase1, a.npages1) && Blit(m1, m2, b.pbase2, a.pbase2, a.npages2)
    requires Blit(m2, m3, b.stackpbase, a.stackpbase, STACKPAGES)
    ensures m3[..f0] == m0[..f0] && SameImage(a, b, m3)
  {
    hide Blit, SamePage;
    BlitBelow(m0, m1, b.pbase1, a.pbase1, a.npages1, f0);
    BlitBelow(m1, m2, b.pbase2, a.pbase2, a.npages2, f0);
    BlitBelow(m2, m3, b.stackpbase, a.stackpbase, STACKPAGES, f0);
    forall p
      ensures SamePage(a, b, m3, p)
    {
      CopiedAt(a, b, m0, m1, m2, m3, f0, p);
    }
  }

  /** n frames from base on are given to region k of s. */
  ghost function Give(user: map<int, User>, s: int, k: int, base: int, n: nat): (r: map<int, User>)
    ensures forall f :: f in r <==> f in user || base <= f < base + n
    ensures forall f :: f in r ==> r[f] == if base <= f < base + n then User(s, k, f - base) else user[f]
  {
    if n == 0 then user else Give(user, s, k, base, n - 1)[base + n - 1 := User(s, k, n - 1)]
  }

  /** The frames of b are given to s. */
  ghost function Frames(user: map<int, User>, s: int, b: Space): map<int, User>
    requires 0 <= b.npages1 && 0 <= b.npages2
  {
    Give(Give(Give(user, s, 0, b.pbase1, b.npages1), s, 1, b.pbase2, b.npages2), s, 2, b.stackpbase, STACKPAGES)
  }

  lemma NewFrames(user: map<int, User>, s: int, b: Space)
    requires 0 <= b.npages1 && 0 <= b.npages2 && b.pbase1 + b.npages1 <= b.pbase2 &&
      b.pbase2 + b.npages2 <= b.stackpbase
    ensures Owns(Frames(user, s, b), s, b)
  {
    forall k, i | 0 <= k < 3 && 0 <= i < Len(b, k)
      ensures OwnsAt(Frames(user, s, b), s, b, k, i)
    {
    }
  }

  lemma OthersOwn(user: map<int, User>, first: int, spaces: map<int, Space>, s: int, b: Space)
    requires 0 <= b.npages1 && 0 <= b.npages2 && first <= b.pbase1 <= b.pbase2 <= b.stackpbase &&
      (forall f :: f in user ==> f < first)
    requires forall t :: t in spaces ==> Owns(user, t, spaces[t])
    ensures forall t :: t in spaces ==> Owns(Frames(user, s, b), t, spaces[t])
    ensures b.pbase1 + b.npages1 <= b.pbase2 && b.pbase2 + b.npages2 <= b.stackpbase ==>
      forall f :: f in Frames(user, s, b) ==> f in user || first <= f < b.stackpbase + STACKPAGES
  {
    var user' := Frames(user, s, b);
    forall t | t in spaces && Loaded(spaces[t])
      ensures Owns(user', t, spaces[t])
    {
      forall k, i | 0 <= k < 3 && 0 <= i < Len(spaces[t], k)
        ensures OwnsAt(user', t, spaces[t], k, i)
      {
        assert OwnsAt(user, t, spaces[t], k, i);
      }
    }
  }

  lemma NotLoaded(user: map<int, User>, s: int, a: Space)
    ensures !Loaded(a) ==> Owns(user, s, a)
  {
  }

  lemma OldFrames(user: map<int, User>, first: int, s: int, a: Space)
    requires Owns(user, s, a) && Loaded(a) && 0 <= a.npages1 && 0 <= a.npages2 && forall f :: f in user ==>
      0 < f < first
    ensures OldBelow(a, first)
  {
    assert a.npages1 > 0 ==> OwnsAt(user, s, a, 0, 0) && OwnsAt(user, s, a, 0, Len(a, 0) - 1);
    assert a.npages2 > 0 ==> OwnsAt(user, s, a, 1, 0) && OwnsAt(user, s, a, 1, Len(a, 1) - 1);
    assert OwnsAt(user, s, a, 2, 0) && OwnsAt(user, s, a, 2, Len(a, 2) - 1);
  }

  ghost predicate NoEntries(tlb: seq<Entry>) {
    forall i :: 0 <= i < |tlb| ==> !tlb[i].valid
  }

  lemma Bounds(v: Vm, s: int)
    requires v.Valid() && s in v.spaces
    ensures 0 < v.first <= v.last < PAGES && Shaped(v.spaces[s]) && forall f ::
      f in v.user ==> f < v.first
  {
    hide Owns, TlbOk;
  }

  class Vm {
    var first: int
    var last: int
    var mem: seq<int>                 // contents of each frame
    var tlb: seq<Entry>
    var spaces: map<int, Space>
    var cur: Option<int>              // the running thread's address space

    ghost var user: map<int, User>

    ghost predicate Valid()
      reads this
    {
      && 0 < first <= last < PAGES && |tlb| == NUM_TLB && |mem| == last
      && (forall f :: f in user ==> 0 < f < first)
      && (forall s :: s in spaces ==> Owns(user, s, spaces[s]) && Shaped(spaces[s]))
      && (cur.Some? ==>
        cur.value in spaces && TlbOk(tlb, spaces[cur.value]) && (!Ready(spaces[cur.value]) ==> NoEntries(tlb)))
    }

    /** ram_bootstrap: pages from first to last are free. */
    constructor (first: int, last: int, mem: seq<int>)
      requires 0 < first <= last < PAGES && |mem| == last
      ensures Valid() && spaces == map[] && cur == None
    {
      this.first, this.last, this.mem := first, last, mem;
      tlb, spaces, cur := seq(NUM_TLB, _ => Entry(false, 0, 0)), map[], None;
      user := map[];
    }

    // ---- the TLB ----

    /** as_activate: every entry becomes invalid; s is the address space of the thread that runs now. */
    method Activate(s: int)
      requires Valid() && s in spaces
      modifies this`tlb, this`cur
      ensures Valid() && cur == Some(s) && NoEntries(tlb)
    {
      for i := 0 to NUM_TLB
        invariant |tlb| == NUM_TLB && forall j :: 0 <= j < i ==> !tlb[j].valid
      {
        tlb := tlb[i := Entry(false, 0, 0)];
      }
      cur := Some(s);
    }

    /** A switch to a thread without an address space leaves the TLB alone. */
    method Deactivate()
      requires Valid()
      modifies this`cur
      ensures Valid() && cur == None
    {
      cur := None;
    }

    /** vm_fault on page p, after the TLB missed; the ends of regions are 32-bit addresses. */
    method Fault(p: int) returns (ok: bool)
      requires Valid() && (cur.Some? ==> Ready(spaces[cur.value]))
      requires forall i :: 0 <= i < |tlb| && tlb[i].valid ==> tlb[i].page != p
      modifies this`tlb
      ensures Valid() && |tlb| == |old(tlb)|
      ensures ok <==> cur.Some? && Translate(spaces[cur.value], p).Some? && exists i ::
        0 <= i < |old(tlb)| && !old(tlb)[i].valid
      ensures ok ==> exists i ::
        0 <= i < |tlb| && !old(tlb)[i].valid && tlb[i] == Entry(true, p, Translate(spaces[cur.value], p).value) &&
        tlb == old(tlb)[i := tlb[i]]
      ensures !ok ==> tlb == old(tlb)
    {
      if cur.None? {
        return false;
      }
      var a := spaces[cur.value];
      var frame;
      var vtop1, vtop2 := (a.vbase1 + a.npages1) % PAGES, (a.vbase2 + a.npages2) % PAGES;
      if a.vbase1 <= p < vtop1 {
        frame := p - a.vbase1 + a.pbase1;
      } else if a.vbase2 <= p < vtop2 {
        frame := p - a.vbase2 + a.pbase2;
      } else if STACKBASE <= p < USERSTACK {
        frame := p - STACKBASE + a.stackpbase;
      } else {
        return false;
      }
      assert Translate(a, p) == Some(frame);
      hide Owns, Translate;
      for i := 0 to NUM_TLB
        invariant tlb == old(tlb) && forall j :: 0 <= j < i ==> tlb[j].valid
      {
        if !tlb[i].valid {
          tlb := tlb[i := Entry(true, p, frame)];
          assert tlb[i] == Entry(true, p, frame) && tlb == old(tlb)[i := tlb[i]];
          return true;
        }
      }
      ok := false;
    }

    // ---- address spaces ----

    /** as_create */
    method Create(s: int)
      requires Valid() && s !in spaces
      modifies this`spaces
      ensures Valid() && spaces == old(spaces)[s := Space(0, 0, 0, 0, 0, 0, 0)]
    {
      hide Translate;
      spaces := spaces[s := Space(0, 0, 0, 0, 0, 0, 0)];
    }

    /** as_define_region: the pages that hold bytes vaddr to vaddr + sz, exactly if the size does not
        wrap around when it is rounded up.  There are two regions. */
    method Define(s: int, vaddr: int, sz: int) returns (ok: bool)
      requires Valid() && s in spaces && !Loaded(spaces[s]) && 0 <= vaddr < TWO32 && 0 <= sz < TWO32
      modifies this`spaces
      ensures Valid() && spaces.Keys == old(spaces).Keys &&
        ok == (old(spaces)[s].vbase1 == 0 || old(spaces)[s].vbase2 == 0)
      ensures !ok ==> spaces == old(spaces)
      ensures ok ==>
        var a, b, k := old(spaces)[s], spaces[s], if old(spaces)[s].vbase1 == 0 then 0 else 1;
        && spaces == old(spaces)[s := b]
        && b == (if k == 0 then a.(vbase1 := b.vbase1, npages1 := b.npages1)
          else a.(vbase2 := b.vbase2, npages2 := b.npages2))
        && Vbase(b, k) == vaddr / 4096 && Len(b, k) == PagesFor(vaddr, sz)
        && (Covers(Vbase(b, k), Len(b, k), vaddr, sz) <==> sz + vaddr % 4096 + 4095 < TWO32)
    {
      hide Translate;
      RegionSize(vaddr, sz);
      var size := (sz + vaddr % 4096) % TWO32;
      var page := vaddr / 4096;
      var npages := (size + 4095) % TWO32 / 4096;
      assert npages == PagesFor(vaddr, sz);
      var a := spaces[s];
      if a.vbase1 == 0 {
        spaces := spaces[s := a.(vbase1 := page, npages1 := npages)];
        return true;
      }
      if a.vbase2 == 0 {
        spaces := spaces[s := a.(vbase2 := page, npages2 := npages)];
        return true;
      }
      ok := false;
    }

    /** ram_stealmem.  wild means that the sum wrapped around and frames would be handed out again; the
        model stops there. */
    method Steal(n: int) returns (p: int, wild: bool)
      requires Valid() && 0 <= n
      modifies this`first
      ensures Valid() && (wild <==> Wraps(old(first), last, n))
      ensures p == if wild || old(first) + n > last then 0 else old(first)
      ensures first == if p == 0 then old(first) else old(first) + n
    {
      hide Owns, TlbOk;
      if Bump(first, n) > last {
        return 0, false;
      }
      StealFresh(first, last, n);
      if Bump(first, n) != first + n {
        return 0, true;
      }
      p, wild := first, false;
      first := Bump(first, n);
    }

    /** The frames or the regions of an address space that is not loaded are set. */
    method PutSpace(s: int, b: Space)
      requires Valid() && s in spaces && !Loaded(spaces[s]) && Owns(user, s, b) && Shaped(b)
      modifies this`spaces
      ensures Valid() && spaces == old(spaces)[s := b] && spaces.Keys == old(spaces.Keys)
    {
      hide Translate, Owns;
      spaces := spaces[s := b];
    }

    /** The new frames of b, just stolen, become those of address space s. */
    method Adopt(s: int, b: Space, ghost first0: int)
      requires 0 < first0 <= b.pbase1 && b.pbase1 + b.npages1 <= b.pbase2 && b.pbase2 + b.npages2 <= b.stackpbase &&
        b.stackpbase + STACKPAGES <= first
      requires Valid() && (forall f :: f in user ==> f < first0) && 0 <= b.npages1 && 0 <= b.npages2
      modifies this`user
      ensures Valid() && Owns(user, s, b)
    {
      hide Translate, Owns, Frames, TlbOk;
      ghost var user0 := user;
      user := Frames(user, s, b);
      NewFrames(user0, s, b);
      OthersOwn(user0, first0, spaces, s, b);
    }

    /** as_prepare_load: new frames for all three regions, or failure (which leaves the space not
        loaded). */
    method PrepareLoad(s: int) returns (ok: bool, wild: bool)
      requires Valid() && s in spaces && spaces[s].pbase1 == spaces[s].pbase2 == spaces[s].stackpbase == 0
      modifies this`first, this`spaces, this`user
      ensures Valid() && first >= old(first) && spaces.Keys == old(spaces).Keys
      ensures var a, b := old(spaces)[s], spaces[s];
              && spaces == old(spaces)[s := b]
              && b == a.(pbase1 := b.pbase1, pbase2 := b.pbase2, stackpbase := b.stackpbase)
              && ok == Loaded(b) == (old(first) + a.npages1 + a.npages2 + STACKPAGES <= last)
              && (ok ==> NewAbove(b, old(first), first))
              && (wild <==> LoadWraps(old(first), last, a.npages1, a.npages2))
    {
      hide Translate, Owns, TlbOk, Valid, Bump;
      Bounds(this, s);
      ghost var first0 := first;
      var a := spaces[s];
      var p1, p2, p3;
      p1, wild := Steal(a.npages1);
      NotLoaded(user, s, a.(pbase1 := p1));
      PutSpace(s, a.(pbase1 := p1));
      if p1 == 0 {
        return false, wild;
      }
      p2, wild := Steal(a.npages2);
      NotLoaded(user, s, a.(pbase1 := p1, pbase2 := p2));
      PutSpace(s, a.(pbase1 := p1, pbase2 := p2));
      if p2 == 0 {
        return false, wild;
      }
      p3, wild := Steal(STACKPAGES);
      var b := a.(pbase1 := p1, pbase2 := p2, stackpbase := p3);
      if p3 == 0 {
        return false, wild;
      }
      Adopt(s, b, first0);
      PutSpace(s, b);
      ok := true;
    }

    /** memmove of n pages, from frames below those written. */
    method CopyPages(dst: int, src: int, n: int)
      requires 0 <= n && (n > 0 ==> 0 <= src && src + n <= dst) && 0 <= dst && dst + n <= |mem|
      modifies this`mem
      ensures Blit(old(mem), mem, dst, src, n)
    {
      for i := 0 to n
        invariant Blit(old(mem), mem, dst, src, i)
      {
        mem := mem[dst + i := mem[src + i]];
      }
    }

    /** as_copy of a loaded address space s to the new one t. */
    method Copy(s: int, t: int) returns (ok: bool, wild: bool)
      requires Valid() && s in spaces && t !in spaces && Loaded(spaces[s])
      modifies this`first, this`spaces, this`user, this`mem
      ensures Valid() && (ok ==> t in spaces && spaces == old(spaces)[t := spaces[t]]) &&
        (!ok ==> spaces == old(spaces))
      ensures |mem| == |old(mem)| && mem[..old(first)] == old(mem)[..old(first)]
      ensures ok == (old(first) + old(spaces)[s].npages1 + old(spaces)[s].npages2 + STACKPAGES <= last)
      ensures wild <==> LoadWraps(old(first), last, old(spaces)[s].npages1, old(spaces)[s].npages2)
      ensures ok ==> SameImage(spaces[s], spaces[t], mem)
    {
      hide Translate, LoadWraps;
      ghost var spaces0, first0 := spaces, first;
      var a := spaces[s];
      OldFrames(user, first, s, a);
      Create(t);
      hide Owns, TlbOk;
      NotLoaded(user, t, Space(a.vbase1, a.npages1, 0, a.vbase2, a.npages2, 0, 0));
      PutSpace(t, Space(a.vbase1, a.npages1, 0, a.vbase2, a.npages2, 0, 0));
      ok, wild := PrepareLoad(t);
      if !ok {
        spaces := spaces - {t};
        assert spaces == spaces0;
        return;
      }
      CopyAll(a, spaces[t], first0);
    }

    /** The three memmoves of as_copy. */
    method CopyAll(a: Space, b: Space, ghost f0: int)
      requires b == a.(pbase1 := b.pbase1, pbase2 := b.pbase2, stackpbase := b.stackpbase) && Shaped(a)
      requires OldBelow(a, f0) && NewAbove(b, f0, first) && first <= |mem|
      modifies this`mem
      ensures |mem| == old(|mem|) && mem[..f0] == old(mem)[..f0] && SameImage(a, b, mem)
    {
      ghost var m0 := mem;
      CopyPages(b.pbase1, a.pbase1, a.npages1);
      ghost var m1 := mem;
      CopyPages(b.pbase2, a.pbase2, a.npages2);
      ghost var m2 := mem;
      CopyPages(b.stackpbase, a.stackpbase, STACKPAGES);
      Copied(a, b, m0, m1, m2, mem, f0);
    }

    /** as_destroy of an address space that no thread runs in. */
    method Destroy(s: int)
      requires Valid() && s in spaces && cur != Some(s)
      modifies this`spaces
      ensures Valid() && spaces == old(spaces) - {s}
    {
      hide Translate;
      spaces := spaces - {s};
    }
  }

  /** No two pages, of the same or of different address spaces, have a frame in common. */
  lemma Isolated(v: Vm, s: int, t: int, p: int, q: int)
    requires v.Valid() && s in v.spaces && t in v.spaces && (s != t || p != q) && Loaded(v.spaces[s]) &&
      Loaded(v.spaces[t])
    requires Translate(v.spaces[s], p).Some? && Translate(v.spaces[t], q).Some?
    ensures Translate(v.spaces[s], p) != Translate(v.spaces[t], q)
  {
    var a, b := v.spaces[s], v.spaces[t];
    var k, l := RegionOf(a, p), RegionOf(b, q);
    InRegion(a, k, p);
    InRegion(b, l, q);
    assert OwnsAt(v.user, s, a, k, p - Vbase(a, k)) && OwnsAt(v.user, t, b, l, q - Vbase(b, l));
  }

  ghost predicate FreeSlot(tlb: seq<Entry>) {
    exists i :: 0 <= i < |tlb| && !tlb[i].valid
  }

  /** No valid entry is for page p. */
  predicate Misses(tlb: seq<Entry>, p: int) {
    forall i :: 0 <= i < |tlb| && tlb[i].valid ==> tlb[i].page != p
  }

  /** A touch of page i of region k, which is not in the TLB, gets the region's frame i into the TLB,
      exactly if a slot is free; the other entries stay. */
  method TouchRegion(v: Vm, k: int, i: int) returns (ok: bool)
    requires v.Valid() && v.cur.Some? && v.cur.value in v.spaces && Ready(v.spaces[v.cur.value])
    requires var a := v.spaces[v.cur.value];
      Apart(a) && 0 <= k < 3 && 0 <= i < Len(a, k) && Vbase(a, k) + Len(a, k) < PAGES && Misses(v.tlb, Vbase(a, k) + i)
    modifies v
    ensures v.Valid() && v.cur == old(v.cur) && v.spaces == old(v.spaces) && (ok <==> old(FreeSlot(v.tlb)))
    ensures var a := v.spaces[v.cur.value];
      ok ==> Entry(true, Vbase(a, k) + i, Pbase(a, k) + i) in v.tlb
    ensures |v.tlb| == |old(v.tlb)| && forall j :: 0 <= j < |v.tlb| && old(v.tlb)[j].valid ==> v.tlb[j] == old(v.tlb)[j]
  {
    hide Vm.Valid, Owns, TlbOk, Apart, Translate;
    var a := v.spaces[v.cur.value];
    Bounds(v, v.cur.value);
    PageOfRegion(a, k, i);
    ok := v.Fault(Vbase(a, k) + i);
  }

  /** A region of the one page at the top of the address space gets its frame, and every touch of
      the page fails. */
  method TopPage(v: Vm, s: int) returns (ok: bool)
    requires v.Valid() && s !in v.spaces && v.first + 2 + STACKPAGES <= v.last
    modifies v
    ensures v.Valid() && s in v.spaces && Ready(v.spaces[s]) && v.cur == Some(s) && NoEntries(v.tlb)
    ensures v.spaces[s].vbase2 == PAGES - 1 && v.spaces[s].npages2 == 1 && !ok
  {
    hide Vm.Valid, Owns, TlbOk;
    v.Create(s);
    ok := v.Define(s, 0x40_0000, 4096);
    ok := v.Define(s, 0xffff_f000, 4096);
    var wild;
    ok, wild := v.PrepareLoad(s);
    v.Activate(s);
    Bounds(v, s);
    WholeRegion(v.spaces[s], 1);
    ok := v.Fault(PAGES - 1);
  }

  // ---- runs ----

  datatype Call =
    | Switch(s: int) | Leave | Touch(p: int)
    | New(s: int) | Region(s: int, vaddr: int, sz: int) | Load(s: int) | Fork(s: int, t: int) | End(s: int)

  /** What the callers see to: address spaces are made before they are used, regions are defined
      before they are loaded, an address space is loaded once and not destroyed while in use, and a
      page is touched only in one with two regions. */
  predicate Proper(v: Vm, c: Call)
    reads v
  {
    match c
    case Switch(s) => s in v.spaces
    case Leave => true
    case Touch(p) => v.cur.Some? ==> v.cur.value in v.spaces && Ready(v.spaces[v.cur.value])
    case New(s) => s !in v.spaces
    case Region(s, vaddr, sz) => s in v.spaces && !Loaded(v.spaces[s]) && 0 <= vaddr < TWO32 && 0 <= sz < TWO32
    case Load(s) => s in v.spaces && v.spaces[s].pbase1 == v.spaces[s].pbase2 == v.spaces[s].stackpbase == 0
    case Fork(s, t) => s in v.spaces && t !in v.spaces && Loaded(v.spaces[s])
    case End(s) => s in v.spaces && v.cur != Some(s)
  }

  method Step(v: Vm, c: Call) returns (wild: bool)
    requires v.Valid() && Proper(v, c)
    modifies v
    ensures v.Valid()
  {
    hide Vm.Valid, Translate;
    wild := false;
    var ok;
    match c {
      case Switch(s) => v.Activate(s);
      case Leave => v.Deactivate();
      case Touch(p) =>
        if Misses(v.tlb, p) {
          ok := v.Fault(p);
        }
      case New(s) => v.Create(s);
      case Region(s, vaddr, sz) => ok := v.Define(s, vaddr, sz);
      case Load(s) => ok, wild := v.PrepareLoad(s);
      case Fork(s, t) => ok, wild := v.Copy(s, t);
      case End(s) => v.Destroy(s);
    }
  }

  /** Every run of calls, those that are not proper passed over, keeps the TLB a cache of the current
      address space and the frames of all address spaces apart, up to a request for memory whose
      size wraps around. */
  method Run(v: Vm, calls: seq<Call>) returns (wild: bool)
    requires v.Valid()
    modifies v
    ensures v.Valid()
  {
    hide Vm.Valid;
    wild := false;
    for i := 0 to |calls|
      invariant v.Valid()
    {
      if wild {
        return;
      }
      if Proper(v, calls[i]) {
        wild := Step(v, calls[i]);
      }
    }
  }
}
