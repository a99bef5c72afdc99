/** The first-fit allocator of lib/libc/malloc.c.  The heap is a string of 8-byte units; offsets
    in block headers count units. */
module Malloc {
  import opened Basics

  const MBLOCKSIZE := 8
  const MMAGIC := 2

  /** Eight bytes, read as a struct mheader: its bit fields cover all 64 bits, so any contents can
      be read so. */
  datatype Unit = Unit(prev: int, pad: int, magic1: int, next: int, inuse: bool, magic2: int)

  /** 0xdeadbeef twice. */
  const DEADBEEF: Unit := Unit(0x1bd5b7dd, 1, 3, 0x1bd5b7dd, true, 3)

  predicate HeaderOk(u: Unit) {
    u.magic1 == MMAGIC && u.magic2 == MMAGIC
  }

  function Header(prev: int, next: int, inuse: bool): Unit {
    Unit(prev, 0, MMAGIC, next, inuse, MMAGIC)
  }

  // ---- the shape of the heap ----

  /** Block i runs from st[i] to st[i + 1]: a header with the lengths of this block and of the one
      below, and the data, if any. */
  ghost predicate BlockAt(m: seq<Unit>, st: seq<int>, i: int) {
    && 0 <= i < |st| - 1 && 0 <= st[i] < st[i + 1] <= |m|
    && var u := m[st[i]];
    && HeaderOk(u) && u.next == st[i + 1] - st[i]
    && u.prev == if i == 0 then 0 else st[i] - st[i - 1]
  }

  /** The blocks with boundaries st tile the heap. */
  ghost predicate Tiled(m: seq<Unit>, st: seq<int>) {
    && 1 <= |st| && st[0] == 0 && st[|st| - 1] == |m|
    && forall i :: 0 <= i < |st| - 1 ==> BlockAt(m, st, i)
  }

  ghost predicate InUse(m: seq<Unit>, st: seq<int>, i: int) {
    0 <= i < |st| && 0 <= st[i] < |m| && m[st[i]].inuse
  }

  /** Blocks i and i + 1 are not both free. */
  ghost predicate PairOk(m: seq<Unit>, st: seq<int>, i: int) {
    0 <= i < |st| - 2 ==> InUse(m, st, i) || InUse(m, st, i + 1)
  }

  /** No two neighbouring blocks are both free. */
  ghost predicate NoFreePair(m: seq<Unit>, st: seq<int>) {
    forall i :: PairOk(m, st, i)
  }

  lemma {:induction false} Apart(m: seq<Unit>, st: seq<int>, i: int, j: int)
    requires Tiled(m, st) && 0 <= i < j < |st|
    ensures 0 <= st[i] < st[j] <= |m|
    decreases j - i
  {
    assert BlockAt(m, st, i);
    if i + 1 < j {
      Apart(m, st, i + 1, j);
    }
  }

  /** Every unit is in exactly one block. */
  lemma {:induction false} Covered(m: seq<Unit>, st: seq<int>, u: int) returns (i: int)
    requires Tiled(m, st) && 0 <= u < |m|
    ensures 0 <= i < |st| - 1 && st[i] <= u < st[i + 1]
    ensures forall j :: 0 <= j < |st| - 1 && j != i ==> u < st[j] || st[j + 1] <= u
  {
    i := 0;
    while st[i + 1] <= u
      invariant 0 <= i < |st| - 1 && st[i] <= u
      decreases |st| - i
    {
      i := i + 1;
    }
    forall j | 0 <= j < |st| - 1 && j != i
      ensures u < st[j] || st[j + 1] <= u
    {
      if j < i && j + 1 < i {
        Apart(m, st, j + 1, i);
      } else if j > i && i + 1 < j {
        Apart(m, st, i + 1, j);
      }
    }
  }

  /** If every block is free there is one block, the whole heap. */
  lemma AllFree(m: seq<Unit>, st: seq<int>)
    requires Tiled(m, st) && NoFreePair(m, st) && m != []
    requires forall i :: 0 <= i < |st| - 1 ==> !InUse(m, st, i)
    ensures st == [0, |m|] && m[0].next == |m|
  {
    assert PairOk(m, st, 0);
    assert BlockAt(m, st, 0);
  }

  // ---- splitting and merging ----

  /** The heap after __malloc_split cut the block at k down to n units. */
  function Split(m: seq<Unit>, k: int, n: int): seq<Unit>
    requires 0 <= k < |m| && 1 <= n && n + 2 <= m[k].next <= |m| - k
  {
    var rest := m[k].next - n;
    var top := k + m[k].next;
    var s := m[k := m[k].(next := n)][k + n := Header(n, rest, false)];
    if top < |m| then s[top := s[top].(prev := rest)] else s
  }

  lemma SplitTiled(m: seq<Unit>, st: seq<int>, i: int, n: int)
    requires Tiled(m, st) && 0 <= i < |st| - 1 && 1 <= n && n + 2 <= st[i + 1] - st[i]
    ensures BlockAt(m, st, i) && m[st[i]].next == st[i + 1] - st[i]
    ensures Tiled(Split(m, st[i], n), st[..i + 1] + [st[i] + n] + st[i + 1..])
  {
    assert BlockAt(m, st, i);
    var s, t := Split(m, st[i], n), st[..i + 1] + [st[i] + n] + st[i + 1..];
    forall j | 0 <= j < |t| - 1
      ensures BlockAt(s, t, j)
    {
      var o := if j <= i then j else j - 1;
      assert BlockAt(m, st, o);
      if o < i {
        Apart(m, st, o, i);
      } else if i < o {
        Apart(m, st, i, o);
        if i + 1 < o {
          Apart(m, st, i + 1, o);
        }
      }
    }
  }

  /** The heap after __malloc_trymerge joined the free block at k to the next one. */
  function Merge(m: seq<Unit>, k: int): seq<Unit>
    requires 0 <= k < |m| && 0 < m[k].next < |m| - k && 0 < m[k + m[k].next].next <= |m| - k - m[k].next
  {
    var mid := k + m[k].next;
    var next := m[k].next + m[mid].next;
    var s := m[k := m[k].(next := next)];
    var t := if k + next < |m| then s[k + next := s[k + next].(prev := next)] else s;
    t[mid := DEADBEEF]
  }

  lemma MergeTiled(m: seq<Unit>, st: seq<int>, i: int)
    requires Tiled(m, st) && 0 <= i < |st| - 2
    ensures BlockAt(m, st, i) && BlockAt(m, st, i + 1)
    ensures Tiled(Merge(m, st[i]), st[..i + 1] + st[i + 2..])
  {
    assert BlockAt(m, st, i) && BlockAt(m, st, i + 1);
    var s, t := Merge(m, st[i]), st[..i + 1] + st[i + 2..];
    forall j | 0 <= j < |t| - 1
      ensures BlockAt(s, t, j)
    {
      var o := if j <= i then j else j + 1;
      assert BlockAt(m, st, o);
      if o < i {
        Apart(m, st, o, i);
      } else if i < o {
        Apart(m, st, i + 1, o);
        if i + 2 < o {
          Apart(m, st, i + 2, o);
        }
      }
    }
  }

  // ---- live blocks ----

  ghost function Data(m: seq<Unit>, k: int): seq<Unit> {
    if 0 <= k < |m| && 0 < m[k].next <= |m| - k then m[k + 1..k + m[k].next] else []
  }

  /** The blocks in use: for each header, the data behind it. */
  ghost function Live(m: seq<Unit>, st: seq<int>): map<int, seq<Unit>> {
    map k | k in st && 0 <= k < |m| && m[k].inuse :: Data(m, k)
  }

  lemma LiveAt(m: seq<Unit>, st: seq<int>, i: int)
    requires Tiled(m, st) && 0 <= i < |st| - 1
    ensures 0 <= st[i] < st[i + 1] <= |m|
    ensures st[i] in Live(m, st) <==> InUse(m, st, i)
    ensures Data(m, st[i]) == m[st[i] + 1..st[i + 1]]
  {
    assert BlockAt(m, st, i);
  }

  lemma IndexOf(m: seq<Unit>, st: seq<int>, k: int) returns (i: int)
    requires Tiled(m, st) && k in st && 0 <= k < |m|
    ensures 0 <= i < |st| - 1 && st[i] == k
  {
    i :| 0 <= i < |st| && st[i] == k;
  }

  /** No block starts inside the data of another. */
  lemma NoStarts(m: seq<Unit>, st: seq<int>, i: int)
    requires Tiled(m, st) && 0 <= i < |st| - 1 && InUse(m, st, i)
    ensures st[i] in Live(m, st) && st[i] + 1 + |Live(m, st)[st[i]]| == st[i + 1]
    ensures forall u :: st[i] < u < st[i + 1] ==> u !in st
  {
    LiveAt(m, st, i);
    forall j | 0 <= j < |st|
      ensures st[j] <= st[i] || st[j] >= st[i + 1]
    {
      if j < i {
        Apart(m, st, j, i);
      } else if j > i + 1 {
        Apart(m, st, i + 1, j);
      }
    }
  }

  /** Distinct live blocks are apart, with a header between them. */
  lemma LiveApart(m: seq<Unit>, st: seq<int>, k: int, l: int)
    requires Tiled(m, st) && k in Live(m, st) && l in Live(m, st) && k < l
    ensures k + 1 + |Live(m, st)[k]| <= l
  {
    var i := IndexOf(m, st, k);
    var j := IndexOf(m, st, l);
    LiveAt(m, st, i);
    if j < i {
      Apart(m, st, j, i);
    } else if i + 1 < j {
      Apart(m, st, i + 1, j);
    }
  }

  /** Units outside a block's header and data do not matter to it. */
  lemma DataKept(m: seq<Unit>, m': seq<Unit>, k: int)
    requires |m'| >= |m| && 0 <= k < |m| && 0 < m[k].next <= |m| - k
    requires m'[k].next == m[k].next && forall u :: k < u < k + m[k].next ==> m'[u] == m[u]
    ensures Data(m', k) == Data(m, k)
  {
  }

  lemma BlocksApart(m: seq<Unit>, st: seq<int>, i: int, j: int)
    requires Tiled(m, st) && 0 <= i < |st| - 1 && 0 <= j < |st| - 1 && i != j
    ensures st[i + 1] <= st[j] < |m| || st[j + 1] <= st[i] < |m|
  {
    Apart(m, st, i, |st| - 1);
    Apart(m, st, j, |st| - 1);
    if i + 1 < j {
      Apart(m, st, i + 1, j);
    } else if j + 1 < i {
      Apart(m, st, j + 1, i);
    }
  }

  lemma SplitUsed(m: seq<Unit>, st: seq<int>, i: int, n: int, j: int)
    requires Tiled(m, st) && 0 <= i < |st| - 1 && 1 <= n && n + 2 <= st[i + 1] - st[i] && !InUse(m, st, i) &&
      BlockAt(m, st, i)
    requires var s, t := Split(m, st[i], n), st[..i + 1] + [st[i] + n] + st[i + 1..];
             Tiled(s, t) && 0 <= j < |t| - 1 && InUse(s, t, j)
    ensures var t := st[..i + 1] + [st[i] + n] + st[i + 1..];
            t[j] in st && 0 <= t[j] < |m| && m[t[j]].inuse
  {
    var t := st[..i + 1] + [st[i] + n] + st[i + 1..];
    var o := if j <= i then j else j - 1;
    if j != i && j != i + 1 {
      assert t[j] == st[o];
      BlocksApart(m, st, i, o);
    }
  }

  lemma SplitData(m: seq<Unit>, st: seq<int>, i: int, n: int, j: int)
    requires Tiled(m, st) && 0 <= i < |st| - 1 && 1 <= n && n + 2 <= st[i + 1] - st[i] && BlockAt(m, st, i)
    requires 0 <= j < |st| - 1 && j != i
    ensures 0 <= st[j] < |m| && Split(m, st[i], n)[st[j]].inuse == m[st[j]].inuse &&
      Data(Split(m, st[i], n), st[j]) == Data(m, st[j])
  {
    BlocksApart(m, st, i, j);
    assert BlockAt(m, st, j);
    DataKept(m, Split(m, st[i], n), st[j]);
  }

  lemma SplitLive(m: seq<Unit>, st: seq<int>, i: int, n: int)
    requires Tiled(m, st) && 0 <= i < |st| - 1 && 1 <= n && n + 2 <= st[i + 1] - st[i] && !InUse(m, st, i)
    ensures BlockAt(m, st, i)
    ensures Live(Split(m, st[i], n), st[..i + 1] + [st[i] + n] + st[i + 1..]) == Live(m, st)
  {
    assert BlockAt(m, st, i);
    SplitTiled(m, st, i, n);
    var s, t := Split(m, st[i], n), st[..i + 1] + [st[i] + n] + st[i + 1..];
    hide Split, Tiled, Data, BlockAt;
    forall k
      ensures k in Live(m, st) ==> k in Live(s, t) && Live(s, t)[k] == Live(m, st)[k]
      ensures k in Live(s, t) ==> k in Live(m, st)
    {
      if k in Live(m, st) {
        var j := IndexOf(m, st, k);
        SplitData(m, st, i, n, j);
        assert k == if j <= i then t[j] else t[j + 1];
      }
      if k in Live(s, t) {
        var j := IndexOf(s, t, k);
        SplitUsed(m, st, i, n, j);
      }
    }
  }

  lemma MergeUsed(m: seq<Unit>, st: seq<int>, i: int, j: int)
    requires Tiled(m, st) && 0 <= i < |st| - 2 && BlockAt(m, st, i) && BlockAt(m, st, i + 1)
    requires var s, t := Merge(m, st[i]), st[..i + 1] + st[i + 2..];
             0 <= j < |t| - 1 && InUse(s, t, j)
    ensures var t := st[..i + 1] + st[i + 2..];
            t[j] in st && 0 <= t[j] < |m| && m[t[j]].inuse
  {
    var t := st[..i + 1] + st[i + 2..];
    var o := if j <= i then j else j + 1;
    assert t[j] == st[o] && BlockAt(m, st, o);
    BlocksApart(m, st, i + 1, o);
    if o != i {
      BlocksApart(m, st, i, o);
    }
    assert st[o] != st[i + 1];
  }

  lemma MergeData(m: seq<Unit>, st: seq<int>, i: int, j: int)
    requires Tiled(m, st) && 0 <= i < |st| - 2 && BlockAt(m, st, i) && BlockAt(m, st, i + 1)
    requires 0 <= j < |st| - 1 && j != i && j != i + 1
    ensures 0 <= st[j] < |m| && Merge(m, st[i])[st[j]].inuse == m[st[j]].inuse &&
      Data(Merge(m, st[i]), st[j]) == Data(m, st[j])
  {
    BlocksApart(m, st, i, j);
    BlocksApart(m, st, i + 1, j);
    assert BlockAt(m, st, j);
    DataKept(m, Merge(m, st[i]), st[j]);
  }

  /** Both blocks are free: joining them changes no live block. */
  lemma MergeLive(m: seq<Unit>, st: seq<int>, i: int)
    requires Tiled(m, st) && 0 <= i < |st| - 2 && !InUse(m, st, i) && !InUse(m, st, i + 1)
    ensures BlockAt(m, st, i) && BlockAt(m, st, i + 1)
    ensures Live(Merge(m, st[i]), st[..i + 1] + st[i + 2..]) == Live(m, st)
  {
    MergeTiled(m, st, i);
    var s, t := Merge(m, st[i]), st[..i + 1] + st[i + 2..];
    hide Merge, Tiled, Data;
    forall k | k in Live(m, st)
      ensures k in Live(s, t) && Live(s, t)[k] == Live(m, st)[k]
    {
      var j := IndexOf(m, st, k);
      MergeData(m, st, i, j);
      assert k == if j <= i then t[j] else t[j - 1];
    }
    forall k | k in Live(s, t)
      ensures k in Live(m, st)
    {
      var j := IndexOf(s, t, k);
      MergeUsed(m, st, i, j);
    }
  }

  /** m' is m but for the in-use bit and the data of block i. */
  ghost predicate OnlyBlock(m: seq<Unit>, m': seq<Unit>, st: seq<int>, i: int)
    requires 0 <= i < |st| - 1
  {
    && |m'| == |m| && 0 <= st[i] < st[i + 1] <= |m|
    && m'[st[i]] == m[st[i]].(inuse := m'[st[i]].inuse)
    && (forall u :: 0 <= u < st[i] || st[i + 1] <= u < |m| ==> m'[u] == m[u])
  }

  lemma SameLive(m: seq<Unit>, m': seq<Unit>, st: seq<int>, x: int)
    requires |m'| == |m| && x in st && 0 <= x < |m|
    requires forall k :: k in st && 0 <= k < |m| && k != x ==> m'[k].inuse == m[k].inuse && Data(m', k) == Data(m, k)
    ensures Live(m', st) == if m'[x].inuse then Live(m, st)[x := Data(m', x)] else Live(m, st) - {x}
  {
    hide Data;
  }

  lemma EditUse(m: seq<Unit>, m': seq<Unit>, st: seq<int>, i: int)
    requires |m'| == |m| && 0 <= i < |st| - 1 && st[|st| - 1] == |m|
    requires forall j :: 0 <= j < |st| - 1 && j != i ==> 0 <= st[j] < |m| && m'[st[j]] == m[st[j]]
    ensures forall j :: j != i ==> InUse(m', st, j) == InUse(m, st, j)
  {
  }

  lemma EditAt(m: seq<Unit>, m': seq<Unit>, st: seq<int>, i: int, j: int)
    requires Tiled(m, st) && 0 <= i < |st| - 1 && OnlyBlock(m, m', st, i) && 0 <= j < |st| - 1
    ensures BlockAt(m', st, j) && BlockAt(m, st, j)
    ensures j != i ==> m'[st[j]] == m[st[j]] && Data(m', st[j]) == Data(m, st[j])
  {
    assert BlockAt(m, st, j);
    if j != i {
      BlocksApart(m, st, i, j);
      DataKept(m, m', st[j]);
    }
  }

  lemma EditBlock(m: seq<Unit>, m': seq<Unit>, st: seq<int>, i: int)
    requires Tiled(m, st) && 0 <= i < |st| - 1 && OnlyBlock(m, m', st, i)
    ensures Tiled(m', st) && (forall j :: j != i ==> InUse(m', st, j) == InUse(m, st, j))
    ensures Live(m', st) == if m'[st[i]].inuse then Live(m, st)[st[i] := Data(m', st[i])] else Live(m, st) - {st[i]}
  {
    forall j | 0 <= j < |st| - 1
      ensures BlockAt(m', st, j) && (j != i ==> m'[st[j]] == m[st[j]] && Data(m', st[j]) == Data(m, st[j]))
    {
      EditAt(m, m', st, i, j);
    }
    hide Data, OnlyBlock, BlockAt, Live, InUse;
    forall k | k in st && 0 <= k < |m| && k != st[i]
      ensures m'[k].inuse == m[k].inuse && Data(m', k) == Data(m, k)
    {
      var j := IndexOf(m, st, k);
    }
    EditUse(m, m', st, i);
    SameLive(m, m', st, st[i]);
  }

  lemma MoreLive(m: seq<Unit>, m': seq<Unit>, st: seq<int>, top: int)
    requires |m| < |m'| <= top && |m| in st &&
      (forall k :: k in st && 0 <= k < |m| ==> m'[k].inuse == m[k].inuse && Data(m', k) == Data(m, k))
    requires (forall k :: k in st ==> k <= |m|) && m'[|m|].inuse
    ensures Live(m', st + [top]) == Live(m, st)[|m| := Data(m', |m|)]
  {
    hide Data;
  }

  /** A new block in use on top of the heap. */
  function Grow(m: seq<Unit>, prev: int, n: int, junk: seq<Unit>): seq<Unit> {
    m + [Header(prev, n, true)] + junk
  }

  /** The n units behind unit k hold 0xdeadbeef. */
  ghost predicate DeadUnits(m: seq<Unit>, k: int, n: int) {
    0 <= k && k + n < |m| && forall u :: k < u <= k + n ==> m[u] == DEADBEEF
  }

  /** Only units where a block starts differ. */
  ghost predicate SameData(m: seq<Unit>, m': seq<Unit>, st: seq<int>) {
    |m'| == |m| && forall u :: 0 <= u < |m| && u !in st ==> m'[u] == m[u]
  }

  lemma StaysDead(m: seq<Unit>, m': seq<Unit>, st: seq<int>, k: int, n: int)
    requires DeadUnits(m, k, n) && SameData(m, m', st) && forall u :: k < u <= k + n ==> u !in st
    ensures DeadUnits(m', k, n)
  {
  }

  lemma MergedData(m: seq<Unit>, st: seq<int>, i: int)
    requires Tiled(m, st) && 0 <= i < |st| - 2
    ensures 0 <= st[i] < |m| && 0 < m[st[i]].next < |m| - st[i]
    ensures var mid := st[i] + m[st[i]].next; 0 < m[mid].next <= |m| - mid && SameData(m, Merge(m, st[i]), st)
  {
    assert BlockAt(m, st, i) && BlockAt(m, st, i + 1);
    assert st[i + 2] in st;
  }

  /** The length of the topmost block. */
  ghost function TopLen(m: seq<Unit>, st: seq<int>): int {
    if |st| < 2 then 0 else |m| - st[|st| - 2]
  }

  lemma GrownAt(m: seq<Unit>, st: seq<int>, n: int, junk: seq<Unit>, j: int)
    requires Tiled(m, st) && 1 <= n && |junk| == n - 1 && 0 <= j < |st|
    ensures var m', st' := Grow(m, TopLen(m, st), n, junk), st + [|m| + n];
            BlockAt(m', st', j) && (j < |st| - 1 ==>
              BlockAt(m, st, j) && m'[st[j]] == m[st[j]] && Data(m', st[j]) == Data(m, st[j]))
  {
    if j < |st| - 1 {
      assert BlockAt(m, st, j);
      DataKept(m, Grow(m, TopLen(m, st), n, junk), st[j]);
    }
  }

  lemma Grown(m: seq<Unit>, st: seq<int>, n: int, junk: seq<Unit>)
    requires Tiled(m, st) && 1 <= n && |junk| == n - 1
    ensures var m', st' := Grow(m, TopLen(m, st), n, junk), st + [|m| + n];
            && Tiled(m', st') && Live(m', st') == Live(m, st)[|m| := junk]
            && (forall j :: 0 <= j < |st| - 1 ==> InUse(m', st', j) == InUse(m, st, j)) && InUse(m', st', |st| - 1)
  {
    var m', st' := Grow(m, TopLen(m, st), n, junk), st + [|m| + n];
    assert Data(m', |m|) == junk && |m'| == |m| + n && m'[|m|].inuse;
    forall j | 0 <= j < |st'| - 1
      ensures BlockAt(m', st', j)
    {
      GrownAt(m, st, n, junk, j);
    }
    assert Tiled(m', st');
    hide Data, Grow, TopLen;
    forall j | 0 <= j < |st| - 1
      ensures InUse(m', st', j) == InUse(m, st, j)
    {
      GrownAt(m, st, n, junk, j);
    }
    forall k | k in st
      ensures k <= |m| && (0 <= k < |m| ==> m'[k].inuse == m[k].inuse && Data(m', k) == Data(m, k))
    {
      var j :| 0 <= j < |st| && st[j] == k;
      if j < |st| - 1 {
        GrownAt(m, st, n, junk, j);
      }
    }
    hide BlockAt, InUse, Tiled, Live;
    assert st[|st| - 1] == |m|;
    MoreLive(m, m', st, |m| + n);
  }

  // ---- which blocks are in use after a split or a merge ----

  lemma SplitUse(m: seq<Unit>, st: seq<int>, i: int, n: int, j: int)
    requires Tiled(m, st) && 0 <= i < |st| - 1 && 1 <= n && n + 2 <= st[i + 1] - st[i] && BlockAt(m, st, i)
    requires 0 <= j < |st|
    ensures var s, t := Split(m, st[i], n), st[..i + 1] + [st[i] + n] + st[i + 1..];
            InUse(s, t, j) == if j <= i then InUse(m, st, j) else if j == i + 1 then false else InUse(m, st, j - 1)
  {
    var t := st[..i + 1] + [st[i] + n] + st[i + 1..];
    var o := if j <= i then j else j - 1;
    if j != i && j != i + 1 {
      assert t[j] == st[o];
      if o < |st| - 1 {
        assert BlockAt(m, st, o);
        BlocksApart(m, st, i, o);
      }
    }
  }

  lemma MergeUse(m: seq<Unit>, st: seq<int>, i: int, j: int)
    requires Tiled(m, st) && 0 <= i < |st| - 2 && BlockAt(m, st, i) && BlockAt(m, st, i + 1)
    requires 0 <= j < |st| - 1
    ensures var s, t := Merge(m, st[i]), st[..i + 1] + st[i + 2..];
            InUse(s, t, j) == InUse(m, st, if j <= i then j else j + 1)
  {
    var t := st[..i + 1] + st[i + 2..];
    var o := if j <= i then j else j + 1;
    assert t[j] == st[o];
    if o < |st| - 1 {
      assert BlockAt(m, st, o);
      BlocksApart(m, st, i + 1, o);
      if o != i {
        BlocksApart(m, st, i, o);
      }
      assert st[o] != st[i + 1];
    }
  }

  /** Free block i: its neighbours are in use. */
  lemma TakePairs(m: seq<Unit>, m': seq<Unit>, st: seq<int>, i: int)
    requires NoFreePair(m, st) && 0 <= i < |st| - 1 && InUse(m', st, i)
    requires forall j :: j != i ==> InUse(m', st, j) == InUse(m, st, j)
    ensures NoFreePair(m', st)
  {
    forall j
      ensures PairOk(m', st, j)
    {
      assert PairOk(m, st, j);
    }
  }

  lemma SplitPairs(m: seq<Unit>, m': seq<Unit>, st: seq<int>, i: int, n: int)
    requires Tiled(m, st) && NoFreePair(m, st) && 0 <= i < |st| - 1 && 1 <= n && n + 2 <= st[i + 1] - st[i] &&
      BlockAt(m, st, i)
    requires !InUse(m, st, i)
    requires var t := st[..i + 1] + [st[i] + n] + st[i + 1..];
             InUse(m', t, i) && forall j :: j != i ==> InUse(m', t, j) == InUse(Split(m, st[i], n), t, j)
    ensures NoFreePair(m', st[..i + 1] + [st[i] + n] + st[i + 1..])
  {
    var t := st[..i + 1] + [st[i] + n] + st[i + 1..];
    hide Split, Tiled, BlockAt, InUse;
    forall j
      ensures PairOk(m', t, j)
    {
      if 0 <= j < |t| - 2 {
        SplitUse(m, st, i, n, j);
        SplitUse(m, st, i, n, j + 1);
        assert PairOk(m, st, if j <= i then j else j - 1);
      }
    }
  }

  /** Joining free blocks i and i + 1 repairs pair i; pair x, lower down, may still be bad. */
  lemma MergePairs(m: seq<Unit>, m': seq<Unit>, st: seq<int>, t: seq<int>, i: int, x: int)
    requires Tiled(m, st) && 0 <= i < |st| - 2 && BlockAt(m, st, i) && BlockAt(m, st, i + 1)
    requires m' == Merge(m, st[i]) && t == st[..i + 1] + st[i + 2..] && x < i
    requires !InUse(m, st, i) && !InUse(m, st, i + 1)
    requires forall j :: j != i && j != x ==> PairOk(m, st, j)
    ensures forall j :: j != x ==> PairOk(m', t, j)
  {
    hide Merge, Tiled, BlockAt, InUse;
    forall j | j != x
      ensures PairOk(m', t, j)
    {
      if 0 <= j < |t| - 2 {
        MergeUse(m, st, i, j);
        MergeUse(m, st, i, j + 1);
        assert j < i ==> PairOk(m, st, j);
        assert j >= i ==> PairOk(m, st, j + 1);
      }
    }
  }

  // ---- the allocator ----

  /** The size rounded up to whole units, in 32-bit arithmetic. */
  function Rounded(size: int): int {
    (size + MBLOCKSIZE - 1) % TWO32 / MBLOCKSIZE * MBLOCKSIZE
  }

  /** Header and data units for a request of size bytes. */
  function Units(size: int): int {
    Rounded(size) / MBLOCKSIZE + 1
  }

  /** What sbrk is asked for, a signed 32-bit number. */
  function Amount(size: int): int {
    var a := (Rounded(size) + MBLOCKSIZE) % TWO32;
    if a < 0x8000_0000 then a else a - TWO32
  }

  /** Rounding up gives at least the size asked for exactly up to 2^32 - 8; from there on it gives 0. */
  lemma RoundedUp(size: int)
    requires 0 <= size < TWO32
    ensures Rounded(size) >= size <==> size <= TWO32 - 8
    ensures if size <= TWO32 - 8 then size <= Rounded(size) < size + MBLOCKSIZE else Rounded(size) == 0
    ensures 1 <= Units(size) && Rounded(size) == MBLOCKSIZE * (Units(size) - 1)
  {
  }

  /** sbrk is asked to grow the heap exactly for sizes up to 2^31 - 16, and for those that round up to
      0; then the growth is that of the block.  For the others the heap is asked to shrink, or to
      stay as it is. */
  lemma AmountGrows(size: int)
    requires 0 <= size < TWO32
    ensures Amount(size) > 0 <==> size <= 0x7fff_fff0 || size > TWO32 - 8
    ensures Amount(size) > 0 ==> Amount(size) == MBLOCKSIZE * Units(size)
  {
  }

  /** malloc(2^32 - 16), when no block fits, moves the top of the heap down by 8 bytes. */
  lemma AmountShrinks()
    ensures Amount(TWO32 - 16) == -8
  {
  }

  ghost predicate Fits(m: seq<Unit>, st: seq<int>, i: int, n: int) {
    0 <= i < |st| - 1 && !InUse(m, st, i) && n <= st[i + 1] - st[i]
  }

  lemma WriteUnit(m: seq<Unit>, m': seq<Unit>, st: seq<int>, i: int, off: int, x: Unit)
    requires Tiled(m, st) && NoFreePair(m, st) && 0 <= i < |st| - 1 && InUse(m, st, i) && 0 <= off < |Data(m, st[i])|
    requires st[i] + 1 + off < |m| && m' == m[st[i] + 1 + off := x]
    ensures Tiled(m', st) && NoFreePair(m', st) && Live(m', st) == Live(m, st)[st[i] := Data(m, st[i])[off := x]]
  {
    LiveAt(m, st, i);
    EditBlock(m, m', st, i);
    TakePairs(m, m', st, i);
    LiveAt(m', st, i);
    assert m'[st[i] + 1..st[i + 1]] == m[st[i] + 1..st[i + 1]][off := x];
  }

  /** k is the lowest free block of at least n units, or the top of the heap if there is none. */
  ghost predicate FirstFit(m: seq<Unit>, st: seq<int>, n: int, k: int) {
    && (forall i :: Fits(m, st, i, n) ==> k <= st[i])
    && ((exists i :: Fits(m, st, i, n) && st[i] == k) || (k == |m| && forall i :: !Fits(m, st, i, n)))
  }

  lemma LowestFit(m: seq<Unit>, st: seq<int>, g: int, n: int)
    requires Tiled(m, st) && 0 <= g < |st| && (st[g] < |m| ==> Fits(m, st, g, n))
    requires forall j :: Fits(m, st, j, n) ==> st[g] < |m| && g <= j
    ensures st[g] <= |m| && FirstFit(m, st, n, st[g])
  {
    if g < |st| - 1 {
      Apart(m, st, g, |st| - 1);
    }
    forall i | Fits(m, st, i, n)
      ensures st[g] <= st[i]
    {
      if g < i {
        Apart(m, st, g, i);
      }
    }
  }

  lemma LastBoundary(m: seq<Unit>, st: seq<int>, g: int)
    requires Tiled(m, st) && 0 <= g < |st| && st[g] == |m|
    ensures g == |st| - 1
  {
    if g < |st| - 1 {
      Apart(m, st, g, |st| - 1);
    }
  }

  lemma TopMost(m: seq<Unit>, st: seq<int>, i: int)
    requires Tiled(m, st) && 0 <= i < |st| - 1 && st[i + 1] == |m|
    ensures i == |st| - 2 && PairOk(m, st, i)
  {
    LastBoundary(m, st, i + 1);
  }

  lemma MergeTiledFacts(m: seq<Unit>, st: seq<int>, i: int)
    requires Tiled(m, st) && 0 <= i < |st| - 2
    ensures BlockAt(m, st, i) && BlockAt(m, st, i + 1)
  {
  }

  lemma GrownPairs(m: seq<Unit>, m': seq<Unit>, st: seq<int>, st': seq<int>)
    requires NoFreePair(m, st) && |st| >= 1 && st' == st + [|m'|]
    requires (forall j :: 0 <= j < |st| - 1 ==> InUse(m', st', j) == InUse(m, st, j)) && InUse(m', st', |st| - 1)
    ensures NoFreePair(m', st')
  {
    forall j
      ensures PairOk(m', st', j)
    {
      assert PairOk(m, st, j);
    }
  }

  lemma NotLive(m: seq<Unit>, st: seq<int>, k: int)
    requires Tiled(m, st) && 0 <= k < |m| && !HeaderOk(m[k])
    ensures k !in Live(m, st)
  {
    forall i | 0 <= i < |st| && st[i] < |m|
      ensures st[i] != k
    {
      assert BlockAt(m, st, i);
    }
  }

  class Heap {
    const base: int
    var m: seq<Unit>
    ghost var st: seq<int>

    ghost predicate Valid()
      reads this
    {
      && 0 < base && base % MBLOCKSIZE == 0 && base + MBLOCKSIZE * |m| < TWO32
      && Tiled(m, st) && NoFreePair(m, st)
    }

    /** The blocks in use by the unit of their header. */
    ghost function Used(): map<int, seq<Unit>>
      reads this
    {
      Live(m, st)
    }

    /** __malloc_init, given where the kernel puts the heap. */
    constructor (x: int)
      requires 0 < x <= 0xffff_fff0
      ensures Valid() && m == [] && Used() == map[] && x <= base < x + MBLOCKSIZE
    {
      base := if x % MBLOCKSIZE != 0 then x + (MBLOCKSIZE - x % MBLOCKSIZE) else x;
      m, st := [], [0];
    }

    /** __malloc_split of free block i, at unit k */
    method SplitBlock(k: int, size: int, ghost i: int)
      requires Tiled(m, st) && 0 <= i < |st| - 1 && st[i] == k && !InUse(m, st, i)
      requires size % MBLOCKSIZE == 0 && 0 <= size && 0 <= k < |m| && size <= m[k].next * MBLOCKSIZE - MBLOCKSIZE
      modifies this
      ensures var n := size / MBLOCKSIZE + 1;
              if old(st)[i + 1] - k < n + 2 then m == old(m) && st == old(st)
              else
                BlockAt(old(m), old(st), i) && m == Split(old(m), k, n) &&
                st == old(st)[..i + 1] + [k + n] + old(st)[i + 1..]
    {
      assert BlockAt(m, st, i);
      if m[k].next * MBLOCKSIZE - MBLOCKSIZE - size < 2 * MBLOCKSIZE {
        return;
      }
      var mhnext := k + m[k].next;
      var oldsize := m[k].next * MBLOCKSIZE - MBLOCKSIZE;
      m := m[k := m[k].(next := (size + MBLOCKSIZE) / MBLOCKSIZE)];
      var mhnew := k + m[k].next;
      assert mhnew != mhnext;
      m := m[mhnew := Unit((size + MBLOCKSIZE) / MBLOCKSIZE, 0, MMAGIC, (oldsize - size) / MBLOCKSIZE, false, MMAGIC)];
      if mhnext != |m| {
        m := m[mhnext := m[mhnext].(prev := m[mhnew].next)];
      }
      st := st[..i + 1] + [k + size / MBLOCKSIZE + 1] + st[i + 1..];
    }

    /** The end of the search in malloc: split free block i and mark it in use. */
    method Take(k: int, size: int, ghost i: int)
      requires Valid() && 0 <= i < |st| - 1 && st[i] == k && !InUse(m, st, i)
      requires size % MBLOCKSIZE == 0 && 0 <= size && 0 <= k < |m| && size <= m[k].next * MBLOCKSIZE - MBLOCKSIZE
      modifies this
      ensures Valid() && |m| == old(|m|) && k in Used() && k !in old(Used())
      ensures Used() == old(Used())[k := Used()[k]] && 0 <= MBLOCKSIZE * |Used()[k]| - size <= MBLOCKSIZE
    {
      ghost var n, m0, st0 := size / MBLOCKSIZE + 1, m, st;
      assert BlockAt(m, st, i);
      LiveAt(m, st, i);
      SplitBlock(k, size, i);
      if m != m0 {
        SplitTiled(m0, st0, i, n);
        SplitLive(m0, st0, i, n);
        assert st[i] == k && st[i + 1] == k + n;
      }
      ghost var m1 := m;
      m := m[k := m[k].(inuse := true)];
      EditBlock(m1, m, st, i);
      LiveAt(m, st, i);
      if m1 != m0 {
        SplitPairs(m0, m, st0, i, n);
      } else {
        TakePairs(m0, m, st, i);
      }
    }

    /** The search loop of malloc; no check on the way fails. */
    method Search(sz: int, ghost n: int) returns (found: bool, i: int, rightprev: int, ghost g: int)
      requires Valid() && sz % MBLOCKSIZE == 0 && 0 <= sz && n == sz / MBLOCKSIZE + 1
      ensures 0 <= g < |st| && 0 <= i == st[g] && (found <==> i < |m|) && (!found ==> rightprev == TopLen(m, st))
      ensures found ==>
        g < |st| - 1 && !InUse(m, st, g) && Fits(m, st, g, n) && sz <= m[i].next * MBLOCKSIZE - MBLOCKSIZE
      ensures forall j :: Fits(m, st, j, n) ==> found && g <= j
    {
      rightprev, i, g := 0, 0, 0;
      while i < |m|
        invariant 0 <= g < |st| && st[g] == i && 0 <= i <= |m|
        invariant rightprev == if g == 0 then 0 else st[g] - st[g - 1]
        invariant forall j :: 0 <= j < g ==> !Fits(m, st, j, n)
        decreases |m| - i
      {
        assert g < |st| - 1;
        assert BlockAt(m, st, g);
        assert HeaderOk(m[i]) && m[i].prev == rightprev;
        rightprev := m[i].next;
        if !m[i].inuse && m[i].next * MBLOCKSIZE - MBLOCKSIZE >= sz {
          return true, i, rightprev, g;
        }
        i := i + m[i].next;
        g := g + 1;
      }
      assert i == |m|;
      LastBoundary(m, st, g);
      found := false;
    }

    /** Block k became the new block in use, of at least n units. */
    twostate predicate Placed(n: int, k: int)
      reads this
    {
      && FirstFit(old(m), old(st), n, k) && |m| == (if k < old(|m|) then old(|m|) else old(|m|) + n)
      && k in Used() && k !in old(Used()) && Used() == old(Used())[k := Used()[k]] && n - 1 <= |Used()[k]| <= n
    }

    /** malloc after the size was rounded up: find a block or make one. */
    method Place(sz: int, n: int, room: bool, junk: seq<Unit>) returns (ok: bool, k: int)
      requires Valid() && sz == MBLOCKSIZE * (n - 1) && 1 <= n && |junk| == n - 1
      requires room ==> base + MBLOCKSIZE * (|m| + n) < TWO32
      modifies this
      ensures Valid() && (ok <==> room || exists i :: Fits(old(m), old(st), i, n))
      ensures !ok ==> m == old(m) && st == old(st)
      ensures ok ==> 0 <= k && Placed(n, k)
    {
      hide Tiled, NoFreePair, Live, TopLen, FirstFit, Fits;
      var found, i, rightprev;
      ghost var g;
      found, i, rightprev, g := Search(sz, n);
      LowestFit(m, st, g, n);
      k := i;
      if found {
        Take(i, sz, g);
        ok := true;
      } else if !room {
        ok := false;
      } else {
        var p := Expand(sz, rightprev, junk);
        ok := true;
      }
    }

    /** malloc, for every size.  A null result (0) means that no free block is large enough and the
        kernel gives no more memory.  Otherwise the data goes to the lowest free block that is large
        enough, or to new memory (holding junk) on top of the heap if there is none.  The block has
        room for the size asked exactly if that is at most 2^32 - 8.  wild means that the kernel
        agreed to an amount that does not grow the heap, and the code writes past its top. */
    method Malloc(size: int, room: bool, junk: seq<Unit>) returns (p: int, wild: bool)
      requires Valid() && 0 <= size < TWO32 && |junk| == Units(size) - 1
      requires room && Amount(size) > 0 ==> base + MBLOCKSIZE * (|m| + Units(size)) < TWO32
      modifies this
      ensures Valid() && (p != 0 <==> (room && Amount(size) > 0) || exists i :: Fits(old(m), old(st), i, Units(size)))
      ensures wild <==> room && p == 0
      ensures p == 0 ==> m == old(m) && st == old(st) && Used() == old(Used())
      ensures p != 0 ==> p % MBLOCKSIZE == 0 && base < p && Placed(Units(size), UnitOf(p))
      ensures p != 0 ==> (size <= MBLOCKSIZE * |Used()[UnitOf(p)]| <==> size <= TWO32 - 8)
    {
      hide Tiled, NoFreePair, Live, FirstFit, Fits, Amount, Rounded;
      RoundedUp(size);
      var sz := Rounded(size);
      var ok, k := Place(sz, sz / MBLOCKSIZE + 1, room && Amount(size) > 0, junk);
      wild := !ok && room;
      if !ok {
        return 0, wild;
      }
      Address(k);
      p := base + MBLOCKSIZE * (k + 1);
    }

    lemma Address(k: int)
      requires Valid() && 0 <= k
      ensures var p := base + MBLOCKSIZE * (k + 1);
              p % MBLOCKSIZE == 0 && p > base && UnitOf(p) == k
    {
    }

    /** The unit of the header of the block whose data is at address p. */
    function UnitOf(p: int): int {
      (p - base) / MBLOCKSIZE - 1
    }

    /** The end of malloc: a new block from the kernel. */
    method Expand(sz: int, rightprev: int, junk: seq<Unit>) returns (p: int)
      requires Valid() && sz % MBLOCKSIZE == 0 && 0 <= sz && |junk| == sz / MBLOCKSIZE && rightprev == TopLen(m, st)
      requires base + MBLOCKSIZE * (|m| + sz / MBLOCKSIZE + 1) < TWO32
      modifies this
      ensures Valid() && p == base + MBLOCKSIZE * (old(|m|) + 1) && |m| == old(|m|) + sz / MBLOCKSIZE + 1
      ensures old(|m|) !in old(Used()) && Used() == old(Used())[old(|m|) := junk]
    {
      var n := (sz + MBLOCKSIZE) / MBLOCKSIZE;
      Grown(m, st, n, junk);
      GrownPairs(m, Grow(m, TopLen(m, st), n, junk), st, st + [|m| + n]);
      p := base + MBLOCKSIZE * (|m| + 1);
      m, st := Grow(m, rightprev, n, junk), st + [|m| + n];
    }

    /** __malloc_deadbeef over whole units */
    method DeadBeef(from: int, n: int)
      requires 0 <= from && 0 <= n && from + n <= |m|
      modifies this`m
      ensures |m| == old(|m|) && forall u :: 0 <= u < |m| ==> m[u] == if from <= u < from + n then DEADBEEF
        else old(m)[u]
    {
      for i := 0 to n
        invariant |m| == old(|m|) && forall u :: 0 <= u < |m| ==> m[u] == if from <= u < from + i then DEADBEEF
          else old(m)[u]
      {
        m := m[from + i := DEADBEEF];
      }
    }

    /** __malloc_trymerge of block i, at unit k, with block i + 1, at unit mid; pair x may be bad. */
    method TryMerge(k: int, mid: int, ghost i: int, ghost x: int)
      requires Tiled(m, st) && 0 <= i < |st| - 2 && st[i] == k && st[i + 1] == mid && x < i
      requires forall j :: j != i && j != x ==> PairOk(m, st, j)
      modifies this
      ensures Tiled(m, st) && Used() == old(Used()) && |m| == old(|m|)
      ensures forall j :: j != x ==> PairOk(m, st, j)
      ensures st == if InUse(old(m), old(st), i) || InUse(old(m), old(st), i + 1) then old(st)
        else old(st)[..i + 1] + old(st)[i + 2..]
      ensures st == old(st) ==> m == old(m)
      ensures forall u :: u in st ==> u in old(st)
      ensures SameData(old(m), m, old(st))
    {
      ghost var m0, st0 := m, st;
      MergeTiledFacts(m, st, i);
      assert m[k].next == m[mid].prev;
      if m[k].inuse || m[mid].inuse {
        assert PairOk(m, st, i);
        return;
      }
      MergeTiled(m, st, i);
      MergeLive(m, st, i);
      var nextnext := mid + m[mid].next;
      m := m[k := m[k].(next :=
        (MBLOCKSIZE + (m[k].next * MBLOCKSIZE - MBLOCKSIZE) +
         MBLOCKSIZE + (m[mid].next * MBLOCKSIZE - MBLOCKSIZE)) / MBLOCKSIZE)];
      if nextnext != |m| {
        m := m[nextnext := m[nextnext].(prev := m[k].next)];
      }
      ghost var m1 := m;
      DeadBeef(mid, 1);
      assert m == m1[mid := DEADBEEF] == Merge(m0, k);
      st := st[..i + 1] + st[i + 2..];
      MergePairs(m0, m, st0, st, i, x);
      MergedData(m0, st0, i);
    }

    /** Where free looks for a header there is one, or nothing that could be taken for one in use. */
    ghost predicate NoFake(p: int)
      reads this
    {
      var k := UnitOf(p);
      p % MBLOCKSIZE == 0 && base < p && (0 <= k < |m| && HeaderOk(m[k]) && m[k].inuse ==> k in st)
    }

    /** free.  It gives up the block, and other blocks keep their place and data; or the program exits
        (ok is false) and nothing changes, exactly if the pointer is not one of a block in use, or is
        the top of the heap. */
    method Free(p: int) returns (ok: bool)
      requires Valid() && 0 <= p < TWO32
      requires p == 0 || p < base || p >= base + MBLOCKSIZE * |m| || NoFake(p)
      modifies this
      ensures Valid() && |m| == old(|m|)
      ensures ok <==> p == 0 || (base < p < base + MBLOCKSIZE * |m| && UnitOf(p) in old(Used()))
      ensures Used() == if ok && p != 0 then old(Used()) - {UnitOf(p)} else old(Used())
      ensures ok && p != 0 ==> DeadUnits(m, UnitOf(p), |old(Used())[UnitOf(p)]|)
    {
      if p == 0 {
        return true;
      }
      if p < base || p >= base + MBLOCKSIZE * |m| {
        return false;
      }
      var mh := (p - base) / MBLOCKSIZE - 1;
      if !HeaderOk(m[mh]) {
        NotLive(m, st, mh);
        return false;
      }
      if !m[mh].inuse {
        return false;
      }
      ghost var i := IndexOf(m, st, mh);
      ghost var st0, n := st, |Used()[mh]|;
      NoStarts(m, st, i);
      Unmark(mh, i);
      ghost var m1 := m;
      MergeAround(mh, i);
      StaysDead(m1, m, st0, mh, n);
      ok := true;
    }

    /** Mark block i free and wipe it. */
    method Unmark(mh: int, ghost i: int)
      requires Valid() && 0 <= i < |st| - 1 && st[i] == mh && InUse(m, st, i)
      modifies this`m
      ensures Tiled(m, st) && |m| == old(|m|) && Used() == old(Used()) - {mh} && !InUse(m, st, i)
      ensures mh in old(Used()) && DeadUnits(m, mh, |old(Used())[mh]|)
      ensures forall j :: j != i && j != i - 1 ==> PairOk(m, st, j)
    {
      ghost var m0 := m;
      assert BlockAt(m, st, i);
      m := m[mh := m[mh].(inuse := false)];
      DeadBeef(mh + 1, m[mh].next - 1);
      EditBlock(m0, m, st, i);
      LiveAt(m0, st, i);
      forall j | j != i && j != i - 1
        ensures PairOk(m, st, j)
      {
        assert PairOk(m0, st, j);
      }
    }

    /** The two merges at the end of free. */
    method MergeAround(mh: int, ghost i: int)
      requires Tiled(m, st) && 0 <= i < |st| - 1 && st[i] == mh && !InUse(m, st, i)
      requires forall j :: j != i && j != i - 1 ==> PairOk(m, st, j)
      modifies this
      ensures Tiled(m, st) && NoFreePair(m, st) && |m| == old(|m|) && Used() == old(Used())
      ensures SameData(old(m), m, old(st))
    {
      assert BlockAt(m, st, i);
      var mhnext := mh + m[mh].next;
      if mhnext != |m| {
        assert i < |st| - 2;
        TryMerge(mh, mhnext, i, i - 1);
      } else {
        TopMost(m, st, i);
      }
      assert BlockAt(m, st, i);
      if mh != 0 {
        TryMerge(mh - m[mh].prev, mh, i - 1, -1);
      } else if i > 0 {
        Apart(m, st, 0, i);
      }
      assert PairOk(m, st, -1);
    }

    /** A program writes to unit off of a block it was given. */
    method Write(k: int, off: int, x: Unit)
      requires Valid() && k in Used() && 0 <= off < |Used()[k]|
      modifies this`m
      ensures Valid() && Used() == old(Used())[k := old(Used())[k][off := x]]
    {
      hide Tiled, NoFreePair;
      ghost var m0 := m;
      ghost var i := IndexOf(m, st, k);
      LiveAt(m, st, i);
      m := m[k + 1 + off := x];
      WriteUnit(m0, m, st, i, off, x);
    }
  }

  // ---- runs ----

  /** When everything was freed, one free block spans the heap. */
  lemma AllReturned(h: Heap)
    requires h.Valid() && h.Used() == map[] && h.m != []
    ensures h.st == [0, |h.m|] && !h.m[0].inuse && h.m[0].next == |h.m|
  {
    forall i | 0 <= i < |h.st| - 1
      ensures !InUse(h.m, h.st, i)
    {
      LiveAt(h.m, h.st, i);
    }
    AllFree(h.m, h.st);
    assert !InUse(h.m, h.st, 0);
  }

  /** A pointer that malloc gave out passes the range test of free exactly if its block has data or is
      not the topmost one. */
  lemma InRange(h: Heap, k: int)
    requires h.Valid() && k in h.Used()
    ensures h.base + MBLOCKSIZE * (k + 1) < h.base + MBLOCKSIZE * |h.m| <==> h.Used()[k] != [] || k + 1 < |h.m|
    ensures k + 1 + |h.Used()[k]| <= |h.m|
  {
    var i := IndexOf(h.m, h.st, k);
    LiveAt(h.m, h.st, i);
  }

  /** malloc(0) in an empty heap gives a pointer to the top of the heap, which free then refuses. */
  method FreeZero(h: Heap) returns (p: int, ok: bool)
    requires h.Valid() && h.m == [] && h.base + 2 * MBLOCKSIZE < TWO32
    modifies h
    ensures p == h.base + MBLOCKSIZE * |h.m| && h.UnitOf(p) in h.Used() && !ok
  {
    hide Tiled, NoFreePair, Live;
    var wild;
    p, wild := h.Malloc(0, true, []);
    InRange(h, h.UnitOf(p));
    ok := h.Free(p);
  }

  /** Requests by a program, which names the blocks it holds by their place in a list. */
  datatype Call =
    | Alloc(size: int, room: bool, junk: seq<Unit>)
    | Release(j: nat)
    | Store(j: nat, off: nat, x: Unit)

  predicate Sensible(c: Call) {
    c.Alloc? ==> 0 <= c.size < TWO32 && |c.junk| == Units(c.size) - 1
  }

  /** The blocks in held are the blocks in use, each once. */
  ghost predicate Holds(used: set<int>, held: seq<int>) {
    (forall k :: k in held <==> k in used) && (forall i, j :: 0 <= i < j < |held| ==> held[i] != held[j])
  }

  lemma HoldsNone(used: set<int>, held: seq<int>)
    requires Holds(used, held) && held == []
    ensures used == {}
  {
    forall k
      ensures k !in used
    {
      assert k !in held;
    }
  }

  lemma HoldsMore(used: set<int>, held: seq<int>, k: int)
    requires Holds(used, held) && k !in used
    ensures Holds(used + {k}, held + [k])
  {
  }

  lemma HoldsLess(used: set<int>, held: seq<int>, j: nat)
    requires Holds(used, held) && j < |held|
    ensures held[j] in used && Holds(used - {held[j]}, Without(held, j))
  {
    assert held[j] in held;
    forall k
      ensures k in Without(held, j) <==> k in used && k != held[j]
    {
      if k in used && k != held[j] {
        var i :| 0 <= i < |held| && held[i] == k;
        assert Without(held, j)[if i < j then i else i - 1] == k;
      }
    }
  }

  /** How a request ends: as it should, with an exit of the program, or with the heap overrun. */
  datatype End = Fine | Exits | Wild

  /** What a request does to the blocks in use: nothing to any block but the one it is about. */
  ghost predicate Effect(c: Call, held: seq<int>, u: map<int, seq<Unit>>, u': map<int, seq<Unit>>) {
    u' == u ||
    match c
    case Alloc(size, _, _) =>
      exists k :: k in u' && k !in u && u' == u[k := u'[k]] && (size <= TWO32 - 8 ==> size <= MBLOCKSIZE * |u'[k]|)
    case Release(j) => j < |held| && u' == u - {held[j]}
    case Store(j, off, x) =>
      j < |held| && held[j] in u && off < |u[held[j]]| && u' == u[held[j] := u[held[j]][off := x]]
  }

  lemma Pointer(h: Heap, k: int)
    requires h.Valid() && k in h.Used()
    ensures var p := h.base + MBLOCKSIZE * (k + 1);
            && 0 < h.base < p < TWO32 && h.UnitOf(p) == k && h.NoFake(p)
            && 0 <= k < |h.m| && h.m[k].next - 1 == |h.Used()[k]|
  {
    var i := IndexOf(h.m, h.st, k);
    LiveAt(h.m, h.st, i);
    assert BlockAt(h.m, h.st, i);
  }

  /** One request; held are the blocks the program holds, by the units of their headers.  The kernel
      never lets the heap grow past the end of the address space, and the program writes only to
      data of blocks it holds. */
  method Step(h: Heap, held: seq<int>, c: Call) returns (held': seq<int>, end: End)
    requires h.Valid() && Holds(h.Used().Keys, held) && Sensible(c)
    modifies h
    ensures h.Valid() && Effect(c, held, old(h.Used()), h.Used())
    ensures end != Exits ==> Holds(h.Used().Keys, held')
    ensures end == Exits <==> c.Release? && c.j < |held| && held[c.j] + 1 == |old(h.m)|
    ensures end == Exits ==> held[c.j] in old(h.Used()) && old(h.Used())[held[c.j]] == []
    ensures end == Wild ==> c.Alloc? && Amount(c.size) <= 0
  {
    hide Heap.Valid, Heap.Used, FirstFit, Fits, Amount, Rounded, Holds, Without;
    held', end := held, Fine;
    match c {
      case Alloc(size, room, junk) =>
        var grow := room && (Amount(size) <= 0 || h.base + MBLOCKSIZE * (|h.m| + Units(size)) < TWO32);
        ghost var u := h.Used();
        var p, wild := h.Malloc(size, grow, junk);
        if wild {
          end := Wild;
        } else if p != 0 {
          held' := held + [h.UnitOf(p)];
          HoldsMore(u.Keys, held, h.UnitOf(p));
          assert h.Used().Keys == u.Keys + {h.UnitOf(p)};
        }
      case Release(j) =>
        if j < |held| {
          HoldsLess(h.Used().Keys, held, j);
          Pointer(h, held[j]);
          InRange(h, held[j]);
          ghost var u := h.Used();
          var ok := h.Free(h.base + MBLOCKSIZE * (held[j] + 1));
          if ok {
            held' := Without(held, j);
            assert h.Used().Keys == u.Keys - {held[j]};
          } else {
            end := Exits;
          }
        }
      case Store(j, off, x) =>
        if j < |held| {
          HoldsLess(h.Used().Keys, held, j);
          Pointer(h, held[j]);
          ghost var u := h.Used();
          if off < h.m[held[j]].next - 1 {
            h.Write(held[j], off, x);
            assert h.Used().Keys == u.Keys;
          }
        }
    }
  }

  /** Every block in use has data. */
  ghost predicate AllData(u: map<int, seq<Unit>>) {
    forall k :: k in u ==> u[k] != []
  }

  lemma StaysData(c: Call, held: seq<int>, u: map<int, seq<Unit>>, u': map<int, seq<Unit>>)
    requires Effect(c, held, u, u') && AllData(u) && (c.Alloc? ==> 1 <= c.size <= 0x7fff_fff0)
    ensures AllData(u')
  {
  }

  /** The program gives back all it holds: afterwards one free block spans the heap. */
  method ReleaseAll(h: Heap, held: seq<int>)
    requires h.Valid() && Holds(h.Used().Keys, held) && AllData(h.Used()) && h.m != []
    modifies h
    ensures h.Valid() && h.Used() == map[] && |h.m| == old(|h.m|)
    ensures h.st == [0, |h.m|] && !h.m[0].inuse && h.m[0].next == |h.m|
  {
    hide Heap.Valid, Heap.Used, Without;
    var rest := held;
    while rest != []
      invariant h.Valid() && Holds(h.Used().Keys, rest) && AllData(h.Used()) && |h.m| == old(|h.m|)
      decreases |rest|
    {
      HoldsLess(h.Used().Keys, rest, 0);
      Pointer(h, rest[0]);
      InRange(h, rest[0]);
      ghost var u := h.Used();
      var ok := h.Free(h.base + MBLOCKSIZE * (rest[0] + 1));
      assert h.Used().Keys == u.Keys - {rest[0]};
      rest := Without(rest, 0);
    }
    HoldsNone(h.Used().Keys, rest);
    AllReturned(h);
  }

  /** Every run of requests, from an empty heap, keeps the heap well-formed, and the blocks in use are
      those that the program holds.  No check fails and nothing is overrun in a run that asks only
      for sizes from 1 to 2^31 - 16. */
  method Run(h: Heap, calls: seq<Call>) returns (held: seq<int>, end: End)
    requires h.Valid() && h.Used() == map[] && forall i :: 0 <= i < |calls| ==> Sensible(calls[i])
    modifies h
    ensures h.Valid() && (end == Fine ==> Holds(h.Used().Keys, held))
    ensures (forall i :: 0 <= i < |calls| && calls[i].Alloc? ==> 1 <= calls[i].size <= 0x7fff_fff0) ==>
              end == Fine && AllData(h.Used())
  {
    hide Heap.Valid, Heap.Used, Amount, Rounded;
    held, end := [], Fine;
    ghost var sound := forall i :: 0 <= i < |calls| && calls[i].Alloc? ==> 1 <= calls[i].size <= 0x7fff_fff0;
    for i := 0 to |calls|
      invariant h.Valid() && end == Fine && Holds(h.Used().Keys, held)
      invariant sound ==> AllData(h.Used())
    {
      if calls[i].Alloc? {
        AmountGrows(calls[i].size);
      }
      ghost var held0, u := held, h.Used();
      held, end := Step(h, held, calls[i]);
      if sound {
        StaysData(calls[i], held0, u, h.Used());
      }
      if end != Fine {
        return;
      }
    }
  }
}
