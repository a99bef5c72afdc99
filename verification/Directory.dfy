/** The entries of an SFS directory as a finite map from names to inode numbers. */
module Directory {
  import opened Bytes
  import opened SfsFormat
  import opened Uios

  /** Directory slot k of the bytes r. */
  ghost function Slot(r: seq<Byte>, k: int): Dirent
    requires |r| == MAXBYTES && 0 <= k && DIRENTSIZE * k + DIRENTSIZE <= MAXBYTES
  {
    DecodeDirent(r[DIRENTSIZE * k..DIRENTSIZE * k + DIRENTSIZE])
  }

  ghost function Slots(r: seq<Byte>, n: int): (s: seq<Dirent>)
    requires |r| == MAXBYTES && 0 <= n && DIRENTSIZE * n <= MAXBYTES
    ensures |s| == n
  {
    seq(n, k requires 0 <= k < n => Slot(r, k))
  }

  /** No name is entered twice. */
  ghost predicate Unique(s: seq<Dirent>) {
    forall i, j :: 0 <= i < j < |s| && s[i].ino != NOINO && s[j].ino != NOINO ==> s[i].name != s[j].name
  }

  ghost function Names(s: seq<Dirent>): map<Name, int>
    requires Unique(s)
  {
    map k | 0 <= k < |s| && s[k].ino != NOINO :: s[k].name := s[k].ino
  }

  ghost function Inos(s: seq<Dirent>): (t: seq<int>)
    ensures |t| == |s|
  {
    seq(|s|, k requires 0 <= k < |s| => s[k].ino)
  }

  /** How many entries name inode ino. */
  ghost function LinkCount(s: seq<Dirent>, ino: int): nat {
    multiset(Inos(s))[ino]
  }

  // ---- writing one slot ----

  /** The entry e stored in slot k, which may be the one past the end. */
  ghost function Put(s: seq<Dirent>, k: int, e: Dirent): seq<Dirent>
    requires 0 <= k <= |s|
  {
    if k < |s| then s[k := e] else s + [e]
  }

  lemma OverlayElsewhere(r: seq<Byte>, off: int, d: seq<Byte>, lo: int, hi: int)
    requires 0 <= off && off + |d| <= |r| && 0 <= lo <= hi <= |r| && (hi <= off || off + |d| <= lo)
    ensures Overlay(r, off, d)[lo..hi] == r[lo..hi]
  {
  }

  lemma SlotsPut(r: seq<Byte>, n: int, k: int, d: seq<Byte>)
    requires |r| == MAXBYTES && 0 <= k <= n && |d| == DIRENTSIZE
    requires DIRENTSIZE * n <= MAXBYTES && DIRENTSIZE * k + DIRENTSIZE <= MAXBYTES
    ensures var r' := Overlay(r, DIRENTSIZE * k, d);
            Slots(r', if k < n then n else n + 1) == Put(Slots(r, n), k, DecodeDirent(d))
  {
    hide DecodeDirent;
    var r' := Overlay(r, DIRENTSIZE * k, d);
    var m := if k < n then n else n + 1;
    forall i | 0 <= i < m
      ensures Slots(r', m)[i] == Put(Slots(r, n), k, DecodeDirent(d))[i]
    {
      if i == k {
        assert r'[DIRENTSIZE * k..DIRENTSIZE * k + DIRENTSIZE] == d;
      } else {
        OverlayElsewhere(r, DIRENTSIZE * k, d, DIRENTSIZE * i, DIRENTSIZE * i + DIRENTSIZE);
      }
    }
  }

  lemma LinkCountPut(s: seq<Dirent>, k: int, e: Dirent, ino: int)
    requires 0 <= k <= |s|
    ensures LinkCount(Put(s, k, e), ino) ==
            LinkCount(s, ino) - (if k < |s| && s[k].ino == ino then 1 else 0) + (if e.ino == ino then 1 else 0)
  {
    if k < |s| {
      assert Inos(Put(s, k, e)) == Inos(s)[k := e.ino];
    } else {
      assert Inos(Put(s, k, e)) == Inos(s) + [e.ino];
    }
  }

  lemma LinkCountBound(s: seq<Dirent>, ino: int)
    ensures LinkCount(s, ino) <= |s|
  {
    assert |multiset(Inos(s))| == |s|;
  }

  lemma Linked(s: seq<Dirent>, k: int)
    requires 0 <= k < |s|
    ensures LinkCount(s, s[k].ino) > 0
  {
    assert Inos(s)[k] == s[k].ino;
  }

  lemma LinkedBy(s: seq<Dirent>, ino: int) returns (k: int)
    requires LinkCount(s, ino) > 0
    ensures 0 <= k < |s| && s[k].ino == ino
  {
    assert ino in multiset(Inos(s));
    k :| 0 <= k < |s| && Inos(s)[k] == ino;
  }

  lemma NameAt(s: seq<Dirent>, k: int)
    requires Unique(s) && 0 <= k < |s| && s[k].ino != NOINO
    ensures s[k].name in Names(s) && Names(s)[s[k].name] == s[k].ino
  {
  }

  lemma SlotOf(s: seq<Dirent>, x: Name) returns (k: int)
    requires Unique(s) && x in Names(s)
    ensures 0 <= k < |s| && s[k].name == x && s[k].ino == Names(s)[x] != NOINO
  {
    k :| 0 <= k < |s| && s[k].ino != NOINO && s[k].name == x;
  }

  lemma UniqueAdd(s: seq<Dirent>, k: int, e: Dirent)
    requires Unique(s) && 0 <= k <= |s| && (k < |s| ==> s[k].ino == NOINO)
    requires e.ino != NOINO && e.name !in Names(s)
    ensures Unique(Put(s, k, e))
  {
    var s' := Put(s, k, e);
    forall i, j | 0 <= i < j < |s'| && s'[i].ino != NOINO && s'[j].ino != NOINO
      ensures s'[i].name != s'[j].name
    {
      if i != k {
        NameAt(s, i);
      }
      if j != k {
        NameAt(s, j);
      }
    }
  }

  /** A new name in a free slot. */
  lemma NamesAdd(s: seq<Dirent>, k: int, e: Dirent)
    requires Unique(s) && 0 <= k <= |s| && (k < |s| ==> s[k].ino == NOINO)
    requires e.ino != NOINO && e.name !in Names(s)
    ensures Unique(Put(s, k, e)) && Names(Put(s, k, e)) == Names(s)[e.name := e.ino]
  {
    hide Names, Unique;
    var s' := Put(s, k, e);
    UniqueAdd(s, k, e);
    var m, m' := Names(s), Names(s');
    NameAt(s', k);
    forall x | x in m
      ensures x in m' && m'[x] == m[x]
    {
      var i := SlotOf(s, x);
      NameAt(s', i);
    }
    forall x | x in m' && x != e.name
      ensures x in m
    {
      var i := SlotOf(s', x);
      NameAt(s, i);
    }
  }

  /** A slot is freed. */
  lemma NamesRemove(s: seq<Dirent>, k: int, e: Dirent)
    requires Unique(s) && 0 <= k < |s| && s[k].ino != NOINO && e.ino == NOINO
    ensures Unique(s[k := e]) && Names(s[k := e]) == Names(s) - {s[k].name}
  {
    hide Names;
    var s' := s[k := e];
    var m, m' := Names(s), Names(s');
    forall x | x in m && x != s[k].name
      ensures x in m' && m'[x] == m[x]
    {
      var i := SlotOf(s, x);
      NameAt(s', i);
    }
    forall x | x in m'
      ensures x in m && x != s[k].name
    {
      var i := SlotOf(s', x);
      NameAt(s, i);
    }
  }

  // ---- counting names ----

  ghost function NamesOf(names: map<Name, int>, ino: int): set<Name> {
    set n | n in names && names[n] == ino
  }

  lemma MoreNames(names: map<Name, int>, n: Name, i: int, ino: int)
    requires n !in names
    ensures |NamesOf(names[n := i], ino)| == |NamesOf(names, ino)| + if i == ino then 1 else 0
  {
    if i == ino {
      assert NamesOf(names[n := i], ino) == NamesOf(names, ino) + {n};
    } else {
      assert NamesOf(names[n := i], ino) == NamesOf(names, ino);
    }
  }

  lemma UniqueInit(s: seq<Dirent>, t: seq<Dirent>)
    requires Unique(s) && t <= s
    ensures Unique(t)
  {
  }

  lemma LastIsNew(t: seq<Dirent>, s: seq<Dirent>, d: Dirent)
    requires s == t + [d] && Unique(s) && d.ino != NOINO && Unique(t)
    ensures d.name !in Names(t)
  {
    forall i | 0 <= i < |t| && t[i].ino != NOINO
      ensures t[i].name != d.name
    {
      assert s[i] == t[i] && s[|t|] == d;
    }
  }

  lemma SameNames(t: seq<Dirent>, s: seq<Dirent>, d: Dirent)
    requires s == t + [d] && Unique(s) && d.ino == NOINO && Unique(t)
    ensures Names(s) == Names(t)
  {
    hide Names, Unique;
    forall x | x in Names(s)
      ensures x in Names(t) && Names(t)[x] == Names(s)[x]
    {
      var i := SlotOf(s, x);
      NameAt(t, i);
    }
    forall x | x in Names(t)
      ensures x in Names(s)
    {
      var i := SlotOf(t, x);
      NameAt(s, i);
    }
  }

  /** The number of entries that name an inode is the number of its names. */
  lemma {:induction false} CountNames(s: seq<Dirent>, ino: int)
    requires Unique(s) && ino != NOINO
    ensures LinkCount(s, ino) == |NamesOf(Names(s), ino)|
  {
    hide Unique;
    if s == [] {
      assert Inos(s) == [];
      assert NamesOf(Names(s), ino) == {};
    } else {
      hide Names, LinkCount;
      var k := |s| - 1;
      var t, d := s[..k], s[k];
      assert s == t + [d];
      UniqueInit(s, t);
      CountNames(t, ino);
      LinkCountPut(t, k, d, ino);
      if d.ino == NOINO {
        SameNames(t, s, d);
      } else {
        LastIsNew(t, s, d);
        NamesAdd(t, k, d);
        MoreNames(Names(t), d.name, d.ino, ino);
      }
    }
  }
}
