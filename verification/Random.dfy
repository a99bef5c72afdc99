/** The random number generator of lib/libc/random.c. */
module Random {
  import opened Basics

  const MAX_TYPES := 5
  const TWO31 := 0x8000_0000

  function Deg(kind: int): (d: int)
    ensures 0 <= d <= 63
  {
    if 0 <= kind < MAX_TYPES then [0, 7, 15, 31, 63][kind] else 0
  }

  function Sep(kind: int): int {
    if 0 <= kind < MAX_TYPES then [0, 3, 1, 3, 1][kind] else 0
  }

  /** How many words of state a generator uses. */
  function Words(kind: int): (n: int)
    ensures 1 <= n <= 63
  {
    if 0 < kind < MAX_TYPES then Deg(kind) else 1
  }

  // ---- a generator as a value ----

  /** r is the index of the rear pointer. */
  datatype Gen = Gen(kind: int, tab: seq<int>, r: int)

  predicate GenOk(g: Gen) {
    && 0 <= g.kind < MAX_TYPES && |g.tab| == Words(g.kind) && (if g.kind == 0 then g.r == 0 else 0 <= g.r < Deg(g.kind))
    && forall k :: 0 <= k < |g.tab| ==> 0 <= g.tab[k] < TWO32
  }

  /** The front pointer is always this far ahead of the rear one, around the table. */
  function Front(kind: int, r: int): int
    requires 0 < kind < MAX_TYPES
  {
    (r + Sep(kind)) % Deg(kind)
  }

  /** The next place around the table. */
  function Onward(kind: int, p: int): int {
    if p + 1 == Deg(kind) then 0 else p + 1
  }

  function Congruential(x: int): int {
    (x * 1103515245 + 12345) % TWO31
  }

  function Step(g: Gen): (g': Gen)
    requires GenOk(g)
    ensures GenOk(g')
  {
    if g.kind == 0 then g.(tab := [Congruential(g.tab[0])])
    else
      var f := Front(g.kind, g.r);
      Gen(g.kind, g.tab[f := (g.tab[f] + g.tab[g.r]) % TWO32], Onward(g.kind, g.r))
  }

  /** The number that a step yields. */
  function Yield(g: Gen): (x: int)
    requires GenOk(g)
    ensures 0 <= x < TWO31
  {
    if g.kind == 0 then Congruential(g.tab[0])
    else
      var f := Front(g.kind, g.r);
      (g.tab[f] + g.tab[g.r]) % TWO32 / 2
  }

  function Steps(g: Gen, n: nat): (g': Gen)
    requires GenOk(g)
    ensures GenOk(g') && g'.kind == g.kind
  {
    if n == 0 then g else Step(Steps(g, n - 1))
  }

  lemma StepRear(g: Gen)
    requires GenOk(g) && g.kind > 0
    ensures Step(g).r == Onward(g.kind, g.r)
  {
  }

  /** After n steps the rear pointer is n places on, having gone q times around. */
  lemma {:induction false} RearAfter(g: Gen, n: nat) returns (q: nat)
    requires GenOk(g) && g.kind > 0
    ensures g.r + n == q * Deg(g.kind) + Steps(g, n).r
  {
    hide Step, GenOk, Deg;
    if n == 0 {
      q := 0;
    } else {
      q := RearAfter(g, n - 1);
      var h := Steps(g, n - 1);
      assert Step(h).r == Onward(h.kind, h.r) by { StepRear(h); }
      if h.r + 1 == Deg(g.kind) {
        assert (q + 1) * Deg(g.kind) == q * Deg(g.kind) + Deg(g.kind);
        q := q + 1;
      }
    }
  }

  /** The first words after seeding with x. */
  function Seeds(x: int, n: nat): (s: seq<int>)
    requires 0 <= x < TWO32
    ensures |s| == n && forall k :: 0 <= k < n ==> 0 <= s[k] < TWO32
  {
    if n == 0 then [] else if n == 1 then [x]
    else var s := Seeds(x, n - 1); s + [(1103515245 * s[n - 2] + 12345) % TWO32]
  }

  /** s starts with x, and each word is the linear congruential successor of the one before. */
  ghost predicate SeedWords(s: seq<int>, x: int) {
    (|s| > 0 ==> s[0] == x) && forall i :: 0 < i < |s| ==> s[i] == (1103515245 * s[i - 1] + 12345) % 0x1_0000_0000
  }

  lemma {:induction false} SeedsMean(x: int, n: nat)
    requires 0 <= x < TWO32
    ensures SeedWords(Seeds(x, n), x)
  {
    if n > 0 {
      SeedsMean(x, n - 1);
    }
  }

  lemma {:induction false} OneSeeding(s: seq<int>, t: seq<int>, x: int, n: nat)
    requires SeedWords(s, x) && SeedWords(t, x) && n <= |s| == |t|
    ensures s[..n] == t[..n]
  {
    if n > 1 {
      OneSeeding(s, t, x, n - 1);
      assert s[n - 2] == s[..n - 1][n - 2] == t[..n - 1][n - 2] == t[n - 2];
      assert s[n - 1] == (1103515245 * s[n - 2] + 12345) % 0x1_0000_0000;
      assert t[n - 1] == (1103515245 * t[n - 2] + 12345) % 0x1_0000_0000;
      assert s[..n] == s[..n - 1] + [s[n - 1]] && t[..n] == t[..n - 1] + [t[n - 1]];
    }
  }

  /** A generator just seeded: the table has been run over ten times. */
  function Seeded(kind: int, x: int): (g: Gen)
    requires 0 <= kind < MAX_TYPES && 0 <= x < TWO32
    ensures GenOk(g)
  {
    if kind == 0 then Gen(0, [x], 0) else Steps(Gen(kind, Seeds(x, Deg(kind)), 0), 10 * Deg(kind))
  }

  /** A seeded generator is one whose table held such words, ten times as many steps on as it has
      words. */
  lemma SeededMeans(kind: int, x: int, s: seq<int>)
    requires 0 < kind < MAX_TYPES && 0 <= x < TWO32 && |s| == Deg(kind) && SeedWords(s, x)
    ensures GenOk(Gen(kind, s, 0)) && Seeded(kind, x) == Steps(Gen(kind, s, 0), 10 * Deg(kind))
  {
    hide Steps;
    var t := Seeds(x, Deg(kind));
    SeedsMean(x, Deg(kind));
    OneSeeding(s, t, x, Deg(kind));
    assert s[..Deg(kind)] == s && t[..Deg(kind)] == t;
  }

  lemma SeedsOk(kind: int, x: int)
    requires 0 <= kind < MAX_TYPES && 0 <= x < TWO32
    ensures kind == 0 ==> Seeded(kind, x) == Gen(0, [x], 0)
    ensures kind > 0 ==>
      var g := Gen(kind, Seeds(x, Deg(kind)), 0);
      GenOk(g) && Front(kind, 0) == Sep(kind) && Seeded(kind, x) == Steps(g, 10 * Deg(kind))
  {
    hide Steps, Seeds;
  }

  lemma TenTimes(kind: int, q: nat, r: int)
    requires 0 < kind < MAX_TYPES && 0 <= r < Deg(kind) && 10 * Deg(kind) == q * Deg(kind) + r
    ensures r == 0
  {
    if kind == 1 {
      assert 70 == q * 7 + r;
    } else if kind == 2 {
      assert 150 == q * 15 + r;
    } else if kind == 3 {
      assert 310 == q * 31 + r;
    } else {
      assert 630 == q * 63 + r;
    }
  }

  /** Seeding leaves the rear pointer where it began. */
  lemma SeededRear(kind: int, x: int)
    requires 0 <= kind < MAX_TYPES && 0 <= x < TWO32
    ensures Seeded(kind, x).r == 0
  {
    if kind > 0 {
      var g := Gen(kind, Seeds(x, Deg(kind)), 0);
      var q := RearAfter(g, 10 * Deg(kind));
      TenTimes(kind, q, Steps(g, 10 * Deg(kind)).r);
    }
  }

  /** Both pointers wrap at the end of the table, but never on the same call. */
  lemma NeverBothWrap(kind: int, r: int)
    requires 0 < kind < MAX_TYPES && 0 <= r < Deg(kind)
    ensures var f := Front(kind, r);
            && !(f + 1 == Deg(kind) && r + 1 == Deg(kind))
            && Front(kind, Onward(kind, r)) == Onward(kind, f)
  {
  }

  // ---- the word in front of the table ----

  function Pack(kind: int, r: int): int {
    if kind == 0 then 0 else MAX_TYPES * r + kind
  }

  function Unpack(a: seq<int>): Gen
    requires a != []
  {
    var kind := a[0] % MAX_TYPES;
    Gen(kind, if 1 + Words(kind) <= |a| then a[1..1 + Words(kind)] else [], if kind == 0 then 0 else a[0] / MAX_TYPES)
  }

  lemma PackUnpack(g: Gen, a: seq<int>)
    requires GenOk(g) && |a| > Words(g.kind) && a[0] == Pack(g.kind, g.r) && a[1..1 + Words(g.kind)] == g.tab
    ensures Unpack(a) == g
  {
  }

  /** The generator that fits in n bytes; n is at least 8. */
  function KindFor(n: int): int {
    if n < 32 then 0 else if n < 64 then 1 else if n < 128 then 2 else if n < 256 then 3 else 4
  }

  /** The generator chosen is the one with the most words that fit, besides the word in front. */
  lemma LargestKind(n: int)
    requires n >= 8
    ensures 0 <= KindFor(n) < MAX_TYPES && 4 * (1 + Words(KindFor(n))) <= n
    ensures forall k :: KindFor(n) < k < MAX_TYPES ==> 4 * (1 + Words(k)) > n
  {
  }

  /** Array a holds a state of some kind. */
  ghost predicate Saved(a: seq<int>) {
    a != [] && GenOk(Unpack(a))
  }

  lemma SavedRear(a: seq<int>)
    requires a != []
    ensures Unpack(a).kind == a[0] % MAX_TYPES && (a[0] % MAX_TYPES > 0 ==> Unpack(a).r == a[0] / MAX_TYPES)
  {
  }

  lemma Division(n: nat, d: int)
    requires 0 < d
    ensures n == (n / d) * d + n % d && 0 <= n % d < d
  {
  }

  lemma Products(a: int, b: int, d: int)
    requires 0 < d
    ensures a < b ==> a * d + d <= b * d
    ensures a == b ==> a * d == b * d
  {
    if a < b {
      assert b * d == (a + 1) * d + (b - a - 1) * d;
    }
  }

  lemma Around(n: nat, q: nat, d: int, r: int, r': int)
    requires 0 <= r < d && 0 <= r' < d && r + n == q * d + r'
    ensures r' == r <==> n % d == 0
  {
    var m, e := n / d, n % d;
    Division(n, d);
    Products(m, q, d);
    Products(q, m, d);
  }

  /** The rear pointer is back where it was exactly after a multiple of the degree. */
  lemma BackAgain(g: Gen, n: nat, q: nat)
    requires GenOk(g) && g.kind > 0 && g.r + n == q * Deg(g.kind) + Steps(g, n).r
    ensures Steps(g, n).r == g.r <==> n % Deg(g.kind) == 0
  {
    hide Steps, Step;
    Around(n, q, Deg(g.kind), g.r, Steps(g, n).r);
  }

  // ---- the numbers as a sequence ----

  function Spot(g: Gen): (p: int)
    requires GenOk(g) && g.kind > 0
    ensures 0 <= p < Deg(g.kind) == |g.tab|
  {
    Front(g.kind, g.r)
  }

  /** What the next step stores in the table, and where. */
  function Sum(g: Gen): int
    requires GenOk(g) && g.kind > 0
  {
    (g.tab[Spot(g)] + g.tab[g.r]) % TWO32
  }

  lemma {:induction false} StepsTwice(g: Gen, m: nat, n: nat)
    requires GenOk(g)
    ensures Steps(Steps(g, m), n) == Steps(g, m + n)
  {
    hide Step, GenOk;
    if n > 0 {
      StepsTwice(g, m, n - 1);
    }
  }

  lemma OneFront(kind: int, r: int)
    requires 0 < kind < MAX_TYPES && 0 <= r < Deg(kind)
    ensures Front(kind, r) == if r + Sep(kind) < Deg(kind) then r + Sep(kind) else r + Sep(kind) - Deg(kind)
  {
  }

  lemma OtherSpot(kind: int, r: int, r': int)
    requires 0 < kind < MAX_TYPES && 0 <= r < Deg(kind) && 0 <= r' < Deg(kind) && r != r'
    ensures Front(kind, r) != Front(kind, r')
  {
    hide Front;
    OneFront(kind, r);
    OneFront(kind, r');
  }

  lemma OneStored(g: Gen, p: int)
    requires GenOk(g) && g.kind > 0 && 0 <= p < Deg(g.kind)
    ensures |Step(g).tab| == Deg(g.kind) && Step(g).tab[p] == if p == Spot(g) then Sum(g) else g.tab[p]
  {
  }

  lemma SmallRest(j: nat, d: int)
    requires 0 < j < d
    ensures j % d != 0
  {
  }

  lemma WholeRest(d: int)
    requires 0 < d
    ensures d % d == 0
  {
  }

  lemma RearIn(g: Gen)
    requires GenOk(g) && g.kind > 0
    ensures 0 <= g.r < Deg(g.kind) && g.kind < MAX_TYPES
  {
  }

  lemma OnwardSep(kind: int, r: int)
    requires 0 < kind < MAX_TYPES && 0 <= r < Deg(kind)
    ensures Front(kind, r) ==
      if Sep(kind) == 1 then Onward(kind, r) else Onward(kind, Onward(kind, Onward(kind, r)))
    ensures Sep(kind) == 1 || Sep(kind) == 3
  {
  }

  lemma RearSteps(g: Gen)
    requires GenOk(g) && g.kind > 0
    ensures Steps(g, 1).r == Onward(g.kind, g.r)
    ensures Steps(g, 3).r == Onward(g.kind, Onward(g.kind, Onward(g.kind, g.r)))
  {
    hide Step, GenOk, Onward;
    assert Steps(g, 1) == Step(Steps(g, 0)) && Steps(g, 2) == Step(Steps(g, 1)) && Steps(g, 3) == Step(Steps(g, 2));
    StepRear(g);
    StepRear(Steps(g, 1));
    StepRear(Steps(g, 2));
  }

  /** Between two visits the front pointer is elsewhere. */
  lemma Elsewhere(g: Gen, j: nat)
    requires GenOk(g) && g.kind > 0 && 0 < j < Deg(g.kind)
    ensures Steps(g, j).kind == g.kind && GenOk(Steps(g, j)) && Spot(Steps(g, j)) != Spot(g)
  {
    hide Steps, Step, Front, Deg, GenOk;
    var q := RearAfter(g, j);
    BackAgain(g, j, q);
    SmallRest(j, Deg(g.kind));
    RearIn(g);
    RearIn(Steps(g, j));
    OtherSpot(g.kind, g.r, Steps(g, j).r);
  }

  /** What the next step stores stays in its place until the table has been gone around. */
  lemma {:induction false} Stays(g: Gen, j: nat)
    requires GenOk(g) && g.kind > 0 && 1 <= j <= Deg(g.kind)
    ensures |Steps(g, j).tab| == Deg(g.kind) && Steps(g, j).tab[Spot(g)] == Sum(g)
  {
    hide Step, Front, Deg, Sum, GenOk;
    var h := Steps(g, j - 1);
    assert Steps(g, j) == Step(h);
    if j > 1 {
      Stays(g, j - 1);
      Elsewhere(g, j - 1);
    } else {
      assert h == g;
    }
    OneStored(h, Spot(g));
  }

  /** The rear pointer comes to where the front pointer is after as many steps as they are apart. */
  lemma RearMeets(g: Gen)
    requires GenOk(g) && g.kind > 0
    ensures Steps(g, Sep(g.kind)).r == Spot(g)
  {
    hide Steps, Step, GenOk, Onward, Deg, Sep, Front;
    RearIn(g);
    RearSteps(g);
    OnwardSep(g.kind, g.r);
  }

  lemma RoundAgain(g: Gen)
    requires GenOk(g) && g.kind > 0
    ensures Steps(g, Deg(g.kind)).r == g.r
  {
    hide Steps, Step, Deg, GenOk;
    RearIn(g);
    WholeRest(Deg(g.kind));
    var q := RearAfter(g, Deg(g.kind));
    BackAgain(g, Deg(g.kind), q);
  }

  lemma YieldsSum(g: Gen)
    requires GenOk(g) && g.kind > 0
    ensures Yield(g) == Sum(g) / 2
  {
  }

  lemma SumLater(g: Gen, h: Gen, m: Gen, d: int, s: int)
    requires GenOk(g) && g.kind > 0 && d == Deg(g.kind) && s == Sep(g.kind) && 1 <= s <= d
    requires h == Steps(g, d) && m == Steps(g, d - s)
    ensures h.kind == g.kind && GenOk(h) && m.kind == g.kind && GenOk(m) && Sum(h) == (Sum(g) + Sum(m)) % TWO32
  {
    hide GenOk, Step, Steps, Deg, Sep, Front;
    StepsTwice(g, d - s, s);
    Stays(g, d);
    RoundAgain(g);
    assert Spot(h) == Spot(g);
    RearMeets(m);
    Stays(m, s);
    assert h.tab[Spot(h)] == Sum(g) && h.tab[h.r] == Sum(m);
  }

  /** The numbers obey the rule of the trinomial: with degree d and separation s, the number stored d
      steps on is the sum of the one stored now and the one stored d - s steps on.  A step yields its
      number without the lowest bit. */
  lemma Trinomial(g: Gen, d: int, s: int)
    requires GenOk(g) && (g.kind, d, s) in {(1, 7, 3), (2, 15, 1), (3, 31, 3), (4, 63, 1)}
    ensures Steps(g, d).kind == Steps(g, d - s).kind == g.kind
    ensures Sum(Steps(g, d)) == (Sum(g) + Sum(Steps(g, d - s))) % TWO32
    ensures Yield(g) == Sum(g) / 2
  {
    hide GenOk, Step, Steps, Front, Yield;
    assert Deg(g.kind) == d && Sep(g.kind) == s;
    hide Deg, Sep;
    YieldsSum(g);
    SumLater(g, Steps(g, d), Steps(g, d - s), d, s);
  }

  lemma SavedWords(a: seq<int>)
    requires Saved(a)
    ensures |a| > Words(a[0] % MAX_TYPES) && GenOk(Unpack(a))
  {
  }

  /** A good word in the table keeps a saved state well-formed. */
  lemma StillSaved(a: seq<int>, b: seq<int>, p: int, v: int)
    requires Saved(a) && 1 <= p < |a| && b == a[p := v] && 0 <= v < TWO32
    ensures Saved(b)
  {
    var g, h := Unpack(a), Unpack(b);
    forall k | 0 <= k < |h.tab|
      ensures 0 <= h.tab[k] < TWO32
    {
      assert h.tab[k] == b[1 + k] && g.tab[k] == a[1 + k];
    }
  }

  /** One step on the words of an array: what is stored, yielded, and where the pointers go. */
  lemma TableStep(a: seq<int>, g: Gen)
    requires GenOk(g) && 0 < g.kind && |a| > Words(g.kind) && g.tab == a[1..1 + Words(g.kind)]
    ensures var f, r, d := Front(g.kind, g.r), g.r, Deg(g.kind);
      && 0 <= f < d && 0 <= r < d && d == Words(g.kind) && !(f + 1 == d && r + 1 == d)
      && var v := (a[1 + f] + a[1 + r]) % TWO32;
      && Yield(g) == v / 2 && Step(g) == Gen(g.kind, a[1 + f := v][1..1 + Words(g.kind)], Onward(g.kind, r))
      && (Saved(a) ==> Saved(a[1 + f := v])) && Front(g.kind, Onward(g.kind, r)) == Onward(g.kind, f)
  {
    hide Saved;
    NeverBothWrap(g.kind, g.r);
    var f := Front(g.kind, g.r);
    hide Front;
    var v := (a[1 + f] + a[1 + g.r]) % TWO32;
    assert g.tab[f] == a[1 + f] && g.tab[g.r] == a[1 + g.r];
    assert a[1 + f := v][1..1 + Words(g.kind)] == g.tab[f := v];
    if Saved(a) {
      StillSaved(a, a[1 + f := v], 1 + f, v);
    }
  }

  lemma StepOk(g: Gen)
    requires GenOk(g)
    ensures GenOk(Step(g))
  {
  }

  lemma LinearStep(a: seq<int>, g: Gen)
    requires GenOk(g) && g.kind == 0 && |a| > Words(0) && g.tab == a[1..1 + Words(0)]
    ensures var i := (a[1] * 1103515245 + 12345) % TWO31;
            Yield(g) == i && Step(g) == Gen(0, a[1 := i][1..1 + Words(0)], 0) && (Saved(a) ==> Saved(a[1 := i]))
  {
    hide Saved;
    var i := (a[1] * 1103515245 + 12345) % TWO31;
    assert a[1 := i][1..2] == [i];
    if Saved(a) {
      StillSaved(a, a[1 := i], 1, i);
    }
  }

  class Rng {
    var arrs: map<int, seq<int>>      // state arrays, as words, by address
    var cur: int                      // the one in use
    var kind: int
    var deg: int
    var sep: int
    var f: int                        // fptr and rptr, as indices into the table
    var r: int
    ghost var known: set<int>         // arrays given to initstate

    ghost predicate Shape()
      reads this
    {
      cur in arrs && 0 <= kind < MAX_TYPES && |arrs[cur]| > Words(kind) && deg == Deg(kind) && sep == Sep(kind)
    }

    /** The generator in use. */
    ghost function Here(): Gen
      requires Shape()
      reads this
    {
      Gen(kind, arrs[cur][1..1 + Words(kind)], if kind == 0 then 0 else r)
    }

    /** The generator in an array: the one in use, or one put aside. */
    ghost function View(id: int): Gen
      requires Shape() && id in arrs && arrs[id] != []
      reads this
    {
      if id == cur then Here() else Unpack(arrs[id])
    }

    /** All is well, but for the word in front of the table in use. */
    ghost predicate Core()
      reads this
    {
      && Shape() && GenOk(Here()) && (kind > 0 ==> f == Front(kind, r))
      && (forall id :: id in known && id != cur ==> id in arrs && Saved(arrs[id]))
    }

    ghost predicate Valid()
      reads this
    {
      Core() && cur in known && Saved(arrs[cur]) && arrs[cur][0] % MAX_TYPES == kind
    }

    /** Only array x changed. */
    twostate predicate Others(x: int)
      reads this
    {
      arrs.Keys == old(arrs.Keys) && known == old(known) && forall id :: id in arrs && id != x ==>
        arrs[id] == old(arrs)[id]
    }

    /** In the array in use only the table changed. */
    twostate predicate Behind()
      requires old(cur in arrs && arrs[cur] != []) && cur == old(cur) && cur in arrs
      reads this
    {
      |arrs[cur]| == |old(arrs)[cur]| && arrs[cur][0] == old(arrs)[cur][0] &&
        (old(Saved(arrs[cur])) ==> Saved(arrs[cur]))
    }

    /** The tables of the source at start-up. */
    constructor (id: int, table: seq<int>)
      requires |table| == 32 && table[0] == 3 && forall k :: 0 <= k < 32 ==> 0 <= table[k] < TWO32
      ensures Valid() && cur == id && known == {id} && arrs[id] == table && Here() == Gen(3, table[1..32], 0)
    {
      arrs, cur, kind, deg, sep, f, r, known := map[id := table], id, 3, 31, 3, 3, 0, {id};
      new;
      assert Unpack(table) == Gen(3, table[1..32], 0);
    }

    /** random_unlocked */
    method RandomUnlocked() returns (i: int)
      requires Core()
      modifies this`arrs, this`f, this`r
      ensures Core() && Others(cur) && i == Yield(old(Here())) && Here() == Step(old(Here()))
      ensures Behind()
    {
      hide GenOk, Step, Yield, Front, Deg, Sep, Saved, Unpack;
      var a := arrs[cur];
      ghost var g := Here();
      StepOk(g);
      if kind == 0 {
        LinearStep(a, g);
        i := (a[1] * 1103515245 + 12345) % TWO31;
        arrs := arrs[cur := a[1 := i]];
      } else {
        TableStep(a, g);
        var v := (a[1 + f] + a[1 + r]) % TWO32;
        i := v / 2;
        arrs := arrs[cur := a[1 + f := v]];
        f := f + 1;
        r := r + 1;
        if f >= deg {
          f := 0;
        } else if r >= deg {
          r := 0;
        }
      }
      assert Here() == Step(g);
    }

    /** srandom_unlocked */
    method Srandom(x: int)
      requires Shape() && (forall id :: id in known && id != cur ==> id in arrs && Saved(arrs[id])) && 0 <= x < TWO32
      modifies this`arrs, this`f, this`r
      ensures Core() && Others(cur) && Here() == Seeded(kind, x) && (kind > 0 ==> r == 0)
      ensures Behind()
    {
      hide Saved, Steps, Seeds, GenOk, Front, Deg, Sep, Seeded;
      SeedsOk(kind, x);
      SeededRear(kind, x);
      ghost var a := arrs[cur];
      arrs := arrs[cur := arrs[cur][1 := x]];
      if Saved(a) {
        StillSaved(a, arrs[cur], 1, x);
      }
      if kind == 0 {
        assert arrs[cur][1..2] == [x];
        return;
      }
      FillTable(x);
      f, r := sep, 0;
      assert Here() == Gen(kind, Seeds(x, deg), 0);
      Stir();
    }

    /** The loop that runs over a new table ten times. */
    method Stir()
      requires Core() && kind > 0
      modifies this`arrs, this`f, this`r
      ensures Core() && Others(cur) && Here() == Steps(old(Here()), 10 * deg)
      ensures Behind()
    {
      hide GenOk, Step, Saved, Front, Deg, Sep, Words;
      for i := 0 to 10 * deg
        invariant Core() && Others(cur) && Here() == Steps(old(Here()), i)
        invariant Behind()
      {
        var y := RandomUnlocked();
      }
    }

    /** The loop that fills the table. */
    method FillTable(x: int)
      requires Shape() && kind > 0 && 0 <= x < TWO32 && arrs[cur][1] == x
      modifies this`arrs
      ensures Shape() && Others(cur) && Behind()
      ensures arrs[cur][1..1 + deg] == Seeds(x, deg)
    {
      hide Saved, Sep, Deg;
      assert arrs[cur][1..2] == Seeds(x, 1);
      hide Seeds;
      for i := 1 to deg
        invariant Shape() && Others(cur) && Behind()
        invariant arrs[cur][1..1 + i] == Seeds(x, i)
      {
        SeedWord(x, i);
      }
    }

    /** Word i of the table. */
    method SeedWord(x: int, i: int)
      requires Shape() && kind > 0 && 0 <= x < TWO32 && 1 <= i < deg && arrs[cur][1..1 + i] == Seeds(x, i)
      modifies this`arrs
      ensures Shape() && Others(cur) && Behind()
      ensures arrs[cur][1..2 + i] == Seeds(x, i + 1)
    {
      hide Saved, Sep, Deg;
      var a := arrs[cur];
      assert a[i] == a[1..1 + i][i - 1];
      var v := (1103515245 * a[i] + 12345) % TWO32;
      arrs := arrs[cur := a[1 + i := v]];
      assert arrs[cur][1..2 + i] == a[1..1 + i] + [v];
      if Saved(a) {
        StillSaved(a, arrs[cur], 1 + i, v);
      }
    }

    /** The state in use is marked with its kind and position. */
    method Save()
      requires Core() && cur in known
      modifies this`arrs
      ensures Valid() && Others(cur) && Here() == old(Here()) && Unpack(arrs[cur]) == Here() &&
        |arrs[cur]| == |old(arrs)[cur]|
      ensures arrs[cur] == old(arrs)[cur][0 := Pack(kind, r)]
    {
      ghost var g := Here();
      arrs := arrs[cur := arrs[cur][0 := if kind == 0 then kind else MAX_TYPES * r + kind]];
      assert Here() == g;
      PackUnpack(g, arrs[cur]);
    }

    /** initstate with n bytes at another array than the one in use. */
    method InitState(seed: int, id: int, n: int) returns (ok: bool)
      requires Valid() && id in arrs && id != cur && n <= 4 * |arrs[id]| && 0 <= seed < TWO32
      modifies this
      ensures Valid() && ok == (n >= 8)
      ensures ok ==> cur == id && known == old(known) + {id} && Here() == Seeded(KindFor(n), seed)
      ensures !ok ==> cur == old(cur) && known == old(known)
      ensures forall j :: j in old(known) && (ok ==> j != id) ==> j in arrs && arrs[j] != [] && View(j) == old(View(j))
    {
      hide GenOk, Seeded, Front, Unpack, Sep;
      Save();
      if n < 8 {
        return false;
      }
      Begin(seed, id, KindFor(n));
      ok := true;
    }

    /** A generator of kind k is seeded in array id, and becomes the one in use. */
    method Begin(seed: int, id: int, k: int)
      requires Valid() && id in arrs && id != cur && 0 <= k < MAX_TYPES && Words(k) < |arrs[id]| && 0 <= seed < TWO32
      modifies this
      ensures Valid() && cur == id && known == old(known) + {id} && Here() == Seeded(k, seed)
      ensures arrs.Keys == old(arrs.Keys) && forall j :: j in arrs && j != id ==> arrs[j] == old(arrs)[j]
    {
      hide GenOk, Seeded, Saved, Front, Pack, Unpack;
      kind, deg, sep, cur := k, Deg(k), Sep(k), id;
      known := known + {id};
      Srandom(seed);
      SeededRear(kind, seed);
      Save();
    }

    /** setstate.  With another array than the one in use it changes no generator, so each goes on
        where it was left; with the one in use that is so exactly if its first word is up to date. */
    method SetState(id: int)
      requires Valid() && id in known
      modifies this
      ensures Valid() && cur == id && known == old(known) && kind == old(arrs)[id][0] % MAX_TYPES
      ensures forall j :: j in known && j != old(cur) ==> View(j) == old(View(j))
      ensures id != old(cur) ==> View(old(cur)) == old(Here())
      ensures id == old(cur) ==> (Here() == old(Here()) <==> kind == 0 || old(arrs)[id][0] / MAX_TYPES == old(r))
    {
      hide GenOk, Pack;
      var type_, rear := arrs[id][0] % MAX_TYPES, arrs[id][0] / MAX_TYPES;
      ghost var a := arrs[id];
      assert GenOk(Unpack(a)) && |a| > Words(type_) by { SavedWords(a); }
      Save();
      assert arrs[id][1..1 + Words(type_)] == a[1..1 + Words(type_)];
      Load(id, type_, rear);
    }

    /** Switching to another array, drawing n numbers there, and switching back resumes the first stream. */
    method Detour(id: int, n: nat)
      requires Valid() && id in known && id != cur
      modifies this
      ensures Valid() && cur == old(cur) && Here() == old(Here()) && known == old(known)
      ensures View(id) == Steps(old(View(id)), n)
    {
      hide GenOk, Step, Front, Deg, Sep, Words, Unpack;
      var home := cur;
      ghost var g := View(id);
      SetState(id);
      for i := 0 to n
        invariant Valid() && cur == id && known == old(known) && View(home) == old(Here()) && Here() == Steps(g, i)
      {
        label L:
        var y := RandomUnlocked();
        assert arrs[home] == old@L(arrs)[home];
      }
      SetState(home);
    }

    /** From a state just saved, n numbers are drawn and then setstate is given the state in use: the
        stream goes on exactly if n is a multiple of the degree, as it always is for the linear
        generator. */
    method SameState(n: nat)
      requires Valid() && Unpack(arrs[cur]) == Here()
      modifies this
      ensures Valid() && cur == old(cur) && kind == old(kind)
      ensures Here() == Steps(old(Here()), n) <==> kind == 0 || n % Deg(kind) == 0
    {
      hide GenOk, Step, Front, Words, Unpack;
      ghost var g := Here();
      assert kind > 0 ==> g.r == arrs[cur][0] / MAX_TYPES by { SavedRear(arrs[cur]); }
      for i := 0 to n
        invariant Valid() && cur == old(cur) && kind == old(kind) && Here() == Steps(g, i) &&
          arrs[cur][0] == old(arrs)[cur][0]
      {
        var y := RandomUnlocked();
      }
      if kind > 0 {
        ghost var q := RearAfter(g, n);
        BackAgain(g, n, q);
      }
      SetState(cur);
    }

    /** The state in array id, with this kind and position, becomes the one in use. */
    method Load(id: int, type_: int, rear: int)
      requires Valid() && id in known && |arrs[id]| > Words(type_) && arrs[id][0] % MAX_TYPES == type_
      requires GenOk(Gen(type_, arrs[id][1..1 + Words(type_)], if type_ == 0 then 0 else rear))
      modifies this`kind, this`deg, this`sep, this`cur, this`r, this`f
      ensures Valid() && cur == id &&
        Here() == Gen(type_, arrs[id][1..1 + Words(type_)], if type_ == 0 then 0 else rear)
    {
      hide Saved;
      kind, deg, sep, cur := type_, Deg(type_), Sep(type_), id;
      if kind != 0 {
        r := rear;
        f := (rear + sep) % deg;
      }
    }
  }

  /** From start-up, one number and then setstate on the state in use: the stream goes back. */
  method SameStateLost(id: int, table: seq<int>) returns (rng: Rng)
    requires |table| == 32 && table[0] == 3 && forall k :: 0 <= k < 32 ==> 0 <= table[k] < TWO32
    ensures rng.Valid() && rng.cur == id && rng.Here() != Step(Gen(3, table[1..32], 0))
  {
    hide GenOk, Saved;
    rng := new Rng(id, table);
    var y := rng.RandomUnlocked();
    rng.SetState(id);
  }
}
