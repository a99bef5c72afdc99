/** The thread system as a machine whose steps are the sections of code that run with interrupts
    off: kern/thread/thread.c, kern/thread/synch.c and kern/userprog/pid_system.c, with
    sys_waitpid of kern/userprog/system_calls_PI.c. */
module Threads {
  import opened Basics

  /** struct lock; thread is lock_thread. */
  datatype Lock = Lock(count: int, thread: Option<int>)

  /** struct pid; sem is the address of parentSem. */
  datatype Pid = Pid(value: int, used: bool, ppid: int, didExit: bool, exitCode: int, thread: Option<int>, sem: int)

  /** The history of a semaphore. */
  datatype Hist = Hist(initial: int, ps: int, vs: int)

  // ---- where threads are ----

  ghost function OnCpu(cur: Option<int>, t: int): int {
    if cur == Some(t) then 1 else 0
  }

  /** A live thread is in exactly one of: running, run queue, sleepers.  A zombie is in none of
      them, and once in the zombie list. */
  ghost predicate PlacedAt(cur: Option<int>, runq: seq<int>, sleepers: seq<int>, zombies: seq<int>, live: set<int>,
    t: int) {
    && OnCpu(cur, t) + multiset(runq)[t] + multiset(sleepers)[t] == (if t in live then 1 else 0)
    && multiset(zombies)[t] <= (if t in live then 0 else 1)
  }

  ghost predicate Placed(cur: Option<int>, runq: seq<int>, sleepers: seq<int>, zombies: seq<int>, live: set<int>) {
    forall t :: PlacedAt(cur, runq, sleepers, zombies, live, t)
  }

  /** Whoever sleeps on a semaphore or a lock sleeps because its count is zero. */
  ghost predicate Waiting(sleepers: seq<int>, addr: map<int, int>, sems: map<int, int>, locks: map<int, Lock>) {
    forall t :: t in sleepers ==>
      && t in addr && (addr[t] in sems ==> sems[addr[t]] == 0) && (addr[t] in locks ==> locks[addr[t]].count == 0)
  }

  ghost predicate SemsOk(sems: map<int, int>, hist: map<int, Hist>) {
    forall s :: s in sems ==> s in hist && 0 <= sems[s] == hist[s].initial + hist[s].vs - hist[s].ps
  }

  // ---- locks and who is inside ----

  /** A lock and the threads that have acquired it and not released it since. */
  datatype Guard = Guard(lock: Lock, inside: multiset<int>)

  /** What lock_acquire does to a lock whose count is not zero. */
  function Locked(l: Lock, t: Option<int>): Lock {
    Lock(l.count - 1, t)
  }

  /** What lock_release does to a lock, without looking who calls it. */
  function Unlocked(l: Lock): Lock {
    Lock(l.count + 1, None)
  }

  /** What a thread can find out: the lock is held, and it is the thread that the lock names. */
  predicate Holds(l: Lock, t: Option<int>) {
    l.count == 0 && l.thread == t
  }

  /** The lock is free and nobody is inside, or it is held and names the one thread inside. */
  ghost predicate Exact(g: Guard) {
    if g.lock.count == 1 then g.inside == multiset{}
    else g.lock.count == 0 && g.lock.thread.Some? && g.inside == multiset{g.lock.thread.value}
  }

  /** How many threads can be inside at once. */
  ghost function Places(g: Guard): int {
    g.lock.count + |g.inside|
  }

  /** What holds of a lock whoever releases it. */
  ghost predicate Counts(g: Guard) {
    0 <= g.lock.count && 1 <= Places(g) && (Places(g) == 1 ==> Exact(g))
  }

  datatype Use = Enter(t: int) | Leave(t: int)

  /** One lock_acquire that does not have to wait, or one lock_release. */
  function After1(g: Guard, u: Use): Guard {
    match u
    case Enter(t) => if g.lock.count == 0 then g else Guard(Locked(g.lock, Some(t)), g.inside + multiset{t})
    case Leave(t) => Guard(Unlocked(g.lock), g.inside - multiset{t})
  }

  function After(g: Guard, us: seq<Use>): Guard
    decreases |us|
  {
    if us == [] then g else After(After1(g, us[0]), us[1..])
  }

  /** A release by a thread that is not inside. */
  predicate Stray(g: Guard, u: Use) {
    u.Leave? && u.t !in g.inside
  }

  function Strays(g: Guard, us: seq<Use>): nat
    decreases |us|
  {
    if us == [] then 0 else (if Stray(g, us[0]) then 1 else 0) + Strays(After1(g, us[0]), us[1..])
  }

  /** Each stray release makes room for one more thread, and nothing takes it away again. */
  lemma OneUse(g: Guard, u: Use)
    requires Counts(g)
    ensures Counts(After1(g, u)) && Places(After1(g, u)) == Places(g) + if Stray(g, u) then 1 else 0
  {
    if u.Leave? && u.t in g.inside {
      assert g.inside == (g.inside - multiset{u.t}) + multiset{u.t};
    } else if u.Leave? {
      assert g.inside - multiset{u.t} == g.inside;
    }
  }

  lemma ExactPlaces(g: Guard)
    requires Counts(g)
    ensures Exact(g) <==> Places(g) == 1
  {
  }

  /** A release keeps the lock exact if and only if the thread is inside; it can find that out from
      the lock. */
  lemma ReleaseExact(g: Guard, t: int)
    requires Exact(g)
    ensures Exact(After1(g, Leave(t))) <==> t in g.inside
    ensures t in g.inside <==> Holds(g.lock, Some(t))
  {
    OneUse(g, Leave(t));
    ExactPlaces(After1(g, Leave(t)));
  }

  /** Over any run, as many threads can be inside as there were stray releases, and one more. */
  lemma {:induction false} RunPlaces(g: Guard, us: seq<Use>)
    requires Counts(g)
    ensures Counts(After(g, us)) && Places(After(g, us)) == Places(g) + Strays(g, us)
    decreases |us|
  {
    if us != [] {
      OneUse(g, us[0]);
      RunPlaces(After1(g, us[0]), us[1..]);
    }
  }

  /** A run keeps the lock exact if and only if no release in it is stray; then at most one thread is
      inside. */
  lemma RunExact(g: Guard, us: seq<Use>)
    requires Exact(g)
    ensures Exact(After(g, us)) <==> Strays(g, us) == 0
    ensures Strays(g, us) == 0 ==> |After(g, us).inside| <= 1
  {
    RunPlaces(g, us);
    ExactPlaces(After(g, us));
  }

  /** A lock that is free and names nobody, or names the one thread inside. */
  ghost predicate Named(g: Guard) {
    Exact(g) && (g.lock.count == 1 ==> g.lock.thread == None)
  }

  lemma OneNamed(g: Guard, u: Use)
    requires Named(g) && !Stray(g, u)
    ensures Named(After1(g, u))
  {
    OneUse(g, u);
    ExactPlaces(After1(g, u));
  }

  /** From such a lock, through any run without a stray release, the lock names a thread exactly while
      that thread is inside; so after a release lock_do_i_hold is false for everyone until the next
      acquire. */
  lemma {:induction false} HoldTells(g: Guard, us: seq<Use>, t: int)
    requires Named(g) && Strays(g, us) == 0
    ensures Named(After(g, us))
    ensures After(g, us).lock.thread == Some(t) <==> t in After(g, us).inside
    decreases |us|
  {
    if us != [] {
      OneNamed(g, us[0]);
      HoldTells(After1(g, us[0]), us[1..], t);
    }
  }

  lemma TwoEnter(g: Guard, u: int, w: int)
    requires Counts(g) && Places(g) >= 2
    ensures |After(g, [Enter(u), Enter(w)]).inside| >= 2
  {
    var us := [Enter(u), Enter(w)];
    var a := After1(g, us[0]);
    assert us[1..] == [us[1]] && us[1..][1..] == [];
    assert After(g, us) == After(a, us[1..]) == After1(a, us[1]);
    OneUse(g, us[0]);
    OneUse(a, us[1]);
  }

  lemma NoStrays(g: Guard, u: int, w: int)
    ensures Strays(g, [Enter(u), Enter(w)]) == 0
  {
    var us := [Enter(u), Enter(w)];
    assert us[1..] == [us[1]] && us[1..][1..] == [];
    assert Strays(g, us) == Strays(After1(g, us[0]), us[1..]);
  }

  /** After a release by t at most one thread is ever inside, in every run without a further stray
      release, if and only if t was inside. */
  lemma ReleaseExcludes(g: Guard, t: int)
    requires Exact(g)
    ensures (forall us: seq<Use> :: Strays(After1(g, Leave(t)), us) == 0 ==>
              |After(After1(g, Leave(t)), us).inside| <= 1)
       <==> t in g.inside
  {
    var h := After1(g, Leave(t));
    OneUse(g, Leave(t));
    ReleaseExact(g, t);
    if t in g.inside {
      forall us: seq<Use> | Strays(h, us) == 0
        ensures |After(h, us).inside| <= 1
      {
        RunExact(h, us);
      }
    } else {
      var us := [Enter(1), Enter(2)];
      TwoEnter(h, 1, 2);
      NoStrays(h, 1, 2);
    }
  }

  /** Thread t acquires a free lock, u releases it, and w acquires it: t and w are inside. */
  lemma StrayRelease(t: int, u: int, w: int)
    requires t != u
    ensures After(Guard(Lock(1, None), multiset{}), [Enter(t), Leave(u), Enter(w)]).inside == multiset{t, w}
  {
    var g, us := Guard(Lock(1, None), multiset{}), [Enter(t), Leave(u), Enter(w)];
    var a := After1(g, us[0]);
    var b := After1(a, us[1]);
    assert us[1..] == [us[1], us[2]] && us[1..][1..] == [us[2]] && us[1..][1..][1..] == [];
    assert After(g, us) == After(a, us[1..]) == After(b, us[1..][1..]) == After1(b, us[2]);
    assert a.inside == multiset{t} && b.inside == multiset{t};
  }

  /** A thread that signals, which releases the lock, and then releases it, as kern/test/synchtest.c
      does at line 239: if u acquires the lock in between, u and w are both inside. */
  lemma SignalThenRelease(t: int, u: int, w: int)
    requires t != u
    ensures After(Guard(Lock(1, None), multiset{}), [Enter(t), Leave(t), Enter(u), Leave(t), Enter(w)]).inside
         == multiset{u, w}
  {
    var g, us := Guard(Lock(1, None), multiset{}), [Enter(t), Leave(t), Enter(u), Leave(t), Enter(w)];
    var b := After1(After1(g, us[0]), us[1]);
    assert us[1..][1..] == [Enter(u), Leave(t), Enter(w)];
    assert After(g, us) == After(After1(g, us[0]), us[1..]) == After(b, us[1..][1..]);
    assert b == g;
    StrayRelease(u, t, w);
  }

  /** Every lock is exact. */
  ghost predicate LocksOk(locks: map<int, Lock>, inside: map<int, multiset<int>>) {
    forall l :: l in locks ==> l in inside && Exact(Guard(locks[l], inside[l]))
  }

  /** What holds of the locks whoever releases them. */
  ghost predicate LocksCount(locks: map<int, Lock>, inside: map<int, multiset<int>>) {
    forall l :: l in locks ==> l in inside && Counts(Guard(locks[l], inside[l]))
  }

  lemma Grows(g: Guard, u: Use)
    requires Counts(g)
    ensures Exact(After1(g, u)) ==> Exact(g) && !Stray(g, u)
    ensures Exact(g) && !Stray(g, u) ==> Exact(After1(g, u))
  {
    OneUse(g, u);
    ExactPlaces(g);
    ExactPlaces(After1(g, u));
  }

  /** One use of lock l keeps all locks exact if and only if they were and it is not stray. */
  lemma UseLocks(locks: map<int, Lock>, inside: map<int, multiset<int>>, l: int, u: Use)
    requires LocksCount(locks, inside) && l in locks
    ensures var g := After1(Guard(locks[l], inside[l]), u);
            && LocksCount(locks[l := g.lock], inside[l := g.inside])
            && (LocksOk(locks[l := g.lock], inside[l := g.inside]) <==>
                LocksOk(locks, inside) && (u.Leave? ==> Holds(locks[l], Some(u.t))))
  {
    hide Counts, Places;
    var g := Guard(locks[l], inside[l]);
    var g' := After1(g, u);
    OneUse(g, u);
    ExactPlaces(g);
    ExactPlaces(g');
    Grows(g, u);
    var locks', inside' := locks[l := g'.lock], inside[l := g'.inside];
    assert Guard(locks'[l], inside'[l]) == g';
    if Exact(g) && u.Leave? {
      ReleaseExact(g, u.t);
    }
    if LocksOk(locks', inside') {
      assert Exact(g');
      forall k | k in locks && k != l
        ensures k in inside && Exact(Guard(locks[k], inside[k]))
      {
        assert k in locks' && locks'[k] == locks[k] && inside'[k] == inside[k];
      }
    }
  }

  lemma Alone(locks: map<int, Lock>, inside: map<int, multiset<int>>, l: int)
    requires LocksCount(locks, inside) && l in locks
    ensures l in inside && 0 <= locks[l].count
    ensures LocksOk(locks, inside) && locks[l].count > 0 ==> inside[l] == multiset{}
  {
    assert LocksOk(locks, inside) ==> Exact(Guard(locks[l], inside[l]));
  }

  /** What lock_release by t does to the locks, and when it keeps them exact. */
  ghost predicate ReleasedBy(locks: map<int, Lock>, inside: map<int, multiset<int>>, locks': map<int, Lock>,
                             inside': map<int, multiset<int>>, l: int, t: int) {
    && l in locks && l in inside
    && locks'.Keys == locks.Keys && locks'[l].thread == None && locks'[l].count == locks[l].count + 1
    && locks' == locks[l := Unlocked(locks[l])] && inside' == inside[l := inside[l] - multiset{t}]
    && (LocksOk(locks', inside') <==> LocksOk(locks, inside) && Holds(locks[l], Some(t)))
  }

  // ---- sleeping and waking ----

  /** The threads of s that sleep on address a, and the others, in order. */
  function On(s: seq<int>, addr: map<int, int>, a: int): seq<int> {
    if s == [] then []
    else (if s[0] in addr && addr[s[0]] == a then [s[0]] else []) + On(s[1..], addr, a)
  }

  function NotOn(s: seq<int>, addr: map<int, int>, a: int): seq<int> {
    if s == [] then []
    else (if s[0] in addr && addr[s[0]] == a then [] else [s[0]]) + NotOn(s[1..], addr, a)
  }

  /** Every thread of s is in one of the two. */
  lemma {:induction false} PartitionAt(s: seq<int>, addr: map<int, int>, a: int, t: int)
    ensures multiset(On(s, addr, a))[t] + multiset(NotOn(s, addr, a))[t] == multiset(s)[t]
  {
    if s != [] {
      var x, rest := s[0], s[1..];
      PartitionAt(rest, addr, a, t);
      assert multiset(s) == multiset{x} + multiset(rest) by { assert s == [x] + rest; }
      if x in addr && addr[x] == a {
        assert On(s, addr, a) == [x] + On(rest, addr, a) && NotOn(s, addr, a) == NotOn(rest, addr, a);
      } else {
        assert NotOn(s, addr, a) == [x] + NotOn(rest, addr, a) && On(s, addr, a) == On(rest, addr, a);
      }
    }
  }

  lemma {:induction false} PartitionLen(s: seq<int>, addr: map<int, int>, a: int)
    ensures |On(s, addr, a)| + |NotOn(s, addr, a)| == |s|
  {
    if s != [] {
      PartitionLen(s[1..], addr, a);
    }
  }

  lemma FirstAsleep(x: int, rest: seq<int>, addr: map<int, int>, a: int)
    ensures On([x] + rest, addr, a) == (if x in addr && addr[x] == a then [x] else []) + On(rest, addr, a)
    ensures NotOn([x] + rest, addr, a) == (if x in addr && addr[x] == a then [] else [x]) + NotOn(rest, addr, a)
  {
    assert ([x] + rest)[1..] == rest;
  }

  /** Who went to sleep earlier is woken earlier, and those who sleep on keep their order too. */
  lemma {:induction false} WokenInOrder(s: seq<int>, t: seq<int>, addr: map<int, int>, a: int)
    ensures On(s + t, addr, a) == On(s, addr, a) + On(t, addr, a)
    ensures NotOn(s + t, addr, a) == NotOn(s, addr, a) + NotOn(t, addr, a)
    decreases |s|
  {
    if s == [] {
      assert s + t == t;
    } else {
      WokenInOrder(s[1..], t, addr, a);
      hide On, NotOn;
      assert s == [s[0]] + s[1..] && s + t == [s[0]] + (s[1..] + t);
      FirstAsleep(s[0], s[1..], addr, a);
      FirstAsleep(s[0], s[1..] + t, addr, a);
    }
  }

  lemma {:induction false} InNotOn(s: seq<int>, addr: map<int, int>, a: int, t: int)
    ensures t in NotOn(s, addr, a) <==> t in s && !(t in addr && addr[t] == a)
  {
    if s != [] {
      InNotOn(s[1..], addr, a, t);
      assert t in s <==> t == s[0] || t in s[1..];
    }
  }

  lemma WakePlaced(cur: Option<int>, runq: seq<int>, sleepers: seq<int>, zombies: seq<int>, live: set<int>,
    addr: map<int, int>, a: int)
    requires Placed(cur, runq, sleepers, zombies, live)
    ensures Placed(cur, runq + On(sleepers, addr, a), NotOn(sleepers, addr, a), zombies, live)
  {
    forall t
      ensures PlacedAt(cur, runq + On(sleepers, addr, a), NotOn(sleepers, addr, a), zombies, live, t)
    {
      assert PlacedAt(cur, runq, sleepers, zombies, live, t);
      PartitionAt(sleepers, addr, a, t);
    }
  }

  /** After a wakeup on a, its count may be anything. */
  lemma WakeWaiting(sleepers: seq<int>, addr: map<int, int>, sems: map<int, int>, locks: map<int, Lock>, a: int,
    sems': map<int, int>, locks': map<int, Lock>)
    requires Waiting(sleepers, addr, sems, locks)
    requires sems'.Keys == sems.Keys && locks'.Keys == locks.Keys
    requires (forall s :: s in sems && s != a ==> sems'[s] == sems[s]) &&
      (forall l :: l in locks && l != a ==> locks'[l] == locks[l])
    ensures Waiting(NotOn(sleepers, addr, a), addr, sems', locks')
  {
    forall t | t in NotOn(sleepers, addr, a)
      ensures t in addr && (addr[t] in sems' ==> sems'[addr[t]] == 0) &&
        (addr[t] in locks' ==> locks'[addr[t]].count == 0)
    {
      InNotOn(sleepers, addr, a, t);
    }
  }

  /** The running thread goes to one of the lists, or a thread of the run queue starts to run. */
  lemma Moved(cur: Option<int>, runq: seq<int>, sleepers: seq<int>, zombies: seq<int>, live: set<int>, t: int)
    requires Placed(cur, runq, sleepers, zombies, live) && cur == Some(t)
    ensures t in live && t !in sleepers && t !in runq && t !in zombies
    ensures Placed(None, runq + [t], sleepers, zombies, live)
    ensures Placed(None, runq, sleepers + [t], zombies, live)
    ensures Placed(None, runq, sleepers, zombies + [t], live - {t})
  {
    assert PlacedAt(cur, runq, sleepers, zombies, live, t);
    forall u
      ensures PlacedAt(None, runq + [t], sleepers, zombies, live, u) &&
        PlacedAt(None, runq, sleepers + [t], zombies, live, u)
      ensures PlacedAt(None, runq, sleepers, zombies + [t], live - {t}, u)
    {
      assert PlacedAt(cur, runq, sleepers, zombies, live, u);
    }
  }

  lemma Started(runq: seq<int>, sleepers: seq<int>, zombies: seq<int>, live: set<int>)
    requires Placed(None, runq, sleepers, zombies, live) && runq != []
    ensures Placed(Some(runq[0]), runq[1..], sleepers, zombies, live)
  {
    assert multiset(runq) == multiset{runq[0]} + multiset(runq[1..]) by { assert runq == [runq[0]] + runq[1..]; }
    forall u
      ensures PlacedAt(Some(runq[0]), runq[1..], sleepers, zombies, live, u)
    {
      assert PlacedAt(None, runq, sleepers, zombies, live, u);
    }
  }

  lemma {:induction false} InOn(s: seq<int>, addr: map<int, int>, a: int, t: int)
    requires t in s && t in addr && addr[t] == a
    ensures t in On(s, addr, a)
  {
    if s[0] != t {
      InOn(s[1..], addr, a, t);
    }
  }

  class Kernel {
    var cur: Option<int>
    var runq: seq<int>
    var sleepers: seq<int>
    var zombies: seq<int>
    var numthreads: int
    var addr: map<int, int>
    var sems: map<int, int>
    var locks: map<int, Lock>
    var pids: seq<Pid>
    var pidOf: map<int, int>

    ghost var live: set<int>
    ghost var embryo: set<int>        // created, not yet runnable
    ghost var hist: map<int, Hist>
    ghost var inside: map<int, multiset<int>>

    constructor (boot: int, sems: map<int, int>, locks: map<int, Lock>)
      requires sems.Keys !! locks.Keys && (forall s :: s in sems ==> sems[s] >= 0) && forall l :: l in locks ==>
        locks[l].count == 1
      ensures Base() && cur == Some(boot) && live == {boot} && embryo == {} && numthreads == 1 && zombies == []
      ensures this.sems == sems && this.locks == locks && LocksOk(this.locks, inside)
      ensures pids == [Pid(1, true, 0, false, 0, Some(boot), 0)] && pidOf == map[boot := 1]
    {
      cur, runq, sleepers, zombies, numthreads := Some(boot), [], [], [], 1;
      addr, this.sems, this.locks := map[], sems, locks;
      pids, pidOf := [Pid(1, true, 0, false, 0, Some(boot), 0)], map[boot := 1];
      live, embryo := {boot}, {};
      hist := map s | s in sems :: Hist(sems[s], 0, 0);
      inside := map l | l in locks :: multiset{};
    }

    /** numthreads counts the live threads. */
    ghost predicate Counted()
      reads this
    {
      numthreads == |runq| + |sleepers| + if cur.Some? then 1 else 0
    }

    ghost predicate Base()
      reads this
    {
      && Placed(cur, runq, sleepers, zombies, live) && Counted()
      && Waiting(sleepers, addr, sems, locks) && SemsOk(sems, hist) && LocksCount(locks, inside)
      && sems.Keys !! locks.Keys
    }

    /** thread_wakeup: everyone who sleeps on a becomes runnable, in order. */
    method Wakeup(a: int)
      modifies this`runq, this`sleepers
      ensures runq == old(runq) + On(old(sleepers), addr, a) && sleepers == NotOn(old(sleepers), addr, a)
    {
      ghost var on, off := On(sleepers, addr, a), NotOn(sleepers, addr, a);
      ghost var kept, rest: seq<int> := [], sleepers;
      var i := 0;
      while i < |sleepers|
        invariant i == |kept| && sleepers == kept + rest
        invariant runq + On(rest, addr, a) == old(runq) + on && kept + NotOn(rest, addr, a) == off
        decreases |rest|
      {
        var t := sleepers[i];
        assert t == rest[0] && rest == [t] + rest[1..];
        ghost var on', off' := On(rest[1..], addr, a), NotOn(rest[1..], addr, a);
        if t in addr && addr[t] == a {
          sleepers := sleepers[..i] + sleepers[i + 1..];
          assert runq + ([t] + on') == runq + [t] + on';
          runq := runq + [t];
        } else {
          assert kept + ([t] + off') == kept + [t] + off';
          i, kept := i + 1, kept + [t];
        }
        rest := rest[1..];
      }
    }

    // ---- the scheduler ----

    /** The first half of mi_switch for a thread that stays runnable: thread_yield. */
    method Yield()
      requires Base() && cur.Some?
      modifies this`cur, this`runq
      ensures Base() && cur == None && runq == old(runq) + [old(cur).value]
    {
      hide Placed, Waiting, SemsOk, LocksCount;
      Moved(cur, runq, sleepers, zombies, live, cur.value);
      runq, cur := runq + [cur.value], None;
    }

    /** thread_sleep up to the switch, on a semaphore or lock only while its count is zero. */
    method SleepOn(a: int)
      requires Base() && cur.Some? && (a in sems ==> sems[a] == 0) && (a in locks ==> locks[a].count == 0)
      modifies this`cur, this`sleepers, this`addr
      ensures Base() && cur == None && sleepers == old(sleepers) + [old(cur).value] &&
        addr == old(addr)[old(cur).value := a]
    {
      hide Placed, SemsOk, LocksCount;
      Moved(cur, runq, sleepers, zombies, live, cur.value);
      addr := addr[cur.value := a];
      sleepers, cur := sleepers + [cur.value], None;
    }

    /** The second half of mi_switch: the head of the run queue runs. */
    method Dispatch()
      requires Base() && cur.None? && runq != []
      modifies this`cur, this`runq
      ensures Base() && cur == Some(old(runq)[0]) && runq == old(runq)[1..]
    {
      hide Placed, Waiting, SemsOk, LocksCount;
      Started(runq, sleepers, zombies, live);
      cur, runq := Some(runq[0]), runq[1..];
    }

    // ---- semaphores ----

    /** V, by a thread or an interrupt handler. */
    method V(s: int)
      requires Base() && s in sems
      modifies this`runq, this`sleepers, this`sems, this`hist
      ensures Base() && sems == old(sems)[s := old(sems)[s] + 1] &&
        hist == old(hist)[s := old(hist)[s].(vs := old(hist)[s].vs + 1)]
      ensures runq == old(runq) + On(old(sleepers), addr, s) && sleepers == NotOn(old(sleepers), addr, s)
    {
      hide Placed, Waiting, LocksCount, On, NotOn;
      WakePlaced(cur, runq, sleepers, zombies, live, addr, s);
      PartitionLen(sleepers, addr, s);
      WakeWaiting(sleepers, addr, sems, locks, s, sems[s := sems[s] + 1], locks);
      assert sems[s := sems[s] + 1].Keys == sems.Keys;
      sems, hist := sems[s := sems[s] + 1], hist[s := hist[s].(vs := hist[s].vs + 1)];
      assert sems[s] > 0;
      Wakeup(s);
    }

    /** One turn of the loop in P: the thread takes one, or goes to sleep and tries again when it
        next runs. */
    method P(s: int) returns (done: bool)
      requires Base() && s in sems && cur.Some?
      modifies this`cur, this`sleepers, this`addr, this`sems, this`hist
      ensures Base() && done == (old(sems)[s] > 0)
      ensures done ==> cur == old(cur) && sleepers == old(sleepers) && addr == old(addr)
      ensures done ==>
        sems == old(sems)[s := old(sems)[s] - 1] && hist == old(hist)[s := old(hist)[s].(ps := old(hist)[s].ps + 1)]
      ensures !done ==>
        sems == old(sems) && hist == old(hist) && cur == None && sleepers == old(sleepers) + [old(cur).value] &&
        addr == old(addr)[old(cur).value := s]
    {
      if sems[s] == 0 {
        SleepOn(s);
        return false;
      }
      hide Placed, LocksCount;
      sems, hist := sems[s := sems[s] - 1], hist[s := hist[s].(ps := hist[s].ps + 1)];
      done := true;
    }

    // ---- locks ----

    /** One turn of the loop in lock_acquire. */
    method Acquire(l: int) returns (done: bool)
      requires Base() && l in locks && cur.Some?
      modifies this`cur, this`sleepers, this`addr, this`locks, this`inside
      ensures Base() && done == (old(locks)[l].count > 0)
      ensures done ==> cur == old(cur) && sleepers == old(sleepers) && addr == old(addr)
      ensures done ==>
        locks == old(locks)[l := Locked(old(locks)[l], cur)] &&
        inside == old(inside)[l := old(inside)[l] + multiset{cur.value}]
      ensures !done ==>
        locks == old(locks) && inside == old(inside) && cur == None && sleepers == old(sleepers) + [old(cur).value] &&
        addr == old(addr)[old(cur).value := l]
      ensures LocksOk(locks, inside) <==> old(LocksOk(locks, inside))
      ensures done && old(LocksOk(locks, inside)) ==> inside[l] == multiset{cur.value}
    {
      if locks[l].count == 0 {
        SleepOn(l);
        return false;
      }
      hide Placed, SemsOk, LocksOk, LocksCount;
      UseLocks(locks, inside, l, Enter(cur.value));
      Alone(locks, inside, l);
      assert locks[l := Locked(locks[l], cur)].Keys == locks.Keys;
      locks, inside := locks[l := Locked(locks[l], cur)], inside[l := inside[l] + multiset{cur.value}];
      done := true;
    }

    /** lock_release, by any thread: one place more, and everyone waiting can try again.  All locks
        are exact afterwards if and only if they were and the caller held this one. */
    method Release(l: int)
      requires Base() && l in locks && cur.Some?
      modifies this`runq, this`sleepers, this`locks, this`inside
      ensures Base() && ReleasedBy(old(locks), old(inside), locks, inside, l, cur.value)
      ensures runq == old(runq) + On(old(sleepers), addr, l) && sleepers == NotOn(old(sleepers), addr, l)
    {
      hide Placed, Waiting, SemsOk, LocksOk, LocksCount, On, NotOn;
      WakePlaced(cur, runq, sleepers, zombies, live, addr, l);
      PartitionLen(sleepers, addr, l);
      UseLocks(locks, inside, l, Leave(cur.value));
      Alone(locks, inside, l);
      WakeWaiting(sleepers, addr, sems, locks, l, sems, locks[l := Unlocked(locks[l])]);
      assert locks[l := Unlocked(locks[l])].Keys == locks.Keys;
      locks, inside := locks[l := Unlocked(locks[l])], inside[l := inside[l] - multiset{cur.value}];
      assert locks[l].count > 0;
      Wakeup(l);
    }

    /** lock_do_i_hold: while the lock is held, true of exactly the thread inside. */
    method DoIHold(l: int) returns (b: bool)
      requires Base() && l in locks && cur.Some?
      ensures l in inside && (LocksOk(locks, inside) && locks[l].count == 0 ==> (b <==> cur.value in inside[l]))
      ensures b <==> locks[l].thread == cur
    {
      b := locks[l].thread == cur;
    }

    // ---- condition variables ----

    /** cv_wait up to its sleep, by any thread.  The lock is released and the thread put to sleep in
        one section with interrupts off: no wakeup can come in between. */
    method CvWait(cv: int, l: int)
      requires Base() && l in locks && cur.Some? && cv !in sems && cv !in locks
      modifies this`cur, this`runq, this`sleepers, this`addr, this`locks, this`inside
      ensures Base() && cur == None && ReleasedBy(old(locks), old(inside), locks, inside, l, old(cur).value)
      ensures var t := old(cur).value;
              sleepers == NotOn(old(sleepers), old(addr), l) + [t] && addr == old(addr)[t := cv]
      ensures runq == old(runq) + On(old(sleepers), old(addr), l)
    {
      hide Placed, Waiting, SemsOk, LocksOk, LocksCount, On, NotOn;
      Release(l);
      SleepOn(cv);
    }

    /** cv_signal and cv_broadcast, which also release the lock, by any thread: every thread that
        waited is runnable again. */
    method CvSignal(cv: int, l: int)
      requires Base() && l in locks && cur.Some? && cv !in sems && cv !in locks
      modifies this`runq, this`sleepers, this`locks, this`inside
      ensures Base() && ReleasedBy(old(locks), old(inside), locks, inside, l, cur.value)
      ensures forall t :: t in old(sleepers) && t in addr && addr[t] == cv ==> t in runq
      ensures var rest := NotOn(old(sleepers), addr, l);
              sleepers == NotOn(rest, addr, cv) && runq == old(runq) + On(old(sleepers), addr, l) + On(rest, addr, cv)
    {
      hide Placed, Waiting, SemsOk, LocksOk, LocksCount, On, NotOn;
      ghost var was := sleepers;
      Release(l);
      WakePlaced(cur, runq, sleepers, zombies, live, addr, cv);
      PartitionLen(sleepers, addr, cv);
      WakeWaiting(sleepers, addr, sems, locks, cv, sems, locks);
      ghost var mid := sleepers;
      Wakeup(cv);
      forall t | t in was && t in addr && addr[t] == cv
        ensures t in runq
      {
        InNotOn(was, addr, l, t);
        InOn(mid, addr, cv, t);
      }
    }
  }
}
