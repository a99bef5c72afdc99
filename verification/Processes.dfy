/** Process ids: kern/userprog/pid_system.c, with the parts of kern/thread/thread.c that use them
    and sys_waitpid of kern/userprog/system_calls_PI.c. */
module Processes {
  import opened Basics
  import opened Threads

  // ---- the pid list ----

  /** Entry i is for pid i + 1.  But for the first thread's, which has none, its semaphore is 0
      exactly while the entry is in use by a thread that has not exited, and else 1. */
  ghost predicate EntryOk(pids: seq<Pid>, sems: map<int, int>, i: int) {
    && 0 <= i < |pids| && pids[i].value == i + 1
    && (i == 0 ==> pids[i].used && !pids[i].didExit && pids[i].ppid == 0)
    && (i > 0 ==> pids[i].sem in sems && sems[pids[i].sem] == if pids[i].used && !pids[i].didExit then 0 else 1)
  }

  /** Thread t has an entry of its own. */
  ghost predicate Has(pids: seq<Pid>, pidOf: map<int, int>, t: int, exited: bool) {
    && t in pidOf && 1 <= pidOf[t] <= |pids|
    && var e := pids[pidOf[t] - 1];
    e.used && e.didExit == exited && e.thread == Some(t)
  }

  ghost predicate PidsOk(pids: seq<Pid>, pidOf: map<int, int>, sems: map<int, int>, alive: set<int>,
    zombies: seq<int>) {
    && |pids| >= 1 && (forall i :: 0 <= i < |pids| ==> EntryOk(pids, sems, i))
    && (forall i, j :: 0 < i < j < |pids| ==> pids[i].sem != pids[j].sem)
    && (forall t :: t in alive ==> Has(pids, pidOf, t, false))
    && (forall t :: t in zombies ==> Has(pids, pidOf, t, true))
    && (forall t :: t in zombies ==> t !in alive)
  }

  ghost predicate Inv(k: Kernel)
    reads k
  {
    && k.Base() && PidsOk(k.pids, k.pidOf, k.sems, k.live + k.embryo, k.zombies) && k.live !! k.embryo
    && forall t :: t in k.pidOf <==> t in k.live || t in k.embryo || t in k.zombies
  }

  /** A semaphore that is not a pid's. */
  predicate UserSem(k: Kernel, s: int)
    reads k
  {
    s in k.sems && forall i :: 0 < i < |k.pids| ==> k.pids[i].sem != s
  }

  lemma OtherSem(pids: seq<Pid>, pidOf: map<int, int>, sems: map<int, int>, sems': map<int, int>, alive: set<int>,
    zombies: seq<int>)
    requires PidsOk(pids, pidOf, sems, alive, zombies)
    requires forall i :: 0 < i < |pids| ==>
      pids[i].sem in sems && pids[i].sem in sems' && sems'[pids[i].sem] == sems[pids[i].sem]
    ensures PidsOk(pids, pidOf, sems', alive, zombies)
  {
    forall i | 0 <= i < |pids|
      ensures EntryOk(pids, sems', i)
    {
      assert EntryOk(pids, sems, i);
    }
  }

  // ---- steps on other semaphores, and on locks, leave the pids alone ----

  lemma SemsThere(pids: seq<Pid>, pidOf: map<int, int>, sems: map<int, int>, alive: set<int>, zombies: seq<int>)
    requires PidsOk(pids, pidOf, sems, alive, zombies)
    ensures |pids| >= 1 && forall i :: 0 < i < |pids| ==> pids[i].sem in sems
  {
    forall i | 0 < i < |pids|
      ensures pids[i].sem in sems
    {
      assert EntryOk(pids, sems, i);
    }
  }

  method Vuser(k: Kernel, s: int)
    requires Inv(k) && UserSem(k, s)
    modifies k
    ensures k.locks == old(k.locks) && k.inside == old(k.inside)
    ensures Inv(k) && k.sems == old(k.sems)[s := old(k.sems)[s] + 1] && old(k.runq) <= k.runq
  {
    hide Placed, Waiting, SemsOk, LocksCount, On, NotOn, PidsOk;
    SemsThere(k.pids, k.pidOf, k.sems, k.live + k.embryo, k.zombies);
    OtherSem(k.pids, k.pidOf, k.sems, k.sems[s := k.sems[s] + 1], k.live + k.embryo, k.zombies);
    k.V(s);
  }

  method Puser(k: Kernel, s: int) returns (done: bool)
    requires Inv(k) && UserSem(k, s) && k.cur.Some?
    modifies k
    ensures k.locks == old(k.locks) && k.inside == old(k.inside)
    ensures Inv(k) && done == (old(k.sems)[s] > 0) && k.runq == old(k.runq)
    ensures k.sems == if done then old(k.sems)[s := old(k.sems)[s] - 1] else old(k.sems)
    ensures k.cur == if done then old(k.cur) else None
  {
    hide Placed, Waiting, SemsOk, LocksCount, PidsOk;
    SemsThere(k.pids, k.pidOf, k.sems, k.live + k.embryo, k.zombies);
    OtherSem(k.pids, k.pidOf, k.sems, k.sems[s := k.sems[s] - 1], k.live + k.embryo, k.zombies);
    done := k.P(s);
  }

  // ---- pid_system.c ----

  /** pid_search */
  method Search(pids: seq<Pid>, value: int) returns (i: int)
    requires forall j :: 0 <= j < |pids| ==> pids[j].value == j + 1
    ensures if 1 <= value <= |pids| then i == value - 1 else i == -1
  {
    i := 0;
    while i < |pids|
      invariant 0 <= i <= |pids| && (1 <= value <= |pids| ==> i < value)
    {
      if pids[i].value == value {
        return;
      }
      i := i + 1;
    }
    i := -1;
  }

  /** assign_pid with append_pid: the smallest pid above 1 not in use; sem is the address of the
      semaphore made for a new entry. */
  method AssignPid(pids: seq<Pid>, t: int, parent: int, sem: int) returns (pids': seq<Pid>, pid: int)
    requires |pids| >= 1 && forall j :: 0 <= j < |pids| ==> pids[j].value == j + 1
    ensures 2 <= pid <= |pids| + 1 && (forall j :: 1 <= j < pid - 1 ==> pids[j].used)
    ensures pid <= |pids| ==>
      !pids[pid - 1].used &&
      pids' == pids[pid - 1 := pids[pid - 1].(used := true, ppid := parent, didExit := false, thread := Some(t))]
    ensures pid == |pids| + 1 ==> pids' == pids + [Pid(pid, true, parent, false, 0, Some(t), sem)]
  {
    var current := 0;
    while true
      invariant 0 <= current < |pids| && forall j :: 1 <= j <= current ==> pids[j].used
      decreases |pids| - current
    {
      var next := current + 1;
      if next == |pids| {
        pid := pids[current].value + 1;
        pids' := pids + [Pid(pid, true, parent, false, 0, Some(t), sem)];
        return;
      }
      if !pids[next].used {
        pid := pids[next].value;
        pids' := pids[next := pids[next].(used := true, ppid := parent, didExit := false, thread := Some(t))];
        return;
      }
      current := next;
    }
  }

  lemma Values(pids: seq<Pid>, pidOf: map<int, int>, sems: map<int, int>, alive: set<int>, zombies: seq<int>)
    requires PidsOk(pids, pidOf, sems, alive, zombies)
    ensures |pids| >= 1 && forall j :: 0 <= j < |pids| ==> pids[j].value == j + 1
  {
    forall j | 0 <= j < |pids|
      ensures pids[j].value == j + 1
    {
      assert EntryOk(pids, sems, j);
    }
  }

  // ---- thread_create and thread_fork ----

  /** Entry pid - 1 now belongs to t, whose semaphore is taken. */
  ghost predicate Assigned(pids: seq<Pid>, pids': seq<Pid>, pid: int, t: int) {
    && 2 <= pid <= |pids'| && |pids| <= |pids'| <= |pids| + 1 && (pid <= |pids| <==> |pids'| == |pids|)
    && (forall j :: 0 <= j < |pids| && j != pid - 1 ==> pids'[j] == pids[j])
    && var e := pids'[pid - 1];
    && e.value == pid && e.used && !e.didExit && e.thread == Some(t)
    && (pid <= |pids| ==> !pids[pid - 1].used && e.sem == pids[pid - 1].sem)
    && (pid > |pids| ==> forall j :: 0 < j < |pids| ==> pids[j].sem != e.sem)
  }

  lemma HasNew(pids: seq<Pid>, pids': seq<Pid>, pidOf: map<int, int>, t: int, pid: int)
    requires Assigned(pids, pids', pid, t)
    ensures Has(pids', pidOf[t := pid], t, false)
  {
  }

  lemma AssignOk(pids: seq<Pid>, pids': seq<Pid>, pidOf: map<int, int>, sems: map<int, int>, alive: set<int>,
    zombies: seq<int>, t: int, pid: int)
    requires PidsOk(pids, pidOf, sems, alive, zombies) && Assigned(pids, pids', pid, t) && t !in alive && t !in zombies
    ensures PidsOk(pids', pidOf[t := pid], sems[pids'[pid - 1].sem := 0], alive + {t}, zombies)
  {
    var sems', pidOf' := sems[pids'[pid - 1].sem := 0], pidOf[t := pid];
    forall i | 0 <= i < |pids'|
      ensures EntryOk(pids', sems', i)
    {
      if i != pid - 1 {
        assert EntryOk(pids, sems, i);
        assert pid <= |pids| && i > 0 ==> pids[i].sem != pids[pid - 1].sem;
      }
    }
    forall u | u in alive
      ensures Has(pids', pidOf', u, false)
    {
      assert Has(pids, pidOf, u, false);
    }
    forall u | u in zombies
      ensures Has(pids', pidOf', u, true)
    {
      assert Has(pids, pidOf, u, true);
    }
    hide EntryOk, Has;
    assert Has(pids', pidOf', t, false) by { HasNew(pids, pids', pidOf, t, pid); }
  }

  /** sem_create with count 1 */
  method NewSem(k: Kernel, sem: int)
    requires k.Base() && sem !in k.sems && sem !in k.locks && forall u :: u in k.sleepers && u in k.addr ==>
      k.addr[u] != sem
    modifies k`sems, k`hist
    ensures k.Base() && k.sems == old(k.sems)[sem := 1]
  {
    hide Placed, LocksCount;
    k.sems, k.hist := k.sems[sem := 1], k.hist[sem := Hist(1, 0, 0)];
  }

  lemma FreeEntry(pids: seq<Pid>, pidOf: map<int, int>, sems: map<int, int>, alive: set<int>, zombies: seq<int>, i: int)
    requires PidsOk(pids, pidOf, sems, alive, zombies) && 0 < i < |pids| && !pids[i].used
    ensures pids[i].sem in sems && sems[pids[i].sem] == 1
  {
    assert EntryOk(pids, sems, i);
  }

  lemma CurHas(k: Kernel)
    requires Inv(k) && k.cur.Some?
    ensures k.cur.value in k.live && Has(k.pids, k.pidOf, k.cur.value, false) && k.cur.value in k.pidOf
  {
    hide Waiting, SemsOk, LocksCount, EntryOk;
    assert PlacedAt(k.cur, k.runq, k.sleepers, k.zombies, k.live, k.cur.value);
  }

  /** assign_pid, then P on the semaphore of the entry. */
  method ClaimPid(k: Kernel, t: int, sem: int) returns (pids': seq<Pid>, pid: int)
    requires Inv(k) && k.cur.Some?
    requires sem !in k.sems && sem !in k.locks && forall u :: u in k.sleepers && u in k.addr ==> k.addr[u] != sem
    modifies k`sems, k`hist, k`cur, k`sleepers, k`addr
    ensures k.Base() && k.cur == old(k.cur) && k.sleepers == old(k.sleepers)
    ensures Assigned(k.pids, pids', pid, t) && 2 <= pid <= |pids'| && k.sems == old(k.sems)[pids'[pid - 1].sem := 0]
    ensures k.cur.value in k.pidOf && pids'[pid - 1].ppid == k.pidOf[k.cur.value]
    ensures forall j :: 1 <= j < pid - 1 && j < |k.pids| ==> k.pids[j].used
    ensures pid <= |k.pids| ==> !k.pids[pid - 1].used
  {
    hide Placed, LocksCount, SemsOk, Waiting, PidsOk, EntryOk;
    ghost var alive := k.live + k.embryo;
    Values(k.pids, k.pidOf, k.sems, alive, k.zombies);
    SemsThere(k.pids, k.pidOf, k.sems, alive, k.zombies);
    CurHas(k);
    pids', pid := AssignPid(k.pids, t, k.pidOf[k.cur.value], sem);
    if pid > |k.pids| {
      NewSem(k, sem);
    } else {
      FreeEntry(k.pids, k.pidOf, k.sems, alive, k.zombies, pid - 1);
    }
    var done := k.P(pids'[pid - 1].sem);
    assert done;
  }

  /** The part of thread_create about pids.  The P on the entry's semaphore does not sleep. */
  method Create(k: Kernel, t: int, sem: int) returns (pid: int)
    requires Inv(k) && k.cur.Some? && t !in k.live && t !in k.embryo && t !in k.zombies
    requires sem !in k.sems && sem !in k.locks && forall u :: u in k.sleepers && u in k.addr ==> k.addr[u] != sem
    modifies k
    ensures k.locks == old(k.locks) && k.inside == old(k.inside)
    ensures Inv(k) && k.embryo == old(k.embryo) + {t} && k.live == old(k.live) && k.cur == old(k.cur)
    ensures k.runq == old(k.runq) && k.sleepers == old(k.sleepers) && k.numthreads == old(k.numthreads)
    ensures k.pidOf == old(k.pidOf)[t := pid] && 2 <= pid <= |k.pids| && Has(k.pids, k.pidOf, t, false)
    ensures k.cur.value in old(k.pidOf) && k.pids[pid - 1].ppid == old(k.pidOf)[k.cur.value]
    ensures forall j :: 1 <= j < pid - 1 && j < |old(k.pids)| ==> old(k.pids)[j].used
    ensures pid <= |old(k.pids)| ==> !old(k.pids)[pid - 1].used
  {
    hide Placed, LocksCount, SemsOk, Waiting, PidsOk, EntryOk, Assigned, Has;
    ghost var alive, pids0, sems0 := k.live + k.embryo, k.pids, k.sems;
    var pids';
    pids', pid := ClaimPid(k, t, sem);
    AssignOk(pids0, pids', k.pidOf, sems0, alive, k.zombies, t, pid);
    HasNew(pids0, pids', k.pidOf, t, pid);
    k.pids, k.pidOf := pids', k.pidOf[t := pid];
    k.embryo := k.embryo + {t};
    assert k.live + k.embryo == alive + {t};
  }

  lemma NotZombie(pids: seq<Pid>, pidOf: map<int, int>, sems: map<int, int>, alive: set<int>, zombies: seq<int>, t: int)
    requires PidsOk(pids, pidOf, sems, alive, zombies) && t in alive
    ensures t !in zombies
  {
  }

  lemma NewThread(cur: Option<int>, runq: seq<int>, sleepers: seq<int>, zombies: seq<int>, live: set<int>, t: int)
    requires Placed(cur, runq, sleepers, zombies, live) && t !in live && t !in zombies
    ensures Placed(cur, runq + [t], sleepers, zombies, live + {t})
  {
    forall u
      ensures PlacedAt(cur, runq + [t], sleepers, zombies, live + {t}, u)
    {
      assert PlacedAt(cur, runq, sleepers, zombies, live, u);
    }
  }

  /** The part of thread_fork with interrupts off: the new thread becomes runnable. */
  method Start(k: Kernel, t: int)
    requires Inv(k) && t in k.embryo
    modifies k
    ensures k.locks == old(k.locks) && k.inside == old(k.inside)
    ensures Inv(k) && k.live == old(k.live) + {t} && k.embryo == old(k.embryo) - {t} && k.runq == old(k.runq) + [t]
    ensures k.numthreads == old(k.numthreads) + 1
  {
    hide PidsOk, Waiting, SemsOk, LocksCount;
    NotZombie(k.pids, k.pidOf, k.sems, k.live + k.embryo, k.zombies, t);
    assert k.live + k.embryo == (k.live + {t}) + (k.embryo - {t});
    NewThread(k.cur, k.runq, k.sleepers, k.zombies, k.live, t);
    k.runq, k.numthreads := k.runq + [t], k.numthreads + 1;
    k.live, k.embryo := k.live + {t}, k.embryo - {t};
  }

  // ---- thread_exit ----

  lemma ExitOk(pids: seq<Pid>, pids': seq<Pid>, pidOf: map<int, int>, sems: map<int, int>, alive: set<int>,
    zombies: seq<int>, t: int, code: int)
    requires PidsOk(pids, pidOf, sems, alive, zombies) && t in alive && Has(pids, pidOf, t, false) && pidOf[t] > 1
    requires pids' == pids[pidOf[t] - 1 := pids[pidOf[t] - 1].(didExit := true, exitCode := code)]
    ensures pids[pidOf[t] - 1].sem in sems && sems[pids[pidOf[t] - 1].sem] == 0
    ensures PidsOk(pids', pidOf, sems[pids[pidOf[t] - 1].sem := 1], alive - {t}, zombies + [t])
  {
    var x := pidOf[t] - 1;
    assert EntryOk(pids, sems, x);
    var sems' := sems[pids[x].sem := 1];
    forall i | 0 <= i < |pids'|
      ensures EntryOk(pids', sems', i)
    {
      assert EntryOk(pids, sems, i);
      assert i != x && i > 0 ==> pids[i].sem != pids[x].sem;
    }
    forall u | u in alive && u != t
      ensures Has(pids', pidOf, u, false)
    {
      assert Has(pids, pidOf, u, false);
    }
    forall u | u in zombies + [t]
      ensures Has(pids', pidOf, u, true)
    {
      assert u != t ==> Has(pids, pidOf, u, true);
    }
    hide EntryOk, Has;
  }

  /** The count goes down and the running thread to the zombies. */
  method Bury(k: Kernel)
    requires k.Base() && k.cur.Some?
    modifies k`numthreads, k`zombies, k`cur, k`live
    ensures k.Base() && k.cur == None && k.numthreads == old(k.numthreads) - 1
    ensures k.zombies == old(k.zombies) + [old(k.cur).value] && k.live == old(k.live) - {old(k.cur).value}
  {
    hide Placed, Waiting, SemsOk, LocksCount;
    assert k.numthreads > 0;
    Moved(k.cur, k.runq, k.sleepers, k.zombies, k.live, k.cur.value);
    k.numthreads := k.numthreads - 1;
    k.zombies, k.live, k.cur := k.zombies + [k.cur.value], k.live - {k.cur.value}, None;
  }

  /** thread_exit up to the switch, by any thread but the first: the pid's semaphore is released,
      so a waiting parent can go on, and the thread is a zombie. */
  method Exit(k: Kernel, code: int)
    requires Inv(k) && k.cur.Some? && k.cur.value in k.pidOf && k.pidOf[k.cur.value] != 1
    modifies k
    ensures k.locks == old(k.locks) && k.inside == old(k.inside)
    ensures Inv(k) && k.cur == None && k.zombies == old(k.zombies) + [old(k.cur).value]
    ensures k.live == old(k.live) - {old(k.cur).value} && k.numthreads == old(k.numthreads) - 1 &&
      k.pidOf == old(k.pidOf)
    ensures old(k.runq) <= k.runq
    ensures var x := k.pidOf[old(k.cur).value] - 1;
            0 < x < |old(k.pids)| && k.pids == old(k.pids)[x := old(k.pids)[x].(didExit := true, exitCode := code)]
  {
    hide Placed, Waiting, SemsOk, LocksCount, On, NotOn, PidsOk, EntryOk;
    ghost var alive, sems0 := k.live + k.embryo, k.sems;
    CurHas(k);
    Values(k.pids, k.pidOf, k.sems, alive, k.zombies);
    var t := k.cur.value;
    var x := Search(k.pids, k.pidOf[t]);
    var e := k.pids[x];
    ExitOk(k.pids, k.pids[x := e.(didExit := true, exitCode := code)], k.pidOf, k.sems, alive, k.zombies, t, code);
    k.pids := k.pids[x := e.(didExit := true, exitCode := code)];
    k.V(e.sem);
    assert k.sems == sems0[e.sem := 1];
    Bury(k);
    assert k.live + k.embryo == alive - {t};
  }

  // ---- exorcise ----

  lemma ReleaseOk(pids: seq<Pid>, pidOf: map<int, int>, sems: map<int, int>, alive: set<int>, zombies: seq<int>, x: int)
    requires PidsOk(pids, pidOf, sems, alive, zombies) && zombies != [] && Has(pids, pidOf, zombies[0], true) &&
      x == pidOf[zombies[0]] - 1
    requires zombies[0] !in zombies[1..]
    ensures PidsOk(pids[x := pids[x].(used := false, ppid := 0, thread := None)], pidOf, sems, alive, zombies[1..])
  {
    var pids' := pids[x := pids[x].(used := false, ppid := 0, thread := None)];
    forall i | 0 <= i < |pids'|
      ensures EntryOk(pids', sems, i)
    {
      assert EntryOk(pids, sems, i);
    }
    forall u | u in alive
      ensures Has(pids', pidOf, u, false)
    {
      assert Has(pids, pidOf, u, false);
    }
    forall u | u in zombies[1..]
      ensures Has(pids', pidOf, u, true)
    {
      assert Has(pids, pidOf, u, true);
    }
    hide EntryOk, Has;
  }

  /** Some thread of zs has pid v. */
  ghost predicate PidIn(pidOf: map<int, int>, zs: seq<int>, v: int) {
    exists j :: 0 <= j < |zs| && zs[j] in pidOf && pidOf[zs[j]] == v
  }

  /** From a to b, exactly the pids of the threads zs were released. */
  ghost predicate Freed(a: seq<Pid>, b: seq<Pid>, pidOf: map<int, int>, zs: seq<int>) {
    |b| == |a| && forall i :: 0 <= i < |a| ==>
      b[i] == if PidIn(pidOf, zs, i + 1) then a[i].(used := false, ppid := 0, thread := None) else a[i]
  }

  lemma FreedNone(a: seq<Pid>, pidOf: map<int, int>)
    ensures Freed(a, a, pidOf, [])
  {
  }

  lemma FreedOne(a: seq<Pid>, b: seq<Pid>, pidOf: map<int, int>, zs: seq<int>, z: int, x: int)
    requires Freed(a, b, pidOf, zs) && 0 <= x < |b| && z in pidOf && pidOf[z] == x + 1
    ensures Freed(a, b[x := b[x].(used := false, ppid := 0, thread := None)], pidOf, zs + [z])
  {
    forall v
      ensures PidIn(pidOf, zs + [z], v) <==> PidIn(pidOf, zs, v) || v == x + 1
    {
      var ys := zs + [z];
      assert ys[|zs|] == z;
      if j :| 0 <= j < |zs| && zs[j] in pidOf && pidOf[zs[j]] == v {
        assert ys[j] == zs[j];
      }
    }
  }

  lemma ZombiesApart(pids: seq<Pid>, pidOf: map<int, int>, sems: map<int, int>, alive: set<int>, zombies: seq<int>)
    requires PidsOk(pids, pidOf, sems, alive, zombies)
    ensures forall t :: t in zombies ==> t !in alive
  {
  }

  lemma KeptPids(pids: seq<Pid>, pidOf: map<int, int>, pidOf': map<int, int>, sems: map<int, int>, alive: set<int>)
    requires PidsOk(pids, pidOf, sems, alive, []) && forall t :: t in alive && t in pidOf ==>
      t in pidOf' && pidOf'[t] == pidOf[t]
    ensures PidsOk(pids, pidOf', sems, alive, [])
  {
    forall t | t in alive
      ensures Has(pids, pidOf', t, false)
    {
      assert Has(pids, pidOf, t, false);
    }
  }

  lemma ZombieHas(pids: seq<Pid>, pidOf: map<int, int>, sems: map<int, int>, alive: set<int>, zombies: seq<int>)
    requires PidsOk(pids, pidOf, sems, alive, zombies) && zombies != []
    ensures Has(pids, pidOf, zombies[0], true) && zombies[0] !in alive
  {
  }

  lemma OnceEach(cur: Option<int>, runq: seq<int>, sleepers: seq<int>, zombies: seq<int>, live: set<int>)
    requires Placed(cur, runq, sleepers, zombies, live)
    ensures forall i, j :: 0 <= i < j < |zombies| ==> zombies[i] != zombies[j]
  {
    forall i, j | 0 <= i < j < |zombies|
      ensures zombies[i] != zombies[j]
    {
      assert PlacedAt(cur, runq, sleepers, zombies, live, zombies[i]);
      assert zombies == zombies[..j] + [zombies[j]] + zombies[j + 1..];
      assert zombies[i] in multiset(zombies[..j]) by { assert zombies[..j][i] == zombies[i]; }
    }
  }

  lemma NoZombies(cur: Option<int>, runq: seq<int>, sleepers: seq<int>, zombies: seq<int>, live: set<int>)
    requires Placed(cur, runq, sleepers, zombies, live)
    ensures Placed(cur, runq, sleepers, [], live)
  {
    forall t
      ensures PlacedAt(cur, runq, sleepers, [], live, t)
    {
      assert PlacedAt(cur, runq, sleepers, zombies, live, t);
    }
  }

  /** exorcise: the zombies' pids are free again; no zombie is the running thread. */
  method Exorcise(k: Kernel)
    requires Inv(k) && k.cur.Some?
    modifies k`pids, k`zombies, k`pidOf
    ensures Inv(k) && k.zombies == [] && Freed(old(k.pids), k.pids, old(k.pidOf), old(k.zombies))
  {
    hide Waiting, SemsOk, LocksCount, EntryOk, PidsOk, Freed;
    FreedNone(k.pids, k.pidOf);
    ghost var alive := k.live + k.embryo;
    ZombiesApart(k.pids, k.pidOf, k.sems, alive, k.zombies);
    CurHas(k);
    OnceEach(k.cur, k.runq, k.sleepers, k.zombies, k.live);
    for i := 0 to |k.zombies|
      invariant k.zombies == old(k.zombies) && k.pidOf == old(k.pidOf) &&
        PidsOk(k.pids, k.pidOf, k.sems, alive, k.zombies[i..])
      invariant Freed(old(k.pids), k.pids, k.pidOf, k.zombies[..i])
    {
      var z := k.zombies[i];
      ZombieHas(k.pids, k.pidOf, k.sems, alive, k.zombies[i..]);
      Values(k.pids, k.pidOf, k.sems, alive, k.zombies[i..]);
      var x := Search(k.pids, k.pidOf[z]);
      assert Some(z) != k.cur;
      ReleaseOk(k.pids, k.pidOf, k.sems, alive, k.zombies[i..], x);
      assert k.zombies[i..][1..] == k.zombies[i + 1..] && k.zombies[..i + 1] == k.zombies[..i] + [z];
      FreedOne(old(k.pids), k.pids, k.pidOf, k.zombies[..i], z, x);
      k.pids := k.pids[x := k.pids[x].(used := false, ppid := 0, thread := None)];
    }
    NoZombies(k.cur, k.runq, k.sleepers, k.zombies, k.live);
    assert k.zombies[|k.zombies|..] == [] && k.zombies[..|k.zombies|] == k.zombies;
    KeptPids(k.pids, k.pidOf, map t | t in k.pidOf && t !in k.zombies :: k.pidOf[t], k.sems, alive);
    k.pidOf := map t | t in k.pidOf && t !in k.zombies :: k.pidOf[t];
    k.zombies := [];
  }

  // ---- sys_waitpid ----

  datatype Waited = Code(code: int, pid: int) | Asleep | Invalid | BadPointer

  lemma EntryAt(pids: seq<Pid>, pidOf: map<int, int>, sems: map<int, int>, alive: set<int>, zombies: seq<int>, x: int)
    requires PidsOk(pids, pidOf, sems, alive, zombies) && 0 <= x < |pids|
    ensures EntryOk(pids, sems, x)
  {
  }

  /** P and V on entry x's semaphore: one turn, also after waking up. */
  method WaitTurn(k: Kernel, x: int) returns (r: Waited)
    requires Inv(k) && k.cur.Some? && 0 < x < |k.pids|
    modifies k
    ensures k.locks == old(k.locks) && k.inside == old(k.inside)
    ensures Inv(k) && k.sems == old(k.sems) && k.pids == old(k.pids) && k.pidOf == old(k.pidOf) && old(k.runq) <= k.runq
    ensures r == if k.pids[x].used && !k.pids[x].didExit then Asleep else Code(k.pids[x].exitCode, k.pids[x].value)
    ensures r.Asleep? ==> k.cur == None
  {
    hide Placed, Waiting, SemsOk, LocksCount, On, NotOn, PidsOk;
    EntryAt(k.pids, k.pidOf, k.sems, k.live + k.embryo, k.zombies, x);
    var s := k.pids[x].sem;
    ghost var sems0 := k.sems;
    var done := k.P(s);
    if !done {
      return Asleep;
    }
    k.V(s);
    assert k.sems == sems0;
    r := Code(k.pids[x].exitCode, k.pids[x].value);
  }

  lemma FirstEntry(pids: seq<Pid>, pidOf: map<int, int>, sems: map<int, int>, alive: set<int>, zombies: seq<int>,
    t: int)
    requires PidsOk(pids, pidOf, sems, alive, zombies) && Has(pids, pidOf, t, false)
    ensures pids[0].ppid != pidOf[t]
  {
    assert EntryOk(pids, sems, 0);
  }

  /** sys_waitpid up to where it may first sleep; noStatus says that the status pointer is null. */
  method Waitpid(k: Kernel, pid: int, noStatus: bool, options: int) returns (r: Waited)
    requires Inv(k) && k.cur.Some?
    modifies k
    ensures k.locks == old(k.locks) && k.inside == old(k.inside)
    ensures Inv(k) && k.sems == old(k.sems) && k.pids == old(k.pids) && old(k.runq) <= k.runq
    ensures old(k.cur.value in k.pidOf)
    ensures r == BadPointer <==> options == 0 && noStatus
    ensures r == Invalid <==>
      options != 0 || (!noStatus && (!(1 <= pid <= |k.pids|) || k.pids[pid - 1].ppid != old(k.pidOf[k.cur.value])))
    ensures r.Code? ==>
      1 <= pid <= |k.pids| && r == Code(k.pids[pid - 1].exitCode, pid) &&
      (k.pids[pid - 1].didExit || !k.pids[pid - 1].used)
    ensures r.Asleep? ==> k.cur == None && 1 <= pid <= |k.pids| && k.pids[pid - 1].used && !k.pids[pid - 1].didExit
  {
    hide Placed, Waiting, SemsOk, LocksCount, On, NotOn, PidsOk, EntryOk, Has;
    Values(k.pids, k.pidOf, k.sems, k.live + k.embryo, k.zombies);
    CurHas(k);
    FirstEntry(k.pids, k.pidOf, k.sems, k.live + k.embryo, k.zombies, k.cur.value);
    if options != 0 {
      return Invalid;
    }
    if noStatus {
      return BadPointer;
    }
    var x := Search(k.pids, pid);
    if x == -1 || k.pids[x].ppid != k.pidOf[k.cur.value] {
      return Invalid;
    }
    if k.pids[x].didExit {
      return Code(k.pids[x].exitCode, pid);
    }
    r := WaitTurn(k, x);
  }

  // ---- all steps ----

  datatype Step =
    | Pass                                  // thread_yield
    | Pick                                  // the scheduler's choice
    | Clean                                 // exorcise
    | New(thread: int, sem: int)            // thread_create
    | Go(thread: int)                       // the rest of thread_fork
    | End(code: int)                        // thread_exit
    | WaitFor(pid: int, noStatus: bool, options: int) | WaitOn(entry: int)
    | Down(sem: int) | Up(sem: int)         // P; V by a thread or an interrupt handler
    | Grab(lock: int) | Drop(lock: int)
    | Await(cv: int, lock: int) | Signal(cv: int, lock: int)

  /** The steps that call lock_release. */
  predicate Releases(c: Step) {
    c.Drop? || c.Await? || c.Signal?
  }

  /** Not a release of a lock by a thread that does not hold it. */
  predicate Fair(k: Kernel, c: Step)
    reads k
  {
    Releases(c) ==> c.lock in k.locks && k.cur.Some? && Holds(k.locks[c.lock], k.cur)
  }

  /** When a step can be taken. */
  predicate Enabled(k: Kernel, c: Step)
    reads k
  {
    match c
    case Pass => k.cur.Some?
    case Pick => k.cur.None? && k.runq != []
    case Clean => k.cur.Some?
    case New(t, sem) =>
      && k.cur.Some? && t !in k.pidOf && sem !in k.sems && sem !in k.locks
      && forall u :: u in k.sleepers && u in k.addr ==> k.addr[u] != sem
    case Go(t) => t in k.pidOf && k.cur != Some(t) && t !in k.runq && t !in k.sleepers && t !in k.zombies
    case End(_) => k.cur.Some? && k.cur.value in k.pidOf && k.pidOf[k.cur.value] != 1
    case WaitFor(_, _, _) => k.cur.Some?
    case WaitOn(x) => k.cur.Some? && 0 < x < |k.pids|
    case Down(s) => k.cur.Some? && UserSem(k, s)
    case Up(s) => UserSem(k, s)
    case Grab(l) => k.cur.Some? && l in k.locks
    case Drop(l) => k.cur.Some? && l in k.locks
    case Await(cv, l) => k.cur.Some? && l in k.locks && cv !in k.sems && cv !in k.locks
    case Signal(cv, l) => k.cur.Some? && l in k.locks && cv !in k.sems && cv !in k.locks
  }

  /** What the invariant says of the threads, at every step of every run. */
  lemma ThreadsPlaced(k: Kernel, t: int)
    requires Inv(k)
    ensures t in k.live <==> k.cur == Some(t) || t in k.runq || t in k.sleepers
    ensures t in k.zombies ==> t !in k.live && k.cur != Some(t)
    ensures t in k.runq ==> t !in k.sleepers && k.cur != Some(t)
    ensures t in k.sleepers ==> k.cur != Some(t)
    ensures k.cur.Some? ==> k.numthreads == 1 + |k.runq| + |k.sleepers|
  {
    hide Waiting, SemsOk, LocksCount, PidsOk;
    assert PlacedAt(k.cur, k.runq, k.sleepers, k.zombies, k.live, t);
    assert t in k.runq <==> multiset(k.runq)[t] > 0;
    assert t in k.sleepers <==> multiset(k.sleepers)[t] > 0;
    assert t in k.zombies <==> multiset(k.zombies)[t] > 0;
  }

  lemma Unstarted(k: Kernel)
    requires Inv(k)
    ensures forall t :: t in k.pidOf && k.cur != Some(t) && t !in k.runq && t !in k.sleepers && t !in k.zombies ==>
      t in k.embryo
  {
    hide Placed;
    forall t
      ensures t in k.live ==> k.cur == Some(t) || t in k.runq || t in k.sleepers
    {
      ThreadsPlaced(k, t);
    }
  }

  /** Some thread sleeps on address a. */
  ghost predicate Sleeps(k: Kernel, a: int)
    reads k
  {
    exists t :: t in k.sleepers && t in k.addr && k.addr[t] == a
  }

  /** What a step has done. */
  twostate predicate Did(k: Kernel, c: Step)
    reads k
  {
    match c
    case Pass => old(k.cur.Some?) && k.cur == None && k.runq == old(k.runq) + [old(k.cur).value]
    case Pick => old(k.runq) != [] && k.cur == Some(old(k.runq)[0])
    case Clean => k.zombies == []
    case New(t, _) => t in k.embryo && t in k.pidOf
    case Go(t) => t in k.live && k.runq == old(k.runq) + [t]
    case End(_) => old(k.cur.Some?) && k.cur == None && k.zombies == old(k.zombies) + [old(k.cur).value]
    case WaitFor(_, _, _) => k.sems == old(k.sems) && k.pids == old(k.pids)
    case WaitOn(x) =>
      0 <= x < |k.pids| && k.pids == old(k.pids) && (k.pids[x].used && !k.pids[x].didExit ==> k.cur == None)
    case Down(s) =>
      old(s in k.sems) && s in k.sems &&
      if old(k.sems)[s] > 0 then k.sems[s] == old(k.sems)[s] - 1 && k.cur == old(k.cur) else k.cur == None
    case Up(s) => old(s in k.sems) && s in k.sems && k.sems[s] == old(k.sems)[s] + 1 && !Sleeps(k, s)
    case Grab(l) =>
      old(l in k.locks && k.cur.Some?) && l in k.locks && l in k.inside &&
      if old(k.locks)[l].count > 0 then k.locks[l].count == old(k.locks)[l].count - 1 && old(k.cur).value in k.inside[l]
      else k.cur == None
    case Drop(l) => old(l in k.locks) && l in k.locks && k.locks[l].count == old(k.locks)[l].count + 1 && !Sleeps(k, l)
    case Await(cv, l) =>
      old(l in k.locks) && l in k.locks && k.locks[l].count == old(k.locks)[l].count + 1 && k.cur == None &&
      Sleeps(k, cv)
    case Signal(cv, l) =>
      old(l in k.locks) && l in k.locks && k.locks[l].count == old(k.locks)[l].count + 1 && !Sleeps(k, cv)
  }

  lemma NoneAsleep(k: Kernel, a: int)
    requires Inv(k) && ((a in k.sems && k.sems[a] > 0) || (a in k.locks && k.locks[a].count > 0))
    ensures !Sleeps(k, a)
  {
    hide Placed, SemsOk, LocksCount, PidsOk;
  }

  lemma NotAsleep(k: Kernel, was: seq<int>, a: int)
    requires k.sleepers == NotOn(was, k.addr, a)
    ensures !Sleeps(k, a)
  {
    forall t
      ensures t in k.sleepers ==> !(t in k.addr && k.addr[t] == a)
    {
      InNotOn(was, k.addr, a, t);
    }
  }

  lemma JustAsleep(k: Kernel, a: int)
    requires k.sleepers != [] && var t := k.sleepers[|k.sleepers| - 1]; t in k.addr && k.addr[t] == a
    ensures Sleeps(k, a)
  {
    assert k.sleepers[|k.sleepers| - 1] in k.sleepers;
  }

  lemma FreeOfSem(k: Kernel, s: int)
    requires Inv(k) && s in k.sems
    ensures k.sems[s] >= 0
  {
    hide Placed, LocksCount, Waiting, PidsOk;
  }

  lemma FreeOfCount(k: Kernel, l: int)
    requires Inv(k) && l in k.locks
    ensures k.locks[l].count >= 0 && l in k.inside
  {
    hide Placed, SemsOk, Waiting, PidsOk;
  }

  /** The steps on locks. */
  method LockStep(k: Kernel, c: Step)
    requires Inv(k) && Enabled(k, c) && (c.Grab? || c.Drop?)
    modifies k
    ensures Inv(k) && old(k.runq) <= k.runq && Did(k, c)
    ensures LocksOk(k.locks, k.inside) <==> old(LocksOk(k.locks, k.inside) && Fair(k, c))
  {
    hide Placed, Waiting, SemsOk, LocksCount, LocksOk, On, NotOn, PidsOk, Sleeps;
    FreeOfCount(k, c.lock);
    if c.Grab? {
      var done := k.Acquire(c.lock);
    } else {
      k.Release(c.lock);
      NoneAsleep(k, c.lock);
    }
  }

  /** The steps on condition variables. */
  method CvStep(k: Kernel, c: Step)
    requires Inv(k) && Enabled(k, c) && (c.Await? || c.Signal?)
    modifies k
    ensures Inv(k) && old(k.runq) <= k.runq && Did(k, c)
    ensures LocksOk(k.locks, k.inside) <==> old(LocksOk(k.locks, k.inside) && Fair(k, c))
  {
    hide Placed, Waiting, SemsOk, LocksCount, LocksOk, On, NotOn, PidsOk, Sleeps;
    ghost var was := k.sleepers;
    if c.Await? {
      k.CvWait(c.cv, c.lock);
      JustAsleep(k, c.cv);
    } else {
      k.CvSignal(c.cv, c.lock);
      NotAsleep(k, NotOn(was, k.addr, c.lock), c.cv);
    }
  }

  /** Whatever the interleaving, every step keeps the invariant; the locks are exact afterwards if and
      only if they were and the step is fair. */
  method Take(k: Kernel, c: Step)
    requires Inv(k) && Enabled(k, c)
    modifies k
    ensures Inv(k)
    ensures if c.Pick? then old(k.runq) != [] && k.cur == Some(old(k.runq)[0]) && k.runq == old(k.runq)[1..]
            else old(k.runq) <= k.runq
    ensures LocksOk(k.locks, k.inside) <==> old(LocksOk(k.locks, k.inside) && Fair(k, c))
    ensures Did(k, c)
  {
    hide Placed, Waiting, SemsOk, LocksCount, LocksOk, On, NotOn, PidsOk, EntryOk, Has;
    var done, r, pid;
    Unstarted(k);
    match c {
      case Pass => k.Yield();
      case Pick => k.Dispatch();
      case Clean => Exorcise(k);
      case New(t, sem) => pid := Create(k, t, sem);
      case Go(t) => Start(k, t);
      case End(code) => Exit(k, code);
      case WaitFor(p, noStatus, options) => r := Waitpid(k, p, noStatus, options);
      case WaitOn(x) => r := WaitTurn(k, x);
      case Down(s) => done := Puser(k, s);
      case Up(s) =>
        FreeOfSem(k, s);
        Vuser(k, s);
        NoneAsleep(k, s);
      case Grab(_) => LockStep(k, c);
      case Drop(_) => LockStep(k, c);
      case Await(_, _) => CvStep(k, c);
      case Signal(_, _) => CvStep(k, c);
    }
  }

  /** The number of Pick steps among those done. */
  function PicksDone(steps: seq<Step>, done: seq<bool>): nat
    requires |done| == |steps|
  {
    var n := |steps|;
    if n == 0 then 0
    else PicksDone(steps[..n - 1], done[..n - 1]) + if done[n - 1] && steps[n - 1].Pick? then 1 else 0
  }

  lemma OneMore(steps: seq<Step>, done: seq<bool>, i: int, d: bool)
    requires |done| == i < |steps|
    ensures PicksDone(steps[..i + 1], done + [d]) == PicksDone(steps[..i], done) + if d && steps[i].Pick? then 1 else 0
  {
    assert steps[..i + 1][..i] == steps[..i] && (done + [d])[..i] == done;
  }

  lemma InFront(picks: seq<int>, q: seq<int>, was: seq<int>, added: seq<int>)
    requires picks + q == was + added
    ensures forall j :: 0 <= j < |was| && j < |picks| ==> picks[j] == was[j]
  {
    forall j | 0 <= j < |was| && j < |picks|
      ensures picks[j] == was[j]
    {
      assert (picks + q)[j] == (was + added)[j];
    }
  }

  /** A step of a run: added are the threads that became runnable. */
  method TakeOne(k: Kernel, c: Step) returns (picks: seq<int>, added: seq<int>)
    requires Inv(k) && Enabled(k, c)
    modifies k
    ensures Inv(k) && picks + k.runq == old(k.runq) + added && |picks| == (if c.Pick? then 1 else 0)
    ensures c.Pick? ==> k.cur == Some(picks[0])
    ensures LocksOk(k.locks, k.inside) <==> old(LocksOk(k.locks, k.inside) && Fair(k, c))
  {
    hide Inv, LocksOk, Fair;
    var was := k.runq;
    Take(k, c);
    if c.Pick? {
      picks, added := [was[0]], [];
      assert [was[0]] + was[1..] == was;
    } else {
      picks, added := [], k.runq[|was|..];
    }
  }

  lemma NoPicks()
    ensures PicksDone([], []) == 0
  {
  }

  lemma Chain(picks: seq<int>, was: seq<int>, q: seq<int>, added: seq<int>, one: seq<int>, now: seq<int>,
    more: seq<int>)
    requires picks + was == q + added && one + now == was + more
    ensures (picks + one) + now == q + (added + more)
  {
    assert (picks + one) + now == picks + (one + now) && picks + (was + more) == (picks + was) + more;
    assert (q + added) + more == q + (added + more);
  }

  /** Every run of steps, in any interleaving, keeps the invariant; a step that cannot be taken is
      passed over (not done).  Each Pick that is done dispatches one thread.  The threads picked and
      those left in the run queue are the threads that were in it and those added, in order: none is
      lost or picked twice, and a thread at position j is picked after exactly j others.  The locks
      stay exact if and only if every step done is fair. */
  method Run(k: Kernel, steps: seq<Step>)
    returns (picks: seq<int>, added: seq<int>, done: seq<bool>, fair: bool)
    requires Inv(k)
    modifies k
    ensures Inv(k) && picks + k.runq == old(k.runq) + added
    ensures forall j :: 0 <= j < |old(k.runq)| && j < |picks| ==> picks[j] == old(k.runq)[j]
    ensures |done| == |steps| && |picks| == PicksDone(steps, done)
    ensures LocksOk(k.locks, k.inside) <==> old(LocksOk(k.locks, k.inside)) && fair
    ensures (forall i :: 0 <= i < |steps| ==> !Releases(steps[i])) ==> fair
  {
    hide Inv, LocksOk, PicksDone;
    ghost var q := k.runq;
    picks, added, done, fair := [], [], [], true;
    NoPicks();
    for i := 0 to |steps|
      invariant Inv(k) && picks + k.runq == q + added
      invariant |done| == i && |picks| == PicksDone(steps[..i], done)
      invariant LocksOk(k.locks, k.inside) <==> old(LocksOk(k.locks, k.inside)) && fair
      invariant (forall j :: 0 <= j < i ==> !Releases(steps[j])) ==> fair
    {
      var can := Enabled(k, steps[i]);
      OneMore(steps, done, i, can);
      done := done + [can];
      if can {
        ghost var was := k.runq;
        fair := fair && Fair(k, steps[i]);
        var one, more := TakeOne(k, steps[i]);
        Chain(picks, was, q, added, one, k.runq, more);
        picks, added := picks + one, added + more;
      }
    }
    assert steps[..|steps|] == steps;
    InFront(picks, k.runq, q, added);
  }

  /** thread_bootstrap and create_pid_list, with some semaphores and locks already made (a new
      lock's lock_thread can be anything). */
  method Boot(boot: int, sems: map<int, int>, locks: map<int, Lock>) returns (k: Kernel)
    requires sems.Keys !! locks.Keys && (forall s :: s in sems ==> sems[s] >= 0) && forall l :: l in locks ==>
      locks[l].count == 1
    ensures fresh(k) && Inv(k) && k.cur == Some(boot) && k.live == {boot} && k.numthreads == 1 && k.sems == sems &&
      k.locks == locks
    ensures LocksOk(k.locks, k.inside)
  {
    k := new Kernel(boot, sems, locks);
    assert EntryOk(k.pids, k.sems, 0) && Has(k.pids, k.pidOf, boot, false);
    assert k.live + k.embryo == {boot};
  }

  /** No wakeup is lost: whoever sleeps on a semaphore finds it at zero, and on a lock, with a thread
      inside. */
  lemma NoLostWakeup(k: Kernel, t: int)
    requires Inv(k) && t in k.sleepers
    ensures t in k.addr
    ensures k.addr[t] in k.sems ==> k.sems[k.addr[t]] == 0
    ensures k.addr[t] in k.locks ==>
      k.locks[k.addr[t]].count == 0 && k.addr[t] in k.inside && k.inside[k.addr[t]] != multiset{}
  {
    hide Placed, SemsOk, PidsOk;
    var a := k.addr[t];
    assert a in k.locks ==> a in k.inside && Counts(Guard(k.locks[a], k.inside[a]));
  }

  /** Live threads have different pids. */
  lemma PidsDistinct(k: Kernel, t: int, u: int)
    requires Inv(k) && t in k.live && u in k.live && t != u
    ensures t in k.pidOf && u in k.pidOf && k.pidOf[t] != k.pidOf[u]
  {
    hide Placed, Waiting, SemsOk, LocksCount, EntryOk;
    assert Has(k.pids, k.pidOf, t, false) && Has(k.pids, k.pidOf, u, false);
  }

  /** A semaphore's count is its initial count, and the number of Vs, less the completed Ps; while
      the locks are exact at most one thread is inside each, and none exactly if it is free. */
  lemma CountsExact(k: Kernel, s: int, l: int)
    requires Inv(k) && s in k.sems && l in k.locks
    ensures s in k.hist && 0 <= k.sems[s] == k.hist[s].initial + k.hist[s].vs - k.hist[s].ps
    ensures l in k.inside && 1 <= k.locks[l].count + |k.inside[l]|
    ensures LocksOk(k.locks, k.inside) ==>
      |k.inside[l]| <= 1 && (k.locks[l].count > 0 <==> k.inside[l] == multiset{}) &&
      (k.locks[l].count == 0 ==> k.locks[l].thread.Some? && k.locks[l].thread.value in k.inside[l])
  {
    hide Placed, Waiting, PidsOk;
    assert Counts(Guard(k.locks[l], k.inside[l]));
    assert LocksOk(k.locks, k.inside) ==> Exact(Guard(k.locks[l], k.inside[l]));
  }

  /** Entry i is for pid i + 1; its semaphore tells whether a thread with that pid is still running. */
  lemma EntryTells(k: Kernel, i: int)
    requires Inv(k) && 0 < i < |k.pids|
    ensures k.pids[i].value == i + 1 && k.pids[i].sem in k.sems
    ensures k.sems[k.pids[i].sem] == if k.pids[i].used && !k.pids[i].didExit then 0 else 1
  {
    hide Placed, Waiting, SemsOk, LocksCount;
    assert EntryOk(k.pids, k.sems, i);
  }
}
