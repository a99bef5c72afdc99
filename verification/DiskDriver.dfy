/** The handshake of kern/dev/lamebus/lhd.c: any number of threads in lhd_io, the interrupt handler
    lhd_irq and the disk itself, meeting through registers and two semaphores. */
module DiskDriver {
  import opened Basics

  /** One sector to move: data is what a writer has to write. */
  datatype Req = Req(write: bool, sector: int, data: int)

  datatype Code = Ok | InvSect | Media

  /** The status register. */
  datatype Stat = Idle | Working(write: bool) | Finished(code: Code)

  /** How far a thread has come in a turn of the loop of lhd_io. */
  datatype Phase =
    | Outside
    | Asking(r: Req)                      // at P(lh_clear)
    | Admitted(r: Req)                    // past it
    | Loaded(r: Req)                      // a writer's data is in the buffer
    | Aimed(r: Req)                       // the sector register is set
    | Started(r: Req)                     // the status register is set; at P(lh_done)
    | Completed(r: Req)                   // past it
    | Informed(r: Req, result: Code)      // the result is read
    | Served(r: Req, result: Code, fault: bool, moved: bool, got: int)  // a reader's data is out, or a fault

  /** What the disk carried out last, as it found it in its registers: the how-manieth request that
      was started, for which thread, which sector, with what to write, and what became of it. */
  datatype Outcome = Outcome(start: nat, thread: Option<int>, write: bool, sector: int, data: int, code: Code)

  /** owner is the thread let in by lh_clear, starts the number of requests started; no code looks at
      them or at outcome. */
  datatype State = State(disk: seq<int>, clear: int, done: int, result: Code, buf: int, sect: int, stat: Stat,
                         phase: map<int, Phase>, outcome: Outcome, owner: Option<int>, starts: nat)

  datatype Event =
    | Ask(t: int, r: Req) | PClear(t: int) | Load(t: int, fault: bool) | Aim(t: int) | Start(t: int) | PDone(t: int)
    | ReadResult(t: int) | MoveOut(t: int, fault: bool) | VClear(t: int)
    | Device(code: Code)                  // the disk finishes
    | Irq                                 // the interrupt handler runs

  function At(s: State, t: int): Phase {
    if t in s.phase then s.phase[t] else Outside
  }

  predicate Enabled(s: State, e: Event) {
    match e
    case Ask(t, r) => At(s, t).Outside? && 0 <= r.sector < |s.disk|
    case PClear(t) => At(s, t).Asking? && s.clear > 0
    case Load(t, fault) => At(s, t).Admitted? && (fault ==> At(s, t).r.write)
    case Aim(t) => At(s, t).Loaded?
    case Start(t) => At(s, t).Aimed?
    case PDone(t) => At(s, t).Started? && s.done > 0
    case ReadResult(t) => At(s, t).Completed?
    case MoveOut(t, fault) => At(s, t).Informed?
    case VClear(t) => At(s, t).Served?
    case Device(_) => s.stat.Working?
    case Irq => true
  }

  function Move(s: State, t: int, p: Phase): State {
    s.(phase := s.phase[t := p])
  }

  /** What an event does. */
  function Next(s: State, e: Event): State
    requires Enabled(s, e)
  {
    match e
    case Ask(t, r) => Move(s, t, Asking(r))
    case PClear(t) => Move(s, t, Admitted(At(s, t).r)).(clear := s.clear - 1, owner := Some(t))
    case Load(t, fault) =>
      var r := At(s, t).r;
      if fault then Move(s, t, Outside).(clear := s.clear + 1, owner := None)
      else if r.write then Move(s, t, Loaded(r)).(buf := r.data)
      else Move(s, t, Loaded(r))
    case Aim(t) => Move(s, t, Aimed(At(s, t).r)).(sect := At(s, t).r.sector)
    case Start(t) => Move(s, t, Started(At(s, t).r)).(stat := Working(At(s, t).r.write), starts := s.starts + 1)
    case PDone(t) => Move(s, t, Completed(At(s, t).r)).(done := s.done - 1)
    case ReadResult(t) => Move(s, t, Informed(At(s, t).r, s.result))
    case MoveOut(t, fault) =>
      var r, res := At(s, t).r, At(s, t).result;
      Move(s, t, Served(r, res, fault, res.Ok? && !r.write && !fault, s.buf))
    case VClear(t) => Move(s, t, Outside).(clear := s.clear + 1, owner := None)
    case Device(code) =>
      var s' := s.(stat := Finished(code), outcome := Outcome(s.starts, s.owner, s.stat.write, s.sect, s.buf, code));
      if code != Ok || !(0 <= s.sect < |s.disk|) then s'
      else if s.stat.write then s'.(disk := s.disk[s.sect := s.buf])
      else s'.(buf := s.disk[s.sect])
    case Irq =>
      if s.stat.Finished? then s.(stat := Idle, result := s.stat.code, done := s.done + 1) else s
  }

  /** Thread t has been let in and has not left. */
  predicate Inside(s: State, t: int) {
    !At(s, t).Outside? && !At(s, t).Asking?
  }

  /** The request was carried out. */
  ghost predicate Done(s: State, r: Req) {
    && 0 <= r.sector < |s.disk|
    && if r.write then s.disk[r.sector] == r.data else s.buf == s.disk[r.sector]
  }

  /** What the disk carried out last is request r, the last one that was started, for the thread
      inside. */
  ghost predicate Carried(s: State, r: Req) {
    && s.outcome.start == s.starts && s.outcome.thread == s.owner
    && s.outcome.write == r.write && s.outcome.sector == r.sector && (r.write ==> s.outcome.data == r.data)
    && (s.outcome.code == Ok ==> Done(s, r))
  }

  /** What is known while the thread inside is at phase p. */
  ghost predicate PhaseOk(s: State, p: Phase) {
    && !p.Outside? && !p.Asking? && 0 <= p.r.sector < |s.disk|
    && (!p.Started? ==> s.stat == Idle && s.done == 0)
    && (p.Loaded? || p.Aimed? || (p.Started? && s.stat.Working?) ==> p.r.write ==> s.buf == p.r.data)
    && (p.Aimed? || p.Started? ==> s.sect == p.r.sector)
    && (p.Started? ==>
          && 0 <= s.done <= 1 && (s.done == 1 <==> s.stat == Idle)
          && (s.stat.Working? ==> s.stat.write == p.r.write)
          && (s.stat.Finished? ==> s.stat.code == s.outcome.code)
          && (s.done == 1 ==> s.result == s.outcome.code)
          && (!s.stat.Working? ==> Carried(s, p.r)))
    && (p.Completed? ==> s.result == s.outcome.code && Carried(s, p.r))
    && (p.Informed? ==> p.result == s.outcome.code && Carried(s, p.r))
    && (p.Served? ==>
      && p.result == s.outcome.code && Carried(s, p.r)
      && (if p.result == Ok && !p.r.write && !p.fault then p.moved && p.got == s.disk[p.r.sector] else !p.moved))
  }

  /** A thread other than the owner is outside, or waits with a good request. */
  ghost predicate Waits(s: State, t: int) {
    s.owner != Some(t) ==> !Inside(s, t) && (At(s, t).Asking? ==> 0 <= At(s, t).r.sector < |s.disk|)
  }

  /** At most one thread is inside; when none is, the semaphores and the disk are at rest. */
  ghost predicate Inv(s: State) {
    && (forall t :: Waits(s, t))
    && (s.owner.Some? ==> s.clear == 0 && PhaseOk(s, At(s, s.owner.value)))
    && (s.owner.None? ==> s.clear == 1 && s.done == 0 && s.stat == Idle)
  }

  predicate Initial(s: State) {
    s.clear == 1 && s.done == 0 && s.stat == Idle && s.phase == map[] && s.owner == None
  }

  lemma InitialOk(s: State)
    requires Initial(s)
    ensures Inv(s)
  {
  }

  lemma WaitsKept(s: State, s': State, t: int)
    requires Inv(s) && s'.phase == s.phase[t := At(s', t)] && |s'.disk| == |s.disk|
    requires (s'.owner == s.owner && s.owner != Some(t) ==> Waits(s', t)) &&
      (s'.owner == s.owner || s.owner == Some(t) || s.owner == None)
    requires s'.owner != s.owner ==> s'.owner == Some(t) || (s'.owner == None && Waits(s', t))
    ensures forall u :: Waits(s', u)
  {
    forall u
      ensures Waits(s', u)
    {
      assert Waits(s, u);
      assert u != t ==> At(s', u) == At(s, u);
    }
  }

  /** Every event keeps the invariant. */
  lemma Preserved(s: State, e: Event)
    requires Inv(s) && Enabled(s, e)
    ensures Inv(Next(s, e))
  {
    var s' := Next(s, e);
    if e.Device? || e.Irq? {
      forall u
        ensures Waits(s', u)
      {
        assert Waits(s, u);
      }
    } else {
      assert Waits(s, e.t);
      WaitsKept(s, s', e.t);
    }
  }

  // ---- whole runs ----

  /** The states of a run: es are the events, each enabled when it happens. */
  ghost predicate Runs(s: State, es: seq<Event>, s': State)
    decreases |es|
  {
    if es == [] then s' == s else Enabled(s, es[0]) && Runs(Next(s, es[0]), es[1..], s')
  }

  lemma {:induction false} RunSafe(s: State, es: seq<Event>, s': State)
    requires Inv(s) && Runs(s, es, s')
    ensures Inv(s')
    decreases |es|
  {
    if es != [] {
      Preserved(s, es[0]);
      RunSafe(Next(s, es[0]), es[1..], s');
    }
  }

  /** In every run, for any number of threads and any timing of the disk and its interrupt: at most
      one request is outstanding, and lh_done is never above 1. */
  lemma OneOutstanding(s: State, es: seq<Event>, s': State, t: int, u: int)
    requires Initial(s) && Runs(s, es, s')
    ensures Inside(s', t) && Inside(s', u) ==> t == u
    ensures s'.stat != Idle ==> s'.owner.Some? && At(s', s'.owner.value).Started?
    ensures 0 <= s'.done <= 1
  {
    InitialOk(s);
    RunSafe(s, es, s');
    assert Waits(s', t) && Waits(s', u);
  }

  /** While the disk works, no thread overwrites the sector register, the status or the buffer. */
  lemma RegistersStable(s: State, e: Event)
    requires Inv(s) && Enabled(s, e) && s.stat.Working? && !e.Device?
    ensures var s' := Next(s, e); s'.sect == s.sect && s'.buf == s.buf && s'.stat == s.stat
  {
    if !e.Irq? {
      assert Waits(s, e.t);
    }
  }

  /** A thread that leaves has the result of its own request: the last request started and carried out
      was its own, with its sector and its data, and the result is what became of it; if it
      succeeded, a writer's data is on the disk, and a reader whose memory is good has what the disk
      holds.  Nothing is moved out in any other case. */
  lemma OwnResult(s: State, es: seq<Event>, s': State, t: int)
    requires Initial(s) && Runs(s, es, s') && At(s', t).Served?
    ensures var p := At(s', t);
            && s'.outcome.start == s'.starts && s'.outcome.thread == Some(t) && p.result == s'.outcome.code
            && s'.outcome.write == p.r.write && s'.outcome.sector == p.r.sector
            && (p.r.write ==> s'.outcome.data == p.r.data)
            && 0 <= p.r.sector < |s'.disk|
            && (p.result == Ok && p.r.write ==> s'.disk[p.r.sector] == p.r.data)
            && (p.result == Ok && !p.r.write && !p.fault ==> p.moved && p.got == s'.disk[p.r.sector])
            && (p.r.write || p.result != Ok || p.fault ==> !p.moved)
  {
    InitialOk(s);
    RunSafe(s, es, s');
    assert Waits(s', t);
  }

  // ---- one request after another ----

  /** The driver at rest: no request, no thread inside. */
  predicate AtRest(s: State) {
    s.clear == 1 && s.done == 0 && s.stat == Idle && s.owner == None
  }

  /** A request by thread t, all by itself. */
  function Request(t: int, r: Req, code: Code): seq<Event> {
    [Ask(t, r), PClear(t), Load(t, false), Aim(t), Start(t), Device(code), Irq, PDone(t), ReadResult(t),
     MoveOut(t, false)]
  }

  lemma {:induction false} RunsOn(s: State, es: seq<Event>, m: State, fs: seq<Event>, s': State)
    requires Runs(s, es, m) && Runs(m, fs, s')
    ensures Runs(s, es + fs, s')
    decreases |es|
  {
    if es == [] {
      assert es + fs == fs;
    } else {
      assert (es + fs)[1..] == es[1..] + fs;
      RunsOn(Next(s, es[0]), es[1..], m, fs, s');
    }
  }

  lemma FiveEvents(s: State, a: Event, b: Event, c: Event, d: Event, e: Event, s1: State, s2: State, s3: State,
                   s4: State, s': State)
    requires Enabled(s, a) && s1 == Next(s, a) && Enabled(s1, b) && s2 == Next(s1, b)
    requires Enabled(s2, c) && s3 == Next(s2, c) && Enabled(s3, d) && s4 == Next(s3, d)
    requires Enabled(s4, e) && s' == Next(s4, e)
    ensures Runs(s, [a, b, c, d, e], s')
  {
    hide Enabled, Next;
    assert [e][1..] == [] && Runs(s4, [e], s');
    assert [d, e][1..] == [e] && Runs(s3, [d, e], s');
    assert [c, d, e][1..] == [d, e] && Runs(s2, [c, d, e], s');
    assert [b, c, d, e][1..] == [c, d, e] && Runs(s1, [b, c, d, e], s');
    assert [a, b, c, d, e][1..] == [b, c, d, e];
  }

  /** The first half: the disk is working on the request. */
  lemma Asked(s: State, t: int, r: Req) returns (m: State)
    requires AtRest(s) && At(s, t).Outside? && 0 <= r.sector < |s.disk|
    ensures Runs(s, [Ask(t, r), PClear(t), Load(t, false), Aim(t), Start(t)], m)
    ensures m.disk == s.disk && m.clear == 0 && m.done == 0 && m.stat == Working(r.write) && m.sect == r.sector &&
      At(m, t) == Started(r)
    ensures r.write ==> m.buf == r.data
  {
    hide Runs;
    var s1 := Next(s, Ask(t, r));
    var s2 := Next(s1, PClear(t));
    var s3 := Next(s2, Load(t, false));
    var s4 := Next(s3, Aim(t));
    m := Next(s4, Start(t));
    FiveEvents(s, Ask(t, r), PClear(t), Load(t, false), Aim(t), Start(t), s1, s2, s3, s4, m);
  }

  /** The second half: the disk finishes, and the thread takes the result. */
  lemma Answered(s: State, t: int, r: Req, code: Code) returns (m: State)
    requires s.clear == 0 && s.done == 0 && s.stat == Working(r.write) && s.sect == r.sector && At(s, t) == Started(r)
    requires 0 <= r.sector < |s.disk| && (r.write ==> s.buf == r.data)
    ensures Runs(s, [Device(code), Irq, PDone(t), ReadResult(t), MoveOut(t, false)], m)
    ensures At(m, t).Served? && At(m, t).result == code && At(m, t).moved == (code == Ok && !r.write)
    ensures At(m, t).moved ==> At(m, t).got == s.disk[r.sector]
    ensures m.disk == (if code == Ok && r.write then s.disk[r.sector := r.data] else s.disk) && m.clear == 0
    ensures m.done == 0 && m.stat == Idle
  {
    hide Runs;
    var s1 := Next(s, Device(code));
    var s2 := Next(s1, Irq);
    var s3 := Next(s2, PDone(t));
    var s4 := Next(s3, ReadResult(t));
    m := Next(s4, MoveOut(t, false));
    FiveEvents(s, Device(code), Irq, PDone(t), ReadResult(t), MoveOut(t, false), s1, s2, s3, s4, m);
  }

  lemma Leaves(s: State, t: int)
    requires At(s, t).Served? && s.clear == 0 && s.done == 0 && s.stat == Idle
    ensures Enabled(s, VClear(t)) && AtRest(Next(s, VClear(t))) && Next(s, VClear(t)).disk == s.disk
  {
  }

  /** A request at rest goes through: a read brings the sector, a write changes exactly its sector,
      and an error brings its code and changes nothing.  When the thread leaves, the driver is at rest
      again. */
  lemma GoesThrough(s: State, t: int, r: Req, code: Code) returns (s': State)
    requires AtRest(s) && At(s, t).Outside? && 0 <= r.sector < |s.disk|
    ensures Runs(s, Request(t, r, code), s')
    ensures At(s', t).Served? && At(s', t).result == code && At(s', t).moved == (code == Ok && !r.write)
    ensures At(s', t).moved ==> At(s', t).got == s.disk[r.sector]
    ensures s'.disk == if code == Ok && r.write then s.disk[r.sector := r.data] else s.disk
    ensures Enabled(s', VClear(t)) && AtRest(Next(s', VClear(t))) && Next(s', VClear(t)).disk == s'.disk
  {
    hide Next, Enabled, Runs;
    var m := Asked(s, t, r);
    s' := Answered(m, t, r, code);
    RunsOn(s, [Ask(t, r), PClear(t), Load(t, false), Aim(t), Start(t)], m,
           [Device(code), Irq, PDone(t), ReadResult(t), MoveOut(t, false)], s');
    assert Request(t, r, code) == [Ask(t, r), PClear(t), Load(t, false), Aim(t), Start(t)]
      + [Device(code), Irq, PDone(t), ReadResult(t), MoveOut(t, false)];
    Leaves(s', t);
  }

  /** What the thread inside does next, or what it waits for. */
  function Onward(s: State, t: int): Event {
    match At(s, t)
    case Admitted(_) => Load(t, false)
    case Loaded(_) => Aim(t)
    case Aimed(_) => Start(t)
    case Started(_) => if s.done > 0 then PDone(t) else if s.stat.Working? then Device(Ok) else Irq
    case Completed(_) => ReadResult(t)
    case Informed(_, _) => MoveOut(t, false)
    case _ => VClear(t)
  }

  /** In every run some event can happen that is not a new request: a thread inside, the disk or the
      interrupt handler can go on, or a thread that waits can enter. */
  lemma NeverStuck(s: State, es: seq<Event>, s': State, t: int)
    requires Initial(s) && Runs(s, es, s') && !At(s', t).Outside?
    ensures exists e :: Enabled(s', e) && !e.Ask? && Next(s', e) != s'
  {
    InitialOk(s);
    RunSafe(s, es, s');
    assert Waits(s', t);
    var e := if s'.owner.None? then PClear(t) else Onward(s', s'.owner.value);
    assert Enabled(s', e) && Next(s', e) != s';
  }
}
