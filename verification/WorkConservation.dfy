/** No CPU idles beside a ready program, and no program waits in New below the degree of
    multiprogramming. */
module WorkConservation {
  import opened Wrappers
  import opened Lists
  import opened Scheduler
  import opened SchedulerRuns

  predicate Busy(cpus: seq<Cpu>, from: nat) {
    forall k :: from <= k < |cpus| ==> cpus[k].program.Some?
  }

  /** Programs in Ready and on the CPUs, as `planificador_largo_plazo` counts them. */
  function Load(s: Kernel): nat {
    |s.ready| + |OnCpu(s.cpus)|
  }

  predicate ReadyServed(s: Kernel) {
    s.ready != [] ==> Busy(s.cpus, 0)
  }

  predicate NewServed(cfg: Config, s: Kernel) {
    s.newPrograms != [] ==> Load(s) >= cfg.degree
  }

  predicate Working(cfg: Config, s: Kernel) {
    ReadyServed(s) && NewServed(cfg, s)
  }

  lemma CpuCount(cpus: seq<Cpu>, i: nat, p: Option<Pid>)
    requires i < |cpus|
    ensures |OnCpu(cpus[i := cpus[i].(program := p)])| == |OnCpu(cpus)| - |Held(cpus[i].program)| + |Held(p)|
    ensures |OnCpu(RemoveAt(cpus, i))| == |OnCpu(cpus)| - |Held(cpus[i].program)|
  {
    hide OnCpu, RemoveAt, Held;
    CpuContents(cpus, i, p);
    SameSize(OnCpu(cpus), OnCpu(RemoveAt(cpus, i)), Held(cpus[i].program));
    SameSize(OnCpu(cpus[i := cpus[i].(program := p)]), OnCpu(RemoveAt(cpus, i)), Held(p));
  }

  lemma SameSize(a: seq<Pid>, b: seq<Pid>, c: seq<Pid>)
    requires multiset(a) == multiset(b) + multiset(c)
    ensures |a| == |b| + |c|
  {
    assert |multiset(a)| == |a| && |multiset(b)| == |b| && |multiset(c)| == |c|;
  }

  // ----- the planners

  /** The long-term planner leaves nobody in New below the degree, and admits nobody above. */
  lemma {:induction false} AdmitFills(cfg: Config, s: Kernel, running: int)
    requires Known(s)
    ensures var s' := Admit(cfg, s, running);
            && (s'.newPrograms != [] ==> running + |s'.ready| - |s.ready| >= cfg.degree)
            && s.ready <= s'.ready && s'.cpus == s.cpus
            && (|s'.ready| > |s.ready| ==> running + |s'.ready| - |s.ready| <= cfg.degree)
    decreases |s.newPrograms|
  {
    if running < cfg.degree && s.newPrograms != [] {
      var p := s.newPrograms[0];
      var s1 := s.(newPrograms := s.newPrograms[1..]);
      if cfg.admission(p) != 0 {
        AdmitFills(cfg, FinishWith(s1, p, cfg.admission(p)), running);
      } else {
        AdmitFills(cfg, s1.(ready := s1.ready + [p]), running + 1);
      }
    }
  }

  lemma LongTermServes(cfg: Config, s: Kernel)
    requires Known(s)
    ensures Known(LongTerm(cfg, s)) && LongTerm(cfg, s).cpus == s.cpus && s.ready <= LongTerm(cfg, s).ready
    ensures NewServed(cfg, LongTerm(cfg, s))
    ensures NewServed(cfg, s) ==> LongTerm(cfg, s) == s
    ensures |LongTerm(cfg, s).ready| > |s.ready| ==> Load(LongTerm(cfg, s)) <= cfg.degree
  {
    AdmitKnown(cfg, s, Load(s));
    AdmitFills(cfg, s, Load(s));
    hide OnCpu, Known;
  }

  /** Handing out a ready program leaves the load as it is. */
  lemma DispatchServes(cfg: Config, s: Kernel, i: nat)
    requires Known(s) && i < |s.cpus| && s.cpus[i].program.None?
    ensures var s' := Dispatch(cfg, s, i);
            && Load(s') == Load(s) && s'.newPrograms == s.newPrograms
            && s'.ready == (if s.ready == [] then [] else s.ready[1..])
            && |s'.cpus| == |s.cpus| && (s.ready != [] ==> s'.cpus[i].program.Some?)
            && forall k :: 0 <= k < |s.cpus| && k != i ==> s'.cpus[k] == s.cpus[k]
    ensures s.ready == [] ==> Dispatch(cfg, s, i) == s
  {
    if s.ready == [] {
      assert s.cpus[i := s.cpus[i].(program := None)] == s.cpus;
    } else {
      CpuCount(s.cpus, i, Some(s.ready[0]));
    }
    hide OnCpu;
  }

  /** Filling the idle CPUs: one stays idle only if nothing is ready. */
  lemma {:induction false} PlanIdleServes(cfg: Config, s: Kernel, i: nat)
    requires Known(s) && i <= |s.cpus| && NewServed(cfg, s)
    ensures var s' := PlanIdle(cfg, s, i);
            && NewServed(cfg, s') && |s'.cpus| == |s.cpus|
            && (s'.ready != [] ==> Busy(s'.cpus, i))
            && (s.ready == [] ==> s'.ready == [])
            && forall k :: 0 <= k < i ==> s'.cpus[k] == s.cpus[k]
    decreases |s.cpus| - i
  {
    hide Admit, Dispatch, Known, OnCpu, LongTerm;
    if i == |s.cpus| {
    } else if s.cpus[i].program.None? {
      PlanKnown(cfg, s, i);
      LongTermServes(cfg, s);
      DispatchServes(cfg, s, i);
      hide Load;
      PlanIdleServes(cfg, Plan(cfg, s, i), i + 1);
    } else {
      PlanIdleServes(cfg, s, i + 1);
    }
  }

  // ----- the requests

  /** The interruption takes a program out of Ready. */
  predicate HitsReady(s: Kernel, socket: int) {
    && FirstWhere(s.cpus, CpuHasSocket(s, socket)) == |s.cpus|
    && FirstWhere(s.newPrograms, HasSocket(s, socket)) == |s.newPrograms|
    && FirstWhere(s.blocked, HasSocket(s, socket)) == |s.blocked|
    && FirstWhere(s.ready, HasSocket(s, socket)) < |s.ready|
  }

  /** The request takes a ready or running program away without planning again, and New
      holds one that could take its place. */
  predicate Starves(cfg: Config, s: Kernel, e: Event)
    requires Enabled(s, e)
  {
    && ((e.CpuLost? && s.cpus[e.cpu].program.Some?) || (e.Interrupt? && HitsReady(s, e.socket)))
    && s.newPrograms != [] && Load(s) <= cfg.degree
  }

  lemma NewProgramServes(cfg: Config, s: Kernel, pid: Pid, socket: int)
    requires Known(s) && pid !in s.programs
    ensures Working(cfg, Step(cfg, s, NewProgram(pid, socket)))
  {
    hide Admit, Known, OnCpu, LongTerm, PlanIdle;
    var s1 := Arrived(s, pid, socket);
    ArrivedKnown(s, pid, socket);
    LongTermServes(cfg, s1);
    PlanIdleServes(cfg, LongTerm(cfg, s1), 0);
  }

  lemma NewCpuServes(cfg: Config, s: Kernel, socket: int)
    requires Known(s) && Working(cfg, s)
    ensures Working(cfg, Step(cfg, s, NewCpu(socket)))
  {
    hide Admit, Known, OnCpu, LongTerm, Dispatch;
    var s1 := s.(cpus := s.cpus + [Cpu(socket, None)]);
    NewCpuKnown(s, socket);
    OnCpuAppend(s.cpus, [Cpu(socket, None)]);
    OnCpuOne(Cpu(socket, None));
    assert Load(s1) == Load(s);
    LongTermServes(cfg, s1);
    DispatchServes(cfg, s1, |s.cpus|);
  }

  lemma EndBurstServes(cfg: Config, s: Kernel, i: nat, terminated: bool)
    requires Known(s) && BusyCpu(s, i) && Working(cfg, s)
    ensures Working(cfg, Step(cfg, s, EndBurst(i, terminated)))
  {
    hide Admit, Known, OnCpu, LongTerm, Dispatch;
    EndedKnown(s, i, terminated);
    CpuCount(s.cpus, i, None);
    var s1 := Ended(s, i, terminated);
    assert s1.newPrograms == s.newPrograms && |OnCpu(s1.cpus)| == |OnCpu(s.cpus)| - 1;
    assert s1.ready == s.ready + [Running(s, i)] || s1.ready == s.ready;
    assert s1.cpus[i].program.None?;
    assert forall k :: 0 <= k < |s.cpus| && k != i ==> s1.cpus[k] == s.cpus[k];
    hide Ended;
    LongTermServes(cfg, s1);
    var s2 := LongTerm(cfg, s1);
    DispatchServes(cfg, s2, i);
    if s.ready == [] {
      AtMostOneReady(cfg, s, s1, s2);
    }
  }

  /** When a CPU falls idle beside an empty Ready queue, at most one program gets ready. */
  lemma AtMostOneReady(cfg: Config, s: Kernel, s1: Kernel, s2: Kernel)
    requires NewServed(cfg, s) && s.ready == [] && |s1.ready| <= 1 && s1.newPrograms == s.newPrograms
    requires |OnCpu(s1.cpus)| == |OnCpu(s.cpus)| - 1 && s2.cpus == s1.cpus
    requires NewServed(cfg, s1) ==> s2 == s1
    requires |s2.ready| > |s1.ready| ==> Load(s2) <= cfg.degree
    ensures |s2.ready| <= 1
  {
    hide OnCpu;
  }

  lemma SignalServes(cfg: Config, s: Kernel, i: nat, sem: string)
    requires Known(s) && BusyCpu(s, i) && Working(cfg, s)
    ensures Working(cfg, Step(cfg, s, Signal(i, sem)))
  {
    hide Known, OnCpu, PlanIdle, Unblock;
    RunningKnown(s, i);
    if sem in s.semaphores {
      UnblockServes(cfg, s, s.(semaphores := s.semaphores[sem := s.semaphores[sem] + 1]), sem);
    }
  }

  lemma UnblockServes(cfg: Config, s: Kernel, s1: Kernel, sem: string)
    requires Known(s) && Working(cfg, s) && s1 == s.(semaphores := s1.semaphores)
    ensures Known(s1) && Working(cfg, Unblock(cfg, s1, sem))
  {
    var i := FirstWhere(s1.blocked, OnSemaphore(s1, sem));
    if i < |s1.blocked| {
      WokenKnown(s1, i);
      hide Known, OnCpu, PlanIdle, FirstWhere, RemoveAt;
      PlanIdleServes(cfg, Woken(s1, i), 0);
    }
  }

  lemma WokenKnown(s: Kernel, i: nat)
    requires Known(s) && i < |s.blocked|
    ensures s.blocked[i] in s.programs && Known(Woken(s, i))
  {
    hide OnCpu;
  }

  lemma InterruptServes(cfg: Config, s: Kernel, socket: int, code: int, override: bool)
    requires Known(s) && Working(cfg, s)
    ensures Working(cfg, Interrupted(s, socket, code, override)) <==>
            !Starves(cfg, s, Interrupt(socket, code, override))
  {
    hide OnCpu, Known;
    if HitsReady(s, socket) {
      var r := FirstWhere(s.ready, HasSocket(s, socket));
      hide FirstWhere;
      assert |RemoveAt(s.ready, r)| == |s.ready| - 1;
      assert Interrupted(s, socket, code, override).newPrograms == s.newPrograms;
      assert Load(Interrupted(s, socket, code, override)) == Load(s) - 1;
    } else {
      hide FirstWhere;
      assert Load(Interrupted(s, socket, code, override)) == Load(s);
    }
  }

  lemma LostServes(cfg: Config, s: Kernel, i: nat)
    requires Known(s) && Working(cfg, s) && i < |s.cpus|
    ensures Working(cfg, Lost(s, i)) <==> !Starves(cfg, s, CpuLost(i))
  {
    CpuCount(s.cpus, i, None);
    var s' := Lost(s, i);
    hide OnCpu, Known;
    assert s'.ready == s.ready && s'.newPrograms == s.newPrograms && s'.cpus == RemoveAt(s.cpus, i);
    assert Busy(s.cpus, 0) ==> Busy(s'.cpus, 0);
  }

  /** Every request keeps work conservation, except that a lost running program or an
      interrupted ready one can starve New; and it does so just when New holds a
      program that its place would have gone to. */
  lemma StepServes(cfg: Config, s: Kernel, e: Event)
    requires Known(s) && Enabled(s, e) && Working(cfg, s)
    ensures Working(cfg, Step(cfg, s, e)) <==> !Starves(cfg, s, e)
  {
    hide Known, OnCpu, Working, Plan, PlanIdle, Admit, Interrupted, Lost, Ended, HitsReady;
    match e
    case NewProgram(pid, socket) => NewProgramServes(cfg, s, pid, socket);
    case NewCpu(socket) => NewCpuServes(cfg, s, socket);
    case StillBurst(i) => SameQueuesServe(cfg, s, Step(cfg, s, e));
    case EndBurst(i, terminated) => EndBurstServes(cfg, s, i, terminated);
    case Wait(i, sem) => SameQueuesServe(cfg, s, Step(cfg, s, e));
    case Signal(i, sem) => SignalServes(cfg, s, i, sem);
    case Interrupt(socket, code, override) => InterruptServes(cfg, s, socket, code, override);
    case CpuLost(i) => LostServes(cfg, s, i);
  }

  lemma SameQueuesServe(cfg: Config, s: Kernel, s': Kernel)
    requires Working(cfg, s) && s'.ready == s.ready && s'.newPrograms == s.newPrograms && s'.cpus == s.cpus
    ensures Working(cfg, s')
  {
  }
}
