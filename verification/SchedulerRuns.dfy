/** What every run of the Kernel's scheduler keeps: no program is lost or duplicated, and
    the planners change nobody's waiting flag. */
module SchedulerRuns {
  import opened Wrappers
  import opened Lists
  import opened Scheduler

  // ----- conservation

  /** Where the programs are, with multiplicity. */
  ghost function Everywhere(s: Kernel): multiset<Pid> {
    InQueues(s) + multiset(OnCpu(s.cpus))
  }

  ghost function InQueues(s: Kernel): multiset<Pid> {
    multiset(s.newPrograms) + multiset(s.ready) + multiset(s.blocked) + multiset(s.finished)
  }

  /** Every accepted program is in exactly one place. */
  ghost predicate Conserved(s: Kernel) {
    Everywhere(s) == multiset(s.programs.Keys)
  }

  /** Every accepted program but `p` is in exactly one place, and `p` is in none. */
  ghost predicate Detached(s: Kernel, p: Pid) {
    Everywhere(s) + multiset{p} == multiset(s.programs.Keys)
  }

  /** An accepted program is in one place, once. */
  lemma Once(s: Kernel, p: Pid)
    requires Conserved(s) && p in s.programs
    ensures multiset(s.newPrograms)[p] + multiset(s.ready)[p] + multiset(s.blocked)[p] + multiset(s.finished)[p] +
            multiset(OnCpu(s.cpus))[p] == 1
  {
    hide OnCpu;
    assert multiset(s.programs.Keys)[p] == 1;
    assert Everywhere(s)[p] == 1;
  }

  lemma PlacesCount(s: Kernel)
    ensures forall q :: q in s.newPrograms || q in s.ready || q in s.blocked || q in s.finished || q in OnCpu(s.cpus)
                        <==> q in Everywhere(s)
  {
    hide OnCpu;
  }

  lemma ConservedIsKnown(s: Kernel)
    requires Conserved(s)
    ensures Known(s)
  {
    PlacesCount(s);
    hide Everywhere, OnCpu;
    assert forall p :: p in Everywhere(s) ==> p in s.programs.Keys;
  }

  lemma DetachedPlaces(s: Kernel, p: Pid)
    requires Detached(s, p)
    ensures Known(s) && p in s.programs && p !in s.finished
    ensures p !in s.newPrograms && p !in s.ready && p !in s.blocked && p !in OnCpu(s.cpus)
  {
    PlacesCount(s);
    hide Everywhere, OnCpu;
    var k := multiset(s.programs.Keys);
    assert k[p] == 1 && Everywhere(s)[p] == 0;
    assert forall q :: q in Everywhere(s) ==> q in k;
  }

  /** Queueing a detached program completes the count again. */
  lemma Queued(s: Kernel, p: Pid)
    requires Detached(s, p)
    ensures Conserved(s.(newPrograms := s.newPrograms + [p]))
    ensures Conserved(s.(ready := s.ready + [p]))
    ensures Conserved(s.(blocked := s.blocked + [p]))
    ensures Conserved(Finish(s, p))
  {
    DetachedPlaces(s, p);
    hide OnCpu, Known;
  }

  lemma TakenOut(q: seq<Pid>, i: nat)
    requires i < |q|
    ensures multiset(q) == multiset(RemoveAt(q, i)) + multiset{q[i]}
  {
    assert q == q[..i] + [q[i]] + q[i + 1..];
  }

  /** Taking a program out of a queue detaches it. */
  lemma TakeNew(s: Kernel, i: nat)
    requires Conserved(s) && i < |s.newPrograms|
    ensures Detached(s.(newPrograms := RemoveAt(s.newPrograms, i)), s.newPrograms[i])
  {
    TakenOut(s.newPrograms, i);
    hide RemoveAt, OnCpu;
  }

  lemma TakeReady(s: Kernel, i: nat)
    requires Conserved(s) && i < |s.ready|
    ensures Detached(s.(ready := RemoveAt(s.ready, i)), s.ready[i])
  {
    TakenOut(s.ready, i);
    hide RemoveAt, OnCpu;
  }

  lemma TakeBlocked(s: Kernel, i: nat)
    requires Conserved(s) && i < |s.blocked|
    ensures Detached(s.(blocked := RemoveAt(s.blocked, i)), s.blocked[i])
  {
    TakenOut(s.blocked, i);
    hide RemoveAt, OnCpu;
  }

  /** What CPU `i` holds, apart from the others. */
  lemma {:induction false} CpuApart(cpus: seq<Cpu>, i: nat)
    requires i < |cpus|
    ensures multiset(OnCpu(cpus)) == multiset(OnCpu(RemoveAt(cpus, i))) + multiset(Held(cpus[i].program))
  {
    hide Held, RemoveAt;
    RemovedTail(cpus, i);
    if i > 0 {
      CpuApart(cpus[1..], i - 1);
    }
  }

  lemma RemovedTail(cpus: seq<Cpu>, i: nat)
    requires i < |cpus|
    ensures i == 0 ==> RemoveAt(cpus, i) == cpus[1..]
    ensures i > 0 ==>
              RemoveAt(cpus, i) != [] && RemoveAt(cpus, i)[0] == cpus[0] && RemoveAt(cpus, i)[1..] == RemoveAt(cpus[1..], i - 1)
  {
  }

  lemma CpuContents(cpus: seq<Cpu>, i: nat, p: Option<Pid>)
    requires i < |cpus|
    ensures var others := multiset(OnCpu(RemoveAt(cpus, i)));
            && multiset(OnCpu(cpus)) == others + multiset(Held(cpus[i].program))
            && multiset(OnCpu(cpus[i := cpus[i].(program := p)])) == others + multiset(Held(p))
  {
    var cpus' := cpus[i := cpus[i].(program := p)];
    assert RemoveAt(cpus', i) == RemoveAt(cpus, i);
    hide OnCpu, RemoveAt;
    CpuApart(cpus, i);
    CpuApart(cpus', i);
  }

  lemma TakeFromCpu(s: Kernel, i: nat)
    requires Conserved(s) && BusyCpu(s, i)
    ensures Detached(s.(cpus := s.cpus[i := s.cpus[i].(program := None)]), Running(s, i))
    ensures Detached(s.(cpus := RemoveAt(s.cpus, i)), Running(s, i))
  {
    var none: Option<Pid> := None;
    assert multiset(Held(s.cpus[i].program)) == multiset{Running(s, i)} && multiset(Held(none)) == multiset{};
    hide RemoveAt, OnCpu, Held, Conserved, Detached;
    CpuContents(s.cpus, i, None);
    CpusReplaced(s, s.cpus[i := s.cpus[i].(program := None)], Running(s, i));
    CpusReplaced(s, RemoveAt(s.cpus, i), Running(s, i));
  }

  lemma CpusReplaced(s: Kernel, cpus: seq<Cpu>, p: Pid)
    requires Conserved(s) && multiset(OnCpu(s.cpus)) == multiset(OnCpu(cpus)) + multiset{p}
    ensures Detached(s.(cpus := cpus), p)
  {
    assert InQueues(s.(cpus := cpus)) == InQueues(s);
    hide OnCpu, InQueues;
  }

  lemma IdleCpuGone(s: Kernel, i: nat)
    requires Conserved(s) && i < |s.cpus| && s.cpus[i].program.None?
    ensures Conserved(s.(cpus := RemoveAt(s.cpus, i)))
  {
    CpuContents(s.cpus, i, None);
    hide RemoveAt, OnCpu;
  }

  lemma PutOnCpu(s: Kernel, i: nat, p: Pid)
    requires Detached(s, p) && i < |s.cpus| && s.cpus[i].program.None?
    ensures Conserved(s.(cpus := s.cpus[i := s.cpus[i].(program := Some(p))]))
  {
    CpuContents(s.cpus, i, Some(p));
    hide RemoveAt, OnCpu;
  }

  // ----- the planners conserve

  lemma {:induction false} AdmitConserves(cfg: Config, s: Kernel, running: int)
    requires Conserved(s)
    ensures Known(s) && Conserved(Admit(cfg, s, running))
    decreases |s.newPrograms|
  {
    ConservedIsKnown(s);
    if running < cfg.degree && s.newPrograms != [] {
      var p := s.newPrograms[0];
      var s1 := s.(newPrograms := s.newPrograms[1..]);
      assert RemoveAt(s.newPrograms, 0) == s.newPrograms[1..];
      TakeNew(s, 0);
      hide Everywhere;
      if cfg.admission(p) != 0 {
        FinishConserves(s1, p, cfg.admission(p));
        AdmitConserves(cfg, FinishWith(s1, p, cfg.admission(p)), running);
      } else {
        Queued(s1, p);
        AdmitConserves(cfg, s1.(ready := s1.ready + [p]), running + 1);
      }
    }
  }

  lemma DispatchConserves(cfg: Config, s: Kernel, i: nat)
    requires Conserved(s) && i < |s.cpus| && s.cpus[i].program.None?
    ensures Known(s) && Conserved(Dispatch(cfg, s, i))
  {
    ConservedIsKnown(s);
    if s.ready == [] {
      assert s.cpus[i := s.cpus[i].(program := None)] == s.cpus;
    } else {
      hide Conserved;
      DispatchMoves(cfg, s, i);
    }
  }

  lemma DispatchMoves(cfg: Config, s: Kernel, i: nat)
    requires Known(s) && Conserved(s) && i < |s.cpus| && s.cpus[i].program.None? && s.ready != []
    ensures Conserved(Dispatch(cfg, s, i))
  {
    KnownReady(s);
    hide Everywhere, OnCpu, RemoveAt, Detached, Conserved, Known;
    TakeReady(s, 0);
    HeadRemoved(s.ready);
    var s1 := s.(ready := s.ready[1..]);
    PutOnCpu(s1, i, s.ready[0]);
    SameKeysConserved(s1.(cpus := s.cpus[i := s.cpus[i].(program := Some(s.ready[0]))]), Dispatch(cfg, s, i));
  }

  lemma KnownReady(s: Kernel)
    requires Known(s)
    ensures forall p :: p in s.ready ==> p in s.programs
  {
  }

  lemma HeadRemoved(q: seq<Pid>)
    requires q != []
    ensures RemoveAt(q, 0) == q[1..]
  {
  }

  lemma SameKeysConserved(s: Kernel, s': Kernel)
    requires Conserved(s) && s'.programs.Keys == s.programs.Keys
    requires s' == s.(programs := s'.programs, semaphores := s'.semaphores)
    ensures Conserved(s')
  {
  }

  lemma SameKeysDetached(s: Kernel, p: Pid, program: Program)
    requires Detached(s, p)
    ensures Detached(Update(s, p, program), p)
  {
    DetachedPlaces(s, p);
    assert Update(s, p, program).programs.Keys == s.programs.Keys;
    hide OnCpu, Known;
  }

  lemma PlanConserves(cfg: Config, s: Kernel, i: nat)
    requires Conserved(s) && i < |s.cpus| && s.cpus[i].program.None?
    ensures Known(s) && Conserved(Plan(cfg, s, i))
  {
    hide Admit, Everywhere, Conserved, Dispatch, OnCpu;
    ConservedIsKnown(s);
    AdmitConserves(cfg, s, |s.ready| + |OnCpu(s.cpus)|);
    AdmitKnown(cfg, s, |s.ready| + |OnCpu(s.cpus)|);
    assert Known(LongTerm(cfg, s)) && LongTerm(cfg, s).cpus == s.cpus;
    DispatchConserves(cfg, LongTerm(cfg, s), i);
  }

  lemma {:induction false} PlanIdleConserves(cfg: Config, s: Kernel, i: nat)
    requires Conserved(s) && i <= |s.cpus|
    ensures Known(s) && Conserved(PlanIdle(cfg, s, i))
    decreases |s.cpus| - i
  {
    hide Conserved, Plan, Known, OnCpu;
    ConservedIsKnown(s);
    if i == |s.cpus| {
    } else if s.cpus[i].program.None? {
      PlanKnown(cfg, s, i);
      PlanConserves(cfg, s, i);
      PlanIdleConserves(cfg, Plan(cfg, s, i), i + 1);
    } else {
      PlanIdleConserves(cfg, s, i + 1);
    }
  }

  /** Every request leaves every accepted program in exactly one place. */
  lemma StepConserves(cfg: Config, s: Kernel, e: Event)
    requires Conserved(s) && Enabled(s, e)
    ensures Known(s) && Conserved(Step(cfg, s, e))
  {
    ConservedIsKnown(s);
    hide Step, Conserved;
    match e
    case StillBurst(_) => UpdateConserves(cfg, s, e);
    case Wait(_, _) => UpdateConserves(cfg, s, e);
    case Signal(_, sem) => if sem !in s.semaphores { UpdateConserves(cfg, s, e); } else { MoveConserves(cfg, s, e); }
    case _ => MoveConserves(cfg, s, e);
  }

  /** Requests that move no program. */
  lemma UpdateConserves(cfg: Config, s: Kernel, e: Event)
    requires Known(s) && Conserved(s) && Enabled(s, e)
    requires e.StillBurst? || e.Wait? || (e.Signal? && e.sem !in s.semaphores)
    ensures Conserved(Step(cfg, s, e))
  {
    RunningKnown(s, e.cpu);
    hide Everywhere, Conserved, OnCpu, Known;
    var s' := Step(cfg, s, e);
    assert s'.programs.Keys == s.programs.Keys;
    SameKeysConserved(s, s');
  }

  lemma MoveConserves(cfg: Config, s: Kernel, e: Event)
    requires Known(s) && Conserved(s) && Enabled(s, e)
    requires !e.StillBurst? && !e.Wait? && (e.Signal? ==> e.sem in s.semaphores)
    ensures Conserved(Step(cfg, s, e))
  {
    hide Everywhere, Conserved, OnCpu, Admit, Arrived, Plan, PlanIdle, Unblock, Interrupted, Lost, Ended, Known;
    match e
    case NewProgram(pid, socket) =>
      NewProgramConserves(cfg, s, pid, socket);
    case NewCpu(socket) =>
      NewCpuConserves(s, socket);
      PlanConserves(cfg, s.(cpus := s.cpus + [Cpu(socket, None)]), |s.cpus|);
    case EndBurst(i, terminated) =>
      EndedConserves(s, i, terminated);
      PlanConserves(cfg, Ended(s, i, terminated), i);
    case Signal(i, sem) =>
      var s1 := s.(semaphores := s.semaphores[sem := s.semaphores[sem] + 1]);
      SameKeysConserved(s, s1);
      UnblockConserves(cfg, s1, sem);
    case Interrupt(socket, code, override) =>
      InterruptedConserves(s, socket, code, override);
    case CpuLost(i) =>
      LostConserves(s, i);
  }

  lemma NewProgramConserves(cfg: Config, s: Kernel, pid: Pid, socket: int)
    requires Known(s) && Conserved(s) && pid !in s.programs
    ensures Conserved(Step(cfg, s, NewProgram(pid, socket)))
  {
    hide Everywhere, Conserved, OnCpu, Admit, PlanIdle;
    var s1 := Arrived(s, pid, socket);
    ArrivedConserves(s, pid, socket);
    ArrivedKnown(s, pid, socket);
    AdmitConserves(cfg, s1, |s1.ready| + |OnCpu(s1.cpus)|);
    PlanIdleConserves(cfg, LongTerm(cfg, s1), 0);
  }

  lemma ArrivedConserves(s: Kernel, pid: Pid, socket: int)
    requires Conserved(s) && pid !in s.programs
    ensures Conserved(Arrived(s, pid, socket))
  {
    KeyAdded(s.programs, pid, Program(socket, false, "", 0, 1, 0));
    hide OnCpu;
  }

  lemma KeyAdded(programs: map<Pid, Program>, pid: Pid, program: Program)
    requires pid !in programs
    ensures multiset(programs[pid := program].Keys) == multiset(programs.Keys) + multiset{pid}
  {
    assert programs[pid := program].Keys == programs.Keys + {pid};
  }

  lemma NewCpuConserves(s: Kernel, socket: int)
    requires Conserved(s)
    ensures Conserved(s.(cpus := s.cpus + [Cpu(socket, None)]))
  {
    OnCpuAppend(s.cpus, [Cpu(socket, None)]);
    OnCpuOne(Cpu(socket, None));
    hide OnCpu;
    assert OnCpu(s.cpus) + [] == OnCpu(s.cpus);
  }

  lemma EndedConserves(s: Kernel, i: nat, terminated: bool)
    requires Conserved(s) && BusyCpu(s, i)
    ensures Known(s) && Running(s, i) in s.programs && Conserved(Ended(s, i, terminated))
    ensures i < |Ended(s, i, terminated).cpus| && Ended(s, i, terminated).cpus[i].program.None?
  {
    ConservedIsKnown(s);
    RunningKnown(s, i);
    hide OnCpu, InQueues, Conserved, Known, Detached;
    TakeFromCpu(s, i);
    var p := Running(s, i);
    var s0 := s.(cpus := s.cpus[i := s.cpus[i].(program := None)]);
    SameKeysDetached(s0, p, s.programs[p].(quantum := 0));
    Queued(Update(s0, p, s.programs[p].(quantum := 0)), p);
  }

  lemma UnblockConserves(cfg: Config, s: Kernel, sem: string)
    requires Conserved(s)
    ensures Known(s) && Conserved(Unblock(cfg, s, sem))
  {
    ConservedIsKnown(s);
    var i := FirstWhere(s.blocked, OnSemaphore(s, sem));
    if i < |s.blocked| {
      hide Conserved, Detached, PlanIdle, OnCpu, RemoveAt;
      var p := s.blocked[i];
      TakeBlocked(s, i);
      var s0 := s.(blocked := RemoveAt(s.blocked, i));
      var s1 := Release(s0, p);
      SameKeysDetached(s0, p, s1.programs[p]);
      Queued(s1, p);
      PlanIdleConserves(cfg, s1.(ready := s1.ready + [p]), 0);
    } else {
      var c := FirstWhere(s.cpus, CpuOnSemaphore(s, sem));
      if c < |s.cpus| {
        SameKeysConserved(s, Release(s, s.cpus[c].program.value));
      }
    }
  }

  lemma InterruptedConserves(s: Kernel, socket: int, code: int, override: bool)
    requires Conserved(s)
    ensures Known(s) && Conserved(Interrupted(s, socket, code, override))
  {
    hide Everywhere, InQueues, FirstWhere, RemoveAt, OnCpu, Conserved, FinishWith;
    ConservedIsKnown(s);
    var c := FirstWhere(s.cpus, CpuHasSocket(s, socket));
    var n := FirstWhere(s.newPrograms, HasSocket(s, socket));
    var b := FirstWhere(s.blocked, HasSocket(s, socket));
    var r := FirstWhere(s.ready, HasSocket(s, socket));
    if c < |s.cpus| {
      var p := s.cpus[c].program.value;
      SameKeysConserved(s, Update(s, p, s.programs[p].(interruptionCode := code)));
    } else if n < |s.newPrograms| {
      NewFinished(s, n, code);
    } else if b < |s.blocked| {
      BlockedFinished(s, b, code);
    } else if r < |s.ready| {
      ReadyFinished(s, r, code);
    }
  }

  lemma NewFinished(s: Kernel, n: nat, code: int)
    requires Conserved(s) && n < |s.newPrograms| && s.newPrograms[n] in s.programs
    ensures Conserved(FinishWith(s.(newPrograms := RemoveAt(s.newPrograms, n)), s.newPrograms[n], code))
  {
    hide Conserved, Detached, RemoveAt, FinishWith;
    TakeNew(s, n);
    FinishConserves(s.(newPrograms := RemoveAt(s.newPrograms, n)), s.newPrograms[n], code);
  }

  lemma BlockedFinished(s: Kernel, b: nat, code: int)
    requires Conserved(s) && b < |s.blocked| && s.blocked[b] in s.programs
    ensures Conserved(FinishWith(s.(blocked := RemoveAt(s.blocked, b)), s.blocked[b], code))
  {
    hide Conserved, Detached, RemoveAt, FinishWith;
    TakeBlocked(s, b);
    FinishConserves(s.(blocked := RemoveAt(s.blocked, b)), s.blocked[b], code);
  }

  lemma ReadyFinished(s: Kernel, r: nat, code: int)
    requires Conserved(s) && r < |s.ready| && s.ready[r] in s.programs
    ensures Conserved(FinishWith(s.(ready := RemoveAt(s.ready, r)), s.ready[r], code))
  {
    hide Conserved, Detached, RemoveAt, FinishWith;
    TakeReady(s, r);
    FinishConserves(s.(ready := RemoveAt(s.ready, r)), s.ready[r], code);
  }

  lemma FinishConserves(s: Kernel, p: Pid, code: int)
    requires Detached(s, p) && p in s.programs
    ensures Conserved(FinishWith(s, p, code))
  {
    hide Detached, Conserved;
    SameKeysDetached(s, p, s.programs[p].(exitCode := code));
    Queued(Update(s, p, s.programs[p].(exitCode := code)), p);
  }

  lemma LostConserves(s: Kernel, i: nat)
    requires Conserved(s) && i < |s.cpus|
    ensures Known(s) && Conserved(Lost(s, i))
  {
    ConservedIsKnown(s);
    if s.cpus[i].program.None? {
      IdleCpuGone(s, i);
    } else {
      TakeFromCpu(s, i);
      RunningKnown(s, i);
      var p := Running(s, i);
      var s1 := Update(s.(cpus := RemoveAt(s.cpus, i)), p,
                       s.programs[p].(interruptionCode := ERROR_CPU_DISCONNECTED, exitCode := ERROR_CPU_DISCONNECTED));
      assert s1.programs.Keys == s.programs.Keys;
      Queued(s1, p);
    }
  }

  // ----- what the planners leave alone

  /** The planners change no program's socket, waiting flag or semaphore. */
  ghost predicate SameFlags(a: map<Pid, Program>, b: map<Pid, Program>) {
    && b.Keys == a.Keys
    && forall p :: p in a ==>
         b[p].waiting == a[p].waiting && b[p].waitingReason == a[p].waitingReason && b[p].socket == a[p].socket
  }

  /** New and Ready hold only programs that wait for nothing, Blocked only waiting ones. */
  ghost predicate Flags(s: Kernel) {
    && (forall p :: p in s.newPrograms ==> p in s.programs && !s.programs[p].waiting)
    && (forall p :: p in s.ready ==> p in s.programs && !s.programs[p].waiting)
    && (forall p :: p in s.blocked ==> p in s.programs && s.programs[p].waiting)
  }

  /** What a planner does to the state, apart from filling CPUs. */
  ghost predicate Planned(s: Kernel, s': Kernel) {
    && SameFlags(s.programs, s'.programs)
    && s'.blocked == s.blocked && s'.semaphores == s.semaphores
    && s.finished <= s'.finished
    && |s'.cpus| == |s.cpus|
    && Flags(s')
    // a CPU keeps its program, or was idle and got one that waits for nothing
    && forall i :: 0 <= i < |s.cpus| ==>
         s'.cpus[i] == s.cpus[i] ||
         (s.cpus[i].program.None? && BusyCpu(s', i) &&
          Running(s', i) in s'.programs && !s'.programs[Running(s', i)].waiting)
  }

  lemma PlannedTwice(s: Kernel, s1: Kernel, s2: Kernel)
    requires Planned(s, s1) && Planned(s1, s2)
    ensures Planned(s, s2)
  {
    hide Flags;
  }

  lemma {:induction false} AdmitPlans(cfg: Config, s: Kernel, running: int)
    requires Known(s) && Flags(s)
    ensures Planned(s, Admit(cfg, s, running))
    decreases |s.newPrograms|
  {
    if running < cfg.degree && s.newPrograms != [] {
      var p := s.newPrograms[0];
      var s1 := s.(newPrograms := s.newPrograms[1..]);
      var s2 := if cfg.admission(p) != 0 then FinishWith(s1, p, cfg.admission(p)) else s1.(ready := s1.ready + [p]);
      assert Known(s2) && Planned(s, s2);
      hide Flags, Known, Planned;
      AdmitPlans(cfg, s2, if cfg.admission(p) != 0 then running else running + 1);
      PlannedTwice(s, s2, Admit(cfg, s, running));
    }
  }

  lemma DispatchPlans(cfg: Config, s: Kernel, i: nat)
    requires Known(s) && Flags(s) && i < |s.cpus| && s.cpus[i].program.None?
    ensures Planned(s, Dispatch(cfg, s, i))
  {
    if s.ready == [] {
      assert s.cpus[i := s.cpus[i].(program := None)] == s.cpus;
    }
  }

  lemma PlanPlans(cfg: Config, s: Kernel, i: nat)
    requires Known(s) && Flags(s) && i < |s.cpus| && s.cpus[i].program.None?
    ensures Planned(s, Plan(cfg, s, i))
  {
    AdmitKnown(cfg, s, |s.ready| + |OnCpu(s.cpus)|);
    AdmitPlans(cfg, s, |s.ready| + |OnCpu(s.cpus)|);
    hide Admit, SameFlags;
    DispatchPlans(cfg, LongTerm(cfg, s), i);
    PlannedTwice(s, LongTerm(cfg, s), Plan(cfg, s, i));
  }

  lemma {:induction false} PlanIdlePlans(cfg: Config, s: Kernel, i: nat)
    requires Known(s) && Flags(s) && i <= |s.cpus|
    ensures Planned(s, PlanIdle(cfg, s, i))
    decreases |s.cpus| - i
  {
    assert Planned(s, s);
    hide Plan, Flags, SameFlags, OnCpu;
    if i < |s.cpus| {
      if s.cpus[i].program.None? {
        PlanKnown(cfg, s, i);
        PlanPlans(cfg, s, i);
        PlanIdlePlans(cfg, Plan(cfg, s, i), i + 1);
        PlannedTwice(s, Plan(cfg, s, i), PlanIdle(cfg, s, i));
      } else {
        PlanIdlePlans(cfg, s, i + 1);
      }
    }
  }
}
