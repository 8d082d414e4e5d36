/** How long a program keeps its CPU: over any run, it is told to stop after its quantum of
    instructions, whatever the other programs do. */
module QuantumRuns {
  import opened Wrappers
  import opened Lists
  import opened Scheduler
  import opened SchedulerRuns
  import opened Semaphores
  import opened WorkConservation
  import opened KernelRuns

  /** A `still_burst` of a program that does not wait. */
  function CountDown(quantum: int): int {
    if quantum == -1 then -1 else quantum - 1
  }

  function QuantumAfter(quantum: int, n: nat): int {
    if n == 0 then quantum else CountDown(QuantumAfter(quantum, n - 1))
  }

  /** The count reaches 0, the answer that stops the program, at the `quantum`-th request
      and at no other: never, if the quantum is 0 or less. */
  lemma {:induction false} StopsOnce(quantum: int, n: nat)
    requires n > 0
    ensures QuantumAfter(quantum, n) == 0 <==> n == quantum
    ensures QuantumAfter(quantum, n) == if quantum < -1 || n <= quantum then quantum - n else -1
  {
    if n > 1 {
      StopsOnce(quantum, n - 1);
    }
  }

  lemma BurstCounts(program: Program)
    requires !program.waiting
    ensures Burst(program).1 == program.(quantum := CountDown(program.quantum))
    ensures Burst(program).0 <==> CountDown(program.quantum) != 0
  {
  }

  /** The program sits on a CPU, waits for nothing, and its quantum is this. */
  ghost predicate Runs(s: Kernel, p: Pid, quantum: int) {
    && p in s.programs && !s.programs[p].waiting && s.programs[p].quantum == quantum
    && exists k :: 0 <= k < |s.cpus| && s.cpus[k].program == Some(p)
  }

  /** The same, and no planner can find it. */
  ghost predicate Aside(s: Kernel, p: Pid, quantum: int) {
    Runs(s, p, quantum) && p !in s.newPrograms && p !in s.ready && p !in s.blocked
  }

  // ----- the planners leave a running program alone

  lemma {:induction false} AdmitAside(cfg: Config, s: Kernel, running: int, p: Pid, quantum: int)
    requires Known(s) && Aside(s, p, quantum)
    ensures Aside(Admit(cfg, s, running), p, quantum)
    decreases |s.newPrograms|
  {
    if running < cfg.degree && s.newPrograms != [] {
      var q := s.newPrograms[0];
      var s1 := s.(newPrograms := s.newPrograms[1..]);
      var s2 := if cfg.admission(q) != 0 then FinishWith(s1, q, cfg.admission(q)) else s1.(ready := s1.ready + [q]);
      assert s2.cpus == s.cpus && s2.programs[p].quantum == quantum && q != p;
      assert Known(s2) && Aside(s2, p, quantum);
      hide Known, Aside;
      AdmitAside(cfg, s2, if cfg.admission(q) != 0 then running else running + 1, p, quantum);
    }
  }

  lemma PlanAside(cfg: Config, s: Kernel, i: nat, p: Pid, quantum: int)
    requires i < |s.cpus| && Known(s) && s.cpus[i].program.None? && Aside(s, p, quantum)
    ensures Aside(Plan(cfg, s, i), p, quantum)
  {
    AdmitKnown(cfg, s, |s.ready| + |OnCpu(s.cpus)|);
    AdmitAside(cfg, s, |s.ready| + |OnCpu(s.cpus)|, p, quantum);
    var s1, s' := LongTerm(cfg, s), Plan(cfg, s, i);
    hide Admit, OnCpu, LongTerm;
    var k :| 0 <= k < |s1.cpus| && s1.cpus[k].program == Some(p);
    assert s'.cpus[k] == s1.cpus[k];
  }

  lemma {:induction false} PlanIdleAside(cfg: Config, s: Kernel, i: nat, p: Pid, quantum: int)
    requires i <= |s.cpus| && Known(s) && Aside(s, p, quantum)
    ensures Aside(PlanIdle(cfg, s, i), p, quantum)
    decreases |s.cpus| - i
  {
    hide Plan, Known, OnCpu, Aside;
    if i == |s.cpus| {
    } else if s.cpus[i].program.None? {
      PlanKnown(cfg, s, i);
      PlanAside(cfg, s, i, p, quantum);
      PlanIdleAside(cfg, Plan(cfg, s, i), i + 1, p, quantum);
    } else {
      PlanIdleAside(cfg, s, i + 1, p, quantum);
    }
  }

  // ----- the requests

  /** The program's CPU asks whether to go on. */
  predicate Asks(s: Kernel, e: Event, p: Pid) {
    e.StillBurst? && BusyCpu(s, e.cpu) && Running(s, e.cpu) == p
  }

  /** The request ends the program's burst, loses its CPU or makes it wait. */
  predicate Stops(s: Kernel, e: Event, p: Pid) {
    ((e.EndBurst? || e.CpuLost?) && BusyCpu(s, e.cpu) && Running(s, e.cpu) == p) || BlocksAgain(s, e, p)
  }

  lemma RunningIsAside(s: Kernel, p: Pid, quantum: int)
    requires Conserved(s) && Runs(s, p, quantum)
    ensures Aside(s, p, quantum)
  {
    var k :| 0 <= k < |s.cpus| && s.cpus[k].program == Some(p);
    OnlyOnItsCpu(s, k);
  }

  /** Whatever request arrives, a running program stays on its CPU with its quantum, unless
      its own CPU asks, ends or is lost, or it has to wait. */
  lemma StepRuns(cfg: Config, s: Kernel, e: Event, p: Pid, quantum: int)
    requires Inv(s) && Known(s) && Enabled(s, e) && Runs(s, p, quantum) && !Stops(s, e, p)
    ensures Runs(Step(cfg, s, e), p, if Asks(s, e, p) then CountDown(quantum) else quantum)
  {
    RunningIsAside(s, p, quantum);
    NotStopped(s, e, p);
    hide Conserved, Flags, OnCpu, Known, Plan, PlanIdle, Admit, Unblock, Interrupted, Lost, Ended, Runs, Asks, Stops, Step;
    match e
    case NewProgram(pid, socket) =>
      NewProgramAside(cfg, s, pid, socket, p, quantum);
    case NewCpu(socket) =>
      NewCpuAside(cfg, s, socket, p, quantum);
    case EndBurst(i, terminated) =>
      EndBurstAside(cfg, s, i, terminated, p, quantum);
    case Interrupt(socket, code, override) =>
      InterruptRuns(cfg, s, socket, code, override, p, quantum);
    case CpuLost(i) =>
      CpuLostRuns(cfg, s, i, p, quantum);
    case Signal(i, sem) =>
      if sem in s.semaphores {
        SignalRuns(cfg, s, i, sem, p, quantum);
      } else {
        InPlaceRuns(cfg, s, e, p, quantum);
      }
    case StillBurst(_) => InPlaceRuns(cfg, s, e, p, quantum);
    case Wait(_, _) => InPlaceRuns(cfg, s, e, p, quantum);
  }

  lemma NotStopped(s: Kernel, e: Event, p: Pid)
    requires !Stops(s, e, p) && Enabled(s, e)
    ensures e.EndBurst? ==> BusyCpu(s, e.cpu) && Running(s, e.cpu) != p
    ensures e.CpuLost? ==> e.cpu < |s.cpus| && s.cpus[e.cpu].program != Some(p)
    ensures !e.StillBurst? ==> !Asks(s, e, p)
  {
  }

  lemma NewProgramAside(cfg: Config, s: Kernel, pid: Pid, socket: int, p: Pid, quantum: int)
    requires Known(s) && pid !in s.programs && Aside(s, p, quantum)
    ensures Aside(Step(cfg, s, NewProgram(pid, socket)), p, quantum)
  {
    hide Known, OnCpu, Admit, PlanIdle, Aside;
    ArrivedAside(s, pid, socket, p, quantum);
    ArrivedKnown(s, pid, socket);
    var s1 := Arrived(s, pid, socket);
    AdmitKnown(cfg, s1, Load(s1));
    AdmitAside(cfg, s1, Load(s1), p, quantum);
    PlanIdleAside(cfg, LongTerm(cfg, s1), 0, p, quantum);
  }

  lemma NewCpuAside(cfg: Config, s: Kernel, socket: int, p: Pid, quantum: int)
    requires Known(s) && Aside(s, p, quantum)
    ensures Aside(Step(cfg, s, NewCpu(socket)), p, quantum)
  {
    hide Known, OnCpu, Plan, Aside;
    CpuAside(s, socket, p, quantum);
    NewCpuKnown(s, socket);
    PlanAside(cfg, s.(cpus := s.cpus + [Cpu(socket, None)]), |s.cpus|, p, quantum);
  }

  lemma EndBurstAside(cfg: Config, s: Kernel, i: nat, terminated: bool, p: Pid, quantum: int)
    requires Known(s) && Aside(s, p, quantum) && BusyCpu(s, i) && Running(s, i) != p
    ensures Aside(Step(cfg, s, EndBurst(i, terminated)), p, quantum)
  {
    hide Known, OnCpu, Plan, Aside, Ended;
    EndedKnown(s, i, terminated);
    EndedAside(s, i, terminated, p, quantum);
    PlanAside(cfg, Ended(s, i, terminated), i, p, quantum);
  }

  lemma SignalRuns(cfg: Config, s: Kernel, i: nat, sem: string, p: Pid, quantum: int)
    requires Known(s) && Aside(s, p, quantum) && BusyCpu(s, i) && sem in s.semaphores
    ensures Runs(Step(cfg, s, Signal(i, sem)), p, quantum)
  {
    hide Known, OnCpu, Unblock, Runs, Aside;
    UnblockRuns(cfg, s, s.(semaphores := s.semaphores[sem := s.semaphores[sem] + 1]), sem, p, quantum);
  }

  lemma InterruptRuns(cfg: Config, s: Kernel, socket: int, code: int, override: bool, p: Pid, quantum: int)
    requires Known(s) && Aside(s, p, quantum)
    ensures Runs(Step(cfg, s, Interrupt(socket, code, override)), p, quantum)
  {
    hide Known, OnCpu, Interrupted, Runs, Aside;
    InterruptedRuns(s, socket, code, override, p, quantum);
  }

  lemma CpuLostRuns(cfg: Config, s: Kernel, i: nat, p: Pid, quantum: int)
    requires Known(s) && i < |s.cpus| && Runs(s, p, quantum) && s.cpus[i].program != Some(p)
    ensures Runs(Step(cfg, s, CpuLost(i)), p, quantum)
  {
    hide Known, OnCpu, Lost, Runs;
    LostRuns(s, i, p, quantum);
  }

  lemma InPlaceRuns(cfg: Config, s: Kernel, e: Event, p: Pid, quantum: int)
    requires Known(s) && Enabled(s, e) && Runs(s, p, quantum) && !Stops(s, e, p)
    requires e.StillBurst? || e.Wait? || (e.Signal? && e.sem !in s.semaphores)
    ensures Runs(Step(cfg, s, e), p, if Asks(s, e, p) then CountDown(quantum) else quantum)
  {
    RunningKnown(s, e.cpu);
    BurstCounts(s.programs[p]);
    hide Known, OnCpu, Burst;
    var k :| 0 <= k < |s.cpus| && s.cpus[k].program == Some(p);
    assert Step(cfg, s, e).cpus[k] == s.cpus[k];
  }

  lemma ArrivedAside(s: Kernel, pid: Pid, socket: int, p: Pid, quantum: int)
    requires Aside(s, p, quantum) && pid !in s.programs
    ensures Aside(Arrived(s, pid, socket), p, quantum)
  {
    assert Arrived(s, pid, socket).cpus == s.cpus;
  }

  lemma CpuAside(s: Kernel, socket: int, p: Pid, quantum: int)
    requires Aside(s, p, quantum)
    ensures Aside(s.(cpus := s.cpus + [Cpu(socket, None)]), p, quantum)
  {
    var k :| 0 <= k < |s.cpus| && s.cpus[k].program == Some(p);
    assert (s.cpus + [Cpu(socket, None)])[k] == s.cpus[k];
  }

  lemma EndedAside(s: Kernel, i: nat, terminated: bool, p: Pid, quantum: int)
    requires Aside(s, p, quantum) && BusyCpu(s, i) && Running(s, i) != p && Running(s, i) in s.programs
    ensures Aside(Ended(s, i, terminated), p, quantum) && Ended(s, i, terminated).cpus[i].program.None?
  {
    var s' := Ended(s, i, terminated);
    var k :| 0 <= k < |s.cpus| && s.cpus[k].program == Some(p);
    assert s'.cpus[k] == s.cpus[k];
  }

  lemma LostRuns(s: Kernel, i: nat, p: Pid, quantum: int)
    requires Known(s) && i < |s.cpus| && Runs(s, p, quantum) && s.cpus[i].program != Some(p)
    ensures Runs(Lost(s, i), p, quantum)
  {
    CpuRemoved(s.cpus, i, p);
    hide Known, OnCpu, RemoveAt;
  }

  lemma InterruptedRuns(s: Kernel, socket: int, code: int, override: bool, p: Pid, quantum: int)
    requires Known(s) && Aside(s, p, quantum)
    ensures Runs(Interrupted(s, socket, code, override), p, quantum)
  {
    hide Known, OnCpu, FirstWhere, RemoveAt;
    var s' := Interrupted(s, socket, code, override);
    assert s'.cpus == s.cpus;
    assert p in s'.programs && !s'.programs[p].waiting && s'.programs[p].quantum == quantum;
  }

  lemma UnblockRuns(cfg: Config, s: Kernel, s1: Kernel, sem: string, p: Pid, quantum: int)
    requires Known(s) && Aside(s, p, quantum) && s1 == s.(semaphores := s1.semaphores)
    ensures Known(s1) && Runs(Unblock(cfg, s1, sem), p, quantum)
  {
    var i := FirstWhere(s1.blocked, OnSemaphore(s1, sem));
    var c := FirstWhere(s1.cpus, CpuOnSemaphore(s1, sem));
    assert Aside(s1, p, quantum);
    if i < |s1.blocked| {
      var s2 := Woken(s1, i);
      assert Known(s2) && s2.cpus == s.cpus;
      InRemoved(s1.blocked, i);
      assert Aside(s2, p, quantum);
      hide Known, OnCpu, PlanIdle, FirstWhere, RemoveAt, Woken;
      PlanIdleAside(cfg, s2, 0, p, quantum);
    } else if c < |s1.cpus| {
      hide OnCpu, PlanIdle;
      assert OnSemaphore(s1, sem)(s1.cpus[c].program.value);
      assert Release(s1, s1.cpus[c].program.value).cpus == s.cpus;
    }
  }

  // ----- whole runs

  /** How often the program's CPU asked. */
  ghost function Asked(cfg: Config, s: Kernel, es: seq<Event>, p: Pid): nat
    decreases |es|
  {
    if es == [] || !Known(s) || !Enabled(s, es[0]) then 0
    else (if Asks(s, es[0], p) then 1 else 0) + Asked(cfg, Step(cfg, s, es[0]), es[1..], p)
  }

  /** Some request of the run takes the program off its CPU or makes it wait. */
  ghost predicate SomeStops(cfg: Config, s: Kernel, es: seq<Event>, p: Pid)
    decreases |es|
  {
    es != [] && Known(s) && Enabled(s, es[0]) && (Stops(s, es[0], p) || SomeStops(cfg, Step(cfg, s, es[0]), es[1..], p))
  }

  lemma {:induction false} CountedFrom(quantum: int, n: nat)
    ensures QuantumAfter(CountDown(quantum), n) == QuantumAfter(quantum, n + 1)
  {
    if n > 0 {
      CountedFrom(quantum, n - 1);
    }
  }

  lemma {:induction false} RunCounts(cfg: Config, s: Kernel, es: seq<Event>, p: Pid, quantum: int)
    requires Inv(s) && Runs(s, p, quantum) && Run(cfg, s, es).Some? && !SomeStops(cfg, s, es, p)
    ensures Runs(Run(cfg, s, es).value, p, QuantumAfter(quantum, Asked(cfg, s, es, p)))
    decreases |es|
  {
    hide Conserved, Flags, Step, Known, Runs, Stops, WaitingOn, WaitingAfter;
    if es != [] {
      StepWaiting(cfg, s, es[0], "");
      StepRuns(cfg, s, es[0], p, quantum);
      var quantum' := if Asks(s, es[0], p) then CountDown(quantum) else quantum;
      RunCounts(cfg, Step(cfg, s, es[0]), es[1..], p, quantum');
      CountedFrom(quantum, Asked(cfg, Step(cfg, s, es[0]), es[1..], p));
    }
  }

  /** A program handed to a CPU is told to go on until its CPU has asked once for each
      instruction of its quantum, and to stop then: over any run, whatever the others do.
      Under FIFO, or with a quantum of 0 or less, it is never told to stop. */
  lemma QuantumIsServed(cfg: Config, s: Kernel, i: nat, es: seq<Event>)
    requires Inv(s) && Known(s) && i < |s.cpus| && s.cpus[i].program.None? && s.ready != []
    requires var s0 := Dispatch(cfg, s, i);
             Run(cfg, s0, es).Some? && !SomeStops(cfg, s0, es, s.ready[0])
    ensures var s0, p := Dispatch(cfg, s, i), s.ready[0];
            var r, asked := Run(cfg, s0, es).value, Asked(cfg, s0, es, p);
            && p in s.programs && p in r.programs
            && (Burst(r.programs[p]).0 <==>
                match cfg.algorithm
                case FIFO => true
                case RR => asked + 1 != cfg.quantum
                case OtherAlgorithm => asked + 1 != s.programs[p].quantum)
  {
    DispatchConserves(cfg, s, i);
    DispatchPlans(cfg, s, i);
    var s0, p := Dispatch(cfg, s, i), s.ready[0];
    var quantum := QuantumFor(cfg, s.programs[p].quantum);
    assert s0.cpus[i].program == Some(p) && Runs(s0, p, quantum);
    hide Conserved, Flags, Known, Run, Asked, SomeStops, Dispatch, OnCpu;
    RunCounts(cfg, s0, es, p, quantum);
    var r, asked := Run(cfg, s0, es).value, Asked(cfg, s0, es, p);
    BurstCounts(r.programs[p]);
    StopsOnce(quantum, asked + 1);
  }
}
