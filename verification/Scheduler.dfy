/** The queues, CPUs and semaphores of the Kernel, and what each request does to them
    (Kernel/src/threads/cpu/handler.c, Kernel/src/functions/program.c and cpu.c,
    Kernel/src/planner).  Every request runs under the CPU-queue mutex, so each is one step. */
module Scheduler {
  import opened Wrappers
  import opened Lists

  type Pid = nat

  datatype Program = Program(socket: int, waiting: bool, waitingReason: string,
                             interruptionCode: int, exitCode: int, quantum: int)

  datatype Cpu = Cpu(socket: int, program: Option<Pid>)

  datatype Algorithm = FIFO | RR | OtherAlgorithm

  /** The configuration, and what admitting a program answers: 0, or an error code. */
  datatype Config = Config(degree: int, algorithm: Algorithm, quantum: int, admission: Pid -> int)

  datatype Kernel = Kernel(programs: map<Pid, Program>, newPrograms: seq<Pid>, ready: seq<Pid>,
                           blocked: seq<Pid>, finished: seq<Pid>, cpus: seq<Cpu>, semaphores: map<string, int>)

  const ERROR_SEM_DOES_NOT_EXIST := -14
  const ERROR_CPU_DISCONNECTED := -16

  // ----- helpers

  /** The program on one CPU, if any. */
  function Held(program: Option<Pid>): seq<Pid> {
    if program.Some? then [program.value] else []
  }

  function OnCpu(cpus: seq<Cpu>): seq<Pid> {
    if cpus == [] then [] else Held(cpus[0].program) + OnCpu(cpus[1..])
  }

  function Update(s: Kernel, p: Pid, program: Program): Kernel {
    s.(programs := s.programs[p := program])
  }

  /** `program_finish`, which does nothing the second time. */
  function Finish(s: Kernel, p: Pid): Kernel {
    if p in s.finished then s else s.(finished := s.finished + [p])
  }

  function FinishWith(s: Kernel, p: Pid, code: int): Kernel
    requires p in s.programs
  {
    Finish(Update(s, p, s.programs[p].(exitCode := code)), p)
  }

  // ----- planners

  /** The loop of `planificador_largo_plazo`. */
  function Admit(cfg: Config, s: Kernel, running: int): Kernel
    requires forall p :: p in s.newPrograms ==> p in s.programs
    decreases |s.newPrograms|
  {
    if running < cfg.degree && s.newPrograms != [] then
      var p := s.newPrograms[0];
      var s1 := s.(newPrograms := s.newPrograms[1..]);
      if cfg.admission(p) != 0 then
        Admit(cfg, FinishWith(s1, p, cfg.admission(p)), running)
      else
        Admit(cfg, s1.(ready := s1.ready + [p]), running + 1)
    else s
  }

  function LongTerm(cfg: Config, s: Kernel): Kernel
    requires forall p :: p in s.newPrograms ==> p in s.programs
  {
    Admit(cfg, s, |s.ready| + |OnCpu(s.cpus)|)
  }

  function QuantumFor(cfg: Config, quantum: int): int {
    match cfg.algorithm
    case FIFO => -1
    case RR => cfg.quantum
    case OtherAlgorithm => quantum
  }

  /** Hands the head of Ready to an idle CPU. */
  function Dispatch(cfg: Config, s: Kernel, i: nat): Kernel
    requires i < |s.cpus|
    requires forall p :: p in s.ready ==> p in s.programs
  {
    if s.ready == [] then s.(cpus := s.cpus[i := s.cpus[i].(program := None)])
    else
      var p := s.ready[0];
      var program := s.programs[p];
      s.(ready := s.ready[1..], programs := s.programs[p := program.(quantum := QuantumFor(cfg, program.quantum))],
         cpus := s.cpus[i := s.cpus[i].(program := Some(p))])
  }

  /** `cpu->program = planificar()` */
  function Plan(cfg: Config, s: Kernel, i: nat): Kernel
    requires i < |s.cpus| && Known(s)
  {
    AdmitKnown(cfg, s, |s.ready| + |OnCpu(s.cpus)|);
    Dispatch(cfg, LongTerm(cfg, s), i)
  }

  /** `cpu_inactive_planner`, from the `i`-th CPU on. */
  function PlanIdle(cfg: Config, s: Kernel, i: nat): Kernel
    requires i <= |s.cpus| && Known(s)
    decreases |s.cpus| - i
  {
    if i == |s.cpus| then s
    else if s.cpus[i].program.None? then
      PlanKnown(cfg, s, i);
      PlanIdle(cfg, Plan(cfg, s, i), i + 1)
    else PlanIdle(cfg, s, i + 1)
  }

  /** Every queued program is a known one. */
  ghost predicate Known(s: Kernel) {
    && (forall p :: p in s.newPrograms ==> p in s.programs)
    && (forall p :: p in s.ready ==> p in s.programs)
    && (forall p :: p in s.blocked ==> p in s.programs)
    && (forall p :: p in OnCpu(s.cpus) ==> p in s.programs)
  }

  lemma {:induction false} AdmitKnown(cfg: Config, s: Kernel, running: int)
    requires Known(s)
    ensures Known(Admit(cfg, s, running)) && Admit(cfg, s, running).cpus == s.cpus
    decreases |s.newPrograms|
  {
    if running < cfg.degree && s.newPrograms != [] {
      var p := s.newPrograms[0];
      var s1 := s.(newPrograms := s.newPrograms[1..]);
      if cfg.admission(p) != 0 {
        AdmitKnown(cfg, FinishWith(s1, p, cfg.admission(p)), running);
      } else {
        AdmitKnown(cfg, s1.(ready := s1.ready + [p]), running + 1);
      }
    }
  }

  /** One turn of the loop. */
  lemma AdmitNext(cfg: Config, s: Kernel, running: int)
    requires Known(s)
    ensures if running < cfg.degree && s.newPrograms != [] then
              var p, s1 := s.newPrograms[0], s.(newPrograms := s.newPrograms[1..]);
              && p in s.programs
              && var s2 := if cfg.admission(p) != 0 then FinishWith(s1, p, cfg.admission(p)) else s1.(ready := s1.ready + [p]);
              && Known(s2)
              && Admit(cfg, s, running) == Admit(cfg, s2, if cfg.admission(p) != 0 then running else running + 1)
            else Admit(cfg, s, running) == s
  {
    hide OnCpu;
  }

  lemma PlanKnown(cfg: Config, s: Kernel, i: nat)
    requires i < |s.cpus| && Known(s)
    ensures Known(Plan(cfg, s, i)) && |Plan(cfg, s, i).cpus| == |s.cpus|
  {
    AdmitKnown(cfg, s, |s.ready| + |OnCpu(s.cpus)|);
    var s1 := LongTerm(cfg, s);
    hide Admit;
    forall p | p in OnCpu(Dispatch(cfg, s1, i).cpus) ensures p in Dispatch(cfg, s1, i).programs {
      OnCpuStored(s1.cpus, i, Dispatch(cfg, s1, i).cpus[i], p);
    }
  }

  lemma {:induction false} OnCpuAppend(a: seq<Cpu>, b: seq<Cpu>)
    ensures OnCpu(a + b) == OnCpu(a) + OnCpu(b)
  {
    hide Held;
    if a == [] {
      assert a + b == b;
    } else {
      Behead(a, b);
      OnCpuAppend(a[1..], b);
      Regroup(Held(a[0].program), OnCpu(a[1..]), OnCpu(b));
    }
  }

  lemma Behead<T>(a: seq<T>, b: seq<T>)
    requires a != []
    ensures (a + b)[0] == a[0] && (a + b)[1..] == a[1..] + b
  {
  }

  lemma Regroup<T>(a: seq<T>, b: seq<T>, c: seq<T>)
    ensures a + (b + c) == (a + b) + c
  {
  }

  /** The programs on the CPUs, seen from CPU `i`. */
  lemma OnCpuAround(cpus: seq<Cpu>, i: nat)
    requires i < |cpus|
    ensures OnCpu(cpus) == OnCpu(cpus[..i]) + OnCpu([cpus[i]]) + OnCpu(cpus[i + 1..])
    ensures OnCpu([cpus[i]]) == Held(cpus[i].program)
  {
    hide OnCpu;
    OnCpuOne(cpus[i]);
    Around(cpus, i);
    OnCpuThree(cpus[..i], cpus[i], cpus[i + 1..]);
  }

  lemma Around<T>(q: seq<T>, i: nat)
    requires i < |q|
    ensures q == q[..i] + [q[i]] + q[i + 1..]
  {
  }

  lemma OnCpuThree(a: seq<Cpu>, c: Cpu, b: seq<Cpu>)
    ensures OnCpu(a + [c] + b) == OnCpu(a) + OnCpu([c]) + OnCpu(b)
  {
    hide OnCpu;
    OnCpuAppend(a, [c]);
    OnCpuAppend(a + [c], b);
  }

  lemma OnCpuOne(c: Cpu)
    ensures OnCpu([c]) == Held(c.program)
  {
    assert [c][1..] == [];
  }

  lemma OnCpuStored(cpus: seq<Cpu>, i: nat, c: Cpu, p: Pid)
    requires i < |cpus|
    ensures p in OnCpu(cpus[i := c]) ==> p in OnCpu(cpus) || c.program == Some(p)
  {
    OnCpuAround(cpus, i);
    OnCpuAround(cpus[i := c], i);
    assert cpus[i := c][..i] == cpus[..i] && cpus[i := c][i + 1..] == cpus[i + 1..];
  }

  // ----- the requests

  datatype Event =
    | NewProgram(pid: Pid, socket: int)
    | NewCpu(cpuSocket: int)
    | StillBurst(cpu: nat)
    | EndBurst(cpu: nat, terminated: bool)
    | Wait(cpu: nat, sem: string)
    | Signal(cpu: nat, sem: string)
    | Interrupt(socket: int, code: int, override: bool)
    | CpuLost(cpu: nat)

  predicate BusyCpu(s: Kernel, i: nat) {
    i < |s.cpus| && s.cpus[i].program.Some?
  }

  predicate Enabled(s: Kernel, e: Event) {
    match e
    case NewProgram(pid, _) => pid !in s.programs      // programID counts up
    case StillBurst(i) => BusyCpu(s, i)
    case EndBurst(i, _) => BusyCpu(s, i)
    case Wait(i, _) => BusyCpu(s, i)
    case Signal(i, _) => BusyCpu(s, i)
    case CpuLost(i) => i < |s.cpus|
    case _ => true
  }

  /** The program on CPU `i`. */
  function Running(s: Kernel, i: nat): Pid
    requires BusyCpu(s, i)
  {
    s.cpus[i].program.value
  }

  lemma RunningKnown(s: Kernel, i: nat)
    requires Known(s) && BusyCpu(s, i)
    ensures Running(s, i) in s.programs && Running(s, i) in OnCpu(s.cpus)
  {
    OnCpuAround(s.cpus, i);
  }

  function OnSemaphore(s: Kernel, sem: string): Pid -> bool {
    (p: Pid) => p in s.programs && s.programs[p].waiting && s.programs[p].waitingReason == sem
  }

  function CpuOnSemaphore(s: Kernel, sem: string): Cpu -> bool {
    (c: Cpu) => c.program.Some? && OnSemaphore(s, sem)(c.program.value)
  }

  function Release(s: Kernel, p: Pid): Kernel
    requires p in s.programs
  {
    Update(s, p, s.programs[p].(waiting := false, waitingReason := ""))
  }

  /** The blocked program `i` is queued as ready. */
  function Woken(s: Kernel, i: nat): Kernel
    requires i < |s.blocked| && s.blocked[i] in s.programs
  {
    Release(s.(blocked := RemoveAt(s.blocked, i)), s.blocked[i]).(ready := s.ready + [s.blocked[i]])
  }

  /** `program_unblock`: a blocked waiter goes to Ready; otherwise one that still sits on
      its CPU stops waiting. */
  function Unblock(cfg: Config, s: Kernel, sem: string): Kernel
    requires Known(s)
  {
    var i := FirstWhere(s.blocked, OnSemaphore(s, sem));
    if i < |s.blocked| then
      PlanIdle(cfg, Woken(s, i), 0)
    else
      var c := FirstWhere(s.cpus, CpuOnSemaphore(s, sem));
      if c < |s.cpus| then Release(s, s.cpus[c].program.value) else s
  }

  function HasSocket(s: Kernel, socket: int): Pid -> bool {
    (p: Pid) => p in s.programs && s.programs[p].socket == socket
  }

  function CpuHasSocket(s: Kernel, socket: int): Cpu -> bool {
    (c: Cpu) => c.program.Some? && HasSocket(s, socket)(c.program.value)
  }

  /** `program_interrup`: the CPUs, New, Blocked and Ready are searched in this order. */
  function Interrupted(s: Kernel, socket: int, code: int, override: bool): Kernel
    requires Known(s)
  {
    var c := FirstWhere(s.cpus, CpuHasSocket(s, socket));
    var n := FirstWhere(s.newPrograms, HasSocket(s, socket));
    var b := FirstWhere(s.blocked, HasSocket(s, socket));
    var r := FirstWhere(s.ready, HasSocket(s, socket));
    if c < |s.cpus| then
      var p := s.cpus[c].program.value;
      if s.programs[p].interruptionCode == 0 || override then Update(s, p, s.programs[p].(interruptionCode := code)) else s
    else if n < |s.newPrograms| then
      FinishWith(s.(newPrograms := RemoveAt(s.newPrograms, n)), s.newPrograms[n], code)
    else if b < |s.blocked| then
      FinishWith(s.(blocked := RemoveAt(s.blocked, b)), s.blocked[b], code)
    else if r < |s.ready| then
      FinishWith(s.(ready := RemoveAt(s.ready, r)), s.ready[r], code)
    else s
  }

  /** The burst answer of `handle_still_burst` and the new quantum. */
  function Burst(program: Program): (bool, Program) {
    if program.waiting then (false, program.(quantum := 0))
    else if program.quantum != -1 then (program.quantum - 1 != 0, program.(quantum := program.quantum - 1))
    else (true, program)
  }

  /** `handle_end_burst` up to the planner: the CPU is idle and the program is queued. */
  function Ended(s: Kernel, i: nat, terminated: bool): Kernel
    requires BusyCpu(s, i) && Running(s, i) in s.programs
  {
    var p := Running(s, i);
    var program := s.programs[p];
    var s1 := Update(s.(cpus := s.cpus[i := s.cpus[i].(program := None)]), p, program.(quantum := 0));
    if terminated then Finish(s1, p)
    else if program.waiting then s1.(blocked := s1.blocked + [p])
    else s1.(ready := s1.ready + [p])
  }

  function Waited(s: Kernel, i: nat, sem: string): Kernel
    requires BusyCpu(s, i) && Running(s, i) in s.programs
  {
    var p := Running(s, i);
    var program := s.programs[p];
    if sem !in s.semaphores then Update(s, p, program.(interruptionCode := ERROR_SEM_DOES_NOT_EXIST))
    else
      var s1 := s.(semaphores := s.semaphores[sem := s.semaphores[sem] - 1]);
      if s1.semaphores[sem] >= 0 then s1 else Update(s1, p, program.(waiting := true, waitingReason := sem))
  }

  /** Loss of CPU `i`: its program, if any, is finished. */
  function Lost(s: Kernel, i: nat): Kernel
    requires i < |s.cpus| && Known(s)
  {
    var s1 := s.(cpus := RemoveAt(s.cpus, i));
    if s.cpus[i].program.None? then s1
    else
      RunningKnown(s, i);
      var p := s.cpus[i].program.value;
      Finish(Update(s1, p, s.programs[p].(interruptionCode := ERROR_CPU_DISCONNECTED, exitCode := ERROR_CPU_DISCONNECTED)), p)
  }

  function Arrived(s: Kernel, pid: Pid, socket: int): Kernel {
    Update(s, pid, Program(socket, false, "", 0, 1, 0)).(newPrograms := s.newPrograms + [pid])
  }

  lemma ArrivedKnown(s: Kernel, pid: Pid, socket: int)
    requires Known(s)
    ensures Known(Arrived(s, pid, socket))
  {
  }

  lemma NewCpuKnown(s: Kernel, socket: int)
    requires Known(s)
    ensures Known(s.(cpus := s.cpus + [Cpu(socket, None)]))
  {
    OnCpuAppend(s.cpus, [Cpu(socket, None)]);
    assert [Cpu(socket, None)][1..] == [];
  }

  lemma EndedKnown(s: Kernel, i: nat, terminated: bool)
    requires Known(s) && BusyCpu(s, i)
    ensures Running(s, i) in s.programs && Known(Ended(s, i, terminated))
    ensures |Ended(s, i, terminated).cpus| == |s.cpus|
  {
    RunningKnown(s, i);
    var c := s.cpus[i].(program := None);
    forall p | p in OnCpu(s.cpus[i := c]) ensures p in OnCpu(s.cpus) {
      OnCpuStored(s.cpus, i, c, p);
    }
  }

  /** One request, from the message to the end of its handler. */
  function Step(cfg: Config, s: Kernel, e: Event): Kernel
    requires Known(s) && Enabled(s, e)
  {
    match e
    case NewProgram(pid, socket) =>
      var s1 := Arrived(s, pid, socket);
      ArrivedKnown(s, pid, socket);
      AdmitKnown(cfg, s1, |s1.ready| + |OnCpu(s1.cpus)|);
      PlanIdle(cfg, LongTerm(cfg, s1), 0)
    case NewCpu(socket) =>
      NewCpuKnown(s, socket);
      Plan(cfg, s.(cpus := s.cpus + [Cpu(socket, None)]), |s.cpus|)
    case StillBurst(i) =>
      RunningKnown(s, i);
      Update(s, Running(s, i), Burst(s.programs[Running(s, i)]).1)
    case EndBurst(i, terminated) =>
      EndedKnown(s, i, terminated);
      Plan(cfg, Ended(s, i, terminated), i)
    case Wait(i, sem) =>
      RunningKnown(s, i);
      Waited(s, i, sem)
    case Signal(i, sem) =>
      RunningKnown(s, i);
      if sem !in s.semaphores then
        Update(s, Running(s, i), s.programs[Running(s, i)].(interruptionCode := ERROR_SEM_DOES_NOT_EXIST))
      else
        Unblock(cfg, s.(semaphores := s.semaphores[sem := s.semaphores[sem] + 1]), sem)
    case Interrupt(socket, code, override) => Interrupted(s, socket, code, override)
    case CpuLost(i) => Lost(s, i)
  }
}
