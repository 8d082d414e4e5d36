/** Two short runs from the start of the Kernel: one after which a semaphore's value counts a
    waiter that is gone, and one after which a program waits in New beside free room. */
module KernelLosses {
  import opened Wrappers
  import opened Scheduler
  import opened SchedulerRuns
  import opened Semaphores
  import opened WorkConservation
  import opened KernelRuns

  const SEM := "s"

  /** One program at a time, all admitted. */
  function OneAtATime(): Config {
    Config(1, FIFO, 0, (_: Pid) => 0)
  }

  function Started(): Kernel {
    Kernel(map[], [], [], [], [], [], map[SEM := 0])
  }

  /** With an idle CPU. */
  function WithCpu(): Kernel {
    Kernel(map[], [], [], [], [], [Cpu(0, None)], map[SEM := 0])
  }

  function New(socket: int, quantum: int): Program {
    Program(socket, false, "", 0, 1, quantum)
  }

  /** With a program on it. */
  function Executing(): Kernel {
    Kernel(map[0 := New(7, -1)], [], [], [], [], [Cpu(0, Some(0))], map[SEM := 0])
  }

  /** The program waits. */
  function Waiting(): Kernel {
    Kernel(map[0 := New(7, -1).(waiting := true, waitingReason := SEM)], [], [], [], [], [Cpu(0, Some(0))], map[SEM := -1])
  }

  /** A second program has arrived. */
  function Queueing(): Kernel {
    Kernel(map[0 := New(7, -1), 1 := New(8, 0)], [1], [], [], [], [Cpu(0, Some(0))], map[SEM := 0])
  }

  lemma CpuArrives()
    ensures Known(Started()) && Step(OneAtATime(), Started(), NewCpu(0)) == WithCpu()
  {
    var s := Started().(cpus := [] + [Cpu(0, None)]);
    assert LongTerm(OneAtATime(), s) == s;
    assert s.cpus[0 := Cpu(0, None)] == s.cpus;
  }

  lemma ProgramArrives()
    ensures Known(WithCpu()) && Enabled(WithCpu(), NewProgram(0, 7))
    ensures Step(OneAtATime(), WithCpu(), NewProgram(0, 7)) == Executing()
  {
    var cfg, s := OneAtATime(), WithCpu();
    OnCpuOne(s.cpus[0]);
    assert Known(s);
    var s1 := Arrived(s, 0, 7);
    var s2 := s1.(newPrograms := [], ready := [0]);
    assert s1.newPrograms == [0] && s1.newPrograms[1..] == [] && s1.ready + [0] == [0];
    assert Admit(cfg, s2, 1) == s2;
    assert Admit(cfg, s1, 0) == s2;
    assert LongTerm(cfg, s1) == s2;
    assert LongTerm(cfg, s2) == s2;
    var s3 := Dispatch(cfg, s2, 0);
    assert s3.cpus == [Cpu(0, Some(0))] && s3.ready == [];
    assert s3 == Executing();
    assert PlanIdle(cfg, s3, 1) == s3;
    assert Known(s2);
    assert PlanIdle(cfg, s2, 0) == s3;
  }

  lemma ProgramWaits()
    ensures Known(Executing()) && Step(OneAtATime(), Executing(), Wait(0, SEM)) == Waiting()
  {
    OnCpuOne(Executing().cpus[0]);
  }

  lemma SecondArrives()
    ensures Known(Executing()) && Enabled(Executing(), NewProgram(1, 8))
    ensures Step(OneAtATime(), Executing(), NewProgram(1, 8)) == Queueing()
  {
    var cfg, s := OneAtATime(), Executing();
    OnCpuOne(s.cpus[0]);
    assert Known(s);
    var s1 := Arrived(s, 1, 8);
    assert s1 == Queueing();
    assert LongTerm(cfg, s1) == s1;
    assert Known(s1);
    assert PlanIdle(cfg, s1, 1) == s1;
    assert PlanIdle(cfg, s1, 0) == s1;
  }

  /** A program waits and its CPU is lost: the value still says that one waits. */
  lemma WaiterIsLost()
    ensures var es := [NewCpu(0), NewProgram(0, 7), Wait(0, SEM), CpuLost(0)];
            && Initial(Started()) && Run(OneAtATime(), Started(), es).Some?
            && SomeWaiterLost(OneAtATime(), Started(), es)
            && !SemaphoresExact(Run(OneAtATime(), Started(), es).value)
  {
    hide Step, Plan, PlanIdle, LosesWaiter, SemaphoresExact, Run, SomeWaiterLost;
    CpuArrives();
    ProgramArrives();
    ProgramWaits();
    WaiterGone();
    LosesTheWaiter();
    var cfg, e1, e2, e3, e4 := OneAtATime(), NewCpu(0), NewProgram(0, 7), Wait(0, SEM), CpuLost(0);
    NoMore(cfg, Step(cfg, Waiting(), e4));
    OneMore(cfg, Waiting(), e4, []);
    OneMore(cfg, Executing(), e3, [e4]);
    OneMore(cfg, WithCpu(), e2, [e3, e4]);
    OneMore(cfg, Started(), e1, [e2, e3, e4]);
    Spelled(e1, e2, e3, e4);
  }

  lemma WaiterGone()
    ensures Known(Waiting()) && !SemaphoresExact(Step(OneAtATime(), Waiting(), CpuLost(0)))
  {
    OnCpuOne(Waiting().cpus[0]);
    var r := Step(OneAtATime(), Waiting(), CpuLost(0));
    assert r.cpus == [] && r.blocked == [] && r.semaphores == map[SEM := -1];
    assert WaitingOn(r, SEM) == {};
    assert |WaitingOn(r, SEM)| == 0;
  }

  lemma LosesTheWaiter()
    ensures Enabled(Waiting(), CpuLost(0)) && LosesWaiter(Waiting(), CpuLost(0))
  {
    var s := Waiting();
    assert s.cpus[0].program == Some(0);
    assert Waits(s, 0, SEM);
    assert 0 in WaitingOn(s, SEM);
    assert LosesWaiterOf(s, CpuLost(0), SEM);
  }

  /** A run one request longer. */
  lemma OneMore(cfg: Config, s: Kernel, e: Event, es: seq<Event>)
    requires Known(s) && Enabled(s, e)
    ensures Run(cfg, s, [e] + es) == Run(cfg, Step(cfg, s, e), es)
    ensures LosesWaiter(s, e) || SomeWaiterLost(cfg, Step(cfg, s, e), es) ==> SomeWaiterLost(cfg, s, [e] + es)
    ensures Starves(cfg, s, e) || SomeStarves(cfg, Step(cfg, s, e), es) ==> SomeStarves(cfg, s, [e] + es)
  {
    hide Step, Known, Enabled, LosesWaiter, Starves;
    assert ([e] + es)[1..] == es;
  }

  lemma NoMore(cfg: Config, s: Kernel)
    ensures Run(cfg, s, []) == Some(s)
  {
  }

  lemma Spelled(e1: Event, e2: Event, e3: Event, e4: Event)
    ensures [e1] + [e2, e3, e4] == [e1, e2, e3, e4] && [e2] + [e3, e4] == [e2, e3, e4]
    ensures [e3] + [e4] == [e3, e4] && [e4] + [] == [e4]
  {
  }

  /** The only CPU is lost while a second program waits for room: it stays in New, although
      nothing is ready and nothing runs. */
  lemma NewIsStarved()
    ensures var es := [NewCpu(0), NewProgram(0, 7), NewProgram(1, 8), CpuLost(0)];
            && Initial(Started()) && Run(OneAtATime(), Started(), es).Some?
            && SomeStarves(OneAtATime(), Started(), es)
            && !Working(OneAtATime(), Run(OneAtATime(), Started(), es).value)
  {
    hide Step, Plan, PlanIdle, Starves, Working, Run, SomeStarves;
    CpuArrives();
    ProgramArrives();
    SecondArrives();
    Starving();
    var cfg, e1, e2, e3, e4 := OneAtATime(), NewCpu(0), NewProgram(0, 7), NewProgram(1, 8), CpuLost(0);
    NoMore(cfg, Step(cfg, Queueing(), e4));
    OneMore(cfg, Queueing(), e4, []);
    OneMore(cfg, Executing(), e3, [e4]);
    OneMore(cfg, WithCpu(), e2, [e3, e4]);
    OneMore(cfg, Started(), e1, [e2, e3, e4]);
    Spelled(e1, e2, e3, e4);
  }

  lemma Starving()
    ensures Known(Queueing()) && Enabled(Queueing(), CpuLost(0)) && Starves(OneAtATime(), Queueing(), CpuLost(0))
    ensures !Working(OneAtATime(), Step(OneAtATime(), Queueing(), CpuLost(0)))
  {
    OnCpuOne(Queueing().cpus[0]);
    var r := Step(OneAtATime(), Queueing(), CpuLost(0));
    assert r.cpus == [] && r.newPrograms == [1];
  }
}
