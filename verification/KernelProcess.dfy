/** The Kernel's queues as the handlers update them, request by request; each handler is
    proved to take the step its request stands for. */
module KernelProcess {
  import opened Wrappers
  import opened Lists
  import opened Scheduler
  import opened SchedulerRuns
  import opened LifeCycle

  class Queues {
    const cfg: Config
    var programs: map<Pid, Program>
    var newPrograms: seq<Pid>
    var ready: seq<Pid>
    var blocked: seq<Pid>
    var finished: seq<Pid>
    var cpus: seq<Cpu>
    var semaphores: map<string, int>

    function View(): Kernel
      reads this
    {
      Kernel(programs, newPrograms, ready, blocked, finished, cpus, semaphores)
    }

    constructor (cfg: Config, semaphores: map<string, int>)
      ensures View() == Kernel(map[], [], [], [], [], [], semaphores) && this.cfg == cfg
      ensures Known(View())
    {
      this.cfg, this.semaphores := cfg, semaphores;
      programs, newPrograms, ready, blocked, finished, cpus := map[], [], [], [], [], [];
    }

    /** `program_finish` */
    method FinishProgram(p: Pid)
      modifies this`finished
      ensures View() == Finish(old(View()), p)
    {
      var i := Find(finished, q => q == p);
      if i < |finished| {
        return;
      }
      assert forall k :: 0 <= k < |finished| ==> !(q => q == p)(finished[k]);
      finished := finished + [p];
    }

    method BusyCpus() returns (n: nat)
      ensures n == |OnCpu(cpus)|
    {
      n := 0;
      for k := 0 to |cpus|
        invariant n == |OnCpu(cpus[..k])|
      {
        assert cpus[..k + 1] == cpus[..k] + [cpus[k]];
        OnCpuAppend(cpus[..k], [cpus[k]]);
        OnCpuOne(cpus[k]);
        if cpus[k].program.Some? {
          n := n + 1;
        }
      }
      assert cpus[..|cpus|] == cpus;
    }

    /** `planificador_largo_plazo` */
    method LongTermPlanner()
      requires Known(View())
      modifies this`newPrograms, this`ready, this`programs, this`finished
      ensures View() == LongTerm(cfg, old(View())) && Known(View())
      ensures Conserved(old(View())) ==> AllAdmitted(cfg, old(View()), View())
    {
      hide Conserved, AllAdmitted, OnCpu, Admit;
      LongTermByAnswer(cfg, View());
      AdmitNext(cfg, View(), |ready| + |OnCpu(cpus)|);
      if newPrograms != [] {
        var busy := BusyCpus();
        var running := |ready| + busy;
        while running < cfg.degree && newPrograms != []
          invariant Known(View()) && cpus == old(cpus) && blocked == old(blocked) && semaphores == old(semaphores)
          invariant Admit(cfg, View(), running) == LongTerm(cfg, old(View()))
          decreases |newPrograms|
        {
          AdmitNext(cfg, View(), running);
          var p := newPrograms[0];
          newPrograms := newPrograms[1..];
          var status := cfg.admission(p);
          if status != 0 {
            programs := programs[p := programs[p].(exitCode := status)];
            FinishProgram(p);
          } else {
            ready := ready + [p];
            running := running + 1;
          }
        }
        AdmitNext(cfg, View(), running);
      }
    }

    /** `planificar` */
    method Planner() returns (next: Option<Pid>)
      requires Known(View())
      modifies this`newPrograms, this`ready, this`programs, this`finished
      ensures forall i :: 0 <= i < |cpus| ==>
                View().(cpus := cpus[i := cpus[i].(program := next)]) == Plan(cfg, old(View()), i)
      ensures cpus == old(cpus)
    {
      LongTermPlanner();
      next := None;
      if ready != [] {
        next := Some(ready[0]);
        var program := programs[ready[0]];
        ready := ready[1..];
        match cfg.algorithm
        case FIFO => programs := programs[next.value := program.(quantum := -1)];
        case RR => programs := programs[next.value := program.(quantum := cfg.quantum)];
        case OtherAlgorithm => programs := programs[next.value := program];
      }
    }

    /** `cpu->program = planificar()` */
    method AssignCpu(i: nat)
      requires i < |cpus| && Known(View())
      modifies this`newPrograms, this`ready, this`programs, this`finished, this`cpus
      ensures View() == Plan(cfg, old(View()), i) && Known(View()) && |cpus| == |old(cpus)|
    {
      PlanKnown(cfg, View(), i);
      var next := Planner();
      cpus := cpus[i := cpus[i].(program := next)];
    }

    /** `cpu_inactive_planner` */
    method InactivePlanner()
      requires Known(View())
      modifies this`newPrograms, this`ready, this`programs, this`finished, this`cpus
      ensures View() == PlanIdle(cfg, old(View()), 0)
    {
      hide Plan, Known;
      for i := 0 to |cpus|
        invariant |cpus| == |old(cpus)| && Known(View())
        invariant PlanIdle(cfg, View(), i) == PlanIdle(cfg, old(View()), 0)
      {
        if cpus[i].program.None? {
          AssignCpu(i);
        }
      }
    }

    // ----- the handlers

    /** `program_process_new`, from the queueing on. */
    method ProcessNew(pid: Pid, socket: int)
      requires Known(View()) && Enabled(View(), NewProgram(pid, socket))
      modifies this
      ensures View() == Step(cfg, old(View()), NewProgram(pid, socket))
    {
      hide Admit, PlanIdle;
      ArrivedKnown(View(), pid, socket);
      programs := programs[pid := Program(socket, false, "", 0, 1, 0)];
      newPrograms := newPrograms + [pid];
      LongTermPlanner();
      InactivePlanner();
    }

    /** `handle_new_cpu` */
    method HandleNewCpu(socket: int)
      requires Known(View())
      modifies this
      ensures View() == Step(cfg, old(View()), NewCpu(socket))
    {
      hide Plan;
      NewCpuKnown(View(), socket);
      cpus := cpus + [Cpu(socket, None)];
      AssignCpu(|cpus| - 1);
    }

    /** `handle_still_burst`: whether the CPU may go on. */
    method HandleStillBurst(i: nat) returns (burst: bool)
      requires Known(View()) && Enabled(View(), StillBurst(i))
      modifies this`programs
      ensures View() == Step(cfg, old(View()), StillBurst(i))
      ensures Running(old(View()), i) in old(programs)
      ensures var program := old(programs)[Running(old(View()), i)];
              burst <==> !program.waiting && program.quantum != 1
    {
      RunningKnown(View(), i);
      var p := cpus[i].program.value;
      burst := true;
      if programs[p].waiting {
        burst := false;
        programs := programs[p := programs[p].(quantum := 0)];
      } else if programs[p].quantum != -1 {
        programs := programs[p := programs[p].(quantum := programs[p].quantum - 1)];
        if programs[p].quantum == 0 {
          burst := false;
        }
      }
      assert old(programs)[p := old(programs)[p]] == old(programs);
    }

    /** `handle_end_burst` */
    method HandleEndBurst(i: nat, terminated: bool)
      requires Known(View()) && Enabled(View(), EndBurst(i, terminated))
      modifies this
      ensures View() == Step(cfg, old(View()), EndBurst(i, terminated))
    {
      hide Plan;
      EndedKnown(View(), i, terminated);
      var p := cpus[i].program.value;
      cpus := cpus[i := cpus[i].(program := None)];
      programs := programs[p := programs[p].(quantum := 0)];
      if terminated {
        FinishProgram(p);
      } else if programs[p].waiting {
        blocked := blocked + [p];
      } else {
        ready := ready + [p];
      }
      AssignCpu(i);
    }

    /** `handle_cpu_wait`: whether the program may go on. */
    method HandleWait(i: nat, sem: string) returns (granted: Option<bool>)
      requires Known(View()) && Enabled(View(), Wait(i, sem))
      modifies this`programs, this`semaphores
      ensures View() == Step(cfg, old(View()), Wait(i, sem))
      ensures granted == if sem in old(semaphores) then Some(old(semaphores)[sem] > 0) else None
    {
      RunningKnown(View(), i);
      var p := cpus[i].program.value;
      if sem !in semaphores {
        programs := programs[p := programs[p].(interruptionCode := ERROR_SEM_DOES_NOT_EXIST)];
        return None;
      }
      semaphores := semaphores[sem := semaphores[sem] - 1];
      if semaphores[sem] >= 0 {
        granted := Some(true);
      } else {
        granted := Some(false);
        programs := programs[p := programs[p].(waiting := true, waitingReason := sem)];
      }
    }

    /** `handle_cpu_signal` */
    method HandleSignal(i: nat, sem: string)
      requires Known(View()) && Enabled(View(), Signal(i, sem))
      modifies this
      ensures View() == Step(cfg, old(View()), Signal(i, sem))
    {
      hide Unblock;
      RunningKnown(View(), i);
      var p := cpus[i].program.value;
      if sem !in semaphores {
        programs := programs[p := programs[p].(interruptionCode := ERROR_SEM_DOES_NOT_EXIST)];
        return;
      }
      semaphores := semaphores[sem := semaphores[sem] + 1];
      ProgramUnblock(sem);
    }

    /** `program_unblock` */
    method ProgramUnblock(sem: string)
      requires Known(View())
      modifies this
      ensures View() == Unblock(cfg, old(View()), sem)
    {
      hide PlanIdle;
      var i := Find(blocked, OnSemaphore(View(), sem));
      if i < |blocked| {
        var p := blocked[i];
        blocked := blocked[..i] + blocked[i + 1..];
        programs := programs[p := programs[p].(waiting := false, waitingReason := "")];
        ready := ready + [p];
        assert View() == Woken(old(View()), i);
        InactivePlanner();
      } else {
        var c := Find(cpus, CpuOnSemaphore(View(), sem));
        if c < |cpus| {
          var p := cpus[c].program.value;
          programs := programs[p := programs[p].(waiting := false, waitingReason := "")];
        }
      }
    }

    /** `program_interrup` */
    method ProgramInterrupt(socket: int, code: int, override: bool)
      requires Known(View())
      modifies this
      ensures View() == Step(cfg, old(View()), Interrupt(socket, code, override))
    {
      hide Known, FirstWhere;
      var c := Find(cpus, CpuHasSocket(View(), socket));
      if c < |cpus| {
        assert CpuHasSocket(View(), socket)(cpus[c]);
        var p := cpus[c].program.value;
        assert HasSocket(View(), socket)(p);
        if programs[p].interruptionCode == 0 || override {
          programs := programs[p := programs[p].(interruptionCode := code)];
        }
      } else {
        InterruptQueued(socket, code, override);
      }
    }

    method InterruptQueued(socket: int, code: int, override: bool)
      requires Known(View()) && FirstWhere(cpus, CpuHasSocket(View(), socket)) == |cpus|
      modifies this
      ensures View() == Interrupted(old(View()), socket, code, override)
    {
      hide Known, FirstWhere;
      var n := Find(newPrograms, HasSocket(View(), socket));
      var b := Find(blocked, HasSocket(View(), socket));
      var r := Find(ready, HasSocket(View(), socket));
      if n < |newPrograms| {
        var p := newPrograms[n];
        newPrograms := newPrograms[..n] + newPrograms[n + 1..];
        FinishWithCode(p, code);
      } else if b < |blocked| {
        var p := blocked[b];
        blocked := blocked[..b] + blocked[b + 1..];
        FinishWithCode(p, code);
      } else if r < |ready| {
        var p := ready[r];
        ready := ready[..r] + ready[r + 1..];
        FinishWithCode(p, code);
      }
    }

    method FinishWithCode(p: Pid, code: int)
      requires p in programs
      modifies this`programs, this`finished
      ensures View() == FinishWith(old(View()), p, code)
    {
      programs := programs[p := programs[p].(exitCode := code)];
      FinishProgram(p);
    }

    /** `select_cpu_socket_connection_lost` */
    method CpuConnectionLost(i: nat)
      requires Known(View()) && i < |cpus|
      modifies this
      ensures View() == Step(cfg, old(View()), CpuLost(i))
    {
      var program := cpus[i].program;
      if program.Some? {
        RunningKnown(View(), i);
      }
      hide Known;
      cpus := cpus[..i] + cpus[i + 1..];
      if program.Some? {
        var p := program.value;
        programs := programs[p := programs[p].(interruptionCode := ERROR_CPU_DISCONNECTED, exitCode := ERROR_CPU_DISCONNECTED)];
        FinishProgram(p);
      }
    }
  }
}
