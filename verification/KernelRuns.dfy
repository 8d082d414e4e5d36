/** What holds after every sequence of requests. */
module KernelRuns {
  import opened Wrappers
  import opened Lists
  import opened Scheduler
  import opened SchedulerRuns
  import opened Semaphores
  import opened WorkConservation

  /** The requests one after the other; none if one of them cannot arrive where it should. */
  ghost function Run(cfg: Config, s: Kernel, es: seq<Event>): Option<Kernel>
    decreases |es|
  {
    if es == [] then Some(s)
    else if Known(s) && Enabled(s, es[0]) then Run(cfg, Step(cfg, s, es[0]), es[1..])
    else None
  }

  /** Some request of the run takes a waiter away without a signal. */
  ghost predicate SomeWaiterLost(cfg: Config, s: Kernel, es: seq<Event>)
    decreases |es|
  {
    es != [] && Known(s) && Enabled(s, es[0]) &&
    (LosesWaiter(s, es[0]) || SomeWaiterLost(cfg, Step(cfg, s, es[0]), es[1..]))
  }

  /** Some request of the run starves New. */
  ghost predicate SomeStarves(cfg: Config, s: Kernel, es: seq<Event>)
    decreases |es|
  {
    es != [] && Known(s) && Enabled(s, es[0]) &&
    (Starves(cfg, s, es[0]) || SomeStarves(cfg, Step(cfg, s, es[0]), es[1..]))
  }

  /** The Kernel when it starts. */
  predicate Initial(s: Kernel) {
    && s.programs == map[] && s.newPrograms == [] && s.ready == [] && s.blocked == [] && s.finished == [] && s.cpus == []
    && forall sem :: sem in s.semaphores ==> s.semaphores[sem] >= 0
  }

  lemma InitialHolds(cfg: Config, s: Kernel)
    requires Initial(s)
    ensures Inv(s) && SemaphoresOk(s) && SemaphoresExact(s) && Working(cfg, s)
  {
    assert s.programs.Keys == {};
    assert forall sem :: WaitingOn(s, sem) == {};
  }

  /** Finished is absorbing: a request appends to it at most. */
  lemma FinishedStays(cfg: Config, s: Kernel, e: Event)
    requires Inv(s) && Known(s) && Enabled(s, e)
    ensures s.finished <= Step(cfg, s, e).finished
  {
    hide Conserved, Flags, OnCpu, Known, WaitingOn, Plan, PlanIdle, Admit;
    match e
    case NewProgram(pid, socket) =>
      var s1 := Arrived(s, pid, socket);
      ArrivedWaiting(s, pid, socket, "");
      ArrivedKnown(s, pid, socket);
      AdmitKnown(cfg, s1, Load(s1));
      AdmitPlans(cfg, s1, Load(s1));
      PlanIdlePlans(cfg, LongTerm(cfg, s1), 0);
    case NewCpu(socket) =>
      NewCpuWaiting(s, socket, "");
      NewCpuKnown(s, socket);
      PlanPlans(cfg, s.(cpus := s.cpus + [Cpu(socket, None)]), |s.cpus|);
    case EndBurst(i, terminated) =>
      RunningKnown(s, i);
      EndedWaiting(s, i, terminated, "");
      EndedKnown(s, i, terminated);
      PlanPlans(cfg, Ended(s, i, terminated), i);
    case Signal(i, sem) =>
      if sem in s.semaphores {
        SignalPlans(cfg, s, i, sem);
      }
    case _ =>
  }

  lemma SignalPlans(cfg: Config, s: Kernel, i: nat, sem: string)
    requires Inv(s) && Known(s) && BusyCpu(s, i) && sem in s.semaphores
    ensures s.finished <= Step(cfg, s, Signal(i, sem)).finished
  {
    hide Inv, OnCpu, WaitingOn, Unblock, Released;
    var s1 := s.(semaphores := s.semaphores[sem := s.semaphores[sem] + 1]);
    SemaphoresOnly(s, s1, sem);
    assert Known(s1);
    UnblockPlans(cfg, s1, sem);
  }

  lemma UnblockPlans(cfg: Config, s: Kernel, sem: string)
    requires Inv(s) && Known(s)
    ensures s.finished <= Unblock(cfg, s, sem).finished
  {
    hide Conserved, Flags, OnCpu, WaitingOn, PlanIdle, Known, RemoveAt;
    var b := FirstWhere(s.blocked, OnSemaphore(s, sem));
    if b < |s.blocked| {
      WokenWaiting(s, b, sem, sem);
      PlanIdlePlans(cfg, Woken(s, b), 0);
    }
  }

  /** So does any run. */
  lemma {:induction false} RunFinishes(cfg: Config, s: Kernel, es: seq<Event>)
    requires Inv(s) && Run(cfg, s, es).Some?
    ensures Inv(Run(cfg, s, es).value) && s.finished <= Run(cfg, s, es).value.finished
    decreases |es|
  {
    hide Inv, Step, Known, WaitingOn, WaitingAfter;
    if es != [] {
      StepWaiting(cfg, s, es[0], "");
      FinishedStays(cfg, s, es[0]);
      RunFinishes(cfg, Step(cfg, s, es[0]), es[1..]);
    }
  }

  /** From the initial state, whatever arrives: every program is in exactly one place,
      Blocked holds waiting programs and New and Ready the others, no semaphore has more
      waiters than its value stands for, and finished programs stay finished. */
  lemma {:induction false} RunKeeps(cfg: Config, s: Kernel, es: seq<Event>)
    requires Inv(s) && SemaphoresOk(s) && Run(cfg, s, es).Some?
    ensures var r := Run(cfg, s, es).value;
            Inv(r) && SemaphoresOk(r) && s.finished <= r.finished
    decreases |es|
  {
    hide Inv, SemaphoresOk, Step, Known;
    if es != [] {
      StepKeepsSemaphores(cfg, s, es[0]);
      FinishedStays(cfg, s, es[0]);
      RunKeeps(cfg, Step(cfg, s, es[0]), es[1..]);
    }
  }

  /** While no waiter is lost, a negative value is exactly the number of waiters. */
  lemma {:induction false} RunKeepsExactness(cfg: Config, s: Kernel, es: seq<Event>)
    requires Inv(s) && SemaphoresExact(s) && SemaphoresOk(s) && Run(cfg, s, es).Some? && !SomeWaiterLost(cfg, s, es)
    ensures SemaphoresExact(Run(cfg, s, es).value)
    decreases |es|
  {
    hide Inv, SemaphoresExact, SemaphoresOk, Step, Known, LosesWaiter;
    if es != [] {
      StepKeepsSemaphores(cfg, s, es[0]);
      StepKeepsExactness(cfg, s, es[0]);
      RunKeepsExactness(cfg, Step(cfg, s, es[0]), es[1..]);
    }
  }

  /** While New is not starved, no CPU idles beside a ready program and none waits in New
      below the degree. */
  lemma {:induction false} RunKeepsWorking(cfg: Config, s: Kernel, es: seq<Event>)
    requires Working(cfg, s) && Run(cfg, s, es).Some? && !SomeStarves(cfg, s, es)
    ensures Working(cfg, Run(cfg, s, es).value)
    decreases |es|
  {
    hide Working, Step, Known, Starves;
    if es != [] {
      StepServes(cfg, s, es[0]);
      RunKeepsWorking(cfg, Step(cfg, s, es[0]), es[1..]);
    }
  }

  lemma KernelHolds(cfg: Config, s: Kernel, es: seq<Event>)
    requires Initial(s) && Run(cfg, s, es).Some?
    ensures var r := Run(cfg, s, es).value;
            && Conserved(r) && Flags(r) && SemaphoresOk(r)
            && (!SomeWaiterLost(cfg, s, es) ==> SemaphoresExact(r))
            && (!SomeStarves(cfg, s, es) ==> Working(cfg, r))
  {
    InitialHolds(cfg, s);
    RunKeeps(cfg, s, es);
    if !SomeWaiterLost(cfg, s, es) {
      RunKeepsExactness(cfg, s, es);
    }
    if !SomeStarves(cfg, s, es) {
      RunKeepsWorking(cfg, s, es);
    }
    hide Run, Conserved, Flags, SemaphoresOk, SemaphoresExact, Working, SomeWaiterLost, SomeStarves;
  }

  /** At the end of its burst a program is blocked if and only if it is still waiting. */
  lemma BlockedIffWaiting(cfg: Config, s: Kernel, i: nat)
    requires Inv(s) && Known(s) && BusyCpu(s, i) && Running(s, i) in s.programs
    ensures Running(s, i) in Step(cfg, s, EndBurst(i, false)).blocked <==> s.programs[Running(s, i)].waiting
  {
    OnlyOnItsCpu(s, i);
    hide Conserved, Flags, OnCpu, Known, WaitingOn, Plan;
    EndedWaiting(s, i, false, "");
    EndedKnown(s, i, false);
    PlanPlans(cfg, Ended(s, i, false), i);
  }

  /** The request makes `p` wait. */
  predicate BlocksAgain(s: Kernel, e: Event, p: Pid) {
    e.Wait? && BusyCpu(s, e.cpu) && Running(s, e.cpu) == p && e.sem in s.semaphores && s.semaphores[e.sem] <= 0
  }

  /** Some request of the run makes `p` wait. */
  ghost predicate SomeBlocksAgain(cfg: Config, s: Kernel, es: seq<Event>, p: Pid)
    decreases |es|
  {
    es != [] && Known(s) && Enabled(s, es[0]) &&
    (BlocksAgain(s, es[0], p) || SomeBlocksAgain(cfg, Step(cfg, s, es[0]), es[1..], p))
  }

  ghost predicate WaitsForNothing(s: Kernel, p: Pid) {
    forall sem :: p !in WaitingOn(s, sem)
  }

  lemma StaysReleased(cfg: Config, s: Kernel, e: Event, p: Pid)
    requires Inv(s) && Known(s) && Enabled(s, e) && WaitsForNothing(s, p) && !BlocksAgain(s, e, p)
    ensures Inv(Step(cfg, s, e)) && WaitsForNothing(Step(cfg, s, e), p)
  {
    hide Step, WaitingOn, Inv, Known, Leaver, Released;
    StepWaiting(cfg, s, e, "");
    forall sem ensures p !in WaitingOn(Step(cfg, s, e), sem) {
      StepWaiting(cfg, s, e, sem);
    }
  }

  lemma WaitingIfBlocked(s: Kernel, p: Pid)
    requires Flags(s) && WaitsForNothing(s, p)
    ensures p !in s.blocked
  {
    if p in s.programs {
      assert p in s.blocked ==> p in WaitingOn(s, s.programs[p].waitingReason);
    }
  }

  /** A program that waits for nothing is in Blocked in no state of a run, as long as no
      request makes it wait. */
  lemma {:induction false} NeverBlocked(cfg: Config, s: Kernel, es: seq<Event>, p: Pid, k: nat)
    requires Inv(s) && WaitsForNothing(s, p) && Run(cfg, s, es).Some? && !SomeBlocksAgain(cfg, s, es, p) && k <= |es|
    ensures Run(cfg, s, es[..k]).Some? && p !in Run(cfg, s, es[..k]).value.blocked
    decreases |es|
  {
    hide Step, Known, WaitsForNothing, BlocksAgain, Conserved, Flags, Enabled;
    if k == 0 {
      WaitingIfBlocked(s, p);
    } else {
      StaysReleased(cfg, s, es[0], p);
      NeverBlocked(cfg, Step(cfg, s, es[0]), es[1..], p, k - 1);
      Shorter(es, k);
    }
  }

  lemma Shorter(es: seq<Event>, k: nat)
    requires 0 < k <= |es|
    ensures es[..k] != [] && es[..k][0] == es[0] && es[..k][1..] == es[1..][..k - 1]
  {
  }

  /** A waiter that is signalled, blocked or still on its CPU, never lands in Blocked for that
      wait: not in any state of any run after the signal in which it does not wait again. */
  lemma SignalledNeverBlocked(cfg: Config, s: Kernel, i: nat, sem: string, p: Pid, es: seq<Event>, k: nat)
    requires Inv(s) && Known(s) && BusyCpu(s, i) && sem in s.semaphores && Released(s, sem) == Some(p)
    requires Run(cfg, Step(cfg, s, Signal(i, sem)), es).Some? && k <= |es|
    requires !SomeBlocksAgain(cfg, Step(cfg, s, Signal(i, sem)), es, p)
    ensures var s1 := Step(cfg, s, Signal(i, sem));
            Run(cfg, s1, es[..k]).Some? && p !in Run(cfg, s1, es[..k]).value.blocked
  {
    hide Step, Inv, Known, Run, SomeBlocksAgain, Released;
    ReleasedWaits(s, sem);
    var s1 := Step(cfg, s, Signal(i, sem));
    StepWaiting(cfg, s, Signal(i, sem), sem);
    forall other ensures p !in WaitingOn(s1, other) {
      StepWaiting(cfg, s, Signal(i, sem), other);
      assert other != sem ==> p !in WaitingOn(s, other);
    }
    NeverBlocked(cfg, s1, es, p, k);
  }
}
