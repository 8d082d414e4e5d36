/** A semaphore wakes its waiters in the order in which they were blocked, and the CPUs keep
    their connections, whatever is planned (Kernel/src/functions/program.c, Kernel/src/planner,
    Kernel/src/threads/cpu/handler.c). */
module WaiterOrder {
  import opened Wrappers
  import opened Lists
  import opened Scheduler
  import opened SchedulerRuns
  import opened Semaphores
  import opened KernelRuns
  import opened LifeCycle

  /** What no planner touches: Blocked, and which CPU is which. */
  ghost predicate Kept(s: Kernel, s': Kernel) {
    && s'.blocked == s.blocked && |s'.cpus| == |s.cpus|
    && forall k :: 0 <= k < |s.cpus| ==> s'.cpus[k].socket == s.cpus[k].socket
  }

  lemma {:induction false} AdmitKeeps(cfg: Config, s: Kernel, running: int)
    requires Known(s)
    ensures Kept(s, Admit(cfg, s, running))
    decreases |s.newPrograms|
  {
    hide Admit, Known;
    AdmitNext(cfg, s, running);
    if running < cfg.degree && s.newPrograms != [] {
      var p, s1 := s.newPrograms[0], s.(newPrograms := s.newPrograms[1..]);
      var s2 := if cfg.admission(p) != 0 then FinishWith(s1, p, cfg.admission(p)) else s1.(ready := s1.ready + [p]);
      AdmitKeeps(cfg, s2, if cfg.admission(p) != 0 then running else running + 1);
    }
  }

  lemma PlanKeeps(cfg: Config, s: Kernel, i: nat)
    requires Known(s) && i < |s.cpus|
    ensures Kept(s, Plan(cfg, s, i))
  {
    AdmitKeeps(cfg, s, |s.ready| + |OnCpu(s.cpus)|);
    hide Admit, OnCpu;
  }

  lemma {:induction false} PlanIdleKeeps(cfg: Config, s: Kernel, i: nat)
    requires Known(s) && i <= |s.cpus|
    ensures Kept(s, PlanIdle(cfg, s, i))
    decreases |s.cpus| - i
  {
    hide Plan, Known, OnCpu;
    if i < |s.cpus| {
      if s.cpus[i].program.None? {
        PlanKnown(cfg, s, i);
        PlanKeeps(cfg, s, i);
        PlanIdleKeeps(cfg, Plan(cfg, s, i), i + 1);
      } else {
        PlanIdleKeeps(cfg, s, i + 1);
      }
    }
  }

  // ----- Blocked, and the CPUs, after a request

  /** Who leaves Blocked: the first waiter of a signalled semaphore, or the program that an
      interruption finds there. */
  ghost function Unblocked(s: Kernel, e: Event): Option<Pid> {
    if e.Signal? && e.sem in s.semaphores then Released(s, e.sem)
    else if e.Interrupt? then Struck(s, e.socket)
    else None
  }

  /** Who comes last: a program that waits at the end of its burst. */
  ghost function Blocks(s: Kernel, e: Event): seq<Pid>
    requires Enabled(s, e)
  {
    if e.EndBurst? && !e.terminated && Running(s, e.cpu) in s.programs && s.programs[Running(s, e.cpu)].waiting
    then [Running(s, e.cpu)] else []
  }

  /** `q` without `p`, the others in their order. */
  function Leaving(q: seq<Pid>, p: Option<Pid>): seq<Pid> {
    if q == [] then [] else (if p == Some(q[0]) then [] else [q[0]]) + Leaving(q[1..], p)
  }

  lemma {:induction false} NobodyLeaves(q: seq<Pid>, p: Option<Pid>)
    requires p.None? || p.value !in q
    ensures Leaving(q, p) == q
  {
    if q != [] { NobodyLeaves(q[1..], p); }
  }

  lemma {:induction false} OneLeaves(q: seq<Pid>, i: nat)
    requires i < |q| && multiset(q)[q[i]] == 1
    ensures Leaving(q, Some(q[i])) == RemoveAt(q, i)
  {
    HeadOnly(q, q[i]);
    if i == 0 {
      InMultiset(q[1..], q[0]);
      NobodyLeaves(q[1..], Some(q[0]));
    } else {
      assert q[1..][i - 1] == q[i];
      InMultiset(q[1..], q[i]);
      OneLeaves(q[1..], i - 1);
      assert RemoveAt(q, i) == [q[0]] + RemoveAt(q[1..], i - 1);
    }
  }

  /** Blocked after any request: who leaves is gone, and a new waiter comes last. */
  lemma BlockedAfter(cfg: Config, s: Kernel, e: Event)
    requires Conserved(s) && Known(s) && Enabled(s, e)
    ensures Step(cfg, s, e).blocked == Leaving(s.blocked, Unblocked(s, e)) + Blocks(s, e)
  {
    hide Conserved, Known, OnCpu, Released, Struck, Leaving, PlanIdle, Plan, LongTerm, Unblock, Interrupted;
    if !e.Signal? && !e.Interrupt? {
      NobodyLeaves(s.blocked, None);
    }
    match e
    case NewProgram(pid, socket) =>
      ArrivedKnown(s, pid, socket);
      LongTermKeeps(cfg, Arrived(s, pid, socket));
      PlanIdleKeeps(cfg, LongTerm(cfg, Arrived(s, pid, socket)), 0);
    case NewCpu(socket) =>
      NewCpuKnown(s, socket);
      PlanKeeps(cfg, s.(cpus := s.cpus + [Cpu(socket, None)]), |s.cpus|);
    case EndBurst(i, terminated) =>
      EndedKnown(s, i, terminated);
      PlanKeeps(cfg, Ended(s, i, terminated), i);
    case Signal(i, sem) =>
      SignalBlocked(cfg, s, i, sem);
    case Interrupt(socket, code, override) =>
      InterruptBlocked(s, socket, code, override);
    case _ =>
  }

  lemma LongTermKeeps(cfg: Config, s: Kernel)
    requires Known(s)
    ensures Kept(s, LongTerm(cfg, s)) && Known(LongTerm(cfg, s))
  {
    hide Admit, Kept, OnCpu;
    AdmitKeeps(cfg, s, |s.ready| + |OnCpu(s.cpus)|);
    AdmitKnown(cfg, s, |s.ready| + |OnCpu(s.cpus)|);
  }

  lemma SignalBlocked(cfg: Config, s: Kernel, i: nat, sem: string)
    requires Conserved(s) && Known(s) && BusyCpu(s, i)
    ensures Step(cfg, s, Signal(i, sem)).blocked == Leaving(s.blocked, Unblocked(s, Signal(i, sem)))
  {
    hide Conserved, Known, OnCpu, Leaving, Unblock, Released;
    if sem !in s.semaphores {
      NobodyLeaves(s.blocked, None);
    } else {
      var s1 := s.(semaphores := s.semaphores[sem := s.semaphores[sem] + 1]);
      SignalKnown(s, sem);
      UnblockBlocked(cfg, s, s1, sem);
    }
  }

  lemma UnblockBlocked(cfg: Config, s: Kernel, s1: Kernel, sem: string)
    requires Conserved(s) && Known(s) && Known(s1) && s1 == s.(semaphores := s1.semaphores)
    ensures Unblock(cfg, s1, sem).blocked == Leaving(s.blocked, Released(s, sem))
  {
    hide Conserved, Known, OnCpu, Leaving, PlanIdle, OnSemaphore, CpuOnSemaphore, RemoveAt, FirstWhere, Woken;
    SameSearches(s, s1, sem);
    var b := FirstWhere(s.blocked, OnSemaphore(s, sem));
    if b < |s.blocked| {
      BlockedOnce(s, b);
      OneLeaves(s.blocked, b);
      WokenKnown(s1, b);
      PlanIdleKeeps(cfg, Woken(s1, b), 0);
    } else {
      CpuReleased(s, sem);
      NobodyLeaves(s.blocked, Released(s, sem));
    }
  }

  lemma BlockedOnce(s: Kernel, b: nat)
    requires Conserved(s) && Known(s) && b < |s.blocked|
    ensures s.blocked[b] in s.programs && multiset(s.blocked)[s.blocked[b]] == 1
  {
    assert s.blocked[b] in s.blocked;
    hide Conserved, OnCpu;
    InPlaceOnce(s, s.blocked[b]);
  }

  lemma WokenKnown(s: Kernel, b: nat)
    requires Known(s) && b < |s.blocked| && s.blocked[b] in s.programs
    ensures Known(Woken(s, b)) && Woken(s, b).blocked == RemoveAt(s.blocked, b) && Woken(s, b).cpus == s.cpus
  {
  }

  lemma OnlyOnCpu(s: Kernel, c: nat)
    requires Conserved(s) && BusyCpu(s, c)
    ensures Running(s, c) !in s.blocked
  {
    OnlyOnItsCpu(s, c);
  }

  lemma CpuReleased(s: Kernel, sem: string)
    requires Conserved(s) && FirstWhere(s.blocked, OnSemaphore(s, sem)) == |s.blocked|
    ensures Released(s, sem).Some? ==> Released(s, sem).value !in s.blocked
  {
    hide Conserved, OnCpu, FirstWhere, OnSemaphore;
    var c := FirstWhere(s.cpus, CpuOnSemaphore(s, sem));
    if c < |s.cpus| {
      assert CpuOnSemaphore(s, sem)(s.cpus[c]);
      OnlyOnCpu(s, c);
    }
  }

  lemma InterruptBlocked(s: Kernel, socket: int, code: int, override: bool)
    requires Conserved(s) && Known(s)
    ensures Interrupted(s, socket, code, override).blocked == Leaving(s.blocked, Struck(s, socket))
  {
    hide Conserved, Known, OnCpu, Leaving, HasSocket, CpuHasSocket, RemoveAt, FirstWhere, Interrupted, Struck;
    var c := FirstWhere(s.cpus, CpuHasSocket(s, socket));
    var n := FirstWhere(s.newPrograms, HasSocket(s, socket));
    var b := FirstWhere(s.blocked, HasSocket(s, socket));
    if c == |s.cpus| && n == |s.newPrograms| && b < |s.blocked| {
      BlockedOnce(s, b);
      OneLeaves(s.blocked, b);
      StruckThere(s, socket, code, override);
    } else {
      StruckElsewhere(s, socket, code, override);
      NobodyLeaves(s.blocked, Struck(s, socket));
    }
  }

  lemma StruckThere(s: Kernel, socket: int, code: int, override: bool)
    requires Known(s) && FirstWhere(s.cpus, CpuHasSocket(s, socket)) == |s.cpus|
    requires FirstWhere(s.newPrograms, HasSocket(s, socket)) == |s.newPrograms|
    requires FirstWhere(s.blocked, HasSocket(s, socket)) < |s.blocked|
    ensures var b := FirstWhere(s.blocked, HasSocket(s, socket));
            && Struck(s, socket) == Some(s.blocked[b])
            && Interrupted(s, socket, code, override).blocked == RemoveAt(s.blocked, b)
  {
    assert s.blocked[FirstWhere(s.blocked, HasSocket(s, socket))] in s.programs;
    hide Known, FirstWhere, HasSocket, CpuHasSocket, RemoveAt;
  }

  lemma StruckElsewhere(s: Kernel, socket: int, code: int, override: bool)
    requires Conserved(s) && Known(s)
    requires FirstWhere(s.cpus, CpuHasSocket(s, socket)) < |s.cpus| ||
             FirstWhere(s.newPrograms, HasSocket(s, socket)) < |s.newPrograms| ||
             FirstWhere(s.blocked, HasSocket(s, socket)) == |s.blocked|
    ensures Struck(s, socket).Some? ==> Struck(s, socket).value !in s.blocked
    ensures Interrupted(s, socket, code, override).blocked == s.blocked
  {
    var c := FirstWhere(s.cpus, CpuHasSocket(s, socket));
    var n := FirstWhere(s.newPrograms, HasSocket(s, socket));
    var r := FirstWhere(s.ready, HasSocket(s, socket));
    hide Conserved, OnCpu, FirstWhere, HasSocket;
    if c < |s.cpus| {
      assert CpuHasSocket(s, socket)(s.cpus[c]);
      OnlyOnCpu(s, c);
    } else if n < |s.newPrograms| {
      assert s.newPrograms[n] in s.newPrograms;
      OnePlace(s, s.newPrograms[n]);
    } else if r < |s.ready| {
      assert s.ready[r] in s.ready;
      OnePlace(s, s.ready[r]);
    }
  }

  /** The connections of the CPUs, in their order. */
  function Sockets(cpus: seq<Cpu>): seq<int> {
    seq(|cpus|, k requires 0 <= k < |cpus| => cpus[k].socket)
  }

  lemma SameSockets(a: seq<Cpu>, b: seq<Cpu>)
    requires |b| == |a| && forall k :: 0 <= k < |a| ==> b[k].socket == a[k].socket
    ensures Sockets(b) == Sockets(a)
  {
  }

  lemma SocketAdded(cpus: seq<Cpu>, socket: int)
    ensures Sockets(cpus + [Cpu(socket, None)]) == Sockets(cpus) + [socket]
  {
  }

  lemma SocketRemoved(cpus: seq<Cpu>, i: nat)
    requires i < |cpus|
    ensures Sockets(RemoveAt(cpus, i)) == RemoveAt(Sockets(cpus), i)
  {
  }

  /** A CPU comes last, a lost one is taken out, and no planning swaps connections. */
  lemma SocketsAfter(cfg: Config, s: Kernel, e: Event)
    requires Known(s) && Enabled(s, e)
    ensures Sockets(Step(cfg, s, e).cpus) ==
            if e.NewCpu? then Sockets(s.cpus) + [e.cpuSocket]
            else if e.CpuLost? then RemoveAt(Sockets(s.cpus), e.cpu)
            else Sockets(s.cpus)
  {
    hide Known, OnCpu, PlanIdle, Plan, LongTerm, FirstWhere, Unblock, Interrupted, Sockets, RemoveAt;
    match e
    case NewProgram(pid, socket) =>
      NewProgramKeepsSockets(cfg, s, pid, socket);
    case NewCpu(socket) =>
      NewCpuKnown(s, socket);
      PlanKeeps(cfg, s.(cpus := s.cpus + [Cpu(socket, None)]), |s.cpus|);
      SameSockets(s.cpus + [Cpu(socket, None)], Step(cfg, s, e).cpus);
      SocketAdded(s.cpus, socket);
    case EndBurst(i, terminated) =>
      EndBurstKeepsSockets(cfg, s, i, terminated);
    case Signal(i, sem) =>
      if sem in s.semaphores {
        SignalKnown(s, sem);
        UnblockKeepsSockets(cfg, s.(semaphores := s.semaphores[sem := s.semaphores[sem] + 1]), sem);
      }
    case Interrupt(socket, code, override) => InterruptKeepsSockets(s, socket, code, override);
    case CpuLost(i) => SocketRemoved(s.cpus, i);
    case _ =>
  }

  lemma NewProgramKeepsSockets(cfg: Config, s: Kernel, pid: Pid, socket: int)
    requires Known(s) && pid !in s.programs
    ensures Sockets(Step(cfg, s, NewProgram(pid, socket)).cpus) == Sockets(s.cpus)
  {
    hide Known, OnCpu, PlanIdle, LongTerm, Sockets;
    var s1 := Arrived(s, pid, socket);
    ArrivedKnown(s, pid, socket);
    LongTermKeeps(cfg, s1);
    PlanIdleKeeps(cfg, LongTerm(cfg, s1), 0);
    SameSockets(s.cpus, PlanIdle(cfg, LongTerm(cfg, s1), 0).cpus);
  }

  lemma EndBurstKeepsSockets(cfg: Config, s: Kernel, i: nat, terminated: bool)
    requires Known(s) && BusyCpu(s, i)
    ensures Sockets(Step(cfg, s, EndBurst(i, terminated)).cpus) == Sockets(s.cpus)
  {
    hide Known, OnCpu, Plan, Sockets;
    EndedKnown(s, i, terminated);
    PlanKeeps(cfg, Ended(s, i, terminated), i);
    SameSockets(s.cpus, Plan(cfg, Ended(s, i, terminated), i).cpus);
  }

  lemma InterruptKeepsSockets(s: Kernel, socket: int, code: int, override: bool)
    requires Known(s)
    ensures Interrupted(s, socket, code, override).cpus == s.cpus
  {
    hide OnCpu, FirstWhere, RemoveAt;
  }

  lemma UnblockKeepsSockets(cfg: Config, s: Kernel, sem: string)
    requires Known(s)
    ensures Sockets(Unblock(cfg, s, sem).cpus) == Sockets(s.cpus)
  {
    var b := FirstWhere(s.blocked, OnSemaphore(s, sem));
    if b < |s.blocked| {
      hide OnCpu, PlanIdle, FirstWhere;
      assert s.blocked[b] in s.blocked;
      WokenKnown(s, b);
      hide Known, Sockets;
      PlanIdleKeeps(cfg, Woken(s, b), 0);
      SameSockets(s.cpus, PlanIdle(cfg, Woken(s, b), 0).cpus);
    }
  }

  // ----- waiters in their order

  /** `p` is in the queue, and `r` is not before it. */
  predicate Ahead(q: seq<Pid>, p: Pid, r: Pid) {
    q != [] && (q[0] == p || (q[0] != r && Ahead(q[1..], p, r)))
  }

  lemma {:induction false} AheadIsThere(q: seq<Pid>, p: Pid, r: Pid)
    ensures Ahead(q, p, r) ==> p in q
    ensures p in q && r !in q ==> Ahead(q, p, r)
  {
    if q != [] { AheadIsThere(q[1..], p, r); }
  }

  lemma {:induction false} StillAhead(q: seq<Pid>, p: Pid, r: Pid, gone: Option<Pid>, more: seq<Pid>)
    requires Ahead(q, p, r) && gone != Some(p)
    ensures Ahead(Leaving(q, gone) + more, p, r)
  {
    if q[0] != p {
      StillAhead(q[1..], p, r, gone, more);
      var tail := Leaving(q[1..], gone) + more;
      if gone == Some(q[0]) {
        assert Leaving(q, gone) + more == tail;
      } else {
        assert Leaving(q, gone) + more == [q[0]] + tail;
        assert ([q[0]] + tail)[0] == q[0] && ([q[0]] + tail)[1..] == tail;
      }
    } else {
      assert (Leaving(q, gone) + more)[0] == p;
    }
  }

  lemma {:induction false} IsGone(q: seq<Pid>, p: Pid)
    ensures p !in Leaving(q, Some(p))
  {
    if q != [] { IsGone(q[1..], p); }
  }

  lemma {:induction false} NotFirst(q: seq<Pid>, test: Pid -> bool, p: Pid, r: Pid)
    requires Ahead(q, p, r) && test(p) && p != r
    ensures FirstWhere(q, test) < |q| && q[FirstWhere(q, test)] != r
  {
    if q[0] != p && !test(q[0]) { NotFirst(q[1..], test, p, r); }
  }

  /** A blocked program that stays blocked stays ahead of those that were not before it. */
  lemma StepKeepsAhead(cfg: Config, s: Kernel, e: Event, p: Pid, r: Pid)
    requires Conserved(s) && Known(s) && Enabled(s, e) && Ahead(s.blocked, p, r)
    requires p in Step(cfg, s, e).blocked
    ensures Ahead(Step(cfg, s, e).blocked, p, r)
  {
    hide Conserved, Known, OnCpu, Step, Unblocked, Blocks, Leaving, Ahead;
    BlockedAfter(cfg, s, e);
    AheadIsThere(s.blocked, p, r);
    IsGone(s.blocked, p);
    NotRunning(s, e, p);
    StillAhead(s.blocked, p, r, Unblocked(s, e), Blocks(s, e));
  }

  /** It also goes on waiting for the same. */
  lemma StepKeepsReason(cfg: Config, s: Kernel, e: Event, p: Pid)
    requires Conserved(s) && Known(s) && Enabled(s, e) && p in s.blocked && p in s.programs
    requires p in Step(cfg, s, e).blocked
    ensures p in Step(cfg, s, e).programs && Step(cfg, s, e).programs[p] == s.programs[p]
  {
    hide Conserved, Known, OnCpu, Step, Struck, Released, SpotOf, FirstWhere;
    NotRunning(s, e, p);
    StepConserves(cfg, s, e);
    StepFollows(cfg, s, e, p);
    AtItsSpot(s, p, InBlocked);
    AtItsSpot(Step(cfg, s, e), p, InBlocked);
    RecordOf(s, p);
    RecordOf(Step(cfg, s, e), p);
  }

  lemma NotRunning(s: Kernel, e: Event, p: Pid)
    requires Conserved(s) && Enabled(s, e) && p in s.blocked
    ensures p !in Blocks(s, e) && !OfItsCpu(s, e, p)
  {
    if (e.StillBurst? || e.EndBurst? || e.Wait? || e.Signal? || e.CpuLost?) && BusyCpu(s, e.cpu) {
      OnlyOnCpu(s, e.cpu);
    }
    hide Conserved, OnCpu;
  }

  /** The program is in Blocked all through the run. */
  ghost predicate StaysBlocked(cfg: Config, s: Kernel, es: seq<Event>, p: Pid)
    decreases |es|
  {
    p in s.blocked && (es == [] || (Known(s) && Enabled(s, es[0]) && StaysBlocked(cfg, Step(cfg, s, es[0]), es[1..], p)))
  }

  /** While a waiter is blocked, over any run, no signal of its semaphore goes to a program
      that was not blocked before it. */
  lemma {:induction false} SignalsInOrder(cfg: Config, s: Kernel, es: seq<Event>, p: Pid, r: Pid)
    requires Inv(s) && Run(cfg, s, es).Some? && StaysBlocked(cfg, s, es, p) && Ahead(s.blocked, p, r) && p != r
    ensures p in s.programs && s.programs[p].waiting
    ensures Released(Run(cfg, s, es).value, s.programs[p].waitingReason) != Some(r)
    decreases |es|
  {
    hide Conserved, Known, OnCpu, Step, Ahead, WaitingOn, FirstWhere, WaitingAfter;
    ConservedIsKnown(s);
    BlockedWaits(s, p);
    if es == [] {
      NotFirst(s.blocked, OnSemaphore(s, s.programs[p].waitingReason), p, r);
    } else {
      StepWaiting(cfg, s, es[0], "");
      StepKeepsAhead(cfg, s, es[0], p, r);
      StepKeepsReason(cfg, s, es[0], p);
      SignalsInOrder(cfg, Step(cfg, s, es[0]), es[1..], p, r);
    }
  }

  lemma BlockedWaits(s: Kernel, p: Pid)
    requires Flags(s) && p in s.blocked
    ensures p in s.programs && s.programs[p].waiting
  {
  }
}
