/** New and Ready are served in the order of arrival; only an interruption takes a program
    out of the middle. */
module QueueOrder {
  import opened Wrappers
  import opened Lists
  import opened Scheduler
  import opened SchedulerRuns
  import opened Semaphores
  import opened KernelRuns

  /** `q'` is `q` after some arrivals at its end and some departures from its front. */
  ghost predicate Advanced(q: seq<Pid>, q': seq<Pid>) {
    exists more: seq<Pid>, k: nat :: k <= |q + more| && q' == (q + more)[k..]
  }

  lemma Arrives(q: seq<Pid>, more: seq<Pid>)
    ensures Advanced(q, q + more)
  {
    assert q + more == (q + more)[0..];
  }

  lemma Departs(q: seq<Pid>, k: nat)
    requires k <= |q|
    ensures Advanced(q, q[k..])
  {
    assert q[k..] == (q + [])[k..];
  }

  lemma AdvancedTwice(a: seq<Pid>, b: seq<Pid>, c: seq<Pid>)
    requires Advanced(a, b) && Advanced(b, c)
    ensures Advanced(a, c)
  {
    var m: seq<Pid>, i: nat :| i <= |a + m| && b == (a + m)[i..];
    var n: seq<Pid>, j: nat :| j <= |b + n| && c == (b + n)[j..];
    Join(a, m, i, n);
    DropTwice(a + (m + n), i, j);
    assert c == (a + (m + n))[i + j..];
  }

  lemma Join(a: seq<Pid>, m: seq<Pid>, i: nat, n: seq<Pid>)
    requires i <= |a + m|
    ensures (a + m)[i..] + n == (a + (m + n))[i..]
  {
  }

  lemma DropTwice(q: seq<Pid>, i: nat, j: nat)
    requires i + j <= |q|
    ensures q[i..][j..] == q[i + j..]
  {
  }

  ghost predicate InOrder(s: Kernel, s': Kernel) {
    Advanced(s.newPrograms, s'.newPrograms) && Advanced(s.ready, s'.ready)
  }

  lemma SameQueues(s: Kernel, s': Kernel)
    requires s'.newPrograms == s.newPrograms && s'.ready == s.ready
    ensures InOrder(s, s')
  {
    Arrives(s.newPrograms, []);
    Arrives(s.ready, []);
    assert s.newPrograms + [] == s.newPrograms && s.ready + [] == s.ready;
  }

  lemma InOrderTwice(a: Kernel, b: Kernel, c: Kernel)
    requires InOrder(a, b) && InOrder(b, c)
    ensures InOrder(a, c)
  {
    AdvancedTwice(a.newPrograms, b.newPrograms, c.newPrograms);
    AdvancedTwice(a.ready, b.ready, c.ready);
  }

  lemma {:induction false} AdmitInOrder(cfg: Config, s: Kernel, running: int)
    requires Known(s)
    ensures InOrder(s, Admit(cfg, s, running))
    decreases |s.newPrograms|
  {
    hide InOrder;
    if running < cfg.degree && s.newPrograms != [] {
      var p := s.newPrograms[0];
      var s1 := s.(newPrograms := s.newPrograms[1..]);
      if cfg.admission(p) != 0 {
        HeadGone(s, FinishWith(s1, p, cfg.admission(p)), []);
        AdmitInOrder(cfg, FinishWith(s1, p, cfg.admission(p)), running);
        InOrderTwice(s, FinishWith(s1, p, cfg.admission(p)), Admit(cfg, s, running));
      } else {
        var s2 := s1.(ready := s1.ready + [p]);
        HeadGone(s, s2, [p]);
        AdmitInOrder(cfg, s2, running + 1);
        InOrderTwice(s, s2, Admit(cfg, s, running));
      }
    } else {
      SameQueues(s, s);
    }
  }

  lemma HeadGone(s: Kernel, s': Kernel, more: seq<Pid>)
    requires s.newPrograms != [] && s'.newPrograms == s.newPrograms[1..] && s'.ready == s.ready + more
    ensures InOrder(s, s')
  {
    Departs(s.newPrograms, 1);
    Arrives(s.ready, more);
  }

  lemma PlanInOrder(cfg: Config, s: Kernel, i: nat)
    requires i < |s.cpus| && Known(s)
    ensures InOrder(s, Plan(cfg, s, i))
  {
    hide Admit, InOrder, OnCpu;
    AdmitKnown(cfg, s, |s.ready| + |OnCpu(s.cpus)|);
    AdmitInOrder(cfg, s, |s.ready| + |OnCpu(s.cpus)|);
    var s1 := LongTerm(cfg, s);
    DispatchInOrder(cfg, s1, i);
    InOrderTwice(s, s1, Plan(cfg, s, i));
  }

  lemma DispatchInOrder(cfg: Config, s: Kernel, i: nat)
    requires i < |s.cpus| && Known(s)
    ensures InOrder(s, Dispatch(cfg, s, i))
  {
    Arrives(s.newPrograms, []);
    assert s.newPrograms + [] == s.newPrograms;
    Departs(s.ready, if s.ready == [] then 0 else 1);
  }

  lemma {:induction false} PlanIdleInOrder(cfg: Config, s: Kernel, i: nat)
    requires i <= |s.cpus| && Known(s)
    ensures InOrder(s, PlanIdle(cfg, s, i))
    decreases |s.cpus| - i
  {
    hide Plan, InOrder, Known, OnCpu;
    if i == |s.cpus| {
      SameQueues(s, s);
    } else if s.cpus[i].program.None? {
      PlanKnown(cfg, s, i);
      PlanInOrder(cfg, s, i);
      PlanIdleInOrder(cfg, Plan(cfg, s, i), i + 1);
      InOrderTwice(s, Plan(cfg, s, i), PlanIdle(cfg, s, i));
    } else {
      PlanIdleInOrder(cfg, s, i + 1);
    }
  }

  lemma Appended(s: Kernel, s': Kernel, arrived: seq<Pid>, readied: seq<Pid>)
    requires s'.newPrograms == s.newPrograms + arrived && s'.ready == s.ready + readied
    ensures InOrder(s, s')
  {
    Arrives(s.newPrograms, arrived);
    Arrives(s.ready, readied);
  }

  lemma PlainStepInOrder(cfg: Config, s: Kernel, e: Event)
    requires Known(s) && Enabled(s, e) && !e.Interrupt?
    ensures InOrder(s, Step(cfg, s, e))
  {
    hide InOrder, Plan, PlanIdle, Admit, Known, OnCpu, Unblock, Lost, Ended;
    match e
    case NewProgram(pid, socket) =>
      var s1 := Arrived(s, pid, socket);
      ArrivedKnown(s, pid, socket);
      AdmitKnown(cfg, s1, |s1.ready| + |OnCpu(s1.cpus)|);
      AdmitInOrder(cfg, s1, |s1.ready| + |OnCpu(s1.cpus)|);
      Appended(s, s1, [pid], []);
      InOrderTwice(s, s1, LongTerm(cfg, s1));
      PlanIdleInOrder(cfg, LongTerm(cfg, s1), 0);
      InOrderTwice(s, LongTerm(cfg, s1), Step(cfg, s, e));
    case NewCpu(socket) =>
      var s1 := s.(cpus := s.cpus + [Cpu(socket, None)]);
      NewCpuKnown(s, socket);
      SameQueues(s, s1);
      PlanInOrder(cfg, s1, |s.cpus|);
      InOrderTwice(s, s1, Step(cfg, s, e));
    case EndBurst(i, terminated) =>
      EndedKnown(s, i, terminated);
      EndedInOrder(s, i, terminated);
      PlanInOrder(cfg, Ended(s, i, terminated), i);
      InOrderTwice(s, Ended(s, i, terminated), Step(cfg, s, e));
    case Signal(i, sem) =>
      if sem in s.semaphores {
        var s1 := s.(semaphores := s.semaphores[sem := s.semaphores[sem] + 1]);
        SemaphoreKnown(s, s1);
        SameQueues(s, s1);
        UnblockInOrder(cfg, s1, sem);
        InOrderTwice(s, s1, Step(cfg, s, e));
      } else {
        SameQueues(s, Step(cfg, s, e));
      }
    case CpuLost(i) => LostInOrder(s, i);
    case StillBurst(_) => SameQueues(s, Step(cfg, s, e));
    case Wait(_, _) => SameQueues(s, Step(cfg, s, e));
    case Interrupt(_, _, _) =>
  }

  lemma SemaphoreKnown(s: Kernel, s1: Kernel)
    requires Known(s) && s1 == s.(semaphores := s1.semaphores)
    ensures Known(s1)
  {
  }

  lemma LostInOrder(s: Kernel, i: nat)
    requires i < |s.cpus| && Known(s)
    ensures InOrder(s, Lost(s, i))
  {
    SameQueues(s, Lost(s, i));
  }

  lemma EndedInOrder(s: Kernel, i: nat, terminated: bool)
    requires BusyCpu(s, i) && Running(s, i) in s.programs
    ensures InOrder(s, Ended(s, i, terminated))
  {
    var s' := Ended(s, i, terminated);
    Appended(s, s', [], if terminated || s.programs[Running(s, i)].waiting then [] else [Running(s, i)]);
  }

  lemma UnblockInOrder(cfg: Config, s: Kernel, sem: string)
    requires Known(s)
    ensures InOrder(s, Unblock(cfg, s, sem))
  {
    hide InOrder, PlanIdle, OnCpu;
    var i := FirstWhere(s.blocked, OnSemaphore(s, sem));
    if i < |s.blocked| {
      var s1 := Woken(s, i);
      assert Known(s1);
      Appended(s, s1, [], [s.blocked[i]]);
      PlanIdleInOrder(cfg, s1, 0);
      InOrderTwice(s, s1, Unblock(cfg, s, sem));
    } else {
      SameQueues(s, Unblock(cfg, s, sem));
    }
  }

  // ----- interruptions, and whole runs

  /** The programs of `q` that are not in `finished`. */
  function Alive(q: seq<Pid>, finished: seq<Pid>): seq<Pid> {
    if q == [] then [] else (if q[0] in finished then [] else [q[0]]) + Alive(q[1..], finished)
  }

  lemma {:induction false} AliveJoin(a: seq<Pid>, b: seq<Pid>, finished: seq<Pid>)
    ensures Alive(a + b, finished) == Alive(a, finished) + Alive(b, finished)
  {
    if a == [] {
      assert a + b == b;
    } else {
      Behead(a, b);
      AliveJoin(a[1..], b, finished);
    }
  }

  lemma {:induction false} AllAlive(q: seq<Pid>, finished: seq<Pid>)
    requires forall p :: p in q ==> p !in finished
    ensures Alive(q, finished) == q
  {
    if q != [] {
      AllAlive(q[1..], finished);
    }
  }

  lemma AliveOne(p: Pid, finished: seq<Pid>)
    ensures Alive([p], finished) == if p in finished then [] else [p]
  {
    assert [p][1..] == [];
  }

  lemma {:induction false} AliveTwice(q: seq<Pid>, f: seq<Pid>, f': seq<Pid>)
    requires f <= f'
    ensures Alive(Alive(q, f), f') == Alive(q, f')
  {
    if q != [] {
      AliveTwice(q[1..], f, f');
      var head := if q[0] in f then [] else [q[0]];
      AliveJoin(head, Alive(q[1..], f), f');
      AliveOne(q[0], f');
    }
  }

  /** Leaving out the first of the living programs is leaving out a front of the queue. */
  lemma {:induction false} AliveFrom(q: seq<Pid>, f: seq<Pid>, j: nat) returns (k: nat)
    requires j <= |Alive(q, f)|
    ensures k <= |q| && Alive(q[k..], f) == Alive(q, f)[j..]
  {
    if j == 0 {
      k := 0;
      assert q[0..] == q && Alive(q, f)[0..] == Alive(q, f);
    } else if q[0] in f {
      k := AliveFrom(q[1..], f, j);
      k := k + 1;
      assert q[1..][k - 1..] == q[k..];
    } else {
      k := AliveFrom(q[1..], f, j - 1);
      k := k + 1;
      assert q[1..][k - 1..] == q[k..];
      assert Alive(q, f)[j..] == Alive(q[1..], f)[j - 1..];
    }
  }

  /** `q'` is `q` after arrivals at its end and departures from its front, and without
      programs that were finished on the way. */
  ghost predicate Served(q: seq<Pid>, q': seq<Pid>, finished: seq<Pid>) {
    exists more: seq<Pid>, k: nat :: k <= |q + more| && q' == Alive((q + more)[k..], finished)
  }

  lemma ServedTwice(a: seq<Pid>, b: seq<Pid>, c: seq<Pid>, f: seq<Pid>, f': seq<Pid>)
    requires Served(a, b, f) && Served(b, c, f') && f <= f'
    ensures Served(a, c, f')
  {
    hide Alive;
    var m: seq<Pid>, i: nat :| i <= |a + m| && b == Alive((a + m)[i..], f);
    var n: seq<Pid>, j: nat :| j <= |b + n| && c == Alive((b + n)[j..], f');
    Join(a, m, i, n);
    hide Served;
    var k := TwoFronts((a + m)[i..], b, f, f', n, j);
    DropTwice(a + (m + n), i, k);
    ServedBy(a, m + n, i + k, f');
  }

  lemma ServedBy(q: seq<Pid>, more: seq<Pid>, k: nat, finished: seq<Pid>)
    requires k <= |q + more|
    ensures Served(q, Alive((q + more)[k..], finished), finished)
  {
  }

  /** Leaving out a front of the living programs and the arrivals is leaving out a front of
      all of them. */
  lemma TwoFronts(x: seq<Pid>, b: seq<Pid>, f: seq<Pid>, f': seq<Pid>, n: seq<Pid>, j: nat) returns (k: nat)
    requires b == Alive(x, f) && f <= f' && j <= |b + n|
    ensures k <= |x + n| && Alive((b + n)[j..], f') == Alive((x + n)[k..], f')
  {
    hide Alive;
    if j <= |b| {
      k := AliveFrom(x, f, j);
      DropFront(b, n, j);
      DropFront(x, n, k);
      AliveJoin(b[j..], n, f');
      AliveTwice(x[k..], f, f');
      AliveJoin(x[k..], n, f');
    } else {
      k := |x| + (j - |b|);
      assert (b + n)[j..] == n[j - |b|..];
      assert (x + n)[k..] == n[j - |b|..];
    }
  }

  lemma DropFront(a: seq<Pid>, b: seq<Pid>, j: nat)
    requires j <= |a|
    ensures (a + b)[j..] == a[j..] + b
  {
  }

  ghost predicate ServedInOrder(s: Kernel, s': Kernel) {
    Served(s.newPrograms, s'.newPrograms, s'.finished) && Served(s.ready, s'.ready, s'.finished)
  }

  lemma QueuesAlive(s: Kernel)
    requires Conserved(s)
    ensures forall p :: p in s.newPrograms || p in s.ready ==> p !in s.finished
  {
    ConservedIsKnown(s);
    forall p | p in s.newPrograms || p in s.ready ensures p !in s.finished {
      Once(s, p);
    }
    hide Conserved, OnCpu;
  }

  lemma AdvancedIsServed(q: seq<Pid>, q': seq<Pid>, finished: seq<Pid>)
    requires Advanced(q, q') && forall p :: p in q' ==> p !in finished
    ensures Served(q, q', finished)
  {
    AllAlive(q', finished);
  }

  lemma RemovedIsServed(q: seq<Pid>, i: nat, finished: seq<Pid>)
    requires i < |q| && q[i] in finished && forall p :: p in RemoveAt(q, i) ==> p !in finished
    ensures Served(q, RemoveAt(q, i), finished)
  {
    hide Alive, Served;
    AliveRemoved(q[..i], q[i], q[i + 1..], finished);
    Around(q, i);
    ServedBy(q, [], 0, finished);
    assert q + [] == q && q[0..] == q;
  }

  lemma AliveRemoved(a: seq<Pid>, p: Pid, b: seq<Pid>, finished: seq<Pid>)
    requires p in finished && forall x :: x in a + b ==> x !in finished
    ensures Alive(a + [p] + b, finished) == a + b
  {
    hide Alive;
    AliveJoin(a + [p], b, finished);
    AliveJoin(a, [p], finished);
    AliveOne(p, finished);
    forall x | x in a || x in b ensures x !in finished {
      assert x in a + b;
    }
    AllAlive(a, finished);
    AllAlive(b, finished);
  }

  /** What an interruption does to one queue. */
  ghost predicate OneFinished(q: seq<Pid>, q': seq<Pid>, finished: seq<Pid>) {
    q' == q || exists i: nat :: i < |q| && q[i] in finished && q' == RemoveAt(q, i)
  }

  lemma OneFinishedIsServed(q: seq<Pid>, q': seq<Pid>, finished: seq<Pid>)
    requires OneFinished(q, q', finished) && forall p :: p in q' ==> p !in finished
    ensures Served(q, q', finished)
  {
    hide Served, Alive;
    if q' == q {
      Unmoved(q, finished);
    } else {
      var i: nat :| i < |q| && q[i] in finished && q' == RemoveAt(q, i);
      RemovedIsServed(q, i, finished);
    }
  }

  lemma InterruptedQueues(s: Kernel, socket: int, code: int, override: bool)
    requires Known(s)
    ensures var s' := Interrupted(s, socket, code, override);
            OneFinished(s.newPrograms, s'.newPrograms, s'.finished) && OneFinished(s.ready, s'.ready, s'.finished)
  {
    hide Known, FirstWhere, RemoveAt;
  }

  lemma InterruptedInOrder(s: Kernel, socket: int, code: int, override: bool)
    requires Known(s) && Conserved(Interrupted(s, socket, code, override))
    ensures ServedInOrder(s, Interrupted(s, socket, code, override))
  {
    InterruptedQueues(s, socket, code, override);
    QueuesAlive(Interrupted(s, socket, code, override));
    hide Conserved, Known, Interrupted, Served, OneFinished;
    var s' := Interrupted(s, socket, code, override);
    OneFinishedIsServed(s.newPrograms, s'.newPrograms, s'.finished);
    OneFinishedIsServed(s.ready, s'.ready, s'.finished);
  }

  lemma Unmoved(q: seq<Pid>, finished: seq<Pid>)
    requires forall p :: p in q ==> p !in finished
    ensures Served(q, q, finished)
  {
    Arrives(q, []);
    assert q + [] == q;
    AdvancedIsServed(q, q, finished);
  }

  /** In no request does anybody overtake in New or Ready: who leaves leaves from the front,
      who comes comes last, and only an interruption takes a program out in between, to
      finish it. */
  lemma StepInOrder(cfg: Config, s: Kernel, e: Event)
    requires Conserved(s) && Known(s) && Enabled(s, e)
    ensures ServedInOrder(s, Step(cfg, s, e))
    ensures !e.Interrupt? ==> InOrder(s, Step(cfg, s, e))
  {
    StepConserves(cfg, s, e);
    var s' := Step(cfg, s, e);
    if e.Interrupt? {
      hide Conserved, Known;
      InterruptedInOrder(s, e.socket, e.code, e.override);
    } else {
      QueuesAlive(s');
      PlainStepInOrder(cfg, s, e);
      hide Step, Conserved, Known, Advanced, Served;
      AdvancedIsServed(s.newPrograms, s'.newPrograms, s'.finished);
      AdvancedIsServed(s.ready, s'.ready, s'.finished);
    }
  }

  /** Nor over any run. */
  lemma {:induction false} RunInOrder(cfg: Config, s: Kernel, es: seq<Event>)
    requires Inv(s) && Run(cfg, s, es).Some?
    ensures ServedInOrder(s, Run(cfg, s, es).value)
    decreases |es|
  {
    if es == [] {
      QueuesAlive(s);
      Unmoved(s.newPrograms, s.finished);
      Unmoved(s.ready, s.finished);
    } else {
      var s1, r := Step(cfg, s, es[0]), Run(cfg, s, es).value;
      StepWaiting(cfg, s, es[0], "");
      StepInOrder(cfg, s, es[0]);
      hide Step, Conserved, Known, Served, WaitingOn, WaitingAfter, InOrder;
      RunInOrder(cfg, s1, es[1..]);
      RunFinishes(cfg, s1, es[1..]);
      ServedTwice(s.newPrograms, s1.newPrograms, r.newPrograms, s1.finished, r.finished);
      ServedTwice(s.ready, s1.ready, r.ready, s1.finished, r.finished);
    }
  }
}
