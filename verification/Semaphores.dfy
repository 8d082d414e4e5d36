/** Who waits on a semaphore, request by request, against the semaphore's value. */
module Semaphores {
  import opened Wrappers
  import opened Lists
  import opened Scheduler
  import opened SchedulerRuns

  /** The program is Blocked, or still on a CPU. */
  predicate Present(s: Kernel, p: Pid) {
    p in s.blocked || exists i :: 0 <= i < |s.cpus| && s.cpus[i].program == Some(p)
  }

  ghost predicate Waits(s: Kernel, p: Pid, sem: string) {
    p in s.programs && s.programs[p].waiting && s.programs[p].waitingReason == sem && Present(s, p)
  }

  /** The programs that wait on a semaphore. */
  ghost function WaitingOn(s: Kernel, sem: string): set<Pid> {
    set p: Pid | p in s.programs && Waits(s, p, sem)
  }

  /** How many waiters a semaphore's value stands for. */
  function Expected(value: int): nat {
    if value < 0 then -value else 0
  }

  /** Nobody waits for a semaphore without its value saying so. */
  ghost predicate SemaphoresOk(s: Kernel) {
    forall sem :: sem in s.semaphores ==> |WaitingOn(s, sem)| <= Expected(s.semaphores[sem])
  }

  /** Negative values count the waiters exactly. */
  ghost predicate SemaphoresExact(s: Kernel) {
    forall sem :: sem in s.semaphores ==> |WaitingOn(s, sem)| == Expected(s.semaphores[sem])
  }

  /** The invariant of the queues. */
  ghost predicate Inv(s: Kernel) {
    Conserved(s) && Flags(s)
  }

  lemma {:induction false} PresentOnCpu(cpus: seq<Cpu>, p: Pid)
    ensures p in OnCpu(cpus) <==> exists i :: 0 <= i < |cpus| && cpus[i].program == Some(p)
  {
    if cpus != [] {
      PresentOnCpu(cpus[1..], p);
      if i :| 0 <= i < |cpus| && cpus[i].program == Some(p) {
        assert i > 0 ==> cpus[1..][i - 1].program == Some(p);
      }
      if j :| 0 <= j < |cpus[1..]| && cpus[1..][j].program == Some(p) {
        assert cpus[j + 1].program == Some(p);
      }
    }
  }

  /** A program on a CPU is in no queue and on no other CPU. */
  lemma OnlyOnItsCpu(s: Kernel, i: nat)
    requires Conserved(s) && BusyCpu(s, i)
    ensures var p := Running(s, i);
            && Known(s) && p in s.programs
            && p !in s.newPrograms && p !in s.ready && p !in s.blocked && p !in s.finished
            && forall k :: 0 <= k < |s.cpus| && k != i ==> s.cpus[k].program != Some(p)
  {
    ConservedIsKnown(s);
    RunningKnown(s, i);
    TakeFromCpu(s, i);
    var p := Running(s, i);
    var s1 := s.(cpus := s.cpus[i := s.cpus[i].(program := None)]);
    hide Conserved, Detached, OnCpu;
    DetachedPlaces(s1, p);
    PresentOnCpu(s1.cpus, p);
    forall k | 0 <= k < |s.cpus| && k != i ensures s.cpus[k].program != Some(p) {
      assert s1.cpus[k] == s.cpus[k];
    }
  }

  /** A blocked program is blocked once, and nowhere else. */
  lemma OnlyBlocked(s: Kernel, b: nat)
    requires Conserved(s) && b < |s.blocked|
    ensures var p := s.blocked[b];
            && Known(s) && p in s.programs
            && p !in s.newPrograms && p !in s.ready && p !in RemoveAt(s.blocked, b)
            && forall k :: 0 <= k < |s.cpus| ==> s.cpus[k].program != Some(p)
  {
    ConservedIsKnown(s);
    TakeBlocked(s, b);
    hide Conserved, Detached, OnCpu, RemoveAt;
    DetachedPlaces(s.(blocked := RemoveAt(s.blocked, b)), s.blocked[b]);
    PresentOnCpu(s.cpus, s.blocked[b]);
  }

  // ----- who waits after each part of a request

  /** Who is present decides who waits, as far as the flags stay. */
  lemma SameWaiting(s: Kernel, s': Kernel, sem: string)
    requires SameFlags(s.programs, s'.programs)
    requires forall p: Pid :: p in s.programs && s.programs[p].waiting ==> (Present(s', p) <==> Present(s, p))
    ensures WaitingOn(s', sem) == WaitingOn(s, sem)
  {
    hide Present;
    forall p: Pid ensures p in WaitingOn(s', sem) <==> p in WaitingOn(s, sem) {
      assert p in s'.programs <==> p in s.programs;
    }
  }

  /** The planners do not change who waits. */
  lemma PlannedWaiting(s: Kernel, s': Kernel, sem: string)
    requires Planned(s, s')
    ensures WaitingOn(s', sem) == WaitingOn(s, sem)
  {
    forall p: Pid | p in s.programs && s.programs[p].waiting
      ensures Present(s', p) <==> Present(s, p)
    {
      if i :| 0 <= i < |s.cpus| && s.cpus[i].program == Some(p) {
        assert s'.cpus[i].program == Some(p);
      }
      if i :| 0 <= i < |s'.cpus| && s'.cpus[i].program == Some(p) {
        assert s.cpus[i].program == Some(p);
      }
    }
    SameWaiting(s, s', sem);
  }

  lemma ArrivedWaiting(s: Kernel, pid: Pid, socket: int, sem: string)
    requires Inv(s) && pid !in s.programs
    ensures Flags(Arrived(s, pid, socket)) && WaitingOn(Arrived(s, pid, socket), sem) == WaitingOn(s, sem)
  {
    ConservedIsKnown(s);
    hide Conserved, OnCpu;
    var s' := Arrived(s, pid, socket);
    forall p: Pid ensures p in WaitingOn(s', sem) <==> p in WaitingOn(s, sem) {
      assert Present(s', p) <==> Present(s, p);
    }
  }

  lemma NewCpuWaiting(s: Kernel, socket: int, sem: string)
    requires Inv(s)
    ensures Flags(s.(cpus := s.cpus + [Cpu(socket, None)]))
    ensures WaitingOn(s.(cpus := s.cpus + [Cpu(socket, None)]), sem) == WaitingOn(s, sem)
  {
    hide Conserved;
    var s' := s.(cpus := s.cpus + [Cpu(socket, None)]);
    forall p: Pid ensures Present(s', p) <==> Present(s, p) {
      if i :| 0 <= i < |s.cpus| && s.cpus[i].program == Some(p) {
        assert s'.cpus[i].program == Some(p);
      }
    }
    SameWaiting(s, s', sem);
  }

  /** The end of a burst: a terminated program waits no longer, any other keeps waiting. */
  lemma EndedWaiting(s: Kernel, i: nat, terminated: bool, sem: string)
    requires Inv(s) && BusyCpu(s, i) && Running(s, i) in s.programs
    ensures Flags(Ended(s, i, terminated))
    ensures WaitingOn(Ended(s, i, terminated), sem) == WaitingOn(s, sem) - (if terminated then {Running(s, i)} else {})
  {
    OnlyOnItsCpu(s, i);
    hide Conserved, OnCpu, Known;
    var s', p := Ended(s, i, terminated), Running(s, i);
    forall q: Pid | q != p ensures Present(s', q) <==> Present(s, q) {
      if k :| 0 <= k < |s.cpus| && s.cpus[k].program == Some(q) {
        assert s'.cpus[k].program == Some(q);
      }
      if k :| 0 <= k < |s'.cpus| && s'.cpus[k].program == Some(q) {
        assert s.cpus[k].program == Some(q);
      }
    }
    assert Present(s, p);
    assert Present(s', p) <==> !terminated && s.programs[p].waiting;
    hide Present;
  }

  /** `handle_cpu_wait` */
  lemma WaitedWaiting(s: Kernel, i: nat, b: string, sem: string)
    requires Inv(s) && BusyCpu(s, i) && Running(s, i) in s.programs
    ensures Flags(Waited(s, i, b))
    ensures WaitingOn(Waited(s, i, b), sem) ==
            if b !in s.semaphores || s.semaphores[b] > 0 then WaitingOn(s, sem)
            else if b == sem then WaitingOn(s, sem) + {Running(s, i)}
            else WaitingOn(s, sem) - {Running(s, i)}
  {
    OnlyOnItsCpu(s, i);
    hide Conserved, OnCpu, Known;
    var s', p := Waited(s, i, b), Running(s, i);
    assert s'.cpus == s.cpus && s'.blocked == s.blocked;
    assert Present(s, p);
    assert forall q: Pid :: Present(s', q) <==> Present(s, q);
    hide Present;
  }

  /** The program `program_unblock` lets go: the first blocked waiter, or else the first
      one still on a CPU. */
  ghost function Released(s: Kernel, sem: string): Option<Pid> {
    var i := FirstWhere(s.blocked, OnSemaphore(s, sem));
    var c := FirstWhere(s.cpus, CpuOnSemaphore(s, sem));
    if i < |s.blocked| then Some(s.blocked[i])
    else if c < |s.cpus| then s.cpus[c].program
    else None
  }

  /** Somebody is released whenever somebody waits. */
  lemma ReleasedWaits(s: Kernel, sem: string)
    ensures Released(s, sem).Some? <==> WaitingOn(s, sem) != {}
    ensures Released(s, sem).Some? ==> Released(s, sem).value in WaitingOn(s, sem)
  {
    var i := FirstWhere(s.blocked, OnSemaphore(s, sem));
    var c := FirstWhere(s.cpus, CpuOnSemaphore(s, sem));
    if i < |s.blocked| {
      assert Waits(s, s.blocked[i], sem);
      assert s.blocked[i] in WaitingOn(s, sem);
    } else if c < |s.cpus| {
      assert s.cpus[c].program == Some(s.cpus[c].program.value);
      assert Waits(s, s.cpus[c].program.value, sem);
      assert s.cpus[c].program.value in WaitingOn(s, sem);
    } else {
      assert WaitingOn(s, sem) == {} by {
        if p :| p in WaitingOn(s, sem) {
          NobodyFound(s, p, sem);
        }
      }
    }
  }

  /** A waiter is found among the blocked programs or on the CPUs. */
  lemma NobodyFound(s: Kernel, p: Pid, sem: string)
    requires Waits(s, p, sem)
    ensures FirstWhere(s.blocked, OnSemaphore(s, sem)) < |s.blocked| ||
            FirstWhere(s.cpus, CpuOnSemaphore(s, sem)) < |s.cpus|
  {
    assert OnSemaphore(s, sem)(p);
    if p in s.blocked {
      var k :| 0 <= k < |s.blocked| && s.blocked[k] == p;
      assert OnSemaphore(s, sem)(s.blocked[k]);
    } else {
      var k :| 0 <= k < |s.cpus| && s.cpus[k].program == Some(p);
      assert CpuOnSemaphore(s, sem)(s.cpus[k]);
    }
  }

  lemma UnblockWaiting(cfg: Config, s: Kernel, b: string, sem: string)
    requires Inv(s) && Known(s)
    ensures Flags(Unblock(cfg, s, b)) && Unblock(cfg, s, b).semaphores == s.semaphores
    ensures WaitingOn(Unblock(cfg, s, b), sem) ==
            if b == sem && Released(s, b).Some? then WaitingOn(s, sem) - {Released(s, b).value} else WaitingOn(s, sem)
  {
    hide Conserved, Flags;
    var i := FirstWhere(s.blocked, OnSemaphore(s, b));
    if i < |s.blocked| {
      UnblockBlocked(cfg, s, b, i, sem);
    } else {
      var c := FirstWhere(s.cpus, CpuOnSemaphore(s, b));
      if c < |s.cpus| {
        UnblockOnCpu(s, c, b, sem);
      }
    }
  }

  lemma UnblockOnCpu(s: Kernel, c: nat, b: string, sem: string)
    requires Inv(s) && BusyCpu(s, c) && OnSemaphore(s, b)(Running(s, c)) && Running(s, c) in s.programs
    ensures Flags(Release(s, Running(s, c)))
    ensures WaitingOn(Release(s, Running(s, c)), sem) == WaitingOn(s, sem) - (if b == sem then {Running(s, c)} else {})
  {
    OnlyOnItsCpu(s, c);
    hide Conserved, OnCpu, Known;
    var s', p := Release(s, Running(s, c)), Running(s, c);
    assert s'.cpus == s.cpus && s'.blocked == s.blocked;
    assert forall q: Pid :: Present(s', q) <==> Present(s, q);
    hide Present;
  }

  lemma WokenWaiting(s: Kernel, i: nat, b: string, sem: string)
    requires Inv(s) && i < |s.blocked| && s.blocked[i] in s.programs && OnSemaphore(s, b)(s.blocked[i])
    ensures Known(Woken(s, i)) && Flags(Woken(s, i))
    ensures WaitingOn(Woken(s, i), sem) == WaitingOn(s, sem) - (if b == sem then {s.blocked[i]} else {})
  {
    hide Conserved, OnCpu, RemoveAt;
    OnlyBlocked(s, i);
    InRemoved(s.blocked, i);
    var s', p := Woken(s, i), s.blocked[i];
    assert s'.cpus == s.cpus && s'.blocked == RemoveAt(s.blocked, i);
    assert forall q: Pid :: q != p ==> (Present(s', q) <==> Present(s, q));
    assert !Present(s', p);
    assert WaitingOn(s', sem) == WaitingOn(s, sem) - (if b == sem then {p} else {}) by {
      hide Present, Flags, Known;
    }
  }

  lemma UnblockBlocked(cfg: Config, s: Kernel, b: string, i: nat, sem: string)
    requires Inv(s) && Known(s) && i < |s.blocked| && i == FirstWhere(s.blocked, OnSemaphore(s, b))
    ensures var s' := Unblock(cfg, s, b);
            && Flags(s') && s'.semaphores == s.semaphores
            && WaitingOn(s', sem) == WaitingOn(s, sem) - (if b == sem then {s.blocked[i]} else {})
  {
    WokenWaiting(s, i, b, sem);
    hide Conserved, OnCpu, Known, Flags, RemoveAt, WaitingOn, PlanIdle;
    var s2 := Woken(s, i);
    PlanIdlePlans(cfg, s2, 0);
    PlannedWaiting(s2, PlanIdle(cfg, s2, 0), sem);
  }

  lemma InRemoved(q: seq<Pid>, i: nat)
    requires i < |q|
    ensures forall x :: x in RemoveAt(q, i) ==> x in q
    ensures forall x :: x in q && x != q[i] ==> x in RemoveAt(q, i)
  {
    forall x | x in q && x != q[i] ensures x in RemoveAt(q, i) {
      var k :| 0 <= k < |q| && q[k] == x;
      assert x == RemoveAt(q, i)[if k < i then k else k - 1];
    }
  }

  /** Loss of a CPU: its program no longer waits. */
  lemma LostWaiting(s: Kernel, i: nat, sem: string)
    requires Inv(s) && Known(s) && i < |s.cpus|
    ensures Flags(Lost(s, i))
    ensures WaitingOn(Lost(s, i), sem) == WaitingOn(s, sem) - (if BusyCpu(s, i) then {Running(s, i)} else {})
  {
    hide Conserved, OnCpu;
    if BusyCpu(s, i) { OnlyOnItsCpu(s, i); }
    var s' := Lost(s, i);
    forall q: Pid | s.cpus[i].program != Some(q) ensures Present(s', q) <==> Present(s, q) {
      CpuRemoved(s.cpus, i, q);
    }
    forall q: Pid | s.cpus[i].program == Some(q) ensures !Present(s', q) {
    }
    assert WaitingOn(s', sem) == WaitingOn(s, sem) - (if BusyCpu(s, i) then {Running(s, i)} else {}) by {
      hide Present, RemoveAt, Flags, Known;
    }
  }

  lemma CpuRemoved(cpus: seq<Cpu>, i: nat, q: Pid)
    requires i < |cpus| && cpus[i].program != Some(q)
    ensures (exists k :: 0 <= k < |RemoveAt(cpus, i)| && RemoveAt(cpus, i)[k].program == Some(q)) <==>
            (exists k :: 0 <= k < |cpus| && cpus[k].program == Some(q))
  {
    if k :| 0 <= k < |cpus| && cpus[k].program == Some(q) {
      assert RemoveAt(cpus, i)[if k < i then k else k - 1].program == Some(q);
    }
  }

  /** A change of interruption code, quantum or exit code changes nobody's waiting. */
  lemma UpdateWaiting(s: Kernel, p: Pid, program: Program, sem: string)
    requires p in s.programs && Flags(s)
    requires program.waiting == s.programs[p].waiting && program.waitingReason == s.programs[p].waitingReason
    requires program.socket == s.programs[p].socket
    ensures Flags(Update(s, p, program)) && WaitingOn(Update(s, p, program), sem) == WaitingOn(s, sem)
  {
    var s' := Update(s, p, program);
    assert s'.cpus == s.cpus && s'.blocked == s.blocked;
    assert forall q: Pid :: Present(s', q) <==> Present(s, q);
    SameWaiting(s, s', sem);
  }

  /** The blocked program an interruption finishes. */
  ghost function Killed(s: Kernel, socket: int): Option<Pid> {
    var b := FirstWhere(s.blocked, HasSocket(s, socket));
    if (forall c :: c in s.cpus ==> !CpuHasSocket(s, socket)(c)) &&
       (forall n :: n in s.newPrograms ==> !HasSocket(s, socket)(n)) && b < |s.blocked|
    then Some(s.blocked[b])
    else None
  }

  lemma InterruptedWaiting(s: Kernel, socket: int, code: int, override: bool, sem: string)
    requires Inv(s) && Known(s)
    ensures var s' := Interrupted(s, socket, code, override);
            && Flags(s') && s'.semaphores == s.semaphores
            && WaitingOn(s', sem) == WaitingOn(s, sem) - (if Killed(s, socket).Some? then {Killed(s, socket).value} else {})
  {
    hide Conserved, OnCpu, Known, Flags, RemoveAt, WaitingOn, Present;
    var c := FirstWhere(s.cpus, CpuHasSocket(s, socket));
    var n := FirstWhere(s.newPrograms, HasSocket(s, socket));
    var b := FirstWhere(s.blocked, HasSocket(s, socket));
    var r := FirstWhere(s.ready, HasSocket(s, socket));
    if c < |s.cpus| {
      assert s.cpus[c] in s.cpus && CpuHasSocket(s, socket)(s.cpus[c]);
      UpdateWaiting(s, s.cpus[c].program.value, s.programs[s.cpus[c].program.value].(interruptionCode := code), sem);
    } else if n < |s.newPrograms| {
      assert s.newPrograms[n] in s.newPrograms;
      NewKilled(s, n, code, sem);
    } else if b < |s.blocked| {
      BlockedKilled(s, b, code, sem);
    } else if r < |s.ready| {
      ReadyKilled(s, r, code, sem);
    }
  }

  lemma NewKilled(s: Kernel, n: nat, code: int, sem: string)
    requires Inv(s) && n < |s.newPrograms| && s.newPrograms[n] in s.programs
    ensures var s' := FinishWith(s.(newPrograms := RemoveAt(s.newPrograms, n)), s.newPrograms[n], code);
            Flags(s') && WaitingOn(s', sem) == WaitingOn(s, sem)
  {
    hide Conserved, RemoveAt;
    InRemoved(s.newPrograms, n);
    assert s.newPrograms[n] !in WaitingOn(s, sem);
    FinishedWaiting(s, s.(newPrograms := RemoveAt(s.newPrograms, n)), s.newPrograms[n], code, sem);
  }

  lemma BlockedKilled(s: Kernel, b: nat, code: int, sem: string)
    requires Inv(s) && b < |s.blocked| && s.blocked[b] in s.programs
    ensures var s' := FinishWith(s.(blocked := RemoveAt(s.blocked, b)), s.blocked[b], code);
            Flags(s') && WaitingOn(s', sem) == WaitingOn(s, sem) - {s.blocked[b]}
  {
    hide Conserved, RemoveAt;
    OnlyBlocked(s, b);
    InRemoved(s.blocked, b);
    FinishedWaiting(s, s.(blocked := RemoveAt(s.blocked, b)), s.blocked[b], code, sem);
  }

  lemma ReadyKilled(s: Kernel, r: nat, code: int, sem: string)
    requires Inv(s) && r < |s.ready| && s.ready[r] in s.programs
    ensures var s' := FinishWith(s.(ready := RemoveAt(s.ready, r)), s.ready[r], code);
            Flags(s') && WaitingOn(s', sem) == WaitingOn(s, sem)
  {
    hide Conserved, RemoveAt;
    InRemoved(s.ready, r);
    assert s.ready[r] !in WaitingOn(s, sem);
    FinishedWaiting(s, s.(ready := RemoveAt(s.ready, r)), s.ready[r], code, sem);
  }

  /** A program taken from a queue and finished: only a waiting one changes who waits. */
  lemma FinishedWaiting(s: Kernel, s1: Kernel, p: Pid, code: int, sem: string)
    requires Flags(s) && p in s.programs && s1.programs == s.programs && s1.cpus == s.cpus
    requires forall q :: q in s1.newPrograms ==> q in s.newPrograms
    requires forall q :: q in s1.ready ==> q in s.ready
    requires forall q :: q in s1.blocked ==> q in s.blocked
    requires forall q :: q in s.blocked && q != p ==> q in s1.blocked
    requires s.programs[p].waiting ==> !Present(s1, p)
    ensures Flags(FinishWith(s1, p, code))
    ensures WaitingOn(FinishWith(s1, p, code), sem) == WaitingOn(s, sem) - {p}
  {
    var s' := FinishWith(s1, p, code);
    assert s'.cpus == s.cpus && s'.blocked == s1.blocked;
    assert forall q: Pid :: q != p ==> (Present(s', q) <==> Present(s, q));
    assert Present(s', p) <==> Present(s1, p);
    assert WaitingOn(s', sem) == WaitingOn(s, sem) - {p} by {
      hide Present, Flags;
    }
  }

  // ----- one request

  /** The program a request takes from the waiters without a signal: it ends, its CPU is
      lost, it is interrupted while blocked, or it waits once more. */
  ghost function Leaver(s: Kernel, e: Event): Option<Pid>
    requires Enabled(s, e)
  {
    match e
    case EndBurst(i, terminated) => if terminated then Some(Running(s, i)) else None
    case CpuLost(i) => s.cpus[i].program
    case Interrupt(socket, _, _) => Killed(s, socket)
    case Wait(i, sem) => if sem in s.semaphores && s.semaphores[sem] <= 0 then Some(Running(s, i)) else None
    case _ => None
  }

  ghost function Signalled(s: Kernel, e: Event, sem: string): Option<Pid> {
    if e.Signal? && e.sem == sem && sem in s.semaphores then Released(s, sem) else None
  }

  ghost function NewWaiter(s: Kernel, e: Event, sem: string): Option<Pid>
    requires Enabled(s, e)
  {
    if e.Wait? && e.sem == sem && sem in s.semaphores && s.semaphores[sem] <= 0 then Some(Running(s, e.cpu)) else None
  }

  function Members(p: Option<Pid>): set<Pid> {
    if p.Some? then {p.value} else {}
  }

  /** Who waits on `sem` after a request. */
  ghost function WaitingAfter(s: Kernel, e: Event, sem: string): set<Pid>
    requires Enabled(s, e)
  {
    WaitingOn(s, sem) - Members(Leaver(s, e)) - Members(Signalled(s, e, sem)) + Members(NewWaiter(s, e, sem))
  }

  /** The semaphore values after a request. */
  function ValuesAfter(s: Kernel, e: Event): map<string, int> {
    match e
    case Wait(_, sem) => if sem in s.semaphores then s.semaphores[sem := s.semaphores[sem] - 1] else s.semaphores
    case Signal(_, sem) => if sem in s.semaphores then s.semaphores[sem := s.semaphores[sem] + 1] else s.semaphores
    case _ => s.semaphores
  }

  ghost predicate AsStated(s: Kernel, e: Event, s': Kernel, sem: string)
    requires Enabled(s, e)
  {
    Flags(s') && s'.semaphores == ValuesAfter(s, e) && WaitingOn(s', sem) == WaitingAfter(s, e, sem)
  }

  lemma MinusOne(a: set<Pid>, p: Option<Pid>)
    ensures a - Members(p) - Members(None) + Members(None) == a - Members(p)
    ensures a - Members(None) - Members(p) + Members(None) == a - Members(p)
    ensures a - Members(None) == a
    ensures a - Members(p) - Members(None) + Members(p) == a + Members(p)
  {
  }

  /** A request whose only effect on the waiters is the program it takes away. */
  lemma LeaverOnly(s: Kernel, e: Event, s': Kernel, sem: string)
    requires Enabled(s, e) && !e.Wait? && (e.Signal? ==> e.sem !in s.semaphores)
    requires Flags(s') && s'.semaphores == s.semaphores
    requires WaitingOn(s', sem) == WaitingOn(s, sem) - Members(Leaver(s, e))
    ensures AsStated(s, e, s', sem)
  {
    hide Flags, WaitingOn, Members, Released;
    MinusOne(WaitingOn(s, sem), Leaver(s, e));
  }

  /** Every request changes the waiters and the values in just this way, and keeps the
      queues' flags and the conservation of programs. */
  lemma StepWaiting(cfg: Config, s: Kernel, e: Event, sem: string)
    requires Inv(s) && Known(s) && Enabled(s, e)
    ensures Inv(Step(cfg, s, e))
    ensures Step(cfg, s, e).semaphores == ValuesAfter(s, e)
    ensures WaitingOn(Step(cfg, s, e), sem) == WaitingAfter(s, e, sem)
  {
    StepConserves(cfg, s, e);
    assert AsStated(s, e, Step(cfg, s, e), sem) by {
      hide Conserved, Flags, OnCpu, Known, WaitingOn, Step, Present, AsStated;
      match e
      case NewProgram(pid, socket) => StepNewProgram(cfg, s, pid, socket, sem);
      case NewCpu(socket) => StepNewCpu(cfg, s, socket, sem);
      case StillBurst(i) => StepInPlace(cfg, s, e, sem);
      case EndBurst(i, terminated) => StepEndBurst(cfg, s, i, terminated, sem);
      case Wait(i, b) => StepWait(cfg, s, i, b, sem);
      case Signal(i, b) => if b in s.semaphores { StepSignal(cfg, s, i, b, sem); } else { StepInPlace(cfg, s, e, sem); }
      case Interrupt(socket, code, override) => StepInterrupt(cfg, s, socket, code, override, sem);
      case CpuLost(i) => StepLost(cfg, s, i, sem);
    }
    hide Conserved, Flags, OnCpu, Known, WaitingOn, Step, Present, WaitingAfter, ValuesAfter;
  }

  lemma StepNewProgram(cfg: Config, s: Kernel, pid: Pid, socket: int, sem: string)
    requires Inv(s) && Known(s) && pid !in s.programs
    ensures AsStated(s, NewProgram(pid, socket), Step(cfg, s, NewProgram(pid, socket)), sem)
  {
    hide Conserved, Flags, OnCpu, Known, WaitingOn, SameFlags, PlanIdle, Admit, AsStated;
    ArrivedWaiting(s, pid, socket, sem);
    ArrivedKnown(s, pid, socket);
    var s1 := Arrived(s, pid, socket);
    AdmitKnown(cfg, s1, |s1.ready| + |OnCpu(s1.cpus)|);
    AdmitPlans(cfg, s1, |s1.ready| + |OnCpu(s1.cpus)|);
    var s2 := LongTerm(cfg, s1);
    hide LongTerm, Arrived;
    PlanIdlePlans(cfg, s2, 0);
    PlannedTwice(s1, s2, PlanIdle(cfg, s2, 0));
    PlannedWaiting(s1, PlanIdle(cfg, s2, 0), sem);
    MinusOne(WaitingOn(s, sem), None);
    LeaverOnly(s, NewProgram(pid, socket), Step(cfg, s, NewProgram(pid, socket)), sem);
  }

  lemma StepNewCpu(cfg: Config, s: Kernel, socket: int, sem: string)
    requires Inv(s) && Known(s)
    ensures AsStated(s, NewCpu(socket), Step(cfg, s, NewCpu(socket)), sem)
  {
    hide Conserved, Flags, OnCpu, Known, WaitingOn, SameFlags, Plan, AsStated;
    NewCpuWaiting(s, socket, sem);
    NewCpuKnown(s, socket);
    var s1 := s.(cpus := s.cpus + [Cpu(socket, None)]);
    PlanPlans(cfg, s1, |s.cpus|);
    PlannedWaiting(s1, Plan(cfg, s1, |s.cpus|), sem);
    MinusOne(WaitingOn(s, sem), None);
    LeaverOnly(s, NewCpu(socket), Step(cfg, s, NewCpu(socket)), sem);
  }

  /** Requests that only touch the running program's record. */
  lemma StepInPlace(cfg: Config, s: Kernel, e: Event, sem: string)
    requires Inv(s) && Known(s) && Enabled(s, e)
    requires e.StillBurst? || (e.Signal? && e.sem !in s.semaphores)
    ensures AsStated(s, e, Step(cfg, s, e), sem)
  {
    hide Conserved, Flags, OnCpu, Known, WaitingOn, AsStated;
    RunningKnown(s, e.cpu);
    var p := Running(s, e.cpu);
    UpdateWaiting(s, p, Step(cfg, s, e).programs[p], sem);
    MinusOne(WaitingOn(s, sem), None);
    LeaverOnly(s, e, Step(cfg, s, e), sem);
  }

  lemma StepEndBurst(cfg: Config, s: Kernel, i: nat, terminated: bool, sem: string)
    requires Inv(s) && Known(s) && BusyCpu(s, i)
    ensures AsStated(s, EndBurst(i, terminated), Step(cfg, s, EndBurst(i, terminated)), sem)
  {
    hide Conserved, Flags, OnCpu, Known, WaitingOn, SameFlags, Plan, AsStated;
    RunningKnown(s, i);
    EndedWaiting(s, i, terminated, sem);
    EndedKnown(s, i, terminated);
    var s1 := Ended(s, i, terminated);
    assert s1.cpus[i].program.None? && s1.semaphores == s.semaphores;
    PlanPlans(cfg, s1, i);
    PlannedWaiting(s1, Plan(cfg, s1, i), sem);
    LeaverOnly(s, EndBurst(i, terminated), Step(cfg, s, EndBurst(i, terminated)), sem);
  }

  lemma StepWait(cfg: Config, s: Kernel, i: nat, b: string, sem: string)
    requires Inv(s) && Known(s) && BusyCpu(s, i)
    ensures AsStated(s, Wait(i, b), Step(cfg, s, Wait(i, b)), sem)
  {
    hide Conserved, Flags, OnCpu, Known, WaitingOn;
    RunningKnown(s, i);
    WaitedWaiting(s, i, b, sem);
    MinusOne(WaitingOn(s, sem), Some(Running(s, i)));
  }

  lemma StepSignal(cfg: Config, s: Kernel, i: nat, b: string, sem: string)
    requires Inv(s) && Known(s) && BusyCpu(s, i) && b in s.semaphores
    ensures AsStated(s, Signal(i, b), Step(cfg, s, Signal(i, b)), sem)
  {
    hide Conserved, Flags, OnCpu, Known, WaitingOn, Unblock, Released, Present;
    var s1 := s.(semaphores := s.semaphores[b := s.semaphores[b] + 1]);
    SemaphoresOnly(s, s1, b);
    SemaphoresOnly(s, s1, sem);
    ConservedIsKnown(s1);
    UnblockWaiting(cfg, s1, b, sem);
    MinusOne(WaitingOn(s, sem), Signalled(s, Signal(i, b), sem));
  }

  /** Nothing but the values depends on the values. */
  lemma SemaphoresOnly(s: Kernel, s1: Kernel, sem: string)
    requires Inv(s) && s1 == s.(semaphores := s1.semaphores)
    ensures Inv(s1) && WaitingOn(s1, sem) == WaitingOn(s, sem) && Released(s1, sem) == Released(s, sem)
  {
    SameKeysConserved(s, s1);
    hide Conserved;
    assert forall p: Pid :: Present(s1, p) <==> Present(s, p);
    SameWaiting(s, s1, sem);
    assert OnSemaphore(s1, sem) == OnSemaphore(s, sem);
    assert CpuOnSemaphore(s1, sem) == CpuOnSemaphore(s, sem);
  }

  lemma StepInterrupt(cfg: Config, s: Kernel, socket: int, code: int, override: bool, sem: string)
    requires Inv(s) && Known(s)
    ensures AsStated(s, Interrupt(socket, code, override), Step(cfg, s, Interrupt(socket, code, override)), sem)
  {
    hide Conserved, Flags, OnCpu, Known, WaitingOn, Interrupted, Killed, AsStated;
    InterruptedWaiting(s, socket, code, override, sem);
    LeaverOnly(s, Interrupt(socket, code, override), Step(cfg, s, Interrupt(socket, code, override)), sem);
  }

  lemma StepLost(cfg: Config, s: Kernel, i: nat, sem: string)
    requires Inv(s) && Known(s) && i < |s.cpus|
    ensures AsStated(s, CpuLost(i), Step(cfg, s, CpuLost(i)), sem)
  {
    hide Conserved, Flags, OnCpu, Known, WaitingOn, AsStated;
    LostWaiting(s, i, sem);
    LeaverOnly(s, CpuLost(i), Step(cfg, s, CpuLost(i)), sem);
  }

  lemma CardinalityMinus(a: set<Pid>, p: Option<Pid>)
    ensures |a - Members(p)| == if p.Some? && p.value in a then |a| - 1 else |a|
  {
    if p.Some? && p.value in a {
    } else {
      assert a - Members(p) == a;
    }
  }

  lemma CardinalityPlus(a: set<Pid>, p: Option<Pid>)
    ensures |a + Members(p)| == if p.None? || p.value in a then |a| else |a| + 1
  {
    if p.None? || p.value in a {
      assert a + Members(p) == a;
    }
  }

  /** The request takes a waiter away without a signal. */
  ghost predicate LosesWaiter(s: Kernel, e: Event)
    requires Enabled(s, e)
  {
    exists sem :: sem in s.semaphores && LosesWaiterOf(s, e, sem)
  }

  ghost predicate LosesWaiterOf(s: Kernel, e: Event, sem: string)
    requires Enabled(s, e)
  {
    var p := Leaver(s, e);
    p.Some? && p.value in WaitingOn(s, sem)
  }

  /** The number of waiters after a request. */
  lemma WaitersCounted(s: Kernel, e: Event, sem: string)
    requires Enabled(s, e) && sem in s.semaphores
    ensures |WaitingAfter(s, e, sem)| == |WaitingOn(s, sem)|
            - (if LosesWaiterOf(s, e, sem) then 1 else 0)
            - (if e.Signal? && e.sem == sem && WaitingOn(s, sem) != {} then 1 else 0)
            + (if e.Wait? && e.sem == sem && s.semaphores[sem] <= 0 then 1 else 0)
  {
    ReleasedWaits(s, sem);
    assert e.Signal? ==> Leaver(s, e).None?;
    assert NewWaiter(s, e, sem).Some? ==> Leaver(s, e) == NewWaiter(s, e, sem);
    hide WaitingOn, Released, Leaver, Members;
    CountChange(WaitingOn(s, sem), Leaver(s, e), Signalled(s, e, sem), NewWaiter(s, e, sem));
  }

  lemma CountChange(w: set<Pid>, a: Option<Pid>, b: Option<Pid>, c: Option<Pid>)
    requires a.None? || b.None?
    requires c.Some? ==> a == c
    ensures |w - Members(a) - Members(b) + Members(c)| ==
            |w| - (if a.Some? && a.value in w then 1 else 0) - (if b.Some? && b.value in w then 1 else 0) + (if c.Some? then 1 else 0)
  {
    CardinalityMinus(w, a);
    CardinalityMinus(w - Members(a), b);
    CardinalityPlus(w - Members(a) - Members(b), c);
  }

  /** No semaphore gets more waiters than its value stands for, whatever is lost. */
  lemma StepKeepsSemaphores(cfg: Config, s: Kernel, e: Event)
    requires Inv(s) && Known(s) && Enabled(s, e) && SemaphoresOk(s)
    ensures Inv(Step(cfg, s, e)) && SemaphoresOk(Step(cfg, s, e))
  {
    hide Step, WaitingOn, WaitingAfter, LosesWaiterOf, Inv, Known, Enabled;
    StepWaiting(cfg, s, e, "");
    forall sem | sem in Step(cfg, s, e).semaphores
      ensures |WaitingOn(Step(cfg, s, e), sem)| <= Expected(Step(cfg, s, e).semaphores[sem])
    {
      StepWaiting(cfg, s, e, sem);
      WaitersCounted(s, e, sem);
    }
  }

  /** A negative value goes on counting the waiters exactly if and only if the request
      loses none. */
  lemma StepKeepsExactness(cfg: Config, s: Kernel, e: Event)
    requires Inv(s) && Known(s) && Enabled(s, e) && SemaphoresExact(s)
    ensures SemaphoresExact(Step(cfg, s, e)) <==> !LosesWaiter(s, e)
  {
    hide Step, WaitingOn, WaitingAfter, LosesWaiterOf, Inv, Known, Enabled;
    StepWaiting(cfg, s, e, "");
    forall sem | sem in s.semaphores
      ensures |WaitingOn(Step(cfg, s, e), sem)| == Expected(Step(cfg, s, e).semaphores[sem]) <==> !LosesWaiterOf(s, e, sem)
    {
      StepWaiting(cfg, s, e, sem);
      WaitersCounted(s, e, sem);
    }
    assert Step(cfg, s, e).semaphores.Keys == s.semaphores.Keys;
  }
}
