/** Where each program goes: its place in the Kernel and its record, request by request, and
    what its admission has to do with it (Kernel/src/planner/ltp.c, Kernel/src/functions/program.c,
    Kernel/src/threads/cpu/handler.c, Kernel/src/threads/cpu/select.c). */
module LifeCycle {
  import opened Wrappers
  import opened Lists
  import opened Scheduler
  import opened SchedulerRuns
  import opened Semaphores
  import opened KernelRuns

  datatype Place = InNew | InReady | InBlocked | InFinished | OnACpu

  /** Where a program is, and its record. */
  datatype Spot = Spot(place: Place, record: Program)

  ghost predicate At(s: Kernel, p: Pid, place: Place) {
    match place
    case InNew => p in s.newPrograms
    case InReady => p in s.ready
    case InBlocked => p in s.blocked
    case InFinished => p in s.finished
    case OnACpu => p in OnCpu(s.cpus)
  }

  ghost function SpotOf(s: Kernel, p: Pid): Spot
    requires p in s.programs
  {
    Spot(if p in s.newPrograms then InNew
         else if p in s.ready then InReady
         else if p in s.blocked then InBlocked
         else if p in s.finished then InFinished
         else OnACpu,
         s.programs[p])
  }

  /** A program is at its spot and at no other. */
  lemma AtItsSpot(s: Kernel, p: Pid, place: Place)
    requires Conserved(s) && p in s.programs
    ensures At(s, p, place) <==> SpotOf(s, p).place == place
  {
    OnePlace(s, p);
    hide OnCpu, Conserved;
  }

  /** In which queues a program is, as facts about membership. */
  ghost predicate InOnePlace(s: Kernel, p: Pid) {
    && (p in s.newPrograms || p in s.ready || p in s.blocked || p in s.finished || p in OnCpu(s.cpus))
    && (p in s.newPrograms ==> p !in s.ready && p !in s.blocked && p !in s.finished && p !in OnCpu(s.cpus))
    && (p in s.ready ==> p !in s.blocked && p !in s.finished && p !in OnCpu(s.cpus))
    && (p in s.blocked ==> p !in s.finished && p !in OnCpu(s.cpus))
    && (p in s.finished ==> p !in OnCpu(s.cpus))
  }

  lemma OnePlace(s: Kernel, p: Pid)
    requires Conserved(s) && p in s.programs
    ensures InOnePlace(s, p)
  {
    Once(s, p);
    hide OnCpu, Conserved;
  }

  /** A program is in its place once. */
  lemma InPlaceOnce(s: Kernel, p: Pid)
    requires Conserved(s) && p in s.programs
    ensures p in s.newPrograms ==> multiset(s.newPrograms)[p] == 1
    ensures p in s.ready ==> multiset(s.ready)[p] == 1
    ensures p in s.blocked ==> multiset(s.blocked)[p] == 1
    ensures p in OnCpu(s.cpus) ==> multiset(OnCpu(s.cpus))[p] == 1
  {
    Once(s, p);
    hide OnCpu, Conserved;
  }

  // ----- admission

  /** Admission takes a program out of New by its answer alone: to Ready as it is, if the
      answer is 0, and otherwise to Finished with the answer as exit code. */
  ghost predicate Admitted(cfg: Config, s: Kernel, s': Kernel, p: Pid)
    requires p in s.programs
  {
    && p in s'.programs
    && if p !in s.newPrograms then
         && p !in s'.newPrograms && s'.programs[p] == s.programs[p]
         && (p in s'.ready <==> p in s.ready) && (p in s'.finished <==> p in s.finished)
       else if p in s'.newPrograms then
         s'.programs[p] == s.programs[p] && p !in s'.ready && p !in s'.finished
       else if cfg.admission(p) == 0 then
         s'.programs[p] == s.programs[p] && p in s'.ready && p !in s'.finished
       else
         s'.programs[p] == s.programs[p].(exitCode := cfg.admission(p)) && p in s'.finished && p !in s'.ready
  }

  /** Admission does not touch what is not New, Ready or Finished. */
  ghost predicate SameAside(s: Kernel, s': Kernel) {
    && s'.programs.Keys == s.programs.Keys && s'.blocked == s.blocked
    && s'.cpus == s.cpus && s'.semaphores == s.semaphores
  }

  /** The program at the head of New. */
  lemma HeadAdmitted(cfg: Config, s: Kernel, s1: Kernel, p: Pid)
    requires Conserved(s) && s.newPrograms != [] && p in s.programs && s.newPrograms[0] in s.programs
    requires var head, taken := s.newPrograms[0], s.(newPrograms := s.newPrograms[1..]);
             s1 == if cfg.admission(head) != 0 then FinishWith(taken, head, cfg.admission(head))
                   else taken.(ready := taken.ready + [head])
    ensures Admitted(cfg, s, s1, p) && SameAside(s, s1)
  {
    HeadOnly(s.newPrograms, p);
    InPlaceOnce(s, p);
    OnePlace(s, p);
    OnePlace(s, s.newPrograms[0]);
    hide OnCpu, Conserved;
  }

  lemma HeadOnly(q: seq<Pid>, p: Pid)
    requires q != []
    ensures multiset(q)[p] == (if p == q[0] then 1 else 0) + multiset(q[1..])[p]
  {
    assert q == [q[0]] + q[1..];
  }

  lemma AdmittedTwice(cfg: Config, s: Kernel, s1: Kernel, s2: Kernel, p: Pid)
    requires p in s.programs && Admitted(cfg, s, s1, p) && Admitted(cfg, s1, s2, p)
    ensures Admitted(cfg, s, s2, p)
  {
  }

  /** Every program that leaves New with the answer 0 is in Ready as it was; every other one
      is in Finished, not in Ready, and its exit code is the answer. */
  lemma {:induction false} AdmitByAnswer(cfg: Config, s: Kernel, running: int, p: Pid)
    requires Conserved(s) && Known(s) && p in s.programs
    ensures Admitted(cfg, s, Admit(cfg, s, running), p) && SameAside(s, Admit(cfg, s, running))
    decreases |s.newPrograms|
  {
    if running < cfg.degree && s.newPrograms != [] {
      var head, taken := s.newPrograms[0], s.(newPrograms := s.newPrograms[1..]);
      var s1 := if cfg.admission(head) != 0 then FinishWith(taken, head, cfg.admission(head))
                else taken.(ready := taken.ready + [head]);
      HeadAdmitted(cfg, s, s1, p);
      HeadConserves(cfg, s);
      ConservedIsKnown(s1);
      hide Conserved, Known, Admitted, OnCpu;
      AdmitByAnswer(cfg, s1, if cfg.admission(head) != 0 then running else running + 1, p);
      AdmittedTwice(cfg, s, s1, Admit(cfg, s, running), p);
    } else {
      NobodyAdmitted(cfg, s, p);
    }
  }

  lemma LongTermByAnswer(cfg: Config, s: Kernel)
    requires Known(s)
    ensures Conserved(s) ==> AllAdmitted(cfg, s, LongTerm(cfg, s))
  {
    hide Conserved, Admitted, OnCpu, Known, Admit;
    KnownNew(s);
    if Conserved(s) {
      forall p | p in s.programs ensures Admitted(cfg, s, LongTerm(cfg, s), p) {
        AdmitByAnswer(cfg, s, |s.ready| + |OnCpu(s.cpus)|, p);
      }
    }
  }

  ghost predicate AllAdmitted(cfg: Config, s: Kernel, s': Kernel) {
    forall p :: p in s.programs ==> Admitted(cfg, s, s', p)
  }

  lemma NobodyAdmitted(cfg: Config, s: Kernel, p: Pid)
    requires Conserved(s) && p in s.programs
    ensures Admitted(cfg, s, s, p)
  {
    OnePlace(s, p);
    hide OnCpu, Conserved;
  }

  lemma HeadConserves(cfg: Config, s: Kernel)
    requires Conserved(s) && s.newPrograms != [] && s.newPrograms[0] in s.programs
    ensures var head, taken := s.newPrograms[0], s.(newPrograms := s.newPrograms[1..]);
            if cfg.admission(head) != 0 then Conserved(FinishWith(taken, head, cfg.admission(head)))
            else Conserved(taken.(ready := taken.ready + [head]))
  {
    var head, taken := s.newPrograms[0], s.(newPrograms := s.newPrograms[1..]);
    hide Conserved, Detached, OnCpu, FinishWith;
    HeadRemoved(s.newPrograms);
    TakeNew(s, 0);
    Queued(taken, head);
    FinishConserves(taken, head, cfg.admission(head));
  }

  // ----- planning

  /** How the planners move a program: from New to Ready or, refused, to Finished with the
      answer; from Ready to a CPU with its quantum; and no other way. */
  ghost predicate Onward(cfg: Config, p: Pid, a: Spot, b: Spot) {
    var onCpu := Spot(OnACpu, a.record.(quantum := QuantumFor(cfg, a.record.quantum)));
    match a.place
    case InNew =>
      || b == a
      || (cfg.admission(p) == 0 && (b == a.(place := InReady) || b == onCpu))
      || (cfg.admission(p) != 0 && b == Spot(InFinished, a.record.(exitCode := cfg.admission(p))))
    case InReady => b == a || b == onCpu
    case _ => b == a
  }

  ghost predicate Moves(cfg: Config, s: Kernel, s': Kernel, p: Pid) {
    && s'.programs.Keys == s.programs.Keys
    && (p in s.programs ==> Onward(cfg, p, SpotOf(s, p), SpotOf(s', p)))
  }

  lemma MovesTwice(cfg: Config, s: Kernel, s1: Kernel, s2: Kernel, p: Pid)
    requires Moves(cfg, s, s1, p) && Moves(cfg, s1, s2, p)
    ensures Moves(cfg, s, s2, p)
  {
    hide SpotOf;
    if p in s.programs {
      OnwardTwice(cfg, p, SpotOf(s, p), SpotOf(s1, p), SpotOf(s2, p));
    }
  }

  lemma OnwardTwice(cfg: Config, p: Pid, a: Spot, b: Spot, c: Spot)
    requires Onward(cfg, p, a, b) && Onward(cfg, p, b, c)
    ensures Onward(cfg, p, a, c)
  {
  }

  lemma AdmitMoves(cfg: Config, s: Kernel, running: int, p: Pid)
    requires Conserved(s) && Known(s)
    ensures Moves(cfg, s, Admit(cfg, s, running), p)
  {
    AdmitKeys(cfg, s, running);
    if p in s.programs {
      OnePlace(s, p);
      AdmitByAnswer(cfg, s, running, p);
      hide Conserved, Known, Admit;
      AdmittedMoves(cfg, s, Admit(cfg, s, running), p);
    }
  }

  lemma AdmittedMoves(cfg: Config, s: Kernel, s': Kernel, p: Pid)
    requires p in s.programs && InOnePlace(s, p) && Admitted(cfg, s, s', p) && SameAside(s, s')
    ensures Moves(cfg, s, s', p)
  {
    hide OnCpu;
  }

  lemma {:induction false} AdmitKeys(cfg: Config, s: Kernel, running: int)
    requires Known(s)
    ensures Admit(cfg, s, running).programs.Keys == s.programs.Keys
    decreases |s.newPrograms|
  {
    if running < cfg.degree && s.newPrograms != [] {
      var head, taken := s.newPrograms[0], s.(newPrograms := s.newPrograms[1..]);
      var s1 := if cfg.admission(head) != 0 then FinishWith(taken, head, cfg.admission(head))
                else taken.(ready := taken.ready + [head]);
      assert Known(s1);
      AdmitKeys(cfg, s1, if cfg.admission(head) != 0 then running else running + 1);
    }
  }

  lemma OnCpuTaken(cpus: seq<Cpu>, i: nat, next: Pid, p: Pid)
    requires i < |cpus| && cpus[i].program.None?
    ensures p in OnCpu(cpus[i := cpus[i].(program := Some(next))]) <==> p == next || p in OnCpu(cpus)
  {
    CpuContents(cpus, i, Some(next));
    var cpus' := cpus[i := cpus[i].(program := Some(next))];
    hide OnCpu, RemoveAt;
    assert multiset(OnCpu(cpus')) == multiset(OnCpu(cpus)) + multiset{next};
    InMultiset(OnCpu(cpus), p);
    InMultiset(OnCpu(cpus'), p);
  }

  lemma InMultiset(q: seq<Pid>, p: Pid)
    ensures p in q <==> p in multiset(q)
  {
  }

  lemma DispatchMovesOn(cfg: Config, s: Kernel, i: nat, p: Pid)
    requires Conserved(s) && Known(s) && i < |s.cpus| && s.cpus[i].program.None?
    ensures Moves(cfg, s, Dispatch(cfg, s, i), p)
  {
    KnownReady(s);
    if s.ready == [] {
      hide Conserved, Known, OnCpu;
      assert s.cpus[i := s.cpus[i].(program := None)] == s.cpus;
    } else if p in s.programs {
      HeadOnly(s.ready, p);
      InPlaceOnce(s, p);
      OnePlace(s, p);
      OnCpuTaken(s.cpus, i, s.ready[0], p);
      hide Conserved, Known, OnCpu;
      DispatchedMoves(cfg, s, i, p);
    } else {
      hide Conserved, Known, OnCpu;
    }
  }

  lemma DispatchedMoves(cfg: Config, s: Kernel, i: nat, p: Pid)
    requires p in s.programs && InOnePlace(s, p) && i < |s.cpus| && s.ready != []
    requires forall q :: q in s.ready ==> q in s.programs
    requires p in s.ready[1..] <==> p in s.ready && p != s.ready[0]
    requires p in OnCpu(Dispatch(cfg, s, i).cpus) <==> p == s.ready[0] || p in OnCpu(s.cpus)
    ensures Moves(cfg, s, Dispatch(cfg, s, i), p)
  {
    hide OnCpu;
  }

  lemma PlanMovesOn(cfg: Config, s: Kernel, i: nat, p: Pid)
    requires Conserved(s) && Known(s) && i < |s.cpus| && s.cpus[i].program.None?
    ensures Moves(cfg, s, Plan(cfg, s, i), p) && Conserved(Plan(cfg, s, i)) && Known(Plan(cfg, s, i))
  {
    hide Conserved, OnCpu, Moves, Known, Admit, Dispatch;
    KnownNew(s);
    LongTermMoves(cfg, s, p);
    AdmitKnown(cfg, s, |s.ready| + |OnCpu(s.cpus)|);
    DispatchMovesOn(cfg, LongTerm(cfg, s), i, p);
    MovesTwice(cfg, s, LongTerm(cfg, s), Plan(cfg, s, i), p);
    PlanConserves(cfg, s, i);
    PlanKnown(cfg, s, i);
  }

  lemma KnownNew(s: Kernel)
    requires Known(s)
    ensures forall p :: p in s.newPrograms ==> p in s.programs
  {
  }

  lemma NoMove(cfg: Config, s: Kernel, p: Pid)
    ensures Moves(cfg, s, s, p)
  {
    hide OnCpu;
  }

  lemma {:induction false} PlanIdleMovesOn(cfg: Config, s: Kernel, i: nat, p: Pid)
    requires Conserved(s) && Known(s) && i <= |s.cpus|
    ensures Moves(cfg, s, PlanIdle(cfg, s, i), p)
    decreases |s.cpus| - i
  {
    NoMove(cfg, s, p);
    hide Conserved, Plan, Known, OnCpu, Moves;
    if i < |s.cpus| {
      if s.cpus[i].program.None? {
        PlanKnown(cfg, s, i);
        PlanMovesOn(cfg, s, i, p);
        PlanIdleMovesOn(cfg, Plan(cfg, s, i), i + 1, p);
        MovesTwice(cfg, s, Plan(cfg, s, i), PlanIdle(cfg, s, i), p);
      } else {
        PlanIdleMovesOn(cfg, s, i + 1, p);
      }
    }
  }

  // ----- the requests

  /** The program whose socket an interruption finds first. */
  ghost function Struck(s: Kernel, socket: int): Option<Pid> {
    var c := FirstWhere(s.cpus, CpuHasSocket(s, socket));
    var n := FirstWhere(s.newPrograms, HasSocket(s, socket));
    var b := FirstWhere(s.blocked, HasSocket(s, socket));
    var r := FirstWhere(s.ready, HasSocket(s, socket));
    if c < |s.cpus| then s.cpus[c].program
    else if n < |s.newPrograms| then Some(s.newPrograms[n])
    else if b < |s.blocked| then Some(s.blocked[b])
    else if r < |s.ready| then Some(s.ready[r])
    else None
  }

  /** The request comes from the CPU of `p`, or is its loss. */
  predicate OfItsCpu(s: Kernel, e: Event, p: Pid) {
    (e.StillBurst? || e.EndBurst? || e.Wait? || e.Signal? || e.CpuLost?) && BusyCpu(s, e.cpu) && Running(s, e.cpu) == p
  }

  /** Where the request itself puts a program, before anything is planned. */
  ghost function Sent(s: Kernel, e: Event, p: Pid): Spot
    requires Enabled(s, e) && p in s.programs
  {
    var a, record := SpotOf(s, p), s.programs[p];
    match e
    case StillBurst(_) =>
      if !OfItsCpu(s, e, p) || (!record.waiting && record.quantum == -1) then a
      else Spot(OnACpu, record.(quantum := if record.waiting then 0 else record.quantum - 1))
    case EndBurst(_, terminated) =>
      if !OfItsCpu(s, e, p) then a
      else Spot(if terminated then InFinished else if record.waiting then InBlocked else InReady, record.(quantum := 0))
    case Wait(_, sem) =>
      if !OfItsCpu(s, e, p) then a
      else if sem !in s.semaphores then Spot(OnACpu, record.(interruptionCode := -14))
      else if s.semaphores[sem] <= 0 then Spot(OnACpu, record.(waiting := true, waitingReason := sem))
      else a
    case Signal(_, sem) =>
      if sem !in s.semaphores then
        if OfItsCpu(s, e, p) then Spot(OnACpu, record.(interruptionCode := -14)) else a
      else if Released(s, sem) != Some(p) then a
      else Spot(if a.place == InBlocked then InReady else OnACpu, record.(waiting := false, waitingReason := ""))
    case CpuLost(_) =>
      if !OfItsCpu(s, e, p) then a
      else Spot(InFinished, record.(interruptionCode := -16, exitCode := -16))
    case Interrupt(socket, code, override) =>
      if Struck(s, socket) != Some(p) then a
      else if a.place != OnACpu then Spot(InFinished, record.(exitCode := code))
      else if record.interruptionCode == 0 || override then Spot(OnACpu, record.(interruptionCode := code))
      else a
    case _ => a
  }

  /** The request makes the Kernel plan. */
  ghost predicate Replans(s: Kernel, e: Event) {
    || e.NewProgram? || e.NewCpu? || e.EndBurst?
    || (e.Signal? && e.sem in s.semaphores && FirstWhere(s.blocked, OnSemaphore(s, e.sem)) < |s.blocked|)
  }

  /** The whole life of a program, step by step: the request sends it to one spot, and from
      there the planners may move it onward, if they are called. */
  ghost predicate Follows(cfg: Config, s: Kernel, e: Event, s': Kernel, p: Pid)
    requires Enabled(s, e)
  {
    && s'.programs.Keys == s.programs.Keys + Arrivals(e)
    && (p in s.programs ==>
          if Replans(s, e) then Onward(cfg, p, Sent(s, e, p), SpotOf(s', p)) else SpotOf(s', p) == Sent(s, e, p))
    && (p in Arrivals(e) ==>
          Onward(cfg, p, Spot(InNew, Program(e.socket, false, "", 0, 1, 0)), SpotOf(s', p)))
  }

  /** `p` is where it was, as it was. */
  ghost predicate Same(s: Kernel, s1: Kernel, p: Pid) {
    && p in s.programs && p in s1.programs && s1.programs[p] == s.programs[p]
    && (p in s1.newPrograms <==> p in s.newPrograms) && (p in s1.ready <==> p in s.ready)
    && (p in s1.blocked <==> p in s.blocked) && (p in s1.finished <==> p in s.finished)
    && (p in OnCpu(s1.cpus) <==> p in OnCpu(s.cpus))
  }

  lemma SameSpot(s: Kernel, s1: Kernel, p: Pid)
    requires Same(s, s1, p)
    ensures SpotOf(s1, p) == SpotOf(s, p)
  {
    hide OnCpu;
  }

  function Arrivals(e: Event): set<Pid> {
    if e.NewProgram? then {e.pid} else {}
  }

  /** The request has put the program where `Sent` says, and nothing is planned yet. */
  ghost predicate Placed(s: Kernel, e: Event, s1: Kernel, p: Pid)
    requires Enabled(s, e)
  {
    && s1.programs.Keys == s.programs.Keys + Arrivals(e)
    && (p in s.programs ==> SpotOf(s1, p) == Sent(s, e, p))
    && (p in Arrivals(e) ==> SpotOf(s1, p) == Spot(InNew, Program(e.socket, false, "", 0, 1, 0)))
  }

  lemma PlacedFollows(cfg: Config, s: Kernel, e: Event, s1: Kernel, s': Kernel, p: Pid)
    requires Enabled(s, e) && Placed(s, e, s1, p)
    requires if Replans(s, e) then Moves(cfg, s1, s', p) else s' == s1
    ensures Follows(cfg, s, e, s', p)
  {
    assert e.NewProgram? ==> Replans(s, e);
    hide SpotOf, Onward, Sent, Replans;
  }

  // ----- a new program

  lemma NewProgramFollows(cfg: Config, s: Kernel, pid: Pid, socket: int, p: Pid)
    requires Conserved(s) && Known(s) && pid !in s.programs
    ensures Follows(cfg, s, NewProgram(pid, socket), Step(cfg, s, NewProgram(pid, socket)), p)
  {
    hide Conserved, Known, OnCpu, LongTerm, PlanIdle, Moves, Placed, Arrived, Follows;
    var s1 := Arrived(s, pid, socket);
    ArrivedKnown(s, pid, socket);
    ArrivedConserves(s, pid, socket);
    ArrivedPlaces(s, pid, socket, p);
    LongTermMoves(cfg, s1, p);
    var s2 := LongTerm(cfg, s1);
    PlanIdleMovesOn(cfg, s2, 0, p);
    MovesTwice(cfg, s1, s2, PlanIdle(cfg, s2, 0), p);
    PlacedFollows(cfg, s, NewProgram(pid, socket), s1, PlanIdle(cfg, s2, 0), p);
  }

  lemma LongTermMoves(cfg: Config, s: Kernel, p: Pid)
    requires Conserved(s) && Known(s)
    ensures Moves(cfg, s, LongTerm(cfg, s), p) && Conserved(LongTerm(cfg, s)) && Known(LongTerm(cfg, s))
  {
    hide Conserved, Known, OnCpu, Moves, Admit;
    KnownNew(s);
    AdmitMoves(cfg, s, |s.ready| + |OnCpu(s.cpus)|, p);
    AdmitKnown(cfg, s, |s.ready| + |OnCpu(s.cpus)|);
    AdmitConserves(cfg, s, |s.ready| + |OnCpu(s.cpus)|);
  }

  lemma ArrivedPlaces(s: Kernel, pid: Pid, socket: int, p: Pid)
    requires pid !in s.programs
    ensures Placed(s, NewProgram(pid, socket), Arrived(s, pid, socket), p)
  {
    hide OnCpu;
  }

  // ----- CPUs come, finish their burst and go

  lemma NewCpuFollows(cfg: Config, s: Kernel, socket: int, p: Pid)
    requires Conserved(s) && Known(s)
    ensures Follows(cfg, s, NewCpu(socket), Step(cfg, s, NewCpu(socket)), p)
  {
    var s1 := s.(cpus := s.cpus + [Cpu(socket, None)]);
    NewCpuKnown(s, socket);
    NewCpuConserves(s, socket);
    NewCpuPlaces(s, socket, p);
    hide Conserved, Known, OnCpu, Plan, Moves, Placed, Follows;
    PlanMovesOn(cfg, s1, |s.cpus|, p);
    PlacedFollows(cfg, s, NewCpu(socket), s1, Plan(cfg, s1, |s.cpus|), p);
  }

  lemma NewCpuPlaces(s: Kernel, socket: int, p: Pid)
    ensures Placed(s, NewCpu(socket), s.(cpus := s.cpus + [Cpu(socket, None)]), p)
  {
    OnCpuAppend(s.cpus, [Cpu(socket, None)]);
    OnCpuOne(Cpu(socket, None));
    hide OnCpu;
    assert OnCpu(s.cpus) + [] == OnCpu(s.cpus);
  }

  lemma EndBurstFollows(cfg: Config, s: Kernel, i: nat, terminated: bool, p: Pid)
    requires Conserved(s) && Known(s) && BusyCpu(s, i)
    ensures Follows(cfg, s, EndBurst(i, terminated), Step(cfg, s, EndBurst(i, terminated)), p)
  {
    hide Conserved, Known, OnCpu, Plan, Moves, Placed, Ended, Follows;
    EndedKnown(s, i, terminated);
    EndedConserves(s, i, terminated);
    EndedPlaces(s, i, terminated, p);
    var s1 := Ended(s, i, terminated);
    PlanMovesOn(cfg, s1, i, p);
    PlacedFollows(cfg, s, EndBurst(i, terminated), s1, Plan(cfg, s1, i), p);
  }

  /** Who is on a CPU when CPU `i` is taken from its program, or is gone. */
  lemma OffCpu(s: Kernel, i: nat, p: Pid)
    requires Conserved(s) && BusyCpu(s, i)
    ensures var cpus := s.cpus[i := s.cpus[i].(program := None)];
            p in OnCpu(cpus) <==> p in OnCpu(s.cpus) && p != Running(s, i)
    ensures p in OnCpu(RemoveAt(s.cpus, i)) <==> p in OnCpu(s.cpus) && p != Running(s, i)
    ensures Running(s, i) in OnCpu(s.cpus) && Running(s, i) in s.programs
  {
    ConservedIsKnown(s);
    RunningKnown(s, i);
    CpuContents(s.cpus, i, None);
    InPlaceOnce(s, Running(s, i));
    var cpus := s.cpus[i := s.cpus[i].(program := None)];
    hide OnCpu, RemoveAt, Conserved, Known;
    InMultiset(OnCpu(s.cpus), p);
    InMultiset(OnCpu(cpus), p);
    InMultiset(OnCpu(RemoveAt(s.cpus, i)), p);
  }

  lemma EndedPlaces(s: Kernel, i: nat, terminated: bool, p: Pid)
    requires Conserved(s) && BusyCpu(s, i) && Running(s, i) in s.programs
    ensures Placed(s, EndBurst(i, terminated), Ended(s, i, terminated), p)
  {
    hide OnCpu, Conserved, RemoveAt, SpotOf, Placed, InOnePlace;
    OffCpu(s, i, p);
    OnePlace(s, Running(s, i));
    EndedFrom(s, i, terminated, p);
  }

  lemma EndedFrom(s: Kernel, i: nat, terminated: bool, p: Pid)
    requires BusyCpu(s, i) && Running(s, i) in s.programs && Running(s, i) in OnCpu(s.cpus) && InOnePlace(s, Running(s, i))
    requires p in OnCpu(s.cpus[i := s.cpus[i].(program := None)]) <==> p in OnCpu(s.cpus) && p != Running(s, i)
    ensures Placed(s, EndBurst(i, terminated), Ended(s, i, terminated), p)
  {
    hide OnCpu;
  }

  lemma CpuLostPlaces(s: Kernel, i: nat, p: Pid)
    requires Conserved(s) && Known(s) && i < |s.cpus|
    ensures Placed(s, CpuLost(i), Lost(s, i), p)
  {
    hide OnCpu, Conserved, RemoveAt, SpotOf, Placed, InOnePlace, Known, Lost;
    if BusyCpu(s, i) {
      OffCpu(s, i, p);
      OnePlace(s, Running(s, i));
      LostFrom(s, i, p);
    } else {
      IdleOff(s, i, p);
      IdleLost(s, i, p);
    }
  }

  lemma LostFrom(s: Kernel, i: nat, p: Pid)
    requires Known(s) && BusyCpu(s, i)
    requires Running(s, i) in s.programs && Running(s, i) in OnCpu(s.cpus) && InOnePlace(s, Running(s, i))
    requires p in OnCpu(RemoveAt(s.cpus, i)) <==> p in OnCpu(s.cpus) && p != Running(s, i)
    ensures Placed(s, CpuLost(i), Lost(s, i), p)
  {
    hide OnCpu, RemoveAt, Known;
  }

  lemma IdleOff(s: Kernel, i: nat, p: Pid)
    requires i < |s.cpus| && s.cpus[i].program.None?
    ensures p in OnCpu(RemoveAt(s.cpus, i)) <==> p in OnCpu(s.cpus)
  {
    CpuContents(s.cpus, i, None);
    InMultiset(OnCpu(s.cpus), p);
    InMultiset(OnCpu(RemoveAt(s.cpus, i)), p);
    hide OnCpu, RemoveAt;
  }

  lemma IdleLost(s: Kernel, i: nat, p: Pid)
    requires Known(s) && i < |s.cpus| && s.cpus[i].program.None?
    requires p in OnCpu(RemoveAt(s.cpus, i)) <==> p in OnCpu(s.cpus)
    ensures Placed(s, CpuLost(i), Lost(s, i), p)
  {
    hide OnCpu, RemoveAt, Known;
  }

  // ----- requests of a running program

  /** Only one record and the values change. */
  lemma RecordChanged(s: Kernel, s1: Kernel, w: Pid, p: Pid)
    requires w in s.programs && w in s1.programs && s1 == Update(s, w, s1.programs[w]).(semaphores := s1.semaphores)
    ensures s1.programs.Keys == s.programs.Keys
    ensures p in s.programs ==> SpotOf(s1, p) == if p == w then SpotOf(s, p).(record := s1.programs[w]) else SpotOf(s, p)
  {
    hide OnCpu;
  }

  lemma RunningSpot(s: Kernel, i: nat)
    requires Conserved(s) && BusyCpu(s, i)
    ensures Running(s, i) in s.programs && SpotOf(s, Running(s, i)) == Spot(OnACpu, s.programs[Running(s, i)])
  {
    OnlyOnItsCpu(s, i);
    hide OnCpu, Conserved, Known;
  }

  lemma InPlacePlaces(cfg: Config, s: Kernel, e: Event, p: Pid)
    requires Conserved(s) && Known(s) && Enabled(s, e)
    requires e.StillBurst? || e.Wait? || (e.Signal? && e.sem !in s.semaphores)
    ensures Placed(s, e, Step(cfg, s, e), p)
  {
    hide OnCpu, Conserved, Known, SpotOf;
    hide Placed, Step;
    RunningSpot(s, e.cpu);
    match e
    case StillBurst(i) => StillBurstPlaces(cfg, s, i, p);
    case Wait(i, sem) => WaitPlaces(cfg, s, i, sem, p);
    case Signal(i, sem) => NoSemaphorePlaces(cfg, s, i, sem, p);
  }

  lemma StillBurstPlaces(cfg: Config, s: Kernel, i: nat, p: Pid)
    requires Known(s) && BusyCpu(s, i) && Running(s, i) in s.programs
    requires SpotOf(s, Running(s, i)) == Spot(OnACpu, s.programs[Running(s, i)])
    ensures Placed(s, StillBurst(i), Step(cfg, s, StillBurst(i)), p)
  {
    hide OnCpu, Known, SpotOf;
    RecordChanged(s, Step(cfg, s, StillBurst(i)), Running(s, i), p);
  }

  lemma WaitPlaces(cfg: Config, s: Kernel, i: nat, sem: string, p: Pid)
    requires Known(s) && BusyCpu(s, i) && Running(s, i) in s.programs
    requires SpotOf(s, Running(s, i)) == Spot(OnACpu, s.programs[Running(s, i)])
    ensures Placed(s, Wait(i, sem), Step(cfg, s, Wait(i, sem)), p)
  {
    hide OnCpu, Known, SpotOf;
    RecordChanged(s, Step(cfg, s, Wait(i, sem)), Running(s, i), p);
  }

  lemma NoSemaphorePlaces(cfg: Config, s: Kernel, i: nat, sem: string, p: Pid)
    requires Known(s) && BusyCpu(s, i) && Running(s, i) in s.programs && sem !in s.semaphores
    requires SpotOf(s, Running(s, i)) == Spot(OnACpu, s.programs[Running(s, i)])
    ensures Placed(s, Signal(i, sem), Step(cfg, s, Signal(i, sem)), p)
  {
    hide OnCpu, Known, SpotOf;
    RecordChanged(s, Step(cfg, s, Signal(i, sem)), Running(s, i), p);
  }

  // ----- signals

  lemma SignalFollows(cfg: Config, s: Kernel, i: nat, sem: string, p: Pid)
    requires Conserved(s) && Known(s) && BusyCpu(s, i) && sem in s.semaphores
    ensures Follows(cfg, s, Signal(i, sem), Step(cfg, s, Signal(i, sem)), p)
  {
    hide Conserved, Known, OnCpu, PlanIdle, Moves, Placed, Follows, Woken, Release, RemoveAt, SpotOf;
    var s1 := s.(semaphores := s.semaphores[sem := s.semaphores[sem] + 1]);
    SignalKnown(s, sem);
    var b := FirstWhere(s.blocked, OnSemaphore(s, sem));
    assert b == FirstWhere(s1.blocked, OnSemaphore(s1, sem)) by { SameSearches(s, s1, sem); }
    if b < |s.blocked| {
      WokenPlaces(s, s1, i, b, sem, p);
      PlanIdleMovesOn(cfg, Woken(s1, b), 0, p);
      PlacedFollows(cfg, s, Signal(i, sem), Woken(s1, b), PlanIdle(cfg, Woken(s1, b), 0), p);
    } else {
      SignalOnCpu(cfg, s, s1, i, sem, p);
      PlacedFollows(cfg, s, Signal(i, sem), Unblock(cfg, s1, sem), Unblock(cfg, s1, sem), p);
    }
  }

  lemma SignalKnown(s: Kernel, sem: string)
    requires Known(s) && sem in s.semaphores
    ensures Known(s.(semaphores := s.semaphores[sem := s.semaphores[sem] + 1]))
  {
  }

  lemma SameSearches(s: Kernel, s1: Kernel, sem: string)
    requires s1 == s.(semaphores := s1.semaphores)
    ensures FirstWhere(s1.blocked, OnSemaphore(s1, sem)) == FirstWhere(s.blocked, OnSemaphore(s, sem))
    ensures FirstWhere(s1.cpus, CpuOnSemaphore(s1, sem)) == FirstWhere(s.cpus, CpuOnSemaphore(s, sem))
  {
    FirstIsUnique(s.blocked, OnSemaphore(s, sem), FirstWhere(s1.blocked, OnSemaphore(s1, sem)));
    FirstIsUnique(s.cpus, CpuOnSemaphore(s, sem), FirstWhere(s1.cpus, CpuOnSemaphore(s1, sem)));
  }

  lemma WokenPlaces(s: Kernel, s1: Kernel, i: nat, b: nat, sem: string, p: Pid)
    requires Conserved(s) && Known(s) && Known(s1) && BusyCpu(s, i) && sem in s.semaphores
    requires s1 == s.(semaphores := s1.semaphores)
    requires b == FirstWhere(s.blocked, OnSemaphore(s, sem)) < |s.blocked|
    ensures s1.blocked[b] in s1.programs && Placed(s, Signal(i, sem), Woken(s1, b), p)
    ensures Conserved(Woken(s1, b)) && Known(Woken(s1, b))
  {
    var w := s.blocked[b];
    assert w in s.blocked && w in s.programs;
    RemovedAt(s.blocked, b, p);
    InPlaceOnce(s, w);
    OnePlace(s, w);
    SameKeysConserved(s, s1);
    WokenConserves(s1, b);
    ConservedIsKnown(Woken(s1, b));
    assert Released(s, sem) == Some(w);
    hide Conserved, OnCpu, Known, RemoveAt, FirstWhere;
    WokenFrom(s, s1, i, b, sem, p);
  }

  lemma RemovedAt(q: seq<Pid>, i: nat, p: Pid)
    requires i < |q|
    ensures multiset(q)[q[i]] == 1 ==> (p in RemoveAt(q, i) <==> p in q && p != q[i])
  {
    TakenOut(q, i);
    InMultiset(q, p);
    InMultiset(RemoveAt(q, i), p);
    hide RemoveAt;
  }

  lemma WokenConserves(s: Kernel, b: nat)
    requires Conserved(s) && b < |s.blocked| && s.blocked[b] in s.programs
    ensures Conserved(Woken(s, b))
  {
    hide Conserved, Detached, OnCpu, RemoveAt;
    TakeBlocked(s, b);
    var s0 := s.(blocked := RemoveAt(s.blocked, b));
    var s1 := Release(s0, s.blocked[b]);
    SameKeysDetached(s0, s.blocked[b], s1.programs[s.blocked[b]]);
    Queued(s1, s.blocked[b]);
  }

  lemma WokenFrom(s: Kernel, s1: Kernel, i: nat, b: nat, sem: string, p: Pid)
    requires BusyCpu(s, i) && sem in s.semaphores && b < |s.blocked| && s.blocked[b] in s.programs
    requires s1 == s.(semaphores := s1.semaphores)
    requires Released(s, sem) == Some(s.blocked[b]) && InOnePlace(s, s.blocked[b])
    requires p in RemoveAt(s.blocked, b) <==> p in s.blocked && p != s.blocked[b]
    ensures Placed(s, Signal(i, sem), Woken(s1, b), p)
  {
    hide OnCpu, RemoveAt, Released;
  }

  lemma SignalOnCpu(cfg: Config, s: Kernel, s1: Kernel, i: nat, sem: string, p: Pid)
    requires Conserved(s) && Known(s) && Known(s1) && BusyCpu(s, i) && sem in s.semaphores
    requires s1 == s.(semaphores := s1.semaphores)
    requires FirstWhere(s.blocked, OnSemaphore(s, sem)) == |s.blocked|
    ensures Placed(s, Signal(i, sem), Unblock(cfg, s1, sem), p)
  {
    hide OnCpu, Conserved, Known, FirstWhere, SpotOf, Placed, OnSemaphore, CpuOnSemaphore;
    SameSearches(s, s1, sem);
    var c := FirstWhere(s.cpus, CpuOnSemaphore(s, sem));
    if c < |s.cpus| {
      OnWaitingCpu(s, c, sem);
      RunningSpot(s, c);
      ReleasedOnCpu(s, s1, c, i, sem, p);
    } else {
      NobodyReleased(s, s1, i, sem, p);
    }
  }

  lemma OnWaitingCpu(s: Kernel, c: nat, sem: string)
    requires c == FirstWhere(s.cpus, CpuOnSemaphore(s, sem)) < |s.cpus|
    ensures BusyCpu(s, c)
  {
    assert CpuOnSemaphore(s, sem)(s.cpus[c]);
  }

  lemma ReleasedOnCpu(s: Kernel, s1: Kernel, c: nat, i: nat, sem: string, p: Pid)
    requires BusyCpu(s, i) && sem in s.semaphores && BusyCpu(s, c) && Running(s, c) in s.programs
    requires s1 == s.(semaphores := s1.semaphores) && Released(s, sem) == Some(Running(s, c))
    requires SpotOf(s, Running(s, c)) == Spot(OnACpu, s.programs[Running(s, c)])
    ensures Placed(s, Signal(i, sem), Release(s1, Running(s, c)), p)
  {
    hide OnCpu, Known, SpotOf, Released;
    RecordChanged(s, Release(s1, Running(s, c)), Running(s, c), p);
  }

  lemma NobodyReleased(s: Kernel, s1: Kernel, i: nat, sem: string, p: Pid)
    requires BusyCpu(s, i) && sem in s.semaphores
    requires s1 == s.(semaphores := s1.semaphores) && Released(s, sem) == None
    ensures Placed(s, Signal(i, sem), s1, p)
  {
    hide OnCpu, Known, Released;
  }

  // ----- interruptions

  lemma InterruptPlaces(s: Kernel, socket: int, code: int, override: bool, p: Pid)
    requires Conserved(s) && Known(s)
    ensures Placed(s, Interrupt(socket, code, override), Interrupted(s, socket, code, override), p)
  {
    var c := FirstWhere(s.cpus, CpuHasSocket(s, socket));
    var n := FirstWhere(s.newPrograms, HasSocket(s, socket));
    var b := FirstWhere(s.blocked, HasSocket(s, socket));
    var r := FirstWhere(s.ready, HasSocket(s, socket));
    hide Conserved, OnCpu, Known, RemoveAt, FirstWhere, Placed, SpotOf, InOnePlace;
    if c < |s.cpus| {
      StruckOnCpu(s, c, socket, code, override, p);
    } else if n < |s.newPrograms| {
      StruckNew(s, n, socket, code, override, p);
    } else if b < |s.blocked| {
      StruckBlocked(s, b, socket, code, override, p);
    } else if r < |s.ready| {
      StruckReady(s, r, socket, code, override, p);
    } else {
      NobodyStruck(s, socket, code, override, p);
    }
  }

  lemma NobodyStruck(s: Kernel, socket: int, code: int, override: bool, p: Pid)
    requires Struck(s, socket) == None
    ensures Placed(s, Interrupt(socket, code, override), s, p)
  {
    hide OnCpu, FirstWhere, Struck;
  }

  lemma StruckOnCpu(s: Kernel, c: nat, socket: int, code: int, override: bool, p: Pid)
    requires Conserved(s) && Known(s) && c == FirstWhere(s.cpus, CpuHasSocket(s, socket)) < |s.cpus|
    ensures Placed(s, Interrupt(socket, code, override), Interrupted(s, socket, code, override), p)
  {
    assert CpuHasSocket(s, socket)(s.cpus[c]);
    RunningKnown(s, c);
    hide OnCpu, Conserved, Known, FirstWhere, SpotOf;
    RunningSpot(s, c);
    RecordChanged(s, Interrupted(s, socket, code, override), Running(s, c), p);
  }

  /** A queued program is finished with the code. */
  lemma StruckNew(s: Kernel, n: nat, socket: int, code: int, override: bool, p: Pid)
    requires Conserved(s) && Known(s) && n < |s.newPrograms| && Struck(s, socket) == Some(s.newPrograms[n])
    ensures s.newPrograms[n] in s.programs
    ensures Placed(s, Interrupt(socket, code, override),
                   FinishWith(s.(newPrograms := RemoveAt(s.newPrograms, n)), s.newPrograms[n], code), p)
  {
    assert s.newPrograms[n] in s.newPrograms && s.newPrograms[n] in s.programs;
    hide OnCpu, Conserved, Known, Struck, RemoveAt;
    InPlaceOnce(s, s.newPrograms[n]);
    OnePlace(s, s.newPrograms[n]);
    RemovedAt(s.newPrograms, n, p);
  }

  lemma StruckBlocked(s: Kernel, b: nat, socket: int, code: int, override: bool, p: Pid)
    requires Conserved(s) && Known(s) && b < |s.blocked| && Struck(s, socket) == Some(s.blocked[b])
    ensures s.blocked[b] in s.programs
    ensures Placed(s, Interrupt(socket, code, override),
                   FinishWith(s.(blocked := RemoveAt(s.blocked, b)), s.blocked[b], code), p)
  {
    assert s.blocked[b] in s.blocked && s.blocked[b] in s.programs;
    hide OnCpu, Conserved, Known, Struck, RemoveAt;
    InPlaceOnce(s, s.blocked[b]);
    OnePlace(s, s.blocked[b]);
    RemovedAt(s.blocked, b, p);
  }

  lemma StruckReady(s: Kernel, r: nat, socket: int, code: int, override: bool, p: Pid)
    requires Conserved(s) && Known(s) && r < |s.ready| && Struck(s, socket) == Some(s.ready[r])
    ensures s.ready[r] in s.programs
    ensures Placed(s, Interrupt(socket, code, override),
                   FinishWith(s.(ready := RemoveAt(s.ready, r)), s.ready[r], code), p)
  {
    assert s.ready[r] in s.ready && s.ready[r] in s.programs;
    hide OnCpu, Conserved, Known, Struck, RemoveAt;
    InPlaceOnce(s, s.ready[r]);
    OnePlace(s, s.ready[r]);
    RemovedAt(s.ready, r, p);
  }

  // ----- every request

  /** Every program goes through its life in this way and in no other. */
  lemma StepFollows(cfg: Config, s: Kernel, e: Event, p: Pid)
    requires Conserved(s) && Known(s) && Enabled(s, e)
    ensures Follows(cfg, s, e, Step(cfg, s, e), p)
  {
    hide Conserved, Known, OnCpu, Follows, Placed, Moves, Plan, PlanIdle, Unblock, Interrupted, Lost, Ended, Arrived, LongTerm;
    match e
    case NewProgram(pid, socket) => NewProgramFollows(cfg, s, pid, socket, p);
    case NewCpu(socket) => NewCpuFollows(cfg, s, socket, p);
    case EndBurst(i, terminated) => EndBurstFollows(cfg, s, i, terminated, p);
    case Signal(i, sem) => if sem in s.semaphores { SignalFollows(cfg, s, i, sem, p); } else { UnplannedFollows(cfg, s, e, p); }
    case _ => UnplannedFollows(cfg, s, e, p);
  }

  lemma UnplannedFollows(cfg: Config, s: Kernel, e: Event, p: Pid)
    requires Conserved(s) && Known(s) && Enabled(s, e)
    requires e.StillBurst? || e.Wait? || e.Interrupt? || e.CpuLost? || (e.Signal? && e.sem !in s.semaphores)
    ensures Follows(cfg, s, e, Step(cfg, s, e), p)
  {
    hide Conserved, Known, OnCpu, Follows, Placed, Moves, Plan, PlanIdle, Unblock, Interrupted, Lost, Ended, Arrived, LongTerm;
    match e {
      case Interrupt(socket, code, override) => InterruptPlaces(s, socket, code, override, p);
      case CpuLost(i) => CpuLostPlaces(s, i, p);
      case _ => InPlacePlaces(cfg, s, e, p);
    }
    PlacedFollows(cfg, s, e, Step(cfg, s, e), Step(cfg, s, e), p);
  }

  // ----- refused programs, over whole runs

  /** A request finds no program in New or in Finished, but an interruption may finish one
      in New. */
  lemma SentOutside(s: Kernel, e: Event, p: Pid)
    requires Conserved(s) && Known(s) && Enabled(s, e) && p in s.programs
    requires SpotOf(s, p).place.InNew? || SpotOf(s, p).place.InFinished?
    ensures Sent(s, e, p) == SpotOf(s, p) || (e.Interrupt? && SpotOf(s, p).place.InNew? && Sent(s, e, p).place.InFinished?)
  {
    hide FirstWhere, Known, Conserved, OnCpu, SpotOf;
    NotOnCpu(s, p);
    AtItsSpot(s, p, InBlocked);
    AtItsSpot(s, p, InReady);
    AtItsSpot(s, p, InNew);
  }

  lemma NotOnCpu(s: Kernel, p: Pid)
    requires Conserved(s) && Known(s) && p in s.programs && SpotOf(s, p).place != OnACpu
    ensures forall i :: 0 <= i < |s.cpus| ==> s.cpus[i].program != Some(p)
  {
    hide Known, Conserved, OnCpu, SpotOf;
    AtItsSpot(s, p, OnACpu);
    PresentOnCpu(s.cpus, p);
  }

  /** A program that Memory or the FileSystem turned down waits in New or is finished, with
      their answer as its exit code unless an interruption was quicker. */
  ghost predicate TurnedDown(cfg: Config, s: Kernel, p: Pid, interrupted: bool) {
    cfg.admission(p) != 0 && p in s.programs ==>
      && SpotOf(s, p).place in {InNew, InFinished}
      && (SpotOf(s, p).place.InFinished? && !interrupted ==> SpotOf(s, p).record.exitCode == cfg.admission(p))
  }

  lemma StaysTurnedDown(cfg: Config, s: Kernel, e: Event, p: Pid, interrupted: bool)
    requires Conserved(s) && Known(s) && Enabled(s, e) && TurnedDown(cfg, s, p, interrupted)
    ensures TurnedDown(cfg, Step(cfg, s, e), p, interrupted || e.Interrupt?)
  {
    hide Known, Conserved, OnCpu, SpotOf, Sent, Step, Replans;
    StepFollows(cfg, s, e, p);
    if cfg.admission(p) != 0 && p in s.programs {
      SentOutside(s, e, p);
    }
  }

  ghost predicate SomeInterrupt(es: seq<Event>) {
    exists k :: 0 <= k < |es| && es[k].Interrupt?
  }

  lemma {:induction false} RunTurnsDown(cfg: Config, s: Kernel, es: seq<Event>, p: Pid, interrupted: bool)
    requires Conserved(s) && Run(cfg, s, es).Some? && TurnedDown(cfg, s, p, interrupted)
    ensures var r := Run(cfg, s, es).value;
            Conserved(r) && TurnedDown(cfg, r, p, interrupted || SomeInterrupt(es))
    decreases |es|
  {
    hide Known, Conserved, Step, TurnedDown, Enabled;
    if es != [] {
      StepConserves(cfg, s, es[0]);
      StaysTurnedDown(cfg, s, es[0], p, interrupted);
      RunTurnsDown(cfg, Step(cfg, s, es[0]), es[1..], p, interrupted || es[0].Interrupt?);
      assert SomeInterrupt(es) <==> es[0].Interrupt? || SomeInterrupt(es[1..]) by { FirstOrLater(es); }
    }
  }

  lemma FirstOrLater(es: seq<Event>)
    requires es != []
    ensures SomeInterrupt(es) <==> es[0].Interrupt? || SomeInterrupt(es[1..])
  {
    if SomeInterrupt(es) && !es[0].Interrupt? {
      var k :| 0 <= k < |es| && es[k].Interrupt?;
      assert es[1..][k - 1].Interrupt?;
    }
    if SomeInterrupt(es[1..]) {
      var k :| 0 <= k < |es[1..]| && es[1..][k].Interrupt?;
      assert es[k + 1].Interrupt?;
    }
  }

  /** In no run from the start is a program that was turned down ever in Ready, in Blocked or on
      a CPU; without interruptions it is finished with the answer it got. */
  lemma OnlyAdmittedRun(cfg: Config, s: Kernel, es: seq<Event>, p: Pid)
    requires Initial(s) && Run(cfg, s, es).Some? && cfg.admission(p) != 0
    ensures var r := Run(cfg, s, es).value;
            && p !in r.ready && p !in r.blocked && p !in OnCpu(r.cpus)
            && (p in r.finished && !SomeInterrupt(es) ==> p in r.programs && r.programs[p].exitCode == cfg.admission(p))
  {
    InitialHolds(cfg, s);
    hide Conserved, OnCpu, Run, Flags, SemaphoresOk, SemaphoresExact, SpotOf;
    RunTurnsDown(cfg, s, es, p, false);
    var r := Run(cfg, s, es).value;
    PlacesKnown(r, p);
    if p in r.programs {
      AtItsSpot(r, p, InReady);
      AtItsSpot(r, p, InBlocked);
      AtItsSpot(r, p, OnACpu);
      AtItsSpot(r, p, InFinished);
      RecordOf(r, p);
    }
  }

  lemma RecordOf(s: Kernel, p: Pid)
    requires p in s.programs
    ensures SpotOf(s, p).record == s.programs[p]
  {
  }

  lemma PlacesKnown(s: Kernel, p: Pid)
    requires Conserved(s)
    ensures p in s.ready || p in s.blocked || p in s.finished || p in OnCpu(s.cpus) ==> p in s.programs
  {
    PlacesCount(s);
    hide OnCpu, Everywhere, Known;
    assert p in Everywhere(s) ==> p in s.programs.Keys;
  }
}
