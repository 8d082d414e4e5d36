/** What an interruption does to the program of a socket, wherever that program is. */
module Interruption {
  import opened Wrappers
  import opened Lists
  import opened Scheduler
  import opened SchedulerRuns

  /** `p` is the one unfinished program with this socket, if it is unfinished. */
  ghost predicate Owns(s: Kernel, p: Pid, socket: int) {
    && p in s.programs && s.programs[p].socket == socket
    && forall q: Pid :: q in s.programs && q != p && q !in s.finished ==> s.programs[q].socket != socket
  }

  /** `q'` is `q` without `p`, in the same order. */
  ghost predicate Without(q: seq<Pid>, q': seq<Pid>, p: Pid) {
    p !in q' && (q' == q || exists i: nat :: i < |q| && q[i] == p && q' == RemoveAt(q, i))
  }

  /** The program leaves its queue for Finished with the code; nothing else changes. */
  ghost predicate FinishedBy(s: Kernel, s': Kernel, p: Pid, code: int) {
    && p in s.programs
    && s'.programs == s.programs[p := s.programs[p].(exitCode := code)]
    && s'.finished == s.finished + [p] && s'.cpus == s.cpus && s'.semaphores == s.semaphores
    && Without(s.newPrograms, s'.newPrograms, p) && Without(s.blocked, s'.blocked, p) && Without(s.ready, s'.ready, p)
  }

  /** Outside Finished, the socket leads to `p` only. */
  lemma OnlyThere(s: Kernel, p: Pid, socket: int, q: Pid)
    requires Conserved(s) && Owns(s, p, socket) && q in s.programs && s.programs[q].socket == socket
    requires q in s.newPrograms || q in s.ready || q in s.blocked || q in OnCpu(s.cpus)
    ensures q == p && q !in s.finished
  {
    Once(s, q);
    hide OnCpu, Conserved;
  }

  /** Searching a queue finds `p` where it is, and nothing if it is not there. */
  lemma SearchFinds(s: Kernel, q: seq<Pid>, p: Pid, socket: int)
    requires Owns(s, p, socket)
    requires forall x :: x in q && x in s.programs && s.programs[x].socket == socket ==> x == p
    ensures FirstWhere(q, HasSocket(s, socket)) < |q| <==> p in q
    ensures p in q ==> q[FirstWhere(q, HasSocket(s, socket))] == p
  {
    var i := FirstWhere(q, HasSocket(s, socket));
    if p in q {
      var k :| 0 <= k < |q| && q[k] == p;
      FoundBy(q, HasSocket(s, socket), k);
    }
    if i < |q| {
      assert HasSocket(s, socket)(q[i]);
      assert q[i] in q;
    }
  }

  lemma FoundBy<T>(q: seq<T>, test: T -> bool, k: nat)
    requires k < |q| && test(q[k])
    ensures FirstWhere(q, test) <= k
  {
  }

  lemma SearchCpus(s: Kernel, p: Pid, socket: int)
    requires Conserved(s) && Owns(s, p, socket)
    ensures var c := FirstWhere(s.cpus, CpuHasSocket(s, socket));
            (c < |s.cpus| <==> p in OnCpu(s.cpus)) && (c < |s.cpus| ==> s.cpus[c].program == Some(p))
  {
    var c := FirstWhere(s.cpus, CpuHasSocket(s, socket));
    if p in OnCpu(s.cpus) {
      OnSomeCpu(s.cpus, p);
      var k :| 0 <= k < |s.cpus| && s.cpus[k].program == Some(p);
      assert HasSocket(s, socket)(p);
      FoundBy(s.cpus, CpuHasSocket(s, socket), k);
    }
    if c < |s.cpus| {
      assert CpuHasSocket(s, socket)(s.cpus[c]);
      var q := s.cpus[c].program.value;
      assert HasSocket(s, socket)(q);
      ConservedIsKnown(s);
      RunningKnown(s, c);
      OnlyThere(s, p, socket, q);
    }
  }

  lemma {:induction false} OnSomeCpu(cpus: seq<Cpu>, p: Pid)
    requires p in OnCpu(cpus)
    ensures exists k :: 0 <= k < |cpus| && cpus[k].program == Some(p)
  {
    if cpus[0].program != Some(p) {
      OnSomeCpu(cpus[1..], p);
      var k :| 0 <= k < |cpus[1..]| && cpus[1..][k].program == Some(p);
      assert cpus[k + 1].program == Some(p);
    }
  }

  lemma RemovedOnce(q: seq<Pid>, i: nat, p: Pid)
    requires i < |q| && q[i] == p && multiset(q)[p] == 1
    ensures Without(q, RemoveAt(q, i), p)
  {
    TakenOut(q, i);
    assert multiset(RemoveAt(q, i))[p] == 0;
    assert p !in multiset(RemoveAt(q, i));
  }

  /** The program on a CPU gets the code, unless it has one that must not be overridden; a
      queued one is finished with it; a finished one is left alone. */
  lemma InterruptOutcome(s: Kernel, p: Pid, socket: int, code: int, override: bool)
    requires Conserved(s) && Known(s) && Owns(s, p, socket)
    ensures var s' := Interrupted(s, socket, code, override);
            if p in OnCpu(s.cpus) then
              s' == if s.programs[p].interruptionCode == 0 || override
                    then Update(s, p, s.programs[p].(interruptionCode := code)) else s
            else if p in s.finished then s' == s
            else FinishedBy(s, s', p, code)
  {
    Once(s, p);
    SearchCpus(s, p, socket);
    hide OnCpu, Conserved, Known, FirstWhere, RemoveAt, FinishedBy;
    if p !in OnCpu(s.cpus) {
      QueuedOutcome(s, p, socket, code, override);
    }
  }

  lemma QueuedOutcome(s: Kernel, p: Pid, socket: int, code: int, override: bool)
    requires Conserved(s) && Known(s) && Owns(s, p, socket)
    requires FirstWhere(s.cpus, CpuHasSocket(s, socket)) == |s.cpus| && p !in OnCpu(s.cpus)
    ensures var s' := Interrupted(s, socket, code, override);
            if p in s.finished then s' == s else FinishedBy(s, s', p, code)
  {
    hide OnCpu, Conserved, Known, FirstWhere, RemoveAt, Without;
    forall q: Pid | q in s.programs && s.programs[q].socket == socket &&
                    (q in s.newPrograms || q in s.ready || q in s.blocked) ensures q == p {
      OnlyThere(s, p, socket, q);
    }
    Once(s, p);
    SearchFinds(s, s.newPrograms, p, socket);
    SearchFinds(s, s.blocked, p, socket);
    SearchFinds(s, s.ready, p, socket);
    hide Owns;
    NotThere(s, p);
    if p in s.newPrograms {
      RemovedOnce(s.newPrograms, FirstWhere(s.newPrograms, HasSocket(s, socket)), p);
    } else if p in s.blocked {
      RemovedOnce(s.blocked, FirstWhere(s.blocked, HasSocket(s, socket)), p);
    } else if p in s.ready {
      RemovedOnce(s.ready, FirstWhere(s.ready, HasSocket(s, socket)), p);
    }
  }

  lemma NotThere(s: Kernel, p: Pid)
    ensures p !in s.newPrograms ==> Without(s.newPrograms, s.newPrograms, p)
    ensures p !in s.blocked ==> Without(s.blocked, s.blocked, p)
    ensures p !in s.ready ==> Without(s.ready, s.ready, p)
  {
  }
}
