/** Many Memory threads asking for and giving back frames at the same time
    (Memory/src/functions/ram.c:49-106, 139-169, 216-234), one step per lock operation.

    A thread first reserves frames by lowering `freeFrameCount` under its mutex and only
    then looks for free entries, locking them one at a time.  Giving frames back works the
    other way round: entries are freed first and credited later.  Between the two the counter and
    the table disagree; the invariant says by exactly how much. */
module FrameReservation {
  import opened Folds
  import opened Ram

  datatype Thread =
    | Idle
    // past the reservation: probing for the next of `owed` pages
    | Inserting(pid: int, page: int, owed: nat, at: nat)
    // ram_program_end, holding freeFrameMutex
    | Ending(pid: int, next: nat, freed: nat)
    // ram_free_page: probing without a lock, about to clear, about to credit
    | Looking(pid: int, page: int, at: nat, collisions: nat)
    | Found(pid: int, page: int, at: nat)
    | Crediting(pid: int)

  datatype State = State(table: seq<Entry>, freeFrameCount: int, mutex: bool, threads: seq<Thread>)

  /** Frames a thread was granted and has not taken yet. */
  function Owed(t: Thread): int {
    if t.Inserting? then t.owed else 0
  }

  /** Frames a thread has freed and not credited yet. */
  function Uncredited(t: Thread): int {
    match t
    case Ending(_, _, freed) => freed
    case Crediting(_) => 1
    case _ => 0
  }

  function HoldsMutex(t: Thread): int {
    if t.Ending? then 1 else 0
  }

  /** One operation in flight per PID. */
  ghost predicate OneEach(threads: seq<Thread>) {
    forall i, j :: 0 <= i < j < |threads| && !threads[i].Idle? && !threads[j].Idle? ==>
      threads[i].pid != threads[j].pid
  }

  ghost predicate ThreadOk(t: Thread, table: seq<Entry>) {
    match t
    case Idle => true
    case Inserting(pid, page, owed, at) => pid >= 0 && page >= 0 && owed > 0 && at < |table|
    case Ending(pid, next, _) => pid >= 0 && next <= |table|
    case Looking(pid, page, at, collisions) => pid >= 0 && at < |table| && collisions <= |table|
    case Found(pid, page, at) => pid >= 0 && at < |table| && table[at] == Entry(pid, page)
    case Crediting(pid) => pid >= 0
  }

  /** The mutex has its one holder, and the free entries are the counter plus what is
      reserved and not inserted plus what is freed and not credited. */
  ghost predicate Balanced(s: State) {
    && s.freeFrameCount >= 0
    && (if s.mutex then 1 else 0) == Sum(s.threads, HoldsMutex)
    && Sum(s.table, FreeWeight) == s.freeFrameCount + Sum(s.threads, Owed) + Sum(s.threads, Uncredited)
  }

  ghost predicate Inv(s: State) {
    && s.table != []
    && (forall i :: 0 <= i < |s.threads| ==> ThreadOk(s.threads[i], s.table))
    && OneEach(s.threads)
    && Balanced(s)
  }

  datatype Step =
    | Reserve(pid: int, startPage: nat, pageCount: nat, home: nat)
    | ProbeOrInsert(home: nat)
    | BeginEnd(pid: int)
    | EndEntry
    | FinishEnd
    | BeginFree(pid: int, page: int, home: nat)
    | LookOn
    | Clear
    | Credit

  /** No thread works for `pid`. */
  ghost predicate Unused(s: State, pid: int) {
    forall j :: 0 <= j < |s.threads| && !s.threads[j].Idle? ==> s.threads[j].pid != pid
  }

  /** The step is one that thread `i` can take. */
  ghost predicate Enabled(s: State, i: nat, step: Step)
    requires i < |s.threads|
  {
    var t := s.threads[i];
    match step
    case Reserve(pid, _, _, home) => t.Idle? && pid >= 0 && Unused(s, pid) && !s.mutex && home < |s.table|
    case ProbeOrInsert(home) => t.Inserting? && home < |s.table|
    case BeginEnd(pid) => t.Idle? && pid >= 0 && Unused(s, pid) && !s.mutex
    case EndEntry => t.Ending? && t.next < |s.table|
    case FinishEnd => t.Ending? && t.next == |s.table|
    case BeginFree(pid, _, home) => t.Idle? && pid >= 0 && Unused(s, pid) && home < |s.table|
    case LookOn => t.Looking?
    case Clear => t.Found?
    case Credit => t.Crediting? && !s.mutex
  }

  /** What the invariant says of the thread that moves. */
  lemma MoverIsOk(s: State, i: nat)
    requires Inv(s) && i < |s.threads|
    ensures var t := s.threads[i];
            && (t.Inserting? ==> t.pid >= 0 && t.page >= 0 && t.owed > 0 && t.at < |s.table|)
            && (t.Ending? ==> t.pid >= 0)
            && (t.Looking? ==> t.pid >= 0 && t.at < |s.table|)
            && (t.Found? ==> t.pid >= 0 && t.at < |s.table| && s.table[t.at] == Entry(t.pid, t.page))
  {
    assert ThreadOk(s.threads[i], s.table);
  }

  function NextEntry(table: seq<Entry>, at: nat): nat {
    if at + 1 == |table| then 0 else at + 1
  }

  /** What the step does. */
  function Apply(s: State, i: nat, step: Step): State
    requires Inv(s) && i < |s.threads| && Enabled(s, i, step)
  {
    var t := s.threads[i];
    MoverIsOk(s, i);
    match step
    case Reserve(pid, startPage, pageCount, home) =>
      // check and decrement under freeFrameMutex
      if s.freeFrameCount < pageCount || pageCount == 0 then s
      else s.(freeFrameCount := s.freeFrameCount - pageCount,
              threads := s.threads[i := Inserting(pid, startPage, pageCount, home)])
    case ProbeOrInsert(home) =>
      // the entry's spin lock covers the test and the store
      if s.table[t.at].pid != -1 then
        s.(threads := s.threads[i := Inserting(t.pid, t.page, t.owed, NextEntry(s.table, t.at))])
      else
        s.(table := s.table[t.at := Entry(t.pid, t.page)],
           threads := s.threads[i := if t.owed == 1 then Idle else Inserting(t.pid, t.page + 1, t.owed - 1, home)])
    case BeginEnd(pid) =>
      s.(mutex := true, threads := s.threads[i := Ending(pid, 0, 0)])
    case EndEntry =>
      if s.table[t.next].pid == t.pid then
        s.(table := s.table[t.next := FREE], threads := s.threads[i := Ending(t.pid, t.next + 1, t.freed + 1)])
      else
        s.(threads := s.threads[i := t.(next := t.next + 1)])
    case FinishEnd =>
      s.(mutex := false, freeFrameCount := s.freeFrameCount + t.freed, threads := s.threads[i := Idle])
    case BeginFree(pid, page, home) =>
      s.(threads := s.threads[i := Looking(pid, page, home, 0)])
    case LookOn =>
      if t.collisions < |s.table| && s.table[t.at] == Entry(t.pid, t.page) then
        s.(threads := s.threads[i := Found(t.pid, t.page, t.at)])
      else if t.collisions < |s.table| then
        s.(threads := s.threads[i := Looking(t.pid, t.page, NextEntry(s.table, t.at), t.collisions + 1)])
      else
        s.(threads := s.threads[i := Idle])
    case Clear =>
      s.(table := s.table[t.at := FREE], threads := s.threads[i := Crediting(t.pid)])
    case Credit =>
      s.(freeFrameCount := s.freeFrameCount + 1, threads := s.threads[i := Idle])
  }

  /** An entry changed by thread `i` for its own PID does not disturb the others. */
  lemma OthersUndisturbed(s: State, i: nat, at: nat, e: Entry)
    requires Inv(s) && i < |s.threads| && at < |s.table|
    requires !s.threads[i].Idle? && (s.table[at].pid == -1 || s.table[at].pid == s.threads[i].pid)
    ensures forall k :: 0 <= k < |s.threads| && k != i ==> ThreadOk(s.threads[k], s.table[at := e])
  {
  }

  lemma ThreadsStayOk(s: State, i: nat, step: Step)
    requires Inv(s) && i < |s.threads| && Enabled(s, i, step)
    ensures var s' := Apply(s, i, step);
            && s'.table != [] && |s'.threads| == |s.threads|
            && (forall k :: 0 <= k < |s'.threads| ==> ThreadOk(s'.threads[k], s'.table))
            && OneEach(s'.threads)
  {
    hide Sum;
    var t, s' := s.threads[i], Apply(s, i, step);
    MoverIsOk(s, i);
    match step
    case ProbeOrInsert(_) => if s.table[t.at].pid == -1 { OthersUndisturbed(s, i, t.at, Entry(t.pid, t.page)); }
    case EndEntry => if s.table[t.next].pid == t.pid { OthersUndisturbed(s, i, t.next, FREE); }
    case Clear => OthersUndisturbed(s, i, t.at, FREE);
    case _ =>
  }

  /** Every step keeps the balance. */
  lemma StepKeepsInv(s: State, i: nat, step: Step)
    requires Inv(s) && i < |s.threads| && Enabled(s, i, step)
    ensures Inv(Apply(s, i, step))
  {
    ThreadsStayOk(s, i, step);
    BalanceStays(s, i, step);
    hide ThreadOk, OneEach, Apply, Sum;
  }

  /** A change of one thread, one entry, the counter and the mutex that cancel out. */
  lemma ChangesCancel(s: State, i: nat, t': Thread, at: nat, e: Entry, count: int, mutex: bool)
    requires Balanced(s) && i < |s.threads| && at < |s.table| && count >= 0
    requires FreeWeight(e) - FreeWeight(s.table[at]) ==
             count - s.freeFrameCount + Owed(t') - Owed(s.threads[i]) + Uncredited(t') - Uncredited(s.threads[i])
    requires (if mutex then 1 else 0) - (if s.mutex then 1 else 0) == HoldsMutex(t') - HoldsMutex(s.threads[i])
    ensures Balanced(State(s.table[at := e], count, mutex, s.threads[i := t']))
  {
    SumUpdate(s.threads, i, t', Owed);
    SumUpdate(s.threads, i, t', Uncredited);
    SumUpdate(s.threads, i, t', HoldsMutex);
    SumUpdate(s.table, at, e, FreeWeight);
  }

  lemma BalanceStays(s: State, i: nat, step: Step)
    requires Inv(s) && i < |s.threads| && Enabled(s, i, step)
    ensures Balanced(Apply(s, i, step))
  {
    MoverIsOk(s, i);
    assert Balanced(s);
    SumNonNegative(s.threads, HoldsMutex);
    hide ThreadOk, OneEach, Unused, Sum, Balanced;
    var t, s' := s.threads[i], Apply(s, i, step);
    var at := match step
              case ProbeOrInsert(_) => t.at
              case EndEntry => t.next
              case Clear => t.at
              case _ => 0;
    assert s'.threads == s.threads[i := s'.threads[i]];
    assert s'.table == s.table[at := s'.table[at]];
    assert s.mutex || HoldsMutex(t) == 0;
    ChangesCancel(s, i, s'.threads[i], at, s'.table[at], s'.freeFrameCount, s'.mutex);
  }

  /** A thread that still owes pages finds a free frame for each of them. */
  lemma FreeFrameForEveryOwedPage(s: State, i: nat)
    requires Inv(s) && i < |s.threads| && s.threads[i].Inserting?
    ensures Sum(s.table, FreeWeight) >= Sum(s.threads, Owed) >= s.threads[i].owed > 0
    ensures exists k :: 0 <= k < |s.table| && s.table[k].pid == -1
  {
    SumNonNegative(s.threads, Owed);
    SumNonNegative(s.threads, Uncredited);
    assert Owed(s.threads[i]) == s.threads[i].owed;
    FreeSlotExists(s.table);
  }

  /** The state `ram_init` leaves, before any thread asks for something. */
  ghost predicate Initial(s: State) {
    && s.table != [] && (forall k :: 0 <= k < |s.table| ==> s.table[k] == FREE)
    && s.freeFrameCount == |s.table| && !s.mutex
    && forall i :: 0 <= i < |s.threads| ==> s.threads[i] == Idle
  }

  /** A schedule names the thread that moves next and what it does; a move that is not
      possible is a thread that waits. */
  ghost function Execute(s: State, schedule: seq<(nat, Step)>): (r: State)
    requires Inv(s)
    ensures Inv(r)
    decreases |schedule|
  {
    if schedule == [] then s
    else
      var (i, step) := schedule[0];
      if i < |s.threads| && Enabled(s, i, step) then
        StepKeepsInv(s, i, step);
        Execute(Apply(s, i, step), schedule[1..])
      else
        Execute(s, schedule[1..])
  }

  /** From the initial state, under any schedule of any number of threads, the free entries
      are the counter plus what is reserved and not inserted plus what is freed and not
      credited, and no inserting thread ever runs out of frames. */
  lemma ReservationHolds(s: State, schedule: seq<(nat, Step)>)
    requires Initial(s)
    ensures Inv(s)
    ensures var r := Execute(s, schedule);
            Sum(r.table, FreeWeight) == r.freeFrameCount + Sum(r.threads, Owed) + Sum(r.threads, Uncredited)
    ensures var r := Execute(s, schedule);
            forall i :: 0 <= i < |r.threads| && r.threads[i].Inserting? ==>
              Sum(r.table, FreeWeight) >= r.threads[i].owed > 0
  {
    AllFree(s.table);
    SumZero(s.threads, Owed);
    SumZero(s.threads, Uncredited);
    SumZero(s.threads, HoldsMutex);
    var r := Execute(s, schedule);
    forall i | 0 <= i < |r.threads| && r.threads[i].Inserting?
      ensures Sum(r.table, FreeWeight) >= r.threads[i].owed > 0
    {
      FreeFrameForEveryOwedPage(r, i);
    }
  }
}
