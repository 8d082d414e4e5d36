/** What comes of a request for frames, of giving back a page and of the end of a program: a
    thread that moves alone, from any state the others have left, gets through in a bounded
    number of steps with the result the request promises. */
module FrameProgress {
  import opened Folds
  import opened Ram
  import opened FrameReservation

  /** What thread `i` does next, with the table's hash. */
  ghost function NextStep(s: State, i: nat, hash: (int, int) -> nat): Step
    requires i < |s.threads| && s.table != []
  {
    match s.threads[i]
    case Inserting(pid, page, _, _) => ProbeOrInsert(hash(pid, page + 1) % |s.table|)
    case Ending(_, next, _) => if next < |s.table| then EndEntry else FinishEnd
    case Looking(_, _, _, _) => LookOn
    case Found(_, _, _) => Clear
    case _ => Credit
  }

  /** Thread `i` alone takes up to `n` steps, until it is done or has to wait. */
  ghost function Solo(s: State, i: nat, hash: (int, int) -> nat, n: nat): (r: State)
    requires Inv(s) && i < |s.threads|
    decreases n
  {
    if n == 0 || !Enabled(s, i, NextStep(s, i, hash)) then s
    else
      StepKeepsInv(s, i, NextStep(s, i, hash));
      ThreadsStayOk(s, i, NextStep(s, i, hash));
      Solo(Apply(s, i, NextStep(s, i, hash)), i, hash, n - 1)
  }

  lemma IdleStays(s: State, i: nat, hash: (int, int) -> nat, n: nat)
    requires Inv(s) && i < |s.threads| && s.threads[i].Idle?
    ensures Solo(s, i, hash, n) == s
  {
  }

  lemma OneStep(s: State, i: nat, hash: (int, int) -> nat, n: nat)
    requires Inv(s) && i < |s.threads| && n > 0 && Enabled(s, i, NextStep(s, i, hash))
    ensures var s1 := Apply(s, i, NextStep(s, i, hash));
            && Inv(s1) && |s1.threads| == |s.threads|
            && Solo(s, i, hash, n) == Solo(s1, i, hash, n - 1)
  {
    assert s.table != [];
    hide Inv, Apply, Enabled, NextStep;
    StepKeepsInv(s, i, NextStep(s, i, hash));
    ThreadsStayOk(s, i, NextStep(s, i, hash));
  }

  // ----- inserting the pages of a granted request

  /** The thread has inserted all its pages and is done; every used entry is as it was. */
  ghost predicate Inserted(s: State, r: State, i: nat, pid: int, page: int, owed: nat)
    requires i < |s.threads|
  {
    && r == s.(table := r.table, threads := s.threads[i := Idle])
    && |r.table| == |s.table|
    && (forall j :: page <= j < page + owed ==> Entry(pid, j) in r.table)
    && (forall k :: 0 <= k < |s.table| ==> r.table[k] == s.table[k] || (s.table[k].pid == -1 && InRange(r.table[k], pid, page, owed)))
    && Sum(r.table, FreeWeight) == Sum(s.table, FreeWeight) - owed
  }

  lemma FreeDistance(table: seq<Entry>, home: nat) returns (d: nat)
    requires home < |table| && exists k :: 0 <= k < |table| && table[k].pid == -1
    ensures d < |table| && table[Probe(home, |table|, d)].pid == -1
  {
    var k :| 0 <= k < |table| && table[k].pid == -1;
    ProbeReaches(home, |table|, k);
    d :| 0 <= d < |table| && Probe(home, |table|, d) == k;
  }

  /** One probe of a thread that inserts: it goes on from a used entry and takes a free one. */
  lemma OneProbe(s: State, i: nat, hash: (int, int) -> nat)
    requires Inv(s) && i < |s.threads| && s.threads[i].Inserting?
    ensures var t, step := s.threads[i], NextStep(s, i, hash);
            && s.table != [] && t.at < |s.table| && t.owed > 0 && t.pid >= 0 && Enabled(s, i, step)
            && Apply(s, i, step) ==
                 if s.table[t.at].pid != -1 then
                   s.(threads := s.threads[i := Inserting(t.pid, t.page, t.owed, NextEntry(s.table, t.at))])
                 else
                   s.(table := s.table[t.at := Entry(t.pid, t.page)],
                      threads := s.threads[i := if t.owed == 1 then Idle
                                                else Inserting(t.pid, t.page + 1, t.owed - 1, hash(t.pid, t.page + 1) % |s.table|)])
  {
    MoverIsOk(s, i);
    hide OneEach, Balanced, ThreadOk, Sum;
  }

  lemma Nearer(table: seq<Entry>, at: nat, d: nat)
    requires at < |table| && d < |table| && table[at].pid != -1 && table[Probe(at, |table|, d)].pid == -1
    ensures d > 0 && Probe(NextEntry(table, at), |table|, d - 1) == Probe(at, |table|, d)
  {
  }

  /** From the free entry `d` probes ahead, the pages are all inserted within a lap for each. */
  lemma {:induction false} InsertsAlone(s: State, i: nat, hash: (int, int) -> nat, n: nat, d: nat)
    requires Inv(s) && i < |s.threads| && s.threads[i].Inserting?
    requires s.threads[i].at < |s.table| && s.threads[i].owed > 0 && s.threads[i].pid >= 0
    requires d < |s.table| && s.table[Probe(s.threads[i].at, |s.table|, d)].pid == -1
    requires n >= d + 1 + (s.threads[i].owed - 1) * |s.table|
    ensures Inserted(s, Solo(s, i, hash, n), i, s.threads[i].pid, s.threads[i].page, s.threads[i].owed)
    decreases n, 0
  {
    hide Inv, Sum, Solo, Apply, Enabled, NextStep, Inserted, Probe;
    var t, size := s.threads[i], |s.table|;
    Laps(t.owed - 1, size);
    OneProbe(s, i, hash);
    OneStep(s, i, hash, n);
    var s1 := Apply(s, i, NextStep(s, i, hash));
    if s.table[t.at].pid != -1 {
      Nearer(s.table, t.at, d);
      InsertsAlone(s1, i, hash, n - 1, d - 1);
      SameInserted(s, s1, Solo(s1, i, hash, n - 1), i, t.pid, t.page, t.owed);
    } else if t.owed == 1 {
      IdleStays(s1, i, hash, n - 1);
      OneInserted(s, s1, i, t.at, t.pid, t.page);
    } else {
      NextInserted(s, s1, i, hash, n - 1);
    }
  }

  /** After one page of several is stored. */
  lemma {:induction false} NextInserted(s: State, s1: State, i: nat, hash: (int, int) -> nat, n: nat)
    requires i < |s.threads| && |s1.threads| == |s.threads| && s.threads[i].Inserting? && s.threads[i].owed > 1 && Inv(s1)
    requires s.threads[i].at < |s.table| && s.table[s.threads[i].at].pid == -1 && s.threads[i].pid >= 0
    requires var t := s.threads[i];
             && s1 == s.(table := s.table[t.at := Entry(t.pid, t.page)], threads := s.threads[i := s1.threads[i]])
             && s1.threads[i].Inserting? && s1.threads[i] == Inserting(t.pid, t.page + 1, t.owed - 1, s1.threads[i].at)
    requires n >= (s.threads[i].owed - 1) * |s.table| && n >= 0
    ensures Inserted(s, Solo(s1, i, hash, n), i, s.threads[i].pid, s.threads[i].page, s.threads[i].owed)
    decreases n, 1
  {
    var t := s.threads[i];
    MoverIsOk(s1, i);
    FreeFrameForEveryOwedPage(s1, i);
    hide Inv, Sum, Solo, Inserted, Probe;
    var d := FreeDistance(s1.table, s1.threads[i].at);
    Laps(t.owed - 2, |s.table|);
    InsertsAlone(s1, i, hash, n, d);
    InsertedAfter(s, s1, Solo(s1, i, hash, n), i, t.at, t.pid, t.page, t.owed);
  }

  lemma Laps(k: int, size: nat)
    ensures (k + 1) * size == k * size + size
    ensures k >= 0 ==> k * size >= 0
  {
  }

  lemma SameInserted(s: State, s1: State, r: State, i: nat, pid: int, page: int, owed: nat)
    requires i < |s.threads| && |s1.threads| == |s.threads| && s1 == s.(threads := s.threads[i := s1.threads[i]])
    requires Inserted(s1, r, i, pid, page, owed)
    ensures Inserted(s, r, i, pid, page, owed)
  {
    hide Sum;
  }

  lemma OneInserted(s: State, s1: State, i: nat, at: nat, pid: int, page: int)
    requires i < |s.threads| && at < |s.table| && s.table[at].pid == -1
    requires s1 == s.(table := s.table[at := Entry(pid, page)], threads := s.threads[i := Idle])
    requires pid >= 0
    ensures Inserted(s, s1, i, pid, page, 1)
  {
    SumUpdate(s.table, at, Entry(pid, page), FreeWeight);
    hide Sum;
    assert s1.table[at] == Entry(pid, page);
  }

  lemma InsertedAfter(s: State, s1: State, r: State, i: nat, at: nat, pid: int, page: int, owed: nat)
    requires i < |s.threads| && at < |s.table| && s.table[at].pid == -1 && owed > 1 && pid >= 0
    requires |s1.threads| == |s.threads|
    requires s1 == s.(table := s.table[at := Entry(pid, page)], threads := s.threads[i := s1.threads[i]])
    requires Inserted(s1, r, i, pid, page + 1, owed - 1)
    ensures Inserted(s, r, i, pid, page, owed)
  {
    SumUpdate(s.table, at, Entry(pid, page), FreeWeight);
    hide Sum;
    assert r.table[at] == s1.table[at] == Entry(pid, page);
    forall k | 0 <= k < |s.table|
      ensures r.table[k] == s.table[k] || (s.table[k].pid == -1 && InRange(r.table[k], pid, page, owed))
    {
      assert r.table[k] == s1.table[k] || (s1.table[k].pid == -1 && InRange(r.table[k], pid, page + 1, owed - 1));
    }
  }

  /** The pages of the request, one by one. */
  ghost predicate AllIn(table: seq<Entry>, pid: int, startPage: nat, pageCount: nat) {
    forall k :: startPage <= k < startPage + pageCount ==> Entry(pid, k) in table
  }

  ghost predicate NoneIn(table: seq<Entry>, pid: int, startPage: nat, pageCount: nat) {
    forall k :: startPage <= k < startPage + pageCount ==> Entry(pid, k) !in table
  }

  /** The counter is lowered by the pages and the pages are in free entries; no other entry
      and no other thread is touched. */
  ghost predicate Allotted(s: State, r: State, pid: int, startPage: nat, pageCount: nat) {
    && r.threads == s.threads && r.mutex == s.mutex && r.freeFrameCount == s.freeFrameCount - pageCount
    && |r.table| == |s.table| && AllIn(r.table, pid, startPage, pageCount)
    && (forall k :: 0 <= k < |s.table| ==>
          r.table[k] == s.table[k] || (s.table[k].pid == -1 && InRange(r.table[k], pid, startPage, pageCount)))
    && Sum(r.table, FreeWeight) == Sum(s.table, FreeWeight) - pageCount
  }

  lemma GrantedAlone(s: State, s1: State, i: nat, hash: (int, int) -> nat, pid: int, startPage: nat, pageCount: nat)
    requires i < |s.threads| && s.threads[i].Idle? && pid >= 0 && pageCount > 0 && Inv(s1)
    requires s.table != []
    requires s1 == s.(freeFrameCount := s.freeFrameCount - pageCount,
                      threads := s.threads[i := Inserting(pid, startPage, pageCount, hash(pid, startPage) % |s.table|)])
    ensures Allotted(s, Solo(s1, i, hash, pageCount * |s.table|), pid, startPage, pageCount)
  {
    FreeFrameForEveryOwedPage(s1, i);
    hide Inv, Sum, Solo;
    var d := FreeDistance(s1.table, s1.threads[i].at);
    Laps(pageCount - 1, |s.table|);
    InsertsAlone(s1, i, hash, pageCount * |s.table|, d);
    assert s1.threads[i := Idle] == s.threads;
  }

  /** A request for frames is granted if and only if the counter allows it.  A granted one
      ends, within a lap of the table for each page, with every page in the table; a refused
      one changes nothing. */
  lemma ReserveAlone(s: State, i: nat, hash: (int, int) -> nat, pid: int, startPage: nat, pageCount: nat)
    requires Inv(s) && i < |s.threads|
    requires Enabled(s, i, Reserve(pid, startPage, pageCount, hash(pid, startPage) % |s.table|))
    ensures var s1 := Apply(s, i, Reserve(pid, startPage, pageCount, hash(pid, startPage) % |s.table|));
            && Inv(s1) && |s1.threads| == |s.threads|
            && var r := Solo(s1, i, hash, pageCount * |s.table|);
            if pageCount <= s.freeFrameCount then Allotted(s, r, pid, startPage, pageCount) else r == s
  {
    var step := Reserve(pid, startPage, pageCount, hash(pid, startPage) % |s.table|);
    StepKeepsInv(s, i, step);
    ThreadsStayOk(s, i, step);
    var s1 := Apply(s, i, step);
    if s.freeFrameCount < pageCount || pageCount == 0 {
      IdleStays(s1, i, hash, pageCount * |s.table|);
    } else {
      hide Solo, Inv, Sum, Allotted, Unused;
      GrantedAlone(s, s1, i, hash, pid, startPage, pageCount);
    }
  }

  /** Asked for at least one page that the table does not have yet, the pages are in the
      table afterwards if and only if there were frames for all of them. */
  lemma InTableIffGranted(s: State, i: nat, hash: (int, int) -> nat, pid: int, startPage: nat, pageCount: nat)
    requires Inv(s) && i < |s.threads|
    requires Enabled(s, i, Reserve(pid, startPage, pageCount, hash(pid, startPage) % |s.table|))
    requires NoneIn(s.table, pid, startPage, pageCount)
    ensures var s1 := Apply(s, i, Reserve(pid, startPage, pageCount, hash(pid, startPage) % |s.table|));
            && Inv(s1) && |s1.threads| == |s.threads|
            && (AllIn(Solo(s1, i, hash, pageCount * |s.table|).table, pid, startPage, pageCount)
                <==> pageCount <= s.freeFrameCount)
  {
    ReserveAlone(s, i, hash, pid, startPage, pageCount);
    assert s.freeFrameCount >= 0;
    hide Inv, Apply, Enabled, Solo, Sum;
    assert pageCount > 0 ==> Entry(pid, startPage) !in s.table;
  }

  // ----- the end of a program

  /** Every entry of the program from `next` on is free, and the counter has what the thread
      freed and the entries that were freed now. */
  ghost predicate Ended(s: State, r: State, i: nat, pid: int, next: nat, freed: nat)
    requires i < |s.threads|
  {
    && |r.table| == |s.table|
    && (forall k :: 0 <= k < |s.table| ==> r.table[k] == if k >= next && s.table[k].pid == pid then FREE else s.table[k])
    && r == State(r.table, s.freeFrameCount + freed + Sum(r.table, FreeWeight) - Sum(s.table, FreeWeight), false,
                  s.threads[i := Idle])
  }

  /** One step of a thread that ends a program. */
  lemma OneEntry(s: State, i: nat, hash: (int, int) -> nat)
    requires Inv(s) && i < |s.threads| && s.threads[i].Ending?
    ensures var t, step := s.threads[i], NextStep(s, i, hash);
            && s.table != [] && t.next <= |s.table| && t.pid >= 0 && Enabled(s, i, step)
            && Apply(s, i, step) ==
                 if t.next == |s.table| then
                   State(s.table, s.freeFrameCount + t.freed, false, s.threads[i := Idle])
                 else if s.table[t.next].pid == t.pid then
                   s.(table := s.table[t.next := FREE], threads := s.threads[i := Ending(t.pid, t.next + 1, t.freed + 1)])
                 else s.(threads := s.threads[i := Ending(t.pid, t.next + 1, t.freed)])
  {
    assert ThreadOk(s.threads[i], s.table);
    hide OneEach, Balanced, Sum;
  }

  lemma EndedAfter(s: State, s1: State, r: State, i: nat, pid: int, next: nat, freed: nat)
    requires i < |s.threads| && |s1.threads| == |s.threads| && next < |s.table| && pid >= 0
    requires if s.table[next].pid == pid then
               && s1 == s.(table := s.table[next := FREE], threads := s.threads[i := s1.threads[i]])
               && Ended(s1, r, i, pid, next + 1, freed + 1)
             else s1 == s.(threads := s.threads[i := s1.threads[i]]) && Ended(s1, r, i, pid, next + 1, freed)
    ensures Ended(s, r, i, pid, next, freed)
  {
    SumUpdate(s.table, next, FREE, FreeWeight);
    hide Sum;
    assert s1.threads[i := Idle] == s.threads[i := Idle];
  }

  lemma {:induction false} EndsAlone(s: State, i: nat, hash: (int, int) -> nat)
    requires Inv(s) && i < |s.threads| && s.threads[i].Ending?
    requires s.threads[i].pid >= 0 && s.threads[i].next <= |s.table|
    ensures var t := s.threads[i];
            Ended(s, Solo(s, i, hash, |s.table| - t.next + 1), i, t.pid, t.next, t.freed)
    decreases |s.table| - s.threads[i].next
  {
    hide Inv, Sum, Solo, Apply, Enabled, NextStep, Ended;
    var t, n := s.threads[i], |s.table| - s.threads[i].next + 1;
    OneEntry(s, i, hash);
    OneStep(s, i, hash, n);
    var s1 := Apply(s, i, NextStep(s, i, hash));
    if t.next == |s.table| {
      IdleStays(s1, i, hash, n - 1);
      NothingLeft(s, s1, i, t.pid, t.freed);
    } else {
      EndsAlone(s1, i, hash);
      EndedAfter(s, s1, Solo(s1, i, hash, n - 1), i, t.pid, t.next, t.freed);
    }
  }

  lemma NothingLeft(s: State, s1: State, i: nat, pid: int, freed: nat)
    requires i < |s.threads| && s1 == State(s.table, s.freeFrameCount + freed, false, s.threads[i := Idle])
    ensures Ended(s, s1, i, pid, |s.table|, freed)
  {
    hide Sum;
  }

  /** The end of a program frees exactly its entries and credits all of them. */
  lemma EndAlone(s: State, i: nat, hash: (int, int) -> nat, pid: int)
    requires Inv(s) && i < |s.threads| && Enabled(s, i, BeginEnd(pid))
    ensures var s1 := Apply(s, i, BeginEnd(pid));
            && Inv(s1) && |s1.threads| == |s.threads|
            && var r := Solo(s1, i, hash, |s.table| + 1);
            && r.threads == s.threads && !r.mutex && |r.table| == |s.table|
            && (forall k :: 0 <= k < |s.table| ==> r.table[k] == if s.table[k].pid == pid then FREE else s.table[k])
            && r.freeFrameCount - s.freeFrameCount == Sum(r.table, FreeWeight) - Sum(s.table, FreeWeight)
  {
    StepKeepsInv(s, i, BeginEnd(pid));
    ThreadsStayOk(s, i, BeginEnd(pid));
    EndsAlone(Apply(s, i, BeginEnd(pid)), i, hash);
    hide Inv, Sum, Solo;
    assert s.threads[i := Idle] == s.threads;
  }

  // ----- one page given back

  lemma NextProbe(size: nat, home: nat, c: nat)
    requires home < size && c < size
    ensures Probe(home, size, c) < size
    ensures (if Probe(home, size, c) + 1 == size then 0 else Probe(home, size, c) + 1) ==
            (if c + 1 == size then home else Probe(home, size, c + 1))
  {
  }

  /** The walk has seen the entries before, and goes on to the page or through the lap. */
  lemma {:induction false} LooksAlone(s: State, i: nat, hash: (int, int) -> nat, home: nat, n: nat)
    requires Inv(s) && i < |s.threads| && s.threads[i].Looking? && !s.mutex && home < |s.table|
    requires s.threads[i].pid >= 0 && s.threads[i].collisions <= |s.table|
    requires var c := s.threads[i].collisions; s.threads[i].at == if c == |s.table| then home else Probe(home, |s.table|, c)
    requires forall c :: 0 <= c < s.threads[i].collisions ==>
               s.table[Probe(home, |s.table|, c)] != Entry(s.threads[i].pid, s.threads[i].page)
    requires n >= |s.table| - s.threads[i].collisions + 3
    ensures var r, e := Solo(s, i, hash, n), Entry(s.threads[i].pid, s.threads[i].page);
            if e in s.table then
              exists at :: 0 <= at < |s.table| && s.table[at] == e &&
                r == s.(table := s.table[at := FREE], freeFrameCount := s.freeFrameCount + 1, threads := s.threads[i := Idle])
            else r == s.(threads := s.threads[i := Idle])
    decreases |s.table| - s.threads[i].collisions
  {
    var t, e := s.threads[i], Entry(s.threads[i].pid, s.threads[i].page);
    OneStep(s, i, hash, n);
    var s1 := Apply(s, i, NextStep(s, i, hash));
    if t.collisions == |s.table| {
      IdleStays(s1, i, hash, n - 1);
      if e in s.table {
        var k :| 0 <= k < |s.table| && s.table[k] == e;
        ProbeReaches(home, |s.table|, k);
        assert false;
      }
    } else if s.table[t.at] == e {
      ClearsAlone(s, s1, i, hash, n - 1, t.at);
    } else {
      NextProbe(|s.table|, home, t.collisions);
      hide Inv, Solo;
      LooksAlone(s1, i, hash, home, n - 1);
      assert s1.threads[i := Idle] == s.threads[i := Idle];
    }
  }

  lemma ClearsAlone(s: State, s1: State, i: nat, hash: (int, int) -> nat, n: nat, at: nat)
    requires i < |s.threads| && at < |s.table| && n >= 2
    requires s1 == s.(threads := s.threads[i := Found(s.table[at].pid, s.table[at].page, at)])
    requires Inv(s1) && !s.mutex
    ensures Solo(s1, i, hash, n) ==
            s.(table := s.table[at := FREE], freeFrameCount := s.freeFrameCount + 1, threads := s.threads[i := Idle])
  {
    OneStep(s1, i, hash, n);
    var s2 := Apply(s1, i, Clear);
    OneStep(s2, i, hash, n - 1);
    var s3 := Apply(s2, i, Credit);
    IdleStays(s3, i, hash, n - 2);
    hide Inv;
    assert s3.threads == s.threads[i := Idle];
  }

  /** Giving back a page frees its entry and credits it, if the page is in the table, and
      changes nothing otherwise. */
  lemma FreeAlone(s: State, i: nat, hash: (int, int) -> nat, pid: int, page: int)
    requires Inv(s) && i < |s.threads| && !s.mutex
    requires Enabled(s, i, BeginFree(pid, page, hash(pid, page) % |s.table|))
    ensures var s1 := Apply(s, i, BeginFree(pid, page, hash(pid, page) % |s.table|));
            && Inv(s1) && |s1.threads| == |s.threads|
            && var r := Solo(s1, i, hash, |s.table| + 3);
            if Entry(pid, page) in s.table then
              exists at :: 0 <= at < |s.table| && s.table[at] == Entry(pid, page) &&
                r == s.(table := s.table[at := FREE], freeFrameCount := s.freeFrameCount + 1)
            else r == s
  {
    var home := hash(pid, page) % |s.table|;
    StepKeepsInv(s, i, BeginFree(pid, page, home));
    ThreadsStayOk(s, i, BeginFree(pid, page, home));
    var s1 := Apply(s, i, BeginFree(pid, page, home));
    hide Solo, Inv;
    LooksAlone(s1, i, hash, home, |s.table| + 3);
    assert s1.threads[i := Idle] == s.threads;
  }
}
