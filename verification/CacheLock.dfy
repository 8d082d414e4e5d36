/** The lock of the page cache (Memory/src/functions/cache.c:64-85 and its callers
    memory.c:44-77, 110-136): any number of threads search the cache at the same time, and
    replacing an entry excludes all of them.

    `accessCountLock` is a spin lock around `accessCount`; the first searcher takes
    `replaceLock` and the last one gives it back, so `replaceLock` is a binary semaphore. */
module CacheLock {
  import opened Folds

  datatype Pc =
    | Away
    // cache_access_lock
    | WantCount             // waiting for accessCountLock
    | Counting              // about to increment accessCount
    | NeedReplaceLock       // first one in: waiting for replaceLock, keeping accessCountLock
    | Counted               // about to release accessCountLock
    | Searching
    // cache_access_unlock
    | WantUncount
    | Uncounting            // about to decrement accessCount
    | GiveReplaceLock       // last one out: about to release replaceLock
    | Uncounted
    // a replacement: lock, replace, unlock
    | WantReplace
    | Replacing

  datatype State = State(spin: bool, accessCount: int, replaceLock: bool, pcs: seq<Pc>)

  // ----- weights: where a thread counts

  function Needs(p: Pc): int { if p.NeedReplaceLock? then 1 else 0 }

  function Gives(p: Pc): int { if p.GiveReplaceLock? then 1 else 0 }

  function SpinsElsewhere(p: Pc): int {
    if p.Counting? || p.Counted? || p.Uncounting? || p.Uncounted? then 1 else 0
  }

  function IsCounted(p: Pc): int {
    if p.NeedReplaceLock? || p.Counted? || p.Searching? || p.WantUncount? || p.Uncounting? then 1 else 0
  }

  function Replaces(p: Pc): int { if p.Replacing? then 1 else 0 }

  function Bit(b: bool): int { if b then 1 else 0 }

  /** The invariant, on the sums alone. */
  predicate Consistent(spin: bool, accessCount: int, replaceLock: bool,
                       needs: int, gives: int, elsewhere: int, counted: int, replacing: int)
  {
    // accessCountLock has the one holder that is inside
    && Bit(spin) == needs + gives + elsewhere
    && accessCount == counted
    // the two moments at which the count and replaceLock disagree
    && (needs > 0 ==> accessCount == 1)
    && (gives > 0 ==> accessCount == 0)
    // replaceLock is held by one replacer or on behalf of the searchers
    && Bit(replaceLock) == replacing + Bit(accessCount > 0) - needs + gives
  }

  ghost predicate Inv(s: State) {
    Consistent(s.spin, s.accessCount, s.replaceLock, Sum(s.pcs, Needs), Sum(s.pcs, Gives),
               Sum(s.pcs, SpinsElsewhere), Sum(s.pcs, IsCounted), Sum(s.pcs, Replaces))
  }

  predicate Enabled(s: State, i: nat)
    requires i < |s.pcs|
  {
    match s.pcs[i]
    case WantCount => !s.spin
    case WantUncount => !s.spin
    case NeedReplaceLock => !s.replaceLock
    case WantReplace => !s.replaceLock
    case _ => true
  }

  /** One step of thread `i`; a thread that is away chooses whether to search or replace. */
  function Apply(s: State, i: nat, search: bool): State
    requires i < |s.pcs|
    ensures |Apply(s, i, search).pcs| == |s.pcs|
  {
    match s.pcs[i]
    case Away => s.(pcs := s.pcs[i := if search then WantCount else WantReplace])
    case WantCount => s.(spin := true, pcs := s.pcs[i := Counting])
    case Counting =>
      s.(accessCount := s.accessCount + 1,
         pcs := s.pcs[i := if s.accessCount + 1 == 1 then NeedReplaceLock else Counted])
    case NeedReplaceLock => s.(replaceLock := true, pcs := s.pcs[i := Counted])
    case Counted => s.(spin := false, pcs := s.pcs[i := Searching])
    case Searching => s.(pcs := s.pcs[i := WantUncount])
    case WantUncount => s.(spin := true, pcs := s.pcs[i := Uncounting])
    case Uncounting =>
      s.(accessCount := s.accessCount - 1,
         pcs := s.pcs[i := if s.accessCount - 1 == 0 then GiveReplaceLock else Uncounted])
    case GiveReplaceLock => s.(replaceLock := false, pcs := s.pcs[i := Uncounted])
    case Uncounted => s.(spin := false, pcs := s.pcs[i := Away])
    case WantReplace => s.(replaceLock := true, pcs := s.pcs[i := Replacing])
    case Replacing => s.(replaceLock := false, pcs := s.pcs[i := Away])
  }

  lemma Moved(pcs: seq<Pc>, i: nat, p: Pc)
    requires i < |pcs|
    ensures Sum(pcs[i := p], Needs) == Sum(pcs, Needs) - Needs(pcs[i]) + Needs(p)
    ensures Sum(pcs[i := p], Gives) == Sum(pcs, Gives) - Gives(pcs[i]) + Gives(p)
    ensures Sum(pcs[i := p], SpinsElsewhere) == Sum(pcs, SpinsElsewhere) - SpinsElsewhere(pcs[i]) + SpinsElsewhere(p)
    ensures Sum(pcs[i := p], IsCounted) == Sum(pcs, IsCounted) - IsCounted(pcs[i]) + IsCounted(p)
    ensures Sum(pcs[i := p], Replaces) == Sum(pcs, Replaces) - Replaces(pcs[i]) + Replaces(p)
  {
    SumUpdate(pcs, i, p, Needs);
    SumUpdate(pcs, i, p, Gives);
    SumUpdate(pcs, i, p, SpinsElsewhere);
    SumUpdate(pcs, i, p, IsCounted);
    SumUpdate(pcs, i, p, Replaces);
  }

  /** Each thread weighs no more than all together. */
  lemma Bounds(pcs: seq<Pc>, i: nat)
    requires i < |pcs|
    ensures 0 <= Needs(pcs[i]) <= Sum(pcs, Needs)
    ensures 0 <= Gives(pcs[i]) <= Sum(pcs, Gives)
    ensures 0 <= SpinsElsewhere(pcs[i]) <= Sum(pcs, SpinsElsewhere)
    ensures 0 <= IsCounted(pcs[i]) <= Sum(pcs, IsCounted)
    ensures 0 <= Replaces(pcs[i]) <= Sum(pcs, Replaces)
  {
    SumNonNegative(pcs, Needs);
    SumNonNegative(pcs, Gives);
    SumNonNegative(pcs, SpinsElsewhere);
    SumNonNegative(pcs, IsCounted);
    SumNonNegative(pcs, Replaces);
  }

  lemma StepKeepsInv(s: State, i: nat, search: bool)
    requires Inv(s) && i < |s.pcs| && Enabled(s, i)
    ensures Inv(Apply(s, i, search))
  {
    hide Sum, Consistent, Apply, Needs, Gives, SpinsElsewhere, IsCounted, Replaces;
    OnlyMoverChanges(s, i, search);
    Moved(s.pcs, i, Apply(s, i, search).pcs[i]);
    Bounds(s.pcs, i);
    MoveKeepsSums(s, i, search, Sum(s.pcs, Needs), Sum(s.pcs, Gives), Sum(s.pcs, SpinsElsewhere),
                  Sum(s.pcs, IsCounted), Sum(s.pcs, Replaces));
  }

  lemma OnlyMoverChanges(s: State, i: nat, search: bool)
    requires i < |s.pcs|
    ensures |Apply(s, i, search).pcs| == |s.pcs|
    ensures Apply(s, i, search).pcs == s.pcs[i := Apply(s, i, search).pcs[i]]
  {
  }

  lemma MoveKeepsSums(s: State, i: nat, search: bool,
                      needs: int, gives: int, elsewhere: int, counted: int, replacing: int)
    requires i < |s.pcs| && Enabled(s, i)
    requires Consistent(s.spin, s.accessCount, s.replaceLock, needs, gives, elsewhere, counted, replacing)
    requires Needs(s.pcs[i]) <= needs && Gives(s.pcs[i]) <= gives && SpinsElsewhere(s.pcs[i]) <= elsewhere
    requires 0 <= needs && 0 <= gives && 0 <= elsewhere
    requires IsCounted(s.pcs[i]) <= counted && Replaces(s.pcs[i]) <= replacing
    ensures var s' := Apply(s, i, search);
            var p, p' := s.pcs[i], s'.pcs[i];
            Consistent(s'.spin, s'.accessCount, s'.replaceLock,
                       needs - Needs(p) + Needs(p'), gives - Gives(p) + Gives(p'),
                       elsewhere - SpinsElsewhere(p) + SpinsElsewhere(p'),
                       counted - IsCounted(p) + IsCounted(p'), replacing - Replaces(p) + Replaces(p'))
  {
  }

  /** No replacer is inside together with a searcher past `cache_access_lock`, nor with
      another replacer. */
  lemma ReplacerAlone(s: State, i: nat, j: nat)
    requires Inv(s) && i < |s.pcs| && j < |s.pcs| && i != j && s.pcs[i].Replacing?
    ensures !s.pcs[j].Searching? && !s.pcs[j].Replacing?
  {
    Bounds(s.pcs, i);
    Bounds(s.pcs, j);
    SumTwo(s.pcs, Replaces, i, j);
    hide Sum;
    if s.pcs[j].Searching? && Sum(s.pcs, Needs) > 0 {
      SearcherBesideNeeder(s, j);
    }
  }

  /** While a searcher is inside, the first one in is not still waiting. */
  lemma SearcherBesideNeeder(s: State, j: nat)
    requires Inv(s) && j < |s.pcs| && s.pcs[j].Searching?
    ensures Sum(s.pcs, Needs) == 0
  {
    SumNonNegative(s.pcs, Needs);
    if Sum(s.pcs, Needs) > 0 {
      var k :| 0 <= k < |s.pcs| && Needs(s.pcs[k]) > 0;
      SumTwo(s.pcs, IsCounted, j, k);
    }
  }

  /** `replaceLock` is held for the searchers exactly while the count is positive; it can
      differ only while a thread inside `accessCountLock` is changing it. */
  lemma HeldExactlyWhileCounted(s: State)
    requires Inv(s)
    ensures !s.spin ==> (s.replaceLock <==> s.accessCount > 0 || exists i :: 0 <= i < |s.pcs| && s.pcs[i].Replacing?)
    ensures s.accessCount >= 0
    ensures s.accessCount > 0 && (forall i :: 0 <= i < |s.pcs| ==> !s.pcs[i].NeedReplaceLock?) ==>
              s.replaceLock && forall i :: 0 <= i < |s.pcs| ==> !s.pcs[i].Replacing?
  {
    SumNonNegative(s.pcs, Needs);
    SumNonNegative(s.pcs, Gives);
    SumNonNegative(s.pcs, SpinsElsewhere);
    SumNonNegative(s.pcs, IsCounted);
    SumNonNegative(s.pcs, Replaces);
    forall i | 0 <= i < |s.pcs| && s.pcs[i].Replacing?
      ensures Sum(s.pcs, Replaces) > 0
    {
      assert Replaces(s.pcs[i]) > 0;
    }
    hide Sum;
  }

  lemma Someone(pcs: seq<Pc>, w: Pc -> int) returns (j: nat)
    requires Sum(pcs, w) > 0 && forall p :: p in pcs ==> w(p) >= 0
    ensures j < |pcs| && w(pcs[j]) > 0
  {
    SumNonNegative(pcs, w);
    j :| 0 <= j < |pcs| && w(pcs[j]) > 0;
  }

  /** As long as some thread is inside, some thread inside can move. */
  lemma NoDeadlock(s: State, i: nat)
    requires Inv(s) && i < |s.pcs| && !s.pcs[i].Away?
    ensures exists j :: 0 <= j < |s.pcs| && !s.pcs[j].Away? && Enabled(s, j)
  {
    Bounds(s.pcs, i);
    hide Sum;
    var j: nat := i;
    if Sum(s.pcs, Replaces) > 0 {
      j := Someone(s.pcs, Replaces);
    } else if Sum(s.pcs, Gives) > 0 {
      j := Someone(s.pcs, Gives);
    } else if Sum(s.pcs, SpinsElsewhere) > 0 {
      j := Someone(s.pcs, SpinsElsewhere);
    } else if Sum(s.pcs, Needs) > 0 {
      j := Someone(s.pcs, Needs);
    } else if s.accessCount > 0 {
      j := Someone(s.pcs, IsCounted);
      Bounds(s.pcs, j);
    }
    assert Enabled(s, j);
  }

  predicate Initial(s: State) {
    !s.spin && s.accessCount == 0 && !s.replaceLock && forall i :: 0 <= i < |s.pcs| ==> s.pcs[i] == Away
  }

  /** Runs a schedule of threads; a thread that cannot move keeps waiting. */
  ghost function Execute(s: State, schedule: seq<(nat, bool)>): (r: State)
    requires Inv(s)
    ensures Inv(r)
    decreases |schedule|
  {
    if schedule == [] then s
    else
      var (i, search) := schedule[0];
      if i < |s.pcs| && Enabled(s, i) then
        StepKeepsInv(s, i, search);
        Execute(Apply(s, i, search), schedule[1..])
      else
        Execute(s, schedule[1..])
  }

  /** Every reachable state, for any number of threads: exclusion and no deadlock. */
  lemma LockProtocol(s: State, schedule: seq<(nat, bool)>)
    requires Initial(s)
    ensures Inv(s)
    ensures var r := Execute(s, schedule);
            forall i, j :: 0 <= i < |r.pcs| && 0 <= j < |r.pcs| && i != j && r.pcs[i].Replacing? ==>
              !r.pcs[j].Searching? && !r.pcs[j].Replacing?
    ensures var r := Execute(s, schedule);
            (exists i :: 0 <= i < |r.pcs| && !r.pcs[i].Away?) ==>
              exists j :: 0 <= j < |r.pcs| && !r.pcs[j].Away? && Enabled(r, j)
  {
    SumZero(s.pcs, Needs);
    SumZero(s.pcs, Gives);
    SumZero(s.pcs, SpinsElsewhere);
    SumZero(s.pcs, IsCounted);
    SumZero(s.pcs, Replaces);
    var r := Execute(s, schedule);
    forall i, j | 0 <= i < |r.pcs| && 0 <= j < |r.pcs| && i != j && r.pcs[i].Replacing?
      ensures !r.pcs[j].Searching? && !r.pcs[j].Replacing?
    {
      ReplacerAlone(r, i, j);
    }
    if i :| 0 <= i < |r.pcs| && !r.pcs[i].Away? {
      NoDeadlock(r, i);
    }
  }

  // ----- who gets in

  /** Thread `i` moves `n` times. */
  function Turns(i: nat, search: bool, n: nat): seq<(nat, bool)> {
    if n == 0 then [] else [(i, search)] + Turns(i, search, n - 1)
  }

  lemma OneTurn(s: State, i: nat, search: bool, n: nat)
    requires Inv(s) && i < |s.pcs| && Enabled(s, i) && n > 0
    ensures Inv(Apply(s, i, search))
    ensures Execute(s, Turns(i, search, n)) == Execute(Apply(s, i, search), Turns(i, search, n - 1))
  {
    StepKeepsInv(s, i, search);
    hide Inv, Apply, Enabled;
  }

  /** A thread that searches gets in by itself, whoever else is searching, unless a
      replacement is in progress. */
  lemma SearcherEnters(s: State, i: nat)
    requires Inv(s) && i < |s.pcs| && s.pcs[i].Away? && !s.spin
    requires forall k :: 0 <= k < |s.pcs| ==> !s.pcs[k].Replacing?
    ensures Execute(s, Turns(i, true, if s.accessCount == 0 then 5 else 4)) ==
            State(false, s.accessCount + 1, true, s.pcs[i := Searching])
  {
    hide Inv, Execute, Turns;
    HeldExactlyWhileCounted(s);
    var n := if s.accessCount == 0 then 5 else 4;
    OneTurn(s, i, true, n);
    var s1 := Apply(s, i, true);
    OneTurn(s1, i, true, n - 1);
    var s2 := Apply(s1, i, true);
    OneTurn(s2, i, true, n - 2);
    var s3 := Apply(s2, i, true);
    OneTurn(s3, i, true, n - 3);
    var s4 := Apply(s3, i, true);
    if s.accessCount == 0 {
      OneTurn(s4, i, true, 1);
      NoTurn(Apply(s4, i, true), i, true);
    } else {
      NoTurn(s4, i, true);
    }
  }

  lemma NoTurn(s: State, i: nat, search: bool)
    requires Inv(s)
    ensures Execute(s, Turns(i, search, 0)) == s
  {
  }

  /** A replacer gets in by itself when nobody is inside. */
  lemma ReplacerEnters(s: State, i: nat)
    requires Inv(s) && i < |s.pcs| && s.pcs[i].Away? && !s.replaceLock
    ensures Execute(s, Turns(i, false, 2)) == s.(replaceLock := true, pcs := s.pcs[i := Replacing])
  {
    hide Inv, Execute, Turns;
    OneTurn(s, i, false, 2);
    var s1 := Apply(s, i, false);
    OneTurn(s1, i, false, 1);
    NoTurn(Apply(s1, i, false), i, false);
  }

  lemma {:induction false} OneAfterTheOther(s: State, a: seq<(nat, bool)>, b: seq<(nat, bool)>)
    requires Inv(s)
    ensures Execute(s, a + b) == Execute(Execute(s, a), b)
    decreases |a|
  {
    hide Inv, Apply, Enabled;
    if a == [] {
      assert a + b == b;
    } else {
      assert (a + b)[0] == a[0] && (a + b)[1..] == a[1..] + b;
      var (i, search) := a[0];
      if i < |s.pcs| && Enabled(s, i) {
        StepKeepsInv(s, i, search);
        OneAfterTheOther(Apply(s, i, search), a[1..], b);
      } else {
        OneAfterTheOther(s, a[1..], b);
      }
    }
  }

  /** Any number of threads can be searching at the same time. */
  lemma {:induction false} AllSearchTogether(s: State, k: nat) returns (schedule: seq<(nat, bool)>)
    requires Initial(s) && Inv(s) && k <= |s.pcs|
    ensures var r := Execute(s, schedule);
            && |r.pcs| == |s.pcs| && !r.spin && r.accessCount == k
            && forall i :: 0 <= i < |s.pcs| ==> r.pcs[i] == if i < k then Searching else Away
    decreases k
  {
    hide Inv, Turns;
    if k == 0 {
      schedule := [];
    } else {
      var before := AllSearchTogether(s, k - 1);
      hide Execute;
      var r := Execute(s, before);
      SearcherEnters(r, k - 1);
      var more := Turns(k - 1, true, if r.accessCount == 0 then 5 else 4);
      OneAfterTheOther(s, before, more);
      schedule := before + more;
    }
  }
}
