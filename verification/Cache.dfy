/** The page cache of the Memory process (Memory/src/functions/cache.c): a fixed number
    of slots, a quota per process, a list of slots for each process that makes the
    least-recently-used search cheap, and a counter of the slots in use. */
module Cache {
  import opened Bytes
  import opened Folds
  import opened Lists
  import opened Ram

  datatype CacheEntry = CacheEntry(pid: int, page: int, lastAccess: int, content: seq<byte>)

  /** `t_proccessEntries`: the slots that hold pages of one process. */
  datatype ProcessEntries = ProcessEntries(pid: int, entries: seq<nat>)

  /** 1 for a slot in use: summing it counts them. */
  function UsedWeight(e: CacheEntry): int {
    if e.pid == -1 then 0 else 1
  }

  function KeyOf(e: CacheEntry): Entry {
    Entry(e.pid, e.page)
  }

  /** `slots` lists every used slot under its own (PID, page), so that no page is cached
      twice, and `cached` is what the cache answers for that page. */
  ghost predicate SlotsOk(c: seq<CacheEntry>, frameSize: nat, now: int,
                          slots: map<Entry, nat>, cached: map<Entry, seq<byte>>)
  {
    && (forall i :: 0 <= i < |c| ==> |c[i].content| == frameSize && SlotOk(c[i], now))
    && (forall i :: 0 <= i < |c| && c[i].pid != -1 ==> KeyOf(c[i]) in slots && slots[KeyOf(c[i])] == i)
    && cached.Keys == slots.Keys
    && (forall e :: e in slots ==> e.pid >= 0 && slots[e] < |c| && KeyOf(c[slots[e]]) == e)
    && (forall e :: e in slots ==> cached[e] == c[slots[e]].content)
  }

  predicate SlotOk(e: CacheEntry, now: int) {
    if e.pid == -1 then e.page == -1 else e.pid >= 0 && e.lastAccess < now
  }

  /** The list of a process holds exactly the slots with its PID, each once. */
  ghost predicate OwnList(c: seq<CacheEntry>, p: ProcessEntries) {
    && p.pid >= 0
    && NoDuplicates(p.entries)
    && forall s :: s in p.entries <==> 0 <= s < |c| && c[s].pid == p.pid
  }

  /** The lists partition the used slots by PID and respect the quota. */
  ghost predicate ListsOk(c: seq<CacheEntry>, lists: seq<ProcessEntries>, perProcess: nat) {
    && (forall i, j :: 0 <= i < j < |lists| ==> lists[i].pid != lists[j].pid)
    && (forall i :: 0 <= i < |lists| ==> OwnList(c, lists[i]) && |lists[i].entries| <= perProcess)
    && (forall s :: 0 <= s < |c| && c[s].pid != -1 ==> exists i :: 0 <= i < |lists| && lists[i].pid == c[s].pid)
  }

  /** `list_find(..., hasPID)` */
  function FindList(lists: seq<ProcessEntries>, pid: int): (r: int)
    ensures -1 <= r < |lists|
    ensures r >= 0 ==> lists[r].pid == pid
    ensures r < 0 ==> (forall i :: 0 <= i < |lists| ==> lists[i].pid != pid)
  {
    if lists == [] then -1
    else if lists[0].pid == pid then 0
    else
      var r := FindList(lists[1..], pid);
      assert forall i :: 1 <= i < |lists| ==> lists[i] == lists[1..][i - 1];
      if r < 0 then -1 else r + 1
  }

  /** How many slots the lists grant to `pid`. */
  function ListSize(lists: seq<ProcessEntries>, pid: int): nat {
    var i := FindList(lists, pid);
    if i < 0 then 0 else |lists[i].entries|
  }

  /** `list_remove_by_condition` with an equality test. */
  function RemoveFirst(s: seq<nat>, x: nat): seq<nat> {
    if s == [] then [] else if s[0] == x then s[1..] else [s[0]] + RemoveFirst(s[1..], x)
  }

  lemma {:induction false} RemoveFirstKeeps(s: seq<nat>, x: nat)
    requires NoDuplicates(s)
    ensures NoDuplicates(RemoveFirst(s, x))
    ensures forall y :: y in RemoveFirst(s, x) <==> y in s && y != x
    ensures |RemoveFirst(s, x)| <= |s|
  {
    if s != [] {
      RemoveFirstKeeps(s[1..], x);
      assert forall y :: y in s <==> y == s[0] || y in s[1..];
      assert forall j :: 1 <= j < |s| ==> s[j] == s[1..][j - 1];
      assert s[0] !in s[1..];
    }
  }

  // ----- what one store into a slot does to one process's list

  lemma ListUntouched(c: seq<CacheEntry>, p: ProcessEntries, s: nat, e: CacheEntry)
    requires OwnList(c, p) && s < |c|
    requires (c[s].pid == p.pid) == (e.pid == p.pid)
    ensures OwnList(c[s := e], p)
  {
  }

  lemma ListGains(c: seq<CacheEntry>, p: ProcessEntries, s: nat, e: CacheEntry)
    requires OwnList(c, p) && s < |c| && c[s].pid != p.pid == e.pid
    ensures OwnList(c[s := e], p.(entries := p.entries + [s]))
  {
    assert s !in p.entries;
  }

  lemma ListLoses(c: seq<CacheEntry>, p: ProcessEntries, s: nat, e: CacheEntry)
    requires OwnList(c, p) && s < |c| && c[s].pid == p.pid != e.pid
    ensures OwnList(c[s := e], p.(entries := RemoveFirst(p.entries, s)))
    ensures |RemoveFirst(p.entries, s)| <= |p.entries|
  {
    RemoveFirstKeeps(p.entries, s);
  }

  lemma NewListOk(c: seq<CacheEntry>, lists: seq<ProcessEntries>, perProcess: nat, pid: int)
    requires ListsOk(c, lists, perProcess) && pid >= 0 && FindList(lists, pid) < 0
    ensures ListsOk(c, lists + [ProcessEntries(pid, [])], perProcess)
  {
    var lists' := lists + [ProcessEntries(pid, [])];
    assert OwnList(c, ProcessEntries(pid, [])) by {
      forall s | 0 <= s < |c| ensures c[s].pid != pid {
      }
    }
    forall s | 0 <= s < |c| && c[s].pid != -1
      ensures exists i :: 0 <= i < |lists'| && lists'[i].pid == c[s].pid
    {
      var i :| 0 <= i < |lists| && lists[i].pid == c[s].pid;
      assert lists'[i].pid == c[s].pid;
    }
  }

  /** The lists after slot `s` went to the process of list `i`: its previous owner, if any,
      gives it up. */
  function Reassign(c: seq<CacheEntry>, lists: seq<ProcessEntries>, i: nat, s: nat): seq<ProcessEntries>
    requires i < |lists| && s < |c|
  {
    var pid, owner := lists[i].pid, c[s].pid;
    if owner == pid then lists
    else
      var j := FindList(lists, owner);
      var given := if j < 0 then lists else lists[j := lists[j].(entries := RemoveFirst(lists[j].entries, s))];
      given[i := given[i].(entries := given[i].entries + [s])]
  }

  lemma ReassignKeepsLists(c: seq<CacheEntry>, lists: seq<ProcessEntries>, perProcess: nat,
                           i: nat, s: nat, e: CacheEntry)
    requires ListsOk(c, lists, perProcess) && i < |lists| && s < |c| && e.pid == lists[i].pid
    requires c[s].pid == e.pid || |lists[i].entries| < perProcess
    ensures ListsOk(c[s := e], Reassign(c, lists, i, s), perProcess)
  {
    var c', lists' := c[s := e], Reassign(c, lists, i, s);
    var j := FindList(lists, c[s].pid);
    assert |lists'| == |lists| && forall k :: 0 <= k < |lists| ==> lists'[k].pid == lists[k].pid;
    forall k | 0 <= k < |lists'| ensures OwnList(c', lists'[k]) && |lists'[k].entries| <= perProcess {
      assert OwnList(c, lists[k]);
      if c[s].pid == e.pid || (k != i && k != j) {
        assert lists'[k] == lists[k];
        ListUntouched(c, lists[k], s, e);
      } else if k == i {
        ListGains(c, lists[k], s, e);
      } else {
        ListLoses(c, lists[k], s, e);
      }
    }
    forall t | 0 <= t < |c'| && c'[t].pid != -1
      ensures exists k :: 0 <= k < |lists'| && lists'[k].pid == c'[t].pid
    {
      if t == s {
        assert lists'[i].pid == c'[t].pid;
      } else {
        var k :| 0 <= k < |lists| && lists[k].pid == c[t].pid;
        assert lists'[k].pid == c'[t].pid;
      }
    }
  }

  lemma StoreKeepsSlots(c: seq<CacheEntry>, frameSize: nat, now: int, slots: map<Entry, nat>,
                        cached: map<Entry, seq<byte>>, s: nat, e: CacheEntry)
    requires SlotsOk(c, frameSize, now, slots, cached) && s < |c|
    requires e.pid >= 0 && e.lastAccess < now && |e.content| == frameSize
    requires KeyOf(e) !in slots || KeyOf(e) == KeyOf(c[s])
    ensures SlotsOk(c[s := e], frameSize, now, (slots - {KeyOf(c[s])})[KeyOf(e) := s],
                    (cached - {KeyOf(c[s])})[KeyOf(e) := e.content])
  {
  }

  lemma ClearKeepsSlots(c: seq<CacheEntry>, frameSize: nat, now: int, slots: map<Entry, nat>,
                        cached: map<Entry, seq<byte>>, s: nat)
    requires SlotsOk(c, frameSize, now, slots, cached) && s < |c|
    ensures SlotsOk(c[s := c[s].(pid := -1, page := -1)], frameSize, now,
                    slots - {KeyOf(c[s])}, cached - {KeyOf(c[s])})
  {
  }

  /** Storing an access time leaves the bookkeeping as it is. */
  lemma TouchKeeps(c: seq<CacheEntry>, frameSize: nat, now: int, slots: map<Entry, nat>,
                   cached: map<Entry, seq<byte>>, lists: seq<ProcessEntries>, perProcess: nat,
                   s: nat, clock: int)
    requires SlotsOk(c, frameSize, now, slots, cached) && ListsOk(c, lists, perProcess)
    requires s < |c| && clock < now
    ensures SlotsOk(c[s := c[s].(lastAccess := clock)], frameSize, now, slots, cached)
    ensures ListsOk(c[s := c[s].(lastAccess := clock)], lists, perProcess)
    ensures Sum(c[s := c[s].(lastAccess := clock)], UsedWeight) == Sum(c, UsedWeight)
  {
    var e := c[s].(lastAccess := clock);
    SumUpdate(c, s, e, UsedWeight);
    TouchKeepsSlots(c, frameSize, now, slots, cached, s, clock);
    hide SlotsOk;
    SamePidKeepsLists(c, c[s := e], lists, perProcess);
  }

  /** Time passes. */
  lemma LaterOk(c: seq<CacheEntry>, frameSize: nat, now: int, later: int, slots: map<Entry, nat>, cached: map<Entry, seq<byte>>)
    requires SlotsOk(c, frameSize, now, slots, cached) && now <= later
    ensures SlotsOk(c, frameSize, later, slots, cached)
  {
  }

  lemma TouchKeepsSlots(c: seq<CacheEntry>, frameSize: nat, now: int, slots: map<Entry, nat>,
                        cached: map<Entry, seq<byte>>, s: nat, clock: int)
    requires SlotsOk(c, frameSize, now, slots, cached)
    requires s < |c| && clock < now
    ensures SlotsOk(c[s := c[s].(lastAccess := clock)], frameSize, now, slots, cached)
  {
    var c' := c[s := c[s].(lastAccess := clock)];
    assert forall i :: 0 <= i < |c| ==> KeyOf(c'[i]) == KeyOf(c[i]) && c'[i].content == c[i].content;
  }

  /** Changing the bytes of a cached page changes only what the cache answers for it. */
  lemma ContentKeeps(c: seq<CacheEntry>, frameSize: nat, now: int, slots: map<Entry, nat>,
                     cached: map<Entry, seq<byte>>, lists: seq<ProcessEntries>, perProcess: nat,
                     s: nat, content: seq<byte>)
    requires SlotsOk(c, frameSize, now, slots, cached) && ListsOk(c, lists, perProcess)
    requires s < |c| && c[s].pid >= 0 && |content| == frameSize
    ensures SlotsOk(c[s := c[s].(content := content)], frameSize, now, slots, cached[KeyOf(c[s]) := content])
    ensures ListsOk(c[s := c[s].(content := content)], lists, perProcess)
    ensures Sum(c[s := c[s].(content := content)], UsedWeight) == Sum(c, UsedWeight)
  {
    var c' := c[s := c[s].(content := content)];
    SumUpdate(c, s, c'[s], UsedWeight);
    ContentKeepsSlots(c, frameSize, now, slots, cached, s, content);
    hide SlotsOk;
    SamePidKeepsLists(c, c', lists, perProcess);
  }

  lemma ContentKeepsSlots(c: seq<CacheEntry>, frameSize: nat, now: int, slots: map<Entry, nat>,
                          cached: map<Entry, seq<byte>>, s: nat, content: seq<byte>)
    requires SlotsOk(c, frameSize, now, slots, cached)
    requires s < |c| && c[s].pid >= 0 && |content| == frameSize
    ensures SlotsOk(c[s := c[s].(content := content)], frameSize, now, slots, cached[KeyOf(c[s]) := content])
  {
    var c' := c[s := c[s].(content := content)];
    assert forall i :: 0 <= i < |c| ==> KeyOf(c'[i]) == KeyOf(c[i]);
  }

  lemma SamePidKeepsLists(c: seq<CacheEntry>, c': seq<CacheEntry>, lists: seq<ProcessEntries>, perProcess: nat)
    requires ListsOk(c, lists, perProcess)
    requires |c'| == |c| && forall k :: 0 <= k < |c| ==> c'[k].pid == c[k].pid
    ensures ListsOk(c', lists, perProcess)
  {
    forall i | 0 <= i < |lists| ensures OwnList(c', lists[i]) {
      assert OwnList(c, lists[i]);
    }
    forall s | 0 <= s < |c'| && c'[s].pid != -1
      ensures exists i :: 0 <= i < |lists| && lists[i].pid == c'[s].pid
    {
      var i :| 0 <= i < |lists| && lists[i].pid == c[s].pid;
    }
  }

  /** `list_remove_and_destroy_by_condition(proccessesCacheEntries, hasPID, ...)` */
  function RemoveList(lists: seq<ProcessEntries>, pid: int): seq<ProcessEntries> {
    var i := FindList(lists, pid);
    if i < 0 then lists else lists[..i] + lists[i + 1..]
  }

  lemma DropKeepsLists(c: seq<CacheEntry>, c': seq<CacheEntry>, lists: seq<ProcessEntries>,
                       perProcess: nat, pid: int)
    requires ListsOk(c, lists, perProcess) && pid >= 0
    requires |c'| == |c|
    requires forall k :: 0 <= k < |c| ==> c'[k].pid == if c[k].pid == pid then -1 else c[k].pid
    ensures ListsOk(c', RemoveList(lists, pid), perProcess)
  {
    hide OwnList, FindList, RemoveList;
    var lists' := RemoveList(lists, pid);
    OthersStay(lists, pid);
    forall i | 0 <= i < |lists'| ensures OwnList(c', lists'[i]) && |lists'[i].entries| <= perProcess {
      var i0 :| 0 <= i0 < |lists| && lists[i0] == lists'[i];
      DropKeepsList(c, c', lists[i0], pid);
    }
    forall s | 0 <= s < |c'| && c'[s].pid != -1
      ensures exists i :: 0 <= i < |lists'| && lists'[i].pid == c'[s].pid
    {
      var i :| 0 <= i < |lists| && lists[i].pid == c[s].pid;
      assert lists[i] in lists';
    }
  }

  /** Exactly the list of that process goes; the others keep their order. */
  lemma OthersStay(lists: seq<ProcessEntries>, pid: int)
    requires forall i, j :: 0 <= i < j < |lists| ==> lists[i].pid != lists[j].pid
    ensures var lists' := RemoveList(lists, pid);
            && (forall i :: 0 <= i < |lists'| ==> lists'[i] in lists && lists'[i].pid != pid)
            && (forall i :: 0 <= i < |lists| && lists[i].pid != pid ==> lists[i] in lists')
            && (forall i, j :: 0 <= i < j < |lists'| ==> lists'[i].pid != lists'[j].pid)
  {
    var j := FindList(lists, pid);
    hide FindList;
    if j >= 0 {
      var a, b := lists[..j], lists[j + 1..];
      assert lists == a + [lists[j]] + b;
      ApartWithout(a, lists[j], b);
    }
  }

  lemma ApartWithout(a: seq<ProcessEntries>, p: ProcessEntries, b: seq<ProcessEntries>)
    requires forall i, j :: 0 <= i < j < |a + [p] + b| ==> (a + [p] + b)[i].pid != (a + [p] + b)[j].pid
    ensures forall x :: x in a + b ==> x in a + [p] + b && x.pid != p.pid
    ensures forall x :: x in a + [p] + b && x.pid != p.pid ==> x in a + b
    ensures forall i, j :: 0 <= i < j < |a + b| ==> (a + b)[i].pid != (a + b)[j].pid
  {
    var all := a + [p] + b;
    assert all[|a|] == p;
    assert forall i :: 0 <= i < |a| ==> all[i] == a[i];
    assert forall i :: 0 <= i < |b| ==> all[|a| + 1 + i] == b[i];
    assert forall i :: 0 <= i < |a + b| ==> (a + b)[i] == all[if i < |a| then i else i + 1];
  }

  lemma DropKeepsList(c: seq<CacheEntry>, c': seq<CacheEntry>, p: ProcessEntries, pid: int)
    requires OwnList(c, p) && p.pid != pid && |c'| == |c|
    requires forall k :: 0 <= k < |c| ==> c'[k].pid == if c[k].pid == pid then -1 else c[k].pid
    ensures OwnList(c', p)
  {
  }

  lemma {:induction false} UnusedSlotExists(c: seq<CacheEntry>)
    ensures 0 <= Sum(c, UsedWeight) <= |c|
    ensures Sum(c, UsedWeight) < |c| <==> exists i :: 0 <= i < |c| && c[i].pid == -1
  {
    if c != [] {
      UnusedSlotExists(c[1..]);
      if i :| 0 <= i < |c| && c[i].pid == -1 {
        assert i > 0 ==> c[1..][i - 1].pid == -1;
      }
      if j :| 0 <= j < |c[1..]| && c[1..][j].pid == -1 {
        assert c[j + 1].pid == -1;
      }
    }
  }

  /** Handing slot `s` to the process of list `i` keeps all the bookkeeping. */
  lemma InstallKeeps(c: seq<CacheEntry>, frameSize: nat, now: int, slots: map<Entry, nat>,
                     cached: map<Entry, seq<byte>>, lists: seq<ProcessEntries>, perProcess: nat,
                     i: nat, s: nat, e: CacheEntry)
    requires SlotsOk(c, frameSize, now, slots, cached) && ListsOk(c, lists, perProcess)
    requires i < |lists| && s < |c| && e.pid == lists[i].pid >= 0
    requires e.lastAccess < now && |e.content| == frameSize && KeyOf(e) !in slots
    requires c[s].pid == e.pid || |lists[i].entries| < perProcess
    ensures SlotsOk(c[s := e], frameSize, now, (slots - {KeyOf(c[s])})[KeyOf(e) := s],
                    (cached - {KeyOf(c[s])})[KeyOf(e) := e.content])
    ensures ListsOk(c[s := e], Reassign(c, lists, i, s), perProcess)
    ensures Sum(c[s := e], UsedWeight) == Sum(c, UsedWeight) + if c[s].pid == -1 then 1 else 0
  {
    hide SlotsOk, ListsOk;
    StoreKeepsSlots(c, frameSize, now, slots, cached, s, e);
    ReassignKeepsLists(c, lists, perProcess, i, s, e);
    SumUpdate(c, s, e, UsedWeight);
  }

  /** The slot `cache_cache_contents` must take: the process's own oldest slot when its
      quota is full, otherwise an unused slot, otherwise the oldest slot of all. */
  ghost predicate Victim(c: seq<CacheEntry>, pid: int, own: nat, perProcess: nat, used: int, s: nat)
    requires s < |c|
  {
    if own == perProcess then
      c[s].pid == pid && forall k :: 0 <= k < |c| && c[k].pid == pid ==> c[s].lastAccess <= c[k].lastAccess
    else if used < |c| then
      c[s].pid == -1 && forall k :: 0 <= k < s ==> c[k].pid != -1
    else
      c[s].pid != -1 && forall k :: 0 <= k < |c| ==> c[s].lastAccess <= c[k].lastAccess
  }

  /** Every used slot stands in one list only, once, and it is the list of its process. */
  lemma SlotInOneList(c: seq<CacheEntry>, lists: seq<ProcessEntries>, perProcess: nat, s: nat)
    requires ListsOk(c, lists, perProcess) && s < |c| && c[s].pid != -1
    ensures exists i, k :: 0 <= i < |lists| && 0 <= k < |lists[i].entries| && lists[i].entries[k] == s &&
              forall j, m :: 0 <= j < |lists| && 0 <= m < |lists[j].entries| && lists[j].entries[m] == s ==> i == j && k == m
    ensures forall i :: 0 <= i < |lists| && s in lists[i].entries ==> lists[i].pid == c[s].pid
  {
    var i :| 0 <= i < |lists| && lists[i].pid == c[s].pid;
    assert s in lists[i].entries;
    var k :| 0 <= k < |lists[i].entries| && lists[i].entries[k] == s;
    forall j, m | 0 <= j < |lists| && 0 <= m < |lists[j].entries| && lists[j].entries[m] == s ensures i == j && k == m {
      assert s in lists[j].entries;
      assert !(i < j) && !(j < i);
      assert !(k < m) && !(m < k);
    }
  }

  // ----- what one turn of a read or a write does to the cache

  /** The slots, what the cache answers, and the last reading of the clock. */
  datatype CacheState = CacheState(entries: seq<CacheEntry>, cached: map<Entry, seq<byte>>, time: int)

  /** How many slots hold pages of the process. */
  ghost function OwnSlots(c: seq<CacheEntry>, pid: int): nat {
    |SlotsOf(c, pid)|
  }

  ghost function SlotsOf(c: seq<CacheEntry>, pid: int): set<nat> {
    set k: nat | k < |c| && c[k].pid == pid
  }

  /** A hit: the page's slot gets the present time, and nothing else changes. */
  ghost predicate Touched(v: CacheState, v': CacheState, e: Entry) {
    && v'.cached == v.cached && v.time <= v'.time
    && exists s: nat :: s < |v.entries| && KeyOf(v.entries[s]) == e &&
                        v'.entries == v.entries[s := v.entries[s].(lastAccess := v'.time)]
  }

  /** A miss: the page takes the slot of a victim, and nothing else changes; with a quota of 0
      nothing changes at all. */
  ghost predicate BroughtIn(v: CacheState, v': CacheState, perProcess: nat, e: Entry, content: seq<byte>) {
    if perProcess == 0 then v' == v
    else exists s: nat :: s < |v.entries| && TookSlot(v, v', perProcess, e, content, s)
  }

  ghost predicate TookSlot(v: CacheState, v': CacheState, perProcess: nat, e: Entry, content: seq<byte>, s: nat)
    requires s < |v.entries|
  {
    && v.time <= v'.time
    && Victim(v.entries, e.pid, OwnSlots(v.entries, e.pid), perProcess, Sum(v.entries, UsedWeight), s)
    && v'.entries == v.entries[s := CacheEntry(e.pid, e.page, v'.time, content)]
    && v'.cached == (v.cached - {KeyOf(v.entries[s])})[e := content]
  }

  /** What looking for a page does: a hit, a miss of a mapped page, or nothing. */
  ghost predicate Looked(v: CacheState, v': CacheState, perProcess: nat, mapped: map<Entry, seq<byte>>, e: Entry) {
    if e in v.cached then Touched(v, v', e)
    else if e in mapped then BroughtIn(v, v', perProcess, e, mapped[e])
    else v' == v
  }

  /** The bytes of one cached page change, and nothing else. */
  ghost predicate Stored(v: CacheState, v': CacheState, e: Entry, content: seq<byte>) {
    if e in v.cached then
      && v'.cached == v.cached[e := content] && v'.time == v.time
      && exists s: nat :: s < |v.entries| && KeyOf(v.entries[s]) == e &&
                          v'.entries == v.entries[s := v.entries[s].(content := content)]
    else v' == v
  }

  /** A write looks for the page and then stores into it. */
  ghost predicate LookedAndStored(v: CacheState, v': CacheState, perProcess: nat, mapped: map<Entry, seq<byte>>,
                                  e: Entry, content: seq<byte>)
  {
    exists v1 :: Looked(v, v1, perProcess, mapped, e) && Stored(v1, v', e, content)
  }

  /** A page that leaves the cache gave its slot to the page that was looked for: at most one
      leaves, and one of another process only when every slot is in use and the process has
      not filled its quota. */
  lemma WhoLeaves(v: CacheState, v': CacheState, perProcess: nat, mapped: map<Entry, seq<byte>>, e: Entry, x: Entry, y: Entry)
    requires Looked(v, v', perProcess, mapped, e)
    requires x.pid >= 0 && x in v.cached && x !in v'.cached
    ensures e !in v.cached && e in mapped && e in v'.cached
    ensures y in v.cached && y !in v'.cached ==> y == x
    ensures x.pid != e.pid ==> OwnSlots(v.entries, e.pid) != perProcess && Sum(v.entries, UsedWeight) >= |v.entries|
    ensures forall z :: z in v.cached && z != x && z != e ==> z in v'.cached && v'.cached[z] == v.cached[z]
  {
    hide Sum, OwnSlots;
    var s: nat :| s < |v.entries| && TookSlot(v, v', perProcess, e, mapped[e], s);
    assert x == KeyOf(v.entries[s]);
  }

  /** No slot in use was accessed after this one. */
  ghost predicate MostRecent(c: seq<CacheEntry>, s: nat) {
    s < |c| && forall k :: 0 <= k < |c| && c[k].pid != -1 ==> c[k].lastAccess <= c[s].lastAccess
  }

  /** The page that was looked for is the most recent one. */
  lemma JustUsed(v: CacheState, v': CacheState, perProcess: nat, mapped: map<Entry, seq<byte>>, e: Entry)
    requires Looked(v, v', perProcess, mapped, e) && (e in v.cached || (e in mapped && perProcess > 0))
    requires forall k :: 0 <= k < |v.entries| && v.entries[k].pid != -1 ==> v.entries[k].lastAccess <= v.time
    ensures e in v'.cached
    ensures exists s: nat :: s < |v'.entries| && KeyOf(v'.entries[s]) == e && MostRecent(v'.entries, s)
  {
    hide Victim, Sum, OwnSlots;
    var s: nat :|
      && s < |v.entries|
      && if e in v.cached then KeyOf(v.entries[s]) == e && v'.entries == v.entries[s := v.entries[s].(lastAccess := v'.time)]
         else TookSlot(v, v', perProcess, e, mapped[e], s);
    assert KeyOf(v'.entries[s]) == e && MostRecent(v'.entries, s);
  }

  ghost function Members(s: seq<nat>): set<nat> {
    set x: nat | x in s
  }

  lemma {:induction false} SizeOfSet(s: seq<nat>)
    requires NoDuplicates(s)
    ensures |Members(s)| == |s|
  {
    if s != [] {
      var rest, last := s[..|s| - 1], s[|s| - 1];
      SizeOfSet(rest);
      OneMember(s);
      assert |Members(rest) + {last}| == |Members(rest)| + 1;
    }
  }

  lemma OneMember(s: seq<nat>)
    requires s != [] && NoDuplicates(s)
    ensures s[|s| - 1] !in Members(s[..|s| - 1])
    ensures Members(s) == Members(s[..|s| - 1]) + {s[|s| - 1]}
  {
    assert s == s[..|s| - 1] + [s[|s| - 1]];
  }

  /** The list of a process is as long as it has slots. */
  lemma ListSizeIsOwn(c: seq<CacheEntry>, lists: seq<ProcessEntries>, perProcess: nat, pid: int)
    requires ListsOk(c, lists, perProcess) && pid >= 0
    ensures ListSize(lists, pid) == OwnSlots(c, pid)
  {
    var i := FindList(lists, pid);
    if i >= 0 {
      assert OwnList(c, lists[i]);
      SizeOfSet(lists[i].entries);
      assert Members(lists[i].entries) == SlotsOf(c, pid);
    } else {
      assert SlotsOf(c, pid) == {};
    }
  }

  class PageCache {
    const frameSize: nat
    const perProcess: nat
    const timeSeed: int          // time(NULL): above every reading of clock()
    const cache: array<CacheEntry>
    var lists: seq<ProcessEntries>
    var useCount: int
    var time: int                // the last reading of clock()

    ghost var slots: map<Entry, nat>
    ghost var cached: map<Entry, seq<byte>>

    ghost predicate Valid()
      reads this, cache
    {
      && 0 < cache.Length
      && time < timeSeed
      && SlotsOk(cache[..], frameSize, time + 1, slots, cached)
      && ListsOk(cache[..], lists, perProcess)
      && useCount == Sum(cache[..], UsedWeight)
    }

    ghost function State(): CacheState
      reads this, cache
    {
      CacheState(cache[..], cached, time)
    }

    constructor (frameSize: nat, entryCount: nat, perProcess: nat, timeSeed: int)
      requires entryCount > 0
      ensures Valid() && fresh(cache) && cached == map[]
      ensures this.frameSize == frameSize && cache.Length == entryCount
      ensures this.perProcess == perProcess && this.timeSeed == timeSeed
    {
      this.frameSize, this.perProcess, this.timeSeed := frameSize, perProcess, timeSeed;
      cache := new CacheEntry[entryCount](_ => CacheEntry(-1, -1, 0, seq(frameSize, _ => 0)));
      lists, useCount := [], 0;
      slots, cached := map[], map[];
      var start :| start < timeSeed;
      time := start;
      new;
      SumZero(cache[..], UsedWeight);
    }

    /** No page in the cache was accessed after the last reading of the clock. */
    lemma AccessedBefore()
      requires Valid()
      ensures forall k :: 0 <= k < cache.Length && State().entries[k].pid != -1 ==> State().entries[k].lastAccess <= State().time
    {
      assert forall k :: 0 <= k < cache.Length ==> SlotOk(cache[..][k], time + 1);
    }

    /** `clock()`: it does not go back, and stays below the seed. */
    method Clock() returns (now: int)
      requires time < timeSeed
      modifies this`time
      ensures old(time) <= time == now < timeSeed
    {
      now :| time <= now < timeSeed;
      time := now;
    }

    /** `cache_search`: the first slot with that PID and page; finding it is an access. */
    method Search(pid: int, page: int) returns (slot: int)
      requires time < timeSeed
      modifies cache, this`time
      ensures -1 <= slot < cache.Length
      ensures slot < 0 ==> cache[..] == old(cache[..]) && time == old(time)
      ensures slot < 0 ==> forall k :: 0 <= k < cache.Length ==> KeyOf(old(cache[..])[k]) != Entry(pid, page)
      ensures slot >= 0 ==> KeyOf(old(cache[..])[slot]) == Entry(pid, page)
      ensures slot >= 0 ==> forall k :: 0 <= k < slot ==> KeyOf(old(cache[..])[k]) != Entry(pid, page)
      ensures slot >= 0 ==> cache[..] == old(cache[..])[slot := old(cache[slot]).(lastAccess := time)]
      ensures old(time) <= time < timeSeed
    {
      var i := 0;
      while i != cache.Length
        invariant 0 <= i <= cache.Length && cache[..] == old(cache[..]) && time == old(time)
        invariant forall k :: 0 <= k < i ==> KeyOf(old(cache[..])[k]) != Entry(pid, page)
      {
        if cache[i].pid == pid && cache[i].page == page {
          var now := Clock();
          cache[i] := cache[i].(lastAccess := now);
          return i;
        }
        i := i + 1;
      }
      return -1;
    }

    /** A search for a page, as `memory_read` and `memory_write` do it. */
    method SearchPage(pid: int, page: int) returns (slot: int)
      requires Valid() && pid >= 0
      modifies cache, this`time
      ensures Valid()
      ensures slot >= 0 <==> Entry(pid, page) in cached
      ensures slot >= 0 ==> slot < cache.Length && Entry(pid, page) in slots && slots[Entry(pid, page)] == slot
      ensures slot >= 0 ==> Touched(old(State()), State(), Entry(pid, page))
      ensures slot < 0 ==> State() == old(State())
    {
      hide ListsOk, SlotsOk;
      PagesAreInSlots(pid, page);
      ghost var home := if Entry(pid, page) in cached then slots[Entry(pid, page)] else 0;
      slot := Search(pid, page);
      assert slot < 0 ==> KeyOf(old(cache[..])[home]) != Entry(pid, page);
      if slot >= 0 {
        LaterOk(old(cache[..]), frameSize, old(time) + 1, time + 1, slots, cached);
        TouchKeeps(old(cache[..]), frameSize, time + 1, slots, cached, lists, perProcess, slot, time);
      }
    }

    lemma PagesAreInSlots(pid: int, page: int)
      requires Valid() && pid >= 0
      ensures forall k :: 0 <= k < cache.Length && KeyOf(cache[..][k]) == Entry(pid, page) ==>
                Entry(pid, page) in cached && slots[Entry(pid, page)] == k
      ensures Entry(pid, page) in cached ==> Entry(pid, page) in slots && slots[Entry(pid, page)] < cache.Length
      ensures Entry(pid, page) in cached ==> KeyOf(cache[..][slots[Entry(pid, page)]]) == Entry(pid, page)
    {
    }

    /** `memcpy(cacheEntry->content + offset, data, |data|)` */
    method WriteSlot(pid: int, page: int, slot: nat, offset: nat, data: seq<byte>)
      requires Valid() && Entry(pid, page) in cached && Entry(pid, page) in slots && slots[Entry(pid, page)] == slot
      requires offset + |data| <= frameSize
      modifies cache, this`cached
      ensures Valid()
      ensures |old(cached)[Entry(pid, page)]| == frameSize
      ensures cached == old(cached)[Entry(pid, page) := Overlay(old(cached)[Entry(pid, page)], offset, data)]
      ensures slots == old(slots)
      ensures Stored(old(State()), State(), Entry(pid, page), Overlay(old(cached)[Entry(pid, page)], offset, data))
    {
      hide SlotsOk, ListsOk, Sum, Overlay;
      SlotHolds(pid, page);
      ghost var before := cache[..];
      var content := Overlay(cache[slot].content, offset, data);
      ContentKeeps(before, frameSize, time + 1, slots, cached, lists, perProcess, slot, content);
      cached := cached[Entry(pid, page) := content];
      cache[slot] := cache[slot].(content := content);
      assert cache[..] == before[slot := before[slot].(content := content)];
    }

    lemma SlotHolds(pid: int, page: int)
      requires Valid() && Entry(pid, page) in cached
      ensures Entry(pid, page) in slots && slots[Entry(pid, page)] < cache.Length
      ensures pid >= 0 && KeyOf(cache[slots[Entry(pid, page)]]) == Entry(pid, page)
      ensures cache[slots[Entry(pid, page)]].content == cached[Entry(pid, page)]
      ensures |cached[Entry(pid, page)]| == frameSize
    {
      var s := slots[Entry(pid, page)];
      assert KeyOf(cache[..][s]) == Entry(pid, page);
    }

    /** `lruProccess`: the oldest slot of one process. */
    method LruProcess(entries: seq<nat>) returns (lruEntry: int)
      requires forall i :: 0 <= i < |entries| ==> entries[i] < cache.Length
      ensures entries == [] ==> lruEntry == -1
      ensures entries != [] ==> lruEntry in entries
      ensures entries != [] ==> forall s :: s in entries ==> cache[lruEntry].lastAccess <= cache[s].lastAccess
    {
      var lruTime := timeSeed;
      lruEntry := -1;
      for i := 0 to |entries|
        invariant i == 0 ==> lruEntry == -1
        invariant i > 0 ==> lruEntry in entries && lruTime == cache[lruEntry].lastAccess
        invariant forall k :: 0 <= k < i ==> lruTime <= cache[entries[k]].lastAccess
      {
        if cache[entries[i]].lastAccess < lruTime || lruEntry == -1 {
          lruEntry, lruTime := entries[i], cache[entries[i]].lastAccess;
        }
      }
    }

    /** `lruAnyProccess`: the oldest slot in use. */
    method LruAnyProcess() returns (lruEntry: int)
      requires Valid()
      ensures -1 <= lruEntry < cache.Length
      ensures lruEntry < 0 ==> forall s :: 0 <= s < cache.Length ==> cache[s].pid == -1
      ensures lruEntry >= 0 ==> cache[lruEntry].pid != -1
      ensures lruEntry >= 0 ==> forall s :: 0 <= s < cache.Length && cache[s].pid != -1 ==>
                cache[lruEntry].lastAccess <= cache[s].lastAccess
    {
      hide SlotsOk, ListsOk;
      var lruTime := timeSeed;
      lruEntry := -1;
      for i := 0 to |lists|
        invariant -1 <= lruEntry < cache.Length
        invariant lruEntry < 0 ==> lruTime == timeSeed
        invariant lruEntry >= 0 ==> cache[lruEntry].pid != -1 && lruTime == cache[lruEntry].lastAccess
        invariant forall k :: 0 <= k < i ==> NoneOlder(lists[k].entries, lruEntry, lruTime)
      {
        var entries := lists[i].entries;
        ListIsOwn(i);
        assert entries == [] || entries[0] in entries;
        if |entries| >= 1 {
          var lruCurrentProcess := LruProcess(entries);
          if cache[lruCurrentProcess].lastAccess < lruTime {
            lruTime, lruEntry := cache[lruCurrentProcess].lastAccess, lruCurrentProcess;
          }
        }
      }
      UsedAreListed();
    }

    /** No slot of the list was accessed before `time`. */
    ghost predicate NoneOlder(entries: seq<nat>, lruEntry: int, time: int)
      reads cache
    {
      forall s :: s in entries ==> s < cache.Length && lruEntry >= 0 && time <= cache[s].lastAccess
    }

    lemma UsedAreListed()
      requires Valid()
      ensures forall s :: 0 <= s < cache.Length && cache[s].pid != -1 ==>
                exists k :: 0 <= k < |lists| && s in lists[k].entries
    {
      forall s | 0 <= s < cache.Length && cache[s].pid != -1
        ensures exists k :: 0 <= k < |lists| && s in lists[k].entries
      {
        var k :| 0 <= k < |lists| && lists[k].pid == cache[..][s].pid;
        assert OwnList(cache[..], lists[k]);
      }
    }

    /** `lru`: own slot, unused slot or any slot. */
    method Lru(i: nat) returns (entry: int)
      requires Valid() && i < |lists|
      modifies cache, this`time
      ensures Valid() && old(time) <= time
      ensures -1 <= entry < cache.Length
      ensures entry < 0 <==> perProcess == 0
      ensures entry < 0 ==> cache[..] == old(cache[..]) && time == old(time)
      ensures entry >= 0 ==>
                Victim(old(cache[..]), lists[i].pid, |lists[i].entries|, perProcess, useCount, entry)
      ensures entry >= 0 ==>
                old(cache[..])[entry].pid == lists[i].pid || |lists[i].entries| < perProcess
      ensures entry >= 0 ==> cache[entry].pid == old(cache[entry]).pid && cache[entry].page == old(cache[entry]).page
      ensures entry >= 0 ==> forall k :: 0 <= k < cache.Length && k != entry ==> cache[k] == old(cache[k])
    {
      hide SlotsOk, ListsOk, OwnList, FindList, Sum;
      if |lists[i].entries| == perProcess {
        ListIsOwn(i);
        entry := LruProcess(lists[i].entries);
      } else if useCount < cache.Length {
        QuotaLeft(i);
        entry := UnusedEntry();
      } else {
        QuotaLeft(i);
        UnusedSlotExists(cache[..]);
        AllInUse();
        entry := LruAnyProcess();
        assert cache[0].pid != -1;
      }
    }

    lemma QuotaLeft(i: nat)
      requires Valid() && i < |lists| && |lists[i].entries| != perProcess
      ensures |lists[i].entries| < perProcess
    {
    }

    lemma AllInUse()
      requires Valid() && useCount >= cache.Length
      ensures forall k :: 0 <= k < cache.Length ==> cache[k].pid != -1
    {
      UnusedSlotExists(cache[..]);
      assert forall k :: 0 <= k < cache.Length ==> cache[..][k].pid != -1;
    }

    /** `unusedEntry`: the search finds the first unused slot. */
    method UnusedEntry() returns (entry: int)
      requires Valid() && useCount < cache.Length
      modifies cache, this`time
      ensures Valid() && old(time) <= time
      ensures 0 <= entry < cache.Length && old(cache[entry]).pid == -1
      ensures forall k :: 0 <= k < entry ==> old(cache[k]).pid != -1
      ensures cache[..] == old(cache[..])[entry := old(cache[entry]).(lastAccess := time)]
    {
      hide SlotsOk, ListsOk, OwnList, FindList, Sum;
      UnusedHaveNoPage();
      UnusedSlotExists(cache[..]);
      entry := Search(-1, -1);
      if entry < 0 {
        assert false;
      }
      LaterOk(old(cache[..]), frameSize, old(time) + 1, time + 1, slots, cached);
      TouchKeeps(old(cache[..]), frameSize, time + 1, slots, cached, lists, perProcess, entry, time);
      assert forall k :: 0 <= k < entry ==> KeyOf(old(cache[..])[k]) != Entry(-1, -1);
    }

    lemma ListIsOwn(i: nat)
      requires Valid() && i < |lists|
      ensures lists[i].pid >= 0 && |lists[i].entries| <= perProcess
      ensures forall k :: 0 <= k < |lists[i].entries| ==> lists[i].entries[k] < cache.Length
      ensures forall s :: s in lists[i].entries <==> 0 <= s < cache.Length && cache[s].pid == lists[i].pid
      ensures forall s :: s in lists[i].entries ==> cache[s].lastAccess < timeSeed
    {
      assert OwnList(cache[..], lists[i]);
      assert forall s :: 0 <= s < cache.Length ==> cache[s] == cache[..][s] && SlotOk(cache[..][s], time + 1);
      assert forall k :: 0 <= k < |lists[i].entries| ==> lists[i].entries[k] in lists[i].entries;
    }

    lemma UnusedHaveNoPage()
      requires Valid()
      ensures forall k :: 0 <= k < cache.Length && cache[..][k].pid == -1 ==> KeyOf(cache[..][k]) == Entry(-1, -1)
      ensures forall k :: 0 <= k < cache.Length && cache[..][k].pid != -1 ==> KeyOf(cache[..][k]) != Entry(-1, -1)
    {
      assert forall k :: 0 <= k < cache.Length ==> SlotOk(cache[..][k], time + 1);
    }

    /** `cache_cache_contents`: brings a page that is not cached into the victim's slot. */
    method CacheContents(pid: int, page: int, content: seq<byte>) returns (slot: int)
      requires Valid() && pid >= 0 && |content| == frameSize
      requires Entry(pid, page) !in cached
      modifies cache, this`lists, this`useCount, this`time, this`slots, this`cached
      ensures Valid() && old(time) <= time
      ensures -1 <= slot < cache.Length
      ensures slot < 0 <==> perProcess == 0
      ensures slot < 0 ==> cache[..] == old(cache[..]) && cached == old(cached) && time == old(time)
      ensures slot >= 0 ==>
        Victim(old(cache[..]), pid, ListSize(old(lists), pid), perProcess, old(useCount), slot)
      ensures slot >= 0 ==> cache[..] == old(cache[..])[slot := CacheEntry(pid, page, time, content)]
      ensures slot >= 0 ==>
        cached == (old(cached) - {KeyOf(old(cache[..])[slot])})[Entry(pid, page) := content]
      ensures slot >= 0 ==> Entry(pid, page) in slots && slots[Entry(pid, page)] == slot
      ensures BroughtIn(old(State()), State(), perProcess, Entry(pid, page), content)
    {
      ListSizeIsOwn(cache[..], lists, perProcess, pid);
      hide SlotsOk, ListsOk, Sum, OwnSlots, Victim, ListSize;
      ghost var before := State();
      slot := PlaceContents(pid, page, content);
      if slot >= 0 {
        assert TookSlot(before, State(), perProcess, Entry(pid, page), content, slot);
      }
    }

    /** The search for a slot and its handing over. */
    method PlaceContents(pid: int, page: int, content: seq<byte>) returns (slot: int)
      requires Valid() && pid >= 0 && |content| == frameSize
      requires Entry(pid, page) !in cached
      modifies cache, this`lists, this`useCount, this`time, this`slots, this`cached
      ensures Valid() && old(time) <= time
      ensures -1 <= slot < cache.Length
      ensures slot < 0 <==> perProcess == 0
      ensures slot < 0 ==> cache[..] == old(cache[..]) && cached == old(cached) && time == old(time)
      ensures slot >= 0 ==>
        Victim(old(cache[..]), pid, ListSize(old(lists), pid), perProcess, old(useCount), slot)
      ensures slot >= 0 ==> cache[..] == old(cache[..])[slot := CacheEntry(pid, page, time, content)]
      ensures slot >= 0 ==>
        cached == (old(cached) - {KeyOf(old(cache[..])[slot])})[Entry(pid, page) := content]
      ensures slot >= 0 ==> Entry(pid, page) in slots && slots[Entry(pid, page)] == slot
    {
      hide SlotsOk, ListsOk, Sum;
      var i := FindList(lists, pid);
      if i < 0 {
        NewListOk(cache[..], lists, perProcess, pid);
        lists := lists + [ProcessEntries(pid, [])];
        i := |lists| - 1;
      }
      slot := Lru(i);
      if slot >= 0 {
        var now := Now();
        Install(i, slot, CacheEntry(pid, page, now, content));
      }
    }

    /** A reading of the clock between two accesses. */
    method Now() returns (now: int)
      requires Valid()
      modifies this`time
      ensures Valid() && old(time) <= time == now
    {
      hide SlotsOk, ListsOk, Sum;
      now := Clock();
      LaterOk(cache[..], frameSize, old(time) + 1, time + 1, slots, cached);
    }

    /** The rest of `cache_cache_contents`: moves the slot between the lists and fills it. */
    method Install(i: nat, slot: nat, e: CacheEntry)
      requires Valid() && i < |lists| && slot < cache.Length
      requires e.pid == lists[i].pid >= 0 && e.lastAccess <= time && |e.content| == frameSize
      requires KeyOf(e) !in cached
      requires cache[slot].pid == e.pid || |lists[i].entries| < perProcess
      modifies cache, this`lists, this`useCount, this`slots, this`cached
      ensures Valid()
      ensures cache[..] == old(cache[..])[slot := e]
      ensures cached == (old(cached) - {KeyOf(old(cache[slot]))})[KeyOf(e) := e.content]
      ensures KeyOf(e) in slots && slots[KeyOf(e)] == slot
    {
      hide SlotsOk, ListsOk, Sum, KeyOf, Reassign, FindList;
      SameKeys();
      ghost var before, l := cache[..], lists;
      InstallKeeps(before, frameSize, time + 1, slots, cached, l, perProcess, i, slot, e);
      MoveSlot(i, slot);
      slots := (slots - {KeyOf(cache[slot])})[KeyOf(e) := slot];
      cached := (cached - {KeyOf(cache[slot])})[KeyOf(e) := e.content];
      cache[slot] := e;
      assert cache[..] == before[slot := e];
    }

    /** Hands the slot to the process of list `i`. */
    method MoveSlot(i: nat, slot: nat)
      requires Valid() && i < |lists| && slot < cache.Length
      modifies this`lists, this`useCount
      ensures lists == Reassign(cache[..], old(lists), i, slot)
      ensures useCount == old(useCount) + if cache[slot].pid == -1 then 1 else 0
    {
      ListPositions(i);
      OwnerHasList(slot);
      hide SlotsOk, ListsOk, RemoveFirst, Sum;
      if cache[slot].pid == -1 {
        useCount := useCount + 1;
        lists := lists[i := lists[i].(entries := lists[i].entries + [slot])];
      } else if cache[slot].pid != lists[i].pid {
        var j := FindList(lists, cache[slot].pid);
        lists := lists[j := lists[j].(entries := RemoveFirst(lists[j].entries, slot))];
        lists := lists[i := lists[i].(entries := lists[i].entries + [slot])];
      }
    }

    lemma SameKeys()
      requires Valid()
      ensures slots.Keys == cached.Keys
    {
    }

    lemma ListPositions(i: nat)
      requires Valid() && i < |lists|
      ensures lists[i].pid >= 0 && FindList(lists, lists[i].pid) == i && FindList(lists, -1) < 0
    {
      assert FindList(lists, lists[i].pid) >= 0;
      assert forall k :: 0 <= k < |lists| ==> OwnList(cache[..], lists[k]);
    }

    lemma OwnerHasList(s: nat)
      requires Valid() && s < cache.Length
      ensures cache[s].pid >= -1
      ensures cache[s].pid != -1 ==> FindList(lists, cache[s].pid) >= 0
    {
      assert SlotOk(cache[..][s], time + 1);
      if cache[s].pid != -1 {
        var i :| 0 <= i < |lists| && lists[i].pid == cache[..][s].pid;
      }
    }

    /** `cache_program_end` */
    method ProgramEnd(pid: int)
      requires Valid() && pid >= 0
      modifies cache, this`lists, this`useCount, this`slots, this`cached
      ensures Valid()
      ensures useCount >= 0
      ensures Dropped(old(cached), cached, pid)
      ensures forall k :: 0 <= k < cache.Length && old(cache[..])[k].pid != pid ==> cache[k] == old(cache[..])[k]
    {
      hide SlotsOk, ListsOk;
      ghost var c, m := cache[..], cached;
      var i := 0;
      while i != cache.Length
        invariant 0 <= i <= cache.Length
        invariant SlotsOk(cache[..], frameSize, time + 1, slots, cached)
        invariant useCount == Sum(cache[..], UsedWeight)
        invariant forall k :: 0 <= k < i && c[k].pid == pid ==> cache[k].pid == -1
        invariant forall k :: 0 <= k < cache.Length && (c[k].pid != pid || k >= i) ==> cache[k] == c[k]
        invariant forall e :: e in cached ==> e in m && cached[e] == m[e]
        invariant forall e :: e in m && e.pid != pid ==> e in cached
        invariant lists == old(lists)
      {
        if cache[i].pid == pid {
          ghost var before, e := cache[..], cache[i].(pid := -1, page := -1);
          ClearKeepsSlots(before, frameSize, time + 1, slots, cached, i);
          SumUpdate(before, i, e, UsedWeight);
          slots, cached := slots - {KeyOf(cache[i])}, cached - {KeyOf(cache[i])};
          cache[i] := cache[i].(pid := -1, page := -1);
          assert cache[..] == before[i := e];
          useCount := useCount - 1;
        }
        i := i + 1;
      }
      DropKeepsLists(c, cache[..], lists, perProcess, pid);
      lists := RemoveList(lists, pid);
      UnusedSlotExists(cache[..]);
      NoneLeft(pid);
    }

    lemma NoneLeft(pid: int)
      requires SlotsOk(cache[..], frameSize, time + 1, slots, cached)
      requires forall k :: 0 <= k < cache.Length ==> cache[k].pid != pid
      ensures forall e :: e in cached ==> e.pid != pid
    {
      forall e | e in cached ensures e.pid != pid {
        assert KeyOf(cache[..][slots[e]]) == e;
      }
    }

    /** `cache_flush` */
    method Flush()
      requires Valid()
      modifies cache, this`lists, this`useCount, this`slots, this`cached
      ensures Valid() && cached == map[]
    {
      var i := 0;
      while i != cache.Length
        invariant 0 <= i <= cache.Length
        invariant forall k :: 0 <= k < i ==> cache[k].pid == -1 && cache[k].page == -1 && |cache[k].content| == frameSize
      {
        cache[i] := CacheEntry(-1, -1, 0, seq(frameSize, _ => 0));
        i := i + 1;
      }
      lists, useCount := [], 0;
      slots, cached := map[], map[];
      SumZero(cache[..], UsedWeight);
    }
  }
}
