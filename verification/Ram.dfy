/** The inverted page table of the Memory process (Memory/src/functions/ram.c).

    One table entry describes one frame.  An entry is found by hashing (PID, page) and
    probing linearly; deleting an entry just marks it free, without a tombstone.  The
    number of free entries is kept apart, in `freeFrameCount`. */
module Ram {
  import opened Bytes
  import opened Folds

  datatype Entry = Entry(pid: int, page: int)

  const FREE := Entry(-1, -1)
  const ERROR_NO_PAGES_FOR_PROCESS := -9

  /** 1 for a free frame: summing it over the table counts the free frames. */
  function FreeWeight(e: Entry): int {
    if e.pid == -1 then 1 else 0
  }

  /** `slots` says where each (PID, page) sits: every used entry of the table is listed at
      its own position, so no pair is in the table twice. */
  ghost predicate Indexes(t: seq<Entry>, slots: map<Entry, nat>) {
    && (forall i :: 0 <= i < |t| ==> t[i] == FREE || (t[i].pid >= 0 && t[i].page >= 0))
    && (forall i :: 0 <= i < |t| && t[i] != FREE ==> t[i] in slots && slots[t[i]] == i)
    && (forall e :: e in slots ==> e != FREE && slots[e] < |t| && t[slots[e]] == e)
    && |slots| + Sum(t, FreeWeight) == |t|
  }

  /** What the table and the frames mean: a map from (PID, page) to the page's bytes. */
  ghost predicate Holds(f: seq<seq<byte>>, frameSize: nat, slots: map<Entry, nat>, m: map<Entry, seq<byte>>) {
    && (forall i :: 0 <= i < |f| ==> |f[i]| == frameSize)
    && m.Keys == slots.Keys
    && forall e :: e in slots ==> slots[e] < |f| && m[e] == f[slots[e]]
  }

  /** A store into the frame of one page changes that page only. */
  lemma FrameStored(f: seq<seq<byte>>, frameSize: nat, slots: map<Entry, nat>, m: map<Entry, seq<byte>>,
                    e: Entry, offset: nat, data: seq<byte>, t: seq<Entry>)
    requires Holds(f, frameSize, slots, m) && Indexes(t, slots) && |t| == |f|
    requires e in slots && offset + |data| <= frameSize
    ensures e in m && |m[e]| == frameSize && slots[e] < |f| && f[slots[e]] == m[e]
    ensures Holds(f[slots[e] := Overlay(m[e], offset, data)], frameSize, slots, m[e := Overlay(m[e], offset, data)])
  {
    hide Overlay, Sum;
  }

  lemma IndexInsert(t: seq<Entry>, slots: map<Entry, nat>, i: nat, e: Entry)
    requires Indexes(t, slots) && i < |t| && t[i] == FREE
    requires e.pid >= 0 && e.page >= 0 && e !in slots
    ensures Indexes(t[i := e], slots[e := i])
  {
    SumUpdate(t, i, e, FreeWeight);
    var slots' := slots[e := i];
    assert slots'.Keys == slots.Keys + {e};
    assert |slots'.Keys| == |slots.Keys| + 1;
  }

  /** A used pair stands in one place only. */
  lemma UsedOnce(t: seq<Entry>, slots: map<Entry, nat>, i: nat, k: nat)
    requires i < |t| && k < |t| && i != k
    ensures Indexes(t, slots) && t[i] != FREE ==> t[i] != t[k]
  {
  }

  /** A pair that is in the table already must not be inserted again, as a second init of a
      program would: nothing indexes the table then. */
  lemma RepeatedPairHasNoIndex(t: seq<Entry>, slots: map<Entry, nat>, i: nat, e: Entry, slots': map<Entry, nat>)
    requires Indexes(t, slots) && i < |t| && t[i] == FREE && e in slots
    ensures !Indexes(t[i := e], slots')
  {
    UsedOnce(t[i := e], slots', slots[e], i);
    hide Indexes;
  }

  lemma IndexRemove(t: seq<Entry>, slots: map<Entry, nat>, i: nat)
    requires Indexes(t, slots) && i < |t| && t[i] != FREE
    ensures Indexes(t[i := FREE], slots - {t[i]})
    ensures Sum(t[i := FREE], FreeWeight) == Sum(t, FreeWeight) + 1
  {
    SumUpdate(t, i, FREE, FreeWeight);
    OneLess(slots, t[i]);
    hide Sum;
  }

  lemma OneLess(slots: map<Entry, nat>, e: Entry)
    requires e in slots
    ensures |slots - {e}| == |slots| - 1
  {
    var slots' := slots - {e};
    assert slots.Keys == slots'.Keys + {e};
    assert |slots.Keys| == |slots'.Keys| + 1;
  }

  /** The `d`-th slot probed from `home` in a table of `n` slots. */
  function Probe(home: nat, n: nat, d: nat): nat
    requires home < n && d <= n
  {
    if home + d < n then home + d else home + d - n
  }

  /** `(frameIndex + 1) % proccessPageCount` */
  method NextSlot(frameIndex: nat, n: nat) returns (next: nat)
    requires frameIndex < n
    ensures next == if frameIndex + 1 == n then 0 else frameIndex + 1
  {
    next := (frameIndex + 1) % n;
  }

  /** One lap visits every slot. */
  lemma ProbeReaches(home: nat, n: nat, slot: nat)
    requires home < n && slot < n
    ensures exists d :: 0 <= d < n && Probe(home, n, d) == slot
  {
    var d := if slot >= home then slot - home else slot + n - home;
    assert Probe(home, n, d) == slot;
  }

  /** `slot` is the first free entry met when probing from `home`. */
  ghost predicate FirstFree(t: seq<Entry>, home: nat, slot: nat)
    requires home < |t|
  {
    exists d :: 0 <= d < |t| && slot == Probe(home, |t|, d) && t[slot].pid == -1 &&
                forall k :: 0 <= k < d ==> t[Probe(home, |t|, k)].pid != -1
  }

  lemma FreeSlotExists(t: seq<Entry>)
    ensures Sum(t, FreeWeight) >= 0
    ensures Sum(t, FreeWeight) > 0 <==> exists i :: 0 <= i < |t| && t[i].pid == -1
  {
    SumNonNegative(t, FreeWeight);
    if exists i :: 0 <= i < |t| && t[i].pid == -1 {
      var i :| 0 <= i < |t| && t[i].pid == -1;
      assert FreeWeight(t[i]) > 0;
    }
  }

  /** `pageMax + 1` lies past every page the process has. */
  ghost predicate IsPageMax(pages: set<Entry>, pid: int, max: nat) {
    && (forall e :: e in pages && e.pid == pid ==> e.page <= max)
    && (max == 0 || Entry(pid, max) in pages)
  }

  predicate InRange(e: Entry, pid: int, start: int, count: nat) {
    e.pid == pid && start <= e.page < start + count
  }

  /** The map grows by exactly the pages `start .. start + count` of `pid`. */
  ghost predicate Granted(m: map<Entry, seq<byte>>, m': map<Entry, seq<byte>>,
                          pid: int, start: int, count: nat)
  {
    && (forall e :: e in m' <==> e in m || InRange(e, pid, start, count))
    && (forall e :: e in m ==> m'[e] == m[e] && !InRange(e, pid, start, count))
  }

  lemma GrantedStep(m: map<Entry, seq<byte>>, m': map<Entry, seq<byte>>, pid: int, start: int, count: nat,
                    content: seq<byte>)
    requires Granted(m, m', pid, start, count) && Entry(pid, start + count) !in m
    ensures Entry(pid, start + count) !in m'
    ensures Granted(m, m'[Entry(pid, start + count) := content], pid, start, count + 1)
  {
  }

  ghost predicate Dropped(m: map<Entry, seq<byte>>, m': map<Entry, seq<byte>>, pid: int) {
    && (forall k :: k in m' <==> k in m && k.pid != pid)
    && forall k :: k in m' ==> m'[k] == m[k]
  }

  class PageTable {
    const hash: (int, int) -> nat
    const frameSize: nat
    const table: array<Entry>
    const frames: array<seq<byte>>
    var freeFrameCount: nat

    ghost var slots: map<Entry, nat>
    ghost var mapped: map<Entry, seq<byte>>

    ghost predicate Shape()
      reads this, table, frames
    {
      && 0 < frameSize
      && 0 < table.Length == frames.Length
      && Indexes(table[..], slots)
      && Holds(frames[..], frameSize, slots, mapped)
    }

    ghost predicate Valid()
      reads this, table, frames
    {
      Shape() && freeFrameCount == Sum(table[..], FreeWeight)
    }

    constructor (hash: (int, int) -> nat, frameSize: nat, frameCount: nat, entrySize: nat)
      requires frameSize > 0
      requires BytesToPages(frameCount * entrySize, frameSize) < frameCount
      ensures Valid() && fresh(table) && fresh(frames)
      ensures mapped == map[]
      ensures this.frameSize == frameSize && this.hash == hash
      ensures table.Length == freeFrameCount
      // the pages that hold the table itself are not handed out
      ensures table.Length * frameSize + frameCount * entrySize <= frameCount * frameSize
    {
      this.hash, this.frameSize := hash, frameSize;
      var admin := BytesToPages(frameCount * entrySize, frameSize);
      var n := frameCount - admin;
      table := new Entry[n](_ => FREE);
      frames := new seq<byte>[n](_ => seq(frameSize, _ => 0));
      freeFrameCount := n;
      slots, mapped := map[], map[];
      new;
      AllFree(table[..]);
      hide Sum;
      FramesLeft(n, admin, frameCount, frameSize);
    }

    /** `insert_proccess_page`: the first free slot in probe order takes the page. */
    method InsertPage(pid: int, page: int) returns (frameIndex: nat)
      requires Shape() && pid >= 0 && page >= 0
      requires Entry(pid, page) !in mapped
      requires Sum(table[..], FreeWeight) > 0
      modifies this`slots, this`mapped, table
      ensures frameIndex < table.Length && old(table[frameIndex]) == FREE
      ensures table[..] == old(table[..])[frameIndex := Entry(pid, page)]
      ensures FirstFree(old(table[..]), hash(pid, page) % table.Length, frameIndex)
      ensures Shape()
      ensures mapped == old(mapped)[Entry(pid, page) := frames[frameIndex]]
      ensures Sum(table[..], FreeWeight) == old(Sum(table[..], FreeWeight)) - 1
    {
      frameIndex := ProbeFree(hash(pid, page) % table.Length);
      IndexInsert(table[..], slots, frameIndex, Entry(pid, page));
      SumUpdate(table[..], frameIndex, Entry(pid, page), FreeWeight);
      table[frameIndex] := Entry(pid, page);
      assert table[..] == old(table[..])[frameIndex := Entry(pid, page)];
      slots := slots[Entry(pid, page) := frameIndex];
      mapped := mapped[Entry(pid, page) := frames[frameIndex]];
    }

    /** The probing loop of `insert_proccess_page`; it ends within one lap. */
    method ProbeFree(home: nat) returns (frameIndex: nat)
      requires home < table.Length && Sum(table[..], FreeWeight) > 0
      ensures frameIndex < table.Length && FirstFree(table[..], home, frameIndex)
    {
      var n := table.Length;
      frameIndex := home;
      var collisionCount := 0;
      FreeSlotExists(table[..]);
      ghost var slot :| 0 <= slot < n && table[..][slot].pid == -1;
      ProbeReaches(home, n, slot);
      ghost var lap :| 0 <= lap < n && Probe(home, n, lap) == slot;
      while table[frameIndex].pid != -1
        invariant 0 <= collisionCount <= lap
        invariant frameIndex == Probe(home, n, collisionCount)
        invariant forall k :: 0 <= k < collisionCount ==> table[Probe(home, n, k)].pid != -1
        decreases lap - collisionCount
      {
        frameIndex := NextSlot(frameIndex, n);
        collisionCount := collisionCount + 1;
      }
    }

    /** `ram_get_pages_for_proccess`: all the pages or none of them. */
    method GetPagesForProcess(pid: int, pageCount: nat, startPage: nat) returns (result: int)
      requires Valid() && pid >= 0
      requires pageCount > freeFrameCount || forall e :: e in mapped ==> !InRange(e, pid, startPage, pageCount)
      modifies this`freeFrameCount, this`slots, this`mapped, table
      ensures Valid()
      ensures result == if pageCount <= old(freeFrameCount) then 0 else ERROR_NO_PAGES_FOR_PROCESS
      ensures result == 0 ==> Granted(old(mapped), mapped, pid, startPage, pageCount)
      ensures result == 0 ==> freeFrameCount == old(freeFrameCount) - pageCount
      ensures result != 0 ==> mapped == old(mapped)
    {
      if freeFrameCount < pageCount {
        return ERROR_NO_PAGES_FOR_PROCESS;
      }
      freeFrameCount := freeFrameCount - pageCount;
      InsertPages(pid, pageCount, startPage);
      return 0;
    }

    /** The inserting loop, after `pageCount` frames were reserved. */
    method InsertPages(pid: int, pageCount: nat, startPage: nat)
      requires Shape() && pid >= 0
      requires Sum(table[..], FreeWeight) >= pageCount
      requires forall e :: e in mapped ==> !InRange(e, pid, startPage, pageCount)
      modifies this`slots, this`mapped, table
      ensures Shape()
      ensures Granted(old(mapped), mapped, pid, startPage, pageCount)
      ensures Sum(table[..], FreeWeight) == old(Sum(table[..], FreeWeight)) - pageCount
    {
      hide Indexes, Holds;
      var i := 0;
      ghost var free := Sum(table[..], FreeWeight);
      ghost var m := mapped;
      while i != pageCount
        invariant 0 <= i <= pageCount && Shape()
        invariant Sum(table[..], FreeWeight) == free - i
        invariant Granted(m, mapped, pid, startPage, i)
      {
        assert InRange(Entry(pid, startPage + i), pid, startPage, pageCount);
        ghost var m' := mapped;
        GrantedStep(m, m', pid, startPage, i, []);
        var frameIndex := InsertPage(pid, startPage + i);
        GrantedStep(m, m', pid, startPage, i, frames[frameIndex]);
        i := i + 1;
      }
    }

    /** `proccess_page_max` */
    method ProcessPageMax(pid: int) returns (pageMax: nat)
      requires Shape() && pid >= 0
      ensures IsPageMax(mapped.Keys, pid, pageMax)
    {
      pageMax := 0;
      var i := 0;
      while i != table.Length
        invariant 0 <= i <= table.Length
        invariant forall k :: 0 <= k < i && table[k].pid == pid ==> table[k].page <= pageMax
        invariant pageMax == 0 || Entry(pid, pageMax) in mapped
      {
        if table[i].pid == pid && table[i].page > pageMax {
          pageMax := table[i].page;
          assert table[..][i] == Entry(pid, pageMax);
        }
        i := i + 1;
      }
      forall e | e in mapped && e.pid == pid ensures e.page <= pageMax {
        assert table[..][slots[e]] == e;
      }
    }

    /** The separately kept counter is the capacity not used by the map. */
    lemma CapacityUsed()
      requires Valid()
      ensures |mapped| + freeFrameCount == table.Length
    {
      assert mapped.Keys == slots.Keys;
      assert |mapped| == |slots|;
    }

    /** `ram_program_init`: pages are numbered from 0, and must not be there yet. */
    method ProgramInit(pid: int, pageCount: nat) returns (result: int)
      requires Valid() && pid >= 0
      requires |mapped| + pageCount > table.Length || forall e :: e in mapped ==> !InRange(e, pid, 0, pageCount)
      modifies this`freeFrameCount, this`slots, this`mapped, table
      ensures Valid()
      ensures result == if |old(mapped)| + pageCount <= table.Length then 0 else ERROR_NO_PAGES_FOR_PROCESS
      ensures result == 0 ==> Granted(old(mapped), mapped, pid, 0, pageCount)
      ensures result != 0 ==> mapped == old(mapped)
    {
      hide Indexes, Holds;
      CapacityUsed();
      result := GetPagesForProcess(pid, pageCount, 0);
    }

    /** `ram_get_pages`: numbering continues after the largest page of the process. */
    method GetPages(pid: int, pageCount: nat) returns (result: int, ghost pageMax: nat)
      requires Valid() && pid >= 0
      modifies this`freeFrameCount, this`slots, this`mapped, table
      ensures Valid()
      ensures IsPageMax(old(mapped.Keys), pid, pageMax)
      ensures result == if |old(mapped)| + pageCount <= table.Length then 0 else ERROR_NO_PAGES_FOR_PROCESS
      ensures result == 0 ==> Granted(old(mapped), mapped, pid, pageMax + 1, pageCount)
      ensures result != 0 ==> mapped == old(mapped)
    {
      hide Indexes, Holds;
      CapacityUsed();
      var max := ProcessPageMax(pid);
      pageMax := max;
      result := GetPagesForProcess(pid, pageCount, max + 1);
    }

    /** `ram_program_end`: frees the frames of one process and credits them. */
    method ProgramEnd(pid: int)
      requires Valid() && pid >= 0
      modifies this`freeFrameCount, this`slots, this`mapped, table
      ensures Valid()
      ensures Dropped(old(mapped), mapped, pid)
    {
      hide Indexes, Holds;
      var pageCount := 0;
      var i := 0;
      while i != table.Length
        invariant 0 <= i <= table.Length && Shape()
        invariant forall k :: 0 <= k < i ==> table[k].pid != pid
        invariant forall e :: e in mapped ==> e in old(mapped) && mapped[e] == old(mapped)[e]
        invariant forall e :: e in old(mapped) && e.pid != pid ==> e in mapped
        invariant Sum(table[..], FreeWeight) == freeFrameCount + pageCount
      {
        if table[i].pid == pid {
          ClearSlot(i);
          pageCount := pageCount + 1;
        }
        i := i + 1;
      }
      freeFrameCount := freeFrameCount + pageCount;
      MappedInTable(pid);
    }

    lemma MappedInTable(pid: int)
      requires Shape() && forall k :: 0 <= k < table.Length ==> table[k].pid != pid
      ensures forall e :: e in mapped ==> e.pid != pid
    {
      forall e | e in mapped ensures e.pid != pid {
        assert table[..][slots[e]] == e;
      }
    }

    /** The two stores that free an entry. */
    method ClearSlot(i: nat)
      requires Shape() && i < table.Length && table[i] != FREE
      modifies this`slots, this`mapped, table
      ensures Shape()
      ensures table[..] == old(table[..])[i := FREE]
      ensures mapped == old(mapped) - {old(table[i])}
      ensures Sum(table[..], FreeWeight) == old(Sum(table[..], FreeWeight)) + 1
    {
      IndexRemove(table[..], slots, i);
      slots, mapped := slots - {table[i]}, mapped - {table[i]};
      table[i] := FREE;
      assert table[..] == old(table[..])[i := FREE];
    }

    /** `ram_frame_index_lookup`: probing never stops at a free entry, so that a page
        behind a deleted one is still found. */
    method FrameIndexLookup(pid: int, page: int) returns (result: int, frameIndex: nat)
      requires Shape() && pid >= 0
      ensures result == if Entry(pid, page) in mapped then 0 else -1
      ensures if result == 0 then frameIndex < table.Length && slots[Entry(pid, page)] == frameIndex
              else frameIndex == table.Length
    {
      var n := table.Length;
      var home := hash(pid, page) % n;
      frameIndex := home;
      var collisionCount := 0;
      while table[frameIndex] != Entry(pid, page) && collisionCount < n
        invariant 0 <= collisionCount <= n
        invariant frameIndex == if collisionCount == n then home else Probe(home, n, collisionCount)
        invariant forall k :: 0 <= k < collisionCount ==> table[Probe(home, n, k)] != Entry(pid, page)
        decreases n - collisionCount
      {
        frameIndex := NextSlot(frameIndex, n);
        collisionCount := collisionCount + 1;
      }
      if collisionCount < n {
        assert table[..][frameIndex] == Entry(pid, page);
        return 0, frameIndex;
      }
      if Entry(pid, page) in mapped {
        SlotHolds(Entry(pid, page));
        ProbeReaches(home, n, slots[Entry(pid, page)]);
        assert false;
      }
      return -1, n;
    }

    lemma SlotHolds(e: Entry)
      requires Shape() && e in mapped
      ensures e in slots && slots[e] < table.Length && table[slots[e]] == e != FREE
    {
      assert table[..][slots[e]] == e;
    }

    lemma HasFrames()
      requires Shape()
      ensures 0 < frameSize && 0 < table.Length
    {
    }

    lemma FramesSized()
      requires Shape()
      ensures forall e :: e in mapped ==> |mapped[e]| == frameSize
    {
    }

    lemma FrameHolds(pid: int, page: int)
      requires Shape() && Entry(pid, page) in mapped
      ensures Entry(pid, page) in slots && slots[Entry(pid, page)] < frames.Length
      ensures frames[slots[Entry(pid, page)]] == mapped[Entry(pid, page)]
    {
      assert frames[..][slots[Entry(pid, page)]] == mapped[Entry(pid, page)];
    }

    /** `ram_free_page` */
    method FreePage(pid: int, page: int) returns (result: int)
      requires Valid() && pid >= 0
      modifies this`freeFrameCount, this`slots, this`mapped, table
      ensures Valid()
      ensures result == if Entry(pid, page) in old(mapped) then 0 else -1
      ensures mapped == old(mapped) - {Entry(pid, page)}
    {
      hide Indexes, Holds;
      var frameIndex;
      result, frameIndex := FrameIndexLookup(pid, page);
      if result == 0 {
        SlotHolds(Entry(pid, page));
        ClearSlot(frameIndex);
        freeFrameCount := freeFrameCount + 1;
      }
    }

    /** `memcpy(frame + offset, data, |data|)` */
    method WriteFrame(pid: int, page: int, frameIndex: nat, offset: nat, data: seq<byte>)
      requires Valid() && Entry(pid, page) in mapped
      requires Entry(pid, page) in slots && slots[Entry(pid, page)] == frameIndex
      requires offset + |data| <= frameSize
      modifies frames, this`mapped
      ensures Valid() && slots == old(slots)
      ensures old(|mapped[Entry(pid, page)]|) == frameSize
      ensures mapped == old(mapped)[Entry(pid, page) := Overlay(old(mapped)[Entry(pid, page)], offset, data)]
    {
      FrameHolds(pid, page);
      FrameStored(frames[..], frameSize, slots, mapped, Entry(pid, page), offset, data, table[..]);
      hide Indexes, Holds, Overlay, Sum;
      var content := Overlay(frames[frameIndex], offset, data);
      frames[frameIndex] := content;
      assert frames[..] == old(frames[..])[frameIndex := content];
      mapped := mapped[Entry(pid, page) := content];
    }
  }

  lemma FramesLeft(n: nat, admin: nat, frameCount: nat, frameSize: nat)
    requires n + admin == frameCount
    ensures n * frameSize == frameCount * frameSize - admin * frameSize
  {
  }

  /** `bytes_to_pages` */
  function BytesToPages(byteCount: nat, frameSize: nat): (r: nat)
    requires frameSize > 0
    ensures byteCount <= r * frameSize < byteCount + frameSize
  {
    var fullPages := byteCount / frameSize;
    if byteCount % frameSize > 0 then fullPages + 1 else fullPages
  }

  lemma {:induction false} AllFree(t: seq<Entry>)
    requires forall i :: 0 <= i < |t| ==> t[i] == FREE
    ensures Sum(t, FreeWeight) == |t|
  {
    if t != [] { AllFree(t[1..]); }
  }
}
