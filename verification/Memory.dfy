/** The Memory process (Memory/src/functions/memory.c): reads and writes that span pages,
    served from the write-through cache over the frames.  Seen from outside it is the plain
    map of `FlatMemory`. */
module Memory {
  import opened Wrappers
  import opened Bytes
  import opened Ram
  import opened Cache
  import opened FlatMemory

  /** `r` is that stretch of the page, if there is a page. */
  ghost predicate ChunkOf(r: Option<seq<byte>>, seen: Option<seq<byte>>, frameSize: nat, offset: nat, n: nat) {
    && (r.Some? <==> seen.Some?)
    && (r.Some? ==> |seen.value| == frameSize && offset + n <= frameSize && r.value == seen.value[offset..offset + n])
  }

  /** The cache after each turn of a read: every turn looks for the next page. */
  ghost predicate ReadTurns(turns: seq<CacheState>, perProcess: nat, mapped: Pages, pid: int, page: int) {
    turns != [] && forall i: nat :: i < |turns| - 1 ==> ReadTurnAt(turns, perProcess, mapped, pid, page, i)
  }

  ghost predicate ReadTurnAt(turns: seq<CacheState>, perProcess: nat, mapped: Pages, pid: int, page: int, i: nat)
    requires i < |turns| - 1
  {
    Looked(turns[i], turns[i + 1], perProcess, mapped, Entry(pid, page + i))
  }

  /** The same for a write, which also stores into the page. */
  ghost predicate WriteTurns(turns: seq<CacheState>, contents: seq<Pages>, perProcess: nat, pid: int, page: int) {
    && turns != [] && |contents| == |turns|
    && forall i: nat :: i < |turns| - 1 ==> WriteTurnAt(turns, contents, perProcess, pid, page, i)
  }

  ghost predicate WriteTurnAt(turns: seq<CacheState>, contents: seq<Pages>, perProcess: nat, pid: int, page: int, i: nat)
    requires i < |turns| - 1 && |contents| == |turns|
  {
    var e := Entry(pid, page + i);
    e in contents[i] && e in contents[i + 1] &&
    LookedAndStored(turns[i], turns[i + 1], perProcess, contents[i], e, contents[i + 1][e])
  }

  lemma OneReadTurnMore(turns: seq<CacheState>, v: CacheState, perProcess: nat, mapped: Pages, pid: int, page: int)
    requires ReadTurns(turns, perProcess, mapped, pid, page)
    requires Looked(turns[|turns| - 1], v, perProcess, mapped, Entry(pid, page + |turns| - 1))
    ensures ReadTurns(turns + [v], perProcess, mapped, pid, page)
  {
    hide Looked;
    forall i: nat | i < |turns| ensures ReadTurnAt(turns + [v], perProcess, mapped, pid, page, i) {
      if i < |turns| - 1 {
        assert ReadTurnAt(turns, perProcess, mapped, pid, page, i);
      } else {
        assert page + i == page + |turns| - 1;
      }
    }
  }

  lemma OneWriteTurnMore(turns: seq<CacheState>, contents: seq<Pages>, v: CacheState, m: Pages, perProcess: nat, pid: int, page: int)
    requires WriteTurns(turns, contents, perProcess, pid, page)
    requires Entry(pid, page + |turns| - 1) in contents[|turns| - 1] && Entry(pid, page + |turns| - 1) in m
    requires LookedAndStored(turns[|turns| - 1], v, perProcess, contents[|turns| - 1], Entry(pid, page + |turns| - 1),
                             m[Entry(pid, page + |turns| - 1)])
    ensures WriteTurns(turns + [v], contents + [m], perProcess, pid, page)
  {
    hide LookedAndStored;
    forall i: nat | i < |turns| ensures WriteTurnAt(turns + [v], contents + [m], perProcess, pid, page, i) {
      if i < |turns| - 1 {
        assert WriteTurnAt(turns, contents, perProcess, pid, page, i);
      } else {
        assert page + i == page + |turns| - 1;
      }
    }
  }

  class MemoryProcess {
    const ram: PageTable
    const cache: PageCache

    ghost predicate Sound()
      reads this, ram, ram.table, ram.frames, cache, cache.cache
    {
      && ram.Valid()
      && cache.Valid()
      && cache.frameSize == ram.frameSize
    }

    /** Every cached page is a mapped page and holds the bytes of its frame. */
    ghost predicate Coherent()
      reads ram, cache
    {
      forall e :: e in cache.cached ==> e in ram.mapped && ram.mapped[e] == cache.cached[e]
    }

    ghost predicate Valid()
      reads this, ram, ram.table, ram.frames, cache, cache.cache
    {
      Sound() && Coherent() && Sized(ram.mapped, ram.frameSize)
    }

    constructor (hash: (int, int) -> nat, frameSize: nat, frameCount: nat, entrySize: nat,
                 cacheEntryCount: nat, cachePerProcess: nat, timeSeed: int)
      requires frameSize > 0 && cacheEntryCount > 0
      requires BytesToPages(frameCount * entrySize, frameSize) < frameCount
      ensures Valid() && ram.mapped == map[]
      ensures fresh(ram) && fresh(ram.table) && fresh(ram.frames) && fresh(cache) && fresh(cache.cache)
      ensures ram.frameSize == frameSize && cache.perProcess == cachePerProcess
    {
      ram := new PageTable(hash, frameSize, frameCount, entrySize);
      cache := new PageCache(frameSize, cacheEntryCount, cachePerProcess, timeSeed);
    }

    /** What one page answers: a cached page its cache entry, whether it is mapped or not. */
    ghost function PageSeen(e: Entry): Option<seq<byte>>
      reads ram, cache
    {
      if e in cache.cached then Some(cache.cached[e])
      else if e in ram.mapped then Some(ram.mapped[e])
      else None
    }

    lemma PageSeenMeans(e: Entry)
      ensures e in cache.cached ==> PageSeen(e) == Some(cache.cached[e])
      ensures PageSeen(e).None? ==> e !in ram.mapped
      ensures Coherent() ==> PageSeen(e) == if e in ram.mapped then Some(ram.mapped[e]) else None
    {
    }

    /** One turn of the loop of `memory_read`: the bytes of one page. */
    method ReadChunk(pid: int, page: int, offset: nat, n: nat) returns (r: Option<seq<byte>>)
      requires Sound() && pid >= 0 && offset + n <= ram.frameSize
      modifies cache, cache.cache
      ensures Sound() && (old(Coherent()) ==> Coherent())
      ensures ChunkOf(r, old(PageSeen(Entry(pid, page))), ram.frameSize, offset, n)
      ensures r.Some? && cache.perProcess > 0 ==> Entry(pid, page) in cache.cached
      // the other cached pages stay, but for the one whose slot the page takes
      ensures Looked(old(cache.State()), cache.State(), cache.perProcess, ram.mapped, Entry(pid, page))
    {
      hide PageTable.Shape, PageCache.Valid, Touched, BroughtIn;
      var slot := cache.SearchPage(pid, page);
      if slot >= 0 {
        cache.SlotHolds(pid, page);
        return Some(cache.cache[slot].content[offset..offset + n]);
      }
      var result, frameIndex := ram.FrameIndexLookup(pid, page);
      if result != 0 {
        return None;
      }
      ram.FrameHolds(pid, page);
      ram.FramesSized();
      var cached := cache.CacheContents(pid, page, ram.frames[frameIndex]);
      return Some(ram.frames[frameIndex][offset..offset + n]);
    }

    /** `memory_read`.  While the memory is coherent it answers from the plain map; in any
        state, a read inside a cached page answers what is cached. */
    method Read(pid: int, page: int, offset: nat, size: nat) returns (r: Option<seq<byte>>, ghost turns: seq<CacheState>)
      requires Sound() && Sized(ram.mapped, ram.frameSize) && pid >= 0 && offset < ram.frameSize
      modifies cache, cache.cache
      ensures Sound()
      ensures old(Valid()) ==>
                Valid() && Next(old(ram.mapped), ram.mapped, ram.frameSize, ram.table.Length,
                                FlatMemory.Read(pid, FlatAddress(page, ram.frameSize, offset), size, r))
      ensures 0 < size <= ram.frameSize - offset && Entry(pid, page) in old(cache.cached) ==>
                |old(cache.cached)[Entry(pid, page)]| == ram.frameSize &&
                r == Some(old(cache.cached)[Entry(pid, page)][offset..offset + size])
      ensures 0 < size <= ram.frameSize - offset && r.Some? && cache.perProcess > 0 ==> Entry(pid, page) in cache.cached
      // what the cache goes through: one look for each page from the first to the last byte
      ensures ReadTurns(turns, cache.perProcess, ram.mapped, pid, page)
      ensures turns[0] == old(cache.State()) && turns[|turns| - 1] == cache.State()
      ensures r.Some? && size > 0 ==>
                FlatAddress(page + |turns| - 2, ram.frameSize, 0) < FlatAddress(page, ram.frameSize, offset) + size
                <= FlatAddress(page + |turns| - 1, ram.frameSize, 0)
    {
      hide PageTable.Shape, PageTable.Valid, PageCache.Valid, MemoryProcess.Coherent, MemoryProcess.PageSeen, Reads, MappedAt, ByteAt, MappedPrefix, FlatAddress, Looked, ReadTurns;
      var frameSize := ram.frameSize;
      ghost var a, m := FlatAddress(page, frameSize, offset), ram.mapped;
      ghost var coherent, seen := Coherent(), PageSeen(Entry(pid, page));
      PageSeenMeans(Entry(pid, page));
      var left, off, current, buffer := size, offset, page, [];
      assert Reads(m, frameSize, pid, a, []) by { ReadNothing(m, frameSize, pid, a); }
      turns := [cache.State()];
      NoTurns(turns, cache.perProcess, m, pid, page);
      while left > 0
        invariant Sound() && ram.mapped == m && 0 <= left == size - |buffer| && 0 <= off < frameSize
        invariant left > 0 ==> FlatAddress(current, frameSize, off) == a + |buffer|
        invariant coherent ==> Coherent() && Reads(m, frameSize, pid, a, buffer)
        invariant coherent ==> MappedPrefix(m, frameSize, pid, a, size) ==
                                 |buffer| + MappedPrefix(m, frameSize, pid, a + |buffer|, left)
        invariant left == size ==> off == offset && current == page && PageSeen(Entry(pid, page)) == seen
        invariant size <= frameSize - offset && left < size ==>
                    left == 0 && (cache.perProcess > 0 ==> Entry(pid, page) in cache.cached)
        invariant size <= frameSize - offset && left < size ==>
                    seen.Some? && |seen.value| == frameSize && buffer == seen.value[offset..offset + size]
        invariant turns != [] && turns[0] == old(cache.State()) && turns[|turns| - 1] == cache.State()
        invariant ReadTurns(turns, cache.perProcess, m, pid, page) && current == page + |turns| - 1
        invariant left == 0 && size > 0 ==>
                    FlatAddress(current - 1, frameSize, 0) < a + size <= FlatAddress(current, frameSize, 0)
        decreases left
      {
        var currentPageSize := if left < frameSize - off then left else frameSize - off;
        left := left - currentPageSize;
        PageSeenMeans(Entry(pid, current));
        var chunk := ReadChunk(pid, current, off, currentPageSize);
        OneReadTurnMore(turns, cache.State(), cache.perProcess, m, pid, page);
        turns := turns + [cache.State()];
        if chunk.None? {
          StopsAt(m, frameSize, pid, current, off, left + currentPageSize);
          return None, turns;
        }
        if coherent {
          ReadTurn(m, frameSize, pid, a, buffer, currentPageSize, left, current, off);
        }
        PageHolds(current, frameSize, off, currentPageSize);
        if left > 0 {
          NextPage(current, frameSize, off, currentPageSize);
        }
        buffer := buffer + chunk.value;
        off, current := 0, current + 1;
      }
      return Some(buffer), turns;
    }

    /** One turn of the loop of `memory_write`: the cache entry first, then the frame. */
    method WriteChunk(pid: int, page: int, offset: nat, data: seq<byte>) returns (ok: bool)
      requires Valid() && pid >= 0 && offset + |data| <= ram.frameSize
      modifies ram, ram.frames, cache, cache.cache
      ensures Valid()
      ensures ok <==> Entry(pid, page) in old(ram.mapped)
      ensures ok ==> ram.mapped == old(ram.mapped)[Entry(pid, page) :=
                       Overlay(old(ram.mapped)[Entry(pid, page)], offset, data)]
      ensures !ok ==> ram.mapped == old(ram.mapped)
      ensures ok && cache.perProcess > 0 ==> Entry(pid, page) in cache.cached
      ensures ok ==> LookedAndStored(old(cache.State()), cache.State(), cache.perProcess, old(ram.mapped), Entry(pid, page),
                                     ram.mapped[Entry(pid, page)])
      ensures !ok ==> cache.State() == old(cache.State())
    {
      hide PageTable.Shape, PageCache.Valid, Touched, BroughtIn, Stored;
      var result, frameIndex := ram.FrameIndexLookup(pid, page);
      if result != 0 {
        return false;
      }
      ram.FrameHolds(pid, page);
      var slot := cache.SearchPage(pid, page);
      if slot < 0 {
          slot := cache.CacheContents(pid, page, ram.frames[frameIndex]);
      }
      assert slot >= 0 || cache.perProcess == 0;
      ghost var between := cache.State();
      assert Looked(old(cache.State()), between, cache.perProcess, old(ram.mapped), Entry(pid, page));
      WriteThrough(pid, page, slot, frameIndex, offset, data);
      assert Stored(between, cache.State(), Entry(pid, page), ram.mapped[Entry(pid, page)]);
      return true;
    }

    /** The two copies that end a turn of `memory_write`. */
    method WriteThrough(pid: int, page: int, slot: int, frameIndex: nat, offset: nat, data: seq<byte>)
      requires Valid() && offset + |data| <= ram.frameSize
      requires Entry(pid, page) in ram.mapped && Entry(pid, page) in ram.slots && ram.slots[Entry(pid, page)] == frameIndex
      requires if slot >= 0
               then Entry(pid, page) in cache.cached && Entry(pid, page) in cache.slots && cache.slots[Entry(pid, page)] == slot
               else Entry(pid, page) !in cache.cached
      modifies ram, ram.frames, cache, cache.cache
      ensures Valid()
      ensures ram.mapped == old(ram.mapped)[Entry(pid, page) := Overlay(old(ram.mapped)[Entry(pid, page)], offset, data)]
      ensures cache.cached.Keys == old(cache.cached.Keys)
      ensures Stored(old(cache.State()), cache.State(), Entry(pid, page), ram.mapped[Entry(pid, page)])
    {
      hide PageTable.Shape, PageCache.Valid, Overlay;
      if slot >= 0 {
        cache.WriteSlot(pid, page, slot, offset, data);
      }
      ram.WriteFrame(pid, page, frameIndex, offset, data);
    }

    /** `memory_write` */
    method Write(pid: int, page: int, offset: nat, size: nat, buffer: seq<byte>) returns (written: int, ghost turns: seq<CacheState>, ghost contents: seq<Pages>)
      requires Valid() && pid >= 0 && offset < ram.frameSize && size == |buffer|
      modifies ram, ram.frames, cache, cache.cache
      ensures Valid()
      ensures Next(old(ram.mapped), ram.mapped, ram.frameSize, ram.table.Length,
                   FlatMemory.Write(pid, FlatAddress(page, ram.frameSize, offset), buffer, written))
      ensures 0 < size <= ram.frameSize - offset && written == size && cache.perProcess > 0 ==> Entry(pid, page) in cache.cached
      // what the cache goes through: one look and one store for each page that was written
      ensures WriteTurns(turns, contents, cache.perProcess, pid, page)
      ensures turns[0] == old(cache.State()) && turns[|turns| - 1] == cache.State()
      ensures contents[0] == old(ram.mapped) && contents[|contents| - 1] == ram.mapped
      ensures written >= 0 && size > 0 ==>
                FlatAddress(page + |turns| - 2, ram.frameSize, 0) < FlatAddress(page, ram.frameSize, offset) + size
                <= FlatAddress(page + |turns| - 1, ram.frameSize, 0)
    {
      hide PageTable.Shape, PageCache.Valid, Wrote, MappedAt, ByteAt, MappedPrefix, Overlay, FlatAddress, LookedAndStored, WriteTurns;
      var frameSize := ram.frameSize;
      ghost var a, m := FlatAddress(page, frameSize, offset), ram.mapped;
      var left, off, current, wroteSize := size, offset, page, 0;
      WriteNothing(m, frameSize, pid, a);
      assert buffer[..0] == [];
      turns, contents := [cache.State()], [m];
      NoWrites(turns, contents, cache.perProcess, pid, page);
      while left > 0
        invariant Valid() && 0 <= left == size - wroteSize && 0 <= wroteSize && 0 <= off < frameSize
        invariant left > 0 ==> FlatAddress(current, frameSize, off) == a + wroteSize
        invariant ram.mapped.Keys == m.Keys
        invariant Wrote(m, ram.mapped, frameSize, pid, a, buffer[..wroteSize])
        invariant MappedPrefix(m, frameSize, pid, a, size) ==
                  wroteSize + MappedPrefix(m, frameSize, pid, a + wroteSize, left)
        invariant left == size ==> off == offset && current == page
        invariant size <= frameSize - offset && left < size ==>
                    left == 0 && (cache.perProcess > 0 ==> Entry(pid, page) in cache.cached)
        invariant turns != [] && turns[0] == old(cache.State()) && turns[|turns| - 1] == cache.State()
        invariant |contents| == |turns| && contents[0] == m && contents[|contents| - 1] == ram.mapped
        invariant WriteTurns(turns, contents, cache.perProcess, pid, page) && current == page + |turns| - 1
        invariant left == 0 && size > 0 ==>
                    FlatAddress(current - 1, frameSize, 0) < a + size <= FlatAddress(current, frameSize, 0)
        decreases left
      {
        var currentPageSize := if left < frameSize - off then left else frameSize - off;
        left := left - currentPageSize;
        ghost var m1 := ram.mapped;
        var data := buffer[wroteSize..wroteSize + currentPageSize];
        var ok := WriteChunk(pid, current, off, data);
        if !ok {
          StopsAt(m, frameSize, pid, current, off, left + currentPageSize);
          return ERROR_MEMORY, turns, contents;
        }
        OneWriteTurnMore(turns, contents, cache.State(), ram.mapped, cache.perProcess, pid, page);
        turns, contents := turns + [cache.State()], contents + [ram.mapped];
        PageHolds(current, frameSize, off, currentPageSize);
        WriteTurn(m, m1, ram.mapped, frameSize, pid, a, buffer, wroteSize, currentPageSize, current, off);
        if left > 0 {
          NextPage(current, frameSize, off, currentPageSize);
        }
        wroteSize := wroteSize + currentPageSize;
        off, current := 0, current + 1;
      }
      assert buffer[..size] == buffer;
      MappedPrefixIsLeast(m, frameSize, pid, a, size);
      return wroteSize, turns, contents;
    }

    /** The `init` request. */
    method Init(pid: int, pageCount: nat) returns (result: int)
      requires Valid() && pid >= 0
      requires |ram.mapped| + pageCount > ram.table.Length || forall e :: e in ram.mapped ==> !InRange(e, pid, 0, pageCount)
      modifies ram, ram.table
      ensures Valid() && (result == 0 || result == ERROR_NO_PAGES_FOR_PROCESS)
      ensures Next(old(ram.mapped), ram.mapped, ram.frameSize, ram.table.Length,
                   FlatMemory.Init(pid, pageCount, result == 0))
    {
      result := ram.ProgramInit(pid, pageCount);
      ram.FramesSized();
    }

    /** The `get_pages` request. */
    method GetPages(pid: int, pageCount: nat) returns (result: int, ghost first: nat)
      requires Valid() && pid >= 0
      modifies ram, ram.table
      ensures Valid() && (result == 0 || result == ERROR_NO_PAGES_FOR_PROCESS)
      ensures Next(old(ram.mapped), ram.mapped, ram.frameSize, ram.table.Length,
                   FlatMemory.GetPages(pid, pageCount, first, result == 0))
    {
      hide PageTable.Shape, PageCache.Valid;
      ghost var pageMax;
      result, pageMax := ram.GetPages(pid, pageCount);
      first := pageMax + 1;
      ram.FramesSized();
    }

    /** `program_end` */
    method ProgramEnd(pid: int)
      requires Valid() && pid >= 0
      modifies ram, ram.table, cache, cache.cache
      ensures Valid()
      ensures Next(old(ram.mapped), ram.mapped, ram.frameSize, ram.table.Length, FlatMemory.End(pid))
      ensures Dropped(old(cache.cached), cache.cached, pid)
      ensures forall k :: 0 <= k < cache.cache.Length && old(cache.cache[..])[k].pid != pid ==>
                cache.cache[k] == old(cache.cache[..])[k]
    {
      hide PageTable.Shape, PageCache.Valid;
      ram.ProgramEnd(pid);
      cache.ProgramEnd(pid);
    }

    /** `cache_flush`, the console command. */
    method Flush()
      requires Valid()
      modifies cache, cache.cache
      ensures Valid()
      ensures Next(old(ram.mapped), ram.mapped, ram.frameSize, ram.table.Length, FlatMemory.Flush)
      ensures cache.cached == map[]
    {
      cache.Flush();
    }

    /** `ram_free_page` leaves the cache alone: the memory stays coherent exactly when the
        page was not cached. */
    method FreePage(pid: int, page: int) returns (result: int)
      requires Valid() && pid >= 0
      modifies ram, ram.table
      ensures Sound()
      ensures result == if Entry(pid, page) in old(ram.mapped) then 0 else -1
      ensures ram.mapped == old(ram.mapped) - {Entry(pid, page)}
      ensures Coherent() <==> Entry(pid, page) !in cache.cached
    {
      hide PageTable.Shape, PageCache.Valid, Sized;
      result := ram.FreePage(pid, page);
    }
  }

  lemma ReadNothing(m: Pages, size: nat, pid: int, a: int)
    requires size > 0 && Sized(m, size)
    ensures Reads(m, size, pid, a, [])
  {
  }

  /** One turn of the reading loop, on the plain map. */
  lemma ReadTurn(m: Pages, size: nat, pid: int, a: int, buffer: seq<byte>, n: nat, left: nat, page: int, off: nat)
    requires size > 0 && Sized(m, size) && off + n <= size
    requires Reads(m, size, pid, a, buffer) && Entry(pid, page) in m && FlatAddress(page, size, off) == a + |buffer|
    ensures Reads(m, size, pid, a, buffer + m[Entry(pid, page)][off..off + n])
    ensures MappedPrefix(m, size, pid, a + |buffer|, left + n) == n + MappedPrefix(m, size, pid, a + |buffer| + n, left)
  {
    hide ByteAt, MappedPrefix;
    ChunkMapped(m, size, pid, page, off, n);
    MappedPrefixSplits(m, size, pid, a + |buffer|, left + n, n);
    ChunkRead(m, size, pid, page, off, n);
    hide Reads, MappedAt;
    ReadsThenReads(m, size, pid, a, buffer, m[Entry(pid, page)][off..off + n]);
  }

  /** One turn of the writing loop, on the plain map. */
  lemma WriteTurn(m: Pages, m1: Pages, m2: Pages, size: nat, pid: int, a: int, buffer: seq<byte>,
                  wrote: nat, n: nat, page: int, off: nat)
    requires size > 0 && Sized(m, size) && wrote + n <= |buffer| && off + n <= size
    requires Wrote(m, m1, size, pid, a, buffer[..wrote]) && Entry(pid, page) in m1 && FlatAddress(page, size, off) == a + wrote
    requires Sized(m1, size)
    requires m2 == m1[Entry(pid, page) := Overlay(m1[Entry(pid, page)], off, buffer[wrote..wrote + n])]
    ensures m2.Keys == m.Keys && Wrote(m, m2, size, pid, a, buffer[..wrote + n])
    ensures MappedPrefix(m, size, pid, a + wrote, |buffer| - wrote) ==
            n + MappedPrefix(m, size, pid, a + wrote + n, |buffer| - wrote - n)
  {
    assert m1.Keys == m.Keys;
    hide Overlay, ByteAt, MappedPrefix;
    var data := buffer[wrote..wrote + n];
    ChunkMapped(m, size, pid, page, off, n);
    MappedPrefixSplits(m, size, pid, a + wrote, |buffer| - wrote, n);
    ChunkWrite(m1, size, pid, page, off, data);
    hide Wrote, MappedAt;
    WroteThenWrote(m, m1, m2, size, pid, a, buffer[..wrote], data);
    assert buffer[..wrote] + data == buffer[..wrote + n];
  }

  /** Both loops stop at an unmapped page. */
  lemma StopsAt(m: Pages, size: nat, pid: int, page: int, off: nat, n: nat)
    requires size > 0 && off < size && Entry(pid, page) !in m && n > 0
    ensures MappedPrefix(m, size, pid, FlatAddress(page, size, off), n) == 0
  {
    PageOfAddress(size, page, off);
  }

  lemma NoTurns(turns: seq<CacheState>, perProcess: nat, mapped: Pages, pid: int, page: int)
    requires |turns| == 1
    ensures ReadTurns(turns, perProcess, mapped, pid, page)
  {
  }

  lemma NoWrites(turns: seq<CacheState>, contents: seq<Pages>, perProcess: nat, pid: int, page: int)
    requires |turns| == 1 && |contents| == 1
    ensures WriteTurns(turns, contents, perProcess, pid, page)
  {
  }

  /** A chunk ends inside its page. */
  lemma PageHolds(page: int, size: nat, off: nat, n: nat)
    requires off + n <= size && n > 0
    ensures FlatAddress(page, size, 0) < FlatAddress(page, size, off) + n <= FlatAddress(page + 1, size, 0)
  {
  }

  /** A chunk that ends its page is followed by the start of the next one. */
  lemma NextPage(page: int, size: nat, off: nat, n: nat)
    requires off + n == size
    ensures FlatAddress(page + 1, size, 0) == FlatAddress(page, size, off) + n
  {
  }

  lemma WriteNothing(m: Pages, size: nat, pid: int, a: int)
    requires size > 0 && Sized(m, size)
    ensures Wrote(m, m, size, pid, a, [])
  {
  }
}
