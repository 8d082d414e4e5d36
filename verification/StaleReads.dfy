/** A short run of the Memory process after which it answers for a page that is not mapped:
    `ram_free_page` leaves the page's cache entry behind. */
module StaleReads {
  import opened Wrappers
  import opened Bytes
  import opened Ram
  import opened Cache
  import opened FlatMemory
  import opened Memory

  /** Init one page, write to it, free it, read it: with any hash, any page size and any
      cache that lets a process cache something, the old bytes are read. */
  method ReadAfterFree(hash: (int, int) -> nat, frameSize: nat, frameCount: nat, entrySize: nat, cacheEntryCount: nat,
                       cachePerProcess: nat, timeSeed: int, pid: int, data: seq<byte>)
    returns (r: Option<seq<byte>>, memory: MemoryProcess, ghost coherent: bool)
    requires frameSize > 0 && cacheEntryCount > 0 && cachePerProcess > 0
    requires BytesToPages(frameCount * entrySize, frameSize) < frameCount
    requires pid >= 0 && 0 < |data| <= frameSize
    ensures fresh(memory) && memory.ram.frameSize == frameSize && memory.Sound() && memory.ram.mapped == map[]
    // the cached page is no longer mapped
    ensures !coherent
    // it is read all the same, where the plain map has nothing to read
    ensures r == Some(data)
    ensures forall m :: !Next(map[], m, frameSize, memory.ram.table.Length, FlatMemory.Read(pid, 0, |data|, r))
  {
    hide PageTable.Shape, PageCache.Valid, Next;
    memory := new MemoryProcess(hash, frameSize, frameCount, entrySize, cacheEntryCount, cachePerProcess, timeSeed);
    Stored(memory, pid, data);
    var freed := memory.FreePage(pid, 0);
    coherent := memory.Coherent();
    assert memory.ram.mapped == map[];
    NothingToRead(frameSize, memory.ram.table.Length, pid, |data|, data);
    ghost var turns;
    r, turns := memory.Read(pid, 0, 0, |data|);
  }

  /** The page is mapped, holds the data, and is cached. */
  method Stored(memory: MemoryProcess, pid: int, data: seq<byte>)
    requires memory.Valid() && memory.ram.mapped == map[] && memory.cache.perProcess > 0
    requires pid >= 0 && 0 < |data| <= memory.ram.frameSize
    modifies memory.ram, memory.ram.table, memory.ram.frames, memory.cache, memory.cache.cache
    ensures memory.Valid()
    ensures memory.ram.mapped.Keys == {Entry(pid, 0)} && Entry(pid, 0) in memory.cache.cached
    ensures |memory.cache.cached[Entry(pid, 0)]| == memory.ram.frameSize
    ensures memory.cache.cached[Entry(pid, 0)][0..|data|] == data
  {
    memory.ram.HasFrames();
    hide PageTable.Shape, PageCache.Valid;
    var size, e := memory.ram.frameSize, Entry(pid, 0);
    var result := memory.Init(pid, 1);
    ghost var m := memory.ram.mapped;
    assert m.Keys == {e};
    var written, turns, contents := memory.Write(pid, 0, 0, |data|, data);
    WholeWritten(m, memory.ram.mapped, size, memory.ram.table.Length, pid, data, written);
  }

  lemma WholeWritten(m: Pages, m': Pages, size: nat, capacity: nat, pid: int, data: seq<byte>, written: int)
    requires size > 0 && Sized(m, size) && m.Keys == {Entry(pid, 0)} && 0 < |data| <= size
    requires Next(m, m', size, capacity, FlatMemory.Write(pid, FlatAddress(0, size, 0), data, written))
    ensures written == |data| && m'.Keys == m.Keys && |m'[Entry(pid, 0)]| == size
    ensures m'[Entry(pid, 0)][0..|data|] == data
  {
    hide Wrote, Reads, MappedPrefix, ByteAt;
    ChunkMapped(m, size, pid, 0, 0, |data|);
    MappedPrefixSplits(m, size, pid, 0, |data|, |data|);
    MappedPrefixIsLeast(m, size, pid, 0 + |data|, 0);
    assert data[..|data|] == data;
    ReadAfterWrite(m, m', size, pid, 0, data);
    WrittenKeys(m, m', size, pid, 0, data);
    ChunkRead(m', size, pid, 0, 0, |data|);
    ReadsIsFunction(m', size, pid, 0, data, m'[Entry(pid, 0)][0..|data|]);
  }

  lemma WrittenKeys(m: Pages, m': Pages, size: nat, pid: int, a: int, data: seq<byte>)
    requires size > 0 && Sized(m, size) && Wrote(m, m', size, pid, a, data)
    ensures m'.Keys == m.Keys && Sized(m', size)
  {
  }

  /** On the empty map no read of anything succeeds. */
  lemma NothingToRead(size: nat, capacity: nat, pid: int, n: nat, data: seq<byte>)
    requires size > 0 && n > 0
    ensures forall m :: !Next(map[], m, size, capacity, FlatMemory.Read(pid, 0, n, Some(data)))
  {
    assert MappedPrefix(map[], size, pid, 0, n) == 0;
  }
}
