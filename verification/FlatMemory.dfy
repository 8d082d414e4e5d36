/** What a process sees of the Memory process: one array of bytes per PID, some pages of
    which are mapped.  This is the simple form that the cached, hashed memory refines. */
module FlatMemory {
  import opened Wrappers
  import opened Bytes
  import opened Ram

  type Pages = map<Entry, seq<byte>>

  ghost predicate Sized(m: Pages, size: nat) {
    forall e :: e in m ==> |m[e]| == size
  }

  /** A page and an offset as one address. */
  function FlatAddress(page: int, size: nat, offset: int): int {
    page * size + offset
  }

  ghost predicate MappedAt(m: Pages, size: nat, pid: int, a: int)
    requires size > 0
  {
    Entry(pid, a / size) in m
  }

  ghost function ByteAt(m: Pages, size: nat, pid: int, a: int): byte
    requires size > 0 && Sized(m, size) && MappedAt(m, size, pid, a)
  {
    m[Entry(pid, a / size)][a % size]
  }

  /** How many of the `n` bytes from `a` on come before the first unmapped one. */
  ghost function MappedPrefix(m: Pages, size: nat, pid: int, a: int, n: nat): nat
    requires size > 0
    decreases n
  {
    if n == 0 || !MappedAt(m, size, pid, a) then 0 else 1 + MappedPrefix(m, size, pid, a + 1, n - 1)
  }

  ghost predicate Reads(m: Pages, size: nat, pid: int, a: int, data: seq<byte>)
    requires size > 0 && Sized(m, size)
  {
    forall b :: a <= b < a + |data| ==> MappedAt(m, size, pid, b) && ByteAt(m, size, pid, b) == data[b - a]
  }

  /** `m'` is `m` with `data` laid over the bytes of `pid` from `a` on, and nothing else. */
  ghost predicate Wrote(m: Pages, m': Pages, size: nat, pid: int, a: int, data: seq<byte>)
    requires size > 0 && Sized(m, size)
  {
    && Sized(m', size)
    && m'.Keys == m.Keys
    && forall p, b :: MappedAt(m, size, p, b) ==>
         ByteAt(m', size, p, b) == if p == pid && a <= b < a + |data| then data[b - a] else ByteAt(m, size, p, b)
  }

  lemma {:induction false} MappedPrefixIsLeast(m: Pages, size: nat, pid: int, a: int, n: nat)
    requires size > 0
    ensures MappedPrefix(m, size, pid, a, n) <= n
    ensures forall b :: a <= b < a + MappedPrefix(m, size, pid, a, n) ==> MappedAt(m, size, pid, b)
    ensures MappedPrefix(m, size, pid, a, n) < n ==>
              !MappedAt(m, size, pid, a + MappedPrefix(m, size, pid, a, n))
    decreases n
  {
    if n > 0 && MappedAt(m, size, pid, a) {
      hide MappedAt;
      MappedPrefixIsLeast(m, size, pid, a + 1, n - 1);
    }
  }

  /** Which bytes lie in a chunk of one page. */
  lemma ChunkHit(size: nat, page: int, off: nat, n: nat, b: int)
    requires size > 0 && off + n <= size
    ensures page * size + off <= b < page * size + off + n <==> b / size == page && off <= b % size < off + n
    ensures b / size == page ==> b - (page * size + off) == b % size - off
  {
    assert b == b / size * size + b % size;
    if page * size + off <= b < page * size + off + n {
      PageOfAddress(size, page, b - page * size);
    }
  }

  lemma ChunkMapped(m: Pages, size: nat, pid: int, page: int, off: nat, n: nat)
    requires size > 0 && off + n <= size
    ensures forall b :: page * size + off <= b < page * size + off + n ==>
              (MappedAt(m, size, pid, b) <==> Entry(pid, page) in m)
  {
    forall b | page * size + off <= b < page * size + off + n
      ensures MappedAt(m, size, pid, b) <==> Entry(pid, page) in m
    {
      ChunkHit(size, page, off, n, b);
    }
  }

  /** A copy out of one page is a flat read. */
  lemma ChunkRead(m: Pages, size: nat, pid: int, page: int, off: nat, n: nat)
    requires size > 0 && Sized(m, size) && off + n <= size && Entry(pid, page) in m
    ensures Reads(m, size, pid, page * size + off, m[Entry(pid, page)][off..off + n])
  {
    var a, data := page * size + off, m[Entry(pid, page)][off..off + n];
    forall b | a <= b < a + |data|
      ensures MappedAt(m, size, pid, b) && ByteAt(m, size, pid, b) == data[b - a]
    {
      ChunkHit(size, page, off, n, b);
    }
  }

  lemma ReadsThenReads(m: Pages, size: nat, pid: int, a: int, d1: seq<byte>, d2: seq<byte>)
    requires size > 0 && Sized(m, size) && Reads(m, size, pid, a, d1) && Reads(m, size, pid, a + |d1|, d2)
    ensures Reads(m, size, pid, a, d1 + d2)
  {
    hide MappedAt, ByteAt;
  }

  lemma {:induction false} MappedPrefixSplits(m: Pages, size: nat, pid: int, a: int, n: nat, first: nat)
    requires size > 0 && first <= n
    requires forall b :: a <= b < a + first ==> MappedAt(m, size, pid, b)
    ensures MappedPrefix(m, size, pid, a, n) == first + MappedPrefix(m, size, pid, a + first, n - first)
    decreases first
  {
    hide MappedAt;
    if first > 0 {
      assert MappedAt(m, size, pid, a);
      MappedPrefixSplits(m, size, pid, a + 1, n - 1, first - 1);
    }
  }

  /** A copy into one page is a flat write. */
  lemma ChunkWrite(m: Pages, size: nat, pid: int, page: int, off: nat, data: seq<byte>)
    requires size > 0 && Sized(m, size) && off + |data| <= size
    requires Entry(pid, page) in m
    ensures Wrote(m, m[Entry(pid, page) := Overlay(m[Entry(pid, page)], off, data)], size, pid, page * size + off, data)
  {
    var e := Entry(pid, page);
    var m' := m[e := Overlay(m[e], off, data)];
    var a := page * size + off;
    forall p, b | MappedAt(m, size, p, b)
      ensures ByteAt(m', size, p, b) == if p == pid && a <= b < a + |data| then data[b - a] else ByteAt(m, size, p, b)
    {
      ChunkHit(size, page, off, |data|, b);
    }
  }

  lemma WroteThenWrote(m: Pages, m1: Pages, m2: Pages, size: nat, pid: int, a: int, d1: seq<byte>, d2: seq<byte>)
    requires size > 0 && Sized(m, size) && Wrote(m, m1, size, pid, a, d1) && Wrote(m1, m2, size, pid, a + |d1|, d2)
    ensures Wrote(m, m2, size, pid, a, d1 + d2)
  {
    forall p, b | MappedAt(m, size, p, b)
      ensures ByteAt(m2, size, p, b) ==
              if p == pid && a <= b < a + |d1 + d2| then (d1 + d2)[b - a] else ByteAt(m, size, p, b)
    {
      assert MappedAt(m1, size, p, b);
    }
  }

  /** A write of one process never changes what another one reads, nor what the same
      process reads elsewhere. */
  lemma WriteIsolated(m: Pages, m': Pages, size: nat, pid: int, a: int, data: seq<byte>,
                      other: int, b: int, seen: seq<byte>)
    requires size > 0 && Sized(m, size) && Wrote(m, m', size, pid, a, data)
    requires other != pid || b + |seen| <= a || a + |data| <= b
    ensures Reads(m, size, other, b, seen) <==> Reads(m', size, other, b, seen)
  {
    forall x | b <= x < b + |seen|
      ensures MappedAt(m, size, other, x) <==> MappedAt(m', size, other, x)
      ensures MappedAt(m, size, other, x) ==> ByteAt(m', size, other, x) == ByteAt(m, size, other, x)
    {
    }
    hide MappedAt, ByteAt;
  }

  /** What was written over mapped pages is what is read back. */
  lemma ReadAfterWrite(m: Pages, m': Pages, size: nat, pid: int, a: int, data: seq<byte>)
    requires size > 0 && Sized(m, size) && Wrote(m, m', size, pid, a, data)
    requires MappedPrefix(m, size, pid, a, |data|) == |data|
    ensures Reads(m', size, pid, a, data)
  {
    MappedPrefixIsLeast(m, size, pid, a, |data|);
    assert forall b :: MappedAt(m, size, pid, b) ==> MappedAt(m', size, pid, b);
    hide MappedAt, ByteAt;
  }

  /** A successful read has one possible answer. */
  lemma ReadsIsFunction(m: Pages, size: nat, pid: int, a: int, d1: seq<byte>, d2: seq<byte>)
    requires size > 0 && Sized(m, size) && |d1| == |d2|
    requires Reads(m, size, pid, a, d1) && Reads(m, size, pid, a, d2)
    ensures d1 == d2
  {
    forall k | 0 <= k < |d1| ensures d1[k] == d2[k] {
      assert MappedAt(m, size, pid, a + k);
    }
  }

  /** The requests of the Memory protocol together with their answers.  Addresses are flat. */
  datatype Request =
    | Init(pid: int, count: nat, granted: bool)
    | GetPages(pid: int, count: nat, first: nat, granted: bool)
    | Read(pid: int, a: int, n: nat, answer: Option<seq<byte>>)
    | Write(pid: int, a: int, data: seq<byte>, written: int)
    | End(pid: int)
    | Flush

  const ERROR_MEMORY := -5

  /** What one request does to the plain map, and what it answers. */
  ghost predicate Next(m: Pages, m': Pages, size: nat, capacity: nat, r: Request)
    requires size > 0 && Sized(m, size)
  {
    && Sized(m', size)
    && match r
       case Init(pid, count, granted) =>
         && granted == (|m| + count <= capacity)
         && if granted then Granted(m, m', pid, 0, count) else m' == m
       case GetPages(pid, count, first, granted) =>
         && first >= 1 && IsPageMax(m.Keys, pid, first - 1)
         && granted == (|m| + count <= capacity)
         && if granted then Granted(m, m', pid, first, count) else m' == m
       case Read(pid, a, n, answer) =>
         && m' == m
         && (answer.None? <==> MappedPrefix(m, size, pid, a, n) < n)
         && (answer.Some? ==> |answer.value| == n && Reads(m, size, pid, a, answer.value))
       case Write(pid, a, data, written) =>
         var stored := MappedPrefix(m, size, pid, a, |data|);
         && stored <= |data|
         && Wrote(m, m', size, pid, a, data[..stored])
         && written == if stored == |data| then |data| else ERROR_MEMORY
       case End(pid) => Dropped(m, m', pid)
       case Flush => m' == m
  }

  /** The request may change bytes that `pid` sees in `b .. b + n`. */
  predicate Touches(r: Request, pid: int, b: int, n: nat) {
    match r
    case Write(p, a, data, _) => p == pid && a < b + n && b < a + |data|
    case End(p) => p == pid
    case _ => false
  }

  lemma StepKeepsReads(m: Pages, m': Pages, size: nat, capacity: nat, r: Request,
                       pid: int, b: int, seen: seq<byte>)
    requires size > 0 && Sized(m, size) && Next(m, m', size, capacity, r)
    requires Reads(m, size, pid, b, seen) && !Touches(r, pid, b, |seen|)
    ensures Reads(m', size, pid, b, seen)
  {
    match r
    case Write(p, a, data, _) =>
      var stored := MappedPrefix(m, size, p, a, |data|);
      WriteIsolated(m, m', size, p, a, data[..stored], pid, b, seen);
    case _ =>
      forall x | b <= x < b + |seen|
        ensures MappedAt(m', size, pid, x) && ByteAt(m', size, pid, x) == seen[x - b]
      {
        assert MappedAt(m, size, pid, x);
        assert Entry(pid, x / size) in m' && m'[Entry(pid, x / size)] == m[Entry(pid, x / size)];
      }
  }

  ghost predicate IsRun(states: seq<Pages>, requests: seq<Request>, size: nat, capacity: nat)
    requires size > 0
  {
    && |states| == |requests| + 1
    && Sized(states[0], size)
    && forall i :: 0 <= i < |requests| ==>
         Sized(states[i], size) && Next(states[i], states[i + 1], size, capacity, requests[i])
  }

  /** Over any run, a process keeps reading the same bytes until it overwrites them itself
      or ends, whatever the other processes do. */
  lemma {:induction false} RunKeepsReads(states: seq<Pages>, requests: seq<Request>, size: nat, capacity: nat,
                                         pid: int, b: int, seen: seq<byte>)
    requires size > 0 && IsRun(states, requests, size, capacity)
    requires Reads(states[0], size, pid, b, seen)
    requires forall i :: 0 <= i < |requests| ==> !Touches(requests[i], pid, b, |seen|)
    ensures Sized(states[|requests|], size) && Reads(states[|requests|], size, pid, b, seen)
    decreases |requests|
  {
    if requests != [] {
      var n := |requests| - 1;
      hide Next, Reads;
      assert forall i :: 0 <= i < n ==> requests[..n][i] == requests[i];
      assert forall i :: 0 <= i <= n ==> states[..n + 1][i] == states[i];
      RunKeepsReads(states[..n + 1], requests[..n], size, capacity, pid, b, seen);
      NextIsSized(states[n], states[n + 1], size, capacity, requests[n]);
      StepKeepsReads(states[n], states[n + 1], size, capacity, requests[n], pid, b, seen);
    }
  }

  lemma NextIsSized(m: Pages, m': Pages, size: nat, capacity: nat, r: Request)
    requires size > 0 && Sized(m, size) && Next(m, m', size, capacity, r)
    ensures Sized(m', size)
  {
  }
}
