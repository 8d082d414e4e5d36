/** The layout of one heap page (Kernel/src/functions/heap.c): a row of blocks, each an
    8-byte header followed by its payload, that covers the page from end to end. */
module HeapLayout {
  import opened Bytes

  const HEADER := 8

  /** `t_heapmetadata` */
  datatype Block = Block(size: nat, free: bool)

  // ----- headers in the bytes of a page

  function EncodeHeader(b: Block): (r: seq<byte>)
    requires b.size < 0x1_0000_0000
    ensures |r| == HEADER
  {
    EncodeU32(b.size) + [if b.free then 1 else 0, 0, 0, 0]
  }

  function DecodeHeader(h: seq<byte>): Block
    requires |h| == HEADER
  {
    Block(DecodeU32(h[..4]), h[4] == 1)
  }

  lemma HeaderRoundTrip(b: Block)
    requires b.size < 0x1_0000_0000
    ensures DecodeHeader(EncodeHeader(b)) == b
  {
    U32RoundTrip(b.size);
    assert EncodeHeader(b)[..4] == EncodeU32(b.size);
  }

  /** The blocks `bs` tile the bytes from `off` to `end` exactly. */
  ghost predicate Tiles(page: seq<byte>, off: nat, bs: seq<Block>, end: nat)
    requires end <= |page|
    decreases |bs|
  {
    if bs == [] then off == end
    else
      && off + HEADER + bs[0].size <= end
      && DecodeHeader(page[off..off + HEADER]) == bs[0]
      && Tiles(page, off + HEADER + bs[0].size, bs[1..], end)
  }

  /** Bytes covered by the blocks, headers included. */
  function Span(bs: seq<Block>): nat {
    if bs == [] then 0 else HEADER + bs[0].size + Span(bs[1..])
  }

  /** Free payload bytes: what `freeSpace` caches. */
  function FreeSum(bs: seq<Block>): nat {
    if bs == [] then 0 else (if bs[0].free then bs[0].size else 0) + FreeSum(bs[1..])
  }

  /** The allocated blocks, as (offset of the header, size). */
  function Live(bs: seq<Block>, off: nat): set<(nat, nat)> {
    if bs == [] then {}
    else (if bs[0].free then {} else {(off, bs[0].size)}) + Live(bs[1..], off + HEADER + bs[0].size)
  }

  ghost predicate NoAdjacentFree(bs: seq<Block>) {
    forall i :: 0 <= i < |bs| - 1 ==> !(bs[i].free && bs[i + 1].free)
  }

  // ----- concatenation

  lemma {:induction false} SpanAppend(a: seq<Block>, b: seq<Block>)
    ensures Span(a + b) == Span(a) + Span(b)
  {
    if a == [] { assert a + b == b; } else {
      assert (a + b)[1..] == a[1..] + b;
      SpanAppend(a[1..], b);
    }
  }

  lemma {:induction false} FreeSumAppend(a: seq<Block>, b: seq<Block>)
    ensures FreeSum(a + b) == FreeSum(a) + FreeSum(b)
  {
    if a == [] { assert a + b == b; } else {
      assert (a + b)[1..] == a[1..] + b;
      FreeSumAppend(a[1..], b);
    }
  }

  lemma {:induction false} LiveAppend(a: seq<Block>, b: seq<Block>, off: nat)
    ensures Live(a + b, off) == Live(a, off) + Live(b, off + Span(a))
    decreases |a|
  {
    if a == [] { assert a + b == b; } else {
      assert (a + b)[1..] == a[1..] + b;
      LiveAppend(a[1..], b, off + HEADER + a[0].size);
    }
  }

  lemma {:induction false} TilesSpan(page: seq<byte>, off: nat, bs: seq<Block>, end: nat)
    requires end <= |page| && Tiles(page, off, bs, end)
    ensures off + Span(bs) == end
    decreases |bs|
  {
    if bs != [] { TilesSpan(page, off + HEADER + bs[0].size, bs[1..], end); }
  }

  lemma {:induction false} TilesSplit(page: seq<byte>, off: nat, a: seq<Block>, b: seq<Block>, end: nat)
    requires end <= |page| && Tiles(page, off, a + b, end)
    ensures off + Span(a) <= end
    ensures Tiles(page, off, a, off + Span(a)) && Tiles(page, off + Span(a), b, end)
    decreases |a|
  {
    TilesSpan(page, off, a + b, end);
    SpanAppend(a, b);
    if a == [] { assert a + b == b; } else {
      assert (a + b)[1..] == a[1..] + b;
      TilesSplit(page, off + HEADER + a[0].size, a[1..], b, end);
    }
  }

  lemma {:induction false} TilesJoin(page: seq<byte>, off: nat, a: seq<Block>, mid: nat, b: seq<Block>, end: nat)
    requires mid <= end <= |page| && Tiles(page, off, a, mid) && Tiles(page, mid, b, end)
    ensures Tiles(page, off, a + b, end)
    decreases |a|
  {
    if a == [] { assert a + b == b; } else {
      assert (a + b)[1..] == a[1..] + b;
      TilesJoin(page, off + HEADER + a[0].size, a[1..], mid, b, end);
    }
  }

  /** Only the bytes between `off` and `end` matter. */
  lemma {:induction false} TilesFrame(page: seq<byte>, page': seq<byte>, off: nat, bs: seq<Block>, end: nat)
    requires end <= |page| == |page'| && Tiles(page, off, bs, end)
    requires forall k :: off <= k < end ==> page'[k] == page[k]
    ensures Tiles(page', off, bs, end)
    decreases |bs|
  {
    if bs != [] {
      assert page'[off..off + HEADER] == page[off..off + HEADER];
      TilesFrame(page, page', off + HEADER + bs[0].size, bs[1..], end);
    }
  }

  /** A page has one layout. */
  lemma {:induction false} LayoutUnique(page: seq<byte>, off: nat, x: seq<Block>, y: seq<Block>, end: nat)
    requires end <= |page| && Tiles(page, off, x, end) && Tiles(page, off, y, end)
    ensures x == y
    decreases |x|
  {
    TilesSpan(page, off, x, end);
    TilesSpan(page, off, y, end);
    if x != [] && y != [] {
      LayoutUnique(page, off + HEADER + x[0].size, x[1..], y[1..], end);
      assert x == [x[0]] + x[1..] && y == [y[0]] + y[1..];
    }
  }

  lemma TilesOne(page: seq<byte>, off: nat, b: Block)
    requires off + HEADER + b.size <= |page|
    ensures Tiles(page, off, [b], off + HEADER + b.size) <==> DecodeHeader(page[off..off + HEADER]) == b
    ensures Span([b]) == HEADER + b.size
  {
    assert [b][1..] == [];
  }

  lemma OneBlock(b: Block, off: nat)
    ensures Span([b]) == HEADER + b.size
    ensures FreeSum([b]) == if b.free then b.size else 0
    ensures Live([b], off) == if b.free then {} else {(off, b.size)}
  {
    assert [b][1..] == [];
  }

  lemma TwoBlocks(b: Block, c: Block, off: nat)
    ensures Span([b, c]) == HEADER + b.size + HEADER + c.size
    ensures FreeSum([b, c]) == FreeSum([b]) + FreeSum([c])
    ensures Live([b, c], off) == Live([b], off) + Live([c], off + HEADER + b.size)
  {
    assert [b, c] == [b] + [c];
    OneBlock(b, off);
    OneBlock(c, off);
    SpanAppend([b], [c]);
    FreeSumAppend([b], [c]);
    LiveAppend([b], [c], off);
  }

  // ----- one header is rewritten

  /** The middle of a tiling is exchanged for blocks that cover the same bytes. */
  lemma ReplaceMiddle(page: seq<byte>, page': seq<byte>, a: seq<Block>, m: seq<Block>, m': seq<Block>, c: seq<Block>)
    requires |page| == |page'| && Tiles(page, 0, a + m + c, |page|)
    requires Span(a) + Span(m) <= |page|
    requires Tiles(page', Span(a), m', Span(a) + Span(m))
    requires forall k :: 0 <= k < |page| && !(Span(a) <= k < Span(a) + Span(m)) ==> page'[k] == page[k]
    ensures Tiles(page', 0, a + m' + c, |page|)
  {
    hide Tiles, Span;
    var from, to := Span(a), Span(a) + Span(m);
    TilesThree(page, a, m, c);
    TilesFrame(page, page', 0, a, from);
    TilesFrame(page, page', to, c, |page|);
    TilesJoin(page', 0, a, from, m', to);
    TilesJoin(page', 0, a + m', to, c, |page|);
  }

  lemma TilesThree(page: seq<byte>, a: seq<Block>, m: seq<Block>, c: seq<Block>)
    requires Tiles(page, 0, a + m + c, |page|)
    ensures Span(a) + Span(m) <= |page|
    ensures Tiles(page, 0, a, Span(a))
    ensures Tiles(page, Span(a), m, Span(a) + Span(m))
    ensures Tiles(page, Span(a) + Span(m), c, |page|)
  {
    hide Tiles, Span;
    assert a + m + c == a + (m + c);
    TilesSplit(page, 0, a, m + c, |page|);
    TilesSplit(page, Span(a), m, c, |page|);
  }

  /** A header laid over a page is read back. */
  lemma HeaderStored(page: seq<byte>, off: nat, b: Block)
    requires off + HEADER <= |page| && b.size < 0x1_0000_0000
    ensures var page' := Overlay(page, off, EncodeHeader(b));
            && |page'| == |page|
            && DecodeHeader(page'[off..off + HEADER]) == b
            && forall k :: 0 <= k < |page| && !(off <= k < off + HEADER) ==> page'[k] == page[k]
  {
    HeaderRoundTrip(b);
    assert Overlay(page, off, EncodeHeader(b))[off..off + HEADER] == EncodeHeader(b);
  }

  // ----- the payloads

  lemma {:induction false} LiveInside(bs: seq<Block>, off: nat, o: nat, n: nat)
    requires (o, n) in Live(bs, off)
    ensures off <= o && o + HEADER + n <= off + Span(bs)
    decreases |bs|
  {
    if (o, n) in Live(bs[1..], off + HEADER + bs[0].size) {
      LiveInside(bs[1..], off + HEADER + bs[0].size, o, n);
    }
  }

  /** Two live allocations share no byte, headers included. */
  lemma {:induction false} LiveDisjoint(bs: seq<Block>, off: nat, o1: nat, n1: nat, o2: nat, n2: nat)
    requires (o1, n1) in Live(bs, off) && (o2, n2) in Live(bs, off) && (o1, n1) != (o2, n2)
    ensures o1 + HEADER + n1 <= o2 || o2 + HEADER + n2 <= o1
    decreases |bs|
  {
    var tail, next := bs[1..], off + HEADER + bs[0].size;
    if (o1, n1) in Live(tail, next) { LiveInside(tail, next, o1, n1); }
    if (o2, n2) in Live(tail, next) { LiveInside(tail, next, o2, n2); }
    if (o1, n1) in Live(tail, next) && (o2, n2) in Live(tail, next) {
      LiveDisjoint(tail, next, o1, n1, o2, n2);
    }
  }

  /** Where a live allocation stands in the row. */
  lemma {:induction false} LivePosition(bs: seq<Block>, off: nat, o: nat, n: nat) returns (i: nat)
    requires (o, n) in Live(bs, off)
    ensures i < |bs| && off + Span(bs[..i]) == o && bs[i] == Block(n, false)
    decreases |bs|
  {
    if !bs[0].free && (o, n) == (off, bs[0].size) {
      i := 0;
    } else {
      var j := LivePosition(bs[1..], off + HEADER + bs[0].size, o, n);
      i := j + 1;
      assert bs[..i][1..] == bs[1..][..j];
    }
  }

  /** Whatever the program stores in the payload of a live allocation, the layout stands. */
  lemma PayloadWriteKeepsLayout(page: seq<byte>, bs: seq<Block>, o: nat, n: nat, at: nat, data: seq<byte>)
    requires Tiles(page, 0, bs, |page|) && (o, n) in Live(bs, 0)
    requires o + HEADER <= at && at + |data| <= o + HEADER + n
    ensures at + |data| <= |page|
    ensures Tiles(Overlay(page, at, data), 0, bs, |page|)
  {
    hide Tiles, Live, Span, DecodeHeader, Overlay;
    TilesSpan(page, 0, bs, |page|);
    LiveInside(bs, 0, o, n);
    var i := LivePosition(bs, 0, o, n);
    var page' := Overlay(page, at, data);
    var a, m, c := bs[..i], [bs[i]], bs[i + 1..];
    assert bs == a + m + c;
    hide NoAdjacentFree;
    TilesThree(page, a, m, c);
    assert page'[o..o + HEADER] == page[o..o + HEADER];
    TilesOne(page, o, bs[i]);
    TilesOne(page', o, bs[i]);
    ReplaceMiddle(page, page', a, m, m, c);
  }

  // ----- first fit, split, free

  /** The test of the search: the block is taken whole, or leaves room for a header. */
  predicate Fits(b: Block, size: nat) {
    b.free && (size == b.size || size + HEADER <= b.size)
  }

  /** The index of the first block that fits, or the number of blocks. */
  function FirstFit(bs: seq<Block>, size: nat): (r: nat)
    ensures r <= |bs|
    ensures r < |bs| ==> Fits(bs[r], size)
    ensures forall k :: 0 <= k < r ==> !Fits(bs[k], size)
  {
    if bs == [] || Fits(bs[0], size) then 0
    else
      var r := FirstFit(bs[1..], size);
      assert forall k :: 1 <= k < r + 1 ==> bs[k] == bs[1..][k - 1];
      r + 1
  }

  /** The blocks after `heap_alloc` took block `i`. */
  function Split(bs: seq<Block>, i: nat, size: nat): seq<Block>
    requires i < |bs| && (size == bs[i].size || size + HEADER <= bs[i].size)
  {
    bs[..i] + Taken(bs[i], size) + bs[i + 1..]
  }

  /** The blocks after `heap_free` marked block `i`. */
  function Release(bs: seq<Block>, i: nat): seq<Block>
    requires i < |bs|
  {
    bs[i := bs[i].(free := true)]
  }

  /** What block `i` becomes when it is taken. */
  function Taken(b: Block, size: nat): seq<Block>
    requires size == b.size || size + HEADER <= b.size
  {
    if size == b.size then [Block(size, false)]
    else [Block(size, false), Block(b.size - size - HEADER, b.free)]
  }

  lemma TakenFacts(b: Block, size: nat, off: nat)
    requires Fits(b, size)
    ensures Span(Taken(b, size)) == HEADER + b.size
    ensures FreeSum(Taken(b, size)) == b.size - size - (if size == b.size then 0 else HEADER)
    ensures Live(Taken(b, size), off) == {(off, size)}
  {
    hide Span, FreeSum, Live;
    OneBlock(Block(size, false), off);
    if size != b.size {
      var rest := Block(b.size - size - HEADER, b.free);
      OneBlock(rest, off + HEADER + size);
      TwoBlocks(Block(size, false), rest, off);
    }
  }

  lemma SplitFacts(bs: seq<Block>, i: nat, size: nat)
    requires i < |bs| && Fits(bs[i], size)
    ensures Span(Split(bs, i, size)) == Span(bs)
    ensures FreeSum(Split(bs, i, size)) == FreeSum(bs) - size - (if size == bs[i].size then 0 else HEADER)
    ensures Live(Split(bs, i, size), 0) == Live(bs, 0) + {(Span(bs[..i]), size)}
  {
    hide Span, FreeSum, Live, Taken;
    var a, m, c := bs[..i], [bs[i]], bs[i + 1..];
    assert bs == a + m + c;
    OneBlock(bs[i], Span(a));
    TakenFacts(bs[i], size, Span(a));
    SumsOfThree(a, m, c);
    SumsOfThree(a, Taken(bs[i], size), c);
  }

  lemma SumsOfThree(a: seq<Block>, m: seq<Block>, c: seq<Block>)
    ensures Span(a + m + c) == Span(a) + Span(m) + Span(c)
    ensures FreeSum(a + m + c) == FreeSum(a) + FreeSum(m) + FreeSum(c)
    ensures Live(a + m + c, 0) == Live(a, 0) + Live(m, Span(a)) + Live(c, Span(a) + Span(m))
  {
    SpanAppend(a, m);
    SpanAppend(a + m, c);
    FreeSumAppend(a, m);
    FreeSumAppend(a + m, c);
    LiveAppend(a, m, 0);
    LiveAppend(a + m, c, 0);
  }

  lemma ReleaseFacts(bs: seq<Block>, i: nat)
    requires i < |bs| && !bs[i].free
    ensures Span(Release(bs, i)) == Span(bs)
    ensures FreeSum(Release(bs, i)) == FreeSum(bs) + bs[i].size
    ensures Live(Release(bs, i), 0) == Live(bs, 0) - {(Span(bs[..i]), bs[i].size)}
  {
    hide Span, FreeSum, Live;
    assert bs == bs[..i] + [Block(bs[i].size, false)] + bs[i + 1..];
    assert Release(bs, i) == bs[..i] + [Block(bs[i].size, true)] + bs[i + 1..];
    ReleaseMiddle(bs[..i], bs[i].size, bs[i + 1..]);
  }

  /** `heap_free` adds the block's size to `freeSpace` without looking at its flag: the sum
      stays right just when the block was allocated, or empty. */
  lemma FreeSpaceRightIffAllocated(bs: seq<Block>, i: nat)
    requires i < |bs|
    ensures FreeSum(Release(bs, i)) == FreeSum(bs) + bs[i].size <==> !bs[i].free || bs[i].size == 0
  {
    hide FreeSum;
    if bs[i].free {
      assert Release(bs, i) == bs;
    } else {
      ReleaseFacts(bs, i);
    }
  }

  lemma ReleaseMiddle(a: seq<Block>, n: nat, c: seq<Block>)
    ensures Span(a + [Block(n, true)] + c) == Span(a + [Block(n, false)] + c)
    ensures FreeSum(a + [Block(n, true)] + c) == FreeSum(a + [Block(n, false)] + c) + n
    ensures Live(a + [Block(n, true)] + c, 0) == Live(a + [Block(n, false)] + c, 0) - {(Span(a), n)}
  {
    hide Span, FreeSum, Live;
    OneBlock(Block(n, true), Span(a));
    OneBlock(Block(n, false), Span(a));
    SumsOfThree(a, [Block(n, true)], c);
    SumsOfThree(a, [Block(n, false)], c);
    LiveElsewhere(a, n, c);
  }

  lemma LiveElsewhere(a: seq<Block>, n: nat, c: seq<Block>)
    ensures (Span(a), n) !in Live(a, 0) && (Span(a), n) !in Live(c, Span(a) + HEADER + n)
  {
    if (Span(a), n) in Live(a, 0) { LiveInside(a, 0, Span(a), n); }
    if (Span(a), n) in Live(c, Span(a) + HEADER + n) { LiveInside(c, Span(a) + HEADER + n, Span(a), n); }
  }

  // ----- coalescing

  /** One pass of `heap_defrag`. */
  function Coalesce(bs: seq<Block>): seq<Block>
    decreases |bs|
  {
    if |bs| < 2 then bs
    else if bs[0].free && bs[1].free then Coalesce([Block(bs[0].size + HEADER + bs[1].size, true)] + bs[2..])
    else [bs[0]] + Coalesce(bs[1..])
  }

  /** Merging two free neighbours by hand. */
  function MergeAt(bs: seq<Block>, i: nat): seq<Block>
    requires i + 1 < |bs|
  {
    bs[..i] + [Block(bs[i].size + HEADER + bs[i + 1].size, true)] + bs[i + 2..]
  }

  /** Coalescing moves no allocation, covers the same bytes, leaves no two free neighbours
      and turns each header it drops into free space. */
  lemma {:induction false} CoalesceFacts(bs: seq<Block>, off: nat)
    ensures Span(Coalesce(bs)) == Span(bs)
    ensures Live(Coalesce(bs), off) == Live(bs, off)
    ensures NoAdjacentFree(Coalesce(bs))
    ensures |Coalesce(bs)| <= |bs| && (bs != [] ==> Coalesce(bs) != [])
    ensures FreeSum(Coalesce(bs)) == FreeSum(bs) + HEADER * (|bs| - |Coalesce(bs)|)
    ensures bs != [] && !bs[0].free ==> !Coalesce(bs)[0].free
    decreases |bs|
  {
    if |bs| >= 2 {
      if bs[0].free && bs[1].free {
        var merged := [Block(bs[0].size + HEADER + bs[1].size, true)] + bs[2..];
        assert bs[1..][1..] == bs[2..] && merged[1..] == bs[2..];
        CoalesceFacts(merged, off);
      } else {
        var tail := Coalesce(bs[1..]);
        CoalesceFacts(bs[1..], off + HEADER + bs[0].size);
        assert ([bs[0]] + tail)[1..] == tail;
      }
    }
  }

  /** A layout without free neighbours is determined by its allocations and its extent. */
  lemma {:induction false} CoalescedIsCanonical(x: seq<Block>, y: seq<Block>, off: nat)
    requires NoAdjacentFree(x) && NoAdjacentFree(y)
    requires Span(x) == Span(y) && Live(x, off) == Live(y, off)
    ensures x == y
    decreases |x|
  {
    if x != [] {
      FirstBlockSame(x, y, off);
      var next := off + HEADER + x[0].size;
      TailLive(x, off);
      TailLive(y, off);
      CoalescedIsCanonical(x[1..], y[1..], next);
      assert x == [x[0]] + x[1..] && y == [y[0]] + y[1..];
    }
  }

  /** The allocations behind the first block are those further on. */
  lemma TailLive(x: seq<Block>, off: nat)
    requires x != []
    ensures Live(x[1..], off + HEADER + x[0].size) == set p | p in Live(x, off) && p.0 > off
  {
    forall p | p in Live(x[1..], off + HEADER + x[0].size) ensures p.0 > off {
      LiveInside(x[1..], off + HEADER + x[0].size, p.0, p.1);
    }
  }

  lemma FirstBlockSame(x: seq<Block>, y: seq<Block>, off: nat)
    requires NoAdjacentFree(x) && NoAdjacentFree(y) && x != []
    requires Span(x) == Span(y) && Live(x, off) == Live(y, off)
    ensures y != [] && x[0] == y[0]
  {
    FirstLive(x, off);
    FirstLive(y, off);
    if x[0].free && y[0].free {
      if |x| == 1 {
        assert Live(y, off) == {};
      } else {
        assert (off + HEADER + x[0].size, x[1].size) in Live(y, off);
      }
    }
  }

  /** The first allocation of a coalesced row is its first or second block. */
  lemma FirstLive(x: seq<Block>, off: nat)
    requires NoAdjacentFree(x) && x != []
    ensures !x[0].free ==> (off, x[0].size) in Live(x, off)
    ensures !x[0].free ==> forall p :: p in Live(x, off) && p.0 == off ==> p.1 == x[0].size
    ensures x[0].free ==> forall p :: p in Live(x, off) ==> p.0 >= off + HEADER + x[0].size
    ensures x[0].free && |x| == 1 ==> Live(x, off) == {}
    ensures x[0].free && |x| == 1 ==> Span(x) == HEADER + x[0].size
    ensures x[0].free && |x| > 1 ==> (off + HEADER + x[0].size, x[1].size) in Live(x, off)
  {
    var next := off + HEADER + x[0].size;
    forall p | p in Live(x[1..], next) ensures p.0 >= next {
      LiveInside(x[1..], next, p.0, p.1);
    }
  }

  /** One pass does what merging free neighbours one pair at a time, in any order, does. */
  lemma CoalesceIsConfluent(bs: seq<Block>, i: nat)
    requires i + 1 < |bs| && bs[i].free && bs[i + 1].free
    ensures Coalesce(MergeAt(bs, i)) == Coalesce(bs)
  {
    MergeFacts(bs, i);
    CoalesceFacts(bs, 0);
    CoalesceFacts(MergeAt(bs, i), 0);
    CoalescedIsCanonical(Coalesce(MergeAt(bs, i)), Coalesce(bs), 0);
  }

  lemma MergeFacts(bs: seq<Block>, i: nat)
    requires i + 1 < |bs| && bs[i].free && bs[i + 1].free
    ensures Span(MergeAt(bs, i)) == Span(bs) && Live(MergeAt(bs, i), 0) == Live(bs, 0)
  {
    assert bs == bs[..i] + [bs[i], bs[i + 1]] + bs[i + 2..];
    MergeMiddle(bs[..i], bs[i], bs[i + 1], bs[i + 2..]);
  }

  lemma MergeMiddle(a: seq<Block>, b: Block, b': Block, c: seq<Block>)
    requires b.free && b'.free
    ensures var merged := [Block(b.size + HEADER + b'.size, true)];
            Span(a + merged + c) == Span(a + [b, b'] + c) && Live(a + merged + c, 0) == Live(a + [b, b'] + c, 0)
  {
    hide Span, FreeSum, Live;
    var merged := Block(b.size + HEADER + b'.size, true);
    OneBlock(merged, Span(a));
    OneBlock(b, Span(a));
    OneBlock(b', Span(a) + HEADER + b.size);
    TwoBlocks(b, b', Span(a));
    SumsOfThree(a, [merged], c);
    SumsOfThree(a, [b, b'], c);
  }

  /** What ends any such merging is the result of the pass. */
  lemma {:induction false} CoalesceOfCoalesced(bs: seq<Block>)
    requires NoAdjacentFree(bs)
    ensures Coalesce(bs) == bs
  {
    CoalesceFacts(bs, 0);
    CoalescedIsCanonical(Coalesce(bs), bs, 0);
  }

  /** `freeSpace` reaches the payload of an empty page exactly when nothing is allocated. */
  lemma FullyFree(bs: seq<Block>, pageSize: nat)
    requires NoAdjacentFree(bs) && Span(bs) == pageSize > HEADER
    ensures FreeSum(bs) == pageSize - HEADER <==> Live(bs, 0) == {}
  {
    FreeAndSpan(bs);
    FirstLive(bs, 0);
  }

  lemma {:induction false} FreeAndSpan(bs: seq<Block>)
    ensures FreeSum(bs) + HEADER * |bs| <= Span(bs)
  {
    if bs != [] { FreeAndSpan(bs[1..]); }
  }

  lemma {:induction false} FreeSumCovers(bs: seq<Block>, i: nat)
    requires i < |bs| && bs[i].free
    ensures bs[i].size <= FreeSum(bs)
  {
    if i > 0 { FreeSumCovers(bs[1..], i - 1); }
  }
}
