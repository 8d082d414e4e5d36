/** The heap of one program (Kernel/src/functions/heap.c and the two entry points of
    Kernel/src/interface/memory.c): pages asked from the Memory process, headers kept inside
    the pages, `freeSpace` cached per page. */
module Heap {
  import opened Bytes
  import opened HeapLayout

  /** `t_heap_page` */
  datatype HeapPage = HeapPage(page: int, freeSpace: int)

  datatype AllocResult =
    | Pointer(address: int)
    | Failed(code: int)
    | KernelExit             // exit(EXIT_FAILURE)

  const ERROR_MEMORY := -5
  const ERROR_ALLOC_BIGGER_THAN_PAGE_SIZE := -8
  const ERROR_NO_PAGES_FOR_PROCESS := -9

  ghost predicate PageOk(bytes: seq<byte>, bs: seq<Block>, freeSpace: int, pageSize: nat) {
    && |bytes| == pageSize
    && Tiles(bytes, 0, bs, pageSize)
    && NoAdjacentFree(bs)
    && freeSpace == FreeSum(bs)
  }

  /** What is left of a page that was handed back: its entry in the list, which says that it
      is empty, and the bytes it held last, one free block, which Memory may still cache. */
  ghost predicate LeftBehind(entry: HeapPage, last: map<int, seq<byte>>, pageSize: nat)
    requires pageSize > HEADER
  {
    && entry.page in last && |last[entry.page]| == pageSize
    && entry.freeSpace == pageSize - HEADER
    && Tiles(last[entry.page], 0, [Block(pageSize - HEADER, true)], pageSize)
  }

  /** The pages below `base` hold code and stack; those from `base` on belong to the heap.
      A heap page that was handed back is still listed but no longer mapped. */
  ghost predicate HeapOk(memory: map<int, seq<byte>>, heapPages: seq<HeapPage>, layout: map<int, seq<Block>>,
                         last: map<int, seq<byte>>, base: int, pageSize: nat)
  {
    && (forall i, j :: 0 <= i < j < |heapPages| ==> heapPages[i].page != heapPages[j].page)
    && (forall i :: 0 <= i < |heapPages| ==> heapPages[i].page >= base)
    && (forall k :: 0 <= k < base ==> k in memory)
    && (forall k :: k in memory ==> k >= 0 && |memory[k]| == pageSize)
    && (forall k :: k in layout <==> k in memory && k >= base)
    && (forall k :: k in layout ==> Listed(heapPages, k))
    && (forall i :: 0 <= i < |heapPages| && heapPages[i].page in layout ==>
          PageOk(memory[heapPages[i].page], layout[heapPages[i].page], heapPages[i].freeSpace, pageSize))
    && (forall i :: 0 <= i < |heapPages| && heapPages[i].page !in memory ==>
          pageSize > HEADER && LeftBehind(heapPages[i], last, pageSize))
  }

  predicate Listed(heapPages: seq<HeapPage>, page: int) {
    exists i :: 0 <= i < |heapPages| && heapPages[i].page == page
  }

  /** The page numbers in the list. */
  function Numbers(heapPages: seq<HeapPage>): (r: seq<int>)
    ensures |r| == |heapPages| && forall i :: 0 <= i < |r| ==> r[i] == heapPages[i].page
  {
    seq(|heapPages|, i requires 0 <= i < |heapPages| => heapPages[i].page)
  }

  /** Every listed page is still mapped: none was handed back. */
  ghost predicate NothingHandedBack(memory: map<int, seq<byte>>, heapPages: seq<HeapPage>) {
    forall i :: 0 <= i < |heapPages| ==> heapPages[i].page in memory
  }

  ghost predicate IsMax(pages: set<int>, max: int) {
    max in pages && forall k :: k in pages ==> k <= max
  }

  /** The payload of every live allocation is the same, byte for byte. */
  ghost predicate SamePayloads(page: seq<byte>, page': seq<byte>, live: set<(nat, nat)>) {
    && |page| == |page'|
    && forall o, n, k :: (o, n) in live && o + HEADER <= k < o + HEADER + n && k < |page| ==> page'[k] == page[k]
  }

  /** The first listed page with room, in list order. */
  ghost function FirstPage(heapPages: seq<HeapPage>, layout: map<int, seq<Block>>, size: nat): (r: nat)
    ensures r <= |heapPages|
    ensures r < |heapPages| ==> RoomIn(layout, heapPages[r].page, size)
    ensures forall i :: 0 <= i < r ==> !RoomIn(layout, heapPages[i].page, size)
  {
    if heapPages == [] || RoomIn(layout, heapPages[0].page, size) then 0
    else
      var r := FirstPage(heapPages[1..], layout, size);
      assert forall i :: 1 <= i < |heapPages| ==> heapPages[i] == heapPages[1..][i - 1];
      r + 1
  }

  ghost predicate RoomIn(layout: map<int, seq<Block>>, page: int, size: nat) {
    page in layout && HasRoom(layout[page], size)
  }

  /** The search meets a page that was handed back before it finds room, and cannot get past
      it: the page cannot be read, or its last header, still cached, seems to fit. */
  ghost predicate Stuck(heapPages: seq<HeapPage>, layout: map<int, seq<Block>>, size: nat, cached: set<int>, pageSize: nat)
    requires pageSize > HEADER
  {
    exists i :: 0 <= i < FirstPage(heapPages, layout, size) && heapPages[i].page !in layout &&
                (heapPages[i].page !in cached || Fits(Block(pageSize - HEADER, true), size))
  }

  /** A page that was handed back stands in the list before the first page with room. */
  ghost predicate HandedBackFirst(heapPages: seq<HeapPage>, layout: map<int, seq<Block>>, size: nat) {
    exists i :: 0 <= i < FirstPage(heapPages, layout, size) && heapPages[i].page !in layout
  }

  /** The sizes for which a fresh page has room, but not for a second header. */
  predicate NoSecondHeader(size: int, pageSize: nat) {
    pageSize - 2 * HEADER < size < pageSize - HEADER
  }

  /** The allocation at `off` of `page` is the first fit: in the first page with room the
      first block that fits, taken and coalesced, or else the start of a new page. */
  ghost predicate IsFirstFit(memory: map<int, seq<byte>>, heapPages: seq<HeapPage>, layout: map<int, seq<Block>>,
                             layout': map<int, seq<Block>>, page: int, off: nat, size: nat)
  {
    var h := FirstPage(heapPages, layout, size);
    if h < |heapPages| then
      var bs := layout[heapPages[h].page];
      && page == heapPages[h].page && off == Span(bs[..FirstFit(bs, size)])
      && layout' == layout[page := Coalesce(Split(bs, FirstFit(bs, size), size))]
    else
      page !in memory && IsMax(memory.Keys, page - 1) && off == 0
  }

  lemma ListedFirstFit(memory: map<int, seq<byte>>, heapPages: seq<HeapPage>, layout: map<int, seq<Block>>,
                       layout': map<int, seq<Block>>, page: int, off: nat, size: nat)
    requires FirstPage(heapPages, layout, size) < |heapPages|
    requires page == heapPages[FirstPage(heapPages, layout, size)].page && RoomIn(layout, page, size)
    requires off == Span(layout[page][..FirstFit(layout[page], size)])
    requires layout' == layout[page := Coalesce(Split(layout[page], FirstFit(layout[page], size), size))]
    ensures IsFirstFit(memory, heapPages, layout, layout', page, off, size)
  {
  }

  lemma FreshFirstFit(memory: map<int, seq<byte>>, heapPages: seq<HeapPage>, layout: map<int, seq<Block>>,
                      layout': map<int, seq<Block>>, page: int, size: nat)
    requires FirstPage(heapPages, layout, size) == |heapPages| && page !in memory && IsMax(memory.Keys, page - 1)
    ensures IsFirstFit(memory, heapPages, layout, layout', page, 0, size)
  {
  }

  predicate HasRoom(bs: seq<Block>, size: nat) {
    FirstFit(bs, size) < |bs|
  }

  /** A page with a fitting block has at least that much `freeSpace`. */
  lemma RoomNeedsFreeSpace(bs: seq<Block>, size: nat)
    requires HasRoom(bs, size)
    ensures FreeSum(bs) >= size
  {
    FreeSumCovers(bs, FirstFit(bs, size));
  }

  // ----- one page of the heap changes

  lemma PageChanged(memory: map<int, seq<byte>>, heapPages: seq<HeapPage>, layout: map<int, seq<Block>>,
                    last: map<int, seq<byte>>, base: int, pageSize: nat, h: nat, bytes: seq<byte>, bs: seq<Block>, freeSpace: int)
    requires HeapOk(memory, heapPages, layout, last, base, pageSize) && h < |heapPages| && heapPages[h].page in layout
    requires PageOk(bytes, bs, freeSpace, pageSize)
    ensures var p := heapPages[h].page;
            HeapOk(memory[p := bytes], heapPages[h := HeapPage(p, freeSpace)], layout[p := bs], last, base, pageSize)
  {
    assert |bytes| == pageSize;
    hide PageOk;
    var p := heapPages[h].page;
    var heapPages' := heapPages[h := HeapPage(p, freeSpace)];
    forall k | k in layout[p := bs] ensures Listed(heapPages', k) {
      assert Listed(heapPages, k);
      var i :| 0 <= i < |heapPages| && heapPages[i].page == k;
      assert heapPages'[i].page == k;
    }
  }

  lemma PageHandedBack(memory: map<int, seq<byte>>, heapPages: seq<HeapPage>, layout: map<int, seq<Block>>,
                       last: map<int, seq<byte>>, base: int, pageSize: nat, page: int)
    requires HeapOk(memory, heapPages, layout, last, base, pageSize) && page in layout && pageSize > HEADER
    requires Live(layout[page], 0) == {}
    ensures HeapOk(memory - {page}, heapPages, layout - {page}, last[page := memory[page]], base, pageSize)
  {
    var h :| 0 <= h < |heapPages| && heapPages[h].page == page;
    OneFreeBlock(memory[page], layout[page], heapPages[h].freeSpace, pageSize);
    assert forall i :: 0 <= i < |heapPages| && heapPages[i].page == page ==> i == h;
    hide PageOk, Tiles, Live;
  }

  /** An empty page is one free block. */
  lemma OneFreeBlock(bytes: seq<byte>, bs: seq<Block>, freeSpace: int, pageSize: nat)
    requires PageOk(bytes, bs, freeSpace, pageSize) && Live(bs, 0) == {} && pageSize > HEADER
    ensures bs == [Block(pageSize - HEADER, true)] && freeSpace == pageSize - HEADER
    ensures Tiles(bytes, 0, [Block(pageSize - HEADER, true)], pageSize)
  {
    var one := Block(pageSize - HEADER, true);
    TilesSpan(bytes, 0, bs, pageSize);
    OneBlock(one, 0);
    CoalescedIsCanonical(bs, [one], 0);
  }

  lemma PageAdded(memory: map<int, seq<byte>>, heapPages: seq<HeapPage>, layout: map<int, seq<Block>>,
                  last: map<int, seq<byte>>, base: int, pageSize: nat, page: int, bytes: seq<byte>, bs: seq<Block>, freeSpace: int)
    requires HeapOk(memory, heapPages, layout, last, base, pageSize) && page >= base && !Listed(heapPages, page)
    requires PageOk(bytes, bs, freeSpace, pageSize) && base >= 0
    ensures HeapOk(memory[page := bytes], heapPages + [HeapPage(page, freeSpace)], layout[page := bs], last, base, pageSize)
  {
    assert |bytes| == pageSize;
    hide PageOk;
    var heapPages' := heapPages + [HeapPage(page, freeSpace)];
    forall k | k in layout[page := bs] ensures Listed(heapPages', k) {
      if k == page {
        assert heapPages'[|heapPages|].page == k;
      } else {
        assert Listed(heapPages, k);
        var i :| 0 <= i < |heapPages| && heapPages[i].page == k;
        assert heapPages'[i].page == k;
      }
    }
  }

  // ----- the bytes of one page change

  /** Rewriting bytes inside the middle of a row leaves the payloads on both sides alone. */
  lemma OutsideKept(page: seq<byte>, page': seq<byte>, a: seq<Block>, m: seq<Block>, c: seq<Block>)
    requires |page| == |page'|
    requires forall k :: 0 <= k < |page| && !(Span(a) <= k < Span(a) + Span(m)) ==> page'[k] == page[k]
    ensures SamePayloads(page, page', Live(a, 0) + Live(c, Span(a) + Span(m)))
  {
    forall o, n, k | (o, n) in Live(a, 0) + Live(c, Span(a) + Span(m)) &&
                     o + HEADER <= k < o + HEADER + n && k < |page|
      ensures page'[k] == page[k]
    {
      if (o, n) in Live(a, 0) {
        LiveInside(a, 0, o, n);
      } else {
        LiveInside(c, Span(a) + Span(m), o, n);
      }
    }
  }

  lemma RewriteMiddle(page: seq<byte>, page': seq<byte>, a: seq<Block>, m: seq<Block>, m': seq<Block>, c: seq<Block>)
    requires |page| == |page'| && Tiles(page, 0, a + m + c, |page|)
    requires Span(a) + Span(m) <= |page|
    requires Tiles(page', Span(a), m', Span(a) + Span(m))
    requires forall k :: 0 <= k < |page| && !(Span(a) <= k < Span(a) + Span(m)) ==> page'[k] == page[k]
    ensures Tiles(page', 0, a + m' + c, |page|)
    ensures forall live: set<(nat, nat)> :: live <= Live(a, 0) + Live(c, Span(a) + Span(m)) ==>
              SamePayloads(page, page', live)
  {
    hide Tiles, Span, Live;
    ReplaceMiddle(page, page', a, m, m', c);
    OutsideKept(page, page', a, m, c);
  }

  /** The allocations outside the middle of a row. */
  lemma LiveAround(a: seq<Block>, m: seq<Block>, c: seq<Block>)
    ensures Live(a + m + c, 0) - Live(m, Span(a)) <= Live(a, 0) + Live(c, Span(a) + Span(m))
    ensures Live(m, Span(a)) == {} ==> Live(a + m + c, 0) <= Live(a, 0) + Live(c, Span(a) + Span(m))
  {
    hide Span, Live, FreeSum;
    SumsOfThree(a, m, c);
  }

  /** The two headers that `heap_alloc` writes when it splits, or the one when it does not. */
  function TakenBytes(page: seq<byte>, off: nat, b: Block, size: nat): seq<byte>
    requires off + HEADER + b.size <= |page| < 0x8000_0000 && Fits(b, size)
  {
    if size == b.size then Overlay(page, off, EncodeHeader(Block(size, false)))
    else
      Overlay(Overlay(page, off, EncodeHeader(Block(size, false))),
              off + HEADER + size, EncodeHeader(Block(b.size - size - HEADER, b.free)))
  }

  lemma TakenTiles(page: seq<byte>, off: nat, b: Block, size: nat)
    requires off + HEADER + b.size <= |page| < 0x8000_0000 && Fits(b, size)
    ensures |TakenBytes(page, off, b, size)| == |page|
    ensures Tiles(TakenBytes(page, off, b, size), off, Taken(b, size), off + HEADER + b.size)
    ensures forall k :: 0 <= k < |page| && !(off <= k < off + HEADER + b.size) ==>
              TakenBytes(page, off, b, size)[k] == page[k]
  {
    hide Tiles, Span, Overlay, EncodeHeader, DecodeHeader;
    var first := Block(size, false);
    HeaderStored(page, off, first);
    var page1 := Overlay(page, off, EncodeHeader(first));
    if size == b.size {
      TilesOne(page1, off, first);
    } else {
      var second := Block(b.size - size - HEADER, b.free);
      var at := off + HEADER + size;
      HeaderStored(page1, at, second);
      var page2 := Overlay(page1, at, EncodeHeader(second));
      assert page2[off..off + HEADER] == page1[off..off + HEADER];
      TilesOne(page2, off, first);
      TilesOne(page2, at, second);
      TilesJoin(page2, off, [first], at, [second], at + HEADER + second.size);
      assert [first] + [second] == [first, second];
    }
  }

  /** Taking block `i` of a page. */
  lemma TakePage(page: seq<byte>, bs: seq<Block>, i: nat, size: nat)
    requires |page| < 0x8000_0000 && Tiles(page, 0, bs, |page|) && i < |bs| && Fits(bs[i], size)
    ensures Span(bs[..i]) + HEADER + bs[i].size <= |page|
    ensures var page' := TakenBytes(page, Span(bs[..i]), bs[i], size);
            && |page'| == |page|
            && Tiles(page', 0, Split(bs, i, size), |page|)
            && SamePayloads(page, page', Live(bs, 0))
  {
    hide Tiles, Span, Live, Taken, TakenBytes, SamePayloads;
    var a, m, c := bs[..i], [bs[i]], bs[i + 1..];
    assert bs == a + m + c;
    OneBlock(bs[i], Span(a));
    TilesThree(page, a, m, c);
    TakenTiles(page, Span(a), bs[i], size);
    RewriteMiddle(page, TakenBytes(page, Span(a), bs[i], size), a, m, Taken(bs[i], size), c);
    LiveAround(a, m, c);
  }

  /** Marking block `i` free. */
  lemma ReleasePage(page: seq<byte>, bs: seq<Block>, i: nat)
    requires |page| < 0x8000_0000 && Tiles(page, 0, bs, |page|) && i < |bs| && !bs[i].free
    ensures Span(bs[..i]) + HEADER + bs[i].size <= |page|
    ensures var page' := Overlay(page, Span(bs[..i]), EncodeHeader(Block(bs[i].size, true)));
            && Tiles(page', 0, Release(bs, i), |page|)
            && SamePayloads(page, page', Live(bs, 0) - {(Span(bs[..i]), bs[i].size)})
  {
    hide Tiles, Span, Live, Overlay, EncodeHeader, SamePayloads;
    assert bs == bs[..i] + [Block(bs[i].size, false)] + bs[i + 1..];
    assert Release(bs, i) == bs[..i] + [Block(bs[i].size, true)] + bs[i + 1..];
    ReleaseRow(page, bs[..i], bs[i].size, bs[i + 1..]);
  }

  lemma ReleaseRow(page: seq<byte>, a: seq<Block>, n: nat, c: seq<Block>)
    requires |page| < 0x8000_0000 && Tiles(page, 0, a + [Block(n, false)] + c, |page|)
    ensures Span(a) + HEADER + n <= |page|
    ensures var page' := Overlay(page, Span(a), EncodeHeader(Block(n, true)));
            && Tiles(page', 0, a + [Block(n, true)] + c, |page|)
            && SamePayloads(page, page', Live(a + [Block(n, false)] + c, 0) - {(Span(a), n)})
  {
    hide Tiles, Span, Live, Overlay, EncodeHeader, DecodeHeader, SamePayloads;
    var m, freed := [Block(n, false)], Block(n, true);
    OneBlock(m[0], Span(a));
    TilesThree(page, a, m, c);
    var page' := Overlay(page, Span(a), EncodeHeader(freed));
    HeaderStored(page, Span(a), freed);
    TilesOne(page', Span(a), freed);
    RewriteMiddle(page, page', a, m, [freed], c);
    LiveAround(a, m, c);
  }

  /** Writing the header of block `i` once more, as it is. */
  lemma RewritePage(page: seq<byte>, bs: seq<Block>, i: nat)
    requires |page| < 0x8000_0000 && Tiles(page, 0, bs, |page|) && i < |bs| && bs[i].free
    requires Span(bs[..i]) + HEADER + bs[i].size <= |page|
    ensures var page' := Overlay(page, Span(bs[..i]), EncodeHeader(Block(bs[i].size, true)));
            && |page'| == |page| && Tiles(page', 0, bs, |page|)
            && SamePayloads(page, page', Live(bs, 0))
  {
    hide Overlay, EncodeHeader, Tiles, Span, Live, SamePayloads, DecodeHeader;
    var a, m, c := bs[..i], [Block(bs[i].size, true)], bs[i + 1..];
    var page' := Overlay(page, Span(a), EncodeHeader(m[0]));
    assert bs == a + m + c;
    OneBlock(m[0], Span(a));
    HeaderStored(page, Span(a), m[0]);
    TilesOne(page', Span(a), m[0]);
    LiveAround(a, m, c);
    RewriteMiddle(page, page', a, m, m, c);
  }

  /** Marking block `i` free, whatever it was: what the page then holds, and what its
      free space is. */
  lemma MarkedFree(page: seq<byte>, bs: seq<Block>, i: nat)
    requires |page| < 0x8000_0000 && Tiles(page, 0, bs, |page|) && NoAdjacentFree(bs) && i < |bs|
    requires Span(bs[..i]) + HEADER + bs[i].size <= |page|
    ensures var page', bs' := Overlay(page, Span(bs[..i]), EncodeHeader(Block(bs[i].size, true))), Release(bs, i);
            && |page'| == |page| && Tiles(page', 0, bs', |page|)
            && SamePayloads(page, page', Live(bs', 0))
            && FreeSum(bs) + bs[i].size == FreeSum(bs') + (if bs[i].free then bs[i].size else 0)
            && Live(bs', 0) == (if bs[i].free then Live(bs, 0) else Live(bs, 0) - {(Span(bs[..i]), bs[i].size)})
            && (bs[i].free ==> bs' == bs && Coalesce(bs') == bs)
  {
    hide Overlay, EncodeHeader, Tiles, Span, Live, SamePayloads, DecodeHeader, FreeSum, Coalesce, NoAdjacentFree;
    if bs[i].free {
      assert Release(bs, i) == bs;
      RewritePage(page, bs, i);
      CoalesceOfCoalesced(bs);
    } else {
      hide Release;
      ReleasePage(page, bs, i);
      ReleaseFacts(bs, i);
    }
  }

  /** One merge of `heap_defrag`: only the header of the first block is written. */
  lemma MergePage(page: seq<byte>, a: seq<Block>, b: Block, b': Block, c: seq<Block>)
    requires |page| < 0x8000_0000 && Tiles(page, 0, a + [b, b'] + c, |page|) && b.free && b'.free
    ensures Span(a) + HEADER + b.size + HEADER + b'.size <= |page|
    ensures var merged := Block(b.size + HEADER + b'.size, true);
            var page' := Overlay(page, Span(a), EncodeHeader(merged));
            && Tiles(page', 0, a + [merged] + c, |page|)
            && SamePayloads(page, page', Live(a + [b, b'] + c, 0))
            && Live(a + [merged] + c, 0) == Live(a + [b, b'] + c, 0)
            && FreeSum(a + [merged] + c) == FreeSum(a + [b, b'] + c) + HEADER
  {
    hide Tiles, Span, Live, FreeSum, Overlay, EncodeHeader, DecodeHeader, SamePayloads;
    var m, merged := [b, b'], Block(b.size + HEADER + b'.size, true);
    MergedBlock(b, b', Span(a));
    TilesThree(page, a, m, c);
    var page' := Overlay(page, Span(a), EncodeHeader(merged));
    HeaderStored(page, Span(a), merged);
    TilesOne(page', Span(a), merged);
    RewriteMiddle(page, page', a, m, [merged], c);
    LiveAround(a, m, c);
    SumsOfThree(a, m, c);
    SumsOfThree(a, [merged], c);
  }

  lemma MergedBlock(b: Block, b': Block, off: nat)
    requires b.free && b'.free
    ensures var merged := Block(b.size + HEADER + b'.size, true);
            && Span([merged]) == Span([b, b']) == HEADER + b.size + HEADER + b'.size
            && Live([merged], off) == Live([b, b'], off) == {}
            && FreeSum([merged]) == FreeSum([b, b']) + HEADER
  {
    TwoBlocks(b, b', off);
    OneBlock(b, off);
    OneBlock(b', off + HEADER + b.size);
    OneBlock(Block(b.size + HEADER + b'.size, true), off);
  }

  lemma SamePayloadsTwice(p0: seq<byte>, p1: seq<byte>, p2: seq<byte>, live: set<(nat, nat)>)
    requires SamePayloads(p0, p1, live) && SamePayloads(p1, p2, live)
    ensures SamePayloads(p0, p2, live)
  {
  }

  // ----- the walk of the search

  /** The walk has passed `i` blocks and stands at the header of the next one. */
  ghost predicate ScanState(bytes: seq<byte>, bs: seq<Block>, i: nat, offset: nat) {
    i <= |bs| && offset == Span(bs[..i]) && offset <= |bytes| && Tiles(bytes, offset, bs[i..], |bytes|)
  }

  lemma ScanStarts(bytes: seq<byte>, bs: seq<Block>)
    requires Tiles(bytes, 0, bs, |bytes|)
    ensures ScanState(bytes, bs, 0, 0)
  {
    assert bs[0..] == bs && bs[..0] == [];
  }

  lemma ScanStep(bytes: seq<byte>, bs: seq<Block>, i: nat, offset: nat)
    requires ScanState(bytes, bs, i, offset)
    ensures i == |bs| <==> offset == |bytes|
    ensures i < |bs| ==>
              && offset + HEADER + bs[i].size <= |bytes|
              && DecodeHeader(bytes[offset..offset + HEADER]) == bs[i]
              && ScanState(bytes, bs, i + 1, offset + bs[i].size + HEADER)
  {
    if i < |bs| {
      assert bs[..i + 1] == bs[..i] + [bs[i]] && bs[i..][1..] == bs[i + 1..];
      SpanAppend(bs[..i], [bs[i]]);
      OneBlock(bs[i], 0);
      TilesSpan(bytes, offset, bs[i..], |bytes|);
    }
  }

  lemma BlockFits(b: Block, size: nat)
    ensures Fits(b, size) <==> b.free && (size == b.size || size + HEADER <= b.size)
  {
  }

  // ----- the pass of heap_defrag

  /** In the middle of the pass over the blocks `bs`: `pre` is done, `prev` is the block
      under the cursor and `rest` lies ahead at `offset`. */
  ghost predicate DefragState(page0: seq<byte>, page: seq<byte>, bs: seq<Block>,
                              pre: seq<Block>, prev: Block, rest: seq<Block>, offset: int, freeSpace: int)
  {
    && Tiles(page, 0, pre + [prev] + rest, |page|)
    && offset == Span(pre) + HEADER + prev.size
    && pre + Coalesce([prev] + rest) == Coalesce(bs)
    && Live(pre + [prev] + rest, 0) == Live(bs, 0)
    && freeSpace == FreeSum(pre + [prev] + rest)
    && SamePayloads(page0, page, Live(bs, 0))
  }

  lemma DefragStarts(page: seq<byte>, bs: seq<Block>)
    requires 0 < |page| && Tiles(page, 0, bs, |page|)
    ensures bs != [] && HEADER + bs[0].size <= |page| && DecodeHeader(page[0..HEADER]) == bs[0]
    ensures DefragState(page, page, bs, [], bs[0], bs[1..], HEADER + bs[0].size, FreeSum(bs))
  {
    assert [] + [bs[0]] + bs[1..] == bs && [bs[0]] + bs[1..] == bs;
  }

  /** The header at the cursor is that of the next block, if there is one. */
  lemma DefragNext(page0: seq<byte>, page: seq<byte>, bs: seq<Block>,
                   pre: seq<Block>, prev: Block, rest: seq<Block>, offset: int, freeSpace: int)
    requires DefragState(page0, page, bs, pre, prev, rest, offset, freeSpace)
    ensures offset <= |page| && (offset < |page| <==> rest != [])
    ensures rest != [] ==> offset + HEADER + rest[0].size <= |page| && DecodeHeader(page[offset..offset + HEADER]) == rest[0]
  {
    OneBlock(prev, 0);
    TilesThree(page, pre, [prev], rest);
    hide Live, FreeSum, Coalesce, SamePayloads;
    if rest != [] {
      assert offset + HEADER + rest[0].size <= |page|;
    }
  }

  lemma DefragMerges(page0: seq<byte>, page: seq<byte>, bs: seq<Block>,
                     pre: seq<Block>, prev: Block, rest: seq<Block>, offset: int, freeSpace: int)
    requires |page| < 0x8000_0000 && DefragState(page0, page, bs, pre, prev, rest, offset, freeSpace)
    requires rest != [] && prev.free && rest[0].free
    ensures offset + HEADER + rest[0].size <= |page|
    ensures var merged := Block(prev.size + HEADER + rest[0].size, true);
            DefragState(page0, Overlay(page, Span(pre), EncodeHeader(merged)), bs, pre, merged, rest[1..],
                        offset + HEADER + rest[0].size, freeSpace + HEADER)
  {
    var merged := Block(prev.size + HEADER + rest[0].size, true);
    assert [prev] + rest == [prev, rest[0]] + rest[1..];
    assert pre + [prev] + rest == pre + [prev, rest[0]] + rest[1..];
    assert Coalesce([prev] + rest) == Coalesce([merged] + rest[1..]) by {
      assert ([prev] + rest)[2..] == rest[1..];
    }
    hide Tiles, Span, Live, FreeSum, Coalesce, Overlay, EncodeHeader, SamePayloads;
    MergePage(page, pre, prev, rest[0], rest[1..]);
    SamePayloadsTwice(page0, page, Overlay(page, Span(pre), EncodeHeader(merged)), Live(bs, 0));
  }

  lemma DefragAdvances(page0: seq<byte>, page: seq<byte>, bs: seq<Block>,
                       pre: seq<Block>, prev: Block, rest: seq<Block>, offset: int, freeSpace: int)
    requires DefragState(page0, page, bs, pre, prev, rest, offset, freeSpace)
    requires rest != [] && !(prev.free && rest[0].free)
    ensures DefragState(page0, page, bs, pre + [prev], rest[0], rest[1..], offset + HEADER + rest[0].size, freeSpace)
  {
    assert [rest[0]] + rest[1..] == rest;
    assert Coalesce([prev] + rest) == [prev] + Coalesce(rest) by {
      assert ([prev] + rest)[1..] == rest;
    }
    hide Tiles, Live, FreeSum, Coalesce, SamePayloads;
    assert pre + [prev] + rest == (pre + [prev]) + [rest[0]] + rest[1..];
    assert pre + ([prev] + Coalesce(rest)) == (pre + [prev]) + Coalesce(rest);
    SpanAppend(pre, [prev]);
    OneBlock(prev, 0);
  }

  lemma DefragEnds(page0: seq<byte>, page: seq<byte>, bs: seq<Block>,
                   pre: seq<Block>, prev: Block, offset: int, freeSpace: int)
    requires DefragState(page0, page, bs, pre, prev, [], offset, freeSpace)
    ensures Tiles(page, 0, Coalesce(bs), |page|) && freeSpace == FreeSum(Coalesce(bs))
    ensures SamePayloads(page0, page, Live(bs, 0))
  {
    assert [prev] + [] == [prev] && pre + [prev] + [] == pre + [prev];
  }

  /** Nothing changed but that page and its entry. */
  ghost predicate OnePage(memory0: map<int, seq<byte>>, heapPages0: seq<HeapPage>,
                          memory: map<int, seq<byte>>, heapPages: seq<HeapPage>, h: nat, page: int)
  {
    && page in memory && memory == memory0[page := memory[page]]
    && h < |heapPages| == |heapPages0| && heapPages == heapPages0[h := heapPages[h]]
  }

  lemma OnePageStarts(memory: map<int, seq<byte>>, heapPages: seq<HeapPage>, h: nat)
    requires h < |heapPages| && heapPages[h].page in memory
    ensures OnePage(memory, heapPages, memory, heapPages, h, heapPages[h].page)
  {
  }

  lemma OnePageAgain(memory0: map<int, seq<byte>>, heapPages0: seq<HeapPage>,
                     memory: map<int, seq<byte>>, heapPages: seq<HeapPage>, h: nat, page: int,
                     bytes: seq<byte>, entry: HeapPage)
    requires OnePage(memory0, heapPages0, memory, heapPages, h, page)
    ensures h < |heapPages| && OnePage(memory0, heapPages0, memory[page := bytes], heapPages[h := entry], h, page)
  {
  }

  lemma OnePageMeans(memory0: map<int, seq<byte>>, heapPages0: seq<HeapPage>,
                     memory: map<int, seq<byte>>, heapPages: seq<HeapPage>, h: nat, page: int)
    requires OnePage(memory0, heapPages0, memory, heapPages, h, page)
    ensures page in memory && memory == memory0[page := memory[page]]
    ensures h < |heapPages| == |heapPages0| && heapPages == heapPages0[h := heapPages[h]]
  {
  }

  // ----- what a request did

  /** `(off, size)` in `page` is a new live allocation; every older one is where it was, with
      the same bytes, and nothing outside the heap changed. */
  ghost predicate Allocated(memory: map<int, seq<byte>>, layout: map<int, seq<Block>>,
                            memory': map<int, seq<byte>>, layout': map<int, seq<Block>>,
                            page: int, off: nat, size: nat)
  {
    && page in layout'
    && (forall k :: k in layout' <==> k in layout || k == page)
    && (forall k :: k in layout && k != page ==> layout'[k] == layout[k])
    && Live(layout'[page], 0) == (if page in layout then Live(layout[page], 0) else {}) + {(off, size)}
    && (page in layout ==> (off, size) !in Live(layout[page], 0))
    && (forall k :: k in memory ==> k in memory')
    && (forall k :: k in memory && k !in layout && k != page ==> memory'[k] == memory[k])
    && (forall k :: k in memory && k in layout ==> SamePayloads(memory[k], memory'[k], Live(layout[k], 0)))
  }

  /** `(off, n)` in `page` is no longer live; when it was the last one of its page, the page
      is handed back, and only then. */
  ghost predicate Freed(memory: map<int, seq<byte>>, layout: map<int, seq<Block>>,
                        memory': map<int, seq<byte>>, layout': map<int, seq<Block>>,
                        page: int, off: nat, n: nat)
    requires page in layout
  {
    var kept := Live(layout[page], 0) - {(off, n)};
    && (forall k :: k in layout' <==> k in layout && (k == page ==> kept != {}))
    && (forall k :: k in memory' <==> k in memory && (k == page ==> kept != {}))
    && (forall k :: k in layout' && k != page ==> layout'[k] == layout[k])
    && (forall k :: k in memory' && k != page ==> memory'[k] == memory[k])
    && (page in layout' ==> Live(layout'[page], 0) == kept)
    && (page in layout' && page in memory' ==> SamePayloads(memory[page], memory'[page], kept))
  }

  /** A block of `n` bytes that was free already was freed: `freeSpace` counts it once more,
      and when that makes the page look empty the page goes, with whatever was live in it. */
  ghost predicate FreedAgain(memory: map<int, seq<byte>>, layout: map<int, seq<Block>>,
                             memory': map<int, seq<byte>>, entry: HeapPage, layout': map<int, seq<Block>>,
                             pageSize: nat, page: int, n: nat)
    requires page in layout
  {
    && entry == HeapPage(page, FreeSum(layout[page]) + n)
    && if FreeSum(layout[page]) + n == pageSize - HEADER then memory' == memory - {page} && layout' == layout - {page}
       else page in memory && page in memory' && memory' == memory[page := memory'[page]] && layout' == layout
            && SamePayloads(memory[page], memory'[page], Live(layout[page], 0))
  }

  lemma SamePayloadsSelf(page: seq<byte>, live: set<(nat, nat)>)
    ensures SamePayloads(page, page, live)
  {
  }

  /** A block that is taken was not live before. */
  lemma FreeBlockNotLive(bs: seq<Block>, i: nat, size: nat)
    requires i < |bs| && bs[i].free
    ensures (Span(bs[..i]), size) !in Live(bs, 0)
  {
    hide Span, FreeSum, Live;
    var a, c := bs[..i], bs[i + 1..];
    assert bs == a + [bs[i]] + c;
    OneBlock(bs[i], Span(a));
    SumsOfThree(a, [bs[i]], c);
    if (Span(a), size) in Live(a, 0) { LiveInside(a, 0, Span(a), size); }
    if (Span(a), size) in Live(c, Span(a) + HEADER + bs[i].size) {
      LiveInside(c, Span(a) + HEADER + bs[i].size, Span(a), size);
    }
  }

  /** The address given to the program comes back as the same page and block. */
  lemma AddressDecodes(bs: seq<Block>, pageSize: nat, page: int, off: nat, size: nat)
    requires Span(bs) == pageSize && (off, size) in Live(bs, 0) && size >= 1
    ensures var address := page * pageSize + off + HEADER;
            pageSize > 0 && address / pageSize == page && address % pageSize == off + HEADER
  {
    LiveInside(bs, 0, off, size);
    PageOfAddress(pageSize, page, off + HEADER);
  }

  /** `div(address, pageSize)`, which truncates. */
  function Quotient(address: int, pageSize: nat): int
    requires pageSize > 0
  {
    if address >= 0 then address / pageSize else -(-address / pageSize)
  }

  function Remainder(address: int, pageSize: nat): int
    requires pageSize > 0
  {
    if address >= 0 then address % pageSize else -(-address % pageSize)
  }

  class ProgramHeap {
    const pageSize: nat
    const base: nat                   // cantPagsCodigo + stack_size
    var memory: map<int, seq<byte>>   // the pages that Memory maps for this program
    var heapPages: seq<HeapPage>
    var interruptionCode: int
    var last: map<int, seq<byte>>     // what the pages handed back held last

    ghost var layout: map<int, seq<Block>>

    ghost predicate Valid()
      reads this
    {
      && HEADER < pageSize < 0x8000_0000
      && base >= 1
      && HeapOk(memory, heapPages, layout, last, base, pageSize)
    }

    constructor (pageSize: nat, base: nat, memory: map<int, seq<byte>>)
      requires HEADER < pageSize < 0x8000_0000 && base >= 1
      requires forall k :: k in memory <==> 0 <= k < base
      requires forall k :: k in memory ==> |memory[k]| == pageSize
      ensures Valid() && heapPages == [] && this.memory == memory && layout == map[]
      ensures this.pageSize == pageSize && this.base == base
    {
      this.pageSize, this.base, this.memory := pageSize, base, memory;
      heapPages, interruptionCode, last, layout := [], 0, map[], map[];
    }

    /** A header read through `memory_read`. */
    function ReadHeader(page: int, offset: nat): Block
      requires page in memory && offset + HEADER <= |memory[page]|
      reads this
    {
      DecodeHeader(memory[page][offset..offset + HEADER])
    }

    /** A header written through `memory_write`. */
    method WriteHeader(page: int, offset: nat, b: Block)
      requires page in memory && offset + HEADER <= |memory[page]| && b.size < 0x1_0000_0000
      modifies this`memory
      ensures memory == old(memory)[page := Overlay(old(memory)[page], offset, EncodeHeader(b))]
    {
      memory := memory[page := Overlay(memory[page], offset, EncodeHeader(b))];
    }

    /** The walk over one page in `heap_find_space_available`; `bytes` is what reading the
        page answers. */
    method ScanPage(bytes: seq<byte>, size: nat, ghost bs: seq<Block>) returns (located: bool, offset: nat)
      requires |bytes| == pageSize && Tiles(bytes, 0, bs, pageSize)
      ensures located <==> HasRoom(bs, size)
      ensures located ==> offset == Span(bs[..FirstFit(bs, size)])
    {
      hide Tiles, Span, Fits;
      offset, located := 0, false;
      ghost var i := 0;
      ScanStarts(bytes, bs);
      while offset < pageSize && !located
        invariant 0 <= i <= |bs| && ScanState(bytes, bs, i, offset)
        invariant forall k :: 0 <= k < i ==> !Fits(bs[k], size)
        invariant located ==> i < |bs| && Fits(bs[i], size)
        decreases pageSize - offset, !located
      {
        ScanStep(bytes, bs, i, offset);
        var metadata := DecodeHeader(bytes[offset..offset + HEADER]);
        if metadata.free && (size == metadata.size || size + HEADER <= metadata.size) {
          assert Fits(metadata, size) by { BlockFits(metadata, size); }
          located := true;
        } else {
          assert !Fits(metadata, size) by { BlockFits(metadata, size); }
          offset := offset + metadata.size + HEADER;
          i := i + 1;
        }
      }
      if !located {
        ScanStep(bytes, bs, i, offset);
      }
    }

    /** The search goes past the `k`-th page. */
    ghost predicate GoesPast(k: nat, size: nat, cached: set<int>)
      requires k < |heapPages| && pageSize > HEADER
      reads this
    {
      var p := heapPages[k].page;
      !RoomIn(layout, p, size) && (p !in layout ==> p in cached && !Fits(Block(pageSize - HEADER, true), size))
    }

    /** The search stops at the `k`-th page, which was handed back. */
    ghost predicate StopsAt(k: nat, size: nat, cached: set<int>)
      requires k < |heapPages| && pageSize > HEADER
      reads this
    {
      var p := heapPages[k].page;
      p !in layout && (p !in cached || Fits(Block(pageSize - HEADER, true), size))
    }

    lemma StuckIsStop(size: nat, cached: set<int>)
      requires pageSize > HEADER
      ensures Stuck(heapPages, layout, size, cached, pageSize) <==>
              exists k: nat :: k < FirstPage(heapPages, layout, size) && StopsAt(k, size, cached)
    {
      if Stuck(heapPages, layout, size, cached, pageSize) {
        var i :| 0 <= i < FirstPage(heapPages, layout, size) && heapPages[i].page !in layout &&
                 (heapPages[i].page !in cached || Fits(Block(pageSize - HEADER, true), size));
        assert StopsAt(i, size, cached);
      }
    }

    /** Where the search ends, after going past the first `k` pages. */
    lemma SearchEnds(k: nat, size: nat, cached: set<int>)
      requires pageSize > HEADER && k <= |heapPages|
      requires forall j :: 0 <= j < k ==> GoesPast(j, size, cached)
      ensures k < |heapPages| && StopsAt(k, size, cached) ==> Stuck(heapPages, layout, size, cached, pageSize)
      ensures k == |heapPages| || RoomIn(layout, heapPages[k].page, size) ==>
                FirstPage(heapPages, layout, size) == k && !Stuck(heapPages, layout, size, cached, pageSize)
    {
      var first := FirstPage(heapPages, layout, size);
      forall j: nat | j < k
        ensures !RoomIn(layout, heapPages[j].page, size) && !StopsAt(j, size, cached)
      {
        assert GoesPast(j, size, cached);
      }
      assert first >= k;
      StuckIsStop(size, cached);
      if k < |heapPages| && StopsAt(k, size, cached) {
        assert !RoomIn(layout, heapPages[k].page, size);
        assert k < first;
      }
    }

    /** `heap_find_space_available`: the first block that fits, page by page.  A page that was
        handed back is read like any other; `cached` says which of them Memory still caches. */
    method FindSpace(size: nat, cached: set<int>) returns (located: bool, page: int, offset: nat, exited: bool)
      requires Valid() && size <= pageSize - HEADER
      ensures Stuck(heapPages, layout, size, cached, pageSize) <==> exited || (located && page !in memory)
      ensures located ==> Listed(heapPages, page)
      ensures !Stuck(heapPages, layout, size, cached, pageSize) ==>
                && (located <==> FirstPage(heapPages, layout, size) < |heapPages|)
                && (located ==> page == heapPages[FirstPage(heapPages, layout, size)].page && RoomIn(layout, page, size) &&
                                offset == Span(layout[page][..FirstFit(layout[page], size)]))
    {
      hide PageOk, LeftBehind, Tiles, Fits, FirstFit, FirstPage, Stuck, HasRoom;
      located, page, offset, exited := false, 0, 0, false;
      ghost var at: nat := 0;
      for i := 0 to |heapPages|
        invariant at <= |heapPages| && forall k :: 0 <= k < at ==> GoesPast(k, size, cached)
        invariant !located ==> at == i
        invariant located ==> at < |heapPages| && page == heapPages[at].page
        invariant located && page in memory ==>
                    RoomIn(layout, page, size) && offset == Span(layout[page][..FirstFit(layout[page], size)])
        invariant located && page !in memory ==> StopsAt(at, size, cached)
      {
        var p := heapPages[i].page;
        ghost var bs := if p in layout then layout[p] else [Block(pageSize - HEADER, true)];
        PageToScan(i, size);
        if !located {
          if heapPages[i].freeSpace >= size {
            if p !in memory && p !in cached {
              SearchEnds(at, size, cached);
              return false, page, offset, true;
            }
            located, offset := ScanPage(if p in memory then memory[p] else last[p], size, bs);
          }
          if located {
            page := p;
            if p in memory {
              assert bs == layout[p] && RoomIn(layout, p, size);
            } else {
              assert StopsAt(at, size, cached);
            }
          } else {
            assert GoesPast(i, size, cached);
            at := i + 1;
          }
        }
      }
      SearchEnds(at, size, cached);
    }

    /** The bytes that the search finds in the `i`-th page, and what `freeSpace` says of them. */
    lemma PageToScan(i: nat, size: nat)
      requires Valid() && i < |heapPages| && size <= pageSize - HEADER
      ensures var p := heapPages[i].page;
              && (p in memory <==> p in layout) && (p !in memory ==> p in last)
              && var bytes := if p in memory then memory[p] else last[p];
              var bs := if p in layout then layout[p] else [Block(pageSize - HEADER, true)];
              && |bytes| == pageSize && Tiles(bytes, 0, bs, pageSize)
              && (HasRoom(bs, size) ==> heapPages[i].freeSpace >= size)
              && (p !in layout ==> heapPages[i].freeSpace >= size)
              && (p !in layout ==> (HasRoom(bs, size) <==> Fits(Block(pageSize - HEADER, true), size)))
    {
      var p := heapPages[i].page;
      if p in layout {
        ListedPage(i);
        hide Tiles, Fits, FirstFit;
        if HasRoom(layout[p], size) {
          RoomNeedsFreeSpace(layout[p], size);
        }
      } else {
        assert LeftBehind(heapPages[i], last, pageSize);
        var one := Block(pageSize - HEADER, true);
        assert [one][0] == one;
      }
    }

    /** The pass of `heap_defrag` over one page.  `excess` is what `freeSpace` claims too much. */
    method DefragPage(h: nat, ghost bs: seq<Block>, ghost excess: int)
      requires h < |heapPages| && heapPages[h].page in memory
      requires 0 < |memory[heapPages[h].page]| == pageSize < 0x8000_0000
      requires Tiles(memory[heapPages[h].page], 0, bs, pageSize) && heapPages[h].freeSpace == FreeSum(bs) + excess
      modifies this`memory, this`heapPages
      ensures var p := old(heapPages[h].page);
              && p in memory && |memory[p]| == pageSize
              && memory == old(memory)[p := memory[p]]
              && Tiles(memory[p], 0, Coalesce(bs), pageSize)
              && SamePayloads(old(memory)[p], memory[p], Live(bs, 0))
              && heapPages == old(heapPages)[h := HeapPage(p, FreeSum(Coalesce(bs)) + excess)]
    {
      hide Tiles, Span, Live, FreeSum, Coalesce, DefragState, SamePayloads, Overlay, EncodeHeader, DecodeHeader, HeapOk, OnePage;
      var page := heapPages[h].page;
      ghost var bytes := memory[page];
      DefragStarts(bytes, bs);
      OnePageStarts(memory, heapPages, h);
      var prevMetadata := ReadHeader(page, 0);
      var offset := HEADER + prevMetadata.size;
      ghost var pre, rest: seq<Block> := [], bs[1..];
      ghost var counted := FreeSum(bs);
      while offset < pageSize
        invariant 0 <= offset && page in memory && |memory[page]| == pageSize
        invariant h < |heapPages| && heapPages[h] == HeapPage(page, counted + excess)
        invariant OnePage(old(memory), old(heapPages), memory, heapPages, h, page)
        invariant DefragState(bytes, memory[page], bs, pre, prevMetadata, rest, offset, counted)
        decreases pageSize - offset
      {
        DefragNext(bytes, memory[page], bs, pre, prevMetadata, rest, offset, counted);
        var currentMetadata := ReadHeader(page, offset);
        if currentMetadata.free && prevMetadata.free {
          prevMetadata, counted := MergeTurn(h, bytes, bs, pre, prevMetadata, currentMetadata, rest, offset, counted, excess,
                                             old(memory), old(heapPages));
        } else {
          DefragAdvances(bytes, memory[page], bs, pre, prevMetadata, rest, offset, counted);
          pre := pre + [prevMetadata];
          prevMetadata := currentMetadata;
        }
        offset := offset + HEADER + currentMetadata.size;
        rest := rest[1..];
      }
      OnePageMeans(old(memory), old(heapPages), memory, heapPages, h, page);
      DefragNext(bytes, memory[page], bs, pre, prevMetadata, rest, offset, counted);
      DefragEnds(bytes, memory[page], bs, pre, prevMetadata, offset, counted);
    }

    /** A merging turn of the pass: a header is written, and a header of free space gained. */
    method MergeTurn(h: nat, ghost bytes: seq<byte>, ghost bs: seq<Block>, ghost pre: seq<Block>, prev: Block, current: Block,
                     ghost rest: seq<Block>, offset: nat, ghost counted: int, ghost excess: int,
                     ghost memory0: map<int, seq<byte>>, ghost heapPages0: seq<HeapPage>)
      returns (merged: Block, ghost counted': int)
      requires h < |heapPages| && heapPages[h].page in memory && |memory[heapPages[h].page]| == pageSize < 0x8000_0000
      requires heapPages[h].freeSpace == counted + excess
      requires DefragState(bytes, memory[heapPages[h].page], bs, pre, prev, rest, offset, counted)
      requires rest != [] && rest[0] == current && current.free && prev.free
      requires OnePage(memory0, heapPages0, memory, heapPages, h, heapPages[h].page)
      modifies this`memory, this`heapPages
      ensures var p := old(heapPages)[h].page;
              && p in memory && |memory[p]| == pageSize
              && h < |heapPages| && heapPages[h] == HeapPage(p, counted' + excess)
              && OnePage(memory0, heapPages0, memory, heapPages, h, p)
              && DefragState(bytes, memory[p], bs, pre, merged, rest[1..], offset + HEADER + current.size, counted')
    {
      hide Tiles, Span, Live, FreeSum, Coalesce, DefragState, SamePayloads, Overlay, EncodeHeader, OnePage;
      var page := heapPages[h].page;
      ghost var now := memory[page];
      DefragMerges(bytes, now, bs, pre, prev, rest, offset, counted);
      StartOfPrev(bytes, now, bs, pre, prev, rest, offset, counted);
      merged := Block(prev.size + HEADER + current.size, true);
      ghost var page' := Overlay(now, Span(pre), EncodeHeader(merged));
      OnePageAgain(memory0, heapPages0, memory, heapPages, h, page, page', HeapPage(page, counted + HEADER + excess));
      WriteHeader(page, offset + HEADER + current.size - HEADER - merged.size, merged);
      heapPages := heapPages[h := HeapPage(page, heapPages[h].freeSpace + HEADER)];
      counted' := counted + HEADER;
    }

    /** `memory_free_page` */
    method MemoryFreePage(page: int) returns (result: int)
      modifies this`memory, this`last, this`layout
      ensures result == if page in old(memory) then 0 else -1
      ensures memory == old(memory) - {page} && layout == old(layout) - {page}
      ensures last == if page in old(memory) then old(last)[page := old(memory)[page]] else old(last)
    {
      layout := layout - {page};
      if page !in memory {
        return -1;
      }
      memory, last, result := memory - {page}, last[page := memory[page]], 0;
    }

    /** `heap_defrag`: coalesces the page and hands it back when `freeSpace` says that it is
        empty, which is right when `freeSpace` is (`excess` is 0).  `memory0` and `heapPages0`
        are the state before the page was touched. */
    method HeapDefrag(h: nat, ghost bs: seq<Block>, ghost memory0: map<int, seq<byte>>, ghost heapPages0: seq<HeapPage>,
                      ghost excess: nat)
      requires HEADER < pageSize < 0x8000_0000 && base >= 1
      requires HeapOk(memory0, heapPages0, layout, last, base, pageSize)
      requires h < |heapPages0| && heapPages0[h].page in layout
      requires heapPages0[h].page in memory && heapPages0[h].page in memory0
      requires memory == memory0[heapPages0[h].page := memory[heapPages0[h].page]]
      requires heapPages == heapPages0[h := HeapPage(heapPages0[h].page, FreeSum(bs) + excess)]
      requires |memory[heapPages0[h].page]| == pageSize && Tiles(memory[heapPages0[h].page], 0, bs, pageSize)
      modifies this`memory, this`heapPages, this`last, this`layout
      ensures var p := heapPages0[h].page;
              && heapPages == heapPages0[h := HeapPage(p, FreeSum(Coalesce(bs)) + excess)]
              && if FreeSum(Coalesce(bs)) + excess == pageSize - HEADER
                 then memory == memory0 - {p} && layout == old(layout) - {p}
                 else p in memory && memory == memory0[p := memory[p]] && layout == old(layout)[p := Coalesce(bs)]
                      && SamePayloads(old(memory)[p], memory[p], Live(bs, 0))
      ensures FreeSum(Coalesce(bs)) == pageSize - HEADER <==> Live(bs, 0) == {}
      ensures excess == 0 ==> Valid()
    {
      hide Tiles, Live, FreeSum, Coalesce, SamePayloads, NoAdjacentFree, HeapOk, LeftBehind;
      ghost var p := heapPages0[h].page;
      DefragPage(h, bs, excess);
      ghost var coalesced := Coalesce(bs);
      CoalesceFacts(bs, 0);
      TilesSpan(memory[p], 0, coalesced, pageSize);
      FullyFree(coalesced, pageSize);
      assert memory == memory0[p := memory[p]];
      assert heapPages == heapPages0[h := HeapPage(p, FreeSum(coalesced) + excess)];
      ghost var layout1 := layout[p := coalesced];
      PageChanged(memory0, heapPages0, layout, last, base, pageSize, h, memory[p], coalesced, FreeSum(coalesced));
      if heapPages[h].freeSpace == pageSize - HEADER {
        if excess == 0 {
          PageHandedBack(memory, heapPages, layout1, last, base, pageSize, p);
        }
        ghost var memory1 := memory;
        var result := MemoryFreePage(heapPages[h].page);
        assert memory == memory0 - {p} && layout == old(layout) - {p};
        assert layout1 - {p} == layout;
      } else {
        layout := layout1;
      }
    }

    lemma ListedPage(h: nat)
      requires Valid() && h < |heapPages| && heapPages[h].page in layout
      ensures heapPages[h].page in memory && heapPages[h].page >= base
      ensures PageOk(memory[heapPages[h].page], layout[heapPages[h].page], heapPages[h].freeSpace, pageSize)
    {
    }

    /** `heap_alloc`.  A block that is larger than the request by less than a header can
        only be a fresh page; the second header then runs past the last page of the program
        and the Kernel exits. */
    method HeapAlloc(h: nat, size: nat, offset: nat, ghost i: nat) returns (exited: bool)
      requires Valid() && h < |heapPages| && heapPages[h].page in layout
      requires i < |layout[heapPages[h].page]| && offset == Span(layout[heapPages[h].page][..i])
      requires layout[heapPages[h].page][i].free && size <= layout[heapPages[h].page][i].size
      requires Fits(layout[heapPages[h].page][i], size) ||
               (|layout[heapPages[h].page]| == 1 && heapPages[h].page + 1 !in memory)
      modifies this`memory, this`heapPages, this`last, this`layout
      ensures var p := old(heapPages[h].page);
              exited <==> !Fits(old(layout)[p][i], size)
      ensures !exited ==> Valid()
      ensures !exited ==>
                var p, bs := old(heapPages[h].page), old(layout)[old(heapPages[h].page)];
                && p in memory && memory == old(memory)[p := memory[p]]
                && layout == old(layout)[p := Coalesce(Split(bs, i, size))]
                && SamePayloads(old(memory)[p], memory[p], Live(bs, 0))
      ensures !exited ==> |heapPages| == |old(heapPages)|
                          && forall j :: 0 <= j < |heapPages| ==> heapPages[j].page == old(heapPages)[j].page
    {
      var page := heapPages[h].page;
      ListedPage(h);
      ghost var bytes, bs := memory[page], layout[page];
      HeaderAt(bytes, bs, i);
      hide Tiles, Live, FreeSum, Coalesce, SamePayloads, NoAdjacentFree, HeapOk, Overlay, EncodeHeader, Span, Taken;
      exited := WriteTaken(h, size, offset, bs[i]);
      if !exited {
        FinishAlloc(h, i, size, bytes, bs, old(memory), old(heapPages));
      }
    }

    /** The header writes of `heap_alloc`. */
    method WriteTaken(h: nat, size: nat, offset: nat, ghost b: Block) returns (exited: bool)
      requires h < |heapPages| && heapPages[h].page in memory && |memory[heapPages[h].page]| == pageSize < 0x8000_0000
      requires offset + HEADER + b.size <= pageSize && ReadHeader(heapPages[h].page, offset) == b
      requires b.free && size <= b.size
      requires Fits(b, size) || offset + HEADER + b.size == pageSize
      modifies this`memory, this`heapPages
      ensures exited <==> !Fits(b, size)
      ensures !exited ==>
                var p := old(heapPages[h].page);
                && memory == old(memory)[p := TakenBytes(old(memory)[p], offset, b, size)]
                && heapPages == old(heapPages)[h := HeapPage(p,
                     old(heapPages[h].freeSpace) - size - (if size == b.size then 0 else HEADER))]
    {
      hide Overlay, EncodeHeader, DecodeHeader;
      var page := heapPages[h].page;
      var metadata := ReadHeader(page, offset);
      if size == metadata.size {
        WriteHeader(page, offset, metadata.(free := false));
        heapPages := heapPages[h := HeapPage(page, heapPages[h].freeSpace - metadata.size)];
      } else {
        var newMetadata := Block(size, false);
        if offset + HEADER + size + HEADER > pageSize {
          return true;
        }
        WriteHeader(page, offset, newMetadata);
        var rest := offset + HEADER + size;
        metadata := metadata.(size := metadata.size - newMetadata.size - HEADER);
        heapPages := heapPages[h := HeapPage(page, heapPages[h].freeSpace - newMetadata.size - HEADER)];
        WriteHeader(page, rest, metadata);
      }
      exited := false;
    }

    /** The end of `heap_alloc`: the headers are written, the pass follows. */
    method FinishAlloc(h: nat, ghost i: nat, ghost size: nat, ghost bytes: seq<byte>, ghost bs: seq<Block>,
                       ghost memory0: map<int, seq<byte>>, ghost heapPages0: seq<HeapPage>)
      requires HEADER < pageSize < 0x8000_0000 && base >= 1
      requires HeapOk(memory0, heapPages0, layout, last, base, pageSize)
      requires h < |heapPages0| && heapPages0[h].page in layout && layout[heapPages0[h].page] == bs
      requires heapPages0[h].page in memory0 && memory0[heapPages0[h].page] == bytes
      requires PageOk(bytes, bs, heapPages0[h].freeSpace, pageSize)
      requires i < |bs| && Fits(bs[i], size) && Span(bs[..i]) + HEADER + bs[i].size <= |bytes|
      requires memory == memory0[heapPages0[h].page := TakenBytes(bytes, Span(bs[..i]), bs[i], size)]
      requires heapPages == heapPages0[h := HeapPage(heapPages0[h].page,
                 heapPages0[h].freeSpace - size - (if size == bs[i].size then 0 else HEADER))]
      modifies this`memory, this`heapPages, this`last, this`layout
      ensures Valid()
      ensures var p := heapPages0[h].page;
              && p in memory && memory == memory0[p := memory[p]]
              && layout == old(layout)[p := Coalesce(Split(bs, i, size))]
              && SamePayloads(bytes, memory[p], Live(bs, 0))
      ensures |heapPages| == |heapPages0| && forall j :: 0 <= j < |heapPages| ==> heapPages[j].page == heapPages0[j].page
    {
      hide Tiles, Live, FreeSum, Coalesce, SamePayloads, NoAdjacentFree, HeapOk, TakenBytes, Span, Split;
      TakePage(bytes, bs, i, size);
      SplitFacts(bs, i, size);
      ghost var p, taken := heapPages0[h].page, TakenBytes(bytes, Span(bs[..i]), bs[i], size);
      HeapDefrag(h, Split(bs, i, size), memory0, heapPages0, 0);
      MorePayloads(taken, memory[p], Live(bs, 0), Live(Split(bs, i, size), 0));
      SamePayloadsTwice(bytes, taken, memory[p], Live(bs, 0));
    }

    /** `heap_free` of block `i`, which it does not test. */
    method HeapFree(h: nat, offset: nat, ghost i: nat)
      requires Valid() && h < |heapPages| && heapPages[h].page in layout && offset >= HEADER
      requires i < |layout[heapPages[h].page]| && offset - HEADER == Span(layout[heapPages[h].page][..i])
      modifies this`memory, this`heapPages, this`last, this`layout
      ensures |heapPages| == |old(heapPages)| && forall j :: 0 <= j < |heapPages| ==> heapPages[j].page == old(heapPages)[j].page
      // an allocated block
      ensures !old(layout[heapPages[h].page][i]).free ==> Valid() && forall k :: k in memory ==> k in old(memory)
      ensures !old(layout[heapPages[h].page][i]).free ==>
                var p, bs := old(heapPages[h].page), old(layout)[old(heapPages[h].page)];
                var kept := Live(bs, 0) - {(offset - HEADER, bs[i].size)};
                if kept == {} then memory == old(memory) - {p} && layout == old(layout) - {p}
                else
                  && p in memory && memory == old(memory)[p := memory[p]]
                  && p in layout && layout == old(layout)[p := layout[p]]
                  && Live(layout[p], 0) == kept
                  && SamePayloads(old(memory)[p], memory[p], kept)
      // a block that is free already
      ensures old(layout[heapPages[h].page][i]).free ==>
                var p, bs := old(heapPages[h].page), old(layout)[old(heapPages[h].page)];
                FreedAgain(old(memory), old(layout), memory, heapPages[h], layout, pageSize, p, bs[i].size)
    {
      var page := heapPages[h].page;
      ListedPage(h);
      ghost var bytes, bs := memory[page], layout[page];
      HeaderAt(bytes, bs, i);
      hide Tiles, Live, FreeSum, Coalesce, SamePayloads, NoAdjacentFree, HeapOk, Overlay, EncodeHeader, Span, LeftBehind, FreedAgain;
      var metadata := ReadHeader(page, offset - HEADER);
      metadata := metadata.(free := true);
      WriteHeader(page, offset - HEADER, metadata);
      heapPages := heapPages[h := HeapPage(page, heapPages[h].freeSpace + metadata.size)];
      FinishFree(h, i, bytes, bs, old(memory), old(heapPages));
    }

    /** The end of `heap_free`: the block is marked, the pass follows. */
    method FinishFree(h: nat, ghost i: nat, ghost bytes: seq<byte>, ghost bs: seq<Block>,
                      ghost memory0: map<int, seq<byte>>, ghost heapPages0: seq<HeapPage>)
      requires HEADER < pageSize < 0x8000_0000 && base >= 1
      requires HeapOk(memory0, heapPages0, layout, last, base, pageSize)
      requires h < |heapPages0| && heapPages0[h].page in layout && layout[heapPages0[h].page] == bs
      requires heapPages0[h].page in memory0 && memory0[heapPages0[h].page] == bytes
      requires PageOk(bytes, bs, heapPages0[h].freeSpace, pageSize)
      requires i < |bs| && Span(bs[..i]) + HEADER + bs[i].size <= |bytes|
      requires memory == memory0[heapPages0[h].page :=
                                   Overlay(bytes, Span(bs[..i]), EncodeHeader(Block(bs[i].size, true)))]
      requires heapPages == heapPages0[h := HeapPage(heapPages0[h].page, heapPages0[h].freeSpace + bs[i].size)]
      modifies this`memory, this`heapPages, this`last, this`layout
      ensures |heapPages| == |heapPages0| && forall j :: 0 <= j < |heapPages| ==> heapPages[j].page == heapPages0[j].page
      ensures !bs[i].free ==> Valid() && forall k :: k in memory ==> k in memory0
      ensures !bs[i].free ==>
                var p := heapPages0[h].page;
                var kept := Live(bs, 0) - {(Span(bs[..i]), bs[i].size)};
                if kept == {} then memory == memory0 - {p} && layout == old(layout) - {p}
                else
                  && p in memory && memory == memory0[p := memory[p]]
                  && layout == old(layout)[p := Coalesce(Release(bs, i))]
                  && Live(layout[p], 0) == kept
                  && SamePayloads(bytes, memory[p], kept)
      ensures bs[i].free ==>
                FreedAgain(memory0, old(layout), memory, heapPages[h], layout, pageSize, heapPages0[h].page, bs[i].size)
    {
      hide Tiles, Live, FreeSum, Coalesce, SamePayloads, NoAdjacentFree, HeapOk, Overlay, EncodeHeader, Span, Release, LeftBehind;
      ghost var p, excess := heapPages0[h].page, if bs[i].free then bs[i].size else 0;
      ghost var marked, bs' := memory[p], Release(bs, i);
      MarkedFree(bytes, bs, i);
      HeapDefrag(h, bs', memory0, heapPages0, excess);
      CoalesceFacts(bs', 0);
      if p in memory {
        SamePayloadsTwice(bytes, marked, memory[p], Live(bs', 0));
      }
    }

    // ----- the requests

    /** `heap_max_page_num` */
    method MaxPageNum() returns (max: int)
      ensures max >= base - 1
      ensures max == base - 1 || Listed(heapPages, max)
      ensures forall i :: 0 <= i < |heapPages| ==> heapPages[i].page <= max
    {
      max := base - 1;
      for i := 0 to |heapPages|
        invariant max >= base - 1
        invariant max == base - 1 || Listed(heapPages, max)
        invariant forall k :: 0 <= k < i ==> heapPages[k].page <= max
      {
        if heapPages[i].page > max {
          max := heapPages[i].page;
        }
      }
    }

    /** What Memory does for `get_pages` with one page: it maps the page after the last one
        of the program, with whatever bytes the frame held. */
    method MemoryGetPage(contents: seq<byte>) returns (page: int)
      requires Valid() && |contents| == pageSize
      modifies this`memory
      ensures IsMax(old(memory).Keys, page - 1) && memory == old(memory)[page := contents]
    {
      MaxExists();
      var max :| max in memory && forall k :: k in memory ==> k <= max;
      page := max + 1;
      memory := memory[page := contents];
    }

    lemma MaxExists()
      requires Valid()
      ensures exists max :: IsMax(memory.Keys, max)
    {
      assert 0 in memory;
      var max := LargestOf(memory.Keys);
    }

    /** `heap_new_page`.  The page number the Kernel picks is the one Memory assigned exactly
        when the last listed page was not handed back; otherwise the header goes to a page
        that is not mapped and the Kernel exits. */
    method HeapNewPage(response: int, contents: seq<byte>) returns (result: int, exited: bool, ghost given: int)
      requires Valid() && |contents| == pageSize
      modifies this`memory, this`heapPages, this`layout, this`interruptionCode
      ensures response != 0 ==>
                result == response == interruptionCode && !exited && memory == old(memory) &&
                heapPages == old(heapPages) && layout == old(layout)
      ensures response == 0 ==> IsMax(old(memory).Keys, given - 1)
      ensures response == 0 ==> (exited <==> exists i :: 0 <= i < |old(heapPages)| && old(heapPages)[i].page >= given)
      ensures response == 0 && !exited ==>
                && Valid() && result == given >= base && given + 1 !in memory && given !in old(memory)
                && heapPages == old(heapPages) + [HeapPage(given, pageSize - HEADER)]
                && given in memory && memory == old(memory)[given := memory[given]]
                && layout == old(layout)[given := [Block(pageSize - HEADER, true)]]
                && interruptionCode == old(interruptionCode)
    {
      if response != 0 {
        interruptionCode := response;
        return response, false, 0;
      }
      result, exited, given := GrantedPage(contents);
    }

    /** `heap_new_page` after Memory granted the page. */
    method GrantedPage(contents: seq<byte>) returns (result: int, exited: bool, ghost given: int)
      requires Valid() && |contents| == pageSize
      modifies this`memory, this`heapPages, this`layout
      ensures IsMax(old(memory).Keys, given - 1)
      ensures exited <==> exists i :: 0 <= i < |old(heapPages)| && old(heapPages)[i].page >= given
      ensures !exited ==>
                && Valid() && result == given >= base && given + 1 !in memory && given !in old(memory)
                && heapPages == old(heapPages) + [HeapPage(given, pageSize - HEADER)]
                && given in memory && memory == old(memory)[given := memory[given]]
                && layout == old(layout)[given := [Block(pageSize - HEADER, true)]]
    {
      hide Tiles, Live, FreeSum, NoAdjacentFree, Overlay, EncodeHeader, PageOk, HeapOk, LeftBehind;
      BasePagesMapped();
      ghost var memory0 := memory;
      given := 0;
      var granted := MemoryGetPage(contents);
      given := granted;
      var page := MaxPageNum();
      page := page + 1;
      KernelPageIsAssigned(memory0, page, given);
      assert memory.Keys == memory0.Keys + {given};
      if page !in memory {
        return page, true, given;
      }
      AddHeapPage(page, contents, memory0);
      return page, false, given;
    }

    /** The second half of `heap_new_page`: the page is listed and gets its first header. */
    method AddHeapPage(page: int, contents: seq<byte>, ghost memory0: map<int, seq<byte>>)
      requires HEADER < pageSize < 0x8000_0000 && base >= 1
      requires HeapOk(memory0, heapPages, layout, last, base, pageSize)
      requires page >= base && !Listed(heapPages, page)
      requires |contents| == pageSize && memory == memory0[page := contents]
      modifies this`memory, this`heapPages, this`layout
      ensures Valid()
      ensures heapPages == old(heapPages) + [HeapPage(page, pageSize - HEADER)]
      ensures page in memory && memory == memory0[page := memory[page]]
      ensures layout == old(layout)[page := [Block(pageSize - HEADER, true)]]
    {
      hide Tiles, Live, FreeSum, NoAdjacentFree, Overlay, EncodeHeader, PageOk, HeapOk, Listed;
      ghost var heapPages0, layout0 := heapPages, layout;
      heapPages := heapPages + [HeapPage(page, pageSize - HEADER)];
      WriteHeader(page, 0, Block(pageSize - HEADER, true));
      FreshPage(contents, pageSize);
      PageAdded(memory0, heapPages0, layout0, last, base, pageSize, page, memory[page], [Block(pageSize - HEADER, true)], pageSize - HEADER);
      assert memory == memory0[page := memory[page]];
      layout := layout[page := [Block(pageSize - HEADER, true)]];
    }

    lemma BasePagesMapped()
      requires Valid()
      ensures forall k :: 0 <= k < base ==> k in memory
      ensures forall k :: k in memory ==> k < base || Listed(heapPages, k)
    {
    }

    /** `page - 1` is the largest number the Kernel knows, `given - 1` the largest mapped. */
    lemma KernelPageIsAssigned(memory0: map<int, seq<byte>>, page: int, given: int)
      requires IsMax(memory0.Keys, given - 1)
      requires forall k :: 0 <= k < base ==> k in memory0
      requires base >= 1 && page >= base && (page == base || Listed(heapPages, page - 1))
      requires forall k :: k in memory0 ==> k < base || Listed(heapPages, k)
      requires forall i :: 0 <= i < |heapPages| ==> heapPages[i].page < page
      ensures page == given <==> page in memory0.Keys + {given}
      ensures page == given <==> !exists i :: 0 <= i < |heapPages| && heapPages[i].page >= given
      ensures given !in memory0 && given + 1 !in memory0
    {
      assert base - 1 in memory0;
      assert given - 1 in memory0;
    }

    /** `heap_alloc` seen from the request. */
    method AllocInPage(h: nat, size: nat, offset: nat, ghost i: nat) returns (exited: bool)
      requires Valid() && h < |heapPages| && heapPages[h].page in layout
      requires i < |layout[heapPages[h].page]| && offset == Span(layout[heapPages[h].page][..i])
      requires layout[heapPages[h].page][i].free && size <= layout[heapPages[h].page][i].size
      requires Fits(layout[heapPages[h].page][i], size) ||
               (|layout[heapPages[h].page]| == 1 && heapPages[h].page + 1 !in memory)
      modifies this`memory, this`heapPages, this`last, this`layout
      ensures exited <==> !Fits(old(layout[heapPages[h].page][i]), size)
      ensures !exited ==> Valid() && Numbers(heapPages) == Numbers(old(heapPages))
      ensures !exited ==>
                var p, bs := old(heapPages[h].page), old(layout)[old(heapPages[h].page)];
                && layout == old(layout)[p := Coalesce(Split(bs, i, size))]
                && Allocated(old(memory), old(layout), memory, layout, p, offset, size)
    {
      hide Tiles, Live, FreeSum, Coalesce, SamePayloads, NoAdjacentFree, HeapOk, Span, Split;
      ghost var p, bs := heapPages[h].page, layout[heapPages[h].page];
      ghost var memory0, layout0 := memory, layout;
      FreeBlockNotLive(bs, i, size);
      exited := HeapAlloc(h, size, offset, i);
      if !exited {
        SplitFacts(bs, i, size);
        CoalesceFacts(Split(bs, i, size), 0);
        OtherPagesSame(memory0, layout0, memory, p);
      }
    }

    lemma OtherPagesSame(memory0: map<int, seq<byte>>, layout0: map<int, seq<Block>>,
                         memory1: map<int, seq<byte>>, page: int)
      requires forall k :: k in memory0 && k != page ==> k in memory1 && memory1[k] == memory0[k]
      ensures forall k :: k in memory0 && k in layout0 && k != page ==>
                SamePayloads(memory0[k], memory1[k], Live(layout0[k], 0))
    {
      forall k | k in memory0 && k in layout0 && k != page
        ensures SamePayloads(memory0[k], memory1[k], Live(layout0[k], 0))
      {
        SamePayloadsSelf(memory0[k], Live(layout0[k], 0));
      }
    }

    /** `memory_heap_alloc`.  `response` and `contents` are what Memory answers if it is
        asked for a page, `cached` the handed-back pages that its cache still answers for. */
    method Alloc(size: int, response: int, contents: seq<byte>, cached: set<int>)
      returns (r: AllocResult, ghost page: int, ghost off: nat)
      requires Valid() && response <= 0 && |contents| == pageSize
      modifies this`memory, this`heapPages, this`last, this`layout, this`interruptionCode
      // rejected sizes
      ensures r == Failed(ERROR_ALLOC_BIGGER_THAN_PAGE_SIZE) <==> size < 0 || size > pageSize - HEADER
      // no room and no page
      ensures r == Failed(ERROR_NO_PAGES_FOR_PROCESS) <==>
                && 0 <= size <= pageSize - HEADER && response < 0
                && FirstPage(old(heapPages), old(layout), size) == |old(heapPages)|
                && !Stuck(old(heapPages), old(layout), size, cached, pageSize)
      ensures r.Failed? ==> r.code == ERROR_ALLOC_BIGGER_THAN_PAGE_SIZE || r.code == ERROR_NO_PAGES_FOR_PROCESS
      ensures r.Failed? ==> r.code == interruptionCode && Valid() &&
                            memory == old(memory) && heapPages == old(heapPages) && layout == old(layout)
      // a page that was handed back, or a fresh page that the request leaves no room to split
      ensures r == KernelExit <==>
                && 0 <= size <= pageSize - HEADER
                && (Stuck(old(heapPages), old(layout), size, cached, pageSize) ||
                    (NoSecondHeader(size, pageSize) && response == 0 &&
                     FirstPage(old(heapPages), old(layout), size) == |old(heapPages)|))
      ensures !NoSecondHeader(size, pageSize) ==>
                (r == KernelExit <==> 0 <= size <= pageSize - HEADER && HandedBackFirst(old(heapPages), old(layout), size))
      // success
      ensures r.Pointer? ==> Valid() && size >= 0
      ensures r.Pointer? ==> Numbers(heapPages) == Numbers(old(heapPages)) + (if page in old(layout) then [] else [page])
      ensures r.Pointer? ==> interruptionCode == old(interruptionCode)
      ensures r.Pointer? ==> Allocated(old(memory), old(layout), memory, layout, page, off, size)
      ensures r.Pointer? ==> r.address == page * pageSize + off + HEADER
      ensures r.Pointer? && size >= 1 ==> Quotient(r.address, pageSize) == page && Remainder(r.address, pageSize) == off + HEADER
      // and it is the first fit
      ensures r.Pointer? ==> IsFirstFit(old(memory), old(heapPages), old(layout), layout, page, off, size)
    {
      page, off := 0, 0;
      if size < 0 || size > pageSize - HEADER {
        interruptionCode := ERROR_ALLOC_BIGGER_THAN_PAGE_SIZE;
        return Failed(ERROR_ALLOC_BIGGER_THAN_PAGE_SIZE), page, off;
      }
      hide Tiles, Live, FreeSum, Coalesce, NoAdjacentFree, HeapOk, Span, Split, FirstPage, FirstFit, Allocated, Stuck, HandedBackFirst;
      hide Quotient, Remainder, IsFirstFit, NoSecondHeader, IsMax;
      StuckMeans(size, cached);
      ghost var memory0, heapPages0, layout0 := memory, heapPages, layout;
      LayoutIsMapped();
      var located, found, offset, exited := FindSpace(size, cached);
      if exited {
        return KernelExit, page, off;
      }
      if located {
        r := AllocInListedPage(size, found, offset);
        page, off := found, offset;
        if r.Pointer? {
          ListedFirstFit(memory0, heapPages0, layout0, layout, page, off, size);
        }
      } else {
        r, page := AllocInFreshPage(size, response, contents);
        if r.Pointer? {
          FreshFirstFit(memory0, heapPages0, layout0, layout, page, size);
        }
      }
    }

    /** Only a size that leaves no room for a second header gets past a page that was handed
        back, and then only past cached ones; no listed page has room for such a size. */
    lemma StuckMeans(size: nat, cached: set<int>)
      requires Valid() && size <= pageSize - HEADER
      ensures !NoSecondHeader(size, pageSize) ==>
                (Stuck(heapPages, layout, size, cached, pageSize) <==> HandedBackFirst(heapPages, layout, size))
      ensures !Stuck(heapPages, layout, size, cached, pageSize) && FirstPage(heapPages, layout, size) == |heapPages| ==>
                NothingHandedBack(memory, heapPages) || NoSecondHeader(size, pageSize)
    {
      hide PageOk, LeftBehind, FirstPage;
      var first := FirstPage(heapPages, layout, size);
      assert Fits(Block(pageSize - HEADER, true), size) <==> !NoSecondHeader(size, pageSize);
      if i :| 0 <= i < first && heapPages[i].page !in layout {
        assert heapPages[i].page !in memory;
      }
    }

    /** The branch of `memory_heap_alloc` for a block that was found. */
    method AllocInListedPage(size: nat, page: int, offset: nat) returns (r: AllocResult)
      requires Valid() && Listed(heapPages, page)
      requires page in memory ==> RoomIn(layout, page, size) && offset == Span(layout[page][..FirstFit(layout[page], size)])
      modifies this`memory, this`heapPages, this`last, this`layout
      ensures r == KernelExit <==> page !in old(memory)
      ensures page in old(memory) ==>
                && Valid() && Numbers(heapPages) == Numbers(old(heapPages))
                && Allocated(old(memory), old(layout), memory, layout, page, offset, size)
                && page in old(layout) && FirstFit(old(layout)[page], size) < |old(layout)[page]|
                && Fits(old(layout)[page][FirstFit(old(layout)[page], size)], size)
                && layout == old(layout)[page := Coalesce(Split(old(layout)[page], FirstFit(old(layout)[page], size), size))]
                && r == Pointer(page * pageSize + offset + HEADER)
                && (size >= 1 ==> Quotient(r.address, pageSize) == page && Remainder(r.address, pageSize) == offset + HEADER)
    {
      hide Tiles, Live, FreeSum, Coalesce, NoAdjacentFree, HeapOk, Span, Split, FirstPage, FirstFit, Allocated;
      if page !in memory {
        // heap_alloc writes a header to a page that is not mapped, or, if it cannot even read
        // the old one any more, leaves it to heap_defrag to fail on reading
        return KernelExit;
      }
      FirstFitFits(layout[page], size);
      var at := FindHeapPage(page);
      var exited := AllocInPage(at, size, offset, FirstFit(layout[page], size));
      AllocatedIsLive(old(memory), old(layout), memory, layout, page, offset, size);
      NewAddress(page, offset, size);
      r := Pointer(page * pageSize + offset + HEADER);
    }

    lemma FirstFitFits(bs: seq<Block>, size: nat)
      requires HasRoom(bs, size)
      ensures FirstFit(bs, size) < |bs| && Fits(bs[FirstFit(bs, size)], size)
    {
    }

    /** The address of a new allocation decodes. */
    lemma NewAddress(page: int, off: nat, size: nat)
      requires Valid() && page in layout && (off, size) in Live(layout[page], 0)
      ensures size >= 1 ==> Quotient(page * pageSize + off + HEADER, pageSize) == page
      ensures size >= 1 ==> Remainder(page * pageSize + off + HEADER, pageSize) == off + HEADER
    {
      assert Listed(heapPages, page);
      var i :| 0 <= i < |heapPages| && heapPages[i].page == page;
      ListedPage(i);
      TilesSpan(memory[page], 0, layout[page], pageSize);
      if size >= 1 {
        AddressDecodes(layout[page], pageSize, page, off, size);
        assert page * pageSize >= 0;
      }
    }

    /** The branch of `memory_heap_alloc` that asks Memory for a page. */
    method AllocInFreshPage(size: nat, response: int, contents: seq<byte>) returns (r: AllocResult, ghost page: int)
      requires Valid() && (NothingHandedBack(memory, heapPages) || NoSecondHeader(size, pageSize))
      requires response <= 0 && |contents| == pageSize && size <= pageSize - HEADER
      modifies this`memory, this`heapPages, this`last, this`layout, this`interruptionCode
      ensures r.Failed? <==> response < 0
      ensures r.Failed? ==> r.code == interruptionCode == ERROR_NO_PAGES_FOR_PROCESS && Valid() &&
                            memory == old(memory) && heapPages == old(heapPages) && layout == old(layout)
      ensures r.KernelExit? <==> response == 0 && NoSecondHeader(size, pageSize)
      ensures r.Pointer? ==> Valid() && Numbers(heapPages) == Numbers(old(heapPages)) + [page]
      ensures r.Pointer? ==> interruptionCode == old(interruptionCode)
      ensures r.Pointer? ==> Allocated(old(memory), old(layout), memory, layout, page, 0, size)
      ensures r.Pointer? ==> r.address == page * pageSize + HEADER
      ensures r.Pointer? ==> page !in old(memory) && IsMax(old(memory).Keys, page - 1)
      ensures r.Pointer? && size >= 1 ==> Quotient(r.address, pageSize) == page && Remainder(r.address, pageSize) == HEADER
    {
      hide Tiles, Live, FreeSum, Coalesce, NoAdjacentFree, HeapOk, Span, Split, FirstPage, FirstFit, Allocated;
      ghost var memory0, layout0 := memory, layout;
      LayoutIsMapped();
      var result, exited;
      result, exited, page := HeapNewPage(response, contents);
      if response != 0 {
        interruptionCode := ERROR_NO_PAGES_FOR_PROCESS;
        return Failed(ERROR_NO_PAGES_FOR_PROCESS), page;
      }
      if exited {
        return KernelExit, page;
      }
      var h := |heapPages| - 1;
      ghost var memory1, layout1 := memory, layout;
      SpanNone();
      exited := AllocInPage(h, size, 0, 0);
      if exited {
        return KernelExit, page;
      }
      AllocatedFresh(memory0, layout0, memory1, layout1, memory, layout, page, size);
      AllocatedIsLive(memory0, layout0, memory, layout, page, 0, size);
      NewAddress(page, 0, size);
      r := Pointer(result * pageSize + 0 + HEADER);
    }

    lemma LayoutListed()
      requires Valid()
      ensures forall k :: k in layout ==> Listed(heapPages, k)
    {
    }

    lemma LayoutIsMapped()
      requires Valid()
      ensures forall k :: k in layout ==> k in memory
    {
    }

    lemma SpanNone()
      ensures Span([Block(pageSize, true)][..0]) == 0
      ensures forall b: Block :: Span([b][..0]) == 0
    {
      assert forall b: Block :: [b][..0] == [];
    }

    /** `memory_heap_free`.  In a page that is mapped the offset must be that of a block's
        payload, here the `i`-th. */
    method Free(page: int, offset: int, ghost i: nat) returns (exited: bool)
      requires Valid()
      requires Listed(heapPages, page) && HEADER <= offset < pageSize && page in memory ==>
                 page in layout && i < |layout[page]| && offset - HEADER == Span(layout[page][..i])
      modifies this`memory, this`heapPages, this`last, this`layout, this`interruptionCode
      // a page that was handed back
      ensures exited <==> Listed(old(heapPages), page) && HEADER <= offset < pageSize && page !in old(memory)
      // no block
      ensures !(Listed(old(heapPages), page) && HEADER <= offset < pageSize) ==>
                && Valid() && interruptionCode == ERROR_MEMORY
                && memory == old(memory) && layout == old(layout) && heapPages == old(heapPages)
      // an allocated block, or one that is free already
      ensures Listed(old(heapPages), page) && HEADER <= offset < pageSize && page in old(memory) ==>
                && interruptionCode == old(interruptionCode) && page in old(layout)
                && (!old(layout)[page][i].free ==>
                      Valid() && Freed(old(memory), old(layout), memory, layout, page, offset - HEADER, old(layout)[page][i].size))
                && (old(layout)[page][i].free ==>
                      exists entry :: entry in heapPages &&
                        FreedAgain(old(memory), old(layout), memory, entry, layout, pageSize, page, old(layout)[page][i].size))
      ensures Numbers(heapPages) == Numbers(old(heapPages))
    {
      hide Tiles, Live, FreeSum, Coalesce, NoAdjacentFree, HeapOk, Span, SamePayloads, LeftBehind, FreedAgain;
      exited := false;
      var h := FindHeapPage(page);
      if h < 0 || offset < 0 || offset > pageSize - 1 || offset < HEADER {
        interruptionCode := ERROR_MEMORY;
        return;
      }
      LayoutIsMapped();
      if page !in memory {
        // the header cannot be read, or it is still cached and cannot be written
        return true;
      }
      HeapFree(h, offset, i);
      assert heapPages[h] in heapPages;
    }

    /** `handle_cpu_liberar`: the address that `Alloc` gave is split into page and offset. */
    method Liberar(address: int, ghost page: int, ghost offset: int, ghost i: nat) returns (exited: bool)
      requires Valid() && Quotient(address, pageSize) == page && Remainder(address, pageSize) == offset
      requires Listed(heapPages, page) && HEADER <= offset < pageSize && page in memory ==>
                 page in layout && i < |layout[page]| && offset - HEADER == Span(layout[page][..i])
      modifies this`memory, this`heapPages, this`last, this`layout, this`interruptionCode
      ensures exited <==> Listed(old(heapPages), page) && HEADER <= offset && page !in old(memory)
      ensures !(Listed(old(heapPages), page) && HEADER <= offset) ==>
                Valid() && interruptionCode == ERROR_MEMORY && memory == old(memory) && layout == old(layout)
      ensures Listed(old(heapPages), page) && HEADER <= offset && page in old(memory) ==>
                && page in old(layout)
                && (!old(layout)[page][i].free ==>
                      Valid() && Freed(old(memory), old(layout), memory, layout, page, offset - HEADER, old(layout)[page][i].size))
                && (old(layout)[page][i].free ==>
                      exists entry :: entry in heapPages &&
                        FreedAgain(old(memory), old(layout), memory, entry, layout, pageSize, page, old(layout)[page][i].size))
      ensures Numbers(heapPages) == Numbers(old(heapPages))
    {
      RemainderSmall(address, pageSize);
      hide Tiles, Live, FreeSum, Coalesce, HeapOk, Span, Freed, FreedAgain, Quotient, Remainder;
      exited := Free(Quotient(address, pageSize), Remainder(address, pageSize), i);
    }

    /** `list_find(program->heapPages, _findPage)` */
    method FindHeapPage(page: int) returns (h: int)
      ensures -1 <= h < |heapPages|
      ensures h >= 0 <==> Listed(heapPages, page)
      ensures h >= 0 ==> heapPages[h].page == page
    {
      for i := 0 to |heapPages|
        invariant forall k :: 0 <= k < i ==> heapPages[k].page != page
      {
        if heapPages[i].page == page {
          return i;
        }
      }
      return -1;
    }
  }

  lemma AllocatedIsLive(memory: map<int, seq<byte>>, layout: map<int, seq<Block>>,
                        memory': map<int, seq<byte>>, layout': map<int, seq<Block>>,
                        page: int, off: nat, size: nat)
    requires Allocated(memory, layout, memory', layout', page, off, size)
    ensures page in layout' && (off, size) in Live(layout'[page], 0)
  {
  }

  lemma RemainderSmall(address: int, pageSize: nat)
    requires pageSize > 0
    ensures Remainder(address, pageSize) < pageSize
  {
  }

  /** A new page and the allocation in it, taken together. */
  lemma AllocatedFresh(memory0: map<int, seq<byte>>, layout0: map<int, seq<Block>>,
                       memory1: map<int, seq<byte>>, layout1: map<int, seq<Block>>,
                       memory2: map<int, seq<byte>>, layout2: map<int, seq<Block>>,
                       page: int, size: nat)
    requires page !in memory0 && page in memory1 && memory1 == memory0[page := memory1[page]]
    requires forall k :: k in layout0 ==> k in memory0
    requires page in layout1 && |layout1[page]| == 1 && layout1[page][0].free
    requires layout1 == layout0[page := layout1[page]]
    requires Allocated(memory1, layout1, memory2, layout2, page, 0, size)
    ensures Allocated(memory0, layout0, memory2, layout2, page, 0, size)
  {
    assert layout1[page] == [layout1[page][0]];
    OneBlock(layout1[page][0], 0);
    hide Live, SamePayloads;
    forall k | k in memory0 && k in layout0
      ensures SamePayloads(memory0[k], memory2[k], Live(layout0[k], 0))
    {
      assert k in memory1 && k in layout1 && layout1[k] == layout0[k];
    }
  }

  lemma LargestOf(pages: set<int>) returns (max: int)
    requires exists k :: k in pages
    ensures IsMax(pages, max)
    decreases pages
  {
    var some :| some in pages;
    max := some;
    var others := pages - {some};
    if exists k :: k in others {
      var other := LargestOf(others);
      if other > max { max := other; }
    }
    forall k | k in pages ensures k <= max {
      assert k == some || k in others;
    }
  }

  /** A fresh page is one free block. */
  lemma FreshPage(contents: seq<byte>, pageSize: nat)
    requires HEADER < pageSize < 0x8000_0000 && |contents| == pageSize
    ensures var b := Block(pageSize - HEADER, true);
            PageOk(Overlay(contents, 0, EncodeHeader(b)), [b], pageSize - HEADER, pageSize)
  {
    var b := Block(pageSize - HEADER, true);
    hide Overlay, EncodeHeader, Tiles, FreeSum;
    HeaderStored(contents, 0, b);
    TilesOne(Overlay(contents, 0, EncodeHeader(b)), 0, b);
    OneBlock(b, 0);
  }

  lemma HeaderAt(bytes: seq<byte>, bs: seq<Block>, i: nat)
    requires Tiles(bytes, 0, bs, |bytes|) && i < |bs|
    ensures Span(bs[..i]) + HEADER + bs[i].size <= |bytes|
    ensures DecodeHeader(bytes[Span(bs[..i])..Span(bs[..i]) + HEADER]) == bs[i]
    ensures |bs| == 1 ==> Span(bs[..i]) == 0 && HEADER + bs[0].size == |bytes|
  {
    hide Tiles, Span, DecodeHeader;
    assert bs == bs[..i] + [bs[i]] + bs[i + 1..];
    HeaderBetween(bytes, bs[..i], bs[i], bs[i + 1..]);
    if |bs| == 1 { OnlyBlock(bytes, bs); }
  }

  lemma HeaderBetween(bytes: seq<byte>, a: seq<Block>, b: Block, c: seq<Block>)
    requires Tiles(bytes, 0, a + [b] + c, |bytes|)
    ensures Span(a) + HEADER + b.size <= |bytes|
    ensures DecodeHeader(bytes[Span(a)..Span(a) + HEADER]) == b
  {
    hide Tiles, Span, DecodeHeader;
    OneBlock(b, 0);
    TilesThree(bytes, a, [b], c);
    TilesOne(bytes, Span(a), b);
  }

  lemma OnlyBlock(bytes: seq<byte>, bs: seq<Block>)
    requires Tiles(bytes, 0, bs, |bytes|) && |bs| == 1
    ensures Span(bs[..0]) == 0 && HEADER + bs[0].size == |bytes|
  {
    TilesSpan(bytes, 0, bs, |bytes|);
    assert bs == [bs[0]];
    OneBlock(bs[0], 0);
  }

  lemma MorePayloads(page: seq<byte>, page': seq<byte>, fewer: set<(nat, nat)>, live: set<(nat, nat)>)
    requires SamePayloads(page, page', live) && fewer <= live
    ensures SamePayloads(page, page', fewer)
  {
  }

  lemma StartOfPrev(page0: seq<byte>, page: seq<byte>, bs: seq<Block>,
                    pre: seq<Block>, prev: Block, rest: seq<Block>, offset: int, freeSpace: int)
    requires DefragState(page0, page, bs, pre, prev, rest, offset, freeSpace)
    ensures offset - HEADER - prev.size == Span(pre)
  {
  }
}
