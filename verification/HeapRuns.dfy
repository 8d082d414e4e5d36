/** What a program sees of its heap over a whole run: an allocation keeps its place and its
    bytes until the program itself stores into it or frees it. */
module HeapRuns {
  import opened Bytes
  import opened HeapLayout
  import opened Heap

  datatype HeapState = HeapState(memory: map<int, seq<byte>>, layout: map<int, seq<Block>>)

  datatype Request =
    | Allocate(page: int, off: nat, size: nat)
    | Release(page: int, off: nat, size: nat)
    // the program stores into the payload of one of its allocations
    | Store(page: int, off: nat, size: nat, at: nat, data: seq<byte>)

  /** The layout describes the bytes of every heap page. */
  ghost predicate Laid(s: HeapState) {
    forall p :: p in s.layout ==> p in s.memory && Tiles(s.memory[p], 0, s.layout[p], |s.memory[p]|)
  }

  ghost predicate IsLive(s: HeapState, page: int, off: nat, size: nat) {
    page in s.layout && page in s.memory && (off, size) in Live(s.layout[page], 0)
  }

  /** What `Alloc` and `Free` promise, and what a store does. */
  ghost predicate Next(s: HeapState, s': HeapState, r: Request) {
    && Laid(s')
    && match r
       case Allocate(page, off, size) => Allocated(s.memory, s.layout, s'.memory, s'.layout, page, off, size)
       case Release(page, off, size) =>
         IsLive(s, page, off, size) && Freed(s.memory, s.layout, s'.memory, s'.layout, page, off, size)
       case Store(page, off, size, at, data) =>
         && IsLive(s, page, off, size) && off + HEADER <= at && at + |data| <= off + HEADER + size
         && at + |data| <= |s.memory[page]|
         && s' == s.(memory := s.memory[page := Overlay(s.memory[page], at, data)])
  }

  /** The allocation is live and holds the bytes. */
  ghost predicate Keeps(s: HeapState, page: int, off: nat, payload: seq<byte>) {
    && IsLive(s, page, off, |payload|)
    && off + HEADER + |payload| <= |s.memory[page]|
    && s.memory[page][off + HEADER..off + HEADER + |payload|] == payload
  }

  /** The request is about this allocation. */
  predicate Concerns(r: Request, page: int, off: nat, size: nat) {
    !r.Allocate? && r.page == page && r.off == off && r.size == size
  }

  /** The same bytes are in the payload of a page that keeps its payloads. */
  lemma PayloadSame(p: seq<byte>, p': seq<byte>, live: set<(nat, nat)>, off: nat, payload: seq<byte>)
    requires SamePayloads(p, p', live) && (off, |payload|) in live
    requires off + HEADER + |payload| <= |p| && p[off + HEADER..off + HEADER + |payload|] == payload
    ensures |p'| == |p| && p'[off + HEADER..off + HEADER + |payload|] == payload
  {
    forall k | off + HEADER <= k < off + HEADER + |payload| ensures p'[k] == p[k] {
    }
  }

  lemma StoreElsewhere(p: seq<byte>, bs: seq<Block>, o: nat, n: nat, at: nat, data: seq<byte>, off: nat, payload: seq<byte>)
    requires (o, n) in Live(bs, 0) && (off, |payload|) in Live(bs, 0) && (o, n) != (off, |payload|)
    requires o + HEADER <= at && at + |data| <= o + HEADER + n && at + |data| <= |p|
    requires off + HEADER + |payload| <= |p| && p[off + HEADER..off + HEADER + |payload|] == payload
    ensures Overlay(p, at, data)[off + HEADER..off + HEADER + |payload|] == payload
  {
    LiveDisjoint(bs, 0, o, n, off, |payload|);
    var p' := Overlay(p, at, data);
    forall k | off + HEADER <= k < off + HEADER + |payload| ensures p'[k] == p[k] {
    }
  }

  lemma StepKeepsPayload(s: HeapState, s': HeapState, r: Request, page: int, off: nat, payload: seq<byte>)
    requires Next(s, s', r) && Keeps(s, page, off, payload) && !Concerns(r, page, off, |payload|)
    ensures Keeps(s', page, off, payload)
  {
    hide Live, SamePayloads, Laid;
    match r
    case Allocate(p, o, n) =>
      PayloadSame(s.memory[page], s'.memory[page], Live(s.layout[page], 0), off, payload);
    case Release(p, o, n) =>
      if p == page {
        assert (off, |payload|) in Live(s.layout[page], 0) - {(o, n)};
        PayloadSame(s.memory[page], s'.memory[page], Live(s.layout[page], 0) - {(o, n)}, off, payload);
      }
    case Store(p, o, n, at, data) =>
      if p == page {
        StoreElsewhere(s.memory[page], s.layout[page], o, n, at, data, off, payload);
      }
  }

  /** A store into a payload leaves the layout standing. */
  lemma StoreKeepsLayout(s: HeapState, page: int, off: nat, size: nat, at: nat, data: seq<byte>)
    requires Laid(s) && IsLive(s, page, off, size) && off + HEADER <= at && at + |data| <= off + HEADER + size
    ensures at + |data| <= |s.memory[page]|
    ensures Next(s, s.(memory := s.memory[page := Overlay(s.memory[page], at, data)]), Store(page, off, size, at, data))
  {
    hide Live;
    PayloadWriteKeepsLayout(s.memory[page], s.layout[page], off, size, at, data);
  }

  ghost predicate IsRun(states: seq<HeapState>, requests: seq<Request>) {
    |states| == |requests| + 1 && forall i :: 0 <= i < |requests| ==> Next(states[i], states[i + 1], requests[i])
  }

  /** Over any run, an allocation stays live, in place and unchanged until a request that
      concerns it. */
  lemma {:induction false} RunKeepsPayload(states: seq<HeapState>, requests: seq<Request>, page: int, off: nat, payload: seq<byte>)
    requires IsRun(states, requests) && Keeps(states[0], page, off, payload)
    requires forall i :: 0 <= i < |requests| ==> !Concerns(requests[i], page, off, |payload|)
    ensures Keeps(states[|requests|], page, off, payload)
    decreases |requests|
  {
    hide Next, Keeps;
    if requests != [] {
      StepKeepsPayload(states[0], states[1], requests[0], page, off, payload);
      assert forall i :: 0 <= i < |requests| - 1 ==> states[1..][i] == states[i + 1] && requests[1..][i] == requests[i + 1];
      RunKeepsPayload(states[1..], requests[1..], page, off, payload);
    }
  }

  /** In any state, two allocations share no byte, headers included. */
  lemma AllocationsApart(s: HeapState, page: int, o1: nat, n1: nat, o2: nat, n2: nat)
    requires Laid(s) && IsLive(s, page, o1, n1) && IsLive(s, page, o2, n2) && (o1, n1) != (o2, n2)
    ensures o1 + HEADER + n1 <= o2 || o2 + HEADER + n2 <= o1
    ensures o1 + HEADER + n1 <= |s.memory[page]|
  {
    LiveDisjoint(s.layout[page], 0, o1, n1, o2, n2);
    LiveInside(s.layout[page], 0, o1, n1);
    TilesSpan(s.memory[page], 0, s.layout[page], |s.memory[page]|);
  }

  /** One allocation in an empty heap. */
  method AllocateFirst(heap: ProgramHeap, size: nat, contents: seq<byte>)
    returns (address: int, ghost page: int, ghost i: nat)
    requires heap.Valid() && heap.heapPages == [] && heap.layout == map[] && |contents| == heap.pageSize
    requires 1 <= size && size + 2 * HEADER <= heap.pageSize
    modifies heap
    ensures heap.Valid() && heap.layout.Keys == {page} && Listed(heap.heapPages, page) && page in heap.memory
    ensures Quotient(address, heap.pageSize) == page
    ensures i < |heap.layout[page]| && !heap.layout[page][i].free
    ensures Remainder(address, heap.pageSize) == Span(heap.layout[page][..i]) + HEADER
    ensures Live(heap.layout[page], 0) == {(Span(heap.layout[page][..i]), heap.layout[page][i].size)}
  {
    hide Tiles, Live, FreeSum, Coalesce, Split, SamePayloads, HeapOk, PageOk, Span;
    var r: AllocResult;
    ghost var off;
    ghost var layout0 := heap.layout;
    r, page, off := heap.Alloc(size, 0, contents, {});
    assert r.Pointer?;
    assert forall k :: k in heap.layout <==> k in layout0 || k == page;
    assert heap.layout.Keys == {page};
    assert (off, size) in Live(heap.layout[page], 0);
    i := LivePosition(heap.layout[page], 0, off, size);
    heap.LayoutListed();
    heap.LayoutIsMapped();
    address := r.address;
  }

  /** Freeing the only allocation: the page goes, its entry stays. */
  method ReleaseOnly(heap: ProgramHeap, address: int, ghost page: int, ghost i: nat)
    requires heap.Valid() && heap.layout.Keys == {page} && Listed(heap.heapPages, page) && page in heap.memory
    requires i < |heap.layout[page]| && !heap.layout[page][i].free
    requires Quotient(address, heap.pageSize) == page
    requires Remainder(address, heap.pageSize) == Span(heap.layout[page][..i]) + HEADER
    requires Live(heap.layout[page], 0) == {(Span(heap.layout[page][..i]), heap.layout[page][i].size)}
    modifies heap
    ensures heap.Valid() && heap.layout == map[] && heap.heapPages != []
  {
    hide Tiles, Live, FreeSum, Coalesce, SamePayloads, HeapOk, Span, FreedAgain;
    ghost var live := Live(heap.layout[page], 0);
    assert live - {(Remainder(address, heap.pageSize) - HEADER, heap.layout[page][i].size)} == {};
    ghost var layout0, kept := heap.layout, live - {(Remainder(address, heap.pageSize) - HEADER, heap.layout[page][i].size)};
    var exited := heap.Liberar(address, page, Remainder(address, heap.pageSize), i);
    assert forall k :: k in heap.layout <==> k in layout0 && (k == page ==> kept != {});
    assert heap.layout.Keys == {};
  }

  /** A program that allocates, frees what it allocated and allocates again makes the Kernel
      exit, whatever Memory still caches: the page that was handed back comes first in the
      list.  (The sizes for which a fresh page has no second header are apart.) */
  method AllocAfterRelease(pageSize: nat, contents: seq<byte>, first: nat, second: nat, cached: set<int>)
    returns (r: AllocResult)
    requires pageSize < 0x8000_0000 && |contents| == pageSize
    requires 1 <= first && first + 2 * HEADER <= pageSize
    requires second + HEADER <= pageSize && !NoSecondHeader(second, pageSize)
    ensures r == KernelExit
  {
    var heap := new ProgramHeap(pageSize, 1, map[0 := contents]);
    var address, page, i := AllocateFirst(heap, first, contents);
    ReleaseOnly(heap, address, page, i);
    ghost var heapPages := heap.heapPages;
    assert heapPages[0].page !in heap.layout && !RoomIn(heap.layout, heapPages[0].page, second);
    hide Tiles, Live, FreeSum, Coalesce, Split, SamePayloads, HeapOk, PageOk, FirstFit, Span, Allocated;
    ghost var p, off;
    r, p, off := heap.Alloc(second, 0, contents, cached);
  }

  /** A size that leaves no room for a second header in a fresh page makes the Kernel exit at
      the first request. */
  method AllocWithoutSecondHeader(pageSize: nat, contents: seq<byte>, size: nat) returns (r: AllocResult)
    requires HEADER < pageSize < 0x8000_0000 && |contents| == pageSize && NoSecondHeader(size, pageSize)
    ensures r == KernelExit
  {
    var heap := new ProgramHeap(pageSize, 1, map[0 := contents]);
    ghost var page, off;
    r, page, off := heap.Alloc(size, 0, contents, {});
  }

  // ----- a second free that loses an allocation

  /** Two blocks that fill a page: the second, 8 bytes longer, is allocated or free. */
  function TwoOf(first: nat, free: bool): seq<Block> {
    [Block(first, false), Block(first + HEADER, free)]
  }

  lemma TwoFacts(first: nat, free: bool)
    ensures var bs := TwoOf(first, free);
            && Span(bs) == 2 * first + 3 * HEADER && NoAdjacentFree(bs)
            && Live(bs, 0) == {(0, first)} + (if free then {} else {(first + HEADER, first + HEADER)})
            && FreeSum(bs) == (if free then first + HEADER else 0)
            && bs[..0] == [] && Span(bs[..1]) == first + HEADER && Coalesce(bs) == bs
  {
    var b, c := Block(first, false), Block(first + HEADER, free);
    TwoBlocks(b, c, 0);
    OneBlock(b, 0);
    OneBlock(c, first + HEADER);
    assert TwoOf(first, free)[..1] == [b];
    CoalesceOfCoalesced(TwoOf(first, free));
  }

  /** A page with one allocation of that size at its start is laid out like this. */
  lemma FirstLaidOut(heap: ProgramHeap, page: int, first: nat)
    requires heap.Valid() && page in heap.layout && heap.pageSize == 2 * first + 3 * HEADER
    requires Live(heap.layout[page], 0) == {(0, first)}
    ensures heap.layout[page] == TwoOf(first, true)
  {
    heap.LayoutListed();
    var h :| 0 <= h < |heap.heapPages| && heap.heapPages[h].page == page;
    heap.ListedPage(h);
    TilesSpan(heap.memory[page], 0, heap.layout[page], heap.pageSize);
    TwoFacts(first, true);
    CoalescedIsCanonical(heap.layout[page], TwoOf(first, true), 0);
  }

  method AllocateTwo(heap: ProgramHeap, contents: seq<byte>, first: nat) returns (second: int, ghost page: int)
    requires heap.Valid() && heap.heapPages == [] && heap.layout == map[] && |contents| == heap.pageSize
    requires first >= 1 && heap.pageSize == 2 * first + 3 * HEADER
    modifies heap
    ensures heap.Valid() && heap.layout == map[page := TwoOf(first, false)]
    ensures Quotient(second, heap.pageSize) == page && Remainder(second, heap.pageSize) == first + 2 * HEADER
  {
    hide Tiles, Live, FreeSum, Coalesce, SamePayloads, HeapOk, PageOk, Span, Split, FirstFit;
    var r: AllocResult;
    ghost var off;
    ghost var layout0 := heap.layout;
    r, page, off := heap.Alloc(first, 0, contents, {});
    assert forall k :: k in heap.layout <==> k in layout0 || k == page;
    OnlyFirst(heap.layout, page, off, first);
    FirstLaidOut(heap, page, first);
    OneKey(heap.layout, page, TwoOf(first, true));
    hide Allocated, IsFirstFit, Stuck, HandedBackFirst, FirstPage;
    second := AllocateSecond(heap, contents, first, page);
  }

  lemma OneKey(layout: map<int, seq<Block>>, page: int, bs: seq<Block>)
    requires forall k :: k in layout <==> k == page
    requires layout[page] == bs
    ensures layout == map[page := bs]
  {
    forall k ensures k in layout.Keys <==> k in {page} {
      assert k in layout <==> k == page;
    }
    assert layout.Keys == {page};
  }

  lemma OnlyFirst(layout: map<int, seq<Block>>, page: int, off: nat, first: nat)
    requires page in layout && off == 0 && Live(layout[page], 0) == {(off, first)}
    ensures Live(layout[page], 0) == {(0, first)}
  {
  }

  method AllocateSecond(heap: ProgramHeap, contents: seq<byte>, first: nat, ghost page: int) returns (second: int)
    requires heap.Valid() && heap.layout == map[page := TwoOf(first, true)]
    requires |contents| == heap.pageSize && first >= 1 && heap.pageSize == 2 * first + 3 * HEADER
    requires Numbers(heap.heapPages) == [page]
    modifies heap
    ensures heap.Valid() && heap.layout == map[page := TwoOf(first, false)]
    ensures Quotient(second, heap.pageSize) == page && Remainder(second, heap.pageSize) == first + 2 * HEADER
  {
    ghost var bs := TwoOf(first, true);
    TwoFacts(first, true);
    TwoFacts(first, false);
    SecondFits(first);
    assert RoomIn(heap.layout, heap.heapPages[0].page, first + HEADER);
    hide Tiles, Live, FreeSum, Coalesce, SamePayloads, HeapOk, PageOk, Span, Split, FirstFit;
    var r: AllocResult;
    ghost var p, off;
    r, p, off := heap.Alloc(first + HEADER, 0, contents, {});
    assert r.Pointer? && p == page && off == first + HEADER;
    OneKey(heap.layout, page, TwoOf(first, false));
    second := r.address;
  }

  lemma SecondFits(first: nat)
    ensures FirstFit(TwoOf(first, true), first + HEADER) == 1
    ensures Split(TwoOf(first, true), 1, first + HEADER) == TwoOf(first, false)
  {
    assert TwoOf(first, true)[1..] == [Block(first + HEADER, true)];
  }

  /** Two allocations fill a page; the second is freed twice.  Then the page, with the first
      allocation still live in it, is handed back. */
  method FreeTwice(pageSize: nat, contents: seq<byte>, first: nat)
    returns (heap: ProgramHeap, ghost page: int, ghost live: set<(nat, nat)>)
    requires pageSize == 2 * first + 3 * HEADER < 0x8000_0000 && first >= 1 && |contents| == pageSize
    ensures fresh(heap) && live == {(0, first)}
    ensures page !in heap.memory && page !in heap.layout
  {
    heap := new ProgramHeap(pageSize, 1, map[0 := contents]);
    var second;
    second, page := AllocateTwo(heap, contents, first);
    FreeSecond(heap, second, page, first);
    live := Live(heap.layout[page], 0);
    TwoFacts(first, true);
    heap.LayoutListed();
    heap.LayoutIsMapped();
    hide Tiles, Live, FreeSum, Coalesce, SamePayloads, HeapOk, PageOk, Span;
    var exited := heap.Liberar(second, page, first + 2 * HEADER, 1);
  }

  method FreeSecond(heap: ProgramHeap, second: int, ghost page: int, first: nat)
    requires heap.Valid() && heap.layout == map[page := TwoOf(first, false)] && heap.pageSize == 2 * first + 3 * HEADER
    requires Quotient(second, heap.pageSize) == page && Remainder(second, heap.pageSize) == first + 2 * HEADER
    modifies heap
    ensures heap.Valid() && heap.layout == map[page := TwoOf(first, true)]
  {
    TwoFacts(first, false);
    TwoFacts(first, true);
    heap.LayoutListed();
    heap.LayoutIsMapped();
    hide Tiles, Live, FreeSum, Coalesce, SamePayloads, HeapOk, PageOk, Span;
    ghost var live := Live(heap.layout[page], 0);
    assert live - {(first + HEADER, first + HEADER)} == {(0, first)};
    ghost var layout0 := heap.layout;
    var exited := heap.Liberar(second, page, first + 2 * HEADER, 1);
    assert forall k :: k in heap.layout <==> k in layout0;
    FirstLaidOut(heap, page, first);
    OneKey(heap.layout, page, TwoOf(first, true));
  }
}
