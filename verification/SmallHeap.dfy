/** The small-memory heap of mem.c: a first-fit allocator whose headers sit in front of the blocks
    they describe and are linked by offsets. */
module SmallHeap {
  import opened Words
  import opened Layouts
  import opened Chains
  import opened Bytes
  import opened Clients

  const HEAP_MAGIC := 0x1ea0

  /** SIZEOF_STRUCT_MEM: two half-words and two words. */
  const HS := 12

  /** MIN_SIZE_ALIGNED, which equals MIN_SIZE. */
  const MIN := 12

  /** The chain runs from the block at offset 0, whose `prev` is 0, to a sentinel that follows itself; the
      sentinel's own `prev` is not maintained by the code. */
  function Geo(end: int): Geometry
  {
    Geometry(HS, HEAP_MAGIC, 0, end)
  }

  /** The header writes that cut block `k` after `size` bytes, in the order the code makes them. */
  function CutWrites(hdr: map<int, Header>, ptr: int, size: int, end: int): map<int, Header>
    requires ptr in hdr && (hdr[ptr].next == end || hdr[ptr].next in hdr)
  {
    var ptr2, n := ptr + HS + size, hdr[ptr].next;
    var made := hdr[ptr2 := Header(HEAP_MAGIC, false, n, ptr)];
    var linked := made[ptr := made[ptr].(next := ptr2)];
    if n != end then linked[n := linked[n].(prev := ptr2)] else linked
  }

  lemma CutWritesChain(hdr: map<int, Header>, l: Layout, k: nat, size: int, end: int)
    requires Tiled(l, HS, end) && Chain(hdr, l, end, Geo(end)) && k < |l|
    requires 0 <= size && size + HS <= l[k].cap
    ensures hdr[l[k].addr].next == AddrAt(l, k + 1, end) && hdr[l[k].addr].next in hdr
    ensures Chain(CutWrites(hdr, l[k].addr, size, end), Cut(l, k, size, HS, l[k].used, false), end, Geo(end))
  {
    AllOrdered(l, HS, end);
    assert k + 1 < |l| ==> l[k + 1].addr in hdr;
    ChainCut(hdr, CutWrites(hdr, l[k].addr, size, end), l, k, size, l[k].used, false, end, Geo(end));
  }

  // ----- the lowest free block and the first fit -----

  /** Index of the lowest free block at or after `i`, or the number of blocks. */
  function FreeFrom(l: Layout, i: nat): (r: nat)
    requires i <= |l|
    ensures i <= r <= |l|
    ensures forall j :: i <= j < r ==> l[j].used
    ensures r < |l| ==> !l[r].used
    decreases |l| - i
  {
    if i == |l| || !l[i].used then i else FreeFrom(l, i + 1)
  }

  function FirstFree(l: Layout): nat
  {
    FreeFrom(l, 0)
  }

  lemma FirstFreeIs(l: Layout, r: nat)
    requires r < |l| && !l[r].used
    requires forall j :: 0 <= j < r ==> l[j].used
    ensures FirstFree(l) == r
  {
  }

  predicate Fits(b: Block, size: int, limit: int)
  {
    !b.used && b.cap >= size && b.addr < limit
  }

  /** Block `k` is the lowest one that fits below `limit`. */
  ghost predicate FirstFit(l: Layout, k: nat, size: int, limit: int)
  {
    k < |l| && Fits(l[k], size, limit) && forall j :: 0 <= j < k ==> !Fits(l[j], size, limit)
  }

  ghost predicate NoFit(l: Layout, size: int, limit: int)
  {
    forall j :: 0 <= j < |l| ==> !Fits(l[j], size, limit)
  }

  /** Because the walk stops at `memSize - size`, a request is refused exactly when no free block can hold
      it other than a final block of precisely that size. */
  lemma NoFitExact(l: Layout, size: int, memSize: int)
    requires Tiled(l, HS, memSize + HS) && 0 < size
    ensures NoFit(l, size, memSize - size)
            <==> forall i :: 0 <= i < |l| && !l[i].used && l[i].cap >= size ==> i == |l| - 1 && l[i].cap == size
  {
    AllOrdered(l, HS, memSize + HS);
    forall i | 0 <= i < |l| && l[i].cap >= size
      ensures l[i].addr >= memSize - size <==> i == |l| - 1 && l[i].cap == size
    {
      if i < |l| - 1 {
        Ordered(l, HS, 0, memSize + HS, i, |l| - 1);
        assert Sound(l[|l| - 1]);
      }
    }
  }

  /** Where the walk of rt_malloc stands after `n` steps when nothing on its way fits. */
  function Walk(hdr: map<int, Header>, ptr: int, n: nat): int
    decreases n
  {
    if n == 0 || ptr !in hdr then ptr else Walk(hdr, hdr[ptr].next, n - 1)
  }

  /** The loop of rt_malloc goes on at `ptr`: it is below the bound, which is computed modulo the word
      size, and the block there does not serve the request. */
  predicate WalkGoesOn(hdr: map<int, Header>, ptr: int, memSize: int, size: int)
  {
    && ptr in hdr
    && ptr < (memSize - size) % WORD_RANGE
    && (hdr[ptr].used || hdr[ptr].next - (ptr + HS) < size)
  }

  /** Why a heap needs MIN data bytes: with less, which rt_system_heap_init accepts, the loop bound wraps and a
      request that the size check lets through makes rt_malloc circle on the sentinel for ever. */
  lemma {:induction false} TinyHeapNeverAnswers(memSize: int, request: Word, n: nat)
    requires 0 <= memSize < MIN && memSize % 4 == 0
    requires 0 < request && AlignUp(request) <= memSize
    ensures var end := memSize + HS;
            var hdr := map[0 := Header(HEAP_MAGIC, false, end, 0), end := Header(HEAP_MAGIC, true, end, end)];
            && Walk(hdr, 0, n) == (if n == 0 then 0 else end)
            && WalkGoesOn(hdr, Walk(hdr, 0, n), memSize, Effective(request))
  {
    var end := memSize + HS;
    var hdr := map[0 := Header(HEAP_MAGIC, false, end, 0), end := Header(HEAP_MAGIC, true, end, end)];
    if n > 0 { StuckAtSentinel(hdr, end, n - 1); }
  }

  lemma {:induction false} StuckAtSentinel(hdr: map<int, Header>, end: int, n: nat)
    requires end in hdr && hdr[end].next == end
    ensures Walk(hdr, end, n) == end
  {
    if n > 0 { StuckAtSentinel(hdr, end, n - 1); }
  }

  /** The size rt_malloc really looks for. */
  function Effective(request: Word): int
  {
    Max(AlignUp(request), MIN)
  }

  /** It is the request rounded up to words and to the smallest block, unless the alignment wraps: the three largest
      requests of all get the smallest block. */
  lemma RequestHonoured(request: Word)
    ensures Effective(request) >= request <==> request <= WORD_RANGE - 4
    ensures request <= MIN || request > WORD_RANGE - 4 ==> Effective(request) == MIN
    ensures MIN < request <= WORD_RANGE - 4 ==> Effective(request) < request + 4 && Effective(request) % 4 == 0
  {
    AlignUpExact(request);
  }

  /** A heap that was just initialised cannot hand out all its bytes, but everything less. */
  lemma FreshHeapServes(memSize: int, size: int)
    requires 0 < size <= memSize
    ensures NoFit(Fresh(HS, memSize + HS), size, memSize - size) <==> size == memSize
  {
    assert Fresh(HS, memSize + HS)[0] == Block(0, memSize, false);
  }

  /** Handing out a block other than the lowest free one leaves that one lowest. */
  lemma CarveLowestFree(l: Layout, k: nat, size: int, end: int)
    requires Tiled(l, HS, end) && k < |l| && !l[k].used
    ensures var m, f := Carve(l, k, size, HS, MIN), FirstFree(l);
            && f <= k
            && (f < k ==> l[f].addr < l[k].addr && FirstFree(m) == f && m[f] == l[f])
            && (f == k ==> forall j :: 0 <= j < k ==> m[j].used)
  {
    AllOrdered(l, HS, end);
    var m, f := Carve(l, k, size, HS, MIN), FirstFree(l);
    if f < k { FirstFreeIs(m, f); }
  }

  lemma MarkLowestFree(l: Layout, k: nat, end: int)
    requires Tiled(l, HS, end) && k < |l| && l[k].used
    ensures var f := FirstFree(l);
            && FirstFree(Mark(l, k, false)) == (if k < f then k else f)
            && (k < f <==> l[k].addr < AddrAt(l, f, end))
  {
    AllOrdered(l, HS, end);
    FirstFreeIs(Mark(l, k, false), if k < FirstFree(l) then k else FirstFree(l));
  }

  lemma FuseLowestFree(l: Layout, k: nat, end: int)
    requires Tiled(l, HS, end) && k + 1 < |l| && !l[k].used && !l[k + 1].used
    ensures var m, f := Fuse(l, k, k + 2, false), FirstFree(l);
            FirstFree(m) == f <= k && m[f].addr == l[f].addr < l[k + 1].addr
  {
    Ordered(l, HS, 0, end, FirstFree(l), k + 1);
    FirstFreeIs(Fuse(l, k, k + 2, false), FirstFree(l));
  }

  lemma CutLowestFree(l: Layout, k: nat, size: int, end: int)
    requires Tiled(l, HS, end) && k < |l| && l[k].used && 0 <= size && size + HS <= l[k].cap
    ensures var m, f, q := Cut(l, k, size, HS, true, false), FirstFree(l), l[k].addr + HS + size;
            AddrAt(m, FirstFree(m), end) == if q < AddrAt(l, f, end) then q else AddrAt(l, f, end)
  {
    AllOrdered(l, HS, end);
    var m, f := Cut(l, k, size, HS, true, false), FirstFree(l);
    FirstFreeIs(m, if f < k then f else k + 1);
  }

  /** Every block has payload; a shrinking rt_realloc may leave less than MIN of it. */
  ghost predicate NonEmpty(l: Layout)
  {
    forall i :: 0 <= i < |l| ==> l[i].cap > 0
  }

  lemma CarveNonEmpty(l: Layout, k: nat, size: int)
    requires NonEmpty(l) && k < |l| && 0 < size
    ensures NonEmpty(Carve(l, k, size, HS, MIN))
  {
  }

  lemma ReleaseNonEmpty(l: Layout, k: nat, end: int)
    requires NonEmpty(l) && k < |l| && Tiled(l, HS, end)
    ensures NonEmpty(Release(l, k))
  {
    var lo, hi := RunStart(l, k), RunEnd(l, k);
    if lo < hi - 1 { Ordered(l, HS, 0, end, lo, hi - 1); }
  }

  lemma ShrinkNonEmpty(l: Layout, k: nat, size: int, end: int)
    requires NonEmpty(l) && k < |l| && Tiled(l, HS, end)
    requires 0 < size && size % 4 == 0 && size + HS < l[k].cap
    ensures NonEmpty(Shrink(l, k, size, HS))
  {
    CutTiled(l, k, size, HS, true, true, end);
    ReleaseNonEmpty(Cut(l, k, size, HS, true, true), k + 1, end);
  }

  lemma ServeEffect(l: Layout, k: nat, size: int, end: int)
    requires Coherent(l, HS, end) && NonEmpty(l) && k < |l| && !l[k].used
    requires 0 < size <= l[k].cap && size % 4 == 0
    ensures var m := Carve(l, k, size, HS, MIN);
            && NoAdjacentFree(m) && NonEmpty(m)
            && k < |m| && m[k] == Portion(l[k], size, HS, MIN) && m[k].cap >= size
            && m[k] !in Live(l) && Live(m) == Live(l) + {m[k]}
            && Span(m, HS, true) == Span(l, HS, true) + HS + m[k].cap
  {
    CarveEffect(l, k, size, HS, MIN, end);
    CarveNonEmpty(l, k, size);
    NotYetLive(l, k, Carve(l, k, size, HS, MIN)[k], end, HS);
  }

  lemma FreshHeap(size: int)
    requires 0 <= size && size % 4 == 0
    ensures var end := size + HS;
            var l, hdr := Fresh(HS, end),
                          map[0 := Header(HEAP_MAGIC, false, end, 0), end := Header(HEAP_MAGIC, true, end, end)];
            && Tiled(l, HS, end) && Chain(hdr, l, end, Geo(end)) && NoAdjacentFree(l) && (size > 0 ==> NonEmpty(l))
            && AddrAt(l, FirstFree(l), end) == 0 && Span(l, HS, true) == 0
  {
    One(Fresh(HS, size + HS)[0], HS);
  }

  /** The test of rt_system_heap_init for room between the aligned bounds. */
  predicate Initialises(begin: Word, end: Word)
  {
    AlignDown(end) > 2 * HS && AlignDown(end) - 2 * HS >= AlignUp(begin)
  }

  /** rt_system_heap_init: without room for two headers there is no heap. */
  method SystemHeapInit(begin: Word, end: Word) returns (h: Heap?)
    ensures h != null <==> Initialises(begin, end)
    ensures h != null ==> fresh(h) && fresh(h.data) && h.Valid() && h.layout == Fresh(HS, h.End())
    ensures h != null ==> h.usedMem == h.maxMem == 0
    ensures h != null ==> h.base == AlignUp(begin) && h.memSize == AlignDown(end) - AlignUp(begin) - 2 * HS
  {
    h := null;
    if AlignDown(end) > 2 * HS && AlignDown(end) - 2 * HS >= AlignUp(begin) {
      h := new Heap(begin, end);
    }
  }

  class Heap {
    const base: int                 // heap_ptr, as an address
    const memSize: int              // mem_size_aligned
    const data: array<Byte>         // the managed bytes, headers' room included
    var hdr: map<int, Header>       // the headers, by offset from heap_ptr
    var lfree: int
    var usedMem: int
    var maxMem: int
    ghost var layout: Layout

    ghost predicate Valid()
      reads this
    {
      && Consistent()
      && NoAdjacentFree(layout)
      && (if memSize < MIN then layout == Fresh(HS, End()) else NonEmpty(layout))
      && lfree == AddrAt(layout, FirstFree(layout), End())
      && usedMem == Span(layout, HS, true)
      && usedMem <= maxMem
    }

    ghost predicate Consistent()
      reads `hdr, `layout
    {
      && 0 <= memSize && memSize % 4 == 0
      && data.Length == memSize + 2 * HS
      && 0 <= base && base % 4 == 0 && base + memSize + 2 * HS < WORD_RANGE
      && Tiled(layout, HS, End())
      && Chain(hdr, layout, End(), Geo(End()))
    }

    /** Offset of heap_end. */
    function End(): int
    {
      memSize + HS
    }

    ghost predicate IsLive(p: int)
      reads this
    {
      exists k :: 0 <= k < |layout| && layout[k].used && layout[k].addr + HS == p
    }

    /** rt_malloc ends: the heap has MIN data bytes, or the request is turned away before the walk. */
    predicate Answers(request: Word)
    {
      MIN <= memSize || request == 0 || AlignUp(request) > memSize
    }

    /** rt_system_heap_init, lines 223-256. */
    constructor (begin: Word, end: Word)
      requires Initialises(begin, end)
      ensures Valid() && fresh(data)
      ensures base == AlignUp(begin) && memSize == AlignDown(end) - AlignUp(begin) - 2 * HS
      ensures layout == Fresh(HS, End()) && usedMem == maxMem == 0
    {
      hide Tiled, Chain, NoAdjacentFree, NonEmpty, FirstFree, Span, AlignUp;
      var size := AlignDown(end) - AlignUp(begin) - 2 * HS;
      base, memSize := AlignUp(begin), size;
      data := new Byte[size + 2 * HS];
      hdr := map[0 := Header(HEAP_MAGIC, false, size + HS, 0),
                 size + HS := Header(HEAP_MAGIC, true, size + HS, size + HS)];
      lfree := 0;
      usedMem, maxMem := 0, 0;
      layout := Fresh(HS, size + HS);
      AlignUpExact(begin);
      FreshHeap(size);
    }

    /** With nothing live the heap is one free block again: no byte is in use and `lfree` is at the start. */
    lemma EmptyHeapIsFresh()
      requires Valid() && Live(layout) == {}
      ensures layout == Fresh(HS, End()) && usedMem == 0 && lfree == 0
    {
      NothingLiveMeansFresh(layout, HS, End());
      One(layout[0], HS);
    }

    /** The running totals stay in range: no subtraction from `usedMem` ever wraps. */
    lemma StatisticsInRange()
      requires Valid()
      ensures 0 <= usedMem <= maxMem && usedMem <= End()
      ensures forall k :: 0 <= k < |layout| && layout[k].used ==> HS + layout[k].cap <= usedMem
    {
      SpansCoverMemory(layout, HS, 0, End());
      SpanNonNegative(layout, HS, 0, End(), true);
      SpanNonNegative(layout, HS, 0, End(), false);
      forall k | 0 <= k < |layout| && layout[k].used ensures HS + layout[k].cap <= usedMem {
        ReleaseEffect(layout, k, HS, End());
        SpanNonNegative(Release(layout, k), HS, 0, End(), true);
      }
    }

    /** The walk of rt_malloc from `lfree`: it finds the lowest block that fits anywhere in the heap. */
    method Search(size: int) returns (ptr: int, found: bool, ghost k: nat)
      requires Valid() && 0 < size <= memSize
      ensures found ==> FirstFit(layout, k, size, memSize - size) && ptr == layout[k].addr
      ensures !found ==> NoFit(layout, size, memSize - size)
    {
      hide NonEmpty, NoAdjacentFree, Span;
      AllOrdered(layout, HS, End());
      ptr := lfree;
      k := FirstFree(layout);
      while ptr < memSize - size
        invariant k <= |layout| && ptr == AddrAt(layout, k, End())
        invariant forall j :: 0 <= j < k ==> !Fits(layout[j], size, memSize - size)
        decreases |layout| - k
      {
        if !hdr[ptr].used && hdr[ptr].next - (ptr + HS) >= size {
          return ptr, true, k;
        }
        ptr := hdr[ptr].next;
        k := k + 1;
      }
      return ptr, false, 0;
    }

    /** Cut the block at `ptr` after `size` bytes: the front gets state `used`, the rest is free
        (mem.c lines 329-348 and 478-491). */
    method SplitAt(ptr: int, size: int, ghost k: nat)
      requires Consistent() && k < |layout| && layout[k].addr == ptr
      requires 0 <= size && size % 4 == 0 && size + HS <= layout[k].cap
      modifies `hdr, `layout
      ensures Consistent()
      ensures layout == Cut(old(layout), k, size, HS, old(layout)[k].used, false)
    {
      CutTiled(layout, k, size, HS, layout[k].used, false, End());
      CutWritesChain(hdr, layout, k, size, End());
      ghost var after := CutWrites(hdr, ptr, size, End());
      var ptr2, n := ptr + HS + size, hdr[ptr].next;
      hdr := hdr[ptr2 := Header(HEAP_MAGIC, false, n, ptr)];
      hdr := hdr[ptr := hdr[ptr].(next := ptr2)];
      if n != End() {
        hdr := hdr[n := hdr[n].(prev := ptr2)];
      }
      assert hdr == after;
      layout := Cut(layout, k, size, HS, layout[k].used, false);
    }

    method SetUsed(ptr: int, used: bool, ghost k: nat)
      requires Consistent() && k < |layout| && layout[k].addr == ptr
      modifies `hdr, `layout
      ensures Consistent() && layout == Mark(old(layout), k, used)
    {
      MarkTiled(layout, k, used, HS, End());
      ChainMark(hdr, layout, k, used, End(), Geo(End()));
      hdr := hdr[ptr := hdr[ptr].(used := used)];
      layout := Mark(layout, k, used);
    }

    /** Take the free block at `ptr` for `size` bytes (mem.c lines 316-370). */
    method HandOut(ptr: int, size: int, ghost k: nat)
      requires Consistent() && k < |layout| && layout[k].addr == ptr && !layout[k].used
      requires 0 <= size <= layout[k].cap && size % 4 == 0
      modifies `hdr, `layout, `usedMem
      ensures Consistent()
      ensures layout == Carve(old(layout), k, size, HS, MIN)
      ensures usedMem == old(usedMem) + HS + layout[k].cap
    {
      if hdr[ptr].next - (ptr + HS) >= size + HS + MIN {
        SplitAt(ptr, size, k);
        SetUsed(ptr, true, k);
        usedMem := usedMem + (size + HS);
      } else {
        SetUsed(ptr, true, k);
        assert layout[k].addr == ptr;
        usedMem := usedMem + (hdr[ptr].next - ptr);
      }
    }

    /** Advance `lfree` past used blocks (mem.c lines 383-384). */
    method AdvanceLowestFree(ghost from: nat)
      requires Consistent() && from <= |layout| && lfree == AddrAt(layout, from, End())
      requires forall j :: 0 <= j < from ==> layout[j].used
      modifies `lfree
      ensures lfree == AddrAt(layout, FirstFree(layout), End())
    {
      AllOrdered(layout, HS, End());
      ghost var j := from;
      while hdr[lfree].used && lfree != End()
        invariant from <= j <= |layout| && lfree == AddrAt(layout, j, End())
        invariant forall i :: 0 <= i < j ==> layout[i].used
        decreases |layout| - j
      {
        lfree := hdr[lfree].next;
        j := j + 1;
      }
    }

    /** rt_malloc, lines 380-387. */
    method UpdateLowestFree(ptr: int, size: int, ghost l: Layout, ghost k: nat)
      requires Consistent() && Tiled(l, HS, End()) && k < |l| && !l[k].used && l[k].addr == ptr
      requires layout == Carve(l, k, size, HS, MIN) && lfree == AddrAt(l, FirstFree(l), End())
      modifies `lfree
      ensures LowestFreeKnown()
    {
      CarveLowestFree(l, k, size, End());
      if ptr == lfree {
        AdvanceLowestFree(k);
      }
    }

    /** A request is refused when it is empty, larger than the heap, or fits nowhere. */
    ghost predicate MustFail(l: Layout, request: Word)
    {
      request == 0 || AlignUp(request) > memSize || NoFit(l, Effective(request), memSize - Effective(request))
    }

    /** The pointer `p` is to the lowest block of `was` that fits, which is now one more live block. */
    ghost predicate Served(was: Layout, size: int, p: int, k: nat)
      reads this
    {
      && FirstFit(was, k, size, memSize - size)
      && layout == Carve(was, k, size, HS, MIN)
      && k < |layout| && p == layout[k].addr + HS && layout[k] == Portion(was[k], size, HS, MIN)
      && size <= layout[k].cap < size + HS + MIN
      && layout[k] !in Live(was) && Live(layout) == Live(was) + {layout[k]}
    }

    /** `b` is what a request of `size` bytes gets of the lowest block that fits. */
    ghost predicate FromFirstFit(was: Layout, size: int, b: Block)
    {
      exists j :: 0 <= j < |was| && FirstFit(was, j, size, memSize - size) && b == Portion(was[j], size, HS, MIN)
    }

    /** rt_malloc. */
    method Malloc(request: Word) returns (p: Ptr, ghost k: nat)
      requires Valid() && Answers(request)
      modifies this
      ensures Valid() && maxMem == Max(old(maxMem), usedMem)
      ensures p.Null? <==> MustFail(old(layout), request)
      ensures p.Null? ==> unchanged(this)
      ensures p.At? ==> Served(old(layout), Effective(request), p.off, k) && usedMem == old(usedMem) + HS + layout[k].cap
    {
      p, k := Null, 0;
      AlignUpExact(request);
      if request != 0 && AlignUp(request) <= memSize {
        p, k := MallocAligned(Effective(request));
      }
    }

    /** rt_malloc from line 303 on: the size is aligned and floored. */
    method MallocAligned(size: int) returns (p: Ptr, ghost k: nat)
      requires Valid() && MIN <= size <= memSize && size % 4 == 0
      modifies this
      ensures Valid() && maxMem == Max(old(maxMem), usedMem)
      ensures p.Null? ==> unchanged(this) && NoFit(old(layout), size, memSize - size)
      ensures p.At? ==> Served(old(layout), size, p.off, k) && usedMem == old(usedMem) + HS + layout[k].cap
    {
      var ptr, found;
      ptr, found, k := Search(size);
      if !found { return Null, 0; }
      ServeEffect(layout, k, size, End());
      ghost var l := layout;
      HandOut(ptr, size, k);
      if maxMem < usedMem { maxMem := usedMem; }
      UpdateLowestFree(ptr, size, l, k);
      return At(ptr + HS), k;
    }

    /** rt_malloc as its callers in the kernel use it: a new live block with room for `n` bytes. */
    method Obtain(n: Word) returns (p: Ptr, ghost b: Block)
      requires Valid() && Answers(n)
      modifies this
      ensures Valid() && maxMem == Max(old(maxMem), usedMem) && (p.Null? <==> MustFail(old(layout), n))
      ensures p.Null? ==> unchanged(this)
      ensures p.At? ==> b.used && b !in old(Live(layout)) && Live(layout) == old(Live(layout)) + {b}
      ensures p.At? ==> p.off == b.addr + HS && Effective(n) <= b.cap && 0 <= b.addr && b.addr % 4 == 0
      ensures p.At? ==> b.addr + HS + b.cap <= data.Length && b.cap < Effective(n) + HS + MIN
      ensures p.At? ==> FromFirstFit(old(layout), Effective(n), b) && usedMem == old(usedMem) + HS + b.cap
    {
      ghost var k;
      p, k := Malloc(n);
      b := Block(0, 0, false);
      if p.At? {
        b := layout[k];
        AllOrdered(layout, HS, End());
        assert Sound(b);
      }
    }

    method MergeWithNext(mem: int, ghost k: nat)
      requires Consistent() && k + 1 < |layout| && layout[k].addr == mem
      modifies `hdr, `layout
      ensures Consistent() && layout == Fuse(old(layout), k, k + 2, old(layout)[k].used)
    {
      FuseTiled(layout, k, k + 2, layout[k].used, HS, End());
      FuseWritesChain(hdr, layout, k, End(), Geo(End()));
      ghost var after := FuseWrites(hdr, mem, hdr[layout[k + 1].addr].next);
      var nmem := hdr[mem].next;
      hdr := hdr[mem := hdr[mem].(next := hdr[nmem].next)];
      hdr := hdr[hdr[mem].next := hdr[hdr[mem].next].(prev := mem)];
      assert hdr == after;
      layout := Fuse(layout, k, k + 2, layout[k].used);
    }

    ghost predicate LowestFreeKnown()
      reads `layout, `lfree
    {
      lfree == AddrAt(layout, FirstFree(layout), End())
    }

    /** plug_holes, forward part: absorb a free successor. */
    method PlugForward(mem: int, ghost k: nat)
      requires Consistent() && k < |layout| && !layout[k].used && layout[k].addr == mem
      modifies `hdr, `layout, `lfree
      ensures Consistent() && layout == JoinRight(old(layout), k)
      ensures layout[k].addr == mem && !layout[k].used
      ensures old(LowestFreeKnown()) ==> LowestFreeKnown()
    {
      hide Tiles, Links, FirstFree;
      Neighbours(hdr, layout, k, End(), Geo(End()));
      var nmem := hdr[mem].next;
      if mem != nmem && !hdr[nmem].used && nmem != End() {
        assert k + 1 < |layout| && nmem == layout[k + 1].addr && !layout[k + 1].used;
        FuseLowestFree(layout, k, End());
        if lfree == nmem { lfree := mem; }
        MergeWithNext(mem, k);
      }
    }

    /** plug_holes, backward part: be absorbed by a free predecessor. */
    method PlugBackward(mem: int, ghost k: nat)
      requires Consistent() && k < |layout| && !layout[k].used && layout[k].addr == mem
      modifies `hdr, `layout, `lfree
      ensures Consistent() && layout == JoinLeft(old(layout), k)
      ensures old(LowestFreeKnown()) ==> LowestFreeKnown()
    {
      hide Tiles, Links, FirstFree;
      Neighbours(hdr, layout, k, End(), Geo(End()));
      var pmem := hdr[mem].prev;
      if pmem != mem && !hdr[pmem].used {
        assert k > 0 && pmem == layout[k - 1].addr && !layout[k - 1].used;
        FuseLowestFree(layout, k - 1, End());
        if lfree == mem { lfree := pmem; }
        MergeWithNext(pmem, k - 1);
      }
    }

    /** plug_holes: coalesce the freed block at `mem` with the free neighbours it has. */
    method PlugHoles(mem: int, ghost l: Layout, ghost k: nat)
      requires Consistent() && k < |l| && layout == Mark(l, k, false) && layout[k].addr == mem
      modifies `hdr, `layout, `lfree
      ensures Consistent() && layout == Release(l, k)
      ensures old(LowestFreeKnown()) ==> LowestFreeKnown()
    {
      ReleaseRightThenLeft(l, k);
      PlugForward(mem, k);
      PlugBackward(mem, k);
    }

    /** rt_free, lines 596-609: the block is marked free and accounted for, but not yet coalesced. */
    method MarkFreed(mem: int, ghost k: nat)
      requires Consistent() && LowestFreeKnown() && k < |layout| && layout[k].used && layout[k].addr == mem
      modifies `hdr, `layout, `lfree, `usedMem
      ensures Consistent() && LowestFreeKnown() && layout == Mark(old(layout), k, false)
      ensures usedMem == old(usedMem) - HS - old(layout)[k].cap
    {
      MarkLowestFree(layout, k, End());
      SetUsed(mem, false, k);
      assert layout[k].addr == mem;
      if mem < lfree { lfree := mem; }
      usedMem := usedMem - (hdr[mem].next - mem);
    }

    /** rt_free. */
    method Free(p: Ptr)
      requires Valid()
      requires p.At? ==> IsLive(p.off)
      modifies `hdr, `layout, `lfree, `usedMem
      ensures Valid()
      ensures p.Null? ==> unchanged(this)
      ensures p.At? ==> var k := BlockAt(old(layout), p.off, HS);
                        && layout == Release(old(layout), k)
                        && Live(layout) == Live(old(layout)) - {old(layout)[k]}
                        && usedMem == old(usedMem) - HS - old(layout)[k].cap
    {
      if p.Null? { return; }
      hide NonEmpty, NoAdjacentFree, Live, Release;
      ghost var l, k := layout, BlockAt(layout, p.off, HS);
      var mem := p.off - HS;
      assert hdr[mem].used && hdr[mem].magic == HEAP_MAGIC;
      ReleaseEffect(l, k, HS, End());
      ReleaseCoalesced(l, k);
      ReleaseNonEmpty(l, k, End());
      MarkFreed(mem, k);
      PlugHoles(mem, l, k);
    }

    /** rt_realloc, lines 474-497: cut off the tail of a held block as a free block of its own. */
    method SplitTail(mem: int, newsize: int, ghost k: nat)
      requires Consistent() && LowestFreeKnown() && k < |layout| && layout[k].used && layout[k].addr == mem
      requires 0 <= newsize && newsize % 4 == 0 && newsize + HS <= layout[k].cap
      modifies `hdr, `layout, `lfree, `usedMem
      ensures Consistent() && LowestFreeKnown()
      ensures layout == Cut(old(layout), k, newsize, HS, true, false)
      ensures usedMem == old(usedMem) - (old(layout)[k].cap - newsize)
    {
      CutLowestFree(layout, k, newsize, End());
      var size := hdr[mem].next - mem - HS;
      usedMem := usedMem - (size - newsize);
      SplitAt(mem, newsize, k);
      var mem2 := mem + HS + newsize;
      if mem2 < lfree { lfree := mem2; }
    }

    /** rt_realloc, lines 473-503: shrink in place. */
    method ShrinkInPlace(mem: int, newsize: int, ghost k: nat)
      requires Valid() && k < |layout| && layout[k].used && layout[k].addr == mem
      requires 0 < newsize && newsize % 4 == 0 && newsize + HS < layout[k].cap
      modifies `hdr, `layout, `lfree, `usedMem
      ensures Valid() && layout == Shrink(old(layout), k, newsize, HS)
      ensures k < |layout| && layout[k] == Block(mem, newsize, true)
      ensures Live(layout) == Live(old(layout)) - {old(layout)[k]} + {layout[k]}
      ensures usedMem == old(usedMem) - (old(layout)[k].cap - newsize)
    {
      ShrinkEffect(layout, k, newsize, HS, End());
      ShrinkNonEmpty(layout, k, newsize, End());
      CutThenFree(layout, k, newsize, HS);
      ghost var both := Cut(layout, k, newsize, HS, true, true);
      SplitTail(mem, newsize, k);
      PlugHoles(mem + HS + newsize, both, k + 1);
    }

    /** rt_realloc, lines 511-512: copy the payload of `b` over to `got` and give `b` back. */
    method Relocate(p: int, q: int, n: int, ghost b: Block, ghost got: Block)
      requires Valid() && b in Live(layout) && got in Live(layout) && b != got
      requires p == b.addr + HS && q == got.addr + HS && 0 <= n <= b.cap && n <= got.cap
      modifies this, data
      ensures Valid() && maxMem == old(maxMem) && usedMem == old(usedMem) - HS - b.cap
      ensures Live(layout) == Live(old(layout)) - {b}
      ensures Inside(got) && Inside(b) && Copied(data[..], old(data[..]), q, p, n)
    {
      LivePair(layout, b, got, End(), HS);
      MemCpy(data, q, p, n);
      ghost var copied := data[..];
      ghost var k :| 0 <= k < |layout| && layout[k] == b;
      SameBlock(layout, layout[BlockAt(layout, p, HS)], b, End(), HS);
      Free(At(p));
      assert data[..] == copied;
    }

    /** Relocation seen from the row `was` in which `got` had not been handed out yet. */
    method Transfer(p: int, q: int, n: int, ghost newsize: int, ghost was: Layout, ghost b: Block, ghost got: Block)
      requires Valid() && b in Live(was) && got.used && got !in Live(was) && Live(layout) == Live(was) + {got}
      requires p == b.addr + HS && q == got.addr + HS && 0 <= b.cap && 0 < newsize <= got.cap
      requires n == if b.cap < newsize then b.cap else newsize
      modifies this, data
      ensures Valid() && maxMem == old(maxMem) && usedMem == old(usedMem) - HS - b.cap
      ensures Resized(was, layout, old(data[..]), data[..], b, got, newsize, HS)
    {
      ghost var bytes := data[..];
      TradeOne(Live(was), got, b);
      Relocate(p, q, n, b, got);
      ResizedByMove(was, layout, bytes, data[..], b, got, newsize, End(), HS);
    }

    /** rt_realloc, lines 508-515: move the payload into a block of its own. */
    method Move(p: int, size: int, newsize: Word, ghost b: Block) returns (q: Ptr, ghost got: Block)
      requires Valid() && b in Live(layout) && p == b.addr + HS && size == b.cap >= 0
      requires 0 < newsize <= memSize && newsize % 4 == 0
      modifies this, data
      ensures Valid()
      ensures q.Null? <==> MustFail(old(layout), newsize)
      ensures q.Null? ==> unchanged(this) && unchanged(data)
      ensures q.At? ==> q.off == got.addr + HS && maxMem == Max(old(maxMem), usedMem + HS + size)
                        && Resized(old(layout), layout, old(data[..]), data[..], b, got, newsize, HS)
      ensures q.At? ==> FromFirstFit(old(layout), Effective(newsize), got) && usedMem == old(usedMem) - b.cap + got.cap
    {
      ghost var l := layout;
      assert newsize <= Effective(newsize) by { AlignUpExact(newsize); }
      q, got := Obtain(newsize);
      if q.Null? { return; }
      Transfer(p, q.off, if size < newsize then size else newsize, newsize, l, b, got);
    }

    /** A held block keeps its place when its size stays or shrinks far enough. */
    predicate KeepsPlace(cap: int, newsize: int)
    {
      newsize == cap || newsize + HS + MIN < cap
    }

    /** The peak of a reallocation: a block that moves counts twice on the way. */
    ghost predicate Reached(was: int, cap: int, newsize: int)
      reads this
    {
      maxMem == Max(was, usedMem + if KeepsPlace(cap, newsize) then 0 else HS + cap)
    }

    /** Which block a reallocation of `b` ends with: `b` itself at exactly the new size, or a first fit. */
    ghost predicate Settled(was: Layout, b: Block, got: Block, newsize: Word)
    {
      if KeepsPlace(b.cap, newsize) then got == Block(b.addr, newsize, true)
      else FromFirstFit(was, Effective(newsize), got)
    }

    /** rt_realloc, lines 465-505: the block stays where it is. */
    method ResizeHere(p: int, newsize: int, ghost k: nat) returns (ghost got: Block)
      requires Valid() && k < |layout| && layout[k].used && p == layout[k].addr + HS && Inside(layout[k])
      requires 0 < newsize && newsize % 4 == 0 && KeepsPlace(layout[k].cap, newsize)
      modifies `hdr, `layout, `lfree, `usedMem
      ensures Valid() && got == Block(p - HS, newsize, true)
      ensures usedMem == old(usedMem) - old(layout)[k].cap + newsize
      ensures Resized(old(layout), layout, data[..], data[..], old(layout)[k], got, newsize, HS)
    {
      ghost var l, b := layout, layout[k];
      LiveMember(l, b);
      got := b;
      if hdr[p - HS].next - p == newsize {
        assert Live(l) - {b} + {b} == Live(l);
      } else {
        ShrinkInPlace(p - HS, newsize, k);
        got := layout[k];
      }
      ResizedInPlace(l, layout, data[..], b, got, newsize, HS);
    }

    /** rt_realloc, lines 459-515: the block is live and the size is aligned and in range. */
    method ReallocLive(p: int, newsize: Word, ghost k: nat) returns (q: Ptr, ghost got: Block)
      requires Valid() && k < |layout| && layout[k].used && p == layout[k].addr + HS
      requires 0 < newsize <= memSize && newsize % 4 == 0
      modifies this, data
      ensures Valid()
      ensures q.Null? <==> !KeepsPlace(old(layout)[k].cap, newsize) && MustFail(old(layout), newsize)
      ensures q.Null? ==> unchanged(this) && unchanged(data)
      ensures q.At? ==> Reached(old(maxMem), old(layout)[k].cap, newsize) && q.off == got.addr + HS
      ensures q.At? ==> Resized(old(layout), layout, old(data[..]), data[..], old(layout)[k], got, newsize, HS)
      ensures KeepsPlace(old(layout)[k].cap, newsize) ==> q == At(p)
      ensures q.At? ==> Settled(old(layout), old(layout)[k], got, newsize)
      ensures q.At? ==> usedMem == old(usedMem) - old(layout)[k].cap + got.cap
    {
      hide Resized, Live, NoAdjacentFree, NonEmpty, Span, NoFit, FromFirstFit;
      LiveMember(layout, layout[k]);
      AllOrdered(layout, HS, End());
      assert Sound(layout[k]);
      var mem := p - HS;
      var size := hdr[mem].next - mem - HS;
      if size == newsize || newsize + HS + MIN < size {
        ghost var bytes := data[..];
        got := ResizeHere(p, newsize, k);
        assert data[..] == bytes;
        q := At(p);
      } else {
        q, got := Move(p, size, newsize, layout[k]);
      }
    }

    predicate Inside(b: Block)
    {
      0 <= b.addr && 0 <= b.cap && b.addr + HS + b.cap <= End() <= data.Length
    }

    /** A reallocation is refused when the size is larger than the heap, or the block does not keep its place
        and there is no other one for it. */
    ghost predicate Refused(l: Layout, p: Ptr, newsize: Word)
      requires p.At? ==> exists k :: 0 <= k < |l| && l[k].used && l[k].addr + HS == p.off
    {
      || newsize > memSize
      || ((p.At? ==> !KeepsPlace(l[BlockAt(l, p.off, HS)].cap, newsize)) && MustFail(l, newsize))
    }

    /** A block can be refused a smaller size: on a heap of 36 data bytes that has served 28, which takes them all,
        24 are not to be had. */
    lemma SmallerCanBeRefused()
      requires memSize == 36
      ensures var l := [Block(0, 36, true)];
              && Trace([Fresh(HS, End()), l], [Take(0, 28)], HS, MIN, End()) && FirstFit(Fresh(HS, End()), 0, 28, memSize - 28)
              && l[0].used && l[0].addr + HS == At(HS).off && Refused(l, At(HS), 24)
    {
      var l, f := [Block(0, 36, true)], Fresh(HS, End());
      assert l[0].used && l[0].addr + HS == At(HS).off;
      assert BlockAt(l, HS, HS) == 0;
      assert Carve(f, 0, 28, HS, MIN) == l;
      assert Step(f, Take(0, 28), l, HS, MIN);
    }

    /** `got` is a block of the heap that a request of `size` bytes was served with. */
    ghost predicate Handed(was: Layout, size: int, p: int, got: Block)
      reads this
    {
      exists k :: 0 <= k < |layout| && got == layout[k] && Served(was, size, p, k)
    }

    /** rt_realloc from line 444 on: the size is aligned, in range and not zero. */
    method ReallocSized(p: Ptr, newsize: Word) returns (q: Ptr, ghost got: Block)
      requires Valid() && (if p.Null? then MIN <= memSize else IsLive(p.off) || !(0 <= p.off < End()))
      requires 0 < newsize <= memSize && newsize % 4 == 0
      modifies this, data
      ensures Valid()
      ensures q.Null? ==> unchanged(this) && unchanged(data)
      ensures (p.At? ==> old(IsLive(p.off))) ==> (q.Null? <==> Refused(old(layout), p, newsize))
      ensures p.Null? ==> unchanged(data) && maxMem == Max(old(maxMem), usedMem)
      ensures p.Null? && q.At? ==> Handed(old(layout), Effective(newsize), q.off, got)
      ensures p.Null? && q.At? ==> usedMem == old(usedMem) + HS + got.cap
      ensures p.At? && q.At? && old(IsLive(p.off)) ==>
                var b := old(layout[BlockAt(layout, p.off, HS)]);
                && q.off == got.addr + HS && (KeepsPlace(b.cap, newsize) ==> q == p) && Settled(old(layout), b, got, newsize)
                && usedMem == old(usedMem) - b.cap + got.cap && Reached(old(maxMem), b.cap, newsize)
                && Resized(old(layout), layout, old(data[..]), data[..], b, got, newsize, HS)
      ensures p.At? && !old(IsLive(p.off)) ==> q == p && unchanged(this) && unchanged(data)
    {
      got := Block(0, 0, false);
      if p.Null? {
        ghost var j;
        q, j := Malloc(newsize);
        got := if q.At? then layout[j] else got;
        return;
      }
      AllOrdered(layout, HS, End());
      if p.off < 0 || p.off >= End() {
        return p, got;
      }
      q, got := ReallocLive(p.off, newsize, BlockAt(layout, p.off, HS));
    }

    /** rt_realloc.  A request that aligns to zero gives the block back; outside the heap nothing happens. */
    method Realloc(p: Ptr, request: Word) returns (q: Ptr, ghost got: Block)
      requires Valid()
      requires p.At? ==> IsLive(p.off) || (AlignUp(request) != 0 && !(0 <= p.off < End()))
      requires p.Null? ==> Answers(AlignUp(request))
      modifies this, data
      ensures Valid()
      ensures q.Null? && AlignUp(request) != 0 ==> unchanged(this) && unchanged(data)
      ensures AlignUp(request) != 0 && (p.At? ==> old(IsLive(p.off))) ==>
                (q.Null? <==> Refused(old(layout), p, AlignUp(request)))
      ensures AlignUp(request) == 0 ==>
                && q.Null? && unchanged(data)
                && Live(layout) == Live(old(layout)) - (if p.At? then {old(layout[BlockAt(layout, p.off, HS)])} else {})
                && usedMem == old(usedMem) - (if p.At? then HS + old(layout[BlockAt(layout, p.off, HS)]).cap else 0)
      ensures p.Null? || AlignUp(request) == 0 ==> unchanged(data) && maxMem == Max(old(maxMem), usedMem)
      ensures p.Null? && q.At? ==> Handed(old(layout), Effective(AlignUp(request)), q.off, got)
      ensures p.Null? && q.At? ==> usedMem == old(usedMem) + HS + got.cap
      ensures p.At? && q.At? && old(IsLive(p.off)) ==>
                var b := old(layout[BlockAt(layout, p.off, HS)]);
                && q.off == got.addr + HS && (KeepsPlace(b.cap, AlignUp(request)) ==> q == p)
                && Settled(old(layout), b, got, AlignUp(request))
                && usedMem == old(usedMem) - b.cap + got.cap && Reached(old(maxMem), b.cap, AlignUp(request))
                && Resized(old(layout), layout, old(data[..]), data[..], b, got, AlignUp(request), HS)
      ensures p.At? && q.At? && !old(IsLive(p.off)) ==> q == p && unchanged(this) && unchanged(data)
    {
      hide Resized, Handed, Reached, Settled, Live, NoAdjacentFree, NonEmpty, Span, Links, Tiles;
      got := Block(0, 0, false);
      var newsize := AlignUp(request);
      AlignUpExact(request);
      if newsize > memSize {
        q := Null;
      } else if newsize == 0 {
        Free(p);
        q := Null;
      } else {
        q, got := ReallocSized(p, newsize);
      }
    }
  }
}
