/** The memheap allocator of memheap.c: a circular list of all blocks in address order and a second
    circular list of the free ones, threaded through the same items. */
module MemHeap {
  import opened Words
  import opened Layouts
  import opened Chains
  import opened Rings
  import opened Bytes
  import opened Clients

  const RT_MEMHEAP_MAGIC := 0x1ea01ea0

  /** RT_MEMHEAP_SIZE: six words. */
  const HS := 24

  /** RT_MEMHEAP_MINIALLOC. */
  const MIN := 12

  /** Where the free-list header of the heap object itself is, and the null pointer. */
  const FREE_HEADER := -1
  const NIL := -2

  /** The block list is circular: the first block is preceded by the tail, which is followed by it. */
  function Geo(tail: int): Geometry
  {
    Geometry(HS, RT_MEMHEAP_MAGIC, tail, 0)
  }

  ghost predicate BlockRing(hdr: map<int, Header>, l: Layout, tail: int)
  {
    Chain(hdr, l, tail, Geo(tail)) && hdr[tail].prev == LastAddr(l, 0)
  }

  /** Where rt_memheap_init puts the tail item of a pool: behind its free bytes, in words. */
  function TailItem(pool: Word): Word
  {
    Plus(Plus(pool, WORD_RANGE - 2 * HS), HS)
  }

  /** It is in the pool and apart from the first item if and only if there is room for two. */
  lemma TailItemExact(pool: Word)
    ensures HS <= TailItem(pool) && TailItem(pool) + HS <= pool <==> pool >= 2 * HS
    ensures pool >= 2 * HS ==> TailItem(pool) == pool - HS
  {
  }

  /** The item writes that cut a block after `size` bytes (memheap.c lines 204-213, 379-387 and 444-452). */
  function SplitWrites(hdr: map<int, Header>, p: int, size: int): map<int, Header>
    requires p in hdr && hdr[p].next in hdr
  {
    var q, n := p + HS + size, hdr[p].next;
    var made := hdr[q := Header(RT_MEMHEAP_MAGIC, false, n, p)];
    var back := made[n := made[n].(prev := q)];
    back[p := back[p].(next := q)]
  }

  lemma SplitWritesRing(hdr: map<int, Header>, l: Layout, k: nat, size: int, tail: int)
    requires Tiled(l, HS, tail) && BlockRing(hdr, l, tail) && k < |l|
    requires 0 <= size && size + HS <= l[k].cap
    ensures hdr[l[k].addr].next == AddrAt(l, k + 1, tail) && hdr[l[k].addr].next in hdr
    ensures BlockRing(SplitWrites(hdr, l[k].addr, size), Cut(l, k, size, HS, l[k].used, false), tail)
  {
    AllOrdered(l, HS, tail);
    assert k + 1 < |l| ==> l[k + 1].addr in hdr;
    ChainCut(hdr, SplitWrites(hdr, l[k].addr, size), l, k, size, l[k].used, false, tail, Geo(tail));
  }

  lemma FuseWritesRing(hdr: map<int, Header>, l: Layout, k: nat, tail: int)
    requires Tiled(l, HS, tail) && BlockRing(hdr, l, tail) && k + 1 < |l|
    ensures hdr[l[k].addr].next == l[k + 1].addr && hdr[l[k + 1].addr].prev == l[k].addr
    ensures hdr[l[k + 1].addr].next in hdr && hdr[l[k + 1].addr].next > l[k + 1].addr > l[k].addr
    ensures BlockRing(FuseWrites(hdr, l[k].addr, hdr[l[k + 1].addr].next), Fuse(l, k, k + 2, l[k].used), tail)
  {
    AllOrdered(l, HS, tail);
    FuseWritesChain(hdr, l, k, tail, Geo(tail));
  }

  /** Block `k` is the first one of the free list that can hold `size` bytes. */
  ghost predicate FirstHolding(l: Layout, frees: seq<int>, k: nat, size: int)
  {
    && k < |l| && !l[k].used && l[k].cap >= size
    && exists j :: 0 <= j < |frees| && frees[j] == l[k].addr
                   && forall i, b: Block :: 0 <= i < j && b in l && b.addr == frees[i] ==> b.cap < size
  }

  /** Index of the block that item `j` of the free list stands for. */
  ghost function FreeBlock(l: Layout, frees: seq<int>, j: nat): (k: nat)
    requires j < |frees| && Elements(frees) == FreeAddrs(l)
    ensures k < |l| && !l[k].used && l[k].addr == frees[j]
  {
    assert frees[j] in Elements(frees);
    FreeMember(l, frees[j]);
    var k :| 0 <= k < |l| && !l[k].used && l[k].addr == frees[j];
    k
  }

  /** The free list without the item `a`, the others in order. */
  ghost function Less(frees: seq<int>, a: int): seq<int>
  {
    if a in frees then Without(frees, IndexOf(frees, a)) else frees
  }

  /** The free list after block `k` of row `l` was given back: a free successor leaves it, and the block goes to the front
      unless a free predecessor, which stays where it is, has absorbed it. */
  ghost function Refiled(frees: seq<int>, l: Layout, k: nat): seq<int>
    requires k < |l|
  {
    (if RunStart(l, k) == k then [l[k].addr] else []) + Joined(frees, l, k)
  }

  /** A free block behind block `k`, which is about to join it, leaves the free list. */
  ghost function Joined(frees: seq<int>, l: Layout, k: nat): seq<int>
    requires k < |l|
  {
    if k + 1 < |l| && !l[k + 1].used then Less(frees, l[k + 1].addr) else frees
  }

  /** The free list after `size` bytes of block `k` were handed out: what is left of it goes to the front. */
  ghost function Split(frees: seq<int>, l: Layout, k: nat, size: int): seq<int>
    requires k < |l|
  {
    (if l[k].cap >= size + HS + MIN then [l[k].addr + HS + size] else []) + Less(frees, l[k].addr)
  }

  ghost function Pending(insert: bool, a: int): set<int>
  {
    if insert then {a} else {}
  }

  /** What absorbing a free block to the left means for the free list and the byte count. */
  lemma JoinLeftFree(l: Layout, k: nat, tail: int)
    requires Tiled(l, HS, tail) && k < |l| && !l[k].used
    ensures var m, insert := JoinLeft(l, k), RunStart(l, k) == k;
            && FreeAddrs(l) - {l[k].addr} == FreeAddrs(m) - Pending(insert, l[k].addr)
            && FreeBytes(m) == FreeBytes(l) + if insert then 0 else HS
  {
    if RunStart(l, k) < k {
      FuseFreeEffect(l, k - 1, HS, tail);
      MinusNothing(FreeAddrs(l) - {l[k].addr});
    }
  }

  lemma SingletonList(s: seq<int>, x: int)
    requires Distinct(s) && Elements(s) == {x}
    ensures s == [x]
  {
    assert x in Elements(s);
    forall i | 0 <= i < |s| ensures s[i] == x { assert s[i] in Elements(s); }
    assert s[0] == s[|s| - 1];
  }

  lemma TailIsReleased(l: Layout, k: nat, size: int)
    requires k < |l| && l[k].used
    ensures Shrink(l, k, size, HS) == JoinRight(Cut(l, k, size, HS, true, false), k + 1)
  {
    CutThenFree(l, k, size, HS);
    ReleaseRightThenLeft(Cut(l, k, size, HS, true, true), k + 1);
  }

  lemma NewTail(l: Layout, k: nat, size: int, tail: int)
    requires Tiled(l, HS, tail) && k < |l| && 0 <= size && size + HS <= l[k].cap
    ensures var m, q := Cut(l, k, size, HS, true, false), l[k].addr + HS + size;
            && q > 0 && m[k + 1].addr == q && q !in FreeAddrs(l)
            && (FreeAddrs(l) + {q}) - {q} == FreeAddrs(l)
  {
    hide FreeAddrs;
    AllOrdered(l, HS, tail);
    NoBlockInside(l, k, l[k].addr + HS + size, HS, tail);
  }

  /** Growing in place trades the free block behind for one that starts later. */
  lemma NewBoundary(l: Layout, k: nat, newsize: int, rest: int, tail: int)
    requires Tiled(l, HS, tail) && k + 1 < |l| && l[k].used && !l[k + 1].used && rest == l[k].addr + HS + newsize
    requires l[k].cap < newsize < l[k].cap + l[k + 1].cap && newsize % 4 == 0
    ensures 0 <= newsize && rest > 0 && rest !in FreeAddrs(l) && l[k + 1].addr in FreeAddrs(l)
    ensures FreeAddrs(Grow(l, k, newsize, HS)) == FreeAddrs(l) - {l[k + 1].addr} + {rest}
  {
    hide FreeAddrs;
    AllOrdered(l, HS, tail);
    assert Sound(l[k]);
    FreeMember(l, l[k + 1].addr);
    NoBlockInside(l, k + 1, rest, HS, tail);
    GrowFree(l, k, newsize, HS, tail);
    assert Grow(l, k, newsize, HS)[k + 1].addr == rest;
  }

  lemma ReleaseKeeps(l: Layout, k: nat, tail: int)
    requires Coherent(l, HS, tail) && k < |l| && l[k].used
    ensures NoAdjacentFree(Release(l, k))
    ensures Live(Release(l, k)) == Live(l) - {l[k]}
    ensures Span(Release(l, k), HS, true) == Span(l, HS, true) - HS - l[k].cap
    ensures FreeBytes(Release(l, k)) >= FreeBytes(l)
  {
    ReleaseEffect(l, k, HS, tail);
    ReleaseCoalesced(l, k);
    assert Sound(l[k]);
  }

  /** A held block is not among the free ones. */
  lemma NotFree(l: Layout, k: nat, tail: int)
    requires Tiled(l, HS, tail) && k < |l| && l[k].used
    ensures l[k].addr !in FreeAddrs(l)
    ensures FreeAddrs(l) + {l[k].addr} - {l[k].addr} == FreeAddrs(l)
  {
    FreeMember(l, l[k].addr);
    AllOrdered(l, HS, tail);
  }

  lemma MinusNothing<T>(s: set<T>)
    ensures s - {} == s
  {
  }

  lemma DiffCommute<T>(s: set<T>, a: set<T>, b: set<T>)
    ensures s - a - b == s - b - a
  {
  }

  /** The test of line 350 for growing in place, as the machine evaluates it. */
  predicate GrowGuard(nextSize: int, oldSize: int, newSize: int)
  {
    (nextSize + oldSize) % WORD_RANGE > (newSize + MIN) % WORD_RANGE
  }

  /** The sum on the right wraps for the three largest aligned sizes.  The test tells the truth about the
      room exactly when it does not wrap, or when the room is no more than the wrapped sum. */
  lemma GrowGuardExact(nextSize: int, oldSize: int, newSize: int)
    requires 0 <= nextSize && 0 <= oldSize < newSize < WORD_RANGE && nextSize + oldSize < WORD_RANGE
    ensures (GrowGuard(nextSize, oldSize, newSize) <==> nextSize + oldSize > newSize + MIN)
            <==> newSize + MIN < WORD_RANGE || nextSize + oldSize <= newSize + MIN - WORD_RANGE
  {
  }

  /** Block `k` may be reallocated to `newsize`: the test for growing it in place is not made, or tells the truth. */
  ghost predicate GuardTells(l: Layout, k: nat, newsize: int)
    requires k < |l|
  {
    || newsize + MIN < WORD_RANGE
    || k + 1 == |l| || l[k + 1].used
    || l[k].cap + l[k + 1].cap <= newsize + MIN - WORD_RANGE
  }

  /** Where the test tells the truth, a block that passes it stays inside the pool. */
  lemma Room(l: Layout, k: nat, newsize: int, tail: int)
    requires Tiled(l, HS, tail) && k + 1 < |l| && 0 <= tail < WORD_RANGE
    requires 0 <= l[k].cap < newsize < WORD_RANGE && !l[k + 1].used && GuardTells(l, k, newsize)
    ensures GrowGuard(l[k + 1].cap, l[k].cap, newsize) <==> newsize + MIN < l[k].cap + l[k + 1].cap
    ensures newsize + MIN < l[k].cap + l[k + 1].cap ==> 0 <= l[k].addr && l[k].addr + HS + newsize <= tail
  {
    AllOrdered(l, HS, tail);
    assert Sound(l[k + 1]);
    GrowGuardExact(l[k + 1].cap, l[k].cap, newsize);
  }

  /** Where it does not, the block passes it although it would reach beyond the pool. */
  lemma NoRoom(l: Layout, k: nat, newsize: int, tail: int)
    requires Tiled(l, HS, tail) && k + 1 < |l| && 0 <= tail && tail + HS < WORD_RANGE
    requires 0 <= l[k].cap < newsize < WORD_RANGE && !GuardTells(l, k, newsize)
    ensures GrowGuard(l[k + 1].cap, l[k].cap, newsize) && l[k].addr + HS + newsize > tail
  {
    hide GrowGuard;
    AllOrdered(l, HS, tail);
    assert Sound(l[k + 1]);
    GrowGuardExact(l[k + 1].cap, l[k].cap, newsize);
  }

  /** A heap that has served one request of 12 bytes and is asked to enlarge the block to all but the last word of the
      address space. */
  lemma GrowGuardFails()
    ensures var tail := 12 + HS + 100 + HS;
            var l := [Block(0, 12, true), Block(12 + HS, 100, false)];
            && Trace([Fresh(HS, tail), l], [Take(0, 12)], HS, MIN, tail)
            && AlignUp(0xFFFF_FFFC) == 0xFFFF_FFFC && !GuardTells(l, 0, 0xFFFF_FFFC)
            && GrowGuard(l[1].cap, l[0].cap, 0xFFFF_FFFC) && l[0].addr + HS + 0xFFFF_FFFC > tail
  {
    var tail := 12 + HS + 100 + HS;
    var l := [Block(0, 12, true), Block(12 + HS, 100, false)];
    var f := Fresh(HS, tail);
    assert Carve(f, 0, 12, HS, MIN) == l;
    assert Step(f, Take(0, 12), l, HS, MIN);
  }

  /** The size rt_memheap_alloc really looks for. */
  function Effective(request: Word): int
  {
    Max(AlignUp(request), MIN)
  }

  /** It is the request rounded up to words and to the smallest block, unless the alignment wraps. */
  lemma RequestHonoured(request: Word)
    ensures Effective(request) >= request <==> request <= WORD_RANGE - 4
    ensures request <= MIN || request > WORD_RANGE - 4 ==> Effective(request) == MIN
    ensures MIN < request <= WORD_RANGE - 4 ==> Effective(request) < request + 4 && Effective(request) % 4 == 0
  {
    AlignUpExact(request);
  }

  lemma EffectiveTwice(request: Word)
    ensures Effective(request) < WORD_RANGE && Effective(request) % 4 == 0
    ensures Effective(request) <= WORD_RANGE - 4 && Effective(Effective(request)) == Effective(request)
  {
    AlignUpExact(request);
    AlignedStays(Effective(request));
  }

  class Heap {
    const poolSize: int
    const data: array<Byte>
    var hdr: map<int, Header>         // items of the pool, by offset from start_addr
    var nextFree: map<int, int>       // their free-list links, and those of the free-list header
    var prevFree: map<int, int>
    var available: int
    var maxUsed: int
    ghost var layout: Layout
    ghost var frees: seq<int>         // the free list, front first

    ghost predicate Valid()
      reads this
    {
      && Shape() && FreeListIs(FreeAddrs(layout))
      && NoAdjacentFree(layout)
      && available == FreeBytes(layout)
      && poolSize - available <= maxUsed
    }

    /** The blocks tile the pool and are linked in a ring. */
    ghost predicate Shape()
      reads `hdr, `layout
    {
      && poolSize % 4 == 0 && 2 * HS <= poolSize < WORD_RANGE && data.Length == poolSize
      && Tiled(layout, HS, Tail())
      && BlockRing(hdr, layout, Tail())
    }

    /** The free list is linked both ways and holds the given addresses, each once. */
    ghost predicate FreeListIs(s: set<int>)
      reads `nextFree, `prevFree, `frees
    {
      Ring(nextFree, prevFree, [FREE_HEADER] + frees) && Elements(frees) == s
    }

    /** Offset of the permanently used tail block. */
    function Tail(): int
    {
      poolSize - HS
    }

    ghost predicate IsLive(p: int)
      reads this
    {
      exists k :: 0 <= k < |layout| && layout[k].used && layout[k].addr + HS == p
    }

    /** rt_memheap_init. */
    constructor (size: Word)
      requires AlignDown(size) >= 2 * HS
      ensures Valid() && fresh(data) && poolSize == AlignDown(size)
      ensures layout == Fresh(HS, Tail()) && maxUsed == 2 * HS
    {
      var pool := size - size % 4;
      poolSize := pool;
      data := new Byte[pool];
      available := pool - 2 * HS;
      maxUsed := 2 * HS;
      hdr := map[0 := Header(RT_MEMHEAP_MAGIC, false, pool - HS, pool - HS),
                 pool - HS := Header(RT_MEMHEAP_MAGIC, true, 0, 0)];
      nextFree := map[FREE_HEADER := 0, 0 := FREE_HEADER, pool - HS := NIL];
      prevFree := map[FREE_HEADER := 0, 0 := FREE_HEADER, pool - HS := NIL];
      layout := Fresh(HS, pool - HS);
      frees := [0];
      new;
      One(layout[0], HS);
    }

    /** Take an item out of the free list (memheap.c lines 216-217, 364-365, 471-472 and 576-577). */
    method Unlink(a: int)
      requires a in frees && FreeListIs(Elements(frees))
      modifies `nextFree, `prevFree, `frees
      ensures FreeListIs(old(Elements(frees)) - {a}) && frees == Less(old(frees), a)
    {
      RingUnlink(nextFree, prevFree, FREE_HEADER, frees, a);
      prevFree := prevFree[nextFree[a] := prevFree[a]];
      nextFree := nextFree[prevFree[a] := nextFree[a]];
      frees := Without(frees, IndexOf(frees, a));
    }

    /** Put an item at the front of the free list (memheap.c lines 222-225, 390-393, 476-479 and 583-586). */
    method Push(a: int)
      requires a !in frees && a != FREE_HEADER && FreeListIs(Elements(frees))
      modifies `nextFree, `prevFree, `frees
      ensures FreeListIs(old(Elements(frees)) + {a}) && frees == [a] + old(frees)
    {
      ghost var s := [FREE_HEADER] + frees;
      RingPush(nextFree, prevFree, s, a);
      nextFree := nextFree[a := nextFree[FREE_HEADER]];
      prevFree := prevFree[a := FREE_HEADER];
      prevFree := prevFree[nextFree[FREE_HEADER] := a];
      nextFree := nextFree[FREE_HEADER := a];
      assert [FREE_HEADER, a] + s[1..] == [FREE_HEADER] + ([a] + frees);
      frees := [a] + frees;
    }

    /** Overwrite the links of an item that is not in the free list. */
    method ClearLinks(a: int)
      requires a !in frees && a != FREE_HEADER && FreeListIs(Elements(frees))
      modifies `nextFree, `prevFree
      ensures FreeListIs(Elements(frees))
    {
      nextFree := nextFree[a := NIL];
      prevFree := prevFree[a := NIL];
    }

    /** Cut the block at `p` after `size` bytes; the rest is a free block not yet in the free list. */
    method SplitBlock(p: int, size: int, ghost k: nat)
      requires Shape() && k < |layout| && layout[k].addr == p
      requires 0 <= size && size % 4 == 0 && size + HS <= layout[k].cap
      modifies `hdr, `layout
      ensures Shape() && layout == Cut(old(layout), k, size, HS, old(layout)[k].used, false)
    {
      CutTiled(layout, k, size, HS, layout[k].used, false, Tail());
      SplitWritesRing(hdr, layout, k, size, Tail());
      ghost var after := SplitWrites(hdr, p, size);
      var q, n := p + HS + size, hdr[p].next;
      hdr := hdr[q := Header(RT_MEMHEAP_MAGIC, false, n, p)];
      hdr := hdr[n := hdr[n].(prev := q)];
      hdr := hdr[p := hdr[p].(next := q)];
      assert hdr == after;
      layout := Cut(layout, k, size, HS, layout[k].used, false);
    }

    /** Take the block behind `p` out of the block list. */
    method MergeWithNext(p: int, ghost k: nat)
      requires Shape() && k + 1 < |layout| && layout[k].addr == p
      modifies `hdr, `layout
      ensures Shape() && layout == Fuse(old(layout), k, k + 2, old(layout)[k].used)
    {
      FuseTiled(layout, k, k + 2, layout[k].used, HS, Tail());
      FuseWritesRing(hdr, layout, k, Tail());
      var q := hdr[p].next;
      var n := hdr[q].next;
      ghost var after := FuseWrites(hdr, p, n);
      FuseWritesCommute(hdr, p, n);
      hdr := hdr[n := hdr[n].(prev := p)];
      hdr := hdr[p := hdr[p].(next := n)];
      assert hdr == after;
      layout := Fuse(layout, k, k + 2, layout[k].used);
    }

    method SetUsed(p: int, used: bool, ghost k: nat)
      requires Shape() && k < |layout| && layout[k].addr == p
      modifies `hdr, `layout
      ensures Shape() && layout == Mark(old(layout), k, used)
    {
      AllOrdered(layout, HS, Tail());
      MarkTiled(layout, k, used, HS, Tail());
      ChainMark(hdr, layout, k, used, Tail(), Geo(Tail()));
      hdr := hdr[p := hdr[p].(used := used)];
      layout := Mark(layout, k, used);
    }

    /** Payload bytes of the item at `a`: MEMITEM_SIZE. */
    ghost function SizeOf(a: int): int
      reads this
      requires a in hdr
    {
      hdr[a].next - a - HS
    }

    lemma SizeIs(b: Block)
      requires Shape() && b in layout
      ensures b.addr in hdr && SizeOf(b.addr) == b.cap
    {
      ghost var k :| 0 <= k < |layout| && layout[k] == b;
      Neighbours(hdr, layout, k, Tail(), Geo(Tail()));
      EndsWhereNextStarts(layout, k, HS, Tail());
    }

    /** The walk along the free list: it stops at the first item that can hold `size` bytes. */
    method Search(size: int) returns (header: int, freeSize: int, ghost j: nat, ghost k: nat)
      requires Valid() && 0 < size
      ensures freeSize >= size ==>
                && j < |frees| && header == frees[j]
                && k < |layout| && layout[k].addr == header && !layout[k].used && layout[k].cap == freeSize
                && (forall i :: 0 <= i < j ==> frees[i] in hdr && SizeOf(frees[i]) < size)
                && FirstHolding(layout, frees, k, size)
      ensures freeSize < size ==> forall i :: 0 <= i < |layout| && !layout[i].used ==> layout[i].cap < size
    {
      DistinctTail(FREE_HEADER, frees);
      RingNext(nextFree, prevFree, FREE_HEADER, frees, 0);
      header, freeSize := nextFree[FREE_HEADER], 0;
      j, k := 0, 0;
      while header != FREE_HEADER && freeSize < size
        invariant j <= |frees| && header == if j < |frees| then frees[j] else FREE_HEADER
        invariant freeSize >= size ==>
                    j < |frees| && k < |layout| && layout[k].addr == header && !layout[k].used && layout[k].cap == freeSize
        invariant forall i :: 0 <= i < j ==> frees[i] in hdr && SizeOf(frees[i]) < size
        decreases |frees| - j, size - freeSize
      {
        k := FreeBlock(layout, frees, j);
        freeSize := hdr[header].next - header - HS;
        if freeSize < size {
          RingNext(nextFree, prevFree, FREE_HEADER, frees, j + 1);
          header := nextFree[header];
          j := j + 1;
        }
      }
      forall i, b: Block | 0 <= i < j && b in layout && b.addr == frees[i] ensures b.cap < size {
        SizeIs(b);
      }
      if freeSize < size {
        forall i | 0 <= i < |layout| && !layout[i].used ensures layout[i].cap < size {
          FreeMember(layout, layout[i].addr);
          assert layout[i].addr in Elements(frees);
          ghost var x :| 0 <= x < |frees| && frees[x] == layout[i].addr;
          assert SizeOf(frees[x]) < size;
        }
      }
    }

    /** Cut a free block and mark its front used, in the block list only. */
    method CutUsed(header: int, size: int, ghost k: nat)
      requires Shape() && k < |layout| && layout[k].addr == header && !layout[k].used
      requires 0 <= size && size % 4 == 0 && size + HS <= layout[k].cap
      modifies `hdr, `layout
      ensures Shape() && layout == Cut(old(layout), k, size, HS, true, false)
    {
      CutThenUse(layout, k, size, HS);
      SplitBlock(header, size, k);
      SetUsed(header, true, k);
    }

    /** Let `added` take the place of `gone` in the free list. */
    method SwapFree(gone: int, added: int, clear: bool)
      requires gone in frees && added !in frees && added != FREE_HEADER && FreeListIs(Elements(frees))
      modifies `nextFree, `prevFree, `frees
      ensures FreeListIs(old(Elements(frees)) - {gone} + {added}) && frees == [added] + Less(old(frees), gone)
    {
      DistinctTail(FREE_HEADER, frees);
      Unlink(gone);
      assert added !in Elements(frees) && gone !in Elements(frees);
      if clear { ClearLinks(gone); }
      Push(added);
    }

    /** rt_memheap_alloc, lines 190-225 and 258: hand out the front of a free block, free the rest.  The
        free-list writes are made first here; they go to other fields than the block-list writes. */
    method TakeFront(header: int, size: int, ghost k: nat)
      requires Shape() && FreeListIs(FreeAddrs(layout))
      requires k < |layout| && layout[k].addr == header && !layout[k].used
      requires 0 <= size && size % 4 == 0 && size + HS <= layout[k].cap
      modifies `hdr, `layout, `nextFree, `prevFree, `frees
      ensures Shape() && FreeListIs(FreeAddrs(layout))
      ensures layout == Cut(old(layout), k, size, HS, true, false)
      ensures frees == [header + HS + size] + Less(old(frees), header)
    {
      FreeMember(layout, header);
      AllOrdered(layout, HS, Tail());
      var rest := header + HS + size;
      NoBlockInside(layout, k, rest, HS, Tail());
      TakePart(layout, k, size, HS, Tail());
      assert Cut(layout, k, size, HS, true, false)[k + 1].addr == rest;
      SwapFree(header, rest, true);
      CutUsed(header, size, k);
    }

    /** rt_memheap_alloc, lines 251-258: hand out a free block whole. */
    method TakeAll(header: int, ghost k: nat)
      requires Shape() && FreeListIs(FreeAddrs(layout))
      requires k < |layout| && layout[k].addr == header && !layout[k].used
      modifies `hdr, `layout, `nextFree, `prevFree, `frees
      ensures Shape() && FreeListIs(FreeAddrs(layout))
      ensures layout == Mark(old(layout), k, true) && frees == Less(old(frees), header)
    {
      FreeMember(layout, header);
      AllOrdered(layout, HS, Tail());
      TakeWhole(layout, k, HS, Tail());
      Unlink(header);
      ClearLinks(header);
      SetUsed(header, true, k);
    }

    /** `k` is the block behind the new pointer `p`: the first in the free list that can hold `size`, and now
        one more live block. */
    ghost predicate Served(was: Layout, wasFrees: seq<int>, size: int, p: int, k: nat)
      reads this
    {
      && k < |was| && FirstHolding(was, wasFrees, k, size)
      && layout == Carve(was, k, size, HS, MIN) && frees == Split(wasFrees, was, k, size)
      && k < |layout| && p == layout[k].addr + HS && layout[k] == Portion(was[k], size, HS, MIN)
      && size <= layout[k].cap < size + HS + MIN
      && layout[k] !in Live(was) && Live(layout) == Live(was) + {layout[k]}
    }

    ghost predicate SomeBlockHolds(l: Layout, size: int)
    {
      exists i :: 0 <= i < |l| && !l[i].used && l[i].cap >= size
    }

    /** rt_memheap_alloc. */
    method Alloc(request: Word) returns (p: Ptr, ghost j: nat, ghost k: nat)
      requires Valid()
      modifies this
      ensures Valid() && maxUsed == Max(old(maxUsed), poolSize - available)
      ensures p.At? <==> Effective(request) < old(available) && SomeBlockHolds(old(layout), Effective(request))
      ensures p.Null? ==> unchanged(this)
      ensures p.At? ==> Served(old(layout), old(frees), Effective(request), p.off, k)
      ensures p.At? ==> Span(layout, HS, true) == old(Span(layout, HS, true)) + HS + layout[k].cap
      ensures p.At? ==> j < |old(frees)| && old(frees)[j] == p.off - HS
      ensures p.At? ==> forall i :: 0 <= i < j ==> old(frees[i] in hdr && SizeOf(frees[i]) < Effective(request))
    {
      p, j, k := Null, 0, 0;
      AlignUpExact(request);
      if Effective(request) < available {
        p, j, k := AllocAligned(Effective(request));
      }
    }

    /** rt_memheap_alloc from line 170 on: the size is aligned and floored, and below `available`. */
    method AllocAligned(size: int) returns (p: Ptr, ghost j: nat, ghost k: nat)
      requires Valid() && 0 < size && size % 4 == 0
      modifies this
      ensures Valid() && maxUsed == Max(old(maxUsed), poolSize - available)
      ensures p.At? <==> SomeBlockHolds(old(layout), size)
      ensures p.Null? ==> unchanged(this)
      ensures p.At? ==> Served(old(layout), old(frees), size, p.off, k)
      ensures p.At? ==> Span(layout, HS, true) == old(Span(layout, HS, true)) + HS + layout[k].cap
      ensures p.At? ==> j < |old(frees)| && old(frees)[j] == p.off - HS
      ensures p.At? ==> forall i :: 0 <= i < j ==> old(frees[i] in hdr && SizeOf(frees[i]) < size)
    {
      hide FreeListIs, BlockRing, Tiles, Live, NoAdjacentFree, FreeBytes, FreeAddrs, FirstHolding, Span;
      var header, freeSize;
      header, freeSize, j, k := Search(size);
      p := Null;
      if freeSize >= size {
        CarveEffect(layout, k, size, HS, MIN, Tail());
        NotYetLive(layout, k, Carve(layout, k, size, HS, MIN)[k], Tail(), HS);
        if freeSize >= size + HS + MIN {
          TakeFront(header, size, k);
          available := available - size - HS;
        } else {
          TakeAll(header, k);
          available := available - freeSize;
        }
        if poolSize - available > maxUsed {
          maxUsed := poolSize - available;
        }
        p := At(header + HS);
      }
    }

    /** rt_memheap_free, lines 541-557: let a free predecessor absorb the block. */
    method MergeLeft(p: int, ghost k: nat) returns (header: int, insert: bool)
      requires Shape() && k < |layout| && layout[k].addr == p && !layout[k].used
      modifies `hdr, `layout, `available
      ensures Shape() && layout == JoinLeft(old(layout), k)
      ensures header == layout[RunStart(old(layout), k)].addr && !layout[RunStart(old(layout), k)].used
      ensures insert <==> RunStart(old(layout), k) == k
      ensures available == old(available) + if insert then 0 else HS
    {
      Neighbours(hdr, layout, k, Tail(), Geo(Tail()));
      header, insert := p, true;
      if !hdr[hdr[p].prev].used {
        available := available + HS;
        header, insert := hdr[p].prev, false;
        MergeWithNext(header, k - 1);
      }
    }

    /** rt_memheap_free, lines 560-578: absorb a free successor and take it out of the free list.  `pending`
        is the block itself when it has yet to be put there. */
    method MergeRight(p: int, ghost k: nat, ghost pending: set<int>)
      requires Shape() && k < |layout| && layout[k].addr == p && !layout[k].used
      requires pending <= {p} && FreeListIs(FreeAddrs(layout) - pending)
      modifies `hdr, `layout, `available, `nextFree, `prevFree, `frees
      ensures Shape() && layout == JoinRight(old(layout), k)
      ensures layout[k].addr == p && !layout[k].used
      ensures FreeListIs(FreeAddrs(layout) - pending) && frees == Joined(old(frees), old(layout), k)
      ensures available - FreeBytes(layout) == old(available - FreeBytes(layout))
    {
      hide Ring, Links, Tiles, FreeAddrs, FreeBytes;
      Neighbours(hdr, layout, k, Tail(), Geo(Tail()));
      var next := hdr[p].next;
      if !hdr[next].used {
        FuseFreeEffect(layout, k, HS, Tail());
        FreeMember(layout, next);
        assert next in Elements(frees);
        DiffCommute(FreeAddrs(layout), pending, {next});
        available := available + HS;
        Absorb(p, next, k);
      }
    }

    /** Merge with the successor in the block list and drop it from the free list. */
    method Absorb(p: int, next: int, ghost k: nat)
      requires Shape() && k + 1 < |layout| && layout[k].addr == p && layout[k + 1].addr == next
      requires next in frees && FreeListIs(Elements(frees))
      modifies `hdr, `layout, `nextFree, `prevFree, `frees
      ensures Shape() && layout == Fuse(old(layout), k, k + 2, old(layout)[k].used)
      ensures FreeListIs(old(Elements(frees)) - {next}) && frees == Less(old(frees), next)
    {
      MergeWithNext(p, k);
      Unlink(next);
    }

    /** rt_memheap_free. */
    method Free(p: Ptr)
      requires Valid()
      requires p.At? ==> IsLive(p.off)
      modifies `hdr, `layout, `available, `nextFree, `prevFree, `frees
      ensures Valid() && available >= old(available)
      ensures p.Null? ==> unchanged(this)
      ensures p.At? ==> var k := BlockAt(old(layout), p.off, HS);
                        && layout == Release(old(layout), k)
                        && Live(layout) == Live(old(layout)) - {old(layout)[k]}
                        && Span(layout, HS, true) == Span(old(layout), HS, true) - HS - old(layout)[k].cap
                        && frees == Refiled(old(frees), old(layout), k)
    {
      if p.At? {
        FreeLive(p.off - HS, BlockAt(layout, p.off, HS));
      }
    }

    /** rt_memheap_free from line 508 on. */
    method FreeLive(h: int, ghost k: nat)
      requires Valid() && k < |layout| && layout[k].used && layout[k].addr == h
      modifies `hdr, `layout, `available, `nextFree, `prevFree, `frees
      ensures Valid() && available >= old(available) && layout == Release(old(layout), k)
      ensures Live(layout) == Live(old(layout)) - {old(layout)[k]}
      ensures Span(layout, HS, true) == Span(old(layout), HS, true) - HS - old(layout)[k].cap
      ensures frees == Refiled(old(frees), old(layout), k)
    {
      hide FreeListIs, BlockRing, Tiled, NoAdjacentFree, Live, FreeBytes, FreeAddrs, Release, Span, Less;
      ReleaseKeeps(layout, k, Tail());
      ghost var l := layout;
      MarkFreed(h, k);
      Coalesce(h, l, k);
    }

    /** rt_memheap_free, lines 536-538. */
    method MarkFreed(h: int, ghost k: nat)
      requires Shape() && FreeListIs(FreeAddrs(layout)) && k < |layout| && layout[k].used && layout[k].addr == h
      modifies `hdr, `layout, `available
      ensures Shape() && layout == Mark(old(layout), k, false) && layout[k].addr == h
      ensures FreeListIs(FreeAddrs(layout) - {h})
      ensures available - FreeBytes(layout) == old(available - FreeBytes(layout))
    {
      assert hdr[h].magic == RT_MEMHEAP_MAGIC && hdr[h].used;
      MarkFreeEffect(layout, k, HS, Tail());
      NotFree(layout, k, Tail());
      SetUsed(h, false, k);
      assert layout[k].addr == h;
      available := available + (hdr[h].next - h - HS);
    }

    /** rt_memheap_free, lines 541-591. */
    method Coalesce(h: int, ghost l: Layout, ghost k: nat)
      requires Shape() && k < |l| && layout == Mark(l, k, false) && layout[k].addr == h
      requires FreeListIs(FreeAddrs(layout) - {h})
      modifies `hdr, `layout, `available, `nextFree, `prevFree, `frees
      ensures Shape() && FreeListIs(FreeAddrs(layout))
      ensures layout == Release(l, k) && frees == Refiled(old(frees), l, k)
      ensures available - FreeBytes(layout) == old(available - FreeBytes(layout))
    {
      hide FreeListIs, BlockRing, Tiled, FreeBytes, JoinRight, Release, Less;
      ReleaseLeftThenRight(l, k);
      JoinLeftFree(layout, k, Tail());
      var header, insert := MergeLeft(h, k);
      CoalesceRight(header, insert, RunStart(l, k));
    }

    /** rt_memheap_free, lines 560-591. */
    method CoalesceRight(header: int, insert: bool, ghost k: nat)
      requires Shape() && k < |layout| && layout[k].addr == header && !layout[k].used
      requires FreeListIs(FreeAddrs(layout) - Pending(insert, header))
      modifies `hdr, `layout, `available, `nextFree, `prevFree, `frees
      ensures Shape() && FreeListIs(FreeAddrs(layout)) && layout == JoinRight(old(layout), k)
      ensures frees == (if insert then [header] else []) + Joined(old(frees), old(layout), k)
      ensures available - FreeBytes(layout) == old(available - FreeBytes(layout))
    {
      hide FreeListIs, BlockRing, Tiled, FreeBytes, JoinRight, Joined;
      AllOrdered(layout, HS, Tail());
      MergeRight(header, k, Pending(insert, header));
      FreeMember(layout, header);
      InsertPending(header, insert);
    }

    /** rt_memheap_free, lines 580-591: put the block into the free list unless it is part of one already. */
    method InsertPending(header: int, insert: bool)
      requires header in FreeAddrs(layout) && header != FREE_HEADER
      requires FreeListIs(FreeAddrs(layout) - Pending(insert, header))
      modifies `nextFree, `prevFree, `frees
      ensures FreeListIs(FreeAddrs(layout)) && frees == (if insert then [header] else []) + old(frees)
    {
      assert FreeAddrs(layout) - Pending(insert, header) + Pending(insert, header) == FreeAddrs(layout);
      if insert {
        assert header !in Elements(frees);
        Push(header);
      } else {
        MinusNothing(FreeAddrs(layout));
      }
    }

    /** Merge a held block with the free one behind it and cut it again at `newsize`, in the block list only. */
    method Recut(header: int, newsize: int, ghost k: nat)
      requires Shape() && k + 1 < |layout| && layout[k].addr == header && layout[k].used
      requires 0 <= newsize <= layout[k].cap + layout[k + 1].cap && newsize % 4 == 0
      modifies `hdr, `layout
      ensures Shape() && layout == Grow(old(layout), k, newsize, HS)
    {
      MergeWithNext(header, k);
      SplitBlock(header, newsize, k);
    }

    /** rt_memheap_realloc, lines 364-393: give `header` the bytes up to `newsize` out of the free block behind.
        The free-list writes are made first here; they go to other fields than the block-list writes. */
    method ShiftBoundary(header: int, next: int, newsize: int, ghost k: nat)
      requires Shape() && FreeListIs(FreeAddrs(layout))
      requires k + 1 < |layout| && layout[k].addr == header && layout[k + 1].addr == next
      requires layout[k].used && !layout[k + 1].used
      requires layout[k].cap < newsize < layout[k].cap + layout[k + 1].cap && newsize % 4 == 0
      modifies `hdr, `layout, `nextFree, `prevFree, `frees
      ensures Shape() && FreeListIs(FreeAddrs(layout))
      ensures layout == Grow(old(layout), k, newsize, HS) && frees == [header + HS + newsize] + Less(old(frees), next)
    {
      hide Ring, BlockRing, Tiled, FreeAddrs, Grow;
      var rest := header + HS + newsize;
      NewBoundary(layout, k, newsize, rest, Tail());
      SwapFree(next, rest, false);
      Recut(header, newsize, k);
    }

    /** rt_memheap_realloc, lines 350-401: grow in place. */
    method GrowInPlace(header: int, next: int, newsize: int, ghost k: nat)
      requires Valid() && k + 1 < |layout| && layout[k].addr == header && layout[k + 1].addr == next
      requires layout[k].used && !layout[k + 1].used
      requires layout[k].cap < newsize && newsize + MIN < layout[k].cap + layout[k + 1].cap && newsize % 4 == 0
      modifies this
      ensures Valid() && maxUsed == Max(old(maxUsed), poolSize - available)
      ensures layout == Grow(old(layout), k, newsize, HS) && layout[k] == Block(header, newsize, true)
      ensures Live(layout) == Live(old(layout)) - {old(layout)[k]} + {layout[k]}
      ensures available == old(available) + old(layout)[k].cap - newsize
      ensures frees == [header + HS + newsize] + Less(old(frees), next)
    {
      GrowEffect(layout, k, newsize, HS, Tail());
      var oldsize := hdr[header].next - header - HS;
      available := available - (newsize - oldsize);
      if poolSize - available > maxUsed { maxUsed := poolSize - available; }
      ShiftBoundary(header, next, newsize, k);
    }

    /** rt_memheap_realloc, lines 455-473: the new tail block absorbs a free successor. */
    method AbsorbNext(p: int, ghost k: nat)
      requires Shape() && k < |layout| && layout[k].addr == p && !layout[k].used
      requires FreeListIs(FreeAddrs(layout) - {p})
      modifies `hdr, `layout, `available, `nextFree, `prevFree, `frees
      ensures Shape() && layout == JoinRight(old(layout), k) && layout[k].addr == p && !layout[k].used
      ensures FreeListIs(FreeAddrs(layout) - {p}) && frees == Joined(old(frees), old(layout), k)
      ensures available - FreeBytes(layout) == old(available - FreeBytes(layout)) - (layout[k].cap - old(layout)[k].cap)
    {
      hide Ring, Links, Tiles, FreeAddrs, FreeBytes;
      Neighbours(hdr, layout, k, Tail(), Geo(Tail()));
      var next := hdr[p].next;
      if !hdr[next].used {
        FuseFreeEffect(layout, k, HS, Tail());
        FreeMember(layout, next);
        assert next in Elements(frees);
        DiffCommute(FreeAddrs(layout), {p}, {next});
        Neighbours(hdr, layout, k + 1, Tail(), Geo(Tail()));
        EndsWhereNextStarts(layout, k, HS, Tail());
        EndsWhereNextStarts(layout, k + 1, HS, Tail());
        available := available - (hdr[next].next - next - HS);
        Absorb(p, next, k);
      }
    }

    /** What the tail of a block that shrinks needs for an item of its own, unless it joins a free successor. */
    function TailHeader(l: Layout, k: nat): int
    {
      if k + 1 < |l| && !l[k + 1].used then 0 else HS
    }

    /** rt_memheap_realloc, lines 433-485: cut the block down in place. */
    method ShrinkInPlace(header: int, newsize: int, ghost k: nat)
      requires Valid() && k < |layout| && layout[k].addr == header && layout[k].used
      requires 0 <= newsize && newsize % 4 == 0 && newsize + HS <= layout[k].cap
      modifies this
      ensures Valid() && maxUsed == old(maxUsed)
      ensures layout == Shrink(old(layout), k, newsize, HS) && layout[k] == Block(header, newsize, true)
      ensures Live(layout) == Live(old(layout)) - {old(layout)[k]} + {layout[k]}
      ensures available == old(available) + old(layout)[k].cap - newsize - TailHeader(old(layout), k)
      ensures frees == [header + HS + newsize] + Joined(old(frees), old(layout), k)
    {
      ShrinkEffect(layout, k, newsize, HS, Tail());
      assert Sound(layout[k]);
      DropTail(header, newsize, k);
    }

    method DropTail(header: int, newsize: int, ghost k: nat)
      requires Shape() && FreeListIs(FreeAddrs(layout)) && k < |layout| && layout[k].addr == header && layout[k].used
      requires 0 <= newsize && newsize % 4 == 0 && newsize + HS <= layout[k].cap
      modifies `hdr, `layout, `available, `nextFree, `prevFree, `frees
      ensures Shape() && FreeListIs(FreeAddrs(layout))
      ensures layout == Shrink(old(layout), k, newsize, HS)
      ensures frees == [header + HS + newsize] + Joined(old(frees), old(layout), k)
      ensures available - FreeBytes(layout) == old(available - FreeBytes(layout))
    {
      hide FreeListIs, BlockRing, Tiled, FreeBytes, JoinRight, Shrink, Less;
      CutFree(layout, k, newsize, HS, Tail());
      TailIsReleased(layout, k, newsize);
      NewTail(layout, k, newsize, Tail());
      SplitBlock(header, newsize, k);
      FileTail(header + HS + newsize, k + 1);
    }

    /** rt_memheap_realloc, lines 455-485: the new tail block joins the free blocks. */
    method FileTail(rest: int, ghost k: nat)
      requires Shape() && k < |layout| && layout[k].addr == rest > 0 && !layout[k].used
      requires FreeListIs(FreeAddrs(layout) - {rest})
      modifies `hdr, `layout, `available, `nextFree, `prevFree, `frees
      ensures Shape() && FreeListIs(FreeAddrs(layout)) && layout == JoinRight(old(layout), k)
      ensures frees == [rest] + Joined(old(frees), old(layout), k)
      ensures available - FreeBytes(layout) == old(available - FreeBytes(layout) + layout[k].cap)
    {
      hide FreeListIs, Tiled, FreeBytes, JoinRight, Joined;
      AbsorbNext(rest, k);
      FreeMember(layout, rest);
      InsertPending(rest, true);
      available := available + (hdr[rest].next - rest - HS);
    }

    /** rt_memheap_realloc, lines 412-413: copy the payload of `b` over to `got` and give `b` back. */
    method Relocate(p: int, q: int, n: int, ghost b: Block, ghost got: Block)
      requires Valid() && b in Live(layout) && got in Live(layout) && b != got
      requires p == b.addr + HS && q == got.addr + HS && 0 <= n <= b.cap && n <= got.cap
      modifies this, data
      ensures Valid() && maxUsed == old(maxUsed) && Live(layout) == Live(old(layout)) - {b}
      ensures Span(layout, HS, true) == Span(old(layout), HS, true) - HS - b.cap
      ensures Inside(got) && Inside(b) && Copied(data[..], old(data[..]), q, p, n)
    {
      LivePair(layout, b, got, Tail(), HS);
      MemCpy(data, q, p, n);
      ghost var copied := data[..];
      ghost var k :| 0 <= k < |layout| && layout[k] == b;
      SameBlock(layout, layout[BlockAt(layout, p, HS)], b, Tail(), HS);
      Free(At(p));
      assert data[..] == copied;
    }

    /** Relocation seen from the row `was` in which `got` had not been handed out yet. */
    method Transfer(p: int, q: int, n: int, ghost newsize: int, ghost was: Layout, ghost b: Block, ghost got: Block)
      requires Valid() && b in Live(was) && got.used && got !in Live(was) && Live(layout) == Live(was) + {got}
      requires p == b.addr + HS && q == got.addr + HS && 0 <= b.cap && 0 < newsize <= got.cap
      requires n == if b.cap < newsize then b.cap else newsize
      modifies this, data
      ensures Valid() && maxUsed == old(maxUsed) && Span(layout, HS, true) == Span(old(layout), HS, true) - HS - b.cap
      ensures Resized(was, layout, old(data[..]), data[..], b, got, newsize, HS)
    {
      hide Live, NoAdjacentFree, FreeListIs, FreeBytes, FreeAddrs, BlockRing, Resized, Tiled, Span;
      ghost var bytes := data[..];
      TradeOne(Live(was), got, b);
      Relocate(p, q, n, b, got);
      ResizedByMove(was, layout, bytes, data[..], b, got, newsize, Tail(), HS);
    }

    predicate Inside(b: Block)
    {
      0 <= b.addr && 0 <= b.cap && b.addr + HS + b.cap <= Tail() <= data.Length
    }

    /** rt_memheap_alloc serves this size. */
    ghost predicate Servable(l: Layout, avail: int, size: int)
    {
      size < avail && SomeBlockHolds(l, size)
    }

    /** A reallocation moves the block to `got`, of the first item of the free list that holds it.  At the peak both
        blocks are held. */
    ghost predicate Moved(was: Layout, wasFrees: seq<int>, wasMax: int, got: Block, newsize: int)
      reads this
    {
      exists j :: 0 <= j < |was| && FirstHolding(was, wasFrees, j, newsize) && got == Portion(was[j], newsize, HS, MIN)
                  && maxUsed == Max(wasMax, poolSize - FreeBytes(Carve(was, j, newsize, HS, MIN)))
    }

    /** rt_memheap_realloc, lines 409-416: move the payload into a block of its own. */
    method Move(p: int, oldsize: int, newsize: Word, ghost b: Block) returns (q: Ptr, ghost got: Block)
      requires Valid() && b in Live(layout) && p == b.addr + HS && oldsize == b.cap >= 0
      requires 0 < newsize && Effective(newsize) == newsize
      modifies this, data
      ensures Valid()
      ensures q.At? <==> Servable(old(layout), old(available), newsize)
      ensures q.At? ==> Moved(old(layout), old(frees), old(maxUsed), got, newsize)
      ensures q.At? ==> Span(layout, HS, true) == old(Span(layout, HS, true)) - b.cap + got.cap
      ensures q.Null? ==> unchanged(this) && unchanged(data)
      ensures q.At? ==> q.off == got.addr + HS
                        && Resized(old(layout), layout, old(data[..]), data[..], b, got, newsize, HS)
    {
      hide Resized, FreeListIs, BlockRing, Tiled, NoAdjacentFree, Live, FreeAddrs, SomeBlockHolds, FirstHolding, Span;
      ghost var l := layout;
      ghost var j, k;
      q, j, k := Alloc(newsize);
      got := Block(0, 0, false);
      if q.At? {
        assert FirstHolding(l, old(frees), k, newsize);
        got := layout[k];
        Transfer(p, q.off, if oldsize < newsize then oldsize else newsize, newsize, l, b, got);
      }
    }

    /** A held block keeps its place when it shrinks or when the free block behind it has enough room. */
    ghost predicate KeepsPlace(l: Layout, k: nat, newsize: int)
      requires k < |l|
    {
      newsize <= l[k].cap || (k + 1 < |l| && !l[k + 1].used && l[k].cap + l[k + 1].cap > newsize + MIN)
    }

    /** How much of a block that stays is left: it is cut down only when the tail is worth an item, and grows to
        exactly the new size. */
    function Kept(b: Block, newsize: int): Block
    {
      if newsize <= b.cap <= newsize + HS + MIN then b else Block(b.addr, newsize, true)
    }

    /** Which block a reallocation of block `k` ends with, how much is available after it and what the peak was. */
    ghost predicate Settled(was: Layout, k: nat, wasFrees: seq<int>, wasAvailable: int, wasMax: int, got: Block,
                            newsize: int)
      requires k < |was|
      reads this
    {
      if KeepsPlace(was, k, newsize) then
        && got == Kept(was[k], newsize)
        && available == wasAvailable + was[k].cap - got.cap - (if got.cap < was[k].cap then TailHeader(was, k) else 0)
        && maxUsed == Max(wasMax, poolSize - available)
        && frees == (if got.cap == was[k].cap then wasFrees else [got.addr + HS + got.cap] + Joined(wasFrees, was, k))
      else
        && Moved(was, wasFrees, wasMax, got, newsize)
        && Span(layout, HS, true) == Span(was, HS, true) - was[k].cap + got.cap
    }

    lemma SettledHere(was: Layout, k: nat, wasFrees: seq<int>, wasAvailable: int, wasMax: int, got: Block, newsize: int)
      requires k < |was| && KeepsPlace(was, k, newsize) && got == Kept(was[k], newsize)
      requires available == wasAvailable + was[k].cap - got.cap - (if got.cap < was[k].cap then TailHeader(was, k) else 0)
      requires maxUsed == Max(wasMax, poolSize - available)
      requires frees == if got.cap == was[k].cap then wasFrees else [got.addr + HS + got.cap] + Joined(wasFrees, was, k)
      ensures Settled(was, k, wasFrees, wasAvailable, wasMax, got, newsize)
    {
    }

    lemma SettledElsewhere(was: Layout, k: nat, wasFrees: seq<int>, wasAvailable: int, wasMax: int, got: Block, newsize: int)
      requires k < |was| && !KeepsPlace(was, k, newsize) && Moved(was, wasFrees, wasMax, got, newsize)
      requires Span(layout, HS, true) == Span(was, HS, true) - was[k].cap + got.cap
      ensures Settled(was, k, wasFrees, wasAvailable, wasMax, got, newsize)
    {
    }

    /** rt_memheap_realloc, lines 311-491: the block is live and the size is aligned and floored. */
    method ReallocLive(p: int, newsize: Word, ghost k: nat) returns (q: Ptr, ghost got: Block)
      requires Valid() && k < |layout| && layout[k].used && p == layout[k].addr + HS
      requires Effective(newsize) == newsize && newsize % 4 == 0 && GuardTells(layout, k, newsize)
      modifies this, data
      ensures Valid()
      ensures KeepsPlace(old(layout), k, newsize) ==> q == At(p)
      ensures q.At? ==> Settled(old(layout), k, old(frees), old(available), old(maxUsed), got, newsize)
      ensures q.At? <==> KeepsPlace(old(layout), k, newsize) || Servable(old(layout), old(available), newsize)
      ensures q.Null? ==> unchanged(this) && unchanged(data)
      ensures q.At? ==> q.off == got.addr + HS
                        && Resized(old(layout), layout, old(data[..]), data[..], old(layout)[k], got, newsize, HS)
    {
      hide Resized, Settled, Moved, Span, Links, SomeBlockHolds, FreeListIs, NoAdjacentFree, Live, FreeBytes, FreeAddrs;
      ghost var l, b, bytes := layout, layout[k], data[..];
      LiveMember(l, b);
      AllOrdered(l, HS, Tail());
      Neighbours(hdr, layout, k, Tail(), Geo(Tail()));
      EndsWhereNextStarts(layout, k, HS, Tail());
      var header := p - HS;
      var oldsize := hdr[header].next - header - HS;
      assert oldsize == b.cap && Sound(b);
      if newsize > oldsize {
        q, got := Enlarge(p, oldsize, newsize, k);
      } else if newsize + HS + MIN >= oldsize {
        assert Live(l) - {b} + {b} == Live(l);
        ResizedInPlace(l, l, bytes, b, b, newsize, HS);
        q, got := At(p), b;
      } else {
        ShrinkInPlace(header, newsize, k);
        ResizedInPlace(l, layout, bytes, b, layout[k], newsize, HS);
        assert data[..] == bytes;
        q, got := At(p), layout[k];
      }
      if newsize <= oldsize {
        SettledHere(l, k, old(frees), old(available), old(maxUsed), got, newsize);
      }
    }

    /** rt_memheap_realloc, lines 315-417: into the free block behind when that has room, elsewhere otherwise. */
    method Enlarge(p: int, oldsize: int, newsize: Word, ghost k: nat) returns (q: Ptr, ghost got: Block)
      requires Valid() && k < |layout| && layout[k].used && p == layout[k].addr + HS && oldsize == layout[k].cap < newsize
      requires 0 <= oldsize && Effective(newsize) == newsize && newsize % 4 == 0 && GuardTells(layout, k, newsize)
      modifies this, data
      ensures Valid()
      ensures KeepsPlace(old(layout), k, newsize) ==> q == At(p)
      ensures q.At? ==> Settled(old(layout), k, old(frees), old(available), old(maxUsed), got, newsize)
      ensures q.At? <==> KeepsPlace(old(layout), k, newsize) || Servable(old(layout), old(available), newsize)
      ensures q.Null? ==> unchanged(this) && unchanged(data)
      ensures q.At? ==> q.off == got.addr + HS
                        && Resized(old(layout), layout, old(data[..]), data[..], old(layout)[k], got, newsize, HS)
    {
      Neighbours(hdr, layout, k, Tail(), Geo(Tail()));
      ghost var l := layout;
      hide Resized, Settled, Moved, Span, Links, Tiles, SomeBlockHolds, FreeListIs, NoAdjacentFree, Live, FreeBytes;
      hide FreeAddrs, GrowGuard;
      if k + 1 < |layout| && !layout[k + 1].used { Room(layout, k, newsize, Tail()); }
      var next := hdr[p - HS].next;
      var grows := !hdr[next].used && GrowGuard(hdr[next].next - next - HS, oldsize, newsize);
      assert grows == KeepsPlace(layout, k, newsize);
      q, got := GrowOrMove(p, oldsize, newsize, next, grows, k);
    }

    /** rt_memheap_realloc, lines 352-417: the test for growing has been made. */
    method GrowOrMove(p: int, oldsize: int, newsize: Word, next: int, grows: bool, ghost k: nat)
      returns (q: Ptr, ghost got: Block)
      requires Valid() && k < |layout| && layout[k].used && p == layout[k].addr + HS && oldsize == layout[k].cap < newsize
      requires 0 <= oldsize && Effective(newsize) == newsize && newsize % 4 == 0
      requires grows == KeepsPlace(layout, k, newsize)
      requires grows ==> layout[k + 1].addr == next && 0 <= layout[k].addr && p + newsize <= Tail()
      modifies this, data
      ensures Valid()
      ensures KeepsPlace(old(layout), k, newsize) ==> q == At(p)
      ensures q.At? ==> Settled(old(layout), k, old(frees), old(available), old(maxUsed), got, newsize)
      ensures q.At? <==> KeepsPlace(old(layout), k, newsize) || Servable(old(layout), old(available), newsize)
      ensures q.Null? ==> unchanged(this) && unchanged(data)
      ensures q.At? ==> q.off == got.addr + HS
                        && Resized(old(layout), layout, old(data[..]), data[..], old(layout)[k], got, newsize, HS)
    {
      hide Resized, Settled, Moved, Span, BlockRing, Tiled, SomeBlockHolds, FreeListIs, NoAdjacentFree, Live, FreeBytes;
      hide FreeAddrs, Less;
      ghost var l := layout;
      if grows {
        GrowKeeping(p, next, newsize, k);
        q, got := At(p), layout[k];
        SettledHere(l, k, old(frees), old(available), old(maxUsed), got, newsize);
      } else {
        LiveMember(layout, layout[k]);
        q, got := Move(p, oldsize, newsize, layout[k]);
        if q.At? { SettledElsewhere(l, k, old(frees), old(available), old(maxUsed), got, newsize); }
      }
    }

    /** Growing in place leaves the payload where it is. */
    method GrowKeeping(p: int, next: int, newsize: int, ghost k: nat)
      requires Valid() && k + 1 < |layout| && layout[k].addr + HS == p && layout[k + 1].addr == next
      requires layout[k].used && !layout[k + 1].used
      requires 0 <= layout[k].cap < newsize && newsize + MIN < layout[k].cap + layout[k + 1].cap && newsize % 4 == 0
      requires 0 <= layout[k].addr && p + newsize <= Tail()
      modifies this
      ensures Valid() && k < |layout| && p == layout[k].addr + HS && maxUsed == Max(old(maxUsed), poolSize - available)
      ensures layout[k] == Block(p - HS, newsize, true) && available == old(available) + old(layout)[k].cap - newsize
      ensures frees == [p + newsize] + Joined(old(frees), old(layout), k)
      ensures Resized(old(layout), layout, old(data[..]), data[..], old(layout)[k], layout[k], newsize, HS)
    {
      ghost var l, bytes := layout, data[..];
      GrowInPlace(p - HS, next, newsize, k);
      ResizedInPlace(l, layout, bytes, l[k], layout[k], newsize, HS);
      assert data[..] == bytes;
    }

    /** rt_memheap_realloc, for a block and a size for which the test of line 350 tells the truth. */
    method Realloc(p: Ptr, request: Word) returns (q: Ptr, ghost got: Block)
      requires Valid()
      requires p.At? ==> IsLive(p.off)
      requires p.At? ==> GuardTells(layout, BlockAt(layout, p.off, HS), Effective(request))
      modifies this, data
      ensures Valid()
      ensures q.Null? && request != 0 ==> unchanged(this) && unchanged(data)
      ensures request != 0 ==>
                (q.At? <==> || (p.At? && KeepsPlace(old(layout), old(BlockAt(layout, p.off, HS)), Effective(request)))
                            || Servable(old(layout), old(available), Effective(request)))
      ensures request == 0 ==>
                && q.Null? && unchanged(data)
                && Live(layout) == Live(old(layout)) - (if p.At? then {old(layout[BlockAt(layout, p.off, HS)])} else {})
      ensures p.Null? || request == 0 ==> maxUsed == Max(old(maxUsed), poolSize - available)
      ensures p.Null? && q.At? ==> unchanged(data)
      ensures p.Null? && q.At? ==>
                exists k :: 0 <= k < |layout| && got == layout[k]
                            && Served(old(layout), old(frees), Effective(request), q.off, k)
      ensures p.At? && q.At? ==>
                && q.off == got.addr + HS
                && (KeepsPlace(old(layout), old(BlockAt(layout, p.off, HS)), Effective(request)) ==> q == p)
                && Settled(old(layout), old(BlockAt(layout, p.off, HS)), old(frees), old(available), old(maxUsed), got,
                           Effective(request))
                && Resized(old(layout), layout, old(data[..]), data[..],
                           old(layout[BlockAt(layout, p.off, HS)]), got, Effective(request), HS)
    {
      hide Resized, Settled, BlockRing, Tiles, FreeListIs, NoAdjacentFree, Live, FreeBytes, FreeAddrs, Span, SomeBlockHolds;
      got := Block(0, 0, false);
      if request == 0 {
        Free(p);
        return Null, got;
      }
      EffectiveTwice(request);
      var newsize: Word := Effective(request);
      if p.Null? {
        ghost var j, k;
        q, j, k := Alloc(newsize);
        got := if q.At? then layout[k] else got;
        return;
      }
      q, got := ReallocLive(p.off, newsize, BlockAt(layout, p.off, HS));
    }

    /** With nothing live the pool is one free block again, and all of it is available. */
    lemma EmptyHeapIsFresh()
      requires Valid() && Live(layout) == {}
      ensures layout == Fresh(HS, Tail()) && available == poolSize - 2 * HS
      ensures frees == [0] && nextFree[FREE_HEADER] == 0 && nextFree[0] == FREE_HEADER
    {
      NothingLiveMeansFresh(layout, HS, Tail());
      One(layout[0], HS);
      DistinctTail(FREE_HEADER, frees);
      SingletonList(frees, 0);
      RingNext(nextFree, prevFree, FREE_HEADER, frees, 0);
      RingNext(nextFree, prevFree, FREE_HEADER, frees, 1);
    }
  }
}
