/** The block layout that both kernel heaps maintain.

    A heap is a row of blocks that tile the managed memory: a header of `hs` bytes, then
    `cap` payload bytes, then the next header, up to `end`, where a permanent sentinel header
    sits.  mem.c and memheap.c thread this row through memory in different ways; what
    a request does to the row is the same in both, and is defined here once. */
module Layouts {

  datatype Block = Block(addr: int, cap: int, used: bool)

  type Layout = seq<Block>

  /** Where block `i` starts; past the last block that is the sentinel. */
  function AddrAt(l: Layout, i: nat, end: int): int
  {
    if i < |l| then l[i].addr else end
  }

  ghost predicate Sound(b: Block)
  {
    b.cap >= 0 && b.addr % 4 == 0 && b.cap % 4 == 0
  }

  /** The blocks of `l` fill `[from, to)` without gap or overlap. */
  ghost predicate Tiles(l: Layout, hs: nat, from: int, to: int)
  {
    && (forall i :: 0 <= i < |l| ==> Sound(l[i]))
    && (forall i, j :: 0 <= i && j == i + 1 && j < |l| ==> l[i].addr + hs + l[i].cap == l[j].addr)
    && (if l == [] then from == to
        else l[0].addr == from && l[|l| - 1].addr + hs + l[|l| - 1].cap == to)
  }

  ghost predicate Tiled(l: Layout, hs: nat, end: int)
  {
    l != [] && Tiles(l, hs, 0, end)
  }

  ghost predicate NoAdjacentFree(l: Layout)
  {
    forall i, j :: 0 <= i && j == i + 1 && j < |l| ==> l[i].used || l[j].used
  }

  ghost function LiveOne(b: Block): set<Block> { if b.used then {b} else {} }
  ghost function FreeOne(b: Block): set<int> { if b.used then {} else {b.addr} }

  /** The blocks handed out to clients. */
  ghost function Live(l: Layout): set<Block>
  {
    if l == [] then {} else Live(l[..|l| - 1]) + LiveOne(l[|l| - 1])
  }

  /** The addresses of the blocks nobody holds. */
  ghost function FreeAddrs(l: Layout): set<int>
  {
    if l == [] then {} else FreeAddrs(l[..|l| - 1]) + FreeOne(l[|l| - 1])
  }

  lemma {:induction false} LiveMember(l: Layout, b: Block)
    ensures b in Live(l) <==> b in l && b.used
  {
    if l != [] {
      LiveMember(l[..|l| - 1], b);
      assert l == l[..|l| - 1] + [l[|l| - 1]];
    }
  }

  lemma {:induction false} FreeMember(l: Layout, a: int)
    ensures a in FreeAddrs(l) <==> exists i :: 0 <= i < |l| && !l[i].used && l[i].addr == a
  {
    if l != [] {
      var n := |l| - 1;
      FreeMember(l[..n], a);
      if a in FreeAddrs(l[..n]) {
        var i :| 0 <= i < n && !l[..n][i].used && l[..n][i].addr == a;
        assert l[i].addr == a;
      } else if i :| 0 <= i < |l| && !l[i].used && l[i].addr == a {
        assert i < n ==> l[..n][i].addr == a;
      }
    }
  }

  // ----- what a request does to the row -----

  function Mark(l: Layout, k: nat, used: bool): Layout
    requires k < |l|
  {
    l[k := l[k].(used := used)]
  }

  /** Cut block `k` after `size` payload bytes into two blocks with the given states. */
  function Cut(l: Layout, k: nat, size: int, hs: nat, used: bool, restUsed: bool): Layout
    requires k < |l|
  {
    var b := l[k];
    l[..k] + [Block(b.addr, size, used), Block(b.addr + hs + size, b.cap - hs - size, restUsed)] + l[k + 1..]
  }

  /** Make one block of the range that blocks `lo..hi` cover. */
  function Fuse(l: Layout, lo: nat, hi: nat, used: bool): Layout
    requires lo < hi <= |l|
  {
    l[..lo] + [Block(l[lo].addr, l[hi - 1].addr + l[hi - 1].cap - l[lo].addr, used)] + l[hi..]
  }

  /** Hand out block `k`, giving back the rest when it can hold `min` bytes. */
  function Carve(l: Layout, k: nat, size: int, hs: nat, min: nat): Layout
    requires k < |l|
  {
    if l[k].cap >= size + hs + min
    then Cut(l, k, size, hs, true, false)
    else Mark(l, k, true)
  }

  /** What a request of `size` bytes gets of a free block: all of it, unless the rest can hold `min` bytes. */
  function Portion(b: Block, size: int, hs: nat, min: nat): Block
  {
    Block(b.addr, if b.cap >= size + hs + min then size else b.cap, true)
  }

  /** First and one-past-last block of the free run that giving back block `k` creates. */
  function RunStart(l: Layout, k: nat): (lo: nat)
    requires k < |l|
    ensures lo <= k
  {
    if k > 0 && !l[k - 1].used then k - 1 else k
  }

  function RunEnd(l: Layout, k: nat): (hi: nat)
    requires k < |l|
    ensures k < hi <= |l|
  {
    if k + 1 < |l| && !l[k + 1].used then k + 2 else k + 1
  }

  /** Give back block `k`: it and its free neighbours become one free block over their joint range. */
  function Release(l: Layout, k: nat): Layout
    requires k < |l|
  {
    Fuse(l, RunStart(l, k), RunEnd(l, k), false)
  }

  /** Let free block `k` absorb a free successor. */
  function JoinRight(l: Layout, k: nat): (m: Layout)
    requires k < |l|
    ensures k < |m|
  {
    if k + 1 < |l| && !l[k + 1].used then Fuse(l, k, k + 2, false) else l
  }

  /** Let a free predecessor absorb free block `k`. */
  function JoinLeft(l: Layout, k: nat): (m: Layout)
    requires k < |l|
    ensures RunStart(l, k) < |m|
  {
    if k > 0 && !l[k - 1].used then Fuse(l, k - 1, k + 1, false) else l
  }

  /** Cut a held block down to `size` and give back the tail. */
  function Shrink(l: Layout, k: nat, size: int, hs: nat): Layout
    requires k < |l|
  {
    Release(Cut(l, k, size, hs, true, true), k + 1)
  }

  /** Move the boundary between held block `k` and the free block after it. */
  function Grow(l: Layout, k: nat, size: int, hs: nat): Layout
    requires k + 1 < |l|
  {
    Cut(Fuse(l, k, k + 2, true), k, size, hs, true, false)
  }

  // ----- tiling -----

  lemma {:induction false} Ordered(l: Layout, hs: nat, from: int, to: int, i: nat, j: nat)
    requires Tiles(l, hs, from, to)
    requires i < j <= |l|
    ensures l[i].addr + hs + l[i].cap <= AddrAt(l, j, to)
  {
    if i + 1 < j {
      Ordered(l, hs, from, to, i, j - 1);
    }
  }

  lemma AllOrdered(l: Layout, hs: nat, end: int)
    requires Tiled(l, hs, end)
    ensures forall i, j :: 0 <= i < j < |l| ==> l[i].addr + hs + l[i].cap <= l[j].addr
    ensures forall i :: 0 <= i < |l| ==> 0 <= l[i].addr && l[i].addr + hs + l[i].cap <= end
  {
    forall i, j | 0 <= i < j < |l| ensures l[i].addr + hs + l[i].cap <= l[j].addr {
      Ordered(l, hs, 0, end, i, j);
    }
    forall i | 0 <= i < |l| ensures 0 <= l[i].addr && l[i].addr + hs + l[i].cap <= end {
      Ordered(l, hs, 0, end, i, |l|);
      if i > 0 { Ordered(l, hs, 0, end, 0, i); }
    }
  }

  lemma TilesConcat(a: Layout, b: Layout, hs: nat, from: int, mid: int, to: int)
    requires Tiles(a, hs, from, mid) && Tiles(b, hs, mid, to)
    ensures Tiles(a + b, hs, from, to)
  {
    var l := a + b;
    forall i, j | 0 <= i && j == i + 1 && j < |l| ensures l[i].addr + hs + l[i].cap == l[j].addr {
      if i >= |a| { assert l[i] == b[i - |a|] && l[j] == b[j - |a|]; }
    }
  }

  lemma TilesParts(l: Layout, hs: nat, from: int, to: int, k: nat)
    requires Tiles(l, hs, from, to) && k <= |l|
    ensures Tiles(l[..k], hs, from, AddrAt(l, k, to))
    ensures Tiles(l[k..], hs, AddrAt(l, k, to), to)
  {
  }

  /** Replacing the blocks `lo..hi` by others over the same range keeps the tiling. */
  lemma SpliceTiled(l: Layout, lo: nat, hi: nat, mid: Layout, hs: nat, end: int)
    requires Tiled(l, hs, end) && lo < hi <= |l|
    requires mid != [] && Tiles(mid, hs, l[lo].addr, AddrAt(l, hi, end))
    ensures Tiled(l[..lo] + mid + l[hi..], hs, end)
  {
    TilesParts(l, hs, 0, end, lo);
    TilesParts(l, hs, 0, end, hi);
    TilesConcat(l[..lo], mid, hs, 0, l[lo].addr, AddrAt(l, hi, end));
    TilesConcat(l[..lo] + mid, l[hi..], hs, 0, AddrAt(l, hi, end), end);
  }

  /** No payload overlaps another payload or any header. */
  lemma PayloadsDisjoint(l: Layout, hs: nat, end: int, b: Block, c: Block)
    requires Tiled(l, hs, end) && hs > 0
    requires b in l && c in l && b != c
    ensures b.addr != c.addr
    ensures b.addr + hs + b.cap <= c.addr || c.addr + hs + c.cap <= b.addr
  {
    AllOrdered(l, hs, end);
    var i :| 0 <= i < |l| && l[i] == b;
    var j :| 0 <= j < |l| && l[j] == c;
  }

  lemma MarkTiled(l: Layout, k: nat, used: bool, hs: nat, end: int)
    requires Tiled(l, hs, end) && k < |l|
    ensures Tiled(Mark(l, k, used), hs, end)
  {
    SpliceTiled(l, k, k + 1, [l[k].(used := used)], hs, end);
    assert Mark(l, k, used) == l[..k] + [l[k].(used := used)] + l[k + 1..];
  }

  lemma CutSound(b: Block, left: Block, right: Block, size: int, hs: nat)
    requires Sound(b) && hs % 4 == 0 && 0 <= size && size % 4 == 0 && size + hs <= b.cap
    requires left.addr == b.addr && left.cap == size
    requires right.addr == b.addr + hs + size && right.cap == b.cap - hs - size
    ensures Sound(left) && Sound(right)
  {
  }

  lemma CutTiled(l: Layout, k: nat, size: int, hs: nat, used: bool, restUsed: bool, end: int)
    requires Tiled(l, hs, end) && k < |l| && hs % 4 == 0
    requires 0 <= size && size % 4 == 0 && size + hs <= l[k].cap
    ensures Tiled(Cut(l, k, size, hs, used, restUsed), hs, end)
  {
    var b := l[k];
    var left, right := Block(b.addr, size, used), Block(b.addr + hs + size, b.cap - hs - size, restUsed);
    CutSound(b, left, right, size, hs);
    assert Tiles([left, right], hs, b.addr, AddrAt(l, k + 1, end));
    SpliceTiled(l, k, k + 1, [left, right], hs, end);
    assert Cut(l, k, size, hs, used, restUsed) == l[..k] + [left, right] + l[k + 1..];
  }

  lemma FuseTiled(l: Layout, lo: nat, hi: nat, used: bool, hs: nat, end: int)
    requires Tiled(l, hs, end) && lo < hi <= |l|
    ensures Tiled(Fuse(l, lo, hi, used), hs, end)
  {
    var b := Block(l[lo].addr, l[hi - 1].addr + l[hi - 1].cap - l[lo].addr, used);
    FusedTiles(l, lo, hi, b, hs, end);
    SpliceTiled(l, lo, hi, [b], hs, end);
    assert Fuse(l, lo, hi, used) == l[..lo] + [b] + l[hi..];
  }

  lemma FusedTiles(l: Layout, lo: nat, hi: nat, b: Block, hs: nat, end: int)
    requires Tiled(l, hs, end) && lo < hi <= |l|
    requires b.addr == l[lo].addr && b.cap == l[hi - 1].addr + l[hi - 1].cap - l[lo].addr
    ensures Tiles([b], hs, l[lo].addr, AddrAt(l, hi, end))
  {
    if lo < hi - 1 { Ordered(l, hs, 0, end, lo, hi - 1); }
    assert Sound(l[lo]) && Sound(l[hi - 1]);
    FusedSound(l[lo], l[hi - 1], b, hs);
    EndsWhereNextStarts(l, hi - 1, hs, end);
    assert [b][0] == b;
  }

  lemma FusedSound(first: Block, last: Block, b: Block, hs: nat)
    requires Sound(first) && Sound(last) && (first == last || first.addr + hs + first.cap <= last.addr)
    requires b.addr == first.addr && b.cap == last.addr + last.cap - first.addr
    ensures Sound(b)
  {
  }

  lemma EndsWhereNextStarts(l: Layout, i: nat, hs: nat, end: int)
    requires Tiled(l, hs, end) && i < |l|
    ensures l[i].addr + hs + l[i].cap == AddrAt(l, i + 1, end)
  {
    var j := i + 1;
    assert j < |l| ==> l[i].addr + hs + l[i].cap == l[j].addr;
  }

  /** Cutting a block and gluing the parts is the identity. */
  lemma FuseUndoesCut(l: Layout, k: nat, size: int, hs: nat, used: bool, restUsed: bool)
    requires k < |l|
    ensures Fuse(Cut(l, k, size, hs, used, restUsed), k, k + 2, l[k].used) == l
  {
  }

  lemma FuseOfMark(l: Layout, k: nat, lo: nat, hi: nat)
    requires lo <= k < hi <= |l|
    ensures Fuse(Mark(l, k, false), lo, hi, false) == Fuse(l, lo, hi, false)
  {
  }

  lemma FuseOne(l: Layout, k: nat)
    requires k < |l| && !l[k].used
    ensures Fuse(l, k, k + 1, false) == l
  {
  }

  lemma FuseTwice(l: Layout, k: nat)
    requires 0 < k < |l| - 1
    ensures Fuse(Fuse(l, k, k + 2, false), k - 1, k + 1, false) == Fuse(l, k - 1, k + 2, false)
    ensures Fuse(Fuse(l, k - 1, k + 1, false), k - 1, k + 1, false) == Fuse(l, k - 1, k + 2, false)
  {
  }

  /** Coalescing to the right and then to the left, as mem.c does, gives the released row. */
  lemma ReleaseRightThenLeft(l: Layout, k: nat)
    requires k < |l|
    ensures Release(l, k) == JoinLeft(JoinRight(Mark(l, k, false), k), k)
  {
    var freed, lo, hi := Mark(l, k, false), RunStart(l, k), RunEnd(l, k);
    FuseOfMark(l, k, lo, hi);
    if hi == k + 2 {
      if lo < k { FuseTwice(freed, k); }
    } else if lo == k {
      FuseOne(freed, k);
    }
  }

  /** Coalescing to the left and then to the right, as memheap.c does, gives the same row. */
  lemma ReleaseLeftThenRight(l: Layout, k: nat)
    requires k < |l|
    ensures Release(l, k) == JoinRight(JoinLeft(Mark(l, k, false), k), RunStart(l, k))
  {
    var freed, lo, hi := Mark(l, k, false), RunStart(l, k), RunEnd(l, k);
    FuseOfMark(l, k, lo, hi);
    if lo == k {
      if hi == k + 1 { FuseOne(freed, k); }
    } else {
      var m := Fuse(freed, k - 1, k + 1, false);
      assert k < |l| - 1 ==> m[k] == l[k + 1];
      if hi == k + 2 { FuseTwice(freed, k); }
    }
  }

  lemma CutThenUse(l: Layout, k: nat, size: int, hs: nat)
    requires k < |l|
    ensures Mark(Cut(l, k, size, hs, false, false), k, true) == Cut(l, k, size, hs, true, false)
  {
  }

  lemma CutThenFree(l: Layout, k: nat, size: int, hs: nat)
    requires k < |l|
    ensures Mark(Cut(l, k, size, hs, true, true), k + 1, false) == Cut(l, k, size, hs, true, false)
  {
  }

  lemma ReleaseTiled(l: Layout, k: nat, hs: nat, end: int)
    requires Tiled(l, hs, end) && k < |l|
    ensures Tiled(Release(l, k), hs, end)
  {
    FuseTiled(l, RunStart(l, k), RunEnd(l, k), false, hs, end);
  }

  // ----- coalescing -----

  /** Releasing a held block of a coalesced row leaves a coalesced row. */
  lemma ReleaseCoalesced(l: Layout, k: nat)
    requires k < |l| && l[k].used && NoAdjacentFree(l)
    ensures NoAdjacentFree(Release(l, k))
  {
    var m, lo, hi := Release(l, k), RunStart(l, k), RunEnd(l, k);
    forall i, j | 0 <= i && j == i + 1 && j < |m| ensures m[i].used || m[j].used {
      if i >= lo { assert m[j] == l[j - lo - 1 + hi]; }
    }
  }

  lemma CarveCoalesced(l: Layout, k: nat, size: int, hs: nat, min: nat)
    requires k < |l| && !l[k].used && NoAdjacentFree(l)
    ensures NoAdjacentFree(Carve(l, k, size, hs, min))
  {
    var m := Carve(l, k, size, hs, min);
    forall i, j | 0 <= i && j == i + 1 && j < |m| ensures m[i].used || m[j].used {
      if |m| > |l| && i > k { assert m[j] == l[i]; }
    }
  }

  lemma ShrinkCoalesced(l: Layout, k: nat, size: int, hs: nat)
    requires k < |l| && l[k].used && NoAdjacentFree(l)
    ensures NoAdjacentFree(Shrink(l, k, size, hs))
  {
    var m := Cut(l, k, size, hs, true, true);
    forall i, j | 0 <= i && j == i + 1 && j < |m| ensures m[i].used || m[j].used {
      if i > k { assert m[j] == l[i]; }
    }
    ReleaseCoalesced(m, k + 1);
  }

  lemma GrowCoalesced(l: Layout, k: nat, size: int, hs: nat)
    requires k + 1 < |l| && l[k].used && !l[k + 1].used && NoAdjacentFree(l)
    ensures NoAdjacentFree(Grow(l, k, size, hs))
  {
    var m := Grow(l, k, size, hs);
    forall i, j | 0 <= i && j == i + 1 && j < |m| ensures m[i].used || m[j].used {
      if i > k { assert m[j] == l[j]; }
    }
  }

  /** A coalesced row in which nothing is held is one free block over the whole memory. */
  lemma NothingLiveMeansFresh(l: Layout, hs: nat, end: int)
    requires Tiled(l, hs, end) && NoAdjacentFree(l)
    requires Live(l) == {}
    ensures l == [Block(0, end - hs, false)]
  {
    var second := if |l| > 1 then l[1] else l[0];
    LiveMember(l, l[0]);
    LiveMember(l, second);
  }

  ghost predicate SameHeld(l: Layout, m: Layout)
  {
    forall b: Block :: b.used ==> (b in l <==> b in m)
  }

  lemma SameBothWays(l: Layout, m: Layout)
    requires SameHeld(l, m)
    ensures SameHeld(m, l)
  {
  }

  /** A held first block of one row is the first block of the other. */
  lemma SameFirst(l: Layout, m: Layout, hs: nat, from: int, to: int)
    requires Tiles(l, hs, from, to) && Tiles(m, hs, from, to) && hs > 0 && SameHeld(l, m)
    requires l != [] && l[0].used
    ensures m != [] && m[0] == l[0]
  {
    assert l[0] in m;
    var i :| 0 <= i < |m| && m[i] == l[0];
    assert Sound(m[0]);
    if i > 0 { Ordered(m, hs, from, to, 0, i); }
  }

  /** So is a free one, because both end where the next held block starts. */
  lemma SameGap(l: Layout, m: Layout, hs: nat, from: int, to: int)
    requires Tiles(l, hs, from, to) && Tiles(m, hs, from, to) && hs > 0 && SameHeld(l, m)
    requires NoAdjacentFree(l) && NoAdjacentFree(m) && l != [] && m != [] && !l[0].used && !m[0].used
    ensures l[0] == m[0]
  {
    if |l| > 1 { GapNoLonger(l, m, hs, from, to); }
    if |m| > 1 { GapNoLonger(m, l, hs, from, to); }
  }

  lemma GapNoLonger(l: Layout, m: Layout, hs: nat, from: int, to: int)
    requires Tiles(l, hs, from, to) && Tiles(m, hs, from, to) && hs > 0 && SameHeld(l, m)
    requires NoAdjacentFree(l) && |l| > 1 && m != [] && !l[0].used && !m[0].used
    ensures |m| > 1 && m[1].addr <= l[1].addr
  {
    assert l[1].used && l[1] in m;
    var i :| 0 <= i < |m| && m[i] == l[1];
    if i > 1 {
      assert Sound(m[1]);
      Ordered(m, hs, from, to, 1, i);
    }
  }

  lemma SameHeldBehind(l: Layout, m: Layout, hs: nat, from: int, to: int)
    requires Tiles(l, hs, from, to) && Tiles(m, hs, from, to) && hs > 0 && SameHeld(l, m)
    requires l != [] && m != [] && l[0] == m[0]
    ensures SameHeld(l[1..], m[1..])
  {
    FirstOnce(l, hs, from, to);
    FirstOnce(m, hs, from, to);
    assert l == [l[0]] + l[1..] && m == [m[0]] + m[1..];
  }

  lemma FirstOnce(l: Layout, hs: nat, from: int, to: int)
    requires Tiles(l, hs, from, to) && hs > 0 && l != []
    ensures l[0] !in l[1..]
  {
    assert Sound(l[0]);
    if l[0] in l[1..] {
      var i :| 0 <= i < |l| - 1 && l[1..][i] == l[0];
      Ordered(l, hs, from, to, 0, i + 1);
    }
  }

  lemma {:induction false} SameRow(l: Layout, m: Layout, hs: nat, from: int, to: int)
    requires Tiles(l, hs, from, to) && Tiles(m, hs, from, to) && hs > 0 && SameHeld(l, m)
    requires NoAdjacentFree(l) && NoAdjacentFree(m)
    ensures l == m
    decreases |l|
  {
    hide Tiles, NoAdjacentFree, SameHeld;
    SameBothWays(l, m);
    Extent(l, hs, from, to);
    Extent(m, hs, from, to);
    if l != [] && m != [] {
      if l[0].used { SameFirst(l, m, hs, from, to); }
      else if m[0].used { SameFirst(m, l, hs, from, to); }
      else { SameGap(l, m, hs, from, to); }
      SameHeldBehind(l, m, hs, from, to);
      Behind(l, hs, from, to);
      Behind(m, hs, from, to);
      SameRow(l[1..], m[1..], hs, l[0].addr + hs + l[0].cap, to);
      assert l == [l[0]] + l[1..] && m == [m[0]] + m[1..];
    }
  }

  lemma Extent(l: Layout, hs: nat, from: int, to: int)
    requires Tiles(l, hs, from, to) && hs > 0
    ensures l == [] <==> from == to
  {
    if l != [] {
      assert Sound(l[0]);
      Ordered(l, hs, from, to, 0, |l|);
    }
  }

  lemma Behind(l: Layout, hs: nat, from: int, to: int)
    requires Tiles(l, hs, from, to) && NoAdjacentFree(l) && l != []
    ensures Tiles(l[1..], hs, l[0].addr + hs + l[0].cap, to) && NoAdjacentFree(l[1..])
  {
    TilesParts(l, hs, from, to, 1);
  }

  /** A row is determined by its live blocks: who knows what is held knows every free block, where it starts and how
      large it is. */
  lemma LiveBlocksMakeTheRow(l: Layout, m: Layout, hs: nat, end: int)
    requires Tiled(l, hs, end) && NoAdjacentFree(l) && Tiled(m, hs, end) && NoAdjacentFree(m) && hs > 0
    requires Live(l) == Live(m)
    ensures l == m
  {
    forall b: Block | b.used ensures b in l <==> b in m {
      LiveMember(l, b);
      LiveMember(m, b);
    }
    SameRow(l, m, hs, 0, end);
  }

  // ----- accounting -----

  /** Bytes, headers included, taken by the blocks in the given state. */
  function Span(l: Layout, hs: nat, used: bool): int
  {
    if l == [] then 0
    else Span(l[..|l| - 1], hs, used) + (if l[|l| - 1].used == used then hs + l[|l| - 1].cap else 0)
  }

  /** Payload bytes of the free blocks. */
  function FreeBytes(l: Layout): int
  {
    if l == [] then 0
    else FreeBytes(l[..|l| - 1]) + (if l[|l| - 1].used then 0 else l[|l| - 1].cap)
  }

  lemma {:induction false} SumsSplit(a: Layout, b: Layout, hs: nat, used: bool)
    ensures Span(a + b, hs, used) == Span(a, hs, used) + Span(b, hs, used)
    ensures FreeBytes(a + b) == FreeBytes(a) + FreeBytes(b)
  {
    if b == [] {
      assert a + b == a;
    } else {
      SumsSplit(a, b[..|b| - 1], hs, used);
      assert (a + b)[..|a + b| - 1] == a + b[..|b| - 1];
    }
  }

  /** Sums over a row in which `mid` stands between `a` and `b`. */
  lemma SumsAround(a: Layout, mid: Layout, b: Layout, hs: nat, used: bool)
    ensures Span(a + mid + b, hs, used) == Span(a, hs, used) + Span(mid, hs, used) + Span(b, hs, used)
    ensures FreeBytes(a + mid + b) == FreeBytes(a) + FreeBytes(mid) + FreeBytes(b)
  {
    SumsSplit(a + mid, b, hs, used);
    SumsSplit(a, mid, hs, used);
  }

  /** Nothing is lost: held and free bytes make up the whole memory. */
  lemma {:induction false} SpansCoverMemory(l: Layout, hs: nat, from: int, to: int)
    requires Tiles(l, hs, from, to)
    ensures Span(l, hs, true) + Span(l, hs, false) == to - from
  {
    if l != [] {
      TilesParts(l, hs, from, to, |l| - 1);
      SpansCoverMemory(l[..|l| - 1], hs, from, l[|l| - 1].addr);
    }
  }

  lemma {:induction false} SpanNonNegative(l: Layout, hs: nat, from: int, to: int, used: bool)
    requires Tiles(l, hs, from, to)
    ensures 0 <= Span(l, hs, used)
  {
    if l != [] {
      TilesParts(l, hs, from, to, |l| - 1);
      SpanNonNegative(l[..|l| - 1], hs, from, l[|l| - 1].addr, used);
      assert Sound(l[|l| - 1]);
    }
  }

  // ----- what each request changes -----

  lemma Apart(l: Layout, lo: nat, hi: nat, b: Block, c: Block, hs: nat, end: int)
    requires Tiled(l, hs, end) && lo < hi <= |l| && hs > 0
    requires b in l[..lo] || b in l[hi..]
    requires c in l[lo..hi]
    ensures b.addr != c.addr
  {
    var j :| 0 <= j < hi - lo && l[lo..hi][j] == c;
    var i :| 0 <= i < |l| && (i < lo || hi <= i) && l[i] == b;
    if i < lo { Ordered(l, hs, 0, end, i, lo + j); } else { Ordered(l, hs, 0, end, lo + j, i); }
  }

  lemma {:induction false} SetsConcat(a: Layout, b: Layout)
    ensures Live(a + b) == Live(a) + Live(b)
    ensures FreeAddrs(a + b) == FreeAddrs(a) + FreeAddrs(b)
  {
    if b == [] {
      assert a + b == a;
    } else {
      SetsConcat(a, b[..|b| - 1]);
      assert (a + b)[..|a + b| - 1] == a + b[..|b| - 1];
    }
  }

  lemma CutApart(l: Layout, lo: nat, hi: nat, hs: nat, end: int)
    requires Tiled(l, hs, end) && lo < hi <= |l| && hs > 0
    ensures FreeAddrs(l[..lo] + l[hi..]) !! FreeAddrs(l[lo..hi])
    ensures Live(l[..lo] + l[hi..]) !! Live(l[lo..hi])
  {
    var rest, cut := l[..lo] + l[hi..], l[lo..hi];
    forall a | a in FreeAddrs(rest) ensures a !in FreeAddrs(cut) {
      FreeMember(rest, a);
      FreeMember(cut, a);
      var i :| 0 <= i < |rest| && !rest[i].used && rest[i].addr == a;
      forall j | 0 <= j < |cut| ensures cut[j].addr != a {
        Apart(l, lo, hi, rest[i], cut[j], hs, end);
      }
    }
    forall b | b in Live(rest) ensures b !in Live(cut) {
      LiveMember(rest, b);
      LiveMember(cut, b);
      if b in cut { Apart(l, lo, hi, b, b, hs, end); }
    }
  }

  lemma SpliceSets(l: Layout, lo: nat, hi: nat, mid: Layout)
    requires lo < hi <= |l|
    requires Live(l[..lo] + l[hi..]) !! Live(l[lo..hi])
    requires FreeAddrs(l[..lo] + l[hi..]) !! FreeAddrs(l[lo..hi])
    ensures Live(l[..lo] + mid + l[hi..]) == Live(l) - Live(l[lo..hi]) + Live(mid)
    ensures FreeAddrs(l[..lo] + mid + l[hi..]) == FreeAddrs(l) - FreeAddrs(l[lo..hi]) + FreeAddrs(mid)
  {
    var pre, cut, post := l[..lo], l[lo..hi], l[hi..];
    assert l == pre + cut + post;
    SetsConcat(pre, post);
    SetsConcat(pre + mid, post);
    SetsConcat(pre, mid);
    SetsConcat(pre + cut, post);
    SetsConcat(pre, cut);
    SwapCut(Live(pre), Live(cut), Live(post), Live(mid));
    SwapCut(FreeAddrs(pre), FreeAddrs(cut), FreeAddrs(post), FreeAddrs(mid));
  }

  lemma SwapCut<T>(pre: set<T>, cut: set<T>, post: set<T>, mid: set<T>)
    requires pre + post !! cut
    ensures pre + mid + post == (pre + cut + post) - cut + mid
  {
  }

  lemma SpliceSums(l: Layout, lo: nat, hi: nat, mid: Layout, hs: nat)
    requires lo < hi <= |l|
    ensures var m := l[..lo] + mid + l[hi..];
            && Span(m, hs, true) == Span(l, hs, true) - Span(l[lo..hi], hs, true) + Span(mid, hs, true)
            && FreeBytes(m) == FreeBytes(l) - FreeBytes(l[lo..hi]) + FreeBytes(mid)
  {
    SumsAround(l[..lo], mid, l[hi..], hs, true);
    SumsAround(l[..lo], l[lo..hi], l[hi..], hs, true);
    assert l == l[..lo] + l[lo..hi] + l[hi..];
  }

  /** What the allocators keep true of the row between requests. */
  ghost predicate Coherent(l: Layout, hs: nat, end: int)
  {
    Tiled(l, hs, end) && NoAdjacentFree(l)
  }

  function Weight(b: Block, hs: nat): int { if b.used then hs + b.cap else 0 }
  function FreeWeight(b: Block): int { if b.used then 0 else b.cap }

  lemma One(b: Block, hs: nat)
    ensures Live([b]) == LiveOne(b) && FreeAddrs([b]) == FreeOne(b)
    ensures Span([b], hs, true) == Weight(b, hs) && FreeBytes([b]) == FreeWeight(b)
  {
  }

  lemma Two(b: Block, c: Block, hs: nat)
    ensures Live([b, c]) == LiveOne(b) + LiveOne(c) && FreeAddrs([b, c]) == FreeOne(b) + FreeOne(c)
    ensures Span([b, c], hs, true) == Weight(b, hs) + Weight(c, hs)
    ensures FreeBytes([b, c]) == FreeWeight(b) + FreeWeight(c)
  {
    One(b, hs);
    One(c, hs);
    SetsConcat([b], [c]);
    SumsSplit([b], [c], hs, true);
    assert [b] + [c] == [b, c];
  }

  /** Every consequence of replacing blocks `lo..hi` by others over the same range. */
  lemma Replace(l: Layout, lo: nat, hi: nat, mid: Layout, m: Layout, hs: nat, end: int)
    requires Tiled(l, hs, end) && lo < hi <= |l| && hs > 0
    requires m == l[..lo] + mid + l[hi..] && Tiled(m, hs, end)
    ensures Live(m) == Live(l) - Live(l[lo..hi]) + Live(mid)
    ensures FreeAddrs(m) == FreeAddrs(l) - FreeAddrs(l[lo..hi]) + FreeAddrs(mid)
    ensures Span(m, hs, true) == Span(l, hs, true) - Span(l[lo..hi], hs, true) + Span(mid, hs, true)
    ensures FreeBytes(m) == FreeBytes(l) - FreeBytes(l[lo..hi]) + FreeBytes(mid)
  {
    CutApart(l, lo, hi, hs, end);
    SpliceSets(l, lo, hi, mid);
    SpliceSums(l, lo, hi, mid, hs);
  }

  lemma CutEffect(l: Layout, k: nat, size: int, hs: nat, used: bool, restUsed: bool, end: int)
    requires Tiled(l, hs, end) && k < |l| && hs > 0 && hs % 4 == 0
    requires 0 <= size && size % 4 == 0 && size + hs <= l[k].cap
    ensures var m := Cut(l, k, size, hs, used, restUsed);
            && Tiled(m, hs, end)
            && Live(m) == Live(l) - LiveOne(l[k]) + (LiveOne(m[k]) + LiveOne(m[k + 1]))
            && FreeAddrs(m) == FreeAddrs(l) - FreeOne(l[k]) + (FreeOne(m[k]) + FreeOne(m[k + 1]))
            && Span(m, hs, true) == Span(l, hs, true) - Weight(l[k], hs) + Weight(m[k], hs) + Weight(m[k + 1], hs)
            && FreeBytes(m) == FreeBytes(l) - FreeWeight(l[k]) + FreeWeight(m[k]) + FreeWeight(m[k + 1])
  {
    var m := Cut(l, k, size, hs, used, restUsed);
    CutTiled(l, k, size, hs, used, restUsed, end);
    assert l[k..k + 1] == [l[k]];
    Replace(l, k, k + 1, [m[k], m[k + 1]], m, hs, end);
    One(l[k], hs);
    Two(m[k], m[k + 1], hs);
  }

  lemma MarkEffect(l: Layout, k: nat, used: bool, hs: nat, end: int)
    requires Tiled(l, hs, end) && k < |l| && hs > 0
    ensures var m := Mark(l, k, used);
            && Tiled(m, hs, end)
            && Live(m) == Live(l) - LiveOne(l[k]) + LiveOne(m[k])
            && FreeAddrs(m) == FreeAddrs(l) - FreeOne(l[k]) + FreeOne(m[k])
            && Span(m, hs, true) == Span(l, hs, true) - Weight(l[k], hs) + Weight(m[k], hs)
            && FreeBytes(m) == FreeBytes(l) - FreeWeight(l[k]) + FreeWeight(m[k])
  {
    var m := Mark(l, k, used);
    MarkTiled(l, k, used, hs, end);
    assert l[k..k + 1] == [l[k]] && m == l[..k] + [m[k]] + l[k + 1..];
    Replace(l, k, k + 1, [m[k]], m, hs, end);
    One(l[k], hs);
    One(m[k], hs);
  }

  lemma FuseEffect(l: Layout, k: nat, used: bool, hs: nat, end: int)
    requires Tiled(l, hs, end) && k + 1 < |l| && hs > 0
    ensures var m := Fuse(l, k, k + 2, used);
            && Tiled(m, hs, end)
            && Live(m) == Live(l) - (LiveOne(l[k]) + LiveOne(l[k + 1])) + LiveOne(m[k])
            && FreeAddrs(m) == FreeAddrs(l) - (FreeOne(l[k]) + FreeOne(l[k + 1])) + FreeOne(m[k])
            && Span(m, hs, true) == Span(l, hs, true) - Weight(l[k], hs) - Weight(l[k + 1], hs) + Weight(m[k], hs)
            && FreeBytes(m) == FreeBytes(l) - FreeWeight(l[k]) - FreeWeight(l[k + 1]) + FreeWeight(m[k])
  {
    var m := Fuse(l, k, k + 2, used);
    FuseTiled(l, k, k + 2, used, hs, end);
    assert l[k..k + 2] == [l[k], l[k + 1]];
    Replace(l, k, k + 2, [m[k]], m, hs, end);
    Two(l[k], l[k + 1], hs);
    One(m[k], hs);
  }

  /** No block starts strictly inside another. */
  lemma NoBlockInside(l: Layout, k: nat, a: int, hs: nat, end: int)
    requires Tiled(l, hs, end) && k < |l| && l[k].addr < a < l[k].addr + hs + l[k].cap
    ensures a !in FreeAddrs(l)
  {
    FreeMember(l, a);
    AllOrdered(l, hs, end);
  }

  lemma TakePart(l: Layout, k: nat, size: int, hs: nat, end: int)
    requires Tiled(l, hs, end) && k < |l| && !l[k].used && hs > 0 && hs % 4 == 0
    requires 0 <= size && size % 4 == 0 && size + hs <= l[k].cap
    ensures var m := Cut(l, k, size, hs, true, false);
            && Tiled(m, hs, end)
            && Live(m) == Live(l) + {m[k]}
            && FreeAddrs(m) == FreeAddrs(l) - {l[k].addr} + {m[k + 1].addr}
            && Span(m, hs, true) == Span(l, hs, true) + hs + size
            && FreeBytes(m) == FreeBytes(l) - size - hs
  {
    CutEffect(l, k, size, hs, true, false, end);
  }

  lemma TakeWhole(l: Layout, k: nat, hs: nat, end: int)
    requires Tiled(l, hs, end) && k < |l| && !l[k].used && hs > 0
    ensures var m := Mark(l, k, true);
            && Tiled(m, hs, end)
            && Live(m) == Live(l) + {m[k]}
            && FreeAddrs(m) == FreeAddrs(l) - {l[k].addr}
            && Span(m, hs, true) == Span(l, hs, true) + hs + l[k].cap
            && FreeBytes(m) == FreeBytes(l) - l[k].cap
  {
    MarkEffect(l, k, true, hs, end);
  }

  /** Handing out a free block: one live block more, of at least the requested size. */
  lemma CarveEffect(l: Layout, k: nat, size: int, hs: nat, min: nat, end: int)
    requires Coherent(l, hs, end) && k < |l| && !l[k].used && hs > 0 && hs % 4 == 0
    requires 0 <= size <= l[k].cap && size % 4 == 0
    ensures var m, split := Carve(l, k, size, hs, min), l[k].cap >= size + hs + min;
            && Coherent(m, hs, end)
            && m[k] == Portion(l[k], size, hs, min)
            && Live(m) == Live(l) + {m[k]}
            && Span(m, hs, true) == Span(l, hs, true) + hs + m[k].cap
            && FreeBytes(m) == FreeBytes(l) - (if split then size + hs else l[k].cap)
  {
    CarveCoalesced(l, k, size, hs, min);
    if l[k].cap >= size + hs + min {
      TakePart(l, k, size, hs, end);
    } else {
      TakeWhole(l, k, hs, end);
    }
  }

  lemma MarkFreeEffect(l: Layout, k: nat, hs: nat, end: int)
    requires Tiled(l, hs, end) && k < |l| && l[k].used && hs > 0
    ensures var m := Mark(l, k, false);
            && Tiled(m, hs, end)
            && Live(m) == Live(l) - {l[k]}
            && FreeAddrs(m) == FreeAddrs(l) + {l[k].addr}
            && Span(m, hs, true) == Span(l, hs, true) - hs - l[k].cap
            && FreeBytes(m) == FreeBytes(l) + l[k].cap
  {
    MarkEffect(l, k, false, hs, end);
  }

  /** Merging two free neighbours recovers one header's worth of payload. */
  lemma FuseFreeEffect(l: Layout, k: nat, hs: nat, end: int)
    requires Tiled(l, hs, end) && k + 1 < |l| && !l[k].used && !l[k + 1].used && hs > 0
    ensures var m := Fuse(l, k, k + 2, false);
            && Tiled(m, hs, end)
            && Live(m) == Live(l)
            && FreeAddrs(m) == FreeAddrs(l) - {l[k + 1].addr}
            && Span(m, hs, true) == Span(l, hs, true)
            && FreeBytes(m) == FreeBytes(l) + hs
  {
    var m := Fuse(l, k, k + 2, false);
    FuseEffect(l, k, false, hs, end);
    FreeMember(l, l[k].addr);
    assert l[k].addr != l[k + 1].addr;
  }

  lemma JoinRightEffect(l: Layout, k: nat, hs: nat, end: int)
    requires Tiled(l, hs, end) && k < |l| && !l[k].used && hs > 0
    ensures var m := JoinRight(l, k);
            && Tiled(m, hs, end) && !m[k].used && (k > 0 ==> m[k - 1] == l[k - 1])
            && Live(m) == Live(l) && Span(m, hs, true) == Span(l, hs, true)
            && FreeBytes(m) == FreeBytes(l) + if k + 1 < |l| && !l[k + 1].used then hs else 0
  {
    if k + 1 < |l| && !l[k + 1].used { FuseFreeEffect(l, k, hs, end); }
  }

  lemma JoinLeftEffect(l: Layout, k: nat, hs: nat, end: int)
    requires Tiled(l, hs, end) && k < |l| && !l[k].used && hs > 0
    ensures var m := JoinLeft(l, k);
            && Tiled(m, hs, end)
            && Live(m) == Live(l) && Span(m, hs, true) == Span(l, hs, true)
            && FreeBytes(m) == FreeBytes(l) + if k > 0 && !l[k - 1].used then hs else 0
  {
    if k > 0 && !l[k - 1].used { FuseFreeEffect(l, k - 1, hs, end); }
  }

  /** Giving back a block: it alone stops being live, and its whole span is free again. */
  lemma ReleaseEffect(l: Layout, k: nat, hs: nat, end: int)
    requires Tiled(l, hs, end) && k < |l| && l[k].used && hs > 0
    ensures var m, lo, hi := Release(l, k), RunStart(l, k), RunEnd(l, k);
            && Tiled(m, hs, end)
            && Live(m) == Live(l) - {l[k]}
            && Span(m, hs, true) == Span(l, hs, true) - hs - l[k].cap
            && FreeBytes(m) == FreeBytes(l) + l[k].cap + (if lo < k then hs else 0) + (if k + 1 < hi then hs else 0)
  {
    ReleaseRightThenLeft(l, k);
    MarkFreeEffect(l, k, hs, end);
    JoinRightEffect(Mark(l, k, false), k, hs, end);
    JoinLeftEffect(JoinRight(Mark(l, k, false), k), k, hs, end);
  }

  /** Cutting a held block down keeps it live at its address with exactly the new size. */
  lemma ShrinkEffect(l: Layout, k: nat, size: int, hs: nat, end: int)
    requires Coherent(l, hs, end) && k < |l| && l[k].used && hs > 0 && hs % 4 == 0
    requires 0 <= size && size % 4 == 0 && size + hs <= l[k].cap
    ensures var m := Shrink(l, k, size, hs);
            && Coherent(m, hs, end)
            && m[k] == Block(l[k].addr, size, true)
            && Live(m) == Live(l) - {l[k]} + {m[k]}
            && Span(m, hs, true) == Span(l, hs, true) - (l[k].cap - size)
            && FreeBytes(m) == FreeBytes(l) + l[k].cap - size - (if k + 1 < |l| && !l[k + 1].used then 0 else hs)
  {
    hide Span, FreeBytes, Live, Tiles, NoAdjacentFree;
    var c := Cut(l, k, size, hs, true, true);
    ShrinkCoalesced(l, k, size, hs);
    CutEffect(l, k, size, hs, true, true, end);
    ReleaseEffect(c, k + 1, hs, end);
    assert c[k] in Live(c) && c[k + 1] !in Live(l) by {
      LiveMember(c, c[k]);
      LiveMember(l, c[k + 1]);
      if c[k + 1] in l { PayloadsDisjoint(l, hs, end, l[k], c[k + 1]); }
    }
  }

  /** Moving a held block's end into the free block behind it. */
  lemma GrowEffect(l: Layout, k: nat, size: int, hs: nat, end: int)
    requires Coherent(l, hs, end) && k + 1 < |l| && l[k].used && !l[k + 1].used && hs > 0 && hs % 4 == 0
    requires 0 <= size && size % 4 == 0 && size <= l[k].cap + l[k + 1].cap
    ensures var m := Grow(l, k, size, hs);
            && Coherent(m, hs, end)
            && m[k] == Block(l[k].addr, size, true)
            && Live(m) == Live(l) - {l[k]} + {m[k]}
            && Span(m, hs, true) == Span(l, hs, true) + size - l[k].cap
            && FreeBytes(m) == FreeBytes(l) - (size - l[k].cap)
  {
    hide Span, FreeBytes, Live, NoAdjacentFree;
    GrowCoalesced(l, k, size, hs);
    FuseEffect(l, k, true, hs, end);
    var f := Fuse(l, k, k + 2, true);
    CutEffect(f, k, size, hs, true, false, end);
    LiveMember(l, f[k]);
    if f[k] in l { PayloadsDisjoint(l, hs, end, l[k], f[k]); }
  }

  /** What moving a boundary does to the set of free blocks. */
  lemma GrowFree(l: Layout, k: nat, size: int, hs: nat, end: int)
    requires Tiled(l, hs, end) && k + 1 < |l| && l[k].used && !l[k + 1].used && hs > 0 && hs % 4 == 0
    requires 0 <= size && size % 4 == 0 && size <= l[k].cap + l[k + 1].cap
    ensures var m := Grow(l, k, size, hs);
            FreeAddrs(m) == FreeAddrs(l) - {l[k + 1].addr} + {m[k + 1].addr}
  {
    var f := Fuse(l, k, k + 2, true);
    FuseEffect(l, k, true, hs, end);
    assert FreeAddrs(f) == FreeAddrs(l) - {l[k + 1].addr};
    CutFree(f, k, size, hs, end);
  }

  lemma CutFree(l: Layout, k: nat, size: int, hs: nat, end: int)
    requires Tiled(l, hs, end) && k < |l| && l[k].used && hs > 0 && hs % 4 == 0
    requires 0 <= size && size % 4 == 0 && size + hs <= l[k].cap
    ensures var m := Cut(l, k, size, hs, true, false);
            && FreeAddrs(m) == FreeAddrs(l) + {m[k + 1].addr}
            && FreeBytes(m) == FreeBytes(l) + l[k].cap - hs - size
  {
    var m := Cut(l, k, size, hs, true, false);
    CutEffect(l, k, size, hs, true, false, end);
    assert FreeOne(m[k]) + FreeOne(m[k + 1]) == {m[k + 1].addr};
  }

  // ----- whole runs -----

  /** One completed critical section of an allocator, seen on the row. */
  datatype Request =
    | Take(k: nat, size: int)
    | GiveBack(k: nat)
    | CutBack(k: nat, size: int)
    | Extend(k: nat, size: int)

  predicate Enabled(l: Layout, r: Request, hs: nat)
  {
    r.k < |l| &&
    match r
    case Take(k, size) => !l[k].used && 0 <= size <= l[k].cap && size % 4 == 0
    case GiveBack(k) => l[k].used
    case CutBack(k, size) => l[k].used && 0 <= size && size % 4 == 0 && size + hs <= l[k].cap
    case Extend(k, size) =>
      l[k].used && k + 1 < |l| && !l[k + 1].used && 0 <= size <= l[k].cap + l[k + 1].cap && size % 4 == 0
  }

  function Apply(l: Layout, r: Request, hs: nat, min: nat): Layout
    requires Enabled(l, r, hs)
  {
    match r
    case Take(k, size) => Carve(l, k, size, hs, min)
    case GiveBack(k) => Release(l, k)
    case CutBack(k, size) => Shrink(l, k, size, hs)
    case Extend(k, size) => Grow(l, k, size, hs)
  }

  function Fresh(hs: nat, end: int): Layout
  {
    [Block(0, end - hs, false)]
  }

  ghost predicate Step(l: Layout, r: Request, m: Layout, hs: nat, min: nat)
  {
    Enabled(l, r, hs) && m == Apply(l, r, hs, min)
  }

  /** The rows `ls` a heap goes through while it serves the requests `rs` from a fresh start. */
  ghost predicate Trace(ls: seq<Layout>, rs: seq<Request>, hs: nat, min: nat, end: int)
  {
    && |ls| == |rs| + 1
    && ls[0] == Fresh(hs, end)
    && forall i, j :: 0 <= i && j == i + 1 && j < |ls| ==> Step(ls[i], rs[i], ls[j], hs, min)
  }

  lemma ApplyCoherent(l: Layout, r: Request, hs: nat, min: nat, end: int)
    requires Coherent(l, hs, end) && Enabled(l, r, hs) && hs > 0 && hs % 4 == 0
    ensures Coherent(Apply(l, r, hs, min), hs, end)
  {
    match r
    case Take(k, size) => CarveEffect(l, k, size, hs, min, end);
    case GiveBack(k) => ReleaseTiled(l, k, hs, end); ReleaseCoalesced(l, k);
    case CutBack(k, size) => ShrinkEffect(l, k, size, hs, end);
    case Extend(k, size) => GrowEffect(l, k, size, hs, end);
  }

  /** Whatever clients ask for, in whatever order: the row tiles the memory, no byte is lost, no two
      free blocks touch, and once everything has been given back the heap is as it was at the start. */
  lemma {:induction false} EveryRunIsCoherent(ls: seq<Layout>, rs: seq<Request>, n: nat, hs: nat, min: nat, end: int)
    requires hs > 0 && hs % 4 == 0 && hs <= end && end % 4 == 0
    requires Trace(ls, rs, hs, min, end) && n < |ls|
    ensures Coherent(ls[n], hs, end)
    ensures Span(ls[n], hs, true) + Span(ls[n], hs, false) == end
    ensures Live(ls[n]) == {} ==> ls[n] == Fresh(hs, end)
  {
    if n > 0 {
      EveryRunIsCoherent(ls, rs, n - 1, hs, min, end);
      assert Step(ls[n - 1], rs[n - 1], ls[n], hs, min);
      ApplyCoherent(ls[n - 1], rs[n - 1], hs, min, end);
    }
    SpansCoverMemory(ls[n], hs, 0, end);
    if Live(ls[n]) == {} { NothingLiveMeansFresh(ls[n], hs, end); }
  }
}
