/** How a row of blocks is threaded through memory: each block's header records where the next one starts
    and where the one before it started. */
module Chains {
  import opened Layouts

  /** The part the headers of both heaps have in common: struct heap_mem of mem.c, and struct
      rt_memheap_item of memheap.c without its free-list links (there the used bit is part of `magic`). */
  datatype Header = Header(magic: int, used: bool, next: int, prev: int)

  /** Header size and magic word of a heap, and the ends of its chain: `head` is what the first block has
      for `prev`, `stop` what the sentinel has for `next`. */
  datatype Geometry = Geometry(hs: nat, magic: int, head: int, stop: int)

  ghost predicate Describes(h: Header, b: Block, g: Geometry)
  {
    h.magic == g.magic && h.used == b.used && h.next == b.addr + g.hs + b.cap
  }

  /** The headers of the blocks of `l` are in memory and linked both ways; `before` precedes the first. */
  ghost predicate Links(hdr: map<int, Header>, l: Layout, before: int, g: Geometry)
  {
    && (forall i :: 0 <= i < |l| ==> l[i].addr in hdr && Describes(hdr[l[i].addr], l[i], g))
    && (forall i, j :: 0 <= i && j == i + 1 && j < |l| ==> hdr[l[j].addr].prev == l[i].addr)
    && (l != [] ==> hdr[l[0].addr].prev == before)
  }

  /** The headers in memory are those of the row `l`, followed by the sentinel at `end`.  The sentinel's
      own `prev` is not maintained by the code and is left open. */
  ghost predicate Chain(hdr: map<int, Header>, l: Layout, end: int, g: Geometry)
  {
    Links(hdr, l, g.head, g) && end in hdr && hdr[end].used && hdr[end].next == g.stop
  }

  function LastAddr(l: Layout, before: int): int
  {
    if l == [] then before else l[|l| - 1].addr
  }

  lemma LinksConcat(hdr: map<int, Header>, a: Layout, b: Layout, before: int, g: Geometry)
    requires Links(hdr, a, before, g) && Links(hdr, b, LastAddr(a, before), g)
    ensures Links(hdr, a + b, before, g)
  {
    var l := a + b;
    forall i, j | 0 <= i && j == i + 1 && j < |l| ensures hdr[l[j].addr].prev == l[i].addr {
      if i >= |a| { assert l[i] == b[i - |a|] && l[j] == b[j - |a|]; }
    }
  }

  lemma LinksParts(hdr: map<int, Header>, l: Layout, before: int, k: nat, g: Geometry)
    requires Links(hdr, l, before, g) && k <= |l|
    ensures Links(hdr, l[..k], before, g) && Links(hdr, l[k..], LastAddr(l[..k], before), g)
  {
  }

  /** Writes outside `[from, to)`, and to the first block's `prev`, do not disturb the links in it. */
  lemma LinksFrame(was: map<int, Header>, now: map<int, Header>, l: Layout, from: int, to: int,
                   before: int, newBefore: int, g: Geometry)
    requires g.hs > 0 && Tiles(l, g.hs, from, to) && Links(was, l, before, g)
    requires forall a :: from < a < to && a in was ==> a in now && now[a] == was[a]
    requires l != [] ==> from in now && now[from] == was[from].(prev := newBefore)
    ensures Links(now, l, newBefore, g)
  {
    forall i | 0 <= i < |l| ensures i > 0 ==> from < l[i].addr < to {
      if i > 0 { Ordered(l, g.hs, from, to, 0, i); }
      Ordered(l, g.hs, from, to, i, |l|);
    }
  }

  lemma ChainMark(hdr: map<int, Header>, l: Layout, k: nat, used: bool, end: int, g: Geometry)
    requires g.hs > 0 && Tiled(l, g.hs, end) && Chain(hdr, l, end, g) && k < |l|
    ensures Chain(hdr[l[k].addr := hdr[l[k].addr].(used := used)], Mark(l, k, used), end, g)
  {
    AllOrdered(l, g.hs, end);
  }

  /** Swapping the blocks `lo..hi` for `mid` relinks the chain when the writes stay inside their range,
      but for the `prev` of the block that follows. */
  lemma ChainSplice(was: map<int, Header>, now: map<int, Header>, l: Layout, lo: nat, hi: nat, mid: Layout,
                    end: int, g: Geometry)
    requires g.hs > 0 && Tiled(l, g.hs, end) && Chain(was, l, end, g) && lo < hi <= |l|
    requires mid != [] && Links(now, mid, LastAddr(l[..lo], g.head), g)
    requires var p, n := l[lo].addr, AddrAt(l, hi, end);
             && (forall a :: a in was && (a < p || n < a) ==> a in now && now[a] == was[a])
             && n in was && n in now && now[n].used == was[n].used && now[n].next == was[n].next
             && (n != end ==> now[n] == was[n].(prev := LastAddr(mid, g.head)))
    ensures Chain(now, l[..lo] + mid + l[hi..], end, g)
  {
    AllOrdered(l, g.hs, end);
    var p, n := l[lo].addr, AddrAt(l, hi, end);
    var pre, post := l[..lo], l[hi..];
    TilesParts(l, g.hs, 0, end, lo);
    TilesParts(l, g.hs, 0, end, hi);
    LinksParts(was, l, g.head, lo, g);
    LinksParts(was, l, g.head, hi, g);
    LinksFrame(was, now, pre, 0, p, g.head, g.head, g);
    LinksFrame(was, now, post, n, end, LastAddr(l[..hi], g.head), LastAddr(mid, g.head), g);
    LinksConcat(now, pre, mid, g.head, g);
    LinksConcat(now, pre + mid, post, g.head, g);
  }

  lemma LinksPair(hdr: map<int, Header>, b: Block, c: Block, before: int, g: Geometry)
    requires b.addr in hdr && Describes(hdr[b.addr], b, g) && hdr[b.addr].prev == before
    requires c.addr in hdr && Describes(hdr[c.addr], c, g) && hdr[c.addr].prev == b.addr
    ensures Links(hdr, [b, c], before, g)
  {
  }

  lemma ChainCut(hdr: map<int, Header>, after: map<int, Header>, l: Layout, k: nat, size: int,
                 used: bool, restUsed: bool, end: int, g: Geometry)
    requires g.hs > 0 && Tiled(l, g.hs, end) && Chain(hdr, l, end, g) && k < |l|
    requires 0 <= size && size + g.hs <= l[k].cap
    requires var p, q, n := l[k].addr, l[k].addr + g.hs + size, AddrAt(l, k + 1, end);
             && p in after && after[p] == Header(g.magic, used, q, hdr[p].prev)
             && q in after && after[q] == Header(g.magic, restUsed, n, p)
             && (forall a :: a in hdr && a != p && a != q && a != n ==> a in after && after[a] == hdr[a])
             && n in hdr && n in after && after[n].(prev := 0) == hdr[n].(prev := 0) && (n != end ==> after[n].prev == q)
    ensures Chain(after, Cut(l, k, size, g.hs, used, restUsed), end, g)
  {
    hide Tiles;
    EndsWhereNextStarts(l, k, g.hs, end);
    var b, before := l[k], LastAddr(l[..k], g.head);
    var c, d := Block(b.addr, size, used), Block(b.addr + g.hs + size, b.cap - g.hs - size, restUsed);
    LinksPair(after, c, d, before, g);
    ChainSplice(hdr, after, l, k, k + 1, [c, d], end, g);
    assert Cut(l, k, size, g.hs, used, restUsed) == l[..k] + [c, d] + l[k + 1..];
  }

  lemma ChainFuse(hdr: map<int, Header>, after: map<int, Header>, l: Layout, k: nat, end: int, g: Geometry)
    requires g.hs > 0 && Tiled(l, g.hs, end) && Chain(hdr, l, end, g) && k + 1 < |l|
    requires var p, n := l[k].addr, AddrAt(l, k + 2, end);
             && n in hdr
             && p in after && after[p] == hdr[p].(next := n)
             && n in after && after[n] == hdr[n].(prev := p)
             && (forall a :: a in hdr && a != p && a != n ==> a in after && after[a] == hdr[a])
    ensures Chain(after, Fuse(l, k, k + 2, l[k].used), end, g)
  {
    var b := Block(l[k].addr, l[k + 1].addr + l[k + 1].cap - l[k].addr, l[k].used);
    assert Links(after, [b], LastAddr(l[..k], g.head), g);
    ChainSplice(hdr, after, l, k, k + 2, [b], end, g);
    assert Fuse(l, k, k + 2, l[k].used) == l[..k] + [b] + l[k + 2..];
  }

  /** What the links of block `k` say about its neighbours. */
  lemma Neighbours(hdr: map<int, Header>, l: Layout, k: nat, end: int, g: Geometry)
    requires g.hs > 0 && Tiled(l, g.hs, end) && Chain(hdr, l, end, g) && k < |l|
    ensures l[0].addr == 0 && l[k].addr in hdr && hdr[l[k].addr].next == AddrAt(l, k + 1, end)
    ensures var h := hdr[l[k].addr];
            && h.next in hdr && (k > 0 ==> h.prev in hdr) && h.next != l[k].addr
            && (h.next != end && !hdr[h.next].used <==> k + 1 < |l| && !l[k + 1].used)
            && (k > 0 ==> hdr[h.prev].used == l[k - 1].used && h.prev < l[k].addr)
            && h.prev == if k > 0 then l[k - 1].addr else g.head
  {
    AllOrdered(l, g.hs, end);
    if k > 0 { assert l[k - 1].addr in hdr; }
    if k + 1 < |l| { assert l[k + 1].addr in hdr; }
  }

  /** The header writes that absorb the block behind `mem` (mem.c lines 178-179 and 191-192). */
  function FuseWrites(hdr: map<int, Header>, mem: int, next: int): map<int, Header>
    requires mem in hdr && next in hdr && next != mem
  {
    var joined := hdr[mem := hdr[mem].(next := next)];
    joined[next := joined[next].(prev := mem)]
  }

  /** The two writes may be made in either order. */
  lemma FuseWritesCommute(hdr: map<int, Header>, mem: int, next: int)
    requires mem in hdr && next in hdr && next != mem
    ensures var back := hdr[next := hdr[next].(prev := mem)];
            back[mem := back[mem].(next := next)] == FuseWrites(hdr, mem, next)
  {
  }

  lemma FuseWritesChain(hdr: map<int, Header>, l: Layout, k: nat, end: int, g: Geometry)
    requires g.hs > 0 && Tiled(l, g.hs, end) && Chain(hdr, l, end, g) && k + 1 < |l|
    ensures hdr[l[k].addr].next == l[k + 1].addr && hdr[l[k + 1].addr].prev == l[k].addr
    ensures hdr[l[k + 1].addr].next in hdr && hdr[l[k + 1].addr].next > l[k + 1].addr > l[k].addr
    ensures Chain(FuseWrites(hdr, l[k].addr, hdr[l[k + 1].addr].next), Fuse(l, k, k + 2, l[k].used), end, g)
  {
    AllOrdered(l, g.hs, end);
    assert k + 2 < |l| ==> l[k + 2].addr in hdr;
    ChainFuse(hdr, FuseWrites(hdr, l[k].addr, hdr[l[k + 1].addr].next), l, k, end, g);
  }
}
