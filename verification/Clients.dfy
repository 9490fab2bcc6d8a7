/** What a heap's clients see: live blocks, their payload ranges and their bytes. */
module Clients {
  import opened Words
  import opened Layouts
  import opened Bytes

  /** Index of the block whose payload starts at `p`. */
  ghost function BlockAt(l: Layout, p: int, hs: nat): (k: nat)
    requires exists k :: 0 <= k < |l| && l[k].used && l[k].addr + hs == p
    ensures k < |l| && l[k].used && l[k].addr + hs == p
  {
    var k :| 0 <= k < |l| && l[k].used && l[k].addr + hs == p;
    k
  }

  lemma NotYetLive(l: Layout, k: nat, b: Block, end: int, hs: nat)
    requires hs > 0 && Tiled(l, hs, end) && k < |l| && !l[k].used && b.used && b.addr == l[k].addr
    ensures b !in Live(l)
  {
    LiveMember(l, b);
    if b in l { PayloadsDisjoint(l, hs, end, b, l[k]); }
  }

  /** Two live blocks of one row: both lie inside the memory and their payloads do not touch. */
  lemma LivePair(l: Layout, b: Block, c: Block, end: int, hs: nat)
    requires hs > 0 && Tiled(l, hs, end) && b in Live(l) && c in Live(l) && b != c
    ensures b in l && c in l && b.used && c.used && b.addr != c.addr && 0 <= b.addr && 0 <= c.addr && 0 <= b.cap && 0 <= c.cap
    ensures b.addr + hs + b.cap <= end && c.addr + hs + c.cap <= end
    ensures b.addr + hs + b.cap <= c.addr || c.addr + hs + c.cap <= b.addr
  {
    LiveMember(l, b);
    LiveMember(l, c);
    AllOrdered(l, hs, end);
    PayloadsDisjoint(l, hs, end, b, c);
    assert forall i :: 0 <= i < |l| ==> Sound(l[i]);
  }

  lemma TradeOne<T>(s: set<T>, got: T, gone: T)
    requires got != gone
    ensures s + {got} - {gone} == s - {gone} + {got}
  {
  }

  /** A block of the row is identified by its address. */
  lemma SameBlock(l: Layout, b: Block, c: Block, end: int, hs: nat)
    requires hs > 0 && Tiled(l, hs, end) && b in l && c in l && b.addr == c.addr
    ensures b == c
  {
    if b != c { PayloadsDisjoint(l, hs, end, b, c); }
  }

  /** What rt_realloc promises when it hands back a pointer: the client's block `b` is now `got`, which
      holds `n` bytes and starts with what `b` held; every other live block keeps place and contents. */
  ghost predicate Resized(was: Layout, now: Layout, wasBytes: seq<Byte>, nowBytes: seq<Byte>,
                          b: Block, got: Block, n: int, hs: nat)
  {
    && got.used && got.cap >= n && Live(now) == Live(was) - {b} + {got}
    && |nowBytes| == |wasBytes|
    && 0 <= b.addr && b.addr + hs + b.cap <= |wasBytes| && 0 <= got.addr && got.addr + hs + got.cap <= |wasBytes|
    && (forall j :: got.addr + hs <= j < got.addr + hs + b.cap && j < got.addr + hs + n ==>
                      nowBytes[j] == wasBytes[b.addr + hs + (j - got.addr - hs)])
    && (forall c, i :: c in Live(was) && c != b && c.addr + hs <= i < c.addr + hs + c.cap && 0 <= i < |wasBytes|
                       ==> nowBytes[i] == wasBytes[i])
  }

  lemma ResizedInPlace(was: Layout, now: Layout, bytes: seq<Byte>, b: Block, got: Block, n: int, hs: nat)
    requires got.used && got.cap >= n && got.addr == b.addr && Live(now) == Live(was) - {b} + {got}
    requires 0 <= b.addr && b.addr + hs + b.cap <= |bytes| && got.addr + hs + got.cap <= |bytes|
    ensures Resized(was, now, bytes, bytes, b, got, n, hs)
  {
  }

  lemma ResizedByMove(was: Layout, now: Layout, wasBytes: seq<Byte>, nowBytes: seq<Byte>, b: Block, got: Block,
                      n: int, end: int, hs: nat)
    requires hs > 0 && Tiled(now, hs, end) && end <= |wasBytes| == |nowBytes|
    requires 0 < n <= got.cap && got.used && Live(now) == Live(was) - {b} + {got} && got !in Live(was)
    requires 0 <= b.addr && 0 <= b.cap && b.addr + hs + b.cap <= end && 0 <= got.addr && got.addr + hs + got.cap <= end
    requires Copied(nowBytes, wasBytes, got.addr + hs, b.addr + hs, if b.cap < n then b.cap else n)
    ensures Resized(was, now, wasBytes, nowBytes, b, got, n, hs)
  {
    forall c, i | c in Live(was) && c != b && c.addr + hs <= i < c.addr + hs + c.cap && 0 <= i < |wasBytes|
      ensures nowBytes[i] == wasBytes[i]
    {
      LivePair(now, c, got, end, hs);
    }
  }
}
