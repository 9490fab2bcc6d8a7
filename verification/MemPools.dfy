/** Memory pools of mempool.c: blocks of equal size, the free ones chained through their headers, the others
    with a header that names the pool. */
module MemPools {
  import opened Words
  import opened Bits
  import opened Rings
  import opened Kernel
  import opened Parking
  import opened Slots

  /** The free blocks in the order of their chain, and those handed out. */
  datatype Blocks = Blocks(total: nat, free: seq<int>, live: set<int>)

  /** Every block is free or handed out, and not both. */
  ghost predicate Partition(b: Blocks)
  {
    && Distinct(b.free)
    && (forall n :: n in b.free ==> n !in b.live)
    && (forall n :: n in b.free || n in b.live <==> 0 <= n < b.total)
    && |b.free| + |b.live| == b.total
  }

  function Fresh(total: nat): Blocks
  {
    Blocks(total, seq(total, i requires 0 <= i < total => i), {})
  }

  function Taken(b: Blocks): Blocks
    requires b.free != []
  {
    b.(free := b.free[1..], live := b.live + {b.free[0]})
  }

  function Given(b: Blocks, n: int): Blocks
  {
    b.(free := [n] + b.free, live := b.live - {n})
  }

  lemma FreshIsPartition(total: nat)
    ensures Partition(Fresh(total))
  {
    forall n | 0 <= n < total ensures n in Fresh(total).free {
      assert Fresh(total).free[n] == n;
    }
  }

  lemma TakenKeeps(b: Blocks)
    requires Partition(b) && b.free != []
    ensures Partition(Taken(b))
  {
    HeadTail(b.free);
  }

  lemma GivenKeeps(b: Blocks, n: int)
    requires Partition(b) && n in b.live
    ensures Partition(Given(b, n))
  {
    DistinctEnds(b.free, n);
  }

  /** The object between two sections. */
  datatype Pool = Pool(blocks: Blocks, waiting: seq<Tid>)

  /** A round of rt_mp_alloc, from disabling to enabling interrupts; the block taken is the first free one. */
  function AllocSection(p: Pool, t: Tid, time: int): (Pool, Outcome)
  {
    if p.blocks.free != [] then (p.(blocks := Taken(p.blocks)), Done(Ok, None))
    else if time == 0 then (p, Done(Timeout, None))
    else (p.(waiting := [t] + p.waiting), Parked)
  }

  /** rt_mp_free from disabling to enabling interrupts. */
  function FreeSection(p: Pool, n: int): (Pool, Outcome)
  {
    var p' := p.(blocks := Given(p.blocks, n));
    if p.waiting == [] then (p', Done(Ok, None))
    else (p'.(waiting := p.waiting[1..]), Done(Ok, Some(p.waiting[0])))
  }

  /** An allocation gets the first free block if there is one, and otherwise waits unless it must not. */
  lemma AllocAnswers(p: Pool, t: Tid, time: int)
    ensures var (p', r), none := AllocSection(p, t, time), |p.blocks.free| == 0;
            && (r == Done(Timeout, None) <==> none && time == 0) && (r == Parked <==> none && time != 0)
            && (!none ==> r == Done(Ok, None) && p.blocks.free == [p.blocks.free[0]] + p'.blocks.free)
            && (!none ==> p'.blocks.live == p.blocks.live + {p.blocks.free[0]})
  {
  }

  /** Freeing the block just allocated gives the pool back as it was. */
  lemma FreeUndoesAlloc(p: Pool, t: Tid, time: int)
    requires Partition(p.blocks) && p.blocks.free != [] && p.waiting == []
    ensures FreeSection(AllocSection(p, t, time).0, p.blocks.free[0]) == (p, Done(Ok, None))
  {
    var first := p.blocks.free[0];
    assert first in p.blocks.free;
    assert p.blocks.live + {first} - {first} == p.blocks.live;
    assert [first] + p.blocks.free[1..] == p.blocks.free;
  }

  /** The thread that was parked last is the first to be woken. */
  lemma LastParkedFirstWoken(p: Pool, t: Tid, time: int, n: int)
    requires AllocSection(p, t, time).1 == Parked
    ensures var (p', r) := FreeSection(AllocSection(p, t, time).0, n);
            r == Done(Ok, Some(t)) && p'.waiting == p.waiting && n in p'.blocks.free
  {
  }

  // ----- the object together with the threads that use it -----

  datatype System = System(blocks: Blocks, th: Threads<()>)

  datatype Event =
    | AllocCall(t: Tid, time: int)
    | AllocAgain(t: Tid, left: int)
    | Free(n: int)
    | Expire(t: Tid)
    | GiveUp(t: Tid)

  predicate Enabled(s: System, e: Event)
  {
    match e
    case AllocCall(t, _) => Idle(s.th, t)
    case AllocAgain(t, left) =>
      t in s.th.recvAwake && t in s.th.calls && s.th.calls[t].Recv? && TimeLeft(s.th.calls[t].timeout, left)
    case Free(n) => n in s.blocks.live
    case Expire(t) => CanExpire(s.th, t)
    case GiveUp(t) => t in s.th.failed
  }

  /** What the object looks like in a state of the system. */
  function View(s: System): Pool
  {
    Pool(s.blocks, s.th.recvWait)
  }

  /** A round of rt_mp_alloc run by `t`, which is on no list. */
  function AfterAlloc(s: System, t: Tid, time: int): System
  {
    var (p, r) := AllocSection(View(s), t, time);
    System(p.blocks, if r.Parked? then ParkFront(s.th, t, time) else s.th)
  }

  function AfterFree(s: System, n: int): System
  {
    var (p, r) := FreeSection(View(s), n);
    System(p.blocks, if r.Done? && r.woken.Some? then WakeRecv(s.th) else s.th)
  }

  function Step(s: System, e: Event): System
    requires Enabled(s, e)
  {
    match e
    case AllocCall(t, time) => AfterAlloc(s, t, time)
    case AllocAgain(t, left) => AfterAlloc(s.(th := Runs(s.th, t)), t, left)
    case Free(n) => AfterFree(s, n)
    case Expire(t) => s.(th := Expired(s.th, t))
    case GiveUp(t) => s.(th := GivenUp(s.th, t))
  }

  /** Every block is accounted for, and allocators are parked only if as many were woken as blocks are free. */
  ghost predicate Inv(s: System)
  {
    Partition(s.blocks) && Sound(s.th, |s.blocks.free|, 0)
  }

  lemma AllocKeepsInv(s: System, t: Tid, time: int)
    requires Partition(s.blocks) && Sound(s.th, |s.blocks.free| - 1, 0) && Idle(s.th, t)
    ensures Inv(AfterAlloc(s, t, time))
  {
    if s.blocks.free != [] {
      TakenKeeps(s.blocks);
    } else {
      ParkFrontKeeps(s.th, t, time, 0);
    }
  }

  lemma StepKeepsInv(s: System, e: Event)
    requires Inv(s) && Enabled(s, e)
    ensures Inv(Step(s, e))
  {
    var items := |s.blocks.free|;
    match e
    case AllocCall(t, time) =>
      Weaker(s.th, items, 0);
      AllocKeepsInv(s, t, time);
    case AllocAgain(t, left) =>
      RunsKeeps(s.th, t, items, 0);
      AllocKeepsInv(s.(th := Runs(s.th, t)), t, left);
    case Free(n) =>
      GivenKeeps(s.blocks, n);
      WakeRecvKeeps(s.th, items, 0);
    case Expire(t) => ExpiredKeeps(s.th, t, items, 0);
    case GiveUp(t) => GivenUpKeeps(s.th, t, items, 0);
  }

  /** The calls of the system are the sections of the object; the threads are where their outcomes say, and nothing else
      touches the blocks. */
  lemma StepIsSection(s: System, e: Event)
    requires Placed(s.th) && Enabled(s, e)
    ensures var s' := Step(s, e);
            match e
            case AllocCall(t, time) =>
              var (p, r) := AllocSection(View(s), t, time);
              View(s') == p && (r.Parked? <==> t in s'.th.calls) && (r.Parked? ==> s'.th.calls[t] == Recv(time))
            case AllocAgain(t, left) =>
              var (p, r) := AllocSection(View(s), t, left);
              View(s') == p && (r.Parked? <==> t in s'.th.calls) && (r.Parked? ==> s'.th.calls[t] == Recv(left))
            case Free(n) =>
              var (p, r) := FreeSection(View(s), n);
              && View(s') == p
              && s'.th.recvAwake == s.th.recvAwake + (if r.Done? && r.woken.Some? then {r.woken.value} else {})
            case Expire(t) => s'.blocks == s.blocks && t !in s'.th.recvWait && t in s'.th.failed && s'.th.failed[t] == Timeout
            case GiveUp(_) => View(s') == View(s)
  {
    if e.Expire? { DroppedMembers(s.th.recvWait, e.t); }
  }

  /** Every step leaves the last to come in front. */
  lemma StepStacks(s: System, e: Event)
    requires Inv(s) && Stacked(s.th) && Enabled(s, e)
    ensures Stacked(Step(s, e).th)
  {
    hide Partition, NoLostWakeup;
    match e
    case AllocCall(t, time) => StackedBy(s.th, t, time);
    case AllocAgain(t, left) => StackedBy(Runs(s.th, t), t, left);
    case Free(n) => StackedBy(s.th, 0, 0);
    case Expire(t) => StackedDropped(s.th, t);
    case GiveUp(t) =>
  }

  lemma {:induction false} EveryRunStacks(ss: seq<System>, es: seq<Event>, total: nat, n: nat)
    requires Run(ss, es, total) && n < |ss|
    ensures Stacked(ss[n].th)
  {
    hide Inv, Enabled, Step;
    if n > 0 {
      hide Stacked;
      EveryRunStacks(ss, es, total, n - 1);
      EveryRunKeepsInv(ss, es, total, n - 1);
      assert Next(ss[n - 1], es[n - 1], ss[n]);
      StepStacks(ss[n - 1], es[n - 1]);
    }
  }

  ghost predicate Next(s: System, e: Event, s': System)
  {
    Enabled(s, e) && s' == Step(s, e)
  }

  ghost predicate Run(ss: seq<System>, es: seq<Event>, total: nat)
  {
    && |ss| == |es| + 1 && ss[0] == System(Fresh(total), Nobody())
    && forall i, j :: 0 <= i && j == i + 1 && j < |ss| ==> Next(ss[i], es[i], ss[j])
  }

  /** In every interleaving of allocations, frees, wake-ups and timeouts. */
  lemma {:induction false} EveryRunKeepsInv(ss: seq<System>, es: seq<Event>, total: nat, n: nat)
    requires Run(ss, es, total) && n < |ss|
    ensures Inv(ss[n])
  {
    if n == 0 {
      FreshIsPartition(total);
    } else {
      EveryRunKeepsInv(ss, es, total, n - 1);
      assert Next(ss[n - 1], es[n - 1], ss[n]);
      StepKeepsInv(ss[n - 1], es[n - 1]);
    }
  }

  // ----- the object in memory -----

  /** sizeof(rt_uint8_t *), and the pool's own address in a header. */
  const HEADER := 4
  const POOL := -2

  /** struct rt_mempool; blocks are numbered by their place in the pool. */
  class MemPool {
    const size: nat
    const blockSize: nat
    const total: nat
    const header: array<int>
    var list: int
    var freeCount: nat
    var waiting: seq<Tid>

    ghost var blocks: Blocks

    ghost predicate Valid()
      reads this, header
    {
      && header.Length == total == blocks.total && Partition(blocks)
      && (total > 0 ==> Chained(header[..], list, blocks.free)) && freeCount == |blocks.free|
      && (forall n :: n in blocks.live ==> header[n] == POOL)
      && total * (blockSize + HEADER) <= size < (total + 1) * (blockSize + HEADER)
    }

    /** rt_mp_init, for a pool in which its last write stays. */
    constructor (size: Word, blockSize: Word)
      requires AlignUp(blockSize) + HEADER < WORD_RANGE && HasPlace(AlignDown(size), AlignUp(blockSize) + HEADER)
      ensures Valid() && blocks == Fresh(total) && waiting == []
      ensures this.size == AlignDown(size) && this.blockSize == AlignUp(blockSize)
      ensures total == CountOf(this.size, this.blockSize + HEADER)
    {
      var sz, bs := AlignDown(size), AlignUp(blockSize);
      CountIs(sz, bs + HEADER);
      CountIsMost(sz, bs + HEADER);
      var count := CountOf(sz, bs + HEADER);
      this.size, this.blockSize, total := sz, bs, count;
      header := new int[count];
      list, freeCount, waiting := 0, count, [];
      blocks := Fresh(count);
      new;
      if total > 0 { ThreadAll(); }
      FreshIsPartition(total);
    }

    /** Chain every block to the one behind it, and end the chain at the last one. */
    method ThreadAll()
      requires header.Length == total >= 1
      modifies header
      ensures Chained(header[..], 0, Fresh(total).free)
    {
      var offset := 0;
      while offset < total
        invariant 0 <= offset <= total
        invariant forall i :: 0 <= i < offset ==> header[i] == i + 1
      {
        header[offset] := offset + 1;
        offset := offset + 1;
      }
      header[offset - 1] := NIL;
    }

    ghost function Abs(): Pool
      reads this
    {
      Pool(blocks, waiting)
    }

    /** A round of rt_mp_alloc; `block` is the block taken. */
    method AllocRound(t: Tid, time: int) returns (r: Outcome, block: int)
      requires Valid()
      modifies this, header
      ensures Valid() && (Abs(), r) == AllocSection(old(Abs()), t, time)
      ensures r == Done(Ok, None) ==> old(blocks.free) != [] && block == old(blocks.free[0]) && block in blocks.live
      ensures r == Done(Ok, None) ==> block !in old(blocks.live) && header[block] == POOL
    {
      block := NIL;
      if freeCount == 0 {
        if time == 0 {
          return Done(Timeout, None), block;
        }
        waiting := [t] + waiting;
        return Parked, block;
      }
      TakenKeeps(blocks);
      HeadTail(blocks.free);
      ghost var hd := header[..];
      freeCount := freeCount - 1;
      block := list;
      ChainedPop(hd, list, blocks.free);
      ChainedElsewhere(hd, hd[list], blocks.free[1..], block, POOL);
      list := header[block];
      header[block] := POOL;
      assert header[..] == hd[block := POOL];
      blocks := Taken(blocks);
      return Done(Ok, None), block;
    }

    /** rt_mp_free; the header of the block tells which pool it belongs to. */
    method Free(block: int) returns (r: Outcome)
      requires Valid() && block in blocks.live
      modifies this, header
      ensures Valid() && old(header[block]) == POOL
      ensures (Abs(), r) == FreeSection(old(Abs()), block)
    {
      GivenKeeps(blocks, block);
      ghost var hd := header[..];
      freeCount := freeCount + 1;
      ChainedPush(hd, list, blocks.free, block);
      header[block] := list;
      assert header[..] == hd[block := list];
      list := block;
      blocks := Given(blocks, block);
      if waiting != [] {
        var first := waiting[0];
        waiting := waiting[1..];
        return Done(Ok, Some(first));
      }
      return Done(Ok, None);
    }
  }

  /** Where the caller finds block `n`, counted from the start of the pool. */
  function Address(n: nat, blockSize: nat): nat
  {
    n * (blockSize + HEADER) + HEADER
  }

  /** Blocks lie inside the pool, and apart from each other and from each other's headers. */
  lemma BlocksApart(size: nat, blockSize: nat, total: nat, m: nat, n: nat)
    requires total * (blockSize + HEADER) <= size && m < n < total
    ensures Address(m, blockSize) + blockSize + HEADER <= Address(n, blockSize)
    ensures Address(n, blockSize) + blockSize <= size
  {
    MulMonotone(n + 1, total, blockSize + HEADER);
    assert (n + 1) * (blockSize + HEADER) == n * (blockSize + HEADER) + (blockSize + HEADER);
    MulMonotone(m + 1, n, blockSize + HEADER);
    assert (m + 1) * (blockSize + HEADER) == m * (blockSize + HEADER) + (blockSize + HEADER);
  }

  /** There is a block, or a block is so large that an address in front of the pool comes round to its end. */
  predicate HasPlace(size: Word, each: Word)
  {
    each <= size || WORD_RANGE - each + HEADER <= size
  }

  /** Where rt_mp_init ends the chain, from the start of the pool: at the block before `count`, in words. */
  function LastLink(count: Word, each: Word): Word
  {
    var last := if count == 0 then WORD_RANGE - 1 else count - 1;
    last * each % WORD_RANGE
  }

  /** That is in the pool if and only if there is a place for it. */
  lemma LastLinkExact(size: Word, each: Word)
    requires HEADER <= each
    ensures LastLink(CountOf(size, each), each) + HEADER <= size <==> HasPlace(size, each)
  {
    CountIs(size, each);
    if each <= size {
      LinkOfLast(size, each, CountOf(size, each));
    } else {
      LinkOfNone(each);
    }
  }

  lemma LinkOfLast(size: Word, each: Word, count: nat)
    requires HEADER <= each <= size && 0 < count <= size && count * each <= size
    ensures LastLink(count, each) + HEADER <= size
  {
    var at := (count - 1) * each;
    assert at + each == count * each && at >= 0;
    SmallRemainder(at);
  }

  lemma SmallRemainder(x: Word)
    ensures x % WORD_RANGE == x
  {
  }

  lemma LinkOfNone(each: Word)
    requires each > 0
    ensures LastLink(0, each) == WORD_RANGE - each
  {
    assert (WORD_RANGE - 1) * each == (each - 1) * WORD_RANGE + (WORD_RANGE - each);
    RemainderOf(each - 1, WORD_RANGE - each, WORD_RANGE);
  }

  /** How many blocks go into a pool. */
  function CountOf(size: Word, each: Word): (c: Word)
    requires each > 0
  {
    CountIs(size, each);
    size / each
  }

  lemma CountIs(size: nat, each: nat)
    requires each > 0
    ensures 0 <= size / each <= size && size / each * each <= size
    ensures size / each == 0 <==> size < each
  {
    QuotientIs(size, each, size / each, size % each);
  }

  /** No more blocks go into a pool than are counted. */
  lemma CountIsMost(size: Word, each: Word)
    requires each > 0
    ensures CountOf(size, each) * each <= size < (CountOf(size, each) + 1) * each
  {
    CountIs(size, each);
    NextIsMore(size / each, each, size % each);
  }

  lemma NextIsMore(q: int, each: int, r: int)
    requires r < each
    ensures q * each + r < (q + 1) * each
  {
    assert (q + 1) * each == q * each + each;
  }

  lemma QuotientIs(size: nat, each: int, q: int, r: int)
    requires size == q * each + r && 0 <= r < each
    ensures 0 <= q <= size && q * each <= size && (q == 0 <==> size < each)
  {
    assert (q <= -1 ==> q * each <= -each) && (q >= 1 ==> q * each >= each && q * each >= q);
  }

  /** A pool of 64 bytes for blocks of 100: the word 104 bytes in front of it is overwritten. */
  lemma EmptyPoolFails()
    ensures CountOf(64, 104) == 0 && LastLink(0, 104) == WORD_RANGE - 104 && !HasPlace(64, 104)
  {
  }
}
