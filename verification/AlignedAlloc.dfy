/** rt_malloc_align and rt_free_align of kservice.c, on top of the small-memory heap. */
module AlignedAlloc {
  import opened Words
  import opened Bits
  import opened Layouts
  import opened Clients
  import opened SmallHeap

  /** The four bytes at `at`, least significant first. */
  function LoadWord(bytes: seq<Byte>, at: int): int
    requires 0 <= at && at + 4 <= |bytes|
  {
    bytes[at] as int + 0x100 * (bytes[at + 1] as int) + 0x1_0000 * (bytes[at + 2] as int)
    + 0x100_0000 * (bytes[at + 3] as int)
  }

  method StoreWord(a: array<Byte>, at: int, w: Word)
    requires 0 <= at && at + 4 <= a.Length
    modifies a
    ensures LoadWord(a[..], at) == w
    ensures forall i :: 0 <= i < a.Length && !(at <= i < at + 4) ==> a[i] == old(a[i])
  {
    var b0, r0 := w % 0x100, w / 0x100;
    var b1, r1 := r0 % 0x100, r0 / 0x100;
    var b2, b3 := r1 % 0x100, r1 / 0x100;
    a[at], a[at + 1], a[at + 2], a[at + 3] := b0, b1, b2, b3;
  }

  /** The address handed out for a block at `addr`, by the masks of the code. */
  function AlignedAddress(addr: Word, align: Word): nat
    requires align > 0
  {
    if And(addr, align - 1) == 0 then addr + align else And(addr + align - 1, WORD_RANGE - align)
  }

  /** The same by remainders. */
  function ByRemainders(addr: int, align: int): int
    requires align > 0
  {
    if addr % align == 0 then addr + align else (addr + align - 1) - (addr + align - 1) % align
  }

  lemma MultipleOfFour(q: int, d: int)
    requires d % 4 == 0
    ensures (q * d) % 4 == 0
  {
    assert q * d == (q * (d / 4)) * 4;
    RemainderOf(q * (d / 4), 0, 4);
  }

  /** The aligned address is the next multiple of `align` above the block's start; being a multiple of
      four apart from it, it leaves room for a word in front. */
  lemma AlignedAddressIs(addr: Word, align: Word)
    requires addr % 4 == 0 && PowerOfTwo(align) && align > 2 && addr + align < WORD_RANGE
    ensures var r := AlignedAddress(addr, align);
            r % align == 0 && r % 4 == 0 && addr + 4 <= r <= addr + align
  {
    PowerIsMultipleOfFour(align);
    SameAddress(addr, align);
    NextMultipleIs(addr, align);
  }

  lemma SameAddress(addr: Word, align: Word)
    requires PowerOfTwo(align) && addr + align < WORD_RANGE
    ensures AlignedAddress(addr, align) == ByRemainders(addr, align)
  {
    assert align > 0;
    hide And, PowerOfTwo;
    var mask, sum, rest := align - 1, addr + align - 1, addr % align;
    MaskOff(addr, align);
    assert And(addr, mask) == rest;
    if rest != 0 {
      MaskOut(sum, align);
    }
  }

  lemma NextMultipleIs(addr: int, align: int)
    requires addr % 4 == 0 && align % 4 == 0 && align > 0
    ensures var r := ByRemainders(addr, align);
            r % align == 0 && r % 4 == 0 && addr + 4 <= r <= addr + align
  {
    var q, rem := addr / align, addr % align;
    var low := q * align;
    assert addr == low + rem;
    MultipleOfFour(q, align);
    Above(q, low, align, 0);
    if rem > 0 { Above(q, low, align, rem - 1); }
    FourApart(low, addr, align);
    NextMultiple(addr, low, rem, align);
  }

  lemma Above(q: int, low: int, align: int, r: int)
    requires low == q * align && 0 <= r < align
    ensures (low + align + r) % align == r
  {
    assert (q + 1) * align == low + align;
    RemainderOf(q + 1, r, align);
  }

  lemma NextMultiple(addr: int, low: int, rem: int, align: int)
    requires align > 0 && addr == low + rem && rem == addr % align && rem + 4 <= align
    requires (low + align) % align == 0
    requires rem > 0 ==> (low + align + (rem - 1)) % align == rem - 1
    ensures ByRemainders(addr, align) == low + align
  {
    assert rem > 0 ==> addr + align - 1 == low + align + (rem - 1);
  }

  lemma FourApart(low: int, addr: int, align: int)
    requires low % 4 == 0 && addr % 4 == 0 && align % 4 == 0 && low <= addr < low + align
    ensures addr + 4 <= low + align && (low + align) % 4 == 0
  {
  }

  lemma PowerIsMultipleOfFour(x: int)
    requires PowerOfTwo(x) && x > 2
    ensures x % 4 == 0
  {
    var half := x / 2;
    assert PowerOfTwo(half) && half > 1;
    assert half == 2 * (half / 2);
  }

  lemma HalfTheRange(x: Word)
    requires PowerOfTwo(x)
    ensures x <= WORD_RANGE / 2
  {
    WordPower();
    if Exponent(x) >= 32 {
      PowerGrows(32, Exponent(x));
    } else {
      PowerGrows(Exponent(x), 31);
    }
  }

  lemma WordAlignsToPower(align: Word)
    requires PowerOfTwo(align)
    ensures AlignUp(align) == if align <= 2 then 4 else align
    ensures AlignUp(align) % 4 == 0 && PowerOfTwo(AlignUp(align)) && AlignUp(align) <= WORD_RANGE / 2
  {
    HalfTheRange(align);
    assert PowerOfTwo(2) && PowerOfTwo(4);
    if align > 2 {
      PowerIsMultipleOfFour(align);
      AlignedStays(align);
    }
  }

  /** The aligned pointer `p` belongs to block `b`: it is aligned, its `size` bytes and the word in front of
      it lie in the block, and that word holds the address of the block's payload. */
  ghost predicate Tagged(h: Heap, b: Block, p: int, size: int, align: int)
    requires align > 0
    reads h, h.data
  {
    && (h.base + p) % align == 0
    && 0 <= b.addr && b.addr + HS + 4 <= p && p + size <= b.addr + HS + b.cap <= h.data.Length && size >= 0
    && LoadWord(h.data[..], p - 4) == h.base + b.addr + HS
  }

  /** What rt_malloc_align asks rt_malloc for. */
  function Total(size: Word, align: Word): Word
  {
    Plus(AlignUp(size), AlignUp(align))
  }

  /** Neither the aligned size nor its sum with the alignment wraps. */
  predicate SumFits(size: Word, align: Word)
  {
    size <= AlignUp(size) && AlignUp(size) + AlignUp(align) < WORD_RANGE
  }

  /** rt_malloc_align.  When the sum wraps, rt_malloc must turn the request away. */
  method MallocAlign(h: Heap, size: Word, align: Word) returns (p: Ptr, ghost b: Block)
    requires h.Valid() && PowerOfTwo(align) && h.Answers(Total(size, align))
    requires SumFits(size, align) || h.MustFail(h.layout, Total(size, align))
    modifies h, h.data
    ensures h.Valid()
    ensures p.Null? <==> h.MustFail(old(h.layout), Total(size, align))
    ensures p.Null? ==> unchanged(h) && unchanged(h.data)
    ensures p.At? ==> b !in old(Live(h.layout)) && Live(h.layout) == old(Live(h.layout)) + {b}
    ensures p.At? ==> Tagged(h, b, p.off, size, align)
    ensures p.At? ==> b.cap < Max(MIN, size + 4 + Max(align, 4)) + HS + MIN
    ensures forall i :: 0 <= i < h.data.Length && p.At? && !(p.off - 4 <= i < p.off) ==> h.data[i] == old(h.data[i])
  {
    var align' := AlignUp(align);
    RoomNeeded(size, align);
    var ptr;
    ptr, b := h.Obtain(Plus(AlignUp(size), align'));
    if ptr.Null? { return Null, b; }
    NoMoreThan(size, align);
    p := Tag(h, b, ptr.off, size, align, align');
  }

  lemma RoomNeeded(size: Word, align: Word)
    requires PowerOfTwo(align)
    ensures SumFits(size, align) ==> size + AlignUp(align) <= Effective(Total(size, align))
    ensures AlignUp(align) % align == 0 && PowerOfTwo(AlignUp(align)) && AlignUp(align) >= 4
  {
    WordAlignsToPower(align);
    MultipleOfItself(align);
    if SumFits(size, align) { SumHolds(size, AlignUp(align)); }
  }

  /** What is asked for is less than a word more than size and alignment. */
  lemma NoMoreThan(size: Word, align: Word)
    requires PowerOfTwo(align) && SumFits(size, align)
    ensures Effective(Total(size, align)) <= Max(MIN, size + 4 + Max(align, 4))
  {
    WordAlignsToPower(align);
    AlignUpExact(size);
    SumStaysAligned(AlignUp(size), AlignUp(align));
  }

  lemma MultipleOfItself(align: int)
    requires align > 0
    ensures align % align == 0 && 4 % 1 == 4 % 2 == 0
  {
    RemainderOf(1, 0, align);
  }

  lemma SumHolds(size: Word, align': Word)
    requires align' % 4 == 0 && size <= AlignUp(size) && AlignUp(size) + align' < WORD_RANGE
    ensures size + align' <= Effective(Plus(AlignUp(size), align'))
  {
    AlignUpExact(size);
    SumStaysAligned(AlignUp(size), align');
  }

  /** Why: when the sum wraps, a block that rt_malloc hands out, which is less than a header and MIN bytes larger than
      asked for, does not hold the bytes behind the saved word. */
  lemma WrappedSumOverruns(size: Word, align: Word, cap: int, gap: int)
    requires PowerOfTwo(align) && !SumFits(size, align)
    requires cap < Effective(Total(size, align)) + HS + MIN && gap >= 4
    ensures gap + size > cap
  {
    WordAlignsToPower(align);
    AlignUpExact(size);
    Overruns(size, AlignUp(size), AlignUp(align), Total(size, align), cap);
  }

  lemma Overruns(size: Word, size': Word, align': Word, total: Word, cap: int)
    requires 4 <= align' <= WORD_RANGE / 2 && align' % 4 == 0 && size' % 4 == 0
    requires if size <= size' then size' < size + 4 && size' + align' >= WORD_RANGE && total == size' + align' - WORD_RANGE
             else size > WORD_RANGE - 4 && total == align'
    requires cap < Effective(total) + HS + MIN
    ensures 4 + size > cap
  {
    AlignUpExact(total);
    AlignedStays(total);
  }

  lemma SumStaysAligned(a: Word, b: Word)
    requires a % 4 == 0 && b % 4 == 0 && a + b < WORD_RANGE
    ensures AlignUp(a + b) == a + b
  {
    assert (a + b) % 4 == 0;
    AlignedStays(a + b);
  }

  /** rt_malloc_align, lines 1257-1269: pick the aligned address and save the block's own in front of it. */
  method Tag(h: Heap, ghost b: Block, off: int, size: int, ghost align: int, align': int) returns (p: Ptr)
    requires 0 <= h.base && h.base % 4 == 0 && h.base + h.data.Length < WORD_RANGE
    requires 0 <= b.addr && b.addr % 4 == 0 && b.addr + HS + b.cap <= h.data.Length && off == b.addr + HS
    requires 0 < align && align' % align == 0 && PowerOfTwo(align') && align' > 2
    requires 0 <= size && size + align' <= b.cap
    modifies h.data
    ensures p.At? && Tagged(h, b, p.off, size, align)
    ensures forall i :: 0 <= i < h.data.Length && !(p.off - 4 <= i < p.off) ==> h.data[i] == old(h.data[i])
  {
    hide PowerOfTwo, AlignedAddress, LoadWord;
    var addr := h.base + off;
    AlignedAddressIs(addr, align');
    var aligned := AlignedAddress(addr, align');
    MultipleStaysMultiple(aligned, align', align);
    StoreWord(h.data, aligned - 4 - h.base, addr);
    p := At(aligned - h.base);
  }

  lemma MultipleStaysMultiple(x: int, big: int, small: int)
    requires small > 0 && big > 0 && big % small == 0 && x % big == 0
    ensures x % small == 0
  {
    assert x == (x / big) * (big / small) * small;
    RemainderOf((x / big) * (big / small), 0, small);
  }

  /** rt_free_align: the word in front of the pointer leads back to the block, which alone is released. */
  method FreeAlign(h: Heap, p: int, ghost b: Block, ghost size: int, ghost align: int)
    requires h.Valid() && align > 0 && b in Live(h.layout) && Tagged(h, b, p, size, align)
    modifies h
    ensures h.Valid() && Live(h.layout) == old(Live(h.layout)) - {b}
  {
    var word := LoadWord(h.data[..], p - 4);
    var payload := word - h.base;
    LiveMember(h.layout, b);
    ghost var k :| 0 <= k < |h.layout| && h.layout[k] == b;
    SameBlock(h.layout, h.layout[BlockAt(h.layout, payload, HS)], b, h.End(), HS);
    h.Free(At(payload));
  }
}
