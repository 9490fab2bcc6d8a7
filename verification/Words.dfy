/** 32-bit machine words and the alignment macros of rtdef.h, wrap-around included. */
module Words {

  const WORD_RANGE := 0x1_0000_0000

  /** rt_size_t, rt_ubase_t and rt_uint32_t on the 32-bit target. */
  type Word = x: int | 0 <= x < WORD_RANGE

  type Byte = x: int | 0 <= x < 256

  /** A heap pointer, as the offset from the first byte the allocator manages. */
  datatype Ptr = Null | At(off: int)

  function Max(a: int, b: int): int
  {
    if a < b then b else a
  }

  /** The sum of two words. */
  function Plus(a: Word, b: Word): Word
  {
    if a + b < WORD_RANGE then a + b else a + b - WORD_RANGE
  }

  /** RT_ALIGN(x, RT_ALIGN_SIZE): the addition is done modulo the word size. */
  function AlignUp(x: Word): Word
  {
    var sum := (x + 3) % WORD_RANGE;
    sum - sum % 4
  }

  function AlignDown(x: Word): Word
  {
    x - x % 4
  }

  /** RT_ALIGN rounds up to a multiple of 4 exactly when it does not wrap; on the last three words
      it yields 0. */
  lemma AlignUpExact(x: Word)
    ensures AlignUp(x) % 4 == 0
    ensures x <= AlignUp(x) <==> x <= WORD_RANGE - 4
    ensures x <= WORD_RANGE - 4 ==> AlignUp(x) < x + 4
    ensures x > WORD_RANGE - 4 ==> AlignUp(x) == 0
  {
  }

  lemma AlignedStays(x: Word)
    requires x % 4 == 0 && x <= WORD_RANGE - 4
    ensures AlignUp(x) == x
  {
    AlignUpExact(x);
  }
}
