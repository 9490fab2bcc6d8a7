/** The bitwise operators of the code, on numbers. */
module Bits {
  import opened Words

  function And(x: nat, y: nat): nat
    decreases x
  {
    if x == 0 then 0 else 2 * And(x / 2, y / 2) + if x % 2 == 1 && y % 2 == 1 then 1 else 0
  }

  predicate PowerOfTwo(x: int)
  {
    x == 1 || (x > 1 && x % 2 == 0 && PowerOfTwo(x / 2))
  }

  function Power(k: nat): (p: nat)
    ensures p >= 1
  {
    if k == 0 then 1 else 2 * Power(k - 1)
  }

  function Exponent(x: int): (k: nat)
    requires PowerOfTwo(x)
    ensures Power(k) == x
    decreases x
  {
    if x == 1 then 0 else 1 + Exponent(x / 2)
  }

  /** The last `k` bits. */
  function Low(x: nat, k: nat): nat
  {
    if k == 0 then 0 else 2 * Low(x / 2, k - 1) + x % 2
  }

  lemma {:induction false} LowMask(x: nat, k: nat)
    ensures And(x, Power(k) - 1) == Low(x, k)
    decreases k
  {
    if k == 0 {
      AndZero(x);
    } else {
      LowMask(x / 2, k - 1);
      var p := Power(k - 1);
      assert (2 * p - 1) / 2 == p - 1 && (2 * p - 1) % 2 == 1;
      if x == 0 { LowZero(k); }
    }
  }

  lemma {:induction false} AndZero(x: nat)
    ensures And(x, 0) == 0
    decreases x
  {
    if x > 0 { AndZero(x / 2); }
  }

  lemma {:induction false} LowZero(k: nat)
    ensures Low(0, k) == 0
  {
    if k > 0 { LowZero(k - 1); }
  }

  lemma {:induction false} HighMask(x: nat, k: nat, w: nat, mask: nat)
    requires k <= w && x < Power(w) && mask == Power(w) - Power(k)
    ensures And(x, mask) == x - Low(x, k)
    decreases w
  {
    if x == 0 {
      LowZero(k);
    } else if k == 0 {
      HighMask(x / 2, 0, w - 1, mask / 2);
    } else {
      HighMask(x / 2, k - 1, w - 1, mask / 2);
    }
  }

  lemma {:induction false} PowerGrows(k: nat, w: nat)
    requires k <= w
    ensures Power(k) <= Power(w)
    decreases w
  {
    if k < w { PowerGrows(k, w - 1); }
  }

  lemma WordPower()
    ensures Power(32) == WORD_RANGE
  {
    assert Power(8) == 0x100;
    assert Power(16) == 0x1_0000;
    assert Power(24) == 0x100_0000;
  }

  lemma {:induction false} LowIsRemainder(x: nat, k: nat) returns (q: nat)
    ensures x == q * Power(k) + Low(x, k) && Low(x, k) < Power(k)
    decreases k
  {
    if k == 0 {
      q := x;
    } else {
      q := LowIsRemainder(x / 2, k - 1);
      assert 2 * (q * Power(k - 1)) == q * Power(k);
    }
  }

  lemma RemainderOf(q: int, r: int, d: int)
    requires 0 <= r < d
    ensures (q * d + r) % d == r
  {
    var x := q * d + r;
    var e := q - x / d;
    assert e * d == x % d - r;
    assert (e >= 1 ==> e * d >= d) && (e <= -1 ==> e * d <= -d);
  }

  /** x & (a - 1) is the remainder by a power of two. */
  lemma MaskOff(x: Word, a: Word)
    requires PowerOfTwo(a)
    ensures And(x, a - 1) == x % a
  {
    var k := Exponent(a);
    var q := LowIsRemainder(x, k);
    RemainderOf(q, Low(x, k), a);
    LowMask(x, k);
  }

  /** x & ~(a - 1) takes it away. */
  lemma MaskOut(x: Word, a: Word)
    requires PowerOfTwo(a)
    ensures And(x, WORD_RANGE - a) == x - x % a
  {
    var k := Exponent(a);
    var q := LowIsRemainder(x, k);
    RemainderOf(q, Low(x, k), a);
    WordPower();
    if k > 32 { PowerGrows(32, k); }
    HighMask(x, k, 32, WORD_RANGE - a);
  }

  /** RT_ALIGN and RT_ALIGN_DOWN as they are written. */
  lemma AlignByMask(x: Word)
    ensures AlignUp(x) == And((x + 3) % WORD_RANGE, WORD_RANGE - 4)
    ensures AlignDown(x) == And(x, WORD_RANGE - 4)
  {
    assert PowerOfTwo(2) && PowerOfTwo(4);
    MaskOut((x + 3) % WORD_RANGE, 4);
    MaskOut(x, 4);
  }
}
