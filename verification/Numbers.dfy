/** How kservice.c writes and reads numbers. */
module Numbers {
  /** The digit tables. */
  function DigitChar(d: nat, large: bool): char
    requires d < 16
  {
    if large then "0123456789ABCDEF"[d] else "0123456789abcdef"[d]
  }

  predicate IsDigit(c: char)
  {
    '0' <= c <= '9'
  }

  /** The value of a digit of either table. */
  function DigitValue(c: char): nat
  {
    if IsDigit(c) then c as nat - '0' as nat
    else if 'a' <= c <= 'f' then c as nat - 'a' as nat + 10
    else if 'A' <= c <= 'F' then c as nat - 'A' as nat + 10
    else 0
  }

  lemma DigitCharValue(d: nat, large: bool)
    requires d < 16
    ensures DigitValue(DigitChar(d, large)) == d && (d < 10 <==> IsDigit(DigitChar(d, large)))
  {
  }

  /** divide knows the bases 10 and 16; every other base divides by 16. */
  function Radix(base: nat): nat
  {
    if base == 10 then 10 else 16
  }

  /** divide: the last digit, and what is before it. */
  method Divide(n: nat, base: nat) returns (res: nat, n': nat)
    ensures res == n % Radix(base) < 16 && n' == n / Radix(base)
  {
    if base == 10 {
      res := n % 10;
      n' := n / 10;
    } else {
      res := n % 16;
      n' := n / 16;
    }
  }

  /** The digits of `n`, most significant first and at least one. */
  function Digits(n: nat, base: nat, large: bool): string
  {
    var radix := Radix(base);
    if n < radix then [DigitChar(n, large)] else Digits(n / radix, base, large) + [DigitChar(n % radix, large)]
  }

  lemma ZeroDigit(base: nat, large: bool)
    ensures Digits(0, base, large) == ['0']
  {
  }

  lemma LastDigit(n: nat, base: nat, large: bool)
    requires n > 0
    ensures var ds, rest := Digits(n, base, large), n / Radix(base);
            && rest < n && ds != [] && ds[|ds| - 1] == DigitChar(n % Radix(base), large)
            && ds[..|ds| - 1] == if rest > 0 then Digits(rest, base, large) else []
  {
    if n < Radix(base) {
      assert n / Radix(base) == 0 && n % Radix(base) == n;
    } else {
      assert n / Radix(base) > 0;
    }
  }

  /** The number that a digit string writes in a radix. */
  function Value(s: string, radix: nat): nat
  {
    if s == [] then 0 else radix * Value(s[..|s| - 1], radix) + DigitValue(s[|s| - 1])
  }

  /** The digits written mean the number. */
  lemma {:induction false} DigitsMean(n: nat, base: nat, large: bool)
    ensures Value(Digits(n, base, large), Radix(base)) == n
    decreases n
  {
    hide DigitChar, DigitValue, Value;
    var radix := Radix(base);
    if n < radix {
      NoDigits(radix);
      ValueAppend([], DigitChar(n, large), radix);
      assert [] + [DigitChar(n, large)] == [DigitChar(n, large)];
      DigitCharValue(n, large);
    } else {
      DigitsMean(n / radix, base, large);
      ValueAppend(Digits(n / radix, base, large), DigitChar(n % radix, large), radix);
      DigitCharValue(n % radix, large);
      Recompose(n, radix);
    }
  }

  lemma NoDigits(radix: nat)
    ensures Value([], radix) == 0
  {
  }

  lemma Recompose(n: nat, radix: nat)
    requires radix == 10 || radix == 16
    ensures radix * (n / radix) + n % radix == n
  {
  }

  lemma ValueAppend(s: string, c: char, radix: nat)
    ensures Value(s + [c], radix) == radix * Value(s, radix) + DigitValue(c)
  {
    assert (s + [c])[..|s|] == s;
  }

  lemma {:induction false} DecimalDigits(n: nat, large: bool)
    ensures forall k :: 0 <= k < |Digits(n, 10, large)| ==> IsDigit(Digits(n, 10, large)[k])
    decreases n
  {
    DigitCharValue(n % 10, large);
    if n >= 10 { DecimalDigits(n / 10, large); }
  }

  /** A 32-bit number has at most ten digits, so the 16 characters of print_number hold them. */
  lemma {:induction false} FewDigits(n: nat, base: nat, large: bool, k: nat, bound: nat)
    requires n < bound && bound == Power(10, k) && k >= 1
    ensures 1 <= |Digits(n, base, large)| <= k
    decreases k
  {
    var radix := Radix(base);
    if n >= radix {
      var p := Power(10, k - 1);
      assert n < 10 * p && (radix == 10 ==> n / 10 < p) && (radix == 16 ==> n / 16 < p);
      FewDigits(n / radix, base, large, k - 1, p);
    }
  }

  function Power(b: nat, k: nat): nat
  {
    if k == 0 then 1 else b * Power(b, k - 1)
  }

  /** Where the run of digits from `i` on ends. */
  function RunEnd(s: string, i: nat): (j: nat)
    requires i <= |s|
    ensures i <= j <= |s| && (forall k :: i <= k < j ==> IsDigit(s[k])) && (j < |s| ==> !IsDigit(s[j]))
    decreases |s| - i
  {
    if i < |s| && IsDigit(s[i]) then RunEnd(s, i + 1) else i
  }

  /** skip_atoi: the value of the digits at `start`, and where they end. */
  method SkipAtoi(s: string, start: nat) returns (v: nat, next: nat)
    requires start <= |s|
    ensures next == RunEnd(s, start) && v == Value(s[start..next], 10)
  {
    hide Value;
    v, next := 0, start;
    NoDigits(10);
    assert s[start..start] == [];
    while next < |s| && IsDigit(s[next])
      invariant start <= next <= |s| && RunEnd(s, next) == RunEnd(s, start)
      invariant v == Value(s[start..next], 10)
    {
      ValueAppend(s[start..next], s[next], 10);
      assert s[start..next + 1] == s[start..next] + [s[next]];
      v := v * 10 + (s[next] as nat - '0' as nat);
      next := next + 1;
    }
  }

  lemma {:induction false} RunToEnd(s: string, i: nat)
    requires i <= |s| && forall k :: 0 <= k < |s| ==> IsDigit(s[k])
    ensures RunEnd(s, i) == |s|
    decreases |s| - i
  {
    if i < |s| { RunToEnd(s, i + 1); }
  }

  /** What is written in decimal is read back by skip_atoi, all of it. */
  lemma DecimalRoundTrip(n: nat, large: bool)
    ensures var s := Digits(n, 10, large); RunEnd(s, 0) == |s| && Value(s[0..|s|], 10) == n
  {
    var s := Digits(n, 10, large);
    DigitsMean(n, 10, large);
    DecimalDigits(n, large);
    RunToEnd(s, 0);
    assert s[0..|s|] == s;
  }

  lemma {:induction false} ValueGrows(s: string, start: nat, j: nat, next: nat)
    requires start <= j <= next <= |s|
    ensures Value(s[start..j], 10) <= Value(s[start..next], 10)
    decreases next
  {
    hide Value;
    if j < next {
      ValueGrows(s, start, j, next - 1);
      ValueAppend(s[start..next - 1], s[next - 1], 10);
      assert s[start..next] == s[start..next - 1] + [s[next - 1]];
    }
  }

  /** The largest number that skip_atoi forms at `j`: it adds the character and then takes '0' off. */
  function AtoiSum(s: string, start: nat, j: nat): nat
    requires start <= j < |s|
  {
    10 * Value(s[start..j], 10) + s[j] as nat
  }

  lemma AtoiSumIs(s: string, start: nat, j: nat, next: nat)
    requires start <= j < next <= |s| && IsDigit(s[j])
    ensures AtoiSum(s, start, j) <= Value(s[start..next], 10) + 48
    ensures j + 1 == next ==> AtoiSum(s, start, j) == Value(s[start..next], 10) + 48
  {
    ValueAppend(s[start..j], s[j], 10);
    assert s[start..j + 1] == s[start..j] + [s[j]];
    ValueGrows(s, start, j + 1, next);
  }

  /** An int holds all of them if and only if it holds the value and '0' on top. */
  lemma AtoiFitsExact(s: string, start: nat, next: nat)
    requires start < next <= |s| && next == RunEnd(s, start)
    ensures (forall j :: start <= j < next ==> AtoiSum(s, start, j) < 0x8000_0000)
       <==> Value(s[start..next], 10) + 48 < 0x8000_0000
  {
    forall j | start <= j < next ensures AtoiSum(s, start, j) <= Value(s[start..next], 10) + 48 {
      AtoiSumIs(s, start, j, next);
    }
    AtoiSumIs(s, start, next - 1, next);
  }

  /** `s` writes `n` in octal. */
  predicate IsOctal(s: string, n: nat)
  {
    (forall k :: 0 <= k < |s| ==> '0' <= s[k] <= '7') && Value(s, 8) == n
  }

  lemma {:induction false} OctalSmaller(n: nat, large: bool)
    ensures Value(Digits(n, 8, large), 8) <= n
    ensures n >= 16 ==> Value(Digits(n, 8, large), 8) < n
    decreases n
  {
    hide DigitValue, DigitChar;
    DigitCharValue(n % 16, large);
    if n < 16 {
      ValueAppend([], DigitChar(n, large), 8);
    } else {
      OctalSmaller(n / 16, large);
      ValueAppend(Digits(n / 16, 8, large), DigitChar(n % 16, large), 8);
    }
  }

  /** The digits for base 8 are right if and only if there is one and it is below 8. */
  lemma OctalExact(n: nat, large: bool)
    ensures IsOctal(Digits(n, 8, large), n) <==> n < 8
  {
    var s := Digits(n, 8, large);
    OctalSmaller(n, large);
    if n < 16 {
      DigitCharValue(n, large);
      ValueAppend([], DigitChar(n, large), 8);
      assert s == [DigitChar(n, large)] == [] + s;
      assert n >= 8 ==> s[0] > '7';
    }
  }

  /** An octal conversion writes hexadecimal digits. */
  lemma {:induction false} OctalIsHexadecimal(n: nat, large: bool)
    ensures Digits(n, 8, large) == Digits(n, 16, large)
    decreases n
  {
    if n >= 16 { OctalIsHexadecimal(n / 16, large); }
  }
}
