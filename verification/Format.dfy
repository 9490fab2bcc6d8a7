/** rt_vsnprintf of kservice.c, as configured: with precision, without long long and without the 0x prefix.  Arguments
    are 32-bit words, and `cstr` is the string a word points to. */
module Format {
  import opened Words
  import opened Numbers

  datatype Flags = Flags(zero: bool, sign: bool, plus: bool, space: bool, left: bool, special: bool, large: bool)

  const HALF := 0x8000_0000

  /** A word read as int. */
  function Signed(w: Word): int
  {
    if w < HALF then w else w - WORD_RANGE
  }

  function Repeat(c: char, n: int): string
  {
    seq(if n > 0 then n else 0, _ => c)
  }

  // ----- the text of a number -----

  function SignText(num: Word, f: Flags): string
  {
    if !f.sign then "" else if num >= HALF then "-" else if f.plus then "+" else if f.space then " " else ""
  }

  function Magnitude(num: Word, f: Flags): Word
  {
    if f.sign && num >= HALF then WORD_RANGE - num else num
  }

  /** The digits and the zeros that make up the precision.  A precision of 0 shows no digits. */
  function ShownText(precision: int, digits: string): string
  {
    Repeat('0', precision - |digits|) + if precision == 0 then "" else digits
  }

  /** A sign and a text with `pad` characters of padding. */
  function Framed(pad: int, sign: string, shown: string, zero: bool, left: bool): string
  {
    if left then sign + shown + Repeat(' ', pad)
    else if zero then sign + Repeat('0', pad) + shown
    else Repeat(' ', pad) + sign + shown
  }

  /** The text of a number; digits that are not shown still count for the width. */
  function NumberText(num: Word, base: nat, width: int, precision: int, f: Flags): string
  {
    var sign, digits := SignText(num, f), Digits(Magnitude(num, f), base, f.large);
    Framed(width - |sign| - Max(precision, |digits|), sign, ShownText(precision, digits), f.zero, f.left)
  }

  /** The width is a minimum and the precision a minimum number of digits, if and only if the precision is not 0; then
      the text is short of that by the digits that are not shown. */
  lemma NumberLength(num: Word, base: nat, width: int, precision: int, f: Flags)
    ensures var digits, n := Digits(Magnitude(num, f), base, f.large), |NumberText(num, base, width, precision, f)|;
            var least := Max(width, |SignText(num, f)| + Max(precision, |digits|));
            && (n == least <==> precision != 0)
            && (precision == 0 ==> n == least - |digits|)
  {
  }

  // ----- bounded output -----

  /** `now` is what a buffer of contents `was` shows when `out` was written to it from the start, as far as it fits
      below `end`. */
  ghost predicate Shows(now: seq<char>, was: seq<char>, end: nat, out: string)
  {
    && |now| == |was| && end <= |now|
    && forall i :: 0 <= i < |now| ==> now[i] == if i < end && i < |out| then out[i] else was[i]
  }

  /** The step all output is made of. */
  method Put(buf: array<char>, end: nat, str: nat, c: char, ghost was: seq<char>, ghost out: string)
    returns (str': nat)
    requires Shows(buf[..], was, end, out) && str == |out|
    modifies buf
    ensures Shows(buf[..], was, end, out + [c]) && str' == str + 1
  {
    ghost var b := buf[..];
    if str < end {
      buf[str] := c;
      assert buf[..] == b[str := c];
    }
    str' := str + 1;
  }

  /** Padding; `n'` is what the counter is left at. */
  method Pad(buf: array<char>, end: nat, str: nat, c: char, n: int, ghost was: seq<char>, ghost out: string)
    returns (str': nat, n': int)
    requires Shows(buf[..], was, end, out) && str == |out|
    modifies buf
    ensures Shows(buf[..], was, end, out + Repeat(c, n)) && str' == str + |Repeat(c, n)|
    ensures n' == if n > 0 then -1 else n - 1
  {
    str', n' := str, n;
    assert out + Repeat(c, 0) == out;
    while n' > 0
      invariant n > 0 ==> 0 <= n' <= n
      invariant n <= 0 ==> n' == n
      invariant Shows(buf[..], was, end, out + Repeat(c, n - n')) && str' == str + n - n'
    {
      str' := Put(buf, end, str', c, was, out + Repeat(c, n - n'));
      assert out + Repeat(c, n - n') + [c] == out + Repeat(c, n - (n' - 1));
      n' := n' - 1;
    }
    assert n <= 0 ==> Repeat(c, n) == Repeat(c, 0);
    n' := n' - 1;
  }

  /** The digits of a number, least significant first. */
  method ToDigits(num: Word, base: nat, large: bool) returns (tmp: array<char>, i: nat)
    ensures fresh(tmp) && i <= tmp.Length == 16 && i == |Digits(num, base, large)|
    ensures forall k :: 0 <= k < i ==> tmp[k] == Digits(num, base, large)[i - 1 - k]
  {
    hide DigitChar, Digits, Radix;
    tmp := new char[16];
    i := 0;
    ghost var all := Digits(num, base, large);
    FewDigits(num, base, large, 10, 10_000_000_000);
    if num == 0 {
      ZeroDigit(base, large);
      tmp[i] := '0';
      i := i + 1;
    } else {
      var rest: nat, res := num, 0;
      ghost var ahead := all;
      while rest != 0
        invariant i + |ahead| == |all| && all[..|ahead|] == ahead
        invariant ahead == if rest > 0 then Digits(rest, base, large) else []
        invariant forall k :: 0 <= k < i ==> tmp[k] == all[|all| - 1 - k]
        decreases rest
      {
        LastDigit(rest, base, large);
        res, rest := Divide(rest, base);
        assert all[|ahead| - 1] == ahead[|ahead| - 1] == DigitChar(res, large);
        assert |ahead| - 1 == |all| - 1 - i;
        tmp[i] := DigitChar(res, large);
        i := i + 1;
        ahead := ahead[..|ahead| - 1];
        assert all[..|ahead|] == ahead;
      }
    }
  }

  /** The zeros that make up the precision, and the digits in reading order unless the precision is 0. */
  method PutShown(buf: array<char>, end: nat, str: nat, tmp: array<char>, count: nat, precision: int,
                  ghost digits: string, ghost was: seq<char>, ghost out: string) returns (str': nat)
    requires Shows(buf[..], was, end, out) && str == |out| && buf != tmp
    requires count == |digits| <= tmp.Length && forall k :: 0 <= k < count ==> tmp[k] == digits[count - 1 - k]
    modifies buf
    ensures var text := ShownText(precision, digits);
            Shows(buf[..], was, end, out + text) && str' == str + |text|
  {
    var i := count;
    str', i := Pad(buf, end, str, '0', precision - count, was, out);
    ghost var out' := out + Repeat('0', precision - count);
    i := count;
    assert out' + digits[..0] == out';
    while i > 0 && precision != 0
      invariant 0 <= i <= count && (precision == 0 ==> i == count)
      invariant Shows(buf[..], was, end, out' + digits[..count - i]) && str' == |out'| + count - i
      invariant forall k :: 0 <= k < count ==> tmp[k] == digits[count - 1 - k]
    {
      i := i - 1;
      str' := Put(buf, end, str', tmp[i], was, out' + digits[..count - i - 1]);
      assert out' + digits[..count - i - 1] + [digits[count - 1 - i]] == out' + digits[..count - i];
    }
    ghost var shown := if precision == 0 then "" else digits;
    assert digits[..count - i] == shown;
    assert out' + shown == out + (Repeat('0', precision - count) + shown);
  }

  /** What print_number counts its padding down to before the sign. */
  function Plain(size: int, sign: string): int
  {
    if sign != "" && size > 0 then size - 1 else size
  }

  /** What is left of `size` behind the sign. */
  function Behind(size: int, sign: string, zero: bool, left: bool): int
  {
    (if zero || left then size else if Plain(size, sign) > 0 then -1 else Plain(size, sign) - 1) - |sign|
  }

  /** What print_number writes before the digits: padding, sign, padding. */
  function Lead(size: int, sign: string, zero: bool, left: bool): string
  {
    Repeat(' ', if zero || left then 0 else Plain(size, sign)) + sign
    + Repeat(if zero then '0' else ' ', if left then 0 else Behind(size, sign, zero, left))
  }

  /** With what print_number writes after the digits, they make up the text. */
  lemma LeadMakesText(size: int, sign: string, shown: string, zero: bool, left: bool)
    requires |sign| <= 1 && !(zero && left)
    ensures Framed(size - |sign|, sign, shown, zero, left)
         == Lead(size, sign, zero, left) + shown + Repeat(' ', if left then Behind(size, sign, zero, left) else 0)
  {
    var pad, lead := size - |sign|, Lead(size, sign, zero, left);
    if left {
      assert lead == sign;
    } else if zero {
      assert lead == sign + Repeat('0', pad);
      assert lead + shown + Repeat(' ', 0) == lead + shown;
    } else {
      assert Repeat(' ', Plain(size, sign)) == Repeat(' ', pad);
      assert Repeat(' ', Behind(size, sign, zero, left)) == [];
      assert lead == Repeat(' ', pad) + sign;
      assert lead + shown + Repeat(' ', 0) == lead + shown;
    }
  }

  /** What print_number writes after the digits. */
  function TailText(size: int, sign: string, zero: bool, left: bool): string
  {
    Repeat(' ', if left then Behind(size, sign, zero, left) else 0)
  }

  lemma TextIs(num: Word, base: nat, s: int, precision: int, f: Flags, size: int)
    requires size == s - Max(precision, |Digits(Magnitude(num, f), base, f.large)|)
    ensures var sign, zero := SignText(num, f), f.zero && !f.left;
            var shown := ShownText(precision, Digits(Magnitude(num, f), base, f.large));
            Lead(size, sign, zero, f.left) + shown + TailText(size, sign, zero, f.left)
            == NumberText(num, base, s, precision, f)
  {
    hide Lead, Behind, ShownText, Repeat, Digits;
    var sign, zero := SignText(num, f), f.zero && !f.left;
    var shown := ShownText(precision, Digits(Magnitude(num, f), base, f.large));
    LeadMakesText(size, sign, shown, zero, f.left);
    assert Framed(size - |sign|, sign, shown, zero, f.left) == Framed(size - |sign|, sign, shown, f.zero, f.left);
  }

  lemma Regroup(o: string, a: string, b: string, c: string)
    ensures o + a + b + c == o + (a + b + c)
  {
  }

  /** The sign character, or a null character, and the number without it. */
  method GetSign(num: Word, f: Flags) returns (sign: char, abs: Word)
    ensures SignText(num, f) == if sign == '\0' then "" else [sign]
    ensures abs == Magnitude(num, f)
  {
    sign, abs := '\0', num;
    if f.sign {
      if num >= HALF {
        sign, abs := '-', WORD_RANGE - num;
      } else if f.plus {
        sign := '+';
      } else if f.space {
        sign := ' ';
      }
    }
  }

  /** The part of print_number before the digits; `n` is what its counter is left at. */
  method PutLead(buf: array<char>, end: nat, str: nat, size: int, sign: char, zero: bool, left: bool,
                 ghost was: seq<char>, ghost out: string) returns (str': nat, n: int)
    requires Shows(buf[..], was, end, out) && str == |out|
    modifies buf
    ensures var signText := if sign == '\0' then "" else [sign];
            var text := Lead(size, signText, zero, left);
            && Shows(buf[..], was, end, out + text) && str' == str + |text|
            && Repeat(' ', n) == TailText(size, signText, zero, left)
  {
    ghost var signText := if sign == '\0' then "" else [sign];
    str', n := str, size;
    if !(zero || left) {
      if sign != '\0' && n > 0 {
        n := n - 1;
      }
      str', n := Pad(buf, end, str', ' ', n, was, out);
    }
    ghost var out1 := out + Repeat(' ', if zero || left then 0 else Plain(size, signText));
    assert zero || left ==> out1 == out;
    if sign != '\0' {
      str' := Put(buf, end, str', sign, was, out1);
      n := n - 1;
    }
    ghost var out2 := out1 + signText;
    assert sign == '\0' ==> out2 == out1;
    ghost var m := n;
    if !left {
      str', n := Pad(buf, end, str', if zero then '0' else ' ', n, was, out2);
    }
    assert m == Behind(size, signText, zero, left);
    ghost var out3 := out2 + Repeat(if zero then '0' else ' ', if left then 0 else m);
    assert left ==> out3 == out2;
    assert out3 == out + Lead(size, signText, zero, left);
    assert !left ==> Repeat(' ', n) == Repeat(' ', 0);
  }

  /** print_number. */
  method PrintNumber(buf: array<char>, end: nat, str: nat, num: Word, base: nat, s: int, precision: int, f: Flags,
                     ghost was: seq<char>, ghost out: string) returns (str': nat)
    requires Shows(buf[..], was, end, out) && str == |out|
    modifies buf
    ensures var text := NumberText(num, base, s, precision, f);
            Shows(buf[..], was, end, out + text) && str' == str + |text|
  {
    hide Shows, Lead, Behind, ShownText, SignText, Magnitude, NumberText, Repeat, Digits;
    var zero := f.zero && !f.left;
    var sign, abs := GetSign(num, f);
    var tmp, i := ToDigits(abs, base, f.large);
    ghost var digits := Digits(abs, base, f.large);
    ghost var shown := ShownText(precision, digits);
    var size := s - if i > precision then i else precision;
    ghost var lead := Lead(size, SignText(num, f), zero, f.left);
    ghost var tail := TailText(size, SignText(num, f), zero, f.left);
    TextIs(num, base, s, precision, f, size);
    var rest;
    str', rest := PutLead(buf, end, str, size, sign, zero, f.left, was, out);
    str' := PutShown(buf, end, str', tmp, i, precision, digits, was, out + lead);
    str', rest := Pad(buf, end, str', ' ', rest, was, out + lead + shown);
    Regroup(out, lead, shown, tail);
  }

  // ----- conversion specifications -----

  /** What is behind a '%': flags, width, precision and qualifier, where the conversion character is, and how many
      arguments were used up. */
  datatype Spec = Spec(f: Flags, width: int, precision: int, qualifier: char, at: nat, a: nat)

  const NO_FLAGS := Flags(false, false, false, false, false, false, false)

  /** A format ends in a null character. */
  function At(fmt: string, i: nat): char
  {
    if i < |fmt| then fmt[i] else '\0'
  }

  function WithFlag(f: Flags, c: char): Flags
  {
    match c
    case '-' => f.(left := true)
    case '+' => f.(plus := true)
    case ' ' => f.(space := true)
    case '#' => f.(special := true)
    case '0' => f.(zero := true)
    case _ => f
  }

  predicate IsFlag(c: char)
  {
    c == '-' || c == '+' || c == ' ' || c == '#' || c == '0'
  }

  /** The flags from `i` on, and where they end. */
  function FlagsAt(fmt: string, i: nat, f: Flags): (r: (Flags, nat))
    requires i <= |fmt|
    ensures i <= r.1 <= |fmt|
    decreases |fmt| - i
  {
    if i < |fmt| && IsFlag(fmt[i]) then FlagsAt(fmt, i + 1, WithFlag(f, fmt[i])) else (f, i)
  }

  /** The width at `sp.at`, from the format or from an argument; a negative argument also sets the '-' flag. */
  function WithWidth(fmt: string, sp: Spec, args: nat -> Word): (r: Spec)
    requires sp.at <= |fmt|
    ensures sp.at <= r.at <= |fmt|
  {
    var c := At(fmt, sp.at);
    if IsDigit(c) then sp.(width := Value(fmt[sp.at..RunEnd(fmt, sp.at)], 10), at := RunEnd(fmt, sp.at))
    else if c == '*' then
      var w := Signed(args(sp.a));
      sp.(width := if w < 0 then -w else w, f := if w < 0 then sp.f.(left := true) else sp.f, at := sp.at + 1, a := sp.a + 1)
    else sp
  }

  function WithPrecision(fmt: string, sp: Spec, args: nat -> Word): (r: Spec)
    requires sp.at <= |fmt|
    ensures sp.at <= r.at <= |fmt|
  {
    if At(fmt, sp.at) != '.' then sp
    else
      var i := sp.at + 1;
      var c := At(fmt, i);
      if IsDigit(c) then sp.(precision := Value(fmt[i..RunEnd(fmt, i)], 10), at := RunEnd(fmt, i))
      else if c == '*' then
        var p := Signed(args(sp.a));
        sp.(precision := if p < 0 then 0 else p, at := i + 1, a := sp.a + 1)
      else sp.(precision := 0, at := i)
  }

  function WithQualifier(fmt: string, sp: Spec): (r: Spec)
    requires sp.at <= |fmt|
    ensures sp.at <= r.at <= |fmt|
  {
    var c := At(fmt, sp.at);
    if c == 'h' || c == 'l' then sp.(qualifier := c, at := sp.at + 1) else sp
  }

  /** The specification behind the '%' at `i`. */
  function SpecAt(fmt: string, i: nat, args: nat -> Word, a: nat): (r: Spec)
    requires i < |fmt|
    ensures i < r.at <= |fmt|
  {
    var (f, at) := FlagsAt(fmt, i + 1, NO_FLAGS);
    WithQualifier(fmt, WithPrecision(fmt, WithWidth(fmt, Spec(f, -1, -1, '\0', at, a), args), args))
  }

  method ParseWidth(fmt: string, sp: Spec, args: nat -> Word) returns (r: Spec)
    requires sp.at <= |fmt|
    ensures r == WithWidth(fmt, sp, args)
  {
    r := sp;
    if IsDigit(At(fmt, r.at)) {
      var v, next := SkipAtoi(fmt, r.at);
      r := r.(width := v, at := next);
    } else if At(fmt, r.at) == '*' {
      var w := Signed(args(r.a));
      r := r.(width := w, at := r.at + 1, a := r.a + 1);
      if r.width < 0 {
        r := r.(width := -w, f := r.f.(left := true));
      }
    }
  }

  method ParsePrecision(fmt: string, sp: Spec, args: nat -> Word) returns (r: Spec)
    requires sp.at <= |fmt| && sp.precision == -1
    ensures r == WithPrecision(fmt, sp, args)
  {
    r := sp;
    if At(fmt, r.at) == '.' {
      r := r.(at := r.at + 1);
      if IsDigit(At(fmt, r.at)) {
        var v, next := SkipAtoi(fmt, r.at);
        r := r.(precision := v, at := next);
      } else if At(fmt, r.at) == '*' {
        r := r.(precision := Signed(args(r.a)), at := r.at + 1, a := r.a + 1);
      }
      if r.precision < 0 {
        r := r.(precision := 0);
      }
    }
  }

  /** The head of a round of rt_vsnprintf at a '%'. */
  method ParseSpec(fmt: string, i: nat, args: nat -> Word, a: nat) returns (sp: Spec)
    requires i < |fmt|
    ensures sp == SpecAt(fmt, i, args, a)
  {
    var f, at := NO_FLAGS, i + 1;
    while at < |fmt| && IsFlag(fmt[at])
      invariant at <= |fmt| && FlagsAt(fmt, at, f) == FlagsAt(fmt, i + 1, NO_FLAGS)
    {
      f := WithFlag(f, fmt[at]);
      at := at + 1;
    }
    sp := ParseWidth(fmt, Spec(f, -1, -1, '\0', at, a), args);
    sp := ParsePrecision(fmt, sp, args);
    if At(fmt, sp.at) == 'h' || At(fmt, sp.at) == 'l' {
      sp := sp.(qualifier := At(fmt, sp.at), at := sp.at + 1);
    }
  }

  // ----- conversions -----

  /** A text in a field of at least `width` characters. */
  function Field(text: string, width: int, left: bool): string
  {
    if left then text + Repeat(' ', width - |text|) else Repeat(' ', width - |text|) + text
  }

  /** The string argument, cut to a positive precision. */
  function StringArg(w: Word, precision: int, cstr: Word -> string): string
  {
    var s := if w == 0 then "(NULL)" else cstr(w);
    if precision > 0 && |s| > precision then s[..precision] else s
  }

  /** An integer argument as print_number gets it: a short is cut to 16 bits and sign-extended if it is signed. */
  function Fetched(w: Word, qualifier: char, signed: bool): Word
  {
    if qualifier != 'h' then w
    else if signed && w % 0x1_0000 >= 0x8000 then w % 0x1_0000 + WORD_RANGE - 0x1_0000
    else w % 0x1_0000
  }

  /** The base of an integer conversion and the flags it adds. */
  function NumberStyle(c: char, f: Flags): (nat, Flags)
  {
    match c
    case 'o' => (8, f)
    case 'X' => (16, f.(large := true))
    case 'x' => (16, f)
    case 'd' => (10, f.(sign := true))
    case 'i' => (10, f.(sign := true))
    case _ => (10, f)
  }

  predicate IsInteger(c: char)
  {
    c == 'o' || c == 'X' || c == 'x' || c == 'd' || c == 'i' || c == 'u'
  }

  /** A conversion's text, where the format goes on, and the next argument. */
  datatype Conversion = Conversion(text: string, next: nat, a: nat)

  function Converted(fmt: string, sp: Spec, args: nat -> Word, cstr: Word -> string): (r: Conversion)
    requires sp.at <= |fmt|
    ensures sp.at <= r.next <= |fmt|
  {
    var c, w, next := At(fmt, sp.at), args(sp.a), sp.at + 1;
    if c == 'c' then Conversion(Field([(w % 256) as char], sp.width, sp.f.left), next, sp.a + 1)
    else if c == 's' then Conversion(Field(StringArg(w, sp.precision, cstr), sp.width, sp.f.left), next, sp.a + 1)
    else if c == 'p' then
      if sp.width == -1 then Conversion(NumberText(w, 16, 8, sp.precision, sp.f.(zero := true)), next, sp.a + 1)
      else Conversion(NumberText(w, 16, sp.width, sp.precision, sp.f), next, sp.a + 1)
    else if c == '%' then Conversion("%", next, sp.a)
    else if IsInteger(c) then
      var (base, f) := NumberStyle(c, sp.f);
      Conversion(NumberText(Fetched(w, sp.qualifier, f.sign), base, sp.width, sp.precision, f), next, sp.a + 1)
    else if sp.at < |fmt| && c != '\0' then Conversion("%" + [c], next, sp.a)
    else Conversion("%", sp.at, sp.a)
  }

  /** All that the format writes from `i` on, with no bound. */
  function Output(fmt: string, i: nat, args: nat -> Word, a: nat, cstr: Word -> string): string
    requires i <= |fmt|
    decreases |fmt| - i
  {
    if At(fmt, i) == '\0' then ""
    else if fmt[i] != '%' then [fmt[i]] + Output(fmt, i + 1, args, a, cstr)
    else
      var r := Converted(fmt, SpecAt(fmt, i, args, a), args, cstr);
      r.text + Output(fmt, r.next, args, r.a, cstr)
  }

  /** A string with its padding. */
  method PutField(buf: array<char>, end: nat, str: nat, s: string, width: int, left: bool,
                  ghost was: seq<char>, ghost out: string) returns (str': nat)
    requires Shows(buf[..], was, end, out) && str == |out|
    modifies buf
    ensures var text := Field(s, width, left);
            Shows(buf[..], was, end, out + text) && str' == str + |text|
  {
    hide Shows;
    str' := str;
    var rest := width - |s|;
    if !left {
      str', rest := Pad(buf, end, str', ' ', rest, was, out);
    }
    ghost var out' := if left then out else out + Repeat(' ', width - |s|);
    var i := 0;
    assert out' + s[..0] == out';
    while i < |s|
      invariant 0 <= i <= |s| && Shows(buf[..], was, end, out' + s[..i]) && str' == |out'| + i
    {
      str' := Put(buf, end, str', s[i], was, out' + s[..i]);
      assert out' + s[..i] + [s[i]] == out' + s[..i + 1];
      i := i + 1;
    }
    assert s[..|s|] == s;
    ghost var n := rest;
    str', rest := Pad(buf, end, str', ' ', rest, was, out' + s);
    assert out' + s + Repeat(' ', n) == out + Field(s, width, left);
  }

  /** The base and the flags of an integer conversion. */
  method GetStyle(c: char, flags: Flags) returns (base: nat, f: Flags)
    requires IsInteger(c)
    ensures (base, f) == NumberStyle(c, flags)
  {
    base, f := 10, flags;
    if c == 'o' {
      base := 8;
    } else if c == 'X' || c == 'x' {
      if c == 'X' { f := f.(large := true); }
      base := 16;
    } else if c == 'd' || c == 'i' {
      f := f.(sign := true);
    }
  }

  /** An integer conversion. */
  method PutInteger(buf: array<char>, end: nat, str: nat, c: char, sp: Spec, w: Word,
                    ghost was: seq<char>, ghost out: string) returns (str': nat)
    requires Shows(buf[..], was, end, out) && str == |out| && IsInteger(c)
    modifies buf
    ensures var (base, f) := NumberStyle(c, sp.f);
            var text := NumberText(Fetched(w, sp.qualifier, f.sign), base, sp.width, sp.precision, f);
            Shows(buf[..], was, end, out + text) && str' == str + |text|
  {
    var base, f := GetStyle(c, sp.f);
    var num: Word := w;
    if sp.qualifier == 'h' {
      num := w % 0x1_0000;
      if f.sign && num >= 0x8000 { num := num + WORD_RANGE - 0x1_0000; }
    }
    assert num == Fetched(w, sp.qualifier, f.sign);
    str' := PrintNumber(buf, end, str, num, base, sp.width, sp.precision, f, was, out);
  }

  /** The switch of a round of rt_vsnprintf at a '%'. */
  method PutConversion(buf: array<char>, end: nat, str: nat, fmt: string, sp: Spec, args: nat -> Word,
                       cstr: Word -> string, ghost was: seq<char>, ghost out: string)
    returns (str': nat, next: nat, a: nat)
    requires Shows(buf[..], was, end, out) && str == |out| && sp.at <= |fmt|
    modifies buf
    ensures var r := Converted(fmt, sp, args, cstr);
            Shows(buf[..], was, end, out + r.text) && str' == str + |r.text| && next == r.next && a == r.a
  {
    var c, w := At(fmt, sp.at), args(sp.a);
    next, a := sp.at + 1, sp.a + 1;
    if c == 'c' {
      str' := PutField(buf, end, str, [(w % 256) as char], sp.width, sp.f.left, was, out);
    } else if c == 's' {
      str' := PutField(buf, end, str, StringArg(w, sp.precision, cstr), sp.width, sp.f.left, was, out);
    } else if c == 'p' {
      if sp.width == -1 {
        str' := PrintNumber(buf, end, str, w, 16, 8, sp.precision, sp.f.(zero := true), was, out);
      } else {
        str' := PrintNumber(buf, end, str, w, 16, sp.width, sp.precision, sp.f, was, out);
      }
    } else if c == '%' {
      str' := Put(buf, end, str, '%', was, out);
      a := sp.a;
    } else if IsInteger(c) {
      str' := PutInteger(buf, end, str, c, sp, w, was, out);
    } else {
      str' := Put(buf, end, str, '%', was, out);
      a := sp.a;
      if c != '\0' {
        str' := Put(buf, end, str', c, was, out + "%");
        assert out + "%" + [c] == out + ("%" + [c]);
      } else {
        next := sp.at;
      }
    }
  }

  /** The body of rt_vsnprintf: all rounds over the format. */
  method PutAll(buf: array<char>, end: nat, fmt: string, args: nat -> Word, cstr: Word -> string) returns (str: nat)
    requires end <= buf.Length
    modifies buf
    ensures var out := Output(fmt, 0, args, 0, cstr);
            Shows(buf[..], old(buf[..]), end, out) && str == |out|
  {
    hide Output;
    ghost var was, out := buf[..], "";
    var i, a := 0, 0;
    str := 0;
    while At(fmt, i) != '\0'
      invariant i <= |fmt| && Shows(buf[..], was, end, out) && str == |out|
      invariant out + Output(fmt, i, args, a, cstr) == Output(fmt, 0, args, 0, cstr)
      decreases |fmt| - i
    {
      ghost var text;
      str, i, a, text := PutRound(buf, end, str, fmt, i, args, a, cstr, was, out);
      out := out + text;
    }
    OutputEnds(fmt, i, args, a, cstr);
    assert out + "" == out;
  }

  lemma OutputEnds(fmt: string, i: nat, args: nat -> Word, a: nat, cstr: Word -> string)
    requires i <= |fmt| && At(fmt, i) == '\0'
    ensures Output(fmt, i, args, a, cstr) == ""
  {
  }

  /** One round: a plain character, or a conversion. */
  method PutRound(buf: array<char>, end: nat, str: nat, fmt: string, i: nat, args: nat -> Word, a: nat,
                  cstr: Word -> string, ghost was: seq<char>, ghost out: string)
    returns (str': nat, i': nat, a': nat, ghost text: string)
    requires Shows(buf[..], was, end, out) && str == |out| && i < |fmt| && At(fmt, i) != '\0'
    modifies buf
    ensures i < i' <= |fmt| && Shows(buf[..], was, end, out + text) && str' == |out + text|
    ensures out + Output(fmt, i, args, a, cstr) == out + text + Output(fmt, i', args, a', cstr)
  {
    if fmt[i] != '%' {
      text := [fmt[i]];
      str' := Put(buf, end, str, fmt[i], was, out);
      i', a' := i + 1, a;
    } else {
      var sp := ParseSpec(fmt, i, args, a);
      text := Converted(fmt, sp, args, cstr).text;
      str', i', a' := PutConversion(buf, end, str, fmt, sp, args, cstr, was, out);
    }
    Then(out, text, Output(fmt, i', args, a', cstr));
  }

  lemma Then(a: string, b: string, c: string)
    ensures a + (b + c) == a + b + c
  {
  }

  /** The bytes between a buffer at `base` and its end, which is cut off at the top of the address space. */
  function RoomAt(base: Word, size: Word): Word
  {
    if base + size < WORD_RANGE then size else WORD_RANGE - 1 - base
  }

  /** rt_vsnprintf on a buffer at address `base`, for an output that does not reach the top of the address space: the
      buffer gets as much of the output as fits before a null character, nothing else is written, and the result is the
      length of the whole output as an int. */
  method VSNPrintf(buf: array<char>, base: Word, size: Word, fmt: string, args: nat -> Word, cstr: Word -> string)
    returns (len: int)
    requires RoomAt(base, size) <= buf.Length
    requires base + |Output(fmt, 0, args, 0, cstr)| < WORD_RANGE
    modifies buf
    ensures var out := Output(fmt, 0, args, 0, cstr);
            && len == Signed(|out|)
            && var n := if |out| < RoomAt(base, size) then |out| else RoomAt(base, size) - 1;
               forall i :: 0 <= i < buf.Length ==>
                 buf[i] == if i < n then out[i] else if i == n then '\0' else old(buf[i])
    ensures 0 < size && base + size < WORD_RANGE ==>
              var out := Output(fmt, 0, args, 0, cstr);
              var n := if |out| < size then |out| else size - 1;
              buf[..n] == out[..n] && buf[n] == '\0'
  {
    var end := size;
    if base + end >= WORD_RANGE {
      end := WORD_RANGE - 1 - base;
    }
    var str := PutAll(buf, end, fmt, args, cstr);
    if end > 0 {
      if str < end {
        buf[str] := '\0';
      } else {
        buf[end - 1] := '\0';
      }
    }
    len := Signed(str);
  }

  /** Why the output must not reach the top: the cursor starts again at 0, and a character that is far behind the end
      passes the test for being in front of it. */
  lemma CursorWraps(base: Word, size: Word, i: nat)
    requires WORD_RANGE <= base + i && base + i - WORD_RANGE < base
    ensures i >= RoomAt(base, size) && base + i - WORD_RANGE < base + RoomAt(base, size)
  {
  }

  // ----- whole formats -----

  /** A conversion without flags, width, precision and qualifier. */
  lemma BareSpec(fmt: string, args: nat -> Word)
    requires |fmt| == 2 && fmt[0] == '%' && !IsFlag(fmt[1]) && !IsDigit(fmt[1])
    requires fmt[1] != '*' && fmt[1] != '.' && fmt[1] != 'h' && fmt[1] != 'l'
    ensures SpecAt(fmt, 0, args, 0) == Spec(NO_FLAGS, -1, -1, '\0', 1, 0)
  {
    assert FlagsAt(fmt, 1, NO_FLAGS) == (NO_FLAGS, 1);
  }

  /** A conversion with an empty precision, which is a precision of 0. */
  lemma PointSpec(fmt: string, args: nat -> Word)
    requires |fmt| == 3 && fmt[0] == '%' && fmt[1] == '.' && !IsDigit(fmt[2])
    requires fmt[2] != '*' && fmt[2] != 'h' && fmt[2] != 'l'
    ensures SpecAt(fmt, 0, args, 0) == Spec(NO_FLAGS, -1, 0, '\0', 2, 0)
  {
    assert FlagsAt(fmt, 1, NO_FLAGS) == (NO_FLAGS, 1);
  }

  /** A format that is one conversion. */
  lemma OneConversion(fmt: string, args: nat -> Word, cstr: Word -> string)
    requires fmt != "" && fmt[0] == '%'
    ensures var r := Converted(fmt, SpecAt(fmt, 0, args, 0), args, cstr);
            r.next == |fmt| ==> Output(fmt, 0, args, 0, cstr) == r.text
  {
    var r := Converted(fmt, SpecAt(fmt, 0, args, 0), args, cstr);
    if r.next == |fmt| {
      assert Output(fmt, r.next, args, r.a, cstr) == "";
      assert r.text + "" == r.text;
    }
  }

  lemma PlainNumber(w: Word, base: nat, f: Flags)
    requires !f.left && !f.zero
    ensures NumberText(w, base, -1, -1, f) == SignText(w, f) + Digits(Magnitude(w, f), base, f.large)
    ensures NumberText(w, base, -1, 0, f) == SignText(w, f)
  {
  }

  lemma PercentD(args: nat -> Word, cstr: Word -> string)
    requires args(0) < HALF
    ensures Output("%d", 0, args, 0, cstr) == Digits(args(0), 10, false)
  {
    var f := NO_FLAGS.(sign := true);
    BareSpec("%d", args);
    OneConversion("%d", args, cstr);
    PlainNumber(args(0), 10, f);
    assert SignText(args(0), f) + Digits(args(0), 10, false) == Digits(args(0), 10, false);
  }

  /** A non-negative int written with %d is read back by skip_atoi. */
  lemma PrintedIntReadsBack(args: nat -> Word, cstr: Word -> string)
    requires args(0) < HALF
    ensures var s := Output("%d", 0, args, 0, cstr); RunEnd(s, 0) == |s| && Value(s[0..|s|], 10) == args(0)
  {
    PercentD(args, cstr);
    DecimalRoundTrip(args(0), false);
  }

  /** What %o writes is octal if and only if the number is below 8. */
  lemma PercentOExact(args: nat -> Word, cstr: Word -> string)
    ensures IsOctal(Output("%o", 0, args, 0, cstr), args(0)) <==> args(0) < 8
  {
    BareSpec("%o", args);
    OneConversion("%o", args, cstr);
    PlainNumber(args(0), 8, NO_FLAGS);
    assert SignText(args(0), NO_FLAGS) + Digits(args(0), 8, false) == Digits(args(0), 8, false);
    OctalExact(args(0), false);
  }

  /** With a precision of 0 no number is written, whatever it is. */
  lemma PointDShowsNothing(args: nat -> Word, cstr: Word -> string)
    ensures Output("%.d", 0, args, 0, cstr) == if args(0) >= HALF then "-" else ""
  {
    var f := NO_FLAGS.(sign := true);
    PointSpec("%.d", args);
    OneConversion("%.d", args, cstr);
    PlainNumber(args(0), 10, f);
  }

  /** The precision of a string is a maximum if and only if it is not 0 or the string is empty. */
  lemma StringPrecisionExact(w: Word, precision: nat, cstr: Word -> string)
    ensures |StringArg(w, precision, cstr)| <= precision
       <==> precision != 0 || (w != 0 && cstr(w) == "")
  {
  }

  /** With a precision of 0 the whole string is written. */
  lemma PointSShowsAll(args: nat -> Word, cstr: Word -> string)
    ensures Output("%.s", 0, args, 0, cstr) == if args(0) == 0 then "(NULL)" else cstr(args(0))
  {
    PointSpec("%.s", args);
    OneConversion("%.s", args, cstr);
    var s := StringArg(args(0), 0, cstr);
    assert Repeat(' ', -1 - |s|) + s == s;
  }
}
