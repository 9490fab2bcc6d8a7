/** What whole conversion specifications mean: every combination of flags, width, precision and qualifier is read as it is
    written, and the text of a conversion stands for its argument. */
module WholeFormats {
  import opened Words
  import opened Numbers
  import opened Format

  // ----- a specification as it is written -----

  /** A conversion specification; a width or precision of -1 is not there. */
  datatype Written = Written(flags: string, width: int, precision: int, qualifier: string, c: char)

  predicate Proper(v: Written)
  {
    && (forall i :: 0 <= i < |v.flags| ==> IsFlag(v.flags[i]))
    && (v.width == -1 || v.width > 0) && v.precision >= -1
    && (v.qualifier == "" || v.qualifier == "h" || v.qualifier == "l")
    && Plain(v.c)
  }

  /** A character that is no part of a specification in front of its conversion. */
  predicate Plain(c: char)
  {
    !IsFlag(c) && !IsDigit(c) && c != '.' && c != '*' && c != 'h' && c != 'l'
  }

  function WidthText(v: Written): string
  {
    if v.width < 0 then "" else Digits(v.width, 10, false)
  }

  function PointText(v: Written): string
  {
    if v.precision < 0 then "" else "." + Digits(v.precision, 10, false)
  }

  function Text(v: Written): string
  {
    "%" + v.flags + WidthText(v) + PointText(v) + v.qualifier + [v.c]
  }

  /** The flags that a sequence of flag characters sets on top of `f`, in whatever order they come. */
  function Set(f: Flags, s: string): Flags
  {
    Flags(f.zero || '0' in s, f.sign, f.plus || '+' in s, f.space || ' ' in s, f.left || '-' in s, f.special || '#' in s,
          f.large)
  }

  lemma {:induction false} FlagsRead(fmt: string, i: nat, j: nat, f: Flags)
    requires i <= j < |fmt| && (forall k :: i <= k < j ==> IsFlag(fmt[k])) && !IsFlag(fmt[j])
    ensures FlagsAt(fmt, i, f) == (Set(f, fmt[i..j]), j)
    decreases j - i
  {
    hide WithFlag, Set;
    if i < j {
      FlagsRead(fmt, i + 1, j, WithFlag(f, fmt[i]));
      assert fmt[i..j] == [fmt[i]] + fmt[i + 1..j];
      SetFirst(f, fmt[i], fmt[i + 1..j]);
    } else {
      assert fmt[i..j] == "";
      SetNone(f);
    }
  }

  lemma SetNone(f: Flags)
    ensures Set(f, "") == f
  {
  }

  lemma SetFirst(f: Flags, c: char, s: string)
    requires IsFlag(c)
    ensures Set(WithFlag(f, c), s) == Set(f, [c] + s)
  {
    FirstOrRest(c, s, '0');
    FirstOrRest(c, s, '+');
    FirstOrRest(c, s, ' ');
    FirstOrRest(c, s, '-');
    FirstOrRest(c, s, '#');
  }

  lemma FirstOrRest(c: char, s: string, x: char)
    ensures x in [c] + s <==> x == c || x in s
  {
  }

  lemma RunIs(s: string, i: nat, j: nat)
    requires i <= j < |s| && (forall k :: i <= k < j ==> IsDigit(s[k])) && !IsDigit(s[j])
    ensures RunEnd(s, i) == j
  {
    var k := RunEnd(s, i);
  }

  /** A number in front of a character that is no digit is read back. */
  lemma NumberRead(fmt: string, i: nat, n: nat)
    requires var d := Digits(n, 10, false); i + |d| < |fmt| && fmt[i..i + |d|] == d && !IsDigit(fmt[i + |d|])
    ensures var d := Digits(n, 10, false);
            d != "" && IsDigit(fmt[i]) && RunEnd(fmt, i) == i + |d| && Value(fmt[i..i + |d|], 10) == n
  {
    var d := Digits(n, 10, false);
    DecimalDigits(n, false);
    DigitsMean(n, 10, false);
    assert forall k :: i <= k < i + |d| ==> fmt[k] == d[k - i];
    RunIs(fmt, i, i + |d|);
  }

  lemma {:induction false} FirstDigit(n: nat)
    requires n > 0
    ensures var d := Digits(n, 10, false); d != "" && '1' <= d[0] <= '9'
    decreases n
  {
    if n >= 10 { FirstDigit(n / 10); }
  }

  /** Where the parts of a text start. */
  lemma Slices(v: Written)
    ensures var fmt, p := Text(v), 1 + |v.flags|;
            var q := p + |WidthText(v)|;
            var r := q + |PointText(v)|;
            var s := r + |v.qualifier|;
            && |fmt| == s + 1 && fmt[0] == '%' && fmt[1..p] == v.flags && fmt[p..q] == WidthText(v)
            && fmt[q..r] == PointText(v) && fmt[r..s] == v.qualifier && fmt[s] == v.c
  {
  }

  /** `v` is written in `fmt` from `i` on. */
  ghost predicate Stands(fmt: string, i: nat, v: Written)
  {
    i + |Text(v)| <= |fmt| && fmt[i..i + |Text(v)|] == Text(v)
  }

  /** The parts do not run into each other. */
  lemma Parts(fmt: string, i: nat, v: Written)
    requires Proper(v) && Stands(fmt, i, v)
    ensures var p := i + 1 + |v.flags|;
            var q := p + |WidthText(v)|;
            var r := q + |PointText(v)|;
            var s := r + |v.qualifier|;
            && i + |Text(v)| == s + 1 <= |fmt| && fmt[i] == '%' && fmt[i + 1..p] == v.flags && fmt[p..q] == WidthText(v)
            && fmt[q..r] == PointText(v) && fmt[r..s] == v.qualifier && fmt[s] == v.c
            && (forall k :: i + 1 <= k < p ==> IsFlag(fmt[k]))
            && !IsFlag(fmt[p]) && !IsDigit(fmt[q]) && fmt[q] != '*' && (v.precision >= 0 <==> fmt[q] == '.')
            && !IsDigit(fmt[r])
            && (v.qualifier == "" ==> fmt[r] != 'h' && fmt[r] != 'l') && (v.qualifier != "" ==> fmt[r] == v.qualifier[0])
  {
    hide Text, Digits;
    Moved(fmt, i, v);
    var p := i + 1 + |v.flags|;
    var q := p + |WidthText(v)|;
    var r := q + |PointText(v)|;
    assert forall k :: i + 1 <= k < p ==> fmt[k] == fmt[i + 1..p][k - i - 1];
    if v.width > 0 {
      FirstDigit(v.width);
      assert fmt[p] == fmt[p..q][0];
    }
    if v.precision >= 0 { assert fmt[q] == fmt[q..r][0]; }
    if v.qualifier != "" { assert fmt[r] == fmt[r..r + |v.qualifier|][0]; }
  }

  lemma Moved(fmt: string, i: nat, v: Written)
    requires Stands(fmt, i, v)
    ensures var p := i + 1 + |v.flags|;
            var q := p + |WidthText(v)|;
            var r := q + |PointText(v)|;
            var s := r + |v.qualifier|;
            && i + |Text(v)| == s + 1 <= |fmt| && fmt[i] == '%' && fmt[i + 1..p] == v.flags && fmt[p..q] == WidthText(v)
            && fmt[q..r] == PointText(v) && fmt[r..s] == v.qualifier && fmt[s] == v.c
  {
    hide Text, WidthText, PointText;
    Slices(v);
    var t, p := Text(v), 1 + |v.flags|;
    var q := p + |WidthText(v)|;
    var r := q + |PointText(v)|;
    var s := r + |v.qualifier|;
    var u := fmt[i..i + |t|];
    SameSlice(fmt, i, |t|, 1, p);
    SameSlice(fmt, i, |t|, p, q);
    SameSlice(fmt, i, |t|, q, r);
    SameSlice(fmt, i, |t|, r, s);
    assert u[0] == fmt[i] && u[s] == fmt[i + s];
  }

  lemma SameSlice(fmt: string, i: nat, n: nat, a: nat, b: nat)
    requires i + n <= |fmt| && a <= b <= n
    ensures fmt[i..i + n][a..b] == fmt[i + a..i + b]
  {
    var part, x, y := fmt[i..i + n], fmt[i..i + n][a..b], fmt[i + a..i + b];
    forall k | 0 <= k < |x| ensures x[k] == y[k] {
      assert part[a + k] == fmt[i + (a + k)];
    }
  }

  lemma Sizes(v: Written)
    requires Proper(v)
    ensures (v.width == -1 || v.width > 0) && v.precision >= -1
    ensures v.qualifier == "" || v.qualifier == "h" || v.qualifier == "l"
  {
  }

  lemma WidthRead(fmt: string, i: nat, v: Written, sp: Spec, args: nat -> Word)
    requires Proper(v) && Stands(fmt, i, v) && sp.at == i + 1 + |v.flags| && sp.width == -1
    ensures sp.at <= |fmt| && WithWidth(fmt, sp, args) == sp.(width := v.width, at := sp.at + |WidthText(v)|)
  {
    hide Stands, Text, Digits, PointText, Proper, IsFlag;
    Sizes(v);
    Parts(fmt, i, v);
    if v.width > 0 { NumberRead(fmt, sp.at, v.width); }
  }

  lemma PointRead(fmt: string, i: nat, v: Written, sp: Spec, args: nat -> Word)
    requires Proper(v) && Stands(fmt, i, v) && sp.at == i + 1 + |v.flags| + |WidthText(v)| && sp.precision == -1
    ensures sp.at <= |fmt|
    ensures WithPrecision(fmt, sp, args) == sp.(precision := v.precision, at := sp.at + |PointText(v)|)
  {
    hide Stands, Text, Digits, WidthText, PointText, Proper, IsFlag, IsDigit, Value, RunEnd;
    Sizes(v);
    PointStands(fmt, i, v);
  }

  lemma PointStands(fmt: string, i: nat, v: Written)
    requires Proper(v) && Stands(fmt, i, v)
    ensures var at, n := i + 1 + |v.flags| + |WidthText(v)|, |PointText(v)|;
            && at < |fmt| && (fmt[at] == '.' <==> v.precision >= 0) && (v.precision < 0 ==> n == 0)
            && (v.precision >= 0 ==>
                  && at + n < |fmt| && n > 1 && IsDigit(fmt[at + 1]) && RunEnd(fmt, at + 1) == at + n
                  && Value(fmt[at + 1..at + n], 10) == v.precision)
  {
    hide Stands, Text, Digits, WidthText, Proper, IsFlag, Value;
    var at := i + 1 + |v.flags| + |WidthText(v)|;
    Sizes(v);
    Parts(fmt, i, v);
    if v.precision >= 0 {
      PointNumber(fmt, at, v.precision);
      NumberRead(fmt, at + 1, v.precision);
    }
  }

  lemma PointNumber(fmt: string, i: nat, n: nat)
    requires var d := Digits(n, 10, false); i + 1 + |d| <= |fmt| && fmt[i..i + 1 + |d|] == "." + d
    ensures var d := Digits(n, 10, false); fmt[i + 1..i + 1 + |d|] == d
  {
    var d := Digits(n, 10, false);
    SameSlice(fmt, i, 1 + |d|, 1, 1 + |d|);
    assert ("." + d)[1..] == d;
  }

  lemma QualifierRead(fmt: string, i: nat, v: Written, sp: Spec)
    requires Proper(v) && Stands(fmt, i, v)
    requires sp.at == i + 1 + |v.flags| + |WidthText(v)| + |PointText(v)| && sp.qualifier == '\0'
    ensures sp.at <= |fmt|
    ensures WithQualifier(fmt, sp) == sp.(qualifier := QualifierOf(v), at := sp.at + |v.qualifier|)
  {
    hide Stands, Text, Digits, WidthText, PointText, Proper, IsFlag;
    Sizes(v);
    Parts(fmt, i, v);
  }

  function QualifierOf(v: Written): char
  {
    if v.qualifier == "" then '\0' else v.qualifier[0]
  }

  /** Every specification is read as it is written, wherever it stands. */
  lemma SpecificationReadsBack(fmt: string, i: nat, v: Written, args: nat -> Word, a: nat)
    requires Proper(v) && Stands(fmt, i, v)
    ensures i < |fmt| && i + |Text(v)| >= 1
    ensures SpecAt(fmt, i, args, a)
         == Spec(Set(NO_FLAGS, v.flags), v.width, v.precision, QualifierOf(v), i + |Text(v)| - 1, a)
  {
    hide Stands, Text, Digits, WidthText, PointText, WithWidth, WithPrecision, WithQualifier, Proper, Set;
    Parts(fmt, i, v);
    var p := i + 1 + |v.flags|;
    FlagsRead(fmt, i + 1, p, NO_FLAGS);
    var sp := Spec(Set(NO_FLAGS, v.flags), -1, -1, '\0', p, a);
    WidthRead(fmt, i, v, sp, args);
    var sp1 := WithWidth(fmt, sp, args);
    PointRead(fmt, i, v, sp1, args);
    QualifierRead(fmt, i, v, WithPrecision(fmt, sp1, args));
  }

  // ----- formats of many pieces -----

  /** A piece of a format: text that is copied, or a conversion that takes the next argument. */
  datatype Piece = Literal(s: string) | Conversion(v: Written)

  /** The conversions that take an argument. */
  predicate Takes(c: char)
  {
    c == 'c' || c == 's' || c == 'p' || IsInteger(c)
  }

  predicate ProperPiece(p: Piece)
  {
    match p
    case Literal(s) => forall i :: 0 <= i < |s| ==> s[i] != '%' && s[i] != '\0'
    case Conversion(v) => Proper(v) && Takes(v.c)
  }

  function PieceText(p: Piece): string
  {
    match p
    case Literal(s) => s
    case Conversion(v) => Text(v)
  }

  function FormatOf(ps: seq<Piece>): string
  {
    if ps == [] then "" else PieceText(ps[0]) + FormatOf(ps[1..])
  }

  /** What a conversion writes for its argument. */
  function Shown(v: Written, w: Word, cstr: Word -> string): string
  {
    var f := Set(NO_FLAGS, v.flags);
    if v.c == 'c' then Field([(w % 256) as char], v.width, f.left)
    else if v.c == 's' then Field(StringArg(w, v.precision, cstr), v.width, f.left)
    else if v.c == 'p' then
      if v.width == -1 then NumberText(w, 16, 8, v.precision, f.(zero := true))
      else NumberText(w, 16, v.width, v.precision, f)
    else
      var (base, g) := NumberStyle(v.c, f);
      NumberText(Fetched(w, QualifierOf(v), g.sign), base, v.width, v.precision, g)
  }

  /** What the pieces write, the arguments being taken in order from `a` on. */
  function Meaning(ps: seq<Piece>, args: nat -> Word, a: nat, cstr: Word -> string): string
  {
    if ps == [] then ""
    else
      match ps[0]
      case Literal(s) => s + Meaning(ps[1..], args, a, cstr)
      case Conversion(v) => Shown(v, args(a), cstr) + Meaning(ps[1..], args, a + 1, cstr)
  }

  lemma ConversionShows(fmt: string, i: nat, v: Written, args: nat -> Word, a: nat, cstr: Word -> string)
    requires Proper(v) && Takes(v.c) && Stands(fmt, i, v)
    ensures i < |fmt| && i + |Text(v)| <= |fmt|
    ensures Output(fmt, i, args, a, cstr)
         == Shown(v, args(a), cstr) + Output(fmt, i + |Text(v)|, args, a + 1, cstr)
  {
    hide NumberText, Field, StringArg, Text, SpecAt, Set;
    SpecificationReadsBack(fmt, i, v, args, a);
    Parts(fmt, i, v);
  }

  lemma CharacterShows(fmt: string, i: nat, args: nat -> Word, a: nat, cstr: Word -> string)
    requires i < |fmt| && fmt[i] != '%' && fmt[i] != '\0'
    ensures Output(fmt, i, args, a, cstr) == [fmt[i]] + Output(fmt, i + 1, args, a, cstr)
  {
    hide SpecAt, Converted;
  }

  lemma {:induction false} LiteralShows(fmt: string, i: nat, j: nat, args: nat -> Word, a: nat, cstr: Word -> string)
    requires i <= j <= |fmt| && forall k :: i <= k < j ==> fmt[k] != '%' && fmt[k] != '\0'
    ensures Output(fmt, i, args, a, cstr) == fmt[i..j] + Output(fmt, j, args, a, cstr)
    decreases j - i
  {
    hide Output;
    if i < j {
      LiteralShows(fmt, i + 1, j, args, a, cstr);
      CharacterShows(fmt, i, args, a, cstr);
      assert fmt[i..j] == [fmt[i]] + fmt[i + 1..j];
      assert [fmt[i]] + (fmt[i + 1..j] + Output(fmt, j, args, a, cstr)) == fmt[i..j] + Output(fmt, j, args, a, cstr);
    } else {
      assert fmt[i..j] == "";
    }
  }

  lemma {:induction false} RestShows(fmt: string, i: nat, ps: seq<Piece>, args: nat -> Word, a: nat, cstr: Word -> string)
    requires (forall k :: 0 <= k < |ps| ==> ProperPiece(ps[k])) && i <= |fmt| && fmt[i..] == FormatOf(ps)
    ensures Output(fmt, i, args, a, cstr) == Meaning(ps, args, a, cstr)
    decreases |ps|
  {
    hide Output, Shown, Text, ProperPiece, Meaning, FormatOf;
    if ps == [] {
      NoPieces(args, a, cstr);
      OutputEnds(fmt, i, args, a, cstr);
    } else {
      var t, rest, b := PieceText(ps[0]), ps[1..], if ps[0].Literal? then a else a + 1;
      FirstPiece(ps, args, a, cstr);
      SplitFormat(fmt, i, t, FormatOf(rest));
      PieceShows(fmt, i, ps[0], args, a, cstr);
      RestShows(fmt, i + |t|, rest, args, b, cstr);
    }
  }

  lemma NoPieces(args: nat -> Word, a: nat, cstr: Word -> string)
    ensures FormatOf([]) == "" && Meaning([], args, a, cstr) == ""
  {
  }

  lemma FirstPiece(ps: seq<Piece>, args: nat -> Word, a: nat, cstr: Word -> string)
    requires ps != []
    ensures FormatOf(ps) == PieceText(ps[0]) + FormatOf(ps[1..])
    ensures Meaning(ps, args, a, cstr) == ShownPiece(ps[0], args, a, cstr)
                                          + Meaning(ps[1..], args, if ps[0].Literal? then a else a + 1, cstr)
  {
  }

  function ShownPiece(p: Piece, args: nat -> Word, a: nat, cstr: Word -> string): string
  {
    match p
    case Literal(s) => s
    case Conversion(v) => Shown(v, args(a), cstr)
  }

  lemma PieceShows(fmt: string, i: nat, p: Piece, args: nat -> Word, a: nat, cstr: Word -> string)
    requires var t := PieceText(p); i + |t| <= |fmt| && fmt[i..i + |t|] == t && ProperPiece(p)
    ensures Output(fmt, i, args, a, cstr)
         == ShownPiece(p, args, a, cstr)
            + Output(fmt, i + |PieceText(p)|, args, if p.Literal? then a else a + 1, cstr)
  {
    hide Output, Shown, Text;
    match p
    case Literal(s) =>
      assert forall k :: i <= k < i + |s| ==> fmt[k] == fmt[i..i + |s|][k - i];
      LiteralShows(fmt, i, i + |s|, args, a, cstr);
    case Conversion(v) => ConversionShows(fmt, i, v, args, a, cstr);
  }

  lemma SplitFormat(fmt: string, i: nat, t: string, rest: string)
    requires i <= |fmt| && fmt[i..] == t + rest
    ensures i + |t| <= |fmt| && fmt[i..i + |t|] == t && fmt[i + |t|..] == rest
  {
    assert |fmt| - i == |t| + |rest|;
    assert fmt[i..i + |t|] == fmt[i..][..|t|];
    assert fmt[i + |t|..] == fmt[i..][|t|..];
  }

  /** A format of any number of literal texts and conversions writes its pieces one after the other, each conversion with
      the next argument. */
  lemma FormatMeansItsPieces(ps: seq<Piece>, args: nat -> Word, cstr: Word -> string)
    requires forall k :: 0 <= k < |ps| ==> ProperPiece(ps[k])
    ensures Output(FormatOf(ps), 0, args, 0, cstr) == Meaning(ps, args, 0, cstr)
  {
    assert FormatOf(ps)[0..] == FormatOf(ps);
    RestShows(FormatOf(ps), 0, ps, args, 0, cstr);
  }

  // ----- what a text stands for -----

  ghost predicate Filled(s: string, c: char)
  {
    forall k :: 0 <= k < |s| ==> s[k] == c
  }

  /** A digit of the table a conversion uses. */
  predicate DigitOf(c: char, radix: nat, large: bool)
  {
    IsDigit(c) || (radix == 16 && if large then 'A' <= c <= 'F' else 'a' <= c <= 'f')
  }

  /** `s` is a sign and digits that write `n`. */
  ghost predicate Writes(s: string, sign: string, n: nat, radix: nat, large: bool)
  {
    && sign <= s && Value(s[|sign|..], radix) == n
    && forall k :: |sign| <= k < |s| ==> DigitOf(s[k], radix, large)
  }

  lemma {:induction false} ZerosMeanNothing(k: nat, s: string, radix: nat)
    ensures Value(Repeat('0', k) + s, radix) == Value(s, radix)
    decreases |s|, k
  {
    var z := Repeat('0', k);
    if s != "" {
      var m := |s| - 1;
      ZerosMeanNothing(k, s[..m], radix);
      ValueAppend(z + s[..m], s[m], radix);
      ValueAppend(s[..m], s[m], radix);
      assert z + s == z + s[..m] + [s[m]] && s == s[..m] + [s[m]];
    } else if k > 0 {
      assert z + s == Repeat('0', k - 1) + "" + ['0'];
      ValueAppend(Repeat('0', k - 1) + "", '0', radix);
      ZerosMeanNothing(k - 1, "", radix);
    } else {
      assert z + s == s;
    }
  }

  lemma {:induction false} DigitsOfTable(n: nat, base: nat, large: bool)
    ensures var d := Digits(n, base, large); d != "" && forall k :: 0 <= k < |d| ==> DigitOf(d[k], Radix(base), large)
    decreases n
  {
    hide DigitOf, DigitChar;
    TableDigit(n % Radix(base), Radix(base), large);
    if n < Radix(base) {
      assert n % Radix(base) == n;
    } else {
      DigitsOfTable(n / Radix(base), base, large);
    }
  }

  lemma TableDigit(d: nat, radix: nat, large: bool)
    requires d < radix && (radix == 10 || radix == 16)
    ensures DigitOf(DigitChar(d, large), radix, large)
  {
  }

  /** A sign, zeros and the digits of a number write the number. */
  lemma ZerosAndDigits(sign: string, zeros: int, n: nat, base: nat, large: bool)
    ensures Writes(sign + (Repeat('0', zeros) + Digits(n, base, large)), sign, n, Radix(base), large)
  {
    hide Digits, Value, DigitOf;
    var z, d := Repeat('0', zeros), Digits(n, base, large);
    var s := sign + (z + d);
    assert Repeat('0', zeros) == Repeat('0', Max(zeros, 0));
    ZerosMeanNothing(Max(zeros, 0), d, Radix(base));
    DigitsMean(n, base, large);
    DigitsOfTable(n, base, large);
    assert s[|sign|..] == z + d;
    ZeroIsDigit(Radix(base), large);
    assert forall k :: |sign| <= k < |s| ==> s[k] == (z + d)[k - |sign|];
  }

  lemma ZeroIsDigit(radix: nat, large: bool)
    ensures DigitOf('0', radix, large)
  {
  }

  /** How many characters sign and digits take without the padding. */
  function Core(num: Word, base: nat, precision: int, f: Flags): nat
  {
    |SignText(num, f)| + Max(precision, |Digits(Magnitude(num, f), base, f.large)|)
  }

  /** A sign and digits of `m` characters that write `n` stand in a field: padded on the right with '-', with zeros behind
      the sign with '0', and on the left otherwise. */
  ghost predicate InField(text: string, m: nat, width: int, sign: string, n: nat, radix: nat, large: bool,
                          left: bool, zero: bool)
  {
    && |text| == Max(width, m)
    && (if left then Writes(text[..m], sign, n, radix, large) && Filled(text[m..], ' ')
        else if zero then Writes(text, sign, n, radix, large)
        else Filled(text[..|text| - m], ' ') && Writes(text[|text| - m..], sign, n, radix, large))
  }

  /** The text of a number is the number in a field. */
  lemma NumberMeans(num: Word, base: nat, width: int, precision: int, f: Flags)
    requires precision != 0
    ensures var text, m := NumberText(num, base, width, precision, f), Core(num, base, precision, f);
            InField(text, m, width, SignText(num, f), Magnitude(num, f), Radix(base), f.large, f.left, f.zero)
  {
    hide InField, SignText, Magnitude, Digits, Framed;
    var sign, n, d := SignText(num, f), Magnitude(num, f), Digits(Magnitude(num, f), base, f.large);
    FramedMeans(width, sign, precision - |d|, n, base, f.large, f.zero, f.left);
    assert Max(precision - |d|, 0) + |d| == Max(precision, |d|);
  }

  lemma FramedMeans(width: int, sign: string, zeros: int, n: nat, base: nat, large: bool, zero: bool, left: bool)
    ensures var d := Digits(n, base, large);
            var m := |sign| + Max(zeros, 0) + |d|;
            InField(Framed(width - m, sign, Repeat('0', zeros) + d, zero, left), m, width, sign, n, Radix(base), large,
                    left, zero)
  {
    hide Writes, Digits, Value, Framed, Filled;
    var d := Digits(n, base, large);
    var m := |sign| + Max(zeros, 0) + |d|;
    ZerosAndDigits(sign, zeros, n, base, large);
    ZerosAndDigits(sign, Max(width - m, 0) + Max(zeros, 0), n, base, large);
    TwoZeros(sign, width - m, zeros, d);
    assert |Repeat('0', zeros)| == Max(zeros, 0);
    hide Repeat;
    InFrame(width - m, sign, Repeat('0', zeros) + d, zero, left);
  }

  lemma TwoZeros(sign: string, a: int, b: int, d: string)
    ensures sign + Repeat('0', a) + (Repeat('0', b) + d) == sign + (Repeat('0', Max(a, 0) + Max(b, 0)) + d)
  {
    assert Repeat('0', Max(a, 0) + Max(b, 0)) == Repeat('0', a) + Repeat('0', b);
  }

  lemma InFrame(pad: int, sign: string, shown: string, zero: bool, left: bool)
    ensures var text, m := Framed(pad, sign, shown, zero, left), |sign| + |shown|;
            && m <= |text| == m + Max(pad, 0)
            && (!left && zero ==> text == sign + Repeat('0', pad) + shown)
            && (left ==> text[..m] == sign + shown && Filled(text[m..], ' '))
            && (!left && !zero ==> Filled(text[..|text| - m], ' ') && text[|text| - m..] == sign + shown)
  {
  }

  /** An argument as the conversion reads it: a word or a short, signed or not. */
  function ArgumentOf(w: Word, short: bool, signed: bool): int
  {
    var size := if short then 0x1_0000 else WORD_RANGE;
    if signed && w % size >= size / 2 then w % size - size else w % size
  }

  predicate IsSigned(c: char)
  {
    c == 'd' || c == 'i'
  }

  /** What stands in front of the digits. */
  function SignOf(n: int, v: Written): string
  {
    if !IsSigned(v.c) then ""
    else if n < 0 then "-" else if '+' in v.flags then "+" else if ' ' in v.flags then " " else ""
  }

  function Abs(n: int): nat
  {
    if n < 0 then -n else n
  }

  function RadixOf(c: char): nat
  {
    if IsSigned(c) || c == 'u' then 10 else 16
  }

  lemma ArgumentMeans(w: Word, v: Written)
    requires Proper(v) && IsInteger(v.c)
    ensures var (base, g) := NumberStyle(v.c, Set(NO_FLAGS, v.flags));
            var num, n := Fetched(w, QualifierOf(v), g.sign), ArgumentOf(w, v.qualifier == "h", IsSigned(v.c));
            && SignText(num, g) == SignOf(n, v) && Magnitude(num, g) == Abs(n)
            && g.left == ('-' in v.flags) && g.zero == ('0' in v.flags) && g.large == (v.c == 'X')
            && Radix(base) == RadixOf(v.c) && (v.c == 'o' || base == RadixOf(v.c))
            && (v.c == 'o' ==> base == 8)
  {
  }

  /** Every integer conversion with a precision other than 0 writes its argument: the sign that the flags ask for and
      digits of that value, at least as many as the precision says, in a field of at least the width. */
  lemma IntegerMeans(v: Written, w: Word, cstr: Word -> string)
    requires Proper(v) && IsInteger(v.c) && v.precision != 0
    ensures var text, n := Shown(v, w, cstr), ArgumentOf(w, v.qualifier == "h", IsSigned(v.c));
            var sign, radix, large := SignOf(n, v), RadixOf(v.c), v.c == 'X';
            InField(text, |sign| + Max(v.precision, |Digits(Abs(n), radix, large)|), v.width, sign, Abs(n), radix, large,
                    '-' in v.flags, '0' in v.flags)
  {
    hide InField, NumberText, SignText, Magnitude, Digits, Fetched, Set, ArgumentOf;
    ArgumentMeans(w, v);
    var (base, g) := NumberStyle(v.c, Set(NO_FLAGS, v.flags));
    var num := Fetched(w, QualifierOf(v), g.sign);
    if v.c == 'o' { OctalIsHexadecimal(Magnitude(num, g), g.large); }
    NumberMeans(num, base, v.width, v.precision, g);
  }

  /** A string conversion writes the string, cut to a positive precision, in a field of at least the width. */
  lemma StringMeans(v: Written, w: Word, cstr: Word -> string)
    requires Proper(v) && v.c == 's'
    ensures var text, s := Shown(v, w, cstr), if w == 0 then "(NULL)" else cstr(w);
            var m := if v.precision > 0 && v.precision < |s| then v.precision else |s|;
            && |text| == Max(v.width, m)
            && (if '-' in v.flags then text[..m] == s[..m] && Filled(text[m..], ' ')
                else Filled(text[..|text| - m], ' ') && text[|text| - m..] == s[..m])
  {
    var s := if w == 0 then "(NULL)" else cstr(w);
    var m := if v.precision > 0 && v.precision < |s| then v.precision else |s|;
    hide Field, Filled, StringArg, Proper;
    CutString(w, v.precision, cstr);
    FieldMeans(s[..m], v.width, '-' in v.flags);
  }

  lemma CutString(w: Word, precision: int, cstr: Word -> string)
    ensures var s := if w == 0 then "(NULL)" else cstr(w);
            StringArg(w, precision, cstr) == s[..if precision > 0 && precision < |s| then precision else |s|]
  {
  }

  lemma FieldMeans(s: string, width: int, left: bool)
    ensures var text, m := Field(s, width, left), |s|;
            && |text| == Max(width, m)
            && (if left then text[..m] == s && Filled(text[m..], ' ')
                else Filled(text[..|text| - m], ' ') && text[|text| - m..] == s)
  {
  }

  /** A character conversion writes the low byte of its argument in a field of at least the width. */
  lemma CharacterMeans(v: Written, w: Word, cstr: Word -> string)
    requires Proper(v) && v.c == 'c'
    ensures var text, c := Shown(v, w, cstr), (w % 256) as char;
            && |text| == Max(v.width, 1)
            && (if '-' in v.flags then text[0] == c && Filled(text[1..], ' ')
                else Filled(text[..|text| - 1], ' ') && text[|text| - 1] == c)
  {
    hide Field, Filled, Proper;
    FieldMeans([(w % 256) as char], v.width, '-' in v.flags);
    var text := Shown(v, w, cstr);
    if '-' in v.flags { assert text[..1][0] == text[0]; } else { assert text[|text| - 1..][0] == text[|text| - 1]; }
  }

  lemma {:induction false} FewHexDigits(n: nat, k: nat)
    requires k >= 1 && n < Power(16, k)
    ensures 1 <= |Digits(n, 16, false)| <= k
    decreases k
  {
    if n >= 16 {
      assert Power(16, k) == 16 * Power(16, k - 1);
      FewHexDigits(n / 16, k - 1);
    }
  }

  /** %p writes the eight hexadecimal digits of a word. */
  lemma PointerMeans(w: Word, cstr: Word -> string)
    ensures var text := Shown(Written("", -1, -1, "", 'p'), w, cstr);
            |text| == 8 && Writes(text, "", w, 16, false)
  {
    hide Writes, NumberText, Digits, Power;
    var f := NO_FLAGS.(zero := true);
    assert Set(NO_FLAGS, "").(zero := true) == f;
    assert Power(16, 8) == WORD_RANGE by { SixteenToTheEighth(); }
    FewHexDigits(w, 8);
    NumberMeans(w, 16, 8, -1, f);
  }

  lemma SixteenToTheEighth()
    ensures Power(16, 8) == WORD_RANGE
  {
    assert Power(16, 2) == 256 && Power(16, 4) == 0x1_0000 && Power(16, 6) == 0x100_0000;
  }

  /** "%%" writes a percent sign, and a percent sign in front of a character that is no conversion is copied with it. */
  lemma PercentShows(c: char, args: nat -> Word, cstr: Word -> string)
    requires Plain(c) && !Takes(c) && c != '\0'
    ensures Output(['%', c], 0, args, 0, cstr) == if c == '%' then "%" else ['%', c]
  {
    var fmt := ['%', c];
    BareSpec(fmt, args);
    OneConversion(fmt, args, cstr);
  }

  /** A width from an argument: a negative one also moves the text to the left. */
  lemma StarWidth(c: char, args: nat -> Word)
    requires Plain(c) && Takes(c)
    ensures var n := Signed(args(0));
            var sp := SpecAt(['%', '*', c], 0, args, 0);
            sp == Spec(NO_FLAGS.(left := n < 0), Abs(n), -1, '\0', 2, 1)
  {
    var fmt := ['%', '*', c];
    assert FlagsAt(fmt, 1, NO_FLAGS) == (NO_FLAGS, 1);
  }

  /** A precision from an argument: a negative one is 0. */
  lemma StarPrecision(c: char, args: nat -> Word)
    requires Plain(c) && Takes(c)
    ensures var n := Signed(args(0));
            SpecAt(['%', '.', '*', c], 0, args, 0) == Spec(NO_FLAGS, -1, Max(n, 0), '\0', 3, 1)
  {
    var fmt := ['%', '.', '*', c];
    assert FlagsAt(fmt, 1, NO_FLAGS) == (NO_FLAGS, 1);
  }
}
