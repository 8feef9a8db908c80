/**
 Printing numbers (printnum and the integer cases of vprintfmt, lib/printfmt.c) and reading
 them back (strtol, lib/string.c:239-284). Strings are without their terminator.
 */
module Numbers {
  import opened Layout

  // ---- Printing

  /** Where putch sends characters. */
  class Sink {
    var out: seq<char>

    constructor ()
      ensures out == ""
    {
      out := "";
    }

    method Putch(c: char)
      modifies this
      ensures out == old(out) + [c]
    {
      out := out + [c];
    }
  }

  const DIGITS: string := "0123456789abcdef"

  predicate Base(base: nat) { 2 <= base <= 16 }

  /** The digits of `num`, most significant first. */
  function Digits(num: nat, base: nat): (s: string)
    requires Base(base)
    ensures |s| > 0
  {
    (if num >= base then Digits(num / base, base) else "") + [DIGITS[num % base]]
  }

  function Repeat(c: char, n: int): (s: string)
    ensures |s| == (if n > 0 then n else 0) && forall i :: 0 <= i < |s| ==> s[i] == c
  {
    seq(if n > 0 then n else 0, _ => c)
  }

  /** Padding on the left up to the field width. */
  function Padded(digits: string, width: int, padc: char): (s: string)
    ensures |s| == if width > |digits| then width else |digits|
  {
    Repeat(padc, width - |digits|) + digits
  }

  /** What printnum prints. */
  function Printed(num: nat, base: nat, width: int, padc: char): (s: string)
    requires Base(base)
    ensures |s| == if width > |Digits(num, base)| then width else |Digits(num, base)|
  {
    Padded(Digits(num, base), width, padc)
  }

  /** One digit more, one column less. */
  lemma PrintedMore(num: nat, base: nat, width: int, padc: char)
    requires Base(base) && num >= base
    ensures Printed(num, base, width, padc) == Printed(num / base, base, width - 1, padc) + [DIGITS[num % base]]
  {
    var rest := Digits(num / base, base);
    assert Digits(num, base) == rest + [DIGITS[num % base]];
    assert Repeat(padc, width - |rest| - 1) + (rest + [DIGITS[num % base]]) ==
      Repeat(padc, width - 1 - |rest|) + rest + [DIGITS[num % base]];
  }

  lemma PrintedLast(num: nat, base: nat, width: int, padc: char)
    requires Base(base) && num < base
    ensures Printed(num, base, width, padc) == Repeat(padc, width - 1) + [DIGITS[num % base]]
  {
    assert Digits(num, base) == [DIGITS[num % base]];
  }

  method Printnum(sink: Sink, num: nat, base: nat, width: int, padc: char)
    requires Base(base)
    modifies sink
    ensures sink.out == old(sink.out) + Printed(num, base, width, padc)
    decreases num
  {
    if num >= base {
      DivideOnce(num, base);
      PrintedMore(num, base, width, padc);
      Printnum(sink, num / base, base, width - 1, padc);
    } else {
      PrintedLast(num, base, width, padc);
      Pad(sink, width, padc);
    }
    sink.Putch(DIGITS[num % base]);
  }

  /** The loop before the first digit. */
  method Pad(sink: Sink, width: int, padc: char)
    modifies sink
    ensures sink.out == old(sink.out) + Repeat(padc, width - 1)
  {
    ghost var was := sink.out;
    var w := width - 1;
    while w > 0
      invariant sink.out == was + Repeat(padc, width - 1 - (if w > 0 then w else 0))
      invariant w <= width - 1 && (w < width - 1 ==> w >= 0)
    {
      sink.Putch(padc);
      w := w - 1;
    }
  }

  // ---- Reading

  /** s[i], with the terminator at the end. */
  function CharAt(s: string, i: nat): char { if i < |s| then s[i] else '\0' }

  /** The digit a character stands for, or 99. */
  function DigitOf(c: char): (d: nat) {
    if '0' <= c <= '9' then c as int - '0' as int
    else if 'a' <= c <= 'z' then c as int - 'a' as int + 10
    else if 'A' <= c <= 'Z' then c as int - 'A' as int + 10
    else 99
  }

  function SkipBlanks(s: string, i: nat): (j: nat)
    requires i <= |s|
    ensures i <= j <= |s|
    decreases |s| - i
  {
    if CharAt(s, i) == ' ' || CharAt(s, i) == '\t' then SkipBlanks(s, i + 1) else i
  }

  /** The digits from `i` on: the value so far and where they end. */
  function ReadDigits(s: string, i: nat, base: nat, val: int): (r: (int, nat))
    requires i <= |s|
    ensures i <= r.1 <= |s|
    decreases |s| - i
  {
    var dig := DigitOf(CharAt(s, i));
    if dig == 99 || dig >= base then (val, i) else ReadDigits(s, i + 1, base, ToInt32(val * base + dig))
  }

  /** The base in force and where the digits start, after an optional prefix. */
  function Prefix(s: string, i: nat, base: nat): (r: (nat, nat))
    requires i <= |s|
    ensures i <= r.1 <= |s|
  {
    if (base == 0 || base == 16) && CharAt(s, i) == '0' && CharAt(s, i + 1) == 'x' then (16, i + 2)
    else if base == 0 && CharAt(s, i) == '0' then (8, i + 1)
    else if base == 0 then (10, i)
    else (base, i)
  }

  /** strtol: the value and the index `*endptr` is left at. */
  function ReadNumber(s: string, base: nat): (r: (int, nat))
    ensures r.1 <= |s|
  {
    var i := SkipBlanks(s, 0);
    var sign := CharAt(s, i);
    var p := Prefix(s, if sign == '+' || sign == '-' then i + 1 else i, base);
    var d := ReadDigits(s, p.1, p.0, 0);
    (if sign == '-' then ToInt32(-d.0) else d.0, d.1)
  }

  method Strtol(s: string, base0: nat) returns (val: int, end: nat)
    ensures (val, end) == ReadNumber(s, base0)
  {
    var i, base := 0, base0;
    while CharAt(s, i) == ' ' || CharAt(s, i) == '\t'
      invariant i <= |s| && SkipBlanks(s, i) == SkipBlanks(s, 0)
      decreases |s| - i
    {
      i := i + 1;
    }
    var neg := CharAt(s, i) == '-';
    if CharAt(s, i) == '+' || neg {
      i := i + 1;
    }
    ghost var p := Prefix(s, i, base0);
    if (base == 0 || base == 16) && CharAt(s, i) == '0' && CharAt(s, i + 1) == 'x' {
      i, base := i + 2, 16;
    } else if base == 0 && CharAt(s, i) == '0' {
      i, base := i + 1, 8;
    } else if base == 0 {
      base := 10;
    }
    assert p == (base, i);
    val, end := StrtolDigits(s, i, base);
    if neg { val := ToInt32(-val); }
  }

  /** The loop over the digits. */
  method StrtolDigits(s: string, start: nat, base: nat) returns (val: int, i: nat)
    requires start <= |s|
    ensures (val, i) == ReadDigits(s, start, base, 0)
  {
    val, i := 0, start;
    while true
      invariant i <= |s| && ReadDigits(s, i, base, val) == ReadDigits(s, start, base, 0)
      decreases |s| - i
    {
      var dig := DigitOf(CharAt(s, i));
      if dig == 99 || dig >= base { break; }
      i, val := i + 1, ToInt32(val * base + dig);
    }
  }

  // ---- Reading back what was printed

  /** The characters are digits of the base. */
  ghost predicate AllDigits(s: string, base: nat) {
    forall i :: 0 <= i < |s| ==> DigitOf(s[i]) < base
  }

  ghost function Value(s: string, base: nat): int {
    if s == "" then 0 else Value(s[..|s| - 1], base) * base + DigitOf(s[|s| - 1])
  }

  lemma DigitRoundTrip(d: nat)
    requires d < 16
    ensures DigitOf(DIGITS[d]) == d
  {
  }

  lemma {:induction false} ZerosAreNothing(n: int, base: nat)
    requires Base(base)
    ensures AllDigits(Repeat('0', n), base) && Value(Repeat('0', n), base) == 0
    decreases n
  {
    if n > 0 {
      ZerosAreNothing(n - 1, base);
      assert Repeat('0', n)[..n - 1] == Repeat('0', n - 1);
    }
  }

  lemma ValueOfMore(t: string, c: char, base: nat)
    requires AllDigits(t, base) && DigitOf(c) < base
    ensures AllDigits(t + [c], base) && Value(t + [c], base) == Value(t, base) * base + DigitOf(c)
  {
    assert (t + [c])[..|t|] == t;
  }

  /** Leading zeros do not count. */
  lemma {:induction false} LeadingZeros(n: int, digits: string, base: nat)
    requires Base(base) && AllDigits(digits, base)
    ensures AllDigits(Repeat('0', n) + digits, base)
    ensures Value(Repeat('0', n) + digits, base) == Value(digits, base)
    decreases |digits|
  {
    ZerosAreNothing(n, base);
    if digits != "" {
      var rest := digits[..|digits| - 1];
      LeadingZeros(n, rest, base);
      assert (Repeat('0', n) + digits)[..|Repeat('0', n) + digits| - 1] == Repeat('0', n) + rest;
    } else {
      assert Repeat('0', n) + digits == Repeat('0', n);
    }
  }

  lemma DivideOnce(num: nat, base: nat)
    requires Base(base)
    ensures num / base * base + num % base == num
    ensures if num >= base then num / base < num else num / base == 0
  {
  }

  lemma {:induction false} ValueOfDigits(num: nat, base: nat)
    requires Base(base)
    ensures AllDigits(Digits(num, base), base) && Value(Digits(num, base), base) == num
    decreases num
  {
    DivideOnce(num, base);
    DigitRoundTrip(num % base);
    var t := if num >= base then Digits(num / base, base) else "";
    if num >= base { ValueOfDigits(num / base, base); }
    ValueOfMore(t, DIGITS[num % base], base);
  }

  lemma WrapOnce(x: int, base: nat, d: nat)
    ensures ToInt32(ToInt32(x) * base + d) == ToInt32(x * base + d)
  {
    var k := WrapsBy(x);
    ShiftScales(x, ToInt32(x), k, base);
    WrapShift(ToInt32(x) * base + d, k * base);
  }

  lemma WrapsBy(x: int) returns (k: int)
    ensures x == ToInt32(x) + k * 0x1_0000_0000
  {
    k := (x - ToInt32(x)) / 0x1_0000_0000;
  }

  lemma ShiftScales(x: int, y: int, k: int, base: nat)
    requires x == y + k * 0x1_0000_0000
    ensures x * base == y * base + (k * base) * 0x1_0000_0000
  {
  }

  lemma WrapShift(x: int, k: int)
    ensures ToInt32(x + k * 0x1_0000_0000) == ToInt32(x)
  {
    assert (x + k * 0x1_0000_0000) % 0x1_0000_0000 == x % 0x1_0000_0000;
  }

  lemma ValueGrows(s: string, start: nat, i: nat, base: nat)
    requires start <= i < |s|
    ensures Value(s[start..i + 1], base) == Value(s[start..i], base) * base + DigitOf(s[i])
  {
    assert s[start..i + 1][..i - start] == s[start..i];
  }

  lemma {:induction false} BlanksSkipped(s: string, i: nat, n: nat)
    requires i <= n < |s| && (forall k :: 0 <= k < n ==> s[k] == ' ') && DigitOf(s[n]) < 16
    ensures SkipBlanks(s, i) == n
    decreases n - i
  {
    if i < n { BlanksSkipped(s, i + 1, n); }
  }

  // ---- What strtol reads

  const DECIMALS: string := "0123456789"
  const LOWER_CASE: string := "abcdefghijklmnopqrstuvwxyz"
  const UPPER_CASE: string := "ABCDEFGHIJKLMNOPQRSTUVWXYZ"

  lemma DecimalTable(d: nat)
    requires d < 10
    ensures DigitOf(DECIMALS[d]) == d
  {
  }

  lemma LowerTable(d: nat)
    requires d < 26
    ensures DigitOf(LOWER_CASE[d]) == 10 + d
  {
  }

  lemma UpperTable(d: nat)
    requires d < 26
    ensures DigitOf(UPPER_CASE[d]) == 10 + d
  {
  }

  /** The decimal digits and the letters, in either case, are digits, and nothing else is one. */
  lemma DigitTable(c: char)
    ensures forall d :: 0 <= d < 10 ==> DigitOf(DECIMALS[d]) == d
    ensures forall d :: 0 <= d < 26 ==> DigitOf(LOWER_CASE[d]) == 10 + d && DigitOf(UPPER_CASE[d]) == 10 + d
    ensures c in DECIMALS || c in LOWER_CASE || c in UPPER_CASE || DigitOf(c) == 99
  {
    forall d | 0 <= d < 10 ensures DigitOf(DECIMALS[d]) == d { DecimalTable(d); }
    forall d | 0 <= d < 26 ensures DigitOf(LOWER_CASE[d]) == 10 + d && DigitOf(UPPER_CASE[d]) == 10 + d {
      LowerTable(d);
      UpperTable(d);
    }
    if DigitOf(c) != 99 { DigitIsListed(c); }
  }

  lemma DigitIsListed(c: char)
    requires DigitOf(c) != 99
    ensures c in DECIMALS || c in LOWER_CASE || c in UPPER_CASE
  {
    if '0' <= c <= '9' {
      assert c == DECIMALS[c as int - '0' as int];
    } else if 'a' <= c <= 'z' {
      assert c == LOWER_CASE[c as int - 'a' as int];
    } else {
      assert c == UPPER_CASE[c as int - 'A' as int];
    }
  }

  predicate Blank(c: char) { c == ' ' || c == '\t' }

  lemma {:induction false} SkipsAll(s: string, i: nat, n: nat)
    requires i <= n <= |s| && (forall x :: i <= x < n ==> Blank(s[x])) && !Blank(CharAt(s, n))
    ensures SkipBlanks(s, i) == n
    decreases n - i
  {
    if i < n { SkipsAll(s, i + 1, n); }
  }

  /** Reading digits from `i` up to `stop`, the value of those in [start, i) in hand. */
  lemma {:induction false} ReadsDigitRun(s: string, start: nat, i: nat, stop: nat, base: nat)
    requires start <= i <= stop <= |s| && DigitRun(s, i, stop, base)
    ensures ReadDigits(s, i, base, ToInt32(Value(s[start..i], base))) == (ToInt32(Value(s[start..stop], base)), stop)
    decreases stop - i
  {
    if i < stop {
      ValueGrows(s, start, i, base);
      WrapOnce(Value(s[start..i], base), base, DigitOf(s[i]));
      ReadsDigitRun(s, start, i + 1, stop, base);
    }
  }

  /** The longest run of digits from `i` on ends at `stop`. */
  ghost predicate DigitRun(s: string, i: nat, stop: nat, base: nat)
    requires i <= stop <= |s|
  {
    && (forall x :: i <= x < stop ==> DigitOf(s[x]) != 99 && DigitOf(s[x]) < base)
    && (stop < |s| ==> DigitOf(s[stop]) == 99 || DigitOf(s[stop]) >= base)
  }

  lemma RunIsRead(s: string, i: nat, stop: nat, base: nat)
    requires i <= stop <= |s| && DigitRun(s, i, stop, base)
    ensures ReadDigits(s, i, base, 0) == (ToInt32(Value(s[i..stop], base)), stop)
  {
    assert s[i..i] == "";
    ReadsDigitRun(s, i, i, stop, base);
  }

  lemma NegationWraps(v: int)
    ensures ToInt32(-ToInt32(v)) == ToInt32(-v)
  {
    var k := WrapsBy(v);
    assert -ToInt32(v) == -v + k * 0x1_0000_0000;
    WrapShift(-v, k);
  }

  /** Nothing but blanks up to `i`, and then a sign up to `j`, if there is one. */
  ghost predicate SignAt(s: string, i: nat, j: nat)
    requires i <= j <= |s|
  {
    && (forall x :: 0 <= x < i ==> Blank(s[x])) && !Blank(CharAt(s, i))
    && j == if CharAt(s, i) in {'+', '-'} then i + 1 else i
  }

  /** From `i` to `j` a prefix, perhaps empty, of a number in base `b` for a caller that asked for `base`. */
  ghost predicate PrefixAt(s: string, i: nat, j: nat, base: nat, b: nat)
    requires i <= j <= |s|
  {
    var hex := CharAt(s, i) == '0' && CharAt(s, i + 1) == 'x';
    || (j == i + 2 && hex && base in {0, 16} && b == 16)
    || (j == i + 1 && CharAt(s, i) == '0' && !hex && base == 0 && b == 8)
    || (j == i && CharAt(s, i) != '0' && base == 0 && b == 10)
    || (j == i && !hex && base == 16 && b == 16)
    || (j == i && base !in {0, 16} && b == base)
  }

  lemma PrefixIsFound(s: string, i: nat, j: nat, base: nat, b: nat)
    requires i <= j <= |s| && PrefixAt(s, i, j, base, b)
    ensures Prefix(s, i, base) == (b, j)
  {
  }

  /**
   What strtol reads: after any blanks and an optional sign, and a prefix that says or confirms the
   base, the longest run of digits of that base, letters in either case; its value wraps at 32
   bits, and the end is where the run ends.
   */
  lemma StrtolReads(s: string, base: nat, i: nat, j: nat, k: nat, end: nat, b: nat)
    requires i <= j <= k <= end <= |s|
    requires SignAt(s, i, j) && PrefixAt(s, j, k, base, b) && DigitRun(s, k, end, b)
    ensures var v := Value(s[k..end], b);
      ReadNumber(s, base) == (ToInt32(if CharAt(s, i) == '-' then -v else v), end)
  {
    SkipsAll(s, 0, i);
    PrefixIsFound(s, j, k, base, b);
    RunIsRead(s, k, end, b);
    NegationWraps(Value(s[k..end], b));
  }

  /** Digits after a sign or a prefix of `n` characters. */
  lemma ReadsTail(s: string, n: nat, t: string, base: nat)
    requires base in {8, 10, 16} && n <= |s| && s[n..] == t && AllDigits(t, base)
    ensures ReadDigits(s, n, base, 0) == (ToInt32(Value(t, base)), |s|)
  {
    assert forall x :: n <= x < |s| ==> s[x] == t[x - n];
    RunIsRead(s, n, |s|, base);
    assert s[n..|s|] == t;
  }

  /** A digit string after blanks reads as its value. */
  lemma ReadsNumber(s: string, n: nat, base: nat)
    requires base in {8, 10, 16} && n < |s| && (forall k :: 0 <= k < n ==> s[k] == ' ') && AllDigits(s[n..], base)
    ensures ReadNumber(s, base) == (ToInt32(Value(s[n..], base)), |s|)
  {
    assert s[n] == s[n..][0];
    BlanksSkipped(s, 0, n);
    if n + 1 < |s| { assert s[n + 1] == s[n..][1]; }
    ReadsTail(s, n, s[n..], base);
  }

  /** Zero padding, or none, leaves digits only, of the same value. */
  lemma SolidNumber(digits: string, base: nat, width: int, padc: char)
    requires Base(base) && AllDigits(digits, base) && (padc == '0' || width <= |digits|)
    ensures AllDigits(Padded(digits, width, padc), base)
    ensures Value(Padded(digits, width, padc), base) == Value(digits, base)
  {
    LeadingZeros(width - |digits|, digits, base);
    if width <= |digits| {
      assert Repeat(padc, width - |digits|) == Repeat('0', width - |digits|);
    }
  }

  lemma PaddedReadsBack(digits: string, base: nat, width: int, padc: char)
    requires base in {8, 10, 16} && padc in {' ', '0'} && digits != "" && AllDigits(digits, base)
    ensures var s := Padded(digits, width, padc);
      ReadNumber(s, base) == (ToInt32(Value(digits, base)), |s|)
  {
    var s := Padded(digits, width, padc);
    if padc == '0' {
      SolidNumber(digits, base, width, padc);
      assert s[0..] == s;
      ReadsNumber(s, 0, base);
    } else {
      var pad := Repeat(' ', width - |digits|);
      assert s[|pad|..] == digits;
      ReadsNumber(s, |pad|, base);
    }
  }

  /**
   strtol undoes printnum: with the same base, and padding by blanks or zeros to any width,
   it reads back the number and stops at the terminator; above 2^31 it gives the number's
   low 32 bits as a signed long.
   */
  lemma PrintedReadsBack(num: nat, base: nat, width: int, padc: char)
    requires base in {8, 10, 16} && padc in {' ', '0'}
    ensures ReadNumber(Printed(num, base, width, padc), base) == (ToInt32(num), |Printed(num, base, width, padc)|)
    ensures ReadNumber(Printed(num, base, width, padc), base).0 == num <==> num < 0x8000_0000
  {
    ValueOfDigits(num, base);
    PaddedReadsBack(Digits(num, base), base, width, padc);
  }

  // ---- The integer conversions of vprintfmt

  datatype Conversion = Signed | Unsigned | Octal | Hex | Pointer

  /** What comes before the padding: a minus sign or 0x. */
  function Lead(conv: Conversion, arg: nat): string {
    if conv.Pointer? then "0x"
    else if (conv.Signed? || conv.Octal?) && ToInt32(arg) < 0 then "-" else ""
  }

  function Magnitude(conv: Conversion, arg: nat): nat {
    if conv.Signed? || conv.Octal? then (if ToInt32(arg) < 0 then -ToInt32(arg) else ToInt32(arg)) else arg
  }

  function BaseOf(conv: Conversion): (base: nat)
    ensures Base(base)
  {
    match conv
    case Octal => 8
    case Signed => 10
    case Unsigned => 10
    case Hex => 16
    case Pointer => 16
  }

  /** The 32-bit argument `arg` printed under one conversion. */
  function Formatted(conv: Conversion, arg: nat, width: int, padc: char): (s: string) {
    Lead(conv, arg) + Printed(Magnitude(conv, arg), BaseOf(conv), width, padc)
  }

  method FormatInteger(sink: Sink, conv: Conversion, arg: nat, width: int, padc: char)
    modifies sink
    ensures sink.out == old(sink.out) + Formatted(conv, arg, width, padc)
  {
    var num, base := PrintLead(sink, conv, arg);
    Printnum(sink, num, base, width, padc);
    assert sink.out == old(sink.out) + (Lead(conv, arg) + Printed(num, base, width, padc));
  }

  /** The case of the switch for one conversion, up to the label `number`. */
  method PrintLead(sink: Sink, conv: Conversion, arg: nat) returns (num: nat, base: nat)
    modifies sink
    ensures sink.out == old(sink.out) + Lead(conv, arg)
    ensures num == Magnitude(conv, arg) && base == BaseOf(conv)
  {
    num, base := arg, 16;
    match conv {
      case Signed =>
        num := PrintSign(sink, ToInt32(arg));
        base := 10;
      case Octal =>
        num := PrintSign(sink, ToInt32(arg));
        base := 8;
      case Unsigned =>
        base := 10;
      case Hex =>
      case Pointer =>
        sink.Putch('0');
        sink.Putch('x');
    }
  }

  method PrintSign(sink: Sink, n: int) returns (num: nat)
    modifies sink
    ensures sink.out == old(sink.out) + if n < 0 then "-" else ""
    ensures num == if n < 0 then -n else n
  {
    num := if n < 0 then -n else n;
    if n < 0 { sink.Putch('-'); }
  }

  /**
   `s` is the number `n` in base `base`: digits of the base, letters in lower case, without a
   leading zero unless that is all there is.
   */
  ghost predicate Numeral(s: string, n: nat, base: nat) {
    && s != "" && (s[0] == '0' ==> |s| == 1) && Value(s, base) == n
    && forall i :: 0 <= i < |s| ==> DigitOf(s[i]) < base && s[i] !in UPPER_CASE
  }

  lemma LowerCaseDigit(d: nat)
    requires d < 16
    ensures DIGITS[d] !in UPPER_CASE && (DIGITS[d] == '0' ==> d == 0)
  {
    LowerCaseTable();
    assert DIGITS[d] in DIGITS;
  }

  lemma LowerCaseTable()
    ensures forall c :: c in DIGITS ==> '0' <= c <= '9' || 'a' <= c <= 'f'
    ensures forall c :: c in UPPER_CASE ==> 'A' <= c <= 'Z'
  {
  }

  lemma LeadingZeroIsZero(s: string, n: nat, base: nat)
    requires Numeral(s, n, base) && s[0] == '0'
    ensures n == 0
  {
    assert s[..|s| - 1] == "" && Value("", base) == 0;
    assert Value(s, base) == Value("", base) * base + DigitOf('0');
  }

  /** One digit more. */
  lemma NumeralGrows(rest: string, num: nat, base: nat)
    requires Base(base) && num >= base && Numeral(rest, num / base, base)
    ensures Numeral(rest + [DIGITS[num % base]], num, base)
  {
    DivideOnce(num, base);
    var d := num % base;
    LowerCaseDigit(d);
    DigitRoundTrip(d);
    if rest[0] == '0' { LeadingZeroIsZero(rest, num / base, base); }
    assert (rest + [DIGITS[d]])[..|rest|] == rest;
  }

  lemma NumeralStarts(num: nat, base: nat)
    requires Base(base) && num < base
    ensures Numeral([DIGITS[num]], num, base)
  {
    LowerCaseDigit(num);
    DigitRoundTrip(num);
    assert [DIGITS[num]][..0] == "";
  }

  lemma {:induction false} DigitsAreNumeral(num: nat, base: nat)
    requires Base(base)
    ensures Numeral(Digits(num, base), num, base)
    decreases num
  {
    DivideOnce(num, base);
    if num >= base {
      DigitsAreNumeral(num / base, base);
      NumeralGrows(Digits(num / base, base), num, base);
    } else {
      NumeralStarts(num, base);
      assert Digits(num, base) == [DIGITS[num]];
    }
  }

  /**
   What the integer conversions print: a minus sign for a negative %d or %o, or the 0x of a %p;
   then padding up to the width; then the number in the conversion's base.
   */
  lemma FormattedIs(conv: Conversion, arg: nat, width: int, padc: char)
    returns (lead: string, pad: string, digits: string)
    ensures Formatted(conv, arg, width, padc) == lead + (pad + digits)
    ensures var n := ToInt32(arg);
      match conv
      case Signed => lead == (if n < 0 then "-" else "") && Numeral(digits, if n < 0 then -n else n, 10)
      case Octal => lead == (if n < 0 then "-" else "") && Numeral(digits, if n < 0 then -n else n, 8)
      case Unsigned => lead == "" && Numeral(digits, arg, 10)
      case Hex => lead == "" && Numeral(digits, arg, 16)
      case Pointer => lead == "0x" && Numeral(digits, arg, 16)
    ensures |pad| == (if width > |digits| then width - |digits| else 0) && forall i :: 0 <= i < |pad| ==> pad[i] == padc
  {
    var m, base := Magnitude(conv, arg), BaseOf(conv);
    lead, digits := Lead(conv, arg), Digits(m, base);
    pad := Repeat(padc, width - |digits|);
    DigitsAreNumeral(m, base);
  }

  /** Digits right after a minus sign. */
  lemma ReadsNegative(t: string, base: nat, v: int)
    requires base in {8, 10, 16} && t != "" && AllDigits(t, base) && Value(t, base) == v
    ensures ReadNumber("-" + t, base) == (ToInt32(-ToInt32(v)), 1 + |t|)
  {
    var s := "-" + t;
    assert s[1..] == t && s[1] == t[0];
    assert SkipBlanks(s, 0) == 0;
    NoPrefix(s, t, base);
    ReadsTail(s, 1, t, base);
  }

  /** Digits of the base do not look like a prefix. */
  lemma NoPrefix(s: string, t: string, base: nat)
    requires base in {8, 10, 16} && s == "-" + t && AllDigits(t, base)
    ensures Prefix(s, 1, base) == (base, 1)
  {
    assert |t| > 1 ==> DigitOf(t[1]) < base && CharAt(s, 2) == t[1];
  }

  lemma SignBeforePadding(digits: string, base: nat, width: int, padc: char)
    requires base in {8, 10} && padc in {' ', '0'} && digits != "" && AllDigits(digits, base)
    requires 0 < Value(digits, base) <= 0x8000_0000
    ensures var s := "-" + Padded(digits, width, padc);
      ReadNumber(s, base) == (0 - Value(digits, base), |s|) <==> padc == '0' || width <= |digits|
  {
    var t := Padded(digits, width, padc);
    if padc == '0' || width <= |digits| {
      SolidAfterSign(digits, base, width, padc, Value(digits, base));
    } else {
      assert t[0] == ' ';
      BlankAfterSign(t, base);
    }
  }

  /** No blank after the sign: the number is read whole. */
  lemma SolidAfterSign(digits: string, base: nat, width: int, padc: char, v: int)
    requires base in {8, 10} && padc in {' ', '0'} && digits != "" && AllDigits(digits, base)
    requires 0 < Value(digits, base) == v <= 0x8000_0000 && (padc == '0' || width <= |digits|)
    ensures var t := Padded(digits, width, padc); ReadNumber("-" + t, base) == (0 - v, 1 + |t|)
  {
    SolidNumber(digits, base, width, padc);
    ReadsSmallNegative(Padded(digits, width, padc), base, v);
  }

  lemma ReadsSmallNegative(t: string, base: nat, v: int)
    requires base in {8, 10} && t != "" && AllDigits(t, base) && Value(t, base) == v && 0 < v <= 0x8000_0000
    ensures ReadNumber("-" + t, base) == (0 - v, 1 + |t|)
  {
    ReadsNegative(t, base, v);
    NegatesBack(v);
  }

  lemma NegatesBack(v: int)
    requires 0 < v <= 0x8000_0000
    ensures ToInt32(-ToInt32(v)) == -v
  {
  }

  /** A blank right after the sign ends the number before its first digit. */
  lemma BlankAfterSign(t: string, base: nat)
    requires base in {8, 10} && t != "" && t[0] == ' '
    ensures ReadNumber("-" + t, base) == (0, 1)
  {
    var s := "-" + t;
    assert s[0] == '-' && s[1] == t[0] == ' ';
    assert SkipBlanks(s, 0) == 0;
    assert ReadDigits(s, 1, base, 0) == (0, 1);
  }

  /**
   %d in base 10 and %o in base 8 read back as the number printed exactly when no blanks come
   between a minus sign and the digits: vprintfmt puts the sign before the padding.
   */
  lemma SignedReadsBack(conv: Conversion, arg: nat, width: int, padc: char)
    requires (conv.Signed? || conv.Octal?) && padc in {' ', '0'}
    ensures var s := Formatted(conv, arg, width, padc); var n := ToInt32(arg);
      var base := if conv.Octal? then 8 else 10;
      ReadNumber(s, base) == (n, |s|) <==>
      n >= 0 || padc == '0' || width <= |Digits(-n, base)|
  {
    var n := ToInt32(arg);
    var base := if conv.Octal? then 8 else 10;
    SignedIs(conv, arg, width, padc, n, base);
    SignedTextReadsBack(Formatted(conv, arg, width, padc), n, base, width, padc);
  }

  lemma SignedTextReadsBack(s: string, n: int, base: nat, width: int, padc: char)
    requires base in {8, 10} && padc in {' ', '0'} && -0x8000_0000 <= n < 0x8000_0000
    requires s == if n >= 0 then Printed(n, base, width, padc) else "-" + Printed(-n, base, width, padc)
    ensures ReadNumber(s, base) == (n, |s|) <==> n >= 0 || padc == '0' || width <= |Digits(-n, base)|
  {
    if n >= 0 {
      PrintedReadsBack(n, base, width, padc);
    } else {
      NegativeReadsBack(-n, base, width, padc);
    }
  }

  lemma SignedIs(conv: Conversion, arg: nat, width: int, padc: char, n: int, base: nat)
    requires (conv == Signed && base == 10) || (conv == Octal && base == 8)
    requires n == ToInt32(arg)
    ensures n >= 0 ==> Formatted(conv, arg, width, padc) == Printed(n, base, width, padc)
    ensures n < 0 ==> Formatted(conv, arg, width, padc) == "-" + Printed(-n, base, width, padc)
  {
    if n >= 0 { assert "" + Printed(n, base, width, padc) == Printed(n, base, width, padc); }
  }

  /** %u in base 10 and %x in base 16 read back as the argument's 32 bits, whatever the width and padding. */
  lemma UnsignedReadsBack(conv: Conversion, arg: nat, width: int, padc: char)
    requires (conv.Unsigned? || conv.Hex?) && padc in {' ', '0'}
    ensures var s := Formatted(conv, arg, width, padc);
      ReadNumber(s, if conv.Hex? then 16 else 10) == (ToInt32(arg), |s|)
  {
    var base := if conv.Hex? then 16 else 10;
    assert Formatted(conv, arg, width, padc) == Printed(arg, base, width, padc);
    PrintedReadsBack(arg, base, width, padc);
  }

  lemma NegativeReadsBack(m: nat, base: nat, width: int, padc: char)
    requires base in {8, 10} && padc in {' ', '0'} && 0 < m <= 0x8000_0000
    ensures var s := "-" + Printed(m, base, width, padc);
      ReadNumber(s, base) == (0 - m, |s|) <==> padc == '0' || width <= |Digits(m, base)|
  {
    var digits := Digits(m, base);
    ValueOfDigits(m, base);
    SignBeforePadding(digits, base, width, padc);
  }

  lemma PrefixReadsBack(digits: string, base: nat, width: int, padc: char)
    requires base in {0, 16} && padc in {' ', '0'} && digits != "" && AllDigits(digits, 16)
    ensures var s := "0x" + Padded(digits, width, padc);
      ReadNumber(s, base) == (ToInt32(Value(digits, 16)), |s|) <==> padc == '0' || width <= |digits|
  {
    var t := Padded(digits, width, padc);
    var s := "0x" + t;
    assert s[2..] == t && s[0] == '0' && s[1] == 'x';
    assert SkipBlanks(s, 0) == 0;
    if padc == '0' || width <= |digits| {
      SolidNumber(digits, 16, width, padc);
      ReadsTail(s, 2, t, 16);
    } else {
      assert s[2] == t[0] == ' ';
      assert ReadDigits(s, 2, 16, 0) == (0, 2);
    }
  }

  /**
   %p reads back under base 16, or under base 0, which takes the prefix as the base, exactly
   when no blanks stand between the prefix and the digits.
   */
  lemma PointerReadsBack(arg: nat, base: nat, width: int, padc: char)
    requires base in {0, 16} && padc in {' ', '0'}
    ensures var s := Formatted(Pointer, arg, width, padc);
      ReadNumber(s, base) == (ToInt32(arg), |s|) <==> padc == '0' || width <= |Digits(arg, 16)|
  {
    ValueOfDigits(arg, 16);
    PrefixReadsBack(Digits(arg, 16), base, width, padc);
  }
}
