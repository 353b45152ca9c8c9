/** printk: a format is a run of characters and directives, each directive one piece of output. */
module Printk {
  import opened Digits
  import opened Options
  import opened Text

  /** A variadic argument, by the type it is fetched with. A string is what comes before its NUL. */
  datatype Arg =
    | CharArg(c: char)
    | StrArg(s: Option<string>)
    | IntArg(i: int)
    | UintArg(u: nat)
    | LongArg(l: nat)
    | PtrArg(p: nat)
  {
    predicate InRange() {
      match this
      case StrArg(s) => s.Some? ==> '\0' !in s.value
      case IntArg(i) => -0x8000_0000 <= i < 0x8000_0000
      case UintArg(u) => u < 0x1_0000_0000
      case LongArg(l) => l < 0x1_0000_0000_0000_0000
      case PtrArg(p) => p < 0x1_0000_0000
      case _ => true
    }
  }

  // ---- Reading a directive ----

  /** Length of the run of digits at the start of s. */
  function DigitRun(s: string): (k: nat)
    ensures k <= |s|
    ensures forall i | 0 <= i < k :: IsDigit(s[i])
    ensures k < |s| ==> !IsDigit(s[k])
  {
    if s == [] || !IsDigit(s[0]) then 0 else 1 + DigitRun(s[1..])
  }

  /** The parts of a directive: what stands between the percent sign and what follows the directive. */
  datatype Directive = Directive(zero: bool, width: nat, long: bool, conversion: char, length: nat)

  /** Where the width digits start, where they end, and where the conversion is. */
  function WidthStart(f: string): nat {
    if f != [] && f[0] == '0' then 1 else 0
  }

  function WidthEnd(f: string): (k: nat)
    ensures WidthStart(f) <= k <= |f|
  {
    WidthStart(f) + DigitRun(f[WidthStart(f)..])
  }

  function ConversionAt(f: string): (k: nat)
    ensures WidthEnd(f) <= k <= |f|
  {
    var k := WidthEnd(f);
    if k + 1 < |f| && f[k] == 'l' && f[k + 1] == 'l' then k + 2 else k
  }

  /** The directive at the start of f, the text after a percent sign. The width is kept in 32 bits. */
  function Parse(f: string): (d: Directive)
    requires ConversionAt(f) < |f|
    ensures 0 < d.length <= |f|
  {
    Directive(
      WidthStart(f) == 1,
      Value(f[WidthStart(f)..WidthEnd(f)], 10) % 0x1_0000_0000,
      ConversionAt(f) != WidthEnd(f),
      f[ConversionAt(f)],
      ConversionAt(f) + 1)
  }

  /**
   What comes before the NUL of a format in which every percent sign starts a directive that is
   completed by some character.
   */
  predicate WellFormed(f: string)
    decreases |f|
  {
    f == [] ||
    if f[0] != '%' then f[0] != '\0' && WellFormed(f[1..])
    else
      && ConversionAt(f[1..]) < |f[1..]| && f[1..][ConversionAt(f[1..])] != '\0'
      && WellFormed(f[1..][Parse(f[1..]).length..])
  }

  // ---- What a directive prints ----

  /** Whether the argument is of the type the conversion fetches. */
  predicate Matches(d: Directive, a: Arg) {
    && a.InRange()
    && match d.conversion
       case 'c' => a.CharArg?
       case 's' => a.StrArg?
       case 'd' => a.IntArg?
       case 'i' => a.IntArg?
       case 'u' => a.UintArg?
       case 'x' => if d.long then a.LongArg? else a.UintArg?
       case 'p' => a.PtrArg?
       case _ => false
  }

  predicate TakesArg(conversion: char) {
    conversion in "csdiuxp"
  }

  function SignedPiece(number: int, zero: bool, width: nat): string {
    var length := |Signed(number)|;
    if number < 0 && zero then ['-'] + Padding(length, width, '0') + Dec(-number)
    else Padding(length, width, if zero then '0' else ' ') + Signed(number)
  }

  function Piece(d: Directive, a: Arg): string
    requires Matches(d, a)
  {
    var pad := if d.zero then '0' else ' ';
    match d.conversion
    case 'c' => [a.c]
    case 's' => if a.s.None? then "(null)" else a.s.value
    case 'u' => Padding(|Dec(a.u)|, d.width, pad) + Dec(a.u)
    case 'x' =>
      var number := if d.long then a.l else a.u;
      Padding(|Hex(number)|, d.width, pad) + Hex(number)
    case 'p' => "0x" + Padding(|Hex(a.p)|, 8, '0') + Hex(a.p)
    case _ => SignedPiece(a.i, d.zero, d.width)
  }

  predicate ArgsMatch(f: string, args: seq<Arg>)
    requires WellFormed(f)
    decreases |f|
  {
    if f == [] then true
    else if f[0] != '%' then ArgsMatch(f[1..], args)
    else
      var d := Parse(f[1..]);
      var rest := f[1..][d.length..];
      if TakesArg(d.conversion) then args != [] && Matches(d, args[0]) && ArgsMatch(rest, args[1..])
      else ArgsMatch(rest, args)
  }

  /** The whole output, piece by piece; an unknown conversion is echoed as it was written. */
  function Format(f: string, args: seq<Arg>): string
    requires WellFormed(f) && ArgsMatch(f, args)
    decreases |f|
  {
    if f == [] then []
    else if f[0] != '%' then [f[0]] + Format(f[1..], args)
    else
      var d := Parse(f[1..]);
      var rest := f[1..][d.length..];
      if TakesArg(d.conversion) then Piece(d, args[0]) + Format(rest, args[1..])
      else (if d.conversion == '%' then "%" else f[..1 + d.length]) + Format(rest, args)
  }

  // ---- What the pieces say ----

  function Strip(s: string): string {
    if s != [] && s[0] == ' ' then Strip(s[1..]) else s
  }

  /** The number printed: blanks are skipped, then a sign may come, then the digits. */
  function ReadBack(s: string, base: Base): int {
    var t := Strip(s);
    if t != [] && t[0] == '-' then 0 - Value(t[1..], base) else Value(t, base)
  }

  lemma {:induction false} StripBlanks(k: nat, s: string)
    requires s != [] && s[0] != ' '
    ensures Strip(seq(k, _ => ' ') + s) == s
  {
    var t := seq(k, _ => ' ') + s;
    if k == 0 {
      assert t == s;
    } else {
      StripBlanks(k - 1, s);
      assert t[1..] == seq(k - 1, _ => ' ') + s;
    }
  }

  lemma {:induction false} ValueZeros(k: nat, s: string, base: Base)
    ensures Value(seq(k, _ => '0') + s, base) == Value(s, base)
  {
    var t := seq(k, _ => '0') + s;
    if s != [] {
      ValueZeros(k, s[..|s| - 1], base);
      assert t[..|t| - 1] == seq(k, _ => '0') + s[..|s| - 1];
    } else if k > 0 {
      ValueZeros(k - 1, [], base);
      assert t[..|t| - 1] == seq(k - 1, _ => '0') + [];
    } else {
      assert t == [];
    }
  }

  /** Padding never changes the number printed, and pads to exactly the width asked for. */
  lemma UnsignedReadsBack(n: nat, base: Base, zero: bool, width: nat)
    ensures
      var s := Padding(|Numeral(n, base)|, width, if zero then '0' else ' ') + Numeral(n, base);
      ReadBack(s, base) == n && |s| == Max(width, |Numeral(n, base)|)
  {
    var k := |Padding(|Numeral(n, base)|, width, '0')|;
    NumeralStarts(n, base);
    NumeralRoundTrip(n, base);
    if zero && k > 0 {
      ValueZeros(k, Numeral(n, base), base);
    } else {
      StripBlanks(k, Numeral(n, base));
    }
  }

  /**
   Every 32-bit number, the least included, reads back from what is printed of it, whatever
   the padding: the sign comes before the zeros and after the blanks.
   */
  lemma SignedReadsBack(n: int, zero: bool, width: nat)
    ensures ReadBack(SignedPiece(n, zero, width), 10) == n
    ensures |SignedPiece(n, zero, width)| == Max(width, |Signed(n)|)
  {
    if n >= 0 {
      UnsignedReadsBack(n, 10, zero, width);
    } else if zero {
      ZeroPaddedReadsBack(n, width);
    } else {
      var k := |Padding(|Signed(n)|, width, ' ')|;
      NumeralRoundTrip(-n, 10);
      StripBlanks(k, Signed(n));
      assert Signed(n)[1..] == Dec(-n);
    }
  }

  lemma ZeroPaddedReadsBack(n: int, width: nat)
    requires n < 0
    ensures ReadBack(SignedPiece(n, true, width), 10) == n
    ensures |SignedPiece(n, true, width)| == Max(width, |Signed(n)|)
  {
    hide Value, Numeral;
    var zeros := Padding(|Signed(n)|, width, '0');
    var digits := Dec(-n);
    ValueZeros(|zeros|, digits, 10);
    NumeralRoundTrip(-n, 10);
    var t := SignedPiece(n, true, width);
    assert t == ['-'] + (zeros + digits);
    assert Strip(t) == t && t[1..] == zeros + digits;
  }

  /** Text without a percent sign is printed as it is. */
  lemma {:induction false} PlainText(p: string, f: string, args: seq<Arg>)
    requires '%' !in p && '\0' !in p && WellFormed(f) && ArgsMatch(f, args)
    ensures WellFormed(p + f) && ArgsMatch(p + f, args)
    ensures Format(p + f, args) == p + Format(f, args)
  {
    if p == [] {
      assert p + f == f;
    } else {
      PlainText(p[1..], f, args);
      assert (p + f)[1..] == p[1..] + f;
    }
  }

  /** A bare string directive prints its string. */
  lemma StringDirective(s: string, f: string, args: seq<Arg>)
    requires '\0' !in s && WellFormed(f) && ArgsMatch(f, args)
    ensures
      var g := "%s" + f;
      var a := [StrArg(Some(s))] + args;
      WellFormed(g) && ArgsMatch(g, a) && Format(g, a) == s + Format(f, args)
  {
    var g := "%s" + f;
    assert g[1..] == "s" + f;
    assert g[1..][1..] == f;
    assert ([StrArg(Some(s))] + args)[1..] == args;
  }

  // ---- The loops ----

  lemma ValueDigit(s: string, c: char)
    requires IsDigit(c)
    ensures Value(s + [c], 10) == Value(s, 10) * 10 + (c as int - '0' as int)
  {
    assert (s + [c])[..|s|] == s;
  }

  /** Keeping 32 bits at every step keeps them at the end. */
  lemma WidthStep(v: nat, d: nat)
    ensures (v % 0x1_0000_0000 * 10 + d) % 0x1_0000_0000 == (v * 10 + d) % 0x1_0000_0000
  {
    var q := v / 0x1_0000_0000;
    assert v * 10 + d == (v % 0x1_0000_0000 * 10 + d) + 10 * q * 0x1_0000_0000;
  }

  method ReadWidth(s: string, start: nat) returns (width: nat, i: nat)
    requires start <= |s|
    ensures i == start + DigitRun(s[start..])
    ensures width == Value(s[start..i], 10) % 0x1_0000_0000
  {
    hide Value;
    ValueNil(10);
    assert s[start..start] == [];
    width, i := 0, start;
    while i < |s| && IsDigit(s[i])
      invariant start <= i <= |s|
      invariant start + DigitRun(s[start..]) == i + DigitRun(s[i..])
      invariant width == Value(s[start..i], 10) % 0x1_0000_0000
    {
      assert s[i..][1..] == s[i + 1..];
      ValueDigit(s[start..i], s[i]);
      assert s[start..i] + [s[i]] == s[start..i + 1];
      WidthStep(Value(s[start..i], 10), s[i] as int - '0' as int);
      width := (width * 10 + (s[i] as int - '0' as int)) % 0x1_0000_0000;
      i := i + 1;
    }
  }

  lemma SliceOfRest(s: string, start: nat, i: nat, j: nat)
    requires start + i <= start + j <= |s|
    ensures s[start..][i..j] == s[start + i..start + j]
  {
  }

  /** Reads the directive that starts at position start, just after a percent sign. */
  method ReadDirective(s: string, start: nat) returns (d: Directive)
    requires start <= |s| && ConversionAt(s[start..]) < |s| - start
    ensures d == Parse(s[start..])
  {
    hide Value, DigitRun;
    ghost var f := s[start..];
    var i := start;
    var zero := i < |s| && s[i] == '0';
    if zero {
      i := i + 1;
    }
    assert i == start + WidthStart(f) && s[i..] == f[WidthStart(f)..];
    var width, end := ReadWidth(s, i);
    SliceOfRest(s, start, WidthStart(f), WidthEnd(f));
    assert end == start + WidthEnd(f);
    hide WidthStart, WidthEnd;
    i := end;
    var long := i + 1 < |s| && s[i] == 'l' && s[i + 1] == 'l';
    if long {
      i := i + 2;
    }
    d := Directive(zero, width, long, s[i], i - start + 1);
  }

  method PutSigned(number: int, zero: bool, width: nat) returns (out: string, count: nat)
    requires -0x8000_0000 <= number < 0x8000_0000
    ensures out == SignedPiece(number, zero, width) && count == |out|
  {
    var absolute := if number < 0 then -(number + 1) + 1 else number;
    var length := Nbrlen(absolute);
    length := length + if number < 0 then 1 else 0;
    var pad := if zero then '0' else ' ';
    var padding, padded := Putpadding(length, width, pad);
    if number < 0 && pad == '0' {
      var digits, digitCount := Putunbr(absolute);
      return ['-'] + padding + digits, 1 + padded + digitCount;
    }
    var digits, digitCount := Putnbr(number);
    return padding + digits, padded + digitCount;
  }

  method Putptr(address: nat) returns (out: string, count: nat)
    requires address < 0x1_0000_0000
    ensures out == "0x" + Padding(|Hex(address)|, 8, '0') + Hex(address) && count == |out|
  {
    var length := Hexlen(address);
    var padding, padded := Putpadding(length, 8, '0');
    var digits, digitCount := Puthex(address);
    return "0x" + padding + digits, 2 + padded + digitCount;
  }

  /** Prints what the directive makes of its argument. */
  method PutPiece(d: Directive, a: Arg) returns (out: string, count: nat)
    requires Matches(d, a)
    ensures out == Piece(d, a) && count == |out|
  {
    var pad := if d.zero then '0' else ' ';
    match d.conversion
    case 'c' =>
      return [a.c], 1;
    case 's' =>
      var s := if a.s.None? then "(null)" else a.s.value;
      return s, |s|;
    case 'u' =>
      var length := Nbrlen(a.u);
      var padding, padded := Putpadding(length, d.width, pad);
      var digits, digitCount := Putunbr(a.u);
      return padding + digits, padded + digitCount;
    case 'x' =>
      var number := if d.long then a.l else a.u;
      var length := Hexlen(number);
      var padding, padded := Putpadding(length, d.width, pad);
      var digits, digitCount := Puthex(number);
      return padding + digits, padded + digitCount;
    case 'p' =>
      out, count := Putptr(a.p);
    case _ =>
      out, count := PutSigned(a.i, d.zero, d.width);
  }

  /** Echoes the characters of an unknown conversion. */
  method PutRaw(s: string, start: nat, end: nat) returns (out: string, count: nat)
    requires start <= end <= |s|
    ensures out == s[start..end] && count == |out|
  {
    out, count := [], 0;
    for j := start to end
      invariant out == s[start..j] && count == |out|
    {
      out := out + [s[j]];
      count := count + 1;
    }
  }

  /** Prints the directive at position i with the arguments from k on, and steps over both. */
  method PutDirective(s: string, i: nat, args: seq<Arg>, k: nat)
    returns (out: string, count: nat, next: nat, nextArg: nat)
    requires i < |s| && s[i] == '%' && k <= |args|
    requires WellFormed(s[i..]) && ArgsMatch(s[i..], args[k..])
    ensures i < next <= |s| && k <= nextArg <= |args|
    ensures WellFormed(s[next..]) && ArgsMatch(s[next..], args[nextArg..])
    ensures Format(s[i..], args[k..]) == out + Format(s[next..], args[nextArg..])
    ensures count == |out|
  {
    assert s[i..][1..] == s[i + 1..];
    var d := ReadDirective(s, i + 1);
    next, nextArg := i + 1 + d.length, k;
    assert s[i..][1..][d.length..] == s[next..];
    if TakesArg(d.conversion) {
      assert args[k..][1..] == args[k + 1..];
      out, count := PutPiece(d, args[k]);
      nextArg := k + 1;
    } else if d.conversion == '%' {
      out, count := "%", 1;
    } else {
      assert s[i..][..1 + d.length] == s[i..next];
      out, count := PutRaw(s, i, next);
    }
  }

  /** A character that is not a percent sign is printed as it is. */
  lemma FormatPlain(s: string, i: nat, args: seq<Arg>)
    requires i < |s| && s[i] != '%' && WellFormed(s[i..]) && ArgsMatch(s[i..], args)
    ensures WellFormed(s[i + 1..]) && ArgsMatch(s[i + 1..], args)
    ensures Format(s[i..], args) == [s[i]] + Format(s[i + 1..], args)
  {
    assert s[i..][1..] == s[i + 1..];
  }

  method Printk(s: string, args: seq<Arg>) returns (out: string, count: nat)
    requires WellFormed(s) && ArgsMatch(s, args)
    ensures out == Format(s, args) && count == |out|
  {
    hide WellFormed, ArgsMatch, Format;
    out, count := [], 0;
    var i, k := 0, 0;
    assert s[0..] == s && args[0..] == args;
    while i < |s|
      invariant i <= |s| && k <= |args| && count == |out|
      invariant WellFormed(s[i..]) && ArgsMatch(s[i..], args[k..])
      invariant out + Format(s[i..], args[k..]) == Format(s, args)
    {
      hide *;
      if s[i] == '%' {
        var piece, pieceCount, next, nextArg := PutDirective(s, i, args, k);
        Associate(out, piece, Format(s[next..], args[nextArg..]));
        out, count, i, k := out + piece, count + pieceCount, next, nextArg;
      } else {
        FormatPlain(s, i, args[k..]);
        Associate(out, [s[i]], Format(s[i + 1..], args[k..]));
        out, count, i := out + [s[i]], count + 1, i + 1;
      }
    }
    assert s[i..] == [];
    FormatEnd(args[k..]);
  }

  lemma FormatEnd(args: seq<Arg>)
    ensures WellFormed([]) && ArgsMatch([], args) && Format([], args) == []
  {
  }
}
