/** What printk prints for each directive, as it is spelled in the format. */
module Directives {
  import opened Text
  import opened Options
  import opened Digits
  import opened Printk

  /** A directive without its percent sign: a zero flag, the digits of a width, "ll", and the conversion. */
  function Spec(zero: bool, digits: string, long: bool, c: char): (s: string)
    ensures s != [] && s[|s| - 1] == c
  {
    (if zero then "0" else "") + digits + (if long then "ll" else "") + [c]
  }

  /** The parts are told apart as they are meant to be, in front of the rest f. */
  predicate Spelled(zero: bool, digits: string, long: bool, c: char, f: string) {
    && (forall d | d in digits :: IsDigit(d))
    && (!zero && digits != [] ==> digits[0] != '0')
    && !IsDigit(c) && c != '\0'
    && !(c == 'l' && !long && f != [] && f[0] == 'l')
  }

  /** The directive g prints s, and then come the rest f of the format and the rest of the arguments. */
  predicate Prints(g: string, gArgs: seq<Arg>, f: string, fArgs: seq<Arg>, s: string) {
    && WellFormed(g) && ArgsMatch(g, gArgs) && WellFormed(f) && ArgsMatch(f, fArgs)
    && Format(g, gArgs) == s + Format(f, fArgs)
  }

  // ---- Reading it back ----

  lemma {:induction false} DigitRunIs(digits: string, rest: string)
    requires forall d | d in digits :: IsDigit(d)
    requires rest != [] && !IsDigit(rest[0])
    ensures DigitRun(digits + rest) == |digits|
  {
    if digits == [] {
      assert digits + rest == rest;
    } else {
      DigitRunIs(digits[1..], rest);
      assert (digits + rest)[1..] == digits[1..] + rest;
    }
  }

  /** Where the width of a directive ends, and what comes after it. */
  lemma WidthOf(zero: bool, digits: string, rest: string)
    requires forall d | d in digits :: IsDigit(d)
    requires !zero && digits != [] ==> digits[0] != '0'
    requires rest != [] && !IsDigit(rest[0])
    ensures
      var t := (if zero then "0" else "") + digits + rest;
      && WidthStart(t) == (if zero then 1 else 0) && WidthEnd(t) == WidthStart(t) + |digits|
      && t[WidthStart(t)..WidthEnd(t)] == digits && t[WidthEnd(t)..] == rest
  {
    hide DigitRun;
    var flag := if zero then "0" else "";
    var t := flag + digits + rest;
    assert WidthStart(t) == |flag|;
    assert t[|flag|..] == digits + rest;
    DigitRunIs(digits, rest);
  }

  lemma SpelledParses(zero: bool, digits: string, long: bool, c: char, f: string)
    requires Spelled(zero, digits, long, c, f)
    ensures
      var t := Spec(zero, digits, long, c) + f;
      && ConversionAt(t) == |Spec(zero, digits, long, c)| - 1 && t[ConversionAt(t)] == c
      && Parse(t) ==
         Directive(zero, Value(digits, 10) % 0x1_0000_0000, long, c, |Spec(zero, digits, long, c)|)
  {
    hide Value, DigitRun, WidthStart, WidthEnd;
    var t := Spec(zero, digits, long, c) + f;
    var rest := (if long then "ll" else "") + [c] + f;
    assert t == (if zero then "0" else "") + digits + rest;
    WidthOf(zero, digits, rest);
    var k := WidthEnd(t);
    assert t[k] == t[k..][0] == rest[0];
    assert |rest| > 1 ==> t[k + 1] == t[k..][1] == rest[1];
    assert long ==> t[k + 2] == t[k..][2] == rest[2];
  }

  /** The first step of a format that starts with a directive. */
  lemma FirstWithArg(u: string, d: Directive, f: string, a: Arg, args: seq<Arg>)
    requires ConversionAt(u) < |u| && u[ConversionAt(u)] != '\0' && Parse(u) == d && u[d.length..] == f
    requires WellFormed(f) && ArgsMatch(f, args) && TakesArg(d.conversion) && Matches(d, a)
    ensures Prints("%" + u, [a] + args, f, args, Piece(d, a))
  {
    hide Parse, ConversionAt, Piece, Matches, TakesArg;
    assert ("%" + u)[1..] == u;
    assert ([a] + args)[1..] == args;
  }

  lemma FirstWithout(u: string, d: Directive, f: string, args: seq<Arg>)
    requires ConversionAt(u) < |u| && u[ConversionAt(u)] != '\0' && Parse(u) == d && u[d.length..] == f
    requires WellFormed(f) && ArgsMatch(f, args) && !TakesArg(d.conversion)
    ensures Prints("%" + u, args, f, args, if d.conversion == '%' then "%" else "%" + u[..d.length])
  {
    hide Parse, ConversionAt, TakesArg;
    WithoutSign(u, d.length);
    var g := "%" + u;
    assert g[1..] == u && g[0] == '%';
    assert WellFormed(g) && ArgsMatch(g, args);
    assert Format(g, args) == (if d.conversion == '%' then "%" else g[..1 + d.length]) + Format(f, args);
    hide WellFormed, ArgsMatch, Format;
  }

  lemma WithoutSign(u: string, n: nat)
    requires n <= |u|
    ensures ("%" + u)[1..] == u && ("%" + u)[..1 + n] == "%" + u[..n]
  {
  }

  lemma SpelledPrints(zero: bool, digits: string, long: bool, c: char, f: string, a: Arg, args: seq<Arg>)
    requires Spelled(zero, digits, long, c, f) && WellFormed(f) && ArgsMatch(f, args)
    ensures
      var t := Spec(zero, digits, long, c);
      var d := Directive(zero, Value(digits, 10) % 0x1_0000_0000, long, c, |t|);
      && (TakesArg(c) && Matches(d, a) ==> Prints("%" + t + f, [a] + args, f, args, Piece(d, a)))
      && (!TakesArg(c) ==> Prints("%" + t + f, args, f, args, if c == '%' then "%" else "%" + t))
  {
    SpelledParses(zero, digits, long, c, f);
    hide *;
    var t := Spec(zero, digits, long, c);
    var d := Directive(zero, Value(digits, 10) % 0x1_0000_0000, long, c, |t|);
    assert (t + f)[|t|..] == f && (t + f)[..|t|] == t;
    SpelledConversion(zero, digits, long, c, f);
    if !TakesArg(c) {
      FirstWithout(t + f, d, f, args);
    } else if Matches(d, a) {
      FirstWithArg(t + f, d, f, a, args);
    }
    assert "%" + t + f == "%" + (t + f);
  }

  lemma SpelledConversion(zero: bool, digits: string, long: bool, c: char, f: string)
    requires Spelled(zero, digits, long, c, f)
    ensures c != '\0'
  {
  }

  // ---- The conversions ----

  /**
   s is the number n in the base, at least as wide as asked: blanks before it, or zeros after
   its sign.
   */
  predicate ShowsNumber(s: string, n: int, base: Base, width: nat, zero: bool) {
    var natural := if n < 0 then 1 + |Numeral(-n, base)| else |Numeral(n, base)|;
    && ReadBack(s, base) == n
    && |s| == Max(width, natural)
    && if n < 0 && zero
       then s[0] == '-' && forall i | 1 <= i < 1 + |s| - natural :: s[i] == '0'
       else forall i | 0 <= i < |s| - natural :: s[i] == if zero then '0' else ' '
  }

  lemma UnsignedShows(n: nat, base: Base, width: nat, zero: bool)
    ensures
      var s := Padding(|Numeral(n, base)|, width, if zero then '0' else ' ') + Numeral(n, base);
      ShowsNumber(s, n, base, width, zero)
  {
    UnsignedReadsBack(n, base, zero, width);
    hide Numeral, ReadBack;
  }

  lemma SignedShows(n: int, width: nat, zero: bool)
    ensures ShowsNumber(SignedPiece(n, zero, width), n, 10, width, zero)
  {
    SignedReadsBack(n, zero, width);
    hide Numeral, ReadBack;
  }

  /** "%x", with a 64-bit argument after "ll": base 16. */
  lemma HexDirective(zero: bool, digits: string, long: bool, n: nat, f: string, args: seq<Arg>)
    requires Spelled(zero, digits, long, 'x', f) && WellFormed(f) && ArgsMatch(f, args)
    requires n < if long then 0x1_0000_0000_0000_0000 else 0x1_0000_0000
    ensures
      var a := if long then LongArg(n) else UintArg(n);
      exists s ::
        && Prints("%" + Spec(zero, digits, long, 'x') + f, [a] + args, f, args, s)
        && ShowsNumber(s, n, 16, Value(digits, 10) % 0x1_0000_0000, zero)
  {
    hide Value, Numeral, Spelled, Spec, Prints, ShowsNumber, WellFormed, ArgsMatch;
    var a := if long then LongArg(n) else UintArg(n);
    SpelledPrints(zero, digits, long, 'x', f, a, args);
    UnsignedShows(n, 16, Value(digits, 10) % 0x1_0000_0000, zero);
  }

  /** "%u": base 10. */
  lemma UnsignedDirective(zero: bool, digits: string, long: bool, n: nat, f: string, args: seq<Arg>)
    requires Spelled(zero, digits, long, 'u', f) && WellFormed(f) && ArgsMatch(f, args) && n < 0x1_0000_0000
    ensures
      exists s ::
        && Prints("%" + Spec(zero, digits, long, 'u') + f, [UintArg(n)] + args, f, args, s)
        && ShowsNumber(s, n, 10, Value(digits, 10) % 0x1_0000_0000, zero)
  {
    hide Value, Numeral, Spelled, Spec, Prints, ShowsNumber, WellFormed, ArgsMatch;
    SpelledPrints(zero, digits, long, 'u', f, UintArg(n), args);
    UnsignedShows(n, 10, Value(digits, 10) % 0x1_0000_0000, zero);
  }

  /** "%d" and "%i": base 10 with a sign, for every 32-bit number. */
  lemma SignedDirective(zero: bool, digits: string, long: bool, c: char, n: int, f: string, args: seq<Arg>)
    requires c == 'd' || c == 'i'
    requires Spelled(zero, digits, long, c, f) && WellFormed(f) && ArgsMatch(f, args)
    requires -0x8000_0000 <= n < 0x8000_0000
    ensures
      exists s ::
        && Prints("%" + Spec(zero, digits, long, c) + f, [IntArg(n)] + args, f, args, s)
        && ShowsNumber(s, n, 10, Value(digits, 10) % 0x1_0000_0000, zero)
  {
    hide Value, Numeral, Spelled, Spec, Prints, ShowsNumber, WellFormed, ArgsMatch;
    SpelledPrints(zero, digits, long, c, f, IntArg(n), args);
    SignedShows(n, Value(digits, 10) % 0x1_0000_0000, zero);
  }

  /** "%p": "0x" and at least eight digits in base 16, whatever the width. */
  lemma PointerDirective(zero: bool, digits: string, long: bool, n: nat, f: string, args: seq<Arg>)
    requires Spelled(zero, digits, long, 'p', f) && WellFormed(f) && ArgsMatch(f, args) && n < 0x1_0000_0000
    ensures
      exists s ::
        && Prints("%" + Spec(zero, digits, long, 'p') + f, [PtrArg(n)] + args, f, args, s)
        && |s| >= 10 && s[..2] == "0x" && ShowsNumber(s[2..], n, 16, 8, true)
  {
    hide Value, Numeral, Spelled, Spec, Prints, ShowsNumber, WellFormed, ArgsMatch, Padding;
    SpelledPrints(zero, digits, long, 'p', f, PtrArg(n), args);
    PointerShows(n);
  }

  lemma PointerShows(n: nat)
    ensures
      var s := "0x" + Padding(|Hex(n)|, 8, '0') + Hex(n);
      |s| >= 10 && s[..2] == "0x" && ShowsNumber(s[2..], n, 16, 8, true)
  {
    hide Numeral, ShowsNumber;
    UnsignedShows(n, 16, 8, true);
    var t := Padding(|Hex(n)|, 8, '0') + Hex(n);
    var s := "0x" + Padding(|Hex(n)|, 8, '0') + Hex(n);
    assert s == "0x" + t && s[2..] == t;
  }

  /** "%c" prints its character, and "%s" its string, whatever the flag and the width. */
  lemma TextDirectives(zero: bool, digits: string, long: bool, c: char, v: Option<string>, f: string, args: seq<Arg>)
    requires Spelled(zero, digits, long, 'c', f) && WellFormed(f) && ArgsMatch(f, args)
    requires v.Some? ==> '\0' !in v.value
    ensures Prints("%" + Spec(zero, digits, long, 'c') + f, [CharArg(c)] + args, f, args, [c])
    ensures
      Prints("%" + Spec(zero, digits, long, 's') + f, [StrArg(v)] + args, f, args,
        if v.Some? then v.value else "(null)")
  {
    hide Value, Spec, Prints, WellFormed, ArgsMatch;
    SpelledPrints(zero, digits, long, 'c', f, CharArg(c), args);
    SpelledPrints(zero, digits, long, 's', f, StrArg(v), args);
  }

  /** "%%" prints one percent sign, and an unknown conversion is echoed as it is spelled. */
  lemma PlainDirectives(zero: bool, digits: string, long: bool, c: char, f: string, args: seq<Arg>)
    requires Spelled(zero, digits, long, c, f) && WellFormed(f) && ArgsMatch(f, args)
    requires c !in "csdiuxp"
    ensures
      var t := Spec(zero, digits, long, c);
      Prints("%" + t + f, args, f, args, if c == '%' then "%" else "%" + t)
  {
    hide Value, Spelled, Spec, Prints, WellFormed, ArgsMatch;
    SpelledPrints(zero, digits, long, c, f, CharArg(c), args);
  }
}
