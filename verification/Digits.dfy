/** Numerals in base 10 and 16, and the digit loops that emit them. */
module Digits {
  import opened Text

  const HEX_DIGITS: string := "0123456789abcdef"

  function DigitChar(d: nat): char
    requires d < 16
  {
    if d < 10 then '0' + d as char else 'a' + (d - 10) as char
  }

  lemma HexTable(d: nat)
    requires d < 16
    ensures HEX_DIGITS[d] == DigitChar(d)
  {
    assert HEX_DIGITS[10] == 'a' && HEX_DIGITS[11] == 'b' && HEX_DIGITS[12] == 'c'
        && HEX_DIGITS[13] == 'd' && HEX_DIGITS[14] == 'e' && HEX_DIGITS[15] == 'f';
  }

  /** The two bases used. */
  type Base = b: nat | b == 10 || b == 16 witness 10

  /** n without its last digit. */
  function Hi(n: nat, base: Base): nat {
    if base == 10 then n / 10 else n / 16
  }

  /** The last digit of n. */
  function Lo(n: nat, base: Base): (d: nat)
    ensures d < base
  {
    if base == 10 then n % 10 else n % 16
  }

  /** The numeral of n, most significant digit first. */
  function Numeral(n: nat, base: Base): (s: string)
    ensures |s| >= 1
  {
    (if n < base then [] else Numeral(Hi(n, base), base)) + [DigitChar(Lo(n, base))]
  }

  function Dec(n: nat): string {
    Numeral(n, 10)
  }

  function Hex(n: nat): string {
    Numeral(n, 16)
  }

  function DigitValue(c: char): nat {
    if '0' <= c <= '9' then c as nat - '0' as nat
    else if 'a' <= c <= 'f' then c as nat - 'a' as nat + 10
    else 0
  }

  /** The number a numeral stands for. */
  function Value(s: string, base: Base): nat {
    if s == [] then 0
    else
      var v := Value(s[..|s| - 1], base);
      (if base == 10 then 10 * v else 16 * v) + DigitValue(s[|s| - 1])
  }

  /** A numeral reads back as its number. */
  lemma {:induction false} NumeralRoundTrip(n: nat, base: Base)
    ensures Value(Numeral(n, base), base) == n
  {
    hide Value;
    if n < base {
      ValueNil(base);
      ValueSnoc([], Lo(n, base), base);
    } else {
      NumeralRoundTrip(Hi(n, base), base);
      ValueSnoc(Numeral(Hi(n, base), base), Lo(n, base), base);
    }
  }

  lemma ValueNil(base: Base)
    ensures Value([], base) == 0
  {
  }

  lemma ValueSnoc(s: string, d: nat, base: Base)
    requires d < 16
    ensures Value(s + [DigitChar(d)], base) == (if base == 10 then 10 * Value(s, base) else 16 * Value(s, base)) + d
  {
    assert (s + [DigitChar(d)])[..|s|] == s;
    assert DigitValue(DigitChar(d)) == d;
  }

  /** Only zero starts with a zero. */
  lemma {:induction false} NumeralLeads(n: nat, base: Base)
    ensures Numeral(n, base)[0] == '0' <==> n == 0
  {
    if n >= base {
      NumeralLeads(Hi(n, base), base);
    }
  }

  function Pow(base: Base, e: nat): nat {
    if e == 0 then 1 else if base == 10 then 10 * Pow(base, e - 1) else 16 * Pow(base, e - 1)
  }

  /** How long a numeral is: n has at most k digits exactly when it is below the k-th power. */
  lemma {:induction false} NumeralLength(n: nat, base: Base, k: nat)
    requires 1 <= k
    ensures |Numeral(n, base)| <= k <==> n < Pow(base, k)
  {
    if k == 1 {
      assert Pow(base, 0) == 1;
    } else if n >= base {
      NumeralLength(Hi(n, base), base, k - 1);
    } else {
      PowGrows(base, k);
    }
  }

  lemma {:induction false} PowGrows(base: Base, k: nat)
    requires 1 <= k
    ensures base <= Pow(base, k)
  {
    if k > 1 {
      PowGrows(base, k - 1);
    } else {
      assert Pow(base, 0) == 1;
    }
  }

  // ---- Lengths ----

  /** Number of digits, by repeated division. */
  method Nbrlen(number: nat) returns (length: nat)
    ensures length == |Dec(number)|
  {
    var n := number;
    length := 1;
    while n >= 10
      invariant length - 1 + |Dec(n)| == |Dec(number)|
    {
      n := n / 10;
      length := length + 1;
    }
  }

  /** Number of hexadecimal digits, by repeated shifts. */
  method Hexlen(number: nat) returns (length: nat)
    ensures length == |Hex(number)|
  {
    var n := number;
    length := 1;
    while n / 16 != 0
      invariant length - 1 + |Hex(n)| == |Hex(number)|
      decreases n
    {
      n := n / 16;
      length := length + 1;
    }
  }

  // ---- Emitting digits ----
  // Each method returns the characters it hands to terminal_putc_output, in order, and its count.

  method Putpadding(length: nat, width: nat, pad: char) returns (out: string, count: nat)
    ensures out == Padding(length, width, pad) && count == |out|
  {
    out, count := [], 0;
    while length + count < width
      invariant count == |out| && out == seq(count, _ => pad)
      invariant count == 0 || length + count <= width
    {
      out := out + [pad];
      count := count + 1;
    }
  }

  function Padding(length: nat, width: nat, pad: char): (s: string) {
    seq(if length < width then width - length else 0, _ => pad)
  }

  /** The array holds the low digits of number, least significant first; rest is what is left of it. */
  ghost predicate Peeled(digits: array<char>, index: nat, rest: nat, number: nat, base: Base)
    reads digits
  {
    && index <= digits.Length
    && Numeral(number, base) == (if rest == 0 then [] else Numeral(rest, base)) + Backwards(digits[..index])
  }

  function Backwards(s: string): (r: string)
    ensures |r| == |s|
    ensures forall i | 0 <= i < |s| :: r[i] == s[|s| - 1 - i]
  {
    if s == [] then [] else [s[|s| - 1]] + Backwards(s[..|s| - 1])
  }

  /** Emits the stored digits from the last to the first. */
  method PutDigits(digits: array<char>, index: nat) returns (out: string, count: nat)
    requires index <= digits.Length
    ensures out == Backwards(digits[..index]) && count == index
  {
    out, count := [], 0;
    for i := index downto 0
      invariant count == index - i && |out| == count
      invariant forall j | 0 <= j < count :: out[j] == digits[index - 1 - j]
    {
      out := out + [digits[i]];
      count := count + 1;
    }
  }

  /** One more digit is peeled off a number that has digits left. */
  lemma PeelOne(before: string, rest: nat, number: nat, base: Base)
    requires Numeral(number, base) == Numeral(rest, base) + Backwards(before)
    ensures
      var after := before + [DigitChar(Lo(rest, base))];
      Numeral(number, base) ==
        (if Hi(rest, base) == 0 then [] else Numeral(Hi(rest, base), base)) + Backwards(after)
  {
    var c := DigitChar(Lo(rest, base));
    var q := if Hi(rest, base) == 0 then [] else Numeral(Hi(rest, base), base);
    BackwardsSnoc(before, c);
    assert Numeral(rest, base) == q + [c];
    hide Numeral, Backwards, DigitChar;
    Associate(q, [c], Backwards(before));
  }

  lemma BackwardsSnoc(s: string, c: char)
    ensures Backwards(s + [c]) == [c] + Backwards(s)
  {
    assert (s + [c])[..|s|] == s;
  }

  /** A number below base to the k-th has room in k cells. */
  lemma PeelRoom(before: string, rest: nat, number: nat, base: Base, k: nat)
    requires 1 <= k && number < Pow(base, k)
    requires Numeral(number, base) == Numeral(rest, base) + Backwards(before)
    ensures |before| < k
  {
    NumeralLength(number, base, k);
  }

  method Putunbr(number: nat) returns (out: string, count: nat)
    requires number < 0x1_0000_0000
    ensures out == Dec(number) && count == |out|
  {
    var digits := new char[20];
    var index := 0;
    var n := number;
    Pow20();
    PeelRoom([], n, number, 10, 20);
    digits[index] := DigitChar(n % 10);
    PeelOne([], n, number, 10);
    assert digits[..1] == [digits[0]];
    index := 1;
    n := n / 10;
    while n > 0
      invariant Peeled(digits, index, n, number, 10)
    {
      ghost var before := digits[..index];
      PeelRoom(before, n, number, 10, 20);
      digits[index] := DigitChar(n % 10);
      PeelOne(before, n, number, 10);
      assert digits[..index + 1] == before + [digits[index]];
      index := index + 1;
      n := n / 10;
    }
    out, count := PutDigits(digits, index);
  }

  /** Stores the digits of a positive number, least significant first. */
  method PeelDecimal(digits: array<char>, number: nat) returns (index: nat)
    requires digits.Length == 20 && 0 < number < 0x1_0000_0000
    modifies digits
    ensures index <= 20 && Dec(number) == Backwards(digits[..index])
  {
    index := 0;
    var n := number;
    Pow20();
    while n > 0
      invariant Peeled(digits, index, n, number, 10)
    {
      ghost var before := digits[..index];
      PeelRoom(before, n, number, 10, 20);
      digits[index] := DigitChar(n % 10);
      PeelOne(before, n, number, 10);
      assert digits[..index + 1] == before + [digits[index]];
      index := index + 1;
      n := n / 10;
    }
  }

  function Signed(number: int): string {
    if number < 0 then ['-'] + Dec(-number) else Dec(number)
  }

  /** The negative branch negates number + 1, so that the least 32-bit number does not overflow. */
  method Putnbr(number: int) returns (out: string, count: nat)
    requires -0x8000_0000 <= number < 0x8000_0000
    ensures out == Signed(number) && count == |out|
  {
    if number == 0 {
      assert DigitChar(0) == '0';
      return ['0'], 1;
    }
    var digits := new char[20];
    if number < 0 {
      var absoluteNumber := -(number + 1) + 1;
      var index := PeelDecimal(digits, absoluteNumber);
      var rest, restCount := PutDigits(digits, index);
      return ['-'] + rest, 1 + restCount;
    }
    var index := PeelDecimal(digits, number);
    out, count := PutDigits(digits, index);
  }

  method HexDigit(d: nat) returns (c: char)
    requires d < 16
    ensures c == DigitChar(d)
  {
    HexTable(d);
    c := HEX_DIGITS[d];
  }

  method Puthex(number: nat) returns (out: string, count: nat)
    requires number < 0x1_0000_0000_0000_0000
    ensures out == Hex(number) && count == |out|
  {
    if number == 0 {
      assert DigitChar(0) == '0';
      return ['0'], 1;
    }
    var hexDigits := new char[16];
    var index := 0;
    var n := number;
    Pow20();
    while n != 0
      invariant Peeled(hexDigits, index, n, number, 16)
      decreases n
    {
      ghost var before := hexDigits[..index];
      PeelRoom(before, n, number, 16, 16);
      hexDigits[index] := HexDigit(n % 16);
      PeelOne(before, n, number, 16);
      assert hexDigits[..index + 1] == before + [hexDigits[index]];
      index := index + 1;
      n := n / 16;
    }
    out, count := PutDigits(hexDigits, index);
  }

  /** Signed numerals read back as their number, the sign first. */
  lemma SignedRoundTrip(number: int)
    ensures var s := Signed(number);
      if s[0] == '-' then number < 0 && Value(s[1..], 10) == -number else number >= 0 && Value(s, 10) == number
  {
    NumeralRoundTrip(if number < 0 then -number else number, 10);
    NumeralStarts(if number < 0 then -number else number, 10);
  }

  /** A numeral has no sign. */
  lemma {:induction false} NumeralStarts(n: nat, base: Base)
    ensures Numeral(n, base)[0] != '-' && Numeral(n, base)[0] != ' '
  {
    if n >= base {
      NumeralStarts(Hi(n, base), base);
    }
  }

  lemma Pow20()
    ensures 0x1_0000_0000 <= Pow(10, 20) && 0x1_0000_0000_0000_0000 <= Pow(16, 16)
  {
    assert Pow(10, 5) == 100000;
    assert Pow(10, 10) == 10000000000;
    assert Pow(10, 15) == 1000000000000000;
    assert Pow(16, 4) == 65536;
    assert Pow(16, 8) == 0x1_0000_0000;
    assert Pow(16, 12) == 0x1_0000_0000_0000;
  }
}
