/**
 terminal_putnbr_output, which turns a number around arithmetically and peels the result:
 exact, and free of overflow, whenever the number written backwards still fits in 32 bits,
 and only then.
 */
module Putnbr {
  import opened Digits

  /** Two's complement truncation to 32 bits. */
  function Wrap32(x: int): int {
    (x + 0x8000_0000) % 0x1_0000_0000 - 0x8000_0000
  }

  /** Division and remainder truncating toward zero. */
  function TruncDiv(x: int): int {
    if x < 0 then -(-x / 10) else x / 10
  }

  function TruncMod(x: int): (d: int)
    ensures -9 <= d <= 9 && x == 10 * TruncDiv(x) + d
  {
    if x < 0 then -(-x % 10) else x % 10
  }

  /** What a 32-bit operation may yield; signed overflow has no defined result in C. */
  predicate InRange(x: int) {
    -0x8000_0000 <= x < 0x8000_0000
  }

  /** The digits of n appended to acc from the last to the first. */
  function Reversal(n: nat, acc: nat): nat {
    if n == 0 then acc else Reversal(n / 10, 10 * acc + n % 10)
  }

  /** k characters peeled off r, its last digit first; below '0' when r is negative. */
  function Peel(r: int, k: nat): string
    decreases k
  {
    if k == 0 then [] else [('0' as int + TruncMod(r)) as char] + Peel(TruncDiv(r), k - 1)
  }

  predicate Fits(number: int) {
    -0x8000_0000 < number && Reversal(if number < 0 then -number else number, 0) < 0x8000_0000
  }

  /** Peeling a number that was turned around gives its numeral back, trailing zeros included. */
  lemma {:induction false} PeelReversal(n: nat, acc: nat, k: nat)
    requires 0 < n
    ensures Peel(Reversal(n, acc), |Dec(n)| + k) == Dec(n) + Peel(acc, k)
  {
    var next := 10 * acc + n % 10;
    assert Peel(next, k + 1) == [DigitChar(n % 10)] + Peel(acc, k);
    if n < 10 {
      assert Reversal(n / 10, next) == next;
      assert Dec(n) == [DigitChar(n % 10)];
    } else {
      PeelReversal(n / 10, next, k + 1);
      assert Dec(n) == Dec(n / 10) + [DigitChar(n % 10)];
    }
  }

  /** Enough peeled characters tell a number from any other. */
  lemma {:induction false} PeelInjective(r: int, s: int, k: nat)
    requires r < Pow(10, k) && -r < Pow(10, k) && s < Pow(10, k) && -s < Pow(10, k)
    requires Peel(r, k) == Peel(s, k)
    ensures r == s
    decreases k
  {
    if k > 0 {
      assert Peel(r, k)[0] == Peel(s, k)[0] && Peel(r, k)[1..] == Peel(s, k)[1..];
      PeelInjective(TruncDiv(r), TruncDiv(s), k - 1);
    }
  }

  lemma {:induction false} ReversalBound(n: nat, acc: nat, k: nat)
    requires 0 < n && acc < Pow(10, k)
    ensures Reversal(n, acc) < Pow(10, |Dec(n)| + k)
  {
    if n >= 10 {
      ReversalBound(n / 10, 10 * acc + n % 10, k + 1);
    }
  }

  /** What was gathered so far is never above the end result. */
  lemma {:induction false} ReversalGrows(n: nat, acc: nat)
    ensures acc <= Reversal(n, acc)
  {
    if n > 0 {
      ReversalGrows(n / 10, 10 * acc + n % 10);
    }
  }

  lemma WrapStep(acc: int, d: int)
    ensures Wrap32(10 * Wrap32(acc) + d) == Wrap32(10 * acc + d)
  {
    var q := (acc + 0x8000_0000) / 0x1_0000_0000;
    assert acc == Wrap32(acc) + q * 0x1_0000_0000;
    WrapShift(10 * Wrap32(acc) + d, 10 * q);
  }

  lemma WrapShift(x: int, j: int)
    ensures Wrap32(x + j * 0x1_0000_0000) == Wrap32(x)
  {
  }

  /** Nine digits always fit. */
  lemma NineDigitsFit(number: int)
    requires -1_000_000_000 < number < 1_000_000_000
    ensures Fits(number)
  {
    var n := if number < 0 then -number else number;
    if n > 0 {
      Pow9();
      NumeralLength(n, 10, 9);
      ReversalBound(n, 0, 0);
      PowMonotone(|Dec(n)|, 9);
    }
  }

  lemma {:induction false} PowMonotone(j: nat, k: nat)
    requires j <= k
    ensures Pow(10, j) <= Pow(10, k)
    decreases k
  {
    if j < k {
      PowMonotone(j, k - 1);
    }
  }

  lemma Pow9()
    ensures Pow(10, 9) == 1_000_000_000 && Pow(10, 10) == 10_000_000_000
  {
    assert Pow(10, 5) == 100000;
  }

  /** Ten digits need not: 1000000009 backwards is 9000000001. */
  lemma TenDigitsMayNotFit()
    ensures !Fits(1_000_000_009)
  {
    assert Reversal(1, 900_000_000) == 9_000_000_001;
    assert Reversal(10, 90_000_000) == 9_000_000_001;
    assert Reversal(100, 9_000_000) == 9_000_000_001;
    assert Reversal(1_000, 900_000) == 9_000_000_001;
    assert Reversal(10_000, 90_000) == 9_000_000_001;
    assert Reversal(100_000, 9_000) == 9_000_000_001;
    assert Reversal(1_000_000, 900) == 9_000_000_001;
    assert Reversal(10_000_000, 90) == 9_000_000_001;
    assert Reversal(100_000_000, 9) == 9_000_000_001;
  }

  /** What a reversed number that lost its upper bits would print is not the numeral. */
  lemma WrappedIsWrong(n: nat)
    requires 0 < n < 0x8000_0000
    ensures Peel(Wrap32(Reversal(n, 0)), |Dec(n)|) == Dec(n) <==> Reversal(n, 0) < 0x8000_0000
  {
    var k := |Dec(n)|;
    var r := Reversal(n, 0);
    PeelReversal(n, 0, 0);
    ReversalBound(n, 0, 0);
    Pow9();
    if r < 0x8000_0000 {
      assert Wrap32(r) == r;
    } else {
      if k <= 9 {
        PowMonotone(k, 9);
      }
      PowMonotone(10, k);
      if Peel(Wrap32(r), k) == Dec(n) {
        PeelInjective(Wrap32(r), r, k);
      }
    }
  }

  /** One digit moves over; as long as all fits, truncation changes nothing. */
  lemma TurnStep(n: nat, acc: nat)
    requires n > 0
    ensures Reversal(n, acc) == Reversal(n / 10, 10 * acc + n % 10)
    ensures |Dec(n)| == 1 + if n / 10 == 0 then 0 else |Dec(n / 10)|
    ensures acc < 0x8000_0000 ==> Wrap32(acc) == acc
  {
  }

  lemma TurnEnds()
    ensures Wrap32(0) == 0
    ensures forall acc: nat :: Reversal(0, acc) == acc
  {
  }

  /**
   The first loop: the number turned around, in 32 bits, and how many digits it has. It tells
   whether the multiplication or the addition of any step went out of range.
   */
  method TurnAround(number: int) returns (reversedNumber: int, digitCount: nat, ghost overflowed: bool)
    ensures number <= 0 ==> digitCount == 0 && !overflowed
    ensures number > 0 ==> reversedNumber == Wrap32(Reversal(number, 0)) && digitCount == |Dec(number)|
    ensures number > 0 ==> (overflowed <==> Reversal(number, 0) >= 0x8000_0000)
  {
    hide Wrap32, Numeral, Reversal;
    TurnEnds();
    reversedNumber, digitCount, overflowed := 0, 0, false;
    var n := number;
    ghost var acc: nat := 0;
    while n > 0
      invariant number > 0 ==> n >= 0
      invariant number <= 0 ==> n == number && digitCount == 0 && !overflowed
      invariant reversedNumber == Wrap32(acc)
      invariant if overflowed then Reversal(number, 0) >= 0x8000_0000 else acc < 0x8000_0000
      invariant number > 0 ==>
        && Reversal(n, acc) == Reversal(number, 0)
        && (if n == 0 then 0 else |Dec(n)|) + digitCount == |Dec(number)|
    {
      TurnStep(n, acc);
      WrapStep(acc, n % 10);
      ReversalGrows(n / 10, 10 * acc + n % 10);
      overflowed := overflowed || !InRange(10 * reversedNumber) || !InRange(10 * reversedNumber + n % 10);
      acc := 10 * acc + n % 10;
      reversedNumber := Wrap32(10 * reversedNumber + n % 10);
      n := n / 10;
      digitCount := digitCount + 1;
    }
  }

  /** The second loop: digitCount characters peeled off. */
  method PeelDigits(number: int, digitCount: nat) returns (out: string)
    ensures out == Peel(number, digitCount)
  {
    out := [];
    var reversedNumber := number;
    for i := 0 to digitCount
      invariant out + Peel(reversedNumber, digitCount - i) == Peel(number, digitCount)
    {
      out := out + [('0' as int + TruncMod(reversedNumber)) as char];
      reversedNumber := TruncDiv(reversedNumber);
    }
  }

  lemma ZeroFits()
    ensures Signed(0) == ['0'] && Fits(0)
  {
    assert DigitChar(0) == '0';
  }

  /** overflowed tells whether any operation on the way, the negation included, went out of range. */
  method PutnbrOutput(number: int) returns (out: string, ghost overflowed: bool)
    requires -0x8000_0000 <= number < 0x8000_0000
    ensures out == Signed(number) <==> Fits(number)
    ensures !overflowed <==> Fits(number)
  {
    ZeroFits();
    hide Numeral, Reversal;
    overflowed := false;
    if number == 0 {
      return ['0'], false;
    }
    out := [];
    var n := number;
    if number < 0 {
      out := ['-'];
      overflowed := !InRange(-number);
      n := Wrap32(-number);
    }
    ghost var loopOverflowed;
    var reversedNumber, digitCount;
    reversedNumber, digitCount, loopOverflowed := TurnAround(n);
    overflowed := overflowed || loopOverflowed;
    var digits := PeelDigits(reversedNumber, digitCount);
    Verdict(number, digits);
    out := out + digits;
  }

  /** What is printed after the sign, against the numeral. */
  lemma Verdict(number: int, digits: string)
    requires -0x8000_0000 <= number < 0x8000_0000 && number != 0
    requires
      var n := if number < 0 then Wrap32(-number) else number;
      digits == if n > 0 then Peel(Wrap32(Reversal(n, 0)), |Dec(n)|) else []
    ensures (if number < 0 then ['-'] else []) + digits == Signed(number) <==> Fits(number)
  {
    var n := if number < 0 then Wrap32(-number) else number;
    var sign := if number < 0 then ['-'] else [];
    if n > 0 {
      WrappedIsWrong(n);
      assert Signed(number) == sign + Dec(n);
      assert (sign + digits)[|sign|..] == digits && (sign + Dec(n))[|sign|..] == Dec(n);
    } else {
      assert number == -0x8000_0000;
    }
    hide Reversal, Peel, Numeral;
  }
}
