// Decimal text and fixed-width integers, as used by the signaling and discovery codecs.
module Numerals {
  import opened Basics

  predicate IsDigit(c: char) { '0' <= c <= '9' }

  predicate AllDigits(s: string) { forall i :: 0 <= i < |s| ==> IsDigit(s[i]) }

  function Digit(d: nat): char
    requires d < 10
  {
    ('0' as int + d) as char
  }

  function DigitValue(c: char): nat
    requires IsDigit(c)
  {
    c as int - '0' as int
  }

  // str(n) for a non-negative int.
  function Decimal(n: nat): string {
    if n < 10 then [Digit(n)] else Decimal(n / 10) + [Digit(n % 10)]
  }

  // int(s) for a string of ASCII digits; leading zeros are accepted.
  function DecimalValue(s: string): nat
    requires AllDigits(s)
  {
    if s == [] then 0 else DecimalValue(s[..|s| - 1]) * 10 + DigitValue(s[|s| - 1])
  }

  // No leading zero, except in "0" itself.
  predicate CanonicalDecimal(s: string) {
    AllDigits(s) && s != [] && (|s| == 1 || s[0] != '0')
  }

  lemma {:induction false} DecimalRoundTrip(n: nat)
    ensures CanonicalDecimal(Decimal(n)) && DecimalValue(Decimal(n)) == n
    ensures n > 0 ==> Decimal(n)[0] != '0'
  {
    if n >= 10 {
      DecimalRoundTrip(n / 10);
      assert Decimal(n)[..|Decimal(n)| - 1] == Decimal(n / 10);
    }
  }

  lemma {:induction false} CanonicalIsPositive(s: string)
    requires AllDigits(s) && s != [] && s[0] != '0'
    ensures DecimalValue(s) > 0
  {
    if |s| > 1 {
      CanonicalIsPositive(s[..|s| - 1]);
    }
  }

  // Division and remainder take the last digit off.
  lemma DecimalOfShift(v: nat, d: nat)
    requires v > 0 && d < 10
    ensures Decimal(v * 10 + d) == Decimal(v) + [Digit(d)]
  {
    var n := v * 10 + d;
    assert n / 10 == v && n % 10 == d;
  }

  lemma DigitOfValue(c: char)
    requires IsDigit(c)
    ensures DigitValue(c) < 10 && Digit(DigitValue(c)) == c
  {
  }

  lemma {:induction false} CanonicalIsPrinted(s: string)
    requires CanonicalDecimal(s)
    ensures Decimal(DecimalValue(s)) == s
  {
    var front, last := s[..|s| - 1], s[|s| - 1];
    DigitOfValue(last);
    assert s == front + [last];
    if front == "" {
      assert DecimalValue(s) == DigitValue(last);
    } else {
      CanonicalIsPrinted(front);
      CanonicalIsPositive(front);
      DecimalOfShift(DecimalValue(front), DigitValue(last));
    }
  }

  // A digit string is what str() prints for its value exactly when it is canonical.
  lemma DecimalExact(s: string)
    requires AllDigits(s) && s != []
    ensures Decimal(DecimalValue(s)) == s <==> CanonicalDecimal(s)
  {
    DecimalRoundTrip(DecimalValue(s));
    if CanonicalDecimal(s) {
      CanonicalIsPrinted(s);
    }
  }

  // str(n) for any int.
  function SignedDecimal(n: int): string {
    if n < 0 then "-" + Decimal(-n) else Decimal(n)
  }

  // ---- fixed-width integers ----

  function Pow256(n: nat): nat {
    if n == 0 then 1 else 256 * Pow256(n - 1)
  }

  // int.to_bytes(n, "little")
  function LittleEndian(n: nat, v: nat): (b: bytes)
    ensures |b| == n
    decreases v, n
  {
    if n == 0 then [] else [v % 256] + LittleEndian(n - 1, v / 256)
  }

  function FromLittleEndian(b: bytes): nat {
    if b == [] then 0 else b[0] + 256 * FromLittleEndian(b[1..])
  }

  lemma {:induction false} LittleEndianRoundTrip(n: nat, v: nat)
    requires v < Pow256(n)
    ensures FromLittleEndian(LittleEndian(n, v)) == v
  {
    if n > 0 {
      LittleEndianRoundTrip(n - 1, v / 256);
      assert LittleEndian(n, v)[1..] == LittleEndian(n - 1, v / 256);
    }
  }

  lemma {:induction false} LittleEndianOfValue(b: bytes)
    ensures FromLittleEndian(b) < Pow256(|b|) && LittleEndian(|b|, FromLittleEndian(b)) == b
  {
    if b != [] {
      LittleEndianOfValue(b[1..]);
      assert FromLittleEndian(b) / 256 == FromLittleEndian(b[1..]);
    }
  }

  // int.to_bytes(n, "big")
  function BigEndian(n: nat, v: nat): (b: bytes)
    ensures |b| == n
    decreases v, n
  {
    if n == 0 then [] else BigEndian(n - 1, v / 256) + [v % 256]
  }

  function FromBigEndian(b: bytes): nat {
    if b == [] then 0 else FromBigEndian(b[..|b| - 1]) * 256 + b[|b| - 1]
  }

  lemma {:induction false} BigEndianRoundTrip(n: nat, v: nat)
    requires v < Pow256(n)
    ensures FromBigEndian(BigEndian(n, v)) == v
  {
    if n > 0 {
      BigEndianRoundTrip(n - 1, v / 256);
      assert BigEndian(n, v)[..n - 1] == BigEndian(n - 1, v / 256);
    }
  }

  lemma {:induction false} BigEndianOfValue(b: bytes)
    ensures FromBigEndian(b) < Pow256(|b|) && BigEndian(|b|, FromBigEndian(b)) == b
  {
    if b != [] {
      var front := b[..|b| - 1];
      BigEndianOfValue(front);
      assert FromBigEndian(b) / 256 == FromBigEndian(front);
      assert b == front + [b[|b| - 1]];
    }
  }

  lemma Pow256Values()
    ensures Pow256(2) == 0x1_0000 && Pow256(4) == 0x1_0000_0000 && Pow256(8) == U64_MAX + 1
  {
    assert Pow256(1) == 256;
    assert Pow256(2) == 256 * Pow256(1);
    assert Pow256(3) == 256 * Pow256(2);
    assert Pow256(4) == 256 * Pow256(3);
    assert Pow256(5) == 256 * Pow256(4);
    assert Pow256(6) == 256 * Pow256(5);
    assert Pow256(7) == 256 * Pow256(6);
  }

  const DIGITS := "0123456789"

  // str() and int() are positional, base ten: a number of one digit is that digit, and one more
  // digit at the end is ten times the rest and the digit.
  lemma BaseTen(v: nat, d: nat, s: string)
    requires d < 10 && AllDigits(s)
    ensures Decimal(d) == [DIGITS[d]]
    ensures v > 0 ==> Decimal(10 * v + d) == Decimal(v) + [DIGITS[d]]
    ensures AllDigits(s + [DIGITS[d]]) && DecimalValue(s + [DIGITS[d]]) == 10 * DecimalValue(s) + d
  {
    if v > 0 {
      DecimalOfShift(v, d);
    }
    assert (s + [DIGITS[d]])[..|s|] == s;
    assert DigitValue(DIGITS[d]) == d;
  }

  // Big-endian is little-endian read backwards.
  lemma {:induction false} BigIsLittleReversed(n: nat, v: nat, i: nat)
    requires i < n
    ensures BigEndian(n, v)[i] == LittleEndian(n, v)[n - 1 - i]
  {
    if i < n - 1 {
      BigIsLittleReversed(n - 1, v / 256, i);
    }
  }

  // The least significant byte comes first.
  lemma LittleEndFirst(v: nat)
    requires v < 0x1_0000
    ensures LittleEndian(2, v) == [v % 256, v / 256] && BigEndian(2, v) == [v / 256, v % 256]
  {
    assert LittleEndian(2, v) == [v % 256] + LittleEndian(1, v / 256);
    BigIsLittleReversed(2, v, 0);
    BigIsLittleReversed(2, v, 1);
  }
}
