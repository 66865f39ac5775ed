/**
 * Python's `format(n, '04X')`: the uppercase hexadecimal numeral of a
 * non-negative integer, zero-padded on the left to a MINIMUM width of four.
 * Numbers above 0xFFFF keep all their digits (five or six for a codepoint).
 */
module HexFormat {

  /** True of the sixteen characters `X` formatting writes. */
  predicate IsUpperHexDigit(c: char) {
    '0' <= c <= '9' || 'A' <= c <= 'F'
  }

  predicate IsUpperHexNumeral(s: string) {
    forall i | 0 <= i < |s| :: IsUpperHexDigit(s[i])
  }

  /** The digit for a value below 16; `DigitValue` is its inverse. */
  function DigitChar(d: nat): (c: char)
    requires d < 16
    ensures IsUpperHexDigit(c) && DigitValue(c) == d
  {
    if d < 10 then ('0' as int + d) as char else ('A' as int + d - 10) as char
  }

  function DigitValue(c: char): (d: nat)
    requires IsUpperHexDigit(c)
    ensures d < 16
  {
    if c <= '9' then c as int - '0' as int else c as int - 'A' as int + 10
  }

  /** The number an uppercase hexadecimal numeral denotes (0 for the empty one). */
  function Value(s: string): nat
    requires IsUpperHexNumeral(s)
  {
    if s == [] then 0 else Value(s[..|s| - 1]) * 16 + DigitValue(s[|s| - 1])
  }

  function Pow16(k: nat): (p: nat)
    ensures p >= 1
  {
    if k == 0 then 1 else 16 * Pow16(k - 1)
  }

  /** `format(n, 'X')`: the hexadecimal numeral of n, most significant digit first. */
  function Hex(n: nat): string {
    if n < 16 then [DigitChar(n)] else Hex(n / 16) + [DigitChar(n % 16)]
  }

  /**
   * `Hex(n)` is an uppercase numeral that denotes n and is the shortest one:
   * its first digit is 0 only when n is 0.
   */
  lemma {:induction false} HexSpec(n: nat)
    ensures |Hex(n)| >= 1 && IsUpperHexNumeral(Hex(n))
    ensures Hex(n)[0] == '0' <==> n == 0
    ensures Value(Hex(n)) == n
  {
    if n >= 16 {
      HexSpec(n / 16);
      var s := Hex(n);
      assert s[..|s| - 1] == Hex(n / 16);
    }
  }

  /** k copies of the digit 0. */
  function Zeros(k: nat): string {
    if k == 0 then [] else Zeros(k - 1) + ['0']
  }

  /** `format(n, '04X')`: `Hex(n)` with zeros on its left up to four characters. */
  function Format04X(n: nat): string {
    var h := Hex(n);
    if |h| < 4 then Zeros(4 - |h|) + h else h
  }

  /**
   * `04X` is a minimum width: the numeral is four characters long, or longer
   * when n needs more digits, in which case it has no leading zero; it is
   * uppercase and denotes n.
   */
  lemma Format04XSpec(n: nat)
    ensures IsUpperHexNumeral(Format04X(n))
    ensures |Format04X(n)| == if |Hex(n)| < 4 then 4 else |Hex(n)|
    ensures |Format04X(n)| > 4 ==> Format04X(n)[0] != '0'
    ensures Value(Format04X(n)) == n
  {
    var h := Hex(n);
    HexSpec(n);
    if |h| < 4 {
      LeadingZerosValue(4 - |h|, h);
    }
  }

  /** Zeros on the left do not change the value of a numeral. */
  lemma {:induction false} LeadingZerosValue(k: nat, s: string)
    requires IsUpperHexNumeral(s)
    ensures |Zeros(k) + s| == k + |s|
    ensures IsUpperHexNumeral(Zeros(k) + s) && Value(Zeros(k) + s) == Value(s)
  {
    ZerosValue(k);
    var z := Zeros(k) + s;
    if s == [] {
      assert z == Zeros(k);
    } else {
      assert z[..|z| - 1] == Zeros(k) + s[..|s| - 1];
      LeadingZerosValue(k, s[..|s| - 1]);
    }
  }

  lemma {:induction false} ZerosValue(k: nat)
    ensures |Zeros(k)| == k && IsUpperHexNumeral(Zeros(k)) && Value(Zeros(k)) == 0
  {
    if k > 0 {
      ZerosValue(k - 1);
      assert Zeros(k)[..k - 1] == Zeros(k - 1);
    }
  }

  /** A numeral of at most k digits is exactly a number below 16^k. */
  lemma {:induction false} HexLength(n: nat, k: nat)
    requires k >= 1
    ensures |Hex(n)| <= k <==> n < Pow16(k)
  {
    HexSpec(n);
    if n >= 16 {
      if k == 1 {
        assert |Hex(n)| >= 2;
      } else {
        HexLength(n / 16, k - 1);
        assert |Hex(n)| == |Hex(n / 16)| + 1;
        assert n / 16 < Pow16(k - 1) <==> n < 16 * Pow16(k - 1);
      }
    } else {
      assert Pow16(k) >= 16 by { Pow16AtLeast16(k); }
    }
  }

  lemma {:induction false} Pow16AtLeast16(k: nat)
    requires k >= 1
    ensures Pow16(k) >= 16
  {
    if k > 1 {
      Pow16AtLeast16(k - 1);
    }
  }

  /**
   * The width of the padded numeral for any Unicode codepoint: four digits up
   * to U+FFFF, five up to U+FFFFF, six beyond (up to U+10FFFF).
   */
  lemma Format04XWidth(n: nat)
    requires n <= 0x10FFFF
    ensures n <= 0xFFFF ==> |Format04X(n)| == 4
    ensures 0x10000 <= n <= 0xFFFFF ==> |Format04X(n)| == 5
    ensures 0x100000 <= n ==> |Format04X(n)| == 6
  {
    Format04XSpec(n);
    HexLength(n, 4);
    HexLength(n, 5);
    HexLength(n, 6);
    assert Pow16(4) == 0x10000 && Pow16(5) == 0x100000 && Pow16(6) == 0x1000000;
  }
}
