/**
 * Number formatting used by the error messages: Rust's `{}` for unsigned
 * integers (decimal) and `{:X}` (upper-case hexadecimal, no prefix, no
 * leading zeros).
 */
module Text {

  /** The digit for `d`: `0`-`9`, then upper-case `A`-`F`. */
  function Digit(d: nat): (c: char)
    requires d < 16
  {
    if d < 10 then ('0' as int + d) as char else ('A' as int + d - 10) as char
  }

  predicate IsDigit(c: char, base: nat)
  {
    ('0' <= c <= '9' && (c as int - '0' as int) < base)
    || ('A' <= c <= 'F' && (c as int - 'A' as int) + 10 < base)
  }

  /** The value of a digit character. */
  function DigitValue(c: char): (d: nat)
    requires IsDigit(c, 16)
    ensures d < 16 && Digit(d) == c
  {
    if c <= '9' then c as int - '0' as int else c as int - 'A' as int + 10
  }

  /** `n` written in `base` without leading zeros ("0" for zero). */
  function Radix(n: nat, base: nat): (s: string)
    requires 2 <= base <= 16
    ensures |s| >= 1
    ensures forall i :: 0 <= i < |s| ==> IsDigit(s[i], base)
    ensures |s| > 1 ==> s[0] != '0'
    decreases n
  {
    if n < base then [Digit(n)]
    else
      DivMod(n, base);
      Radix(n / base, base) + [Digit(n % base)]
  }

  lemma DivMod(n: nat, base: nat)
    requires 2 <= base <= n
    ensures 1 <= n / base < n && n % base < base
    ensures n == n / base * base + n % base
  {
  }

  /** The value of a string of digits in `base`. */
  function ParseRadix(s: string, base: nat): nat
    requires 2 <= base <= 16
    requires forall i :: 0 <= i < |s| ==> IsDigit(s[i], 16)
  {
    if s == [] then 0 else ParseRadix(s[..|s| - 1], base) * base + DigitValue(s[|s| - 1])
  }

  /** Reading back the digits of `n` gives `n`. */
  lemma {:induction false} RadixRoundTrip(n: nat, base: nat)
    requires 2 <= base <= 16
    ensures ParseRadix(Radix(n, base), base) == n
    decreases n
  {
    var s := Radix(n, base);
    if n < base {
      assert s[..0] == [];
    } else {
      DivMod(n, base);
      RadixRoundTrip(n / base, base);
      assert s[..|s| - 1] == Radix(n / base, base);
    }
  }

  /** Distinct numbers are written differently. */
  lemma RadixInjective(m: nat, n: nat, base: nat)
    requires 2 <= base <= 16
    requires Radix(m, base) == Radix(n, base)
    ensures m == n
  {
    RadixRoundTrip(m, base);
    RadixRoundTrip(n, base);
  }

  /** Rust's `{}` on an unsigned integer. */
  function Dec(n: nat): string
  {
    Radix(n, 10)
  }

  /** Rust's `{:X}` on an unsigned integer. */
  function Hex(n: nat): string
  {
    Radix(n, 16)
  }

  /** The byte flags that appear in error messages take one or two hex digits. */
  lemma HexOfByte(n: nat)
    requires n < 0x100
    ensures 1 <= |Hex(n)| <= 2
    ensures n < 0x10 <==> |Hex(n)| == 1
  {
    if n >= 0x10 {
      DivMod(n, 16);
      assert n / 16 < 16;
      assert Radix(n, 16) == Radix(n / 16, 16) + [Digit(n % 16)];
    }
  }
}
