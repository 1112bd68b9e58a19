/**
 * `ascii::Char`: one byte taken as a character. Bytes up to 0x7F are ASCII;
 * a byte from 0x80 on stands for the code point of the same value (as
 * Rust's `char::from(u8)` reads it), so its UTF-8 form takes two bytes.
 *
 * The classifiers test ASCII ranges only; no byte from 0x80 on is in any
 * class, and the case mappings move only the 26 letters.
 */
module AsciiChars {
  import opened Bytes
  import Text
  import Utf8

  datatype Char = Char(value: u8)
  {
    /** The code point the byte stands for (`char::from(u8)`). */
    function ToChar(): (c: char)
      ensures c as int == value
    {
      value as char
    }

    /**
     * `as_utf8`: the UTF-8 form of the character, zero-padded to four bytes.
     * For a byte from 0x80 on, `v >> 6 & 0x1F | 0xC0` is `0xC0 + v / 64` and
     * `v & 0x3F | 0x80` is `0x80 + v % 64`: the masked bits never overlap the
     * bits that are or-ed in.
     */
    function AsUtf8(): (r: seq<u8>)
      ensures |r| == 4
      ensures r[..LenUtf8()] == Utf8.EncodeChar(ToChar())
      ensures forall i :: LenUtf8() <= i < 4 ==> r[i] == 0
    {
      if value <= 0x7F then [value, 0x00, 0x00, 0x00]
      else [value / 64 % 32 + 0xC0, value % 64 + 0x80, 0x00, 0x00]
    }

    /** `len_utf8`: how many of the four bytes of `as_utf8` are used. */
    function LenUtf8(): (n: nat)
      ensures n == |Utf8.EncodeChar(ToChar())|
      ensures n == 1 || n == 2
    {
      if value < 0x80 then 1 else 2
    }

    /** The capitals `A` to `Z`. */
    predicate IsUppercase()
      ensures IsUppercase() <==> 'A' <= ToChar() <= 'Z'
    {
      0x41 <= value <= 0x5A
    }

    /** The small letters `a` to `z`. */
    predicate IsLowercase()
      ensures IsLowercase() <==> 'a' <= ToChar() <= 'z'
    {
      0x61 <= value <= 0x7A
    }

    predicate IsAlphabetic()
      ensures IsAlphabetic() <==> 'A' <= ToChar() <= 'Z' || 'a' <= ToChar() <= 'z'
    {
      IsUppercase() || IsLowercase()
    }

    /** The decimal digits `0` to `9`. */
    predicate IsNumeric()
      ensures IsNumeric() <==> '0' <= ToChar() <= '9'
    {
      0x30 <= value <= 0x39
    }

    /**
     * `is_punctuation` as the crate writes it: its first range stops at `)`
     * (0x29), so `*`, `+`, `,`, `-`, `.` and `/` fall in no class.
     */
    predicate IsPunctuationAsWritten()
      ensures IsPunctuationAsWritten() <==> IsPunctuation() && !('*' <= ToChar() <= '/')
    {
      (0x21 <= value <= 0x29) || (0x3A <= value <= 0x40) || (0x5B <= value <= 0x60) || (0x7B <= value <= 0x7E)
    }

    /** ASCII punctuation: the four blocks of visible bytes between the digits and letters. */
    predicate IsPunctuation()
      ensures IsPunctuation() <==> '!' <= ToChar() <= '~' && !IsAlphabetic() && !IsNumeric()
    {
      (0x21 <= value <= 0x2F) || (0x3A <= value <= 0x40) || (0x5B <= value <= 0x60) || (0x7B <= value <= 0x7E)
    }

    /** The C0 control characters, below the space. */
    predicate IsControl()
      ensures IsControl() <==> ToChar() < ' '
    {
      value <= 0x1F
    }

    /** Tab, line feed, form feed, carriage return and space (no vertical tab). */
    predicate IsWhitespace()
      ensures IsWhitespace() <==> ToChar() in {'\t', '\n', '\U{000C}', '\r', ' '}
    {
      value == 0x09 || value == 0x0A || value == 0x0C || value == 0x0D || value == 0x20
    }

    predicate IsNull()
      ensures IsNull() <==> ToChar() == '\0'
    {
      value == 0x00
    }

    /** `uppercase`: a lower-case letter becomes its capital; anything else stays. */
    function Uppercase(): (r: Char)
      ensures IsLowercase() ==> r.IsUppercase() && r.Lowercase() == this
      ensures !IsLowercase() ==> r == this
      ensures r.IsUppercase() <==> IsAlphabetic()
    {
      if IsLowercase() then Char(value - 0x20) else Char(value)
    }

    /** `lowercase`: a capital becomes its lower-case letter; anything else stays. */
    function Lowercase(): (r: Char)
      ensures IsUppercase() ==> r.IsLowercase() && Char(r.value - 0x20) == this
      ensures !IsUppercase() ==> r == this
      ensures r.IsLowercase() <==> IsAlphabetic()
    {
      if IsUppercase() then Char(value + 0x20) else Char(value)
    }

    /** `eq_ignore_case`: the same byte, or a letter and its other case. */
    predicate EqIgnoreCase(other: Char)
      ensures EqIgnoreCase(other) <==>
                this == other
                || (IsUppercase() && other == Lowercase())
                || (IsLowercase() && other == Uppercase())
    {
      Lowercase() == other.Lowercase()
    }

    /**
     * `Display`: a control byte is written as a NUL character, an `x` and
     * the byte in upper-case hexadecimal with no leading zero (`{:X}`); any
     * other byte as its character.
     */
    function Display(): (r: string)
      ensures IsControl() ==> |r| >= 3 && r[..2] == ['\0', 'x']
      ensures IsControl() ==> forall i :: 2 <= i < |r| ==> Text.IsDigit(r[i], 16)
      ensures IsControl() ==> Text.ParseRadix(r[2..], 16) == value
      ensures IsControl() && |r| > 3 ==> r[2] != '0'
      ensures !IsControl() ==> r == [ToChar()]
    {
      if IsControl() then
        var hex := Text.Hex(value);
        Text.RadixRoundTrip(value, 16);
        assert (['\0', 'x'] + hex)[2..] == hex;
        ['\0', 'x'] + hex
      else [ToChar()]
    }
  }

  /** `Char::null`: the NUL byte. */
  function Null(): (c: Char)
    ensures c.IsNull() && c.IsControl()
  {
    Char(0x00)
  }

  /** Ignoring case is an equivalence: reflexive, symmetric and transitive. */
  lemma EqIgnoreCaseEquivalence(a: Char, b: Char, c: Char)
    ensures a.EqIgnoreCase(a)
    ensures a.EqIgnoreCase(b) ==> b.EqIgnoreCase(a)
    ensures a.EqIgnoreCase(b) && b.EqIgnoreCase(c) ==> a.EqIgnoreCase(c)
  {
  }

  /** Each letter equals its other case when case is ignored, and no other byte does. */
  lemma CaseCounterparts(c: Char)
    ensures c.IsUppercase() ==> c.EqIgnoreCase(c.Lowercase()) && c.Lowercase() != c
    ensures c.IsLowercase() ==> c.EqIgnoreCase(c.Uppercase()) && c.Uppercase() != c
    ensures !c.IsAlphabetic() ==> c.Uppercase() == c && c.Lowercase() == c
  {
  }

  /** Case mappings are idempotent and undo each other on letters. */
  lemma CaseMappingRoundTrip(c: Char)
    ensures c.Uppercase().Uppercase() == c.Uppercase()
    ensures c.Lowercase().Lowercase() == c.Lowercase()
    ensures c.IsAlphabetic() ==>
              c.Uppercase().Lowercase() == c.Lowercase() && c.Lowercase().Uppercase() == c.Uppercase()
  {
  }

  /** Upper case, lower case, digits, punctuation and control bytes have no byte in common. */
  lemma ClassesDisjoint(c: Char)
    ensures !(c.IsUppercase() && c.IsLowercase())
    ensures c.IsAlphabetic() ==> !c.IsNumeric() && !c.IsPunctuation() && !c.IsControl()
    ensures c.IsNumeric() ==> !c.IsPunctuation() && !c.IsControl()
    ensures c.IsPunctuation() ==> !c.IsControl()
  {
  }

  /**
   * The visible ASCII bytes 0x21-0x7E are exactly the letters, digits and
   * punctuation; together with the control bytes, the space and DEL they
   * make up the ASCII range, and no byte above it is in any class.
   */
  lemma AsciiPartition(c: Char)
    ensures 0x21 <= c.value <= 0x7E <==> c.IsAlphabetic() || c.IsNumeric() || c.IsPunctuation()
    ensures c.value < 0x80 <==>
              c.IsControl() || c.value == 0x20 || c.value == 0x7F
              || c.IsAlphabetic() || c.IsNumeric() || c.IsPunctuation()
    ensures c.value >= 0x80 ==> !c.IsWhitespace() && !c.IsNull()
  {
  }

  /**
   * The crate's `is_punctuation` agrees with ASCII punctuation except on
   * 0x2A-0x2F, which it leaves out although they are neither letters nor
   * digits nor control bytes.
   */
  lemma PunctuationAsWrittenGap(c: Char)
    ensures c.IsPunctuationAsWritten() ==> c.IsPunctuation()
    ensures !(0x2A <= c.value <= 0x2F) ==> (c.IsPunctuationAsWritten() <==> c.IsPunctuation())
    ensures 0x2A <= c.value <= 0x2F ==>
              !c.IsPunctuationAsWritten() && !c.IsAlphabetic() && !c.IsNumeric() && !c.IsControl()
              && !c.IsWhitespace()
  {
  }

  /** `*` is visible ASCII, yet the crate's classifiers put it in no class. */
  lemma AsteriskUnclassified()
    ensures var c := Char('*' as int);
      0x21 <= c.value <= 0x7E && c.IsPunctuation()
      && !c.IsPunctuationAsWritten() && !c.IsAlphabetic() && !c.IsNumeric() && !c.IsControl()
  {
  }

  /** Whitespace is the space or a control byte, and NUL is a control byte. */
  lemma WhitespaceAndNull(c: Char)
    ensures c.IsWhitespace() ==> c.IsControl() || c.value == 0x20
    ensures c.IsWhitespace() ==> !c.IsAlphabetic() && !c.IsNumeric() && !c.IsPunctuation()
    ensures c.IsNull() <==> c == Null()
  {
  }

  /** The values the crate's own checks name: U+00A0, NUL and `A`. */
  lemma KnownForms()
    ensures Char(0xA0).AsUtf8() == [0xC2, 0xA0, 0x00, 0x00] && Char(0xA0).LenUtf8() == 2
    ensures Char(0x00).Display() == ['\0', 'x', '0']
    ensures Char(0x41).Display() == "A"
  {
    assert Text.Hex(0) == "0";
  }
}
