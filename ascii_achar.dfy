/**
 * `AChar`: the older ASCII character type. Its classifiers, case mappings
 * and UTF-8 form are those of `ascii::Char`, so each is defined here through
 * the `Char` of the same byte; what differs is that `AChar` has a default
 * value and that its `Display` writes nothing at all for a control byte.
 */
module AsciiAChars {
  import opened Bytes
  import AsciiChars
  import Utf8

  /** The first and last byte the type's own checks run over (`MIN`, `MAX`). */
  const MIN: u8 := 0x00
  const MAX: u8 := 0xFF

  datatype AChar = AChar(value: u8)
  {
    /** The `ascii::Char` holding the same byte. */
    function AsChar(): AsciiChars.Char
    {
      AsciiChars.Char(value)
    }

    /** `as_utf8`: the UTF-8 form of `char::from(value)`, zero-padded to four bytes. */
    function AsUtf8(): (r: seq<u8>)
      ensures |r| == 4
      ensures r[..LenUtf8()] == Utf8.EncodeChar(value as char)
      ensures forall i :: LenUtf8() <= i < 4 ==> r[i] == 0
    {
      AsChar().AsUtf8()
    }

    /** `len_utf8`: 1 below 0x80, 2 from there on. */
    function LenUtf8(): (n: nat)
      ensures n == |Utf8.EncodeChar(value as char)|
      ensures n == 1 <==> value < 0x80
    {
      AsChar().LenUtf8()
    }

    predicate IsUppercase()
      ensures IsUppercase() <==> 0x41 <= value <= 0x5A
    {
      AsChar().IsUppercase()
    }

    predicate IsLowercase()
      ensures IsLowercase() <==> 0x61 <= value <= 0x7A
    {
      AsChar().IsLowercase()
    }

    predicate IsAlphabetic()
      ensures IsAlphabetic() <==> IsUppercase() || IsLowercase()
    {
      AsChar().IsAlphabetic()
    }

    predicate IsNumeric()
      ensures IsNumeric() <==> 0x30 <= value <= 0x39
    {
      AsChar().IsNumeric()
    }

    /** `is_punctuation`, with the range the crate writes (see `Char.IsPunctuationAsWritten`). */
    predicate IsPunctuationAsWritten()
      ensures IsPunctuationAsWritten() <==> (0x21 <= value <= 0x29) || (0x3A <= value <= 0x40) || (0x5B <= value <= 0x60) || (0x7B <= value <= 0x7E)
    {
      AsChar().IsPunctuationAsWritten()
    }

    predicate IsPunctuation()
      ensures IsPunctuation() <==> (0x21 <= value <= 0x2F) || (0x3A <= value <= 0x40) || (0x5B <= value <= 0x60) || (0x7B <= value <= 0x7E)
    {
      AsChar().IsPunctuation()
    }

    predicate IsControl()
      ensures IsControl() <==> value <= 0x1F
    {
      AsChar().IsControl()
    }

    predicate IsWhitespace()
      ensures IsWhitespace() <==> value == 0x09 || value == 0x0A || value == 0x0C || value == 0x0D || value == 0x20
    {
      AsChar().IsWhitespace()
    }

    predicate IsNull()
      ensures IsNull() <==> value == 0x00
    {
      AsChar().IsNull()
    }

    /** `uppercase`: a lower-case letter becomes its capital; anything else stays. */
    function Uppercase(): (r: AChar)
      ensures IsLowercase() ==> r.IsUppercase() && r.Lowercase() == this
      ensures !IsLowercase() ==> r == this
    {
      AChar(AsChar().Uppercase().value)
    }

    /** `lowercase`: a capital becomes its lower-case letter; anything else stays. */
    function Lowercase(): (r: AChar)
      ensures IsUppercase() ==> r.IsLowercase() && AChar(r.value - 0x20) == this
      ensures !IsUppercase() ==> r == this
    {
      AChar(AsChar().Lowercase().value)
    }

    /** `eq_ignore_case`: the same byte, or a letter and its other case. */
    predicate EqIgnoreCase(other: AChar)
      ensures EqIgnoreCase(other) <==>
                this == other
                || (IsUppercase() && other == Lowercase())
                || (IsLowercase() && other == Uppercase())
    {
      AsChar().EqIgnoreCase(other.AsChar())
    }

    /** `Display`: nothing for a control byte, otherwise the character. */
    function Display(): (r: string)
      ensures r == [] <==> IsControl()
      ensures r != [] ==> r == [value as char]
    {
      if !IsControl() then [value as char] else []
    }
  }

  /** `AChar::default()`: the NUL byte, which `AString::resize` pads with. */
  function Default(): (a: AChar)
    ensures a.IsNull() && a.IsControl() && a.Display() == []
  {
    AChar(0x00)
  }

  /** Each letter equals its other case when case is ignored; every other byte keeps its case mappings. */
  lemma CaseCounterparts(a: AChar)
    ensures a.IsUppercase() ==> a.EqIgnoreCase(a.Lowercase()) && a.Lowercase().IsLowercase()
    ensures a.IsLowercase() ==> a.EqIgnoreCase(a.Uppercase()) && a.Uppercase().IsUppercase()
    ensures !a.IsAlphabetic() ==> a.Uppercase() == a && a.Lowercase() == a
  {
    AsciiChars.CaseCounterparts(a.AsChar());
  }

  /**
   * The classes of the type's own checks: letters are the upper and lower
   * case, control is 0x00-0x1F, and the classes other than whitespace
   * share no byte.
   */
  lemma Classes(a: AChar)
    ensures a.IsAlphabetic() <==> (0x41 <= a.value <= 0x5A) || (0x61 <= a.value <= 0x7A)
    ensures a.IsControl() <==> a.value <= 0x1F
    ensures a.IsAlphabetic() ==> !a.IsNumeric() && !a.IsPunctuation() && !a.IsControl()
    ensures a.IsNumeric() ==> !a.IsPunctuation() && !a.IsControl()
    ensures a.IsPunctuation() ==> !a.IsControl()
  {
    AsciiChars.ClassesDisjoint(a.AsChar());
  }

  /** A byte's two character types answer every question about it alike. */
  lemma AgreesWithChar(a: AChar)
    ensures a.AsUtf8() == a.AsChar().AsUtf8()
    ensures a.Uppercase().AsChar() == a.AsChar().Uppercase()
    ensures a.Lowercase().AsChar() == a.AsChar().Lowercase()
    ensures forall b: AChar :: a.EqIgnoreCase(b) <==> a.AsChar().EqIgnoreCase(b.AsChar())
    ensures !a.IsControl() ==> a.Display() == a.AsChar().Display()
  {
  }

  /** The value the type's own checks name: U+00A0 takes the two bytes C2 A0. */
  lemma KnownForms()
    ensures AChar(0xA0).AsUtf8() == [0xC2, 0xA0, 0x00, 0x00] && AChar(0xA0).LenUtf8() == 2
    ensures forall c: u8 :: MIN <= c <= MAX ==>
      AChar(c).AsUtf8() == if c <= 0x7F then [c, 0x00, 0x00, 0x00] else [c / 64 % 32 + 0xC0, c % 64 + 0x80, 0x00, 0x00]
  {
    AsciiChars.KnownForms();
  }
}
