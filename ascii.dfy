/**
 * What the ASCII types of `lowlevel-types` share: the error their fallible
 * conversions return, the outcome of a conversion (which may also be a
 * panic, where the source unwraps), and `str::is_ascii` with the bytes of
 * an ASCII string.
 */
module Ascii {
  import opened Bytes
  import opened Options
  import Utf8

  /**
   * `ASCIIError`: the message says which conversion refused; the offset is
   * `None` wherever the crate builds one.
   */
  datatype AsciiError = AsciiError(message: Refusal, offset: Option<nat>)

  /** The three refusals the crate reports. */
  datatype Refusal =
    | TooLong(length: nat, capacity: nat)
    | NotAscii
    | FixedLength

  /** A `Result<T, ASCIIError>`, or a panic where the source calls `unwrap`. */
  datatype Conversion<+T> = Ok(value: T) | Err(error: AsciiError) | Panicked

  /** `str::is_ascii`: every character is below 0x80. */
  predicate IsAscii(s: string)
  {
    forall i :: 0 <= i < |s| ==> s[i] as int < 0x80
  }

  /** `c as u8` for each character of an ASCII string. */
  function AsciiBytes(s: string): (r: seq<u8>)
    requires IsAscii(s)
    ensures |r| == |s|
  {
    seq(|s|, i requires 0 <= i < |s| => s[i] as int)
  }

  /** For ASCII text the bytes `c as u8` gives are its UTF-8 encoding. */
  lemma {:induction false} AsciiBytesAreUtf8(s: string)
    requires IsAscii(s)
    ensures Utf8.EncodeString(s) == AsciiBytes(s)
  {
    if s != [] {
      AsciiBytesAreUtf8(s[1..]);
      assert AsciiBytes(s) == [s[0] as int] + AsciiBytes(s[1..]);
    }
  }

  /** `String::from_utf8` gives an ASCII string back from the bytes `c as u8` took from it. */
  lemma AsciiBytesDecode(s: string)
    requires IsAscii(s)
    ensures Utf8.FromUtf8(AsciiBytes(s)) == Utf8.Text(s)
  {
    AsciiBytesAreUtf8(s);
    Utf8.EncodeStringRoundTrip(s);
  }
}
