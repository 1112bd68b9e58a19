/**
 * The error type of the wire format, its `Display` text, the two
 * `custom` constructors serde calls, and the conversion from a failed
 * UTF-8 decoding (which keeps the `Debug` text of the Rust error).
 */
module BinaryErrors {
  import opened Bytes
  import opened Options
  import Text
  import Utf8

  datatype BinaryError =
    | Message(message: string)
    | UnexpectedEndOfInput
    | InvalidBytes
    | MissingOrInvalidFlag(actualFlag: u8, expectedFlag: u8)
    | InvalidLength(actualLength: nat, expectedLength: nat)
    | InvalidName(actualName: string, expectedName: string)
    | UnexpectedType

  const FLAG_PREFIX: string := "missing or invalid type flag, actual 0x"
  const FLAG_MIDDLE: string := ", expected 0x"
  const LENGTH_PREFIX: string := "invalid length, actual "
  const NAME_PREFIX: string := "invalid name, actual "
  const EXPECTED: string := ", expected "

  /**
   * `impl Display for BinaryError`: a message shows as itself; every other
   * variant shows a non-empty lower-case sentence.
   */
  function Display(e: BinaryError): (r: string)
    ensures e.Message? ==> r == e.message
    ensures !e.Message? ==> |r| > 0 && 'a' <= r[0] <= 'z'
  {
    match e
    case Message(m) => m
    case UnexpectedEndOfInput => "unexpected end of input"
    case InvalidBytes => "invalid byte sequence"
    case MissingOrInvalidFlag(a, x) => FLAG_PREFIX + Text.Hex(a) + FLAG_MIDDLE + Text.Hex(x)
    case InvalidLength(a, x) => LENGTH_PREFIX + Text.Dec(a) + EXPECTED + Text.Dec(x)
    case InvalidName(a, x) => NAME_PREFIX + a + EXPECTED + x
    case UnexpectedType => "unexpected type"
  }

  /**
   * `ser::Error::custom` and `de::Error::custom`: both keep the displayed text
   * of their argument, so one function stands for the two impls.
   */
  function Custom(msg: string): (e: BinaryError)
    ensures e.Message? && Display(e) == msg
  {
    Message(msg)
  }

  /** Rust's `{:?}` of a list of bytes: `[1, 2, 3]`. */
  function DebugBytes(bs: seq<u8>): string
  {
    "[" + DebugItems(bs) + "]"
  }

  function DebugItems(bs: seq<u8>): string
  {
    if bs == [] then ""
    else if |bs| == 1 then Text.Dec(bs[0])
    else Text.Dec(bs[0]) + ", " + DebugItems(bs[1..])
  }

  /** `{:?}` of `Option<u8>` as it appears in a `Utf8Error`. */
  function DebugOption(o: Option<nat>): string
  {
    match o
    case None => "None"
    case Some(n) => "Some(" + Text.Dec(n) + ")"
  }

  /** `{:?}` of a `FromUtf8Error` (derived `Debug` of the struct and of its `Utf8Error`). */
  function DebugFromUtf8Error(bytes: seq<u8>, error: Utf8.Utf8Error): string
  {
    "FromUtf8Error { bytes: " + DebugBytes(bytes) + ", error: Utf8Error { valid_up_to: "
    + Text.Dec(error.validUpTo) + ", error_len: " + DebugOption(error.errorLen) + " } }"
  }

  /** `impl From<FromUtf8Error> for BinaryError`: a `Message` holding the error's `Debug` text. */
  function FromUtf8Error(bytes: seq<u8>, error: Utf8.Utf8Error): (e: BinaryError)
    ensures e.Message?
    ensures Display(e) == DebugFromUtf8Error(bytes, error)
    ensures |Display(e)| > |DebugBytes(bytes)|
  {
    Message(DebugFromUtf8Error(bytes, error))
  }

  /**
   * `String::from_utf8` of the lone byte 0xFF fails at index 0 with one bad
   * byte, and the error converts to the `Debug` text Rust prints for it.
   */
  lemma Utf8ErrorDisplayExample()
    ensures Utf8.FromUtf8([0xFF]) == Utf8.FromUtf8Error([0xFF], Utf8.Utf8Error(0, Some(1)))
    ensures Display(FromUtf8Error([0xFF], Utf8.Utf8Error(0, Some(1))))
         == "FromUtf8Error { bytes: " + "[255]" + ", error: Utf8Error { valid_up_to: "
            + "0" + ", error_len: " + "Some(1)" + " } }"
  {
    assert Text.Dec(0) == "0" && Text.Dec(1) == "1";
    assert Text.Dec(255) == "255" by {
      Text.DivMod(255, 10);
      Text.DivMod(25, 10);
      assert Text.Dec(255) == Text.Radix(25, 10) + [Text.Digit(5)];
      assert Text.Radix(25, 10) == Text.Radix(2, 10) + [Text.Digit(5)];
    }
    assert DebugBytes([0xFF]) == "[255]" by {
      assert DebugItems([0xFF]) == Text.Dec(255);
    }
    assert DebugOption(Some(1)) == "Some(1)";
  }

  /** A digit string never contains the comma that separates the two numbers of a message. */
  lemma DigitsHaveNoComma(s: string, base: nat)
    requires 2 <= base <= 16
    requires forall i :: 0 <= i < |s| ==> Text.IsDigit(s[i], base)
    ensures forall i :: 0 <= i < |s| ==> s[i] != ','
  {
  }

  /** `a + sep + b == a' + sep + b'` splits uniquely when neither `a` nor `a'` holds the separator's first character. */
  lemma {:induction false} SplitAtSeparator(a: string, b: string, a': string, b': string, sep: string)
    requires |sep| > 0
    requires forall i :: 0 <= i < |a| ==> a[i] != sep[0]
    requires forall i :: 0 <= i < |a'| ==> a'[i] != sep[0]
    requires a + sep + b == a' + sep + b'
    ensures a == a' && b == b'
  {
    var s := a + sep + b;
    assert s == a' + sep + b';
    assert forall i :: 0 <= i < |a| ==> s[i] == a[i];
    assert forall i :: 0 <= i < |a'| ==> s[i] == a'[i];
    assert s[|a|] == sep[0] && s[|a'|] == sep[0];
    assert |a| == |a'|;
    assert a == s[..|a|] == a';
    assert b == s[|a| + |sep|..] == b';
  }

  /** Two messages of the form `p + a + m + b` agree after their common prefix `p`. */
  lemma CommonPrefix(p: string, a: string, m: string, b: string, a': string, b': string)
    requires p + a + m + b == p + a' + m + b'
    ensures a + m + b == a' + m + b'
  {
    assert a + m + b == (p + a + m + b)[|p|..];
    assert a' + m + b' == (p + a' + m + b')[|p|..];
  }

  /** The flag message names both bytes unambiguously: equal texts mean equal flags. */
  lemma FlagDisplayInjective(a: u8, x: u8, a': u8, x': u8)
    requires Display(MissingOrInvalidFlag(a, x)) == Display(MissingOrInvalidFlag(a', x'))
    ensures a == a' && x == x'
  {
    var ha, hx, ha', hx' := Text.Hex(a), Text.Hex(x), Text.Hex(a'), Text.Hex(x');
    CommonPrefix(FLAG_PREFIX, ha, FLAG_MIDDLE, hx, ha', hx');
    DigitsHaveNoComma(ha, 16);
    DigitsHaveNoComma(ha', 16);
    SplitAtSeparator(ha, hx, ha', hx', FLAG_MIDDLE);
    Text.RadixInjective(a, a', 16);
    Text.RadixInjective(x, x', 16);
  }

  /** The same for the two lengths of `InvalidLength`. */
  lemma LengthDisplayInjective(a: nat, x: nat, a': nat, x': nat)
    requires Display(InvalidLength(a, x)) == Display(InvalidLength(a', x'))
    ensures a == a' && x == x'
  {
    var da, dx, da', dx' := Text.Dec(a), Text.Dec(x), Text.Dec(a'), Text.Dec(x');
    CommonPrefix(LENGTH_PREFIX, da, EXPECTED, dx, da', dx');
    DigitsHaveNoComma(da, 10);
    DigitsHaveNoComma(da', 10);
    SplitAtSeparator(da, dx, da', dx', EXPECTED);
    Text.RadixInjective(a, a', 10);
    Text.RadixInjective(x, x', 10);
  }

  /** The texts the source's own display tests expect. */
  lemma MessageDisplayExample()
    ensures Display(Message("this is a test")) == "this is a test"
  {
  }

  lemma NameDisplayExample()
    ensures Display(InvalidName("actual", "expected")) == "invalid name, actual " + "actual" + ", expected " + "expected"
  {
  }

  lemma LengthDisplayExample()
    ensures Display(InvalidLength(2, 1)) == "invalid length, actual " + "2" + ", expected " + "1"
  {
    assert Text.Dec(2) == "2" && Text.Dec(1) == "1";
  }

  lemma FlagDisplayExample()
    ensures Display(MissingOrInvalidFlag(0xFF, 0x80)) == "missing or invalid type flag, actual 0x" + "FF" + ", expected 0x" + "80"
  {
    assert Text.Hex(0xFF) == "FF" by {
      Text.DivMod(0xFF, 16);
      assert Text.Hex(0xFF) == Text.Radix(15, 16) + [Text.Digit(15)];
    }
    assert Text.Hex(0x80) == "80" by {
      Text.DivMod(0x80, 16);
      assert Text.Hex(0x80) == Text.Radix(8, 16) + [Text.Digit(0)];
    }
  }

  /** The fixed texts of the field-less variants are pairwise different. */
  lemma FixedTextsDistinct()
    ensures Display(UnexpectedEndOfInput) != Display(InvalidBytes)
    ensures Display(UnexpectedEndOfInput) != Display(UnexpectedType)
    ensures Display(InvalidBytes) != Display(UnexpectedType)
  {
    assert Display(UnexpectedEndOfInput)[0] == 'u' && Display(InvalidBytes)[0] == 'i';
    assert Display(UnexpectedEndOfInput)[2] == 'e' && Display(UnexpectedType)[2] == 'e';
    assert Display(UnexpectedEndOfInput)[11] == 'e' && Display(UnexpectedType)[11] == 't';
  }
}
