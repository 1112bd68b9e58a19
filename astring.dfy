/**
 * `AString`: a growable sequence of `AChar`s with a flag that forbids
 * changing its length. `resize` is the one operation that changes an
 * `AString` in place; a fixed-length `AString` refuses it.
 *
 * `fixed(length)` and `new_of_size(size)` only reserve capacity, so both
 * start empty; as nothing but `resize` changes the characters, a fixed
 * `AString` stays empty.
 */
module AStrings {
  import opened Bytes
  import opened Options
  import opened Ascii
  import opened AsciiAChars
  import Utf8

  /** `Vec::resize(size, AChar::null())`: cut to `size`, or padded with NULs up to it. */
  function Resized(a: seq<AChar>, size: nat): (r: seq<AChar>)
    ensures |r| == size
    ensures forall i :: 0 <= i < size && i < |a| ==> r[i] == a[i]
    ensures forall i :: |a| <= i < size ==> r[i] == Default()
  {
    if size <= |a| then a[..size] else a + seq(size - |a|, _ => Default())
  }

  /** Resizing to a length and then to a shorter one is resizing to the shorter one at once. */
  lemma ResizeTwice(a: seq<AChar>, m: nat, n: nat)
    requires n <= m
    ensures Resized(Resized(a, m), n) == Resized(a, n)
  {
    var r := Resized(Resized(a, m), n);
    assert forall i :: 0 <= i < n ==> r[i] == Resized(a, n)[i];
  }

  /** Growing and then shrinking back to the old length gives the old characters. */
  lemma GrowThenShrink(a: seq<AChar>, size: nat)
    requires |a| <= size
    ensures Resized(Resized(a, size), |a|) == a
  {
    ResizeTwice(a, size, |a|);
    assert Resized(a, |a|) == a[..|a|];
  }

  /** `u8::from` of each character. */
  function AsBytes(a: seq<AChar>): (r: seq<u8>)
    ensures |r| == |a|
  {
    seq(|a|, i requires 0 <= i < |a| => a[i].value)
  }

  class AString {
    var achars: seq<AChar>
    var fixedLength: bool

    /** `new`: empty, length not fixed. */
    constructor New()
      ensures achars == [] && !fixedLength
    {
      achars := [];
      fixedLength := false;
    }

    /** `new_of_size`: empty, with room for `size` characters, length not fixed. */
    constructor NewOfSize(size: nat)
      ensures achars == [] && !fixedLength
    {
      achars := [];
      fixedLength := false;
    }

    /** `fixed`: empty, with room for `length` characters, length fixed. */
    constructor Fixed(length: nat)
      ensures achars == [] && fixedLength
    {
      achars := [];
      fixedLength := true;
    }

    /** `From<&[u8]>`: one character per byte, in order; length not fixed. */
    constructor FromBytes(value: seq<u8>)
      ensures |achars| == |value| && AsBytes(achars) == value && !fixedLength
    {
      achars := seq(|value|, i requires 0 <= i < |value| => AChar(value[i]));
      fixedLength := false;
    }

    /** `From<&Vec<AChar>>`: a copy of the characters; length not fixed. */
    constructor FromAChars(value: seq<AChar>)
      ensures achars == value && !fixedLength
    {
      achars := value;
      fixedLength := false;
    }

    /** `len`: the number of characters, which is the number of bytes `as_bytes` gives. */
    function Len(): (n: nat)
      reads this
      ensures n == |AsBytes(achars)|
    {
      |achars|
    }

    /**
     * `resize`: a fixed-length string is refused and left as it is; any
     * other gets exactly `size` characters, its old ones first, then NULs.
     */
    method Resize(size: nat) returns (r: Conversion<()>)
      modifies this
      ensures fixedLength == old(fixedLength)
      ensures old(fixedLength) ==> r == Err(AsciiError(FixedLength, None)) && achars == old(achars)
      ensures !old(fixedLength) ==> r == Ok(()) && achars == Resized(old(achars), size)
    {
      if fixedLength {
        r := Err(AsciiError(FixedLength, None));
      } else {
        achars := Resized(achars, size);
        r := Ok(());
      }
    }

    /**
     * `Into<String>`: `String::from_utf8` of the bytes, unwrapped, so bytes
     * that are not UTF-8 panic; the text it gives encodes to those bytes.
     */
    function IntoString(): (r: Conversion<string>)
      reads this
      ensures !r.Err?
      ensures r.Ok? <==> Utf8.Valid(AsBytes(achars))
      ensures r.Ok? ==> Utf8.EncodeString(r.value) == AsBytes(achars)
    {
      match Utf8.FromUtf8(AsBytes(achars))
      case Text(s) =>
        Utf8.DecodeRoundTrip(AsBytes(achars));
        Ok(s)
      case FromUtf8Error(_, _) => Panicked
    }
  }

  /**
   * `TryFrom<&String>`: text with a character from 0x80 on is refused;
   * otherwise each character's byte is pushed in order, and turning the
   * result back into a `String` gives the text again.
   */
  method TryFromString(value: string) returns (r: Conversion<AString>)
    ensures !r.Panicked?
    ensures r.Err? <==> !IsAscii(value)
    ensures r.Err? ==> r.error == AsciiError(NotAscii, None)
    ensures r.Ok? ==> AsBytes(r.value.achars) == AsciiBytes(value) && !r.value.fixedLength
    ensures r.Ok? ==> r.value.IntoString() == Ok(value)
  {
    if !IsAscii(value) {
      return Err(AsciiError(NotAscii, None));
    }
    var s := new AString.NewOfSize(|Utf8.EncodeString(value)|);
    for i := 0 to |value|
      invariant AsBytes(s.achars) == AsciiBytes(value)[..i] && !s.fixedLength
    {
      s.achars := s.achars + [AChar(value[i] as int)];
    }
    assert AsBytes(s.achars) == AsciiBytes(value);
    AsciiBytesDecode(value);
    r := Ok(s);
  }

  /** A byte from 0x80 on is accepted by `From<&[u8]>` but makes `Into<String>` panic on its own. */
  lemma LoneHighBytePanics(a: AString)
    requires a.achars == [AChar(0xA0)]
    ensures a.IntoString().Panicked?
  {
    assert !Utf8.Valid(AsBytes(a.achars)) by {
      assert AsBytes(a.achars) == [0xA0];
    }
  }
}
