/**
 * How the ASCII types meet serde, and so the two binary formats.
 *
 * `Char` serializes as a `u8` and deserializes through `deserialize_u8`,
 * whose visitor turns the byte back into the character. `FixedLengthString`
 * serializes its bytes with `serialize_bytes` and deserializes through
 * `deserialize_bytes`, whose visitor accepts exactly `N` bytes. The
 * in-memory format carries both; the stream format implements neither
 * `serialize_bytes` nor `deserialize_bytes`, so it carries only `Char`.
 */
module AsciiSerde {
  import opened Bytes
  import opened Options
  import opened BinaryErrors
  import opened Common
  import opened DataModel
  import Text
  import Ascii
  import AsciiChars
  import FixedLengthStrings
  import Ser
  import De
  import RoundTrip
  import StreamSer
  import StreamDe
  import StreamRoundTrip

  /** `Char::serialize`: `serialize_u8` of the byte. */
  function CharValue(c: AsciiChars.Char): (v: Value)
    ensures Fits(v, CharShape()) && NoByteBuf(v) && RoundTrip.Portable(v)
  {
    Int(U8, c.value)
  }

  /** `Char::deserialize` asks for a `u8`. */
  function CharShape(): Shape
  {
    IntS(U8)
  }

  /** `ACharVisitor::visit_u8`: the byte as a character, which serializes back to that byte. */
  function VisitU8(b: u8): (c: AsciiChars.Char)
    ensures CharValue(c) == Int(U8, b)
  {
    AsciiChars.Char(b)
  }

  /** In both formats a `Char` takes exactly its own byte, and reading it back gives the character. */
  lemma CharRoundTrip(c: AsciiChars.Char, rest: seq<u8>, bigEndian: bool, ext: Externals)
    requires Sound(ext)
    ensures Ser.Emit(CharValue(c), bigEndian, ext) == Ser.Emitted([c.value], None)
    ensures De.Decode(CharShape(), [c.value] + rest, bigEndian, ext) == Parsed(CharValue(c), rest)
    ensures StreamSer.Emit(CharValue(c), bigEndian, ext) == [c.value]
    ensures StreamDe.Decode(CharShape(), [c.value] + rest, bigEndian, ext) == Parsed(CharValue(c), rest)
    ensures VisitU8(CharValue(c).i) == c
  {
    assert ToBytes(U8, c.value, bigEndian) == [c.value] by {
      assert Pow256(1) == 0x100;
    }
    RoundTrip.LeafRoundTrip(CharValue(c), CharShape(), rest, bigEndian, ext);
    StreamRoundTrip.LeafRoundTrip(CharValue(c), CharShape(), rest, bigEndian, ext);
  }

  /** `FixedLengthString::serialize`: `serialize_bytes` of `as_bytes`. */
  function StringValue(f: FixedLengthStrings.FixedLengthString): (v: Value)
    ensures v.ByteBuf? && v.bytes == f.AsBytes()
  {
    ByteBuf(f.AsBytes())
  }

  /** `AStringVisitor::expecting` */
  function Expecting(n: nat): string
  {
    "an array of " + Text.Dec(n) + " ASCII bytes"
  }

  /** The expectation names the length: two lengths never share one. */
  lemma ExpectingInjective(n: nat, m: nat)
    requires Expecting(n) == Expecting(m)
    ensures n == m
  {
    var p, sfx := "an array of ", " ASCII bytes";
    var e := Expecting(n);
    assert Text.Dec(n) == e[|p|..|e| - |sfx|];
    assert Text.Dec(m) == Expecting(m)[|p|..|e| - |sfx|];
    Text.RadixInjective(n, m, 10);
  }

  /**
   * `AStringVisitor::visit_bytes`: anything but `n` bytes is an
   * `invalid_length` error; `n` bytes become the string holding them.
   */
  function VisitBytes(v: seq<u8>, n: nat): (r: Result<FixedLengthStrings.FixedLengthString>)
    ensures r.Ok? <==> |v| == n
    ensures r.Ok? ==> r.value.Len() == n && r.value.AsBytes() == v
    ensures r.Err? ==> r.error == Message(De.InvalidLengthMessage(|v|, Expecting(n)))
  {
    if |v| != n then Err(Message(De.InvalidLengthMessage(|v|, Expecting(n))))
    else
      var f := FixedLengthStrings.FromSlice(v, n).value;
      assert f.AsBytes() == f.AsBytes()[..|v|];
      Ok(f)
  }

  /** The visitor rebuilds a string from its own bytes. */
  lemma VisitRoundTrip(f: FixedLengthStrings.FixedLengthString)
    ensures VisitBytes(f.AsBytes(), f.Len()) == Ok(f)
  {
    var g := VisitBytes(f.AsBytes(), f.Len()).value;
    FixedLengthStrings.ArrayRoundTrip(f);
    FixedLengthStrings.ArrayRoundTrip(g);
  }

  /** The in-memory format writes a string's bytes behind their count and reads them back as the same string. */
  lemma StringRoundTrip(f: FixedLengthStrings.FixedLengthString, rest: seq<u8>, bigEndian: bool, ext: Externals)
    requires Sound(ext) && IsUsize(f.Len())
    ensures Ser.Emit(StringValue(f), bigEndian, ext) == Ser.Emitted(ext.compress(f.Len()) + f.AsBytes(), None)
    ensures De.Decode(BytesS, Ser.Emit(StringValue(f), bigEndian, ext).bytes + rest, bigEndian, ext)
            == Parsed(StringValue(f), rest)
    ensures VisitBytes(StringValue(f).bytes, f.Len()) == Ok(f)
  {
    RoundTrip.LeafRoundTrip(StringValue(f), BytesS, rest, bigEndian, ext);
    VisitRoundTrip(f);
  }

  /**
   * The stream format has no bytes: a string's value is outside what its
   * serializer accepts, and its deserializer panics whenever bytes are asked for.
   */
  lemma StringNotInStream(f: FixedLengthStrings.FixedLengthString, data: seq<u8>, bigEndian: bool, ext: Externals)
    ensures !NoByteBuf(StringValue(f))
    ensures StreamDe.Decode(BytesS, data, bigEndian, ext) == Panicked
  {
  }

  /**
   * Two bytes for a one-character string: the error text the type's own
   * check names, "invalid length 2, expected an array of 1 ASCII bytes".
   */
  lemma WrongLengthMessage()
    ensures VisitBytes([0x41, 0x41], 1)
            == Err(Message("invalid length " + "2" + ", expected " + ("an array of " + "1" + " ASCII bytes")))
  {
    assert Text.Dec(2) == [Text.Digit(2)] == "2";
    assert Text.Dec(1) == [Text.Digit(1)] == "1";
  }
}
