/**
 * UTF-8 as Rust uses it: `char::encode_utf8`, `str::as_bytes`,
 * `String::from_utf8` and `FromUtf8Error`.
 *
 * The encoding is the one of section 3 of RFC 3629. The validation follows
 * Rust's: a lead byte decides the width, the second byte has a narrower range
 * after E0, ED, F0 and F4 (no overlong forms, no surrogates, nothing above
 * U+10FFFF), and the error reports how many bytes were valid and how long the
 * bad sequence is (`None` when the input ends inside a character).
 */
module Utf8 {
  import opened Bytes
  import opened Options

  /** `char::encode_utf8`: one to four bytes, section 3 of RFC 3629. */
  function EncodeChar(c: char): (r: seq<u8>)
    ensures 1 <= |r| <= 4
    ensures |r| == 1 <==> c as int < 0x80
  {
    var n := c as int;
    if n < 0x80 then [n]
    else if n < 0x800 then [0xC0 + n / 64, 0x80 + n % 64]
    else if n < 0x1_0000 then [0xE0 + n / 4096, 0x80 + n / 64 % 64, 0x80 + n % 64]
    else [0xF0 + n / 0x4_0000, 0x80 + n / 4096 % 64, 0x80 + n / 64 % 64, 0x80 + n % 64]
  }

  /** The bytes of a Rust `String` (`as_bytes`). */
  function EncodeString(s: string): (r: seq<u8>)
    ensures |r| >= |s|
  {
    if s == [] then [] else EncodeChar(s[0]) + EncodeString(s[1..])
  }

  /** `utf8_char_width`: the width a lead byte announces, 0 for a byte that cannot lead. */
  function LeadWidth(b: u8): (w: nat)
    ensures w <= 4
  {
    if b < 0x80 then 1
    else if 0xC2 <= b <= 0xDF then 2
    else if 0xE0 <= b <= 0xEF then 3
    else if 0xF0 <= b <= 0xF4 then 4
    else 0
  }

  predicate IsContinuation(b: u8)
  {
    0x80 <= b <= 0xBF
  }

  /** The second byte of a multi-byte character, with the narrowed ranges after E0, ED, F0 and F4. */
  predicate SecondOk(b0: u8, b1: u8)
  {
    if b0 == 0xE0 then 0xA0 <= b1 <= 0xBF
    else if b0 == 0xED then 0x80 <= b1 <= 0x9F
    else if b0 == 0xF0 then 0x90 <= b1 <= 0xBF
    else if b0 == 0xF4 then 0x80 <= b1 <= 0x8F
    else IsContinuation(b1)
  }

  /** `Utf8Error { valid_up_to, error_len }` */
  datatype Utf8Error = Utf8Error(validUpTo: nat, errorLen: Option<nat>)

  /** What the validator finds at the start of the input: a character of some width, or an error length. */
  datatype Scan = Good(width: nat) | Bad(errorLen: Option<nat>)

  function ScanFirst(bs: seq<u8>): (r: Scan)
    requires |bs| > 0
    ensures r.Good? ==> 1 <= r.width <= |bs| && r.width == LeadWidth(bs[0])
    ensures r.Bad? && r.errorLen.Some? ==> 1 <= r.errorLen.value <= 3
  {
    var w := LeadWidth(bs[0]);
    if w == 1 then Good(1)
    else if w == 0 then Bad(Some(1))
    else if |bs| < 2 then Bad(None)
    else if !SecondOk(bs[0], bs[1]) then Bad(Some(1))
    else if w == 2 then Good(2)
    else if |bs| < 3 then Bad(None)
    else if !IsContinuation(bs[2]) then Bad(Some(2))
    else if w == 3 then Good(3)
    else if |bs| < 4 then Bad(None)
    else if !IsContinuation(bs[3]) then Bad(Some(3))
    else Good(4)
  }

  /** Rust's validation: the first error, or `None` when the bytes are UTF-8. */
  function Validate(bs: seq<u8>): (r: Option<Utf8Error>)
    ensures r.Some? ==> r.value.validUpTo < |bs|
    decreases |bs|
  {
    if bs == [] then None
    else match ScanFirst(bs)
      case Bad(len) => Some(Utf8Error(0, len))
      case Good(w) =>
        match Validate(bs[w..])
        case None => None
        case Some(e) => Some(Utf8Error(e.validUpTo + w, e.errorLen))
  }

  predicate Valid(bs: seq<u8>)
  {
    Validate(bs).None?
  }

  /** The character a well-formed sequence of `w` bytes stands for. */
  function DecodeFirst(bs: seq<u8>, w: nat): char
    requires |bs| > 0 && ScanFirst(bs) == Good(w)
  {
    var b0 := bs[0] as int;
    if w == 1 then b0 as char
    else
      var b1 := bs[1] as int - 0x80;
      if w == 2 then ((b0 - 0xC0) * 64 + b1) as char
      else
        var b2 := bs[2] as int - 0x80;
        if w == 3 then ((b0 - 0xE0) * 4096 + b1 * 64 + b2) as char
        else ((b0 - 0xF0) * 0x4_0000 + b1 * 4096 + b2 * 64 + (bs[3] as int - 0x80)) as char
  }

  /** The characters of valid UTF-8 (`String::from_utf8(..).unwrap()`). */
  function Decode(bs: seq<u8>): (s: string)
    requires Valid(bs)
    ensures |s| <= |bs|
    decreases |bs|
  {
    if bs == [] then []
    else
      var w := ScanFirst(bs).width;
      [DecodeFirst(bs, w)] + Decode(bs[w..])
  }

  /** `String::from_utf8`: the string, or the error with the rejected bytes. */
  datatype Utf8Result = Text(s: string) | FromUtf8Error(bytes: seq<u8>, error: Utf8Error)

  function FromUtf8(bs: seq<u8>): (r: Utf8Result)
    ensures r.Text? <==> Valid(bs)
    ensures r.FromUtf8Error? ==> r.bytes == bs
  {
    match Validate(bs)
    case None => Text(Decode(bs))
    case Some(e) => FromUtf8Error(bs, e)
  }

  lemma EncodeOneByte(c: char, rest: seq<u8>)
    requires c as int < 0x80
    ensures var bs := EncodeChar(c) + rest;
      ScanFirst(bs) == Good(1) && DecodeFirst(bs, 1) == c
  {
  }

  lemma EncodeTwoBytes(c: char, rest: seq<u8>)
    requires 0x80 <= c as int < 0x800
    ensures var bs := EncodeChar(c) + rest;
      ScanFirst(bs) == Good(2) && DecodeFirst(bs, 2) == c
  {
    var n := c as int;
    var bs := EncodeChar(c) + rest;
    assert bs[0] == 0xC0 + n / 64 && bs[1] == 0x80 + n % 64;
  }

  lemma EncodeThreeBytes(c: char, rest: seq<u8>)
    requires 0x800 <= c as int < 0x1_0000
    ensures var bs := EncodeChar(c) + rest;
      ScanFirst(bs) == Good(3) && DecodeFirst(bs, 3) == c
  {
    var n := c as int;
    var bs := EncodeChar(c) + rest;
    var m := n / 64;
    assert n == m * 64 + n % 64;
    assert m == m / 64 * 64 + m % 64;
    DivUnique(n, 4096, m / 64, m % 64 * 64 + n % 64);
    assert bs[0] == 0xE0 + m / 64 && bs[1] == 0x80 + m % 64 && bs[2] == 0x80 + n % 64;
  }

  lemma EncodeFourBytes(c: char, rest: seq<u8>)
    requires 0x1_0000 <= c as int
    ensures var bs := EncodeChar(c) + rest;
      ScanFirst(bs) == Good(4) && DecodeFirst(bs, 4) == c
  {
    var n := c as int;
    var bs := EncodeChar(c) + rest;
    var m := n / 64;
    var k := m / 64;
    assert n == m * 64 + n % 64;
    assert m == k * 64 + m % 64;
    assert k == k / 64 * 64 + k % 64;
    DivUnique(n, 4096, k, m % 64 * 64 + n % 64);
    DivUnique(n, 0x4_0000, k / 64, k % 64 * 4096 + m % 64 * 64 + n % 64);
    assert bs[0] == 0xF0 + k / 64 && bs[1] == 0x80 + k % 64;
    assert bs[2] == 0x80 + m % 64 && bs[3] == 0x80 + n % 64;
  }

  /** Division by a positive constant is determined by any quotient/remainder split. */
  lemma DivUnique(n: int, d: int, q: int, r: int)
    requires 0 < d && 0 <= r < d && n == q * d + r
    ensures n / d == q && n % d == r
  {
    var k := n / d - q;
    assert k * d == r - n % d;
    MulSign(k, d);
  }

  lemma MulSign(k: int, d: int)
    requires d > 0
    ensures k >= 1 ==> k * d >= d
    ensures k <= -1 ==> k * d <= -d
  {
  }

  /** The validator reads back exactly the encoding of one character, whatever follows it. */
  lemma EncodeCharScans(c: char, rest: seq<u8>)
    ensures var bs := EncodeChar(c) + rest;
      ScanFirst(bs) == Good(|EncodeChar(c)|) && DecodeFirst(bs, |EncodeChar(c)|) == c
  {
    var n := c as int;
    if n < 0x80 {
      EncodeOneByte(c, rest);
    } else if n < 0x800 {
      EncodeTwoBytes(c, rest);
    } else if n < 0x1_0000 {
      EncodeThreeBytes(c, rest);
    } else {
      EncodeFourBytes(c, rest);
    }
  }

  /** The other direction: a well-formed character re-encodes to the bytes it was read from. */
  lemma ScanReencodes(bs: seq<u8>, w: nat)
    requires |bs| > 0 && ScanFirst(bs) == Good(w)
    ensures EncodeChar(DecodeFirst(bs, w)) == bs[..w]
  {
    if w == 2 {
      ReencodeTwo(bs);
    } else if w == 3 {
      ReencodeThree(bs);
    } else if w == 4 {
      ReencodeFour(bs);
    }
  }

  lemma ReencodeTwo(bs: seq<u8>)
    requires |bs| > 0 && ScanFirst(bs) == Good(2)
    ensures EncodeChar(DecodeFirst(bs, 2)) == bs[..2]
  {
    var n := DecodeFirst(bs, 2) as int;
    DivUnique(n, 64, bs[0] as int - 0xC0, bs[1] as int - 0x80);
  }

  lemma ReencodeThree(bs: seq<u8>)
    requires |bs| > 0 && ScanFirst(bs) == Good(3)
    ensures EncodeChar(DecodeFirst(bs, 3)) == bs[..3]
  {
    var n := DecodeFirst(bs, 3) as int;
    var b0, b1, b2 := bs[0] as int - 0xE0, bs[1] as int - 0x80, bs[2] as int - 0x80;
    assert n == b0 * 4096 + b1 * 64 + b2;
    DivUnique(n, 64, b0 * 64 + b1, b2);
    DivUnique(n / 64, 64, b0, b1);
    DivUnique(n, 4096, b0, b1 * 64 + b2);
    var e := EncodeChar(DecodeFirst(bs, 3));
    assert e == [0xE0 + n / 4096, 0x80 + n / 64 % 64, 0x80 + n % 64];
  }

  lemma ReencodeFour(bs: seq<u8>)
    requires |bs| > 0 && ScanFirst(bs) == Good(4)
    ensures EncodeChar(DecodeFirst(bs, 4)) == bs[..4]
  {
    var n := DecodeFirst(bs, 4) as int;
    var b0, b1 := bs[0] as int - 0xF0, bs[1] as int - 0x80;
    var b2, b3 := bs[2] as int - 0x80, bs[3] as int - 0x80;
    assert n == b0 * 0x4_0000 + b1 * 4096 + b2 * 64 + b3;
    DivUnique(n, 64, b0 * 4096 + b1 * 64 + b2, b3);
    DivUnique(n / 64, 64, b0 * 64 + b1, b2);
    DivUnique(n, 4096, b0 * 64 + b1, b2 * 64 + b3);
    DivUnique(n / 4096, 64, b0, b1);
    DivUnique(n, 0x4_0000, b0, b1 * 4096 + b2 * 64 + b3);
    var e := EncodeChar(DecodeFirst(bs, 4));
    assert e == [0xF0 + n / 0x4_0000, 0x80 + n / 4096 % 64, 0x80 + n / 64 % 64, 0x80 + n % 64];
  }

  /** Encoding then decoding a string gives it back, and the encoding is valid. */
  lemma {:induction false} EncodeStringRoundTrip(s: string)
    ensures Valid(EncodeString(s)) && Decode(EncodeString(s)) == s
  {
    if s != [] {
      var e := EncodeChar(s[0]);
      var bs := EncodeString(s);
      EncodeCharScans(s[0], EncodeString(s[1..]));
      assert bs[|e|..] == EncodeString(s[1..]);
      EncodeStringRoundTrip(s[1..]);
    }
  }

  /** Valid UTF-8 is the encoding of what it decodes to. */
  lemma {:induction false} DecodeRoundTrip(bs: seq<u8>)
    requires Valid(bs)
    ensures EncodeString(Decode(bs)) == bs
    decreases |bs|
  {
    if bs != [] {
      var w := ScanFirst(bs).width;
      assert Valid(bs[w..]);
      var s := [DecodeFirst(bs, w)] + Decode(bs[w..]);
      assert s[0] == DecodeFirst(bs, w) && s[1..] == Decode(bs[w..]);
      ScanReencodes(bs, w);
      DecodeRoundTrip(bs[w..]);
      assert EncodeString(s) == bs[..w] + bs[w..];
      assert bs == bs[..w] + bs[w..];
    }
  }

  /** The encoding of a string followed by the encoding of another is the encoding of both. */
  lemma {:induction false} EncodeStringAppend(s: string, t: string)
    ensures EncodeString(s + t) == EncodeString(s) + EncodeString(t)
  {
    if s != [] {
      assert (s + t)[0] == s[0];
      assert (s + t)[1..] == s[1..] + t;
      EncodeStringAppend(s[1..], t);
    } else {
      assert s + t == t;
    }
  }

  /** A single character's encoding is valid and decodes to that character. */
  lemma EncodeCharRoundTrip(c: char)
    ensures Valid(EncodeChar(c)) && Decode(EncodeChar(c)) == [c]
  {
    assert EncodeString([c]) == EncodeChar(c);
    EncodeStringRoundTrip([c]);
  }

  /** Every ASCII byte string is valid UTF-8 and decodes to the same characters. */
  lemma {:induction false} AsciiIsUtf8(bs: seq<u8>)
    requires forall i :: 0 <= i < |bs| ==> bs[i] < 0x80
    ensures Valid(bs) && |Decode(bs)| == |bs|
    ensures forall i :: 0 <= i < |bs| ==> Decode(bs)[i] as int == bs[i]
  {
    if bs != [] {
      AsciiIsUtf8(bs[1..]);
    }
  }
}
