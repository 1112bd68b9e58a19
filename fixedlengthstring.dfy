/**
 * `FixedLengthString<N>`: exactly `N` `ascii::Char`s. The length is a type
 * parameter of the source; here it is the `n` the constructors and
 * conversions take, and `Len()` of what they build.
 *
 * Shorter input is padded with NUL characters, and those NULs stay part of
 * the string: `String::from` and the comparison with a `&str` see all `N`
 * characters.
 */
module FixedLengthStrings {
  import opened Bytes
  import opened Options
  import opened Ascii
  import opened AsciiChars

  datatype FixedLengthString = FixedLengthString(chars: seq<Char>)
  {
    /** `len`: the `N` of the type, which is also how many bytes and characters the string gives. */
    function Len(): (n: nat)
      ensures n == |AsBytes()| && n == |ToString()|
    {
      |chars|
    }

    /** `as_bytes`: each character's byte (`u8::from`), in order. */
    function AsBytes(): (r: seq<u8>)
      ensures |r| == |chars|
    {
      seq(|chars|, i requires 0 <= i < |chars| => chars[i].value)
    }

    /** `String::from`, and what `Display` writes: one character per byte, NULs included. */
    function ToString(): (r: string)
      ensures |r| == |chars|
    {
      seq(|chars|, i requires 0 <= i < |chars| => chars[i].ToChar())
    }

    /** `eq(&str)`: the whole `N` characters against the other string. */
    predicate EqStr(other: string)
      ensures EqStr(other) <==>
        |other| == Len() && forall i :: 0 <= i < |other| ==> other[i] as int == chars[i].value
    {
      ToString() == other
    }
  }

  /** `new`: `n` NUL characters. */
  function New(n: nat): (f: FixedLengthString)
    ensures f.Len() == n
    ensures forall i :: 0 <= i < n ==> f.chars[i].IsNull()
  {
    FixedLengthString(seq(n, _ => Null()))
  }

  /** `From<[u8; N]>`: a character for each byte of an array of exactly `N`. */
  function FromArray(a: seq<u8>): (f: FixedLengthString)
    ensures f.Len() == |a| && f.AsBytes() == a
  {
    FixedLengthString(seq(|a|, i requires 0 <= i < |a| => Char(a[i])))
  }

  /** `as_bytes` then `From<[u8; N]>` gives the string back. */
  lemma ArrayRoundTrip(f: FixedLengthString)
    ensures FromArray(f.AsBytes()) == f
  {
    assert FromArray(f.AsBytes()).chars == f.chars;
  }

  /** The `n` characters `try_from(&[u8])` fills: the bytes, then NULs. */
  function Padded(value: seq<u8>, n: nat): (cs: seq<Char>)
    requires |value| <= n
    ensures |cs| == n
  {
    seq(n, i requires 0 <= i < n => if i < |value| then Char(value[i]) else Null())
  }

  /**
   * `TryFrom<&[u8]>`: input longer than `n` is refused; anything else is
   * copied to the front and the rest is NUL.
   */
  function FromSlice(value: seq<u8>, n: nat): (r: Conversion<FixedLengthString>)
    ensures !r.Panicked?
    ensures r.Err? <==> |value| > n
    ensures r.Err? ==> r.error == AsciiError(TooLong(|value|, n), None)
    ensures r.Ok? ==> r.value.Len() == n && r.value.AsBytes()[..|value|] == value
    ensures r.Ok? ==> forall i :: |value| <= i < n ==> r.value.chars[i].IsNull()
  {
    if |value| > n then Err(AsciiError(TooLong(|value|, n), None))
    else
      var f := FixedLengthString(Padded(value, n));
      assert f.AsBytes()[..|value|] == value;
      assert forall i :: |value| <= i < n ==> f.chars[i] == Null();
      Ok(f)
  }

  /** `try_from(&[u8])`: fills an array of `n` NULs from the front. */
  method TryFromSlice(value: seq<u8>, n: nat) returns (r: Conversion<FixedLengthString>)
    ensures r == FromSlice(value, n)
  {
    if |value| > n {
      return Err(AsciiError(TooLong(|value|, n), None));
    }
    var v := new Char[n](_ => Null());
    for i := 0 to |value|
      invariant forall j :: 0 <= j < i ==> v[j] == Char(value[j])
      invariant forall j :: i <= j < n ==> v[j] == Null()
    {
      v[i] := Char(value[i]);
    }
    assert v[..] == Padded(value, n);
    r := Ok(FixedLengthString(v[..]));
  }

  /** `From<Vec<u8>>`: `try_from(&[u8])` unwrapped, so input longer than `n` panics. */
  function FromVec(value: seq<u8>, n: nat): (r: Conversion<FixedLengthString>)
    ensures !r.Err?
    ensures r.Panicked? <==> |value| > n
    ensures r.Ok? ==> r == FromSlice(value, n)
  {
    match FromSlice(value, n)
    case Ok(f) => Ok(f)
    case _ => Panicked
  }

  /**
   * `TryFrom<&str>` and `TryFrom<&String>`: text with a character from
   * 0x80 on is refused; ASCII text goes through `From<Vec<u8>>`.
   */
  function FromStr(value: string, n: nat): (r: Conversion<FixedLengthString>)
    ensures r.Err? <==> !IsAscii(value)
    ensures r.Err? ==> r.error == AsciiError(NotAscii, None)
    ensures r.Panicked? <==> IsAscii(value) && |value| > n
  {
    if !IsAscii(value) then Err(AsciiError(NotAscii, None))
    else FromVec(AsciiBytes(value), n)
  }

  /** `try_from(&str)`: collects `c as u8` for each character, then converts. */
  method TryFromStr(value: string, n: nat) returns (r: Conversion<FixedLengthString>)
    ensures r == FromStr(value, n)
  {
    if !IsAscii(value) {
      return Err(AsciiError(NotAscii, None));
    }
    var v: seq<u8> := [];
    for i := 0 to |value|
      invariant v == AsciiBytes(value)[..i]
    {
      v := v + [value[i] as int];
    }
    assert v == AsciiBytes(value);
    r := FromVec(v, n);
  }

  /** `String::from`: pushes each character in turn. */
  method IntoString(f: FixedLengthString) returns (s: string)
    ensures s == f.ToString()
  {
    s := [];
    for i := 0 to |f.chars|
      invariant s == f.ToString()[..i]
    {
      s := s + [f.chars[i].ToChar()];
    }
  }

  /** `k` NUL characters. */
  function Nuls(k: nat): (s: string)
    ensures |s| == k
  {
    seq(k, _ => '\0')
  }

  /** ASCII text no longer than `n` reads back as itself followed by NULs up to `n`. */
  lemma StrRoundTrip(value: string, n: nat)
    requires IsAscii(value) && |value| <= n
    ensures FromStr(value, n).Ok?
    ensures FromStr(value, n).value.ToString() == value + Nuls(n - |value|)
    ensures FromStr(value, n).value.EqStr(value) <==> |value| == n
  {
    var s := FromStr(value, n).value.ToString();
    assert s == value + Nuls(n - |value|);
  }

  /** A string of ASCII characters is rebuilt from its own text. */
  lemma ToStringRoundTrip(f: FixedLengthString)
    requires forall i :: 0 <= i < f.Len() ==> f.chars[i].value < 0x80
    ensures IsAscii(f.ToString())
    ensures FromStr(f.ToString(), f.Len()) == Ok(f)
  {
    var s := f.ToString();
    assert AsciiBytes(s) == f.AsBytes();
    assert Padded(f.AsBytes(), f.Len()) == f.chars;
  }

  /** The NUL padding is part of the comparison: "A" in two characters is not "A". */
  lemma PaddingCompares()
    ensures FromStr("A", 2).Ok?
    ensures !FromStr("A", 2).value.EqStr("A")
    ensures FromStr("A", 2).value.EqStr("A\0")
  {
    StrRoundTrip("A", 2);
    assert Nuls(1) == "\0";
  }

  /** The cases the type's own checks name. */
  lemma KnownCases()
    ensures New(10).Len() == 10
    ensures FixedLengthString([Null()]).EqStr("\0")
    ensures FromVec([0x41], 1).Ok? && FromVec([0x41], 1).value.EqStr("A")
    ensures FromArray([0x41]).EqStr("A")
    ensures FromSlice([0x41, 0x41], 1).Err?
    ensures FromStr("\U{1F47F}", 1).Err?
  {
    assert FixedLengthString([Null()]).ToString() == "\0";
    assert FromArray([0x41]).ToString() == "A";
    assert FromVec([0x41], 1).value.chars == [Char(0x41)];
    assert FromVec([0x41], 1).value.ToString() == "A";
    assert "\U{1F47F}"[0] as int >= 0x80;
  }
}
