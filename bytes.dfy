/**
 * Bytes and the fixed-width integers of the wire format.
 *
 * `ToBytes`/`FromBytes` model Rust's `to_le_bytes`/`to_be_bytes` and
 * `from_le_bytes`/`from_be_bytes` for the ten primitive integer types.
 * Integers are unbounded here, so the two's-complement wrap-around of the
 * signed types is written out (`Bits`, `FromBits`).
 */
module Bytes {

  type u8 = x: int | 0 <= x < 0x100

  function Pow256(w: nat): (r: nat)
    ensures r >= 1
  {
    if w == 0 then 1 else 256 * Pow256(w - 1)
  }

  function Reverse<T>(s: seq<T>): (r: seq<T>)
    ensures |r| == |s|
    ensures forall i :: 0 <= i < |s| ==> r[i] == s[|s| - 1 - i]
  {
    if s == [] then [] else Reverse(s[1..]) + [s[0]]
  }

  lemma {:induction false} ReverseReverse<T>(s: seq<T>)
    ensures Reverse(Reverse(s)) == s
  {
    var r := Reverse(Reverse(s));
    assert |r| == |s|;
    forall i | 0 <= i < |s| ensures r[i] == s[i] {
      assert r[i] == Reverse(s)[|s| - 1 - i];
    }
  }

  /** The `w` low-order bytes of `n`, least significant first (`to_le_bytes`). */
  function LeBytes(n: nat, w: nat): (r: seq<u8>)
    ensures |r| == w
  {
    if w == 0 then [] else [n % 256] + LeBytes(n / 256, w - 1)
  }

  /** The number whose little-endian bytes are `bs` (`from_le_bytes`). */
  function LeValue(bs: seq<u8>): nat
  {
    if bs == [] then 0 else bs[0] + 256 * LeValue(bs[1..])
  }

  lemma {:induction false} LeValueBound(bs: seq<u8>)
    ensures LeValue(bs) < Pow256(|bs|)
  {
    if bs != [] {
      LeValueBound(bs[1..]);
    }
  }

  /** Reading back the bytes of `n` gives `n` whenever `n` fits in `w` bytes. */
  lemma {:induction false} LeRoundTrip(n: nat, w: nat)
    requires n < Pow256(w)
    ensures LeValue(LeBytes(n, w)) == n
  {
    if w > 0 {
      LeRoundTrip(n / 256, w - 1);
      assert LeBytes(n, w)[1..] == LeBytes(n / 256, w - 1);
    }
  }

  /** The other direction: every byte string is the encoding of its value. */
  lemma {:induction false} LeBytesOfValue(bs: seq<u8>)
    ensures LeBytes(LeValue(bs), |bs|) == bs
  {
    if bs != [] {
      var n := LeValue(bs);
      assert n % 256 == bs[0] && n / 256 == LeValue(bs[1..]);
      LeBytesOfValue(bs[1..]);
    }
  }

  /** The primitive integer types of Rust that the serializers handle. */
  datatype IntType = U8 | U16 | U32 | U64 | U128 | I8 | I16 | I32 | I64 | I128
  {
    /** `size_of::<T>()` */
    function Width(): nat
    {
      match this
      case U8 | I8 => 1
      case U16 | I16 => 2
      case U32 | I32 => 4
      case U64 | I64 => 8
      case U128 | I128 => 16
    }

    predicate Signed()
    {
      I8? || I16? || I32? || I64? || I128?
    }

    /** 2 to the number of bits of the type. */
    function Modulus(): (m: nat)
      ensures m == Pow256(Width())
    {
      match this
      case U8 | I8 => assert Pow256(1) == 0x100; 0x100
      case U16 | I16 => assert Pow256(2) == 0x1_0000; 0x1_0000
      case U32 | I32 => assert Pow256(4) == 0x1_0000_0000; 0x1_0000_0000
      case U64 | I64 =>
        assert Pow256(8) == 0x1_0000_0000_0000_0000;
        0x1_0000_0000_0000_0000
      case U128 | I128 =>
        assert Pow256(8) == 0x1_0000_0000_0000_0000;
        assert Pow256(16) == Pow256(8) * Pow256(8) by { PowAdd(8, 8); }
        0x1_0000_0000_0000_0000_0000_0000_0000_0000
    }

    /** The values of the type: `T::MIN..=T::MAX`. */
    predicate Contains(i: int)
    {
      if Signed() then -(Modulus() / 2) <= i < Modulus() / 2 else 0 <= i < Modulus()
    }
  }

  lemma {:induction false} PowAdd(a: nat, b: nat)
    ensures Pow256(a + b) == Pow256(a) * Pow256(b)
  {
    if a > 0 {
      PowAdd(a - 1, b);
    }
  }

  /** The bit pattern of `i` as a value of type `t`: two's complement, wrapping. */
  function Bits(t: IntType, i: int): (u: nat)
    ensures u < t.Modulus()
  {
    i % t.Modulus()
  }

  /** The value of type `t` whose bit pattern is `u` (an `as` cast from the unsigned type). */
  function FromBits(t: IntType, u: nat): int
  {
    if t.Signed() && u >= t.Modulus() / 2 then u - t.Modulus() else u
  }

  /** `v.to_be_bytes()` when `bigEndian`, else `v.to_le_bytes()`. */
  function ToBytes(t: IntType, i: int, bigEndian: bool): (r: seq<u8>)
    ensures |r| == t.Width()
  {
    var le := LeBytes(Bits(t, i), t.Width());
    if bigEndian then Reverse(le) else le
  }

  /** `T::from_be_bytes(bs)` when `bigEndian`, else `T::from_le_bytes(bs)`. */
  function FromBytes(t: IntType, bs: seq<u8>, bigEndian: bool): (i: int)
    requires |bs| == t.Width()
    ensures t.Contains(i)
  {
    var le := if bigEndian then Reverse(bs) else bs;
    LeValueBound(le);
    FromBits(t, LeValue(le))
  }

  /** The big-endian bytes are the little-endian bytes reversed. */
  lemma BigEndianIsReversed(t: IntType, i: int)
    ensures ToBytes(t, i, true) == Reverse(ToBytes(t, i, false))
  {
  }

  /** Decoding with the same endianness gives back every value of the type. */
  lemma {:induction false} IntRoundTrip(t: IntType, i: int, bigEndian: bool)
    requires t.Contains(i)
    ensures FromBytes(t, ToBytes(t, i, bigEndian), bigEndian) == i
  {
    var u := Bits(t, i);
    var le := LeBytes(u, t.Width());
    LeRoundTrip(u, t.Width());
    if bigEndian {
      ReverseReverse(le);
    }
    BitsRoundTrip(t, i);
  }

  /** `FromBits` undoes `Bits` on the values of the type. */
  lemma BitsRoundTrip(t: IntType, i: int)
    requires t.Contains(i)
    ensures FromBits(t, Bits(t, i)) == i
  {
    var m := t.Modulus();
    if i < 0 {
      WrapNegative(i, m);
    } else {
      WrapSmall(i, m);
    }
  }

  lemma WrapNegative(i: int, m: int)
    requires 0 < m && -m <= i < 0
    ensures i % m == i + m
  {
  }

  lemma WrapSmall(i: int, m: int)
    requires 0 <= i < m
    ensures i % m == i
  {
  }

  /** `Bits` undoes `FromBits` on the bit patterns of the type. */
  lemma FromBitsRoundTrip(t: IntType, u: nat)
    requires u < t.Modulus()
    ensures Bits(t, FromBits(t, u)) == u
  {
    var m := t.Modulus();
    if t.Signed() && u >= m / 2 {
      WrapNegative(u - m, m);
    } else {
      WrapSmall(u, m);
    }
  }

  /** The other direction: every `Width()` bytes are the encoding of the value read from them. */
  lemma {:induction false} BytesRoundTrip(t: IntType, bs: seq<u8>, bigEndian: bool)
    requires |bs| == t.Width()
    ensures ToBytes(t, FromBytes(t, bs, bigEndian), bigEndian) == bs
  {
    var le := if bigEndian then Reverse(bs) else bs;
    LeValueBound(le);
    var u := LeValue(le);
    FromBitsRoundTrip(t, u);
    LeBytesOfValue(le);
    assert LeBytes(Bits(t, FromBits(t, u)), t.Width()) == le;
    if bigEndian {
      ReverseReverse(bs);
    }
  }

  /** Different values of a type have different encodings. */
  lemma IntEncodingInjective(t: IntType, i: int, j: int, bigEndian: bool)
    requires t.Contains(i) && t.Contains(j)
    requires ToBytes(t, i, bigEndian) == ToBytes(t, j, bigEndian)
    ensures i == j
  {
    IntRoundTrip(t, i, bigEndian);
    IntRoundTrip(t, j, bigEndian);
  }

  /** Regrouping a concatenation, kept out of the proofs that unfold encoders and decoders. */
  lemma AppendAssoc<T>(a: seq<T>, b: seq<T>, c: seq<T>)
    ensures a + b + c == a + (b + c)
  {
  }
}
