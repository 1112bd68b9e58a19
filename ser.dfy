/**
 * The in-memory serializer: `Serializer` appends the encoding of a value
 * to its `output` buffer.
 *
 * `Emit` is the specification: the bytes a value appends and the error the
 * serialization ends with, if any. The only error is serde's default for the
 * 128-bit integers, which this serializer does not implement. Bytes appended
 * before an error stay in the buffer, but `to_bytes` then discards it.
 */
module Ser {
  import opened Bytes
  import opened Options
  import opened BinaryErrors
  import opened Common
  import opened DataModel
  import Utf8

  /** What serializing a value appends, and the error it stops with, if any. */
  datatype Emitted = Emitted(bytes: seq<u8>, error: Option<BinaryError>)

  /** `prefix` followed by whatever `e` appended. */
  function Then(prefix: seq<u8>, e: Emitted): (r: Emitted)
    ensures r.bytes == prefix + e.bytes && r.error == e.error
  {
    Emitted(prefix + e.bytes, e.error)
  }

  /** The bytes of a `&str`: its length through the codec, then its UTF-8. */
  function StrBytes(s: string, ext: Externals): seq<u8>
  {
    var bytes := Utf8.EncodeString(s);
    ext.compress(|bytes|) + bytes
  }

  /** A `u32` in the chosen byte order, as a variant index is written. */
  function U32Bytes(n: nat, bigEndian: bool): (r: seq<u8>)
    ensures |r| == 4
  {
    ToBytes(U32, n, bigEndian)
  }

  /** The error serde's default `serialize_u128`/`serialize_i128` return. */
  function Unsupported128(t: IntType): BinaryError
    requires t == U128 || t == I128
  {
    if t == U128 then Custom("u128 is not supported") else Custom("i128 is not supported")
  }

  /** What `serialize_struct` writes before the fields: the flag, the name, the field count. */
  function StructHeader(name: string, n: nat, ext: Externals): (r: seq<u8>)
    ensures |r| > 0 && r[0] == STRUCT
  {
    [STRUCT] + StrBytes(name, ext) + ext.compress(n)
  }

  /** What `serialize_struct_variant` writes before the fields: the flag, the enum name, the index, the field count. */
  function StructVariantHeader(name: string, idx: nat, n: nat, bigEndian: bool, ext: Externals): (r: seq<u8>)
    ensures |r| > 0 && r[0] == STRUCT_VARIANT
  {
    [STRUCT_VARIANT] + StrBytes(name, ext) + U32Bytes(idx, bigEndian) + ext.compress(n)
  }

  /** What `value.serialize(&mut serializer)` appends to `output`. */
  function Emit(v: Value, bigEndian: bool, ext: Externals): Emitted
    decreases v, 2
  {
    match v
    case Bool(b) => Emitted([if b then 1 else 0], None)
    case Int(t, i) =>
      if t == U128 || t == I128 then Emitted([], Some(Unsupported128(t)))
      else Emitted(ToBytes(t, i, bigEndian), None)
    case Char(c) => Emitted(Utf8.EncodeChar(c), None)
    case Str(s) => Emitted(StrBytes(s, ext), None)
    case ByteBuf(bs) => Emitted(ext.compress(|bs|) + bs, None)
    case OptNone => Emitted([NONE], None)
    case OptSome(x) => Then([SOME], Emit(x, bigEndian, ext))
    case Unit => Emitted([], None)
    case Seq(es) => Then(ext.compress(|es|), EmitAll(es, bigEndian, ext))
    case Map(entries) => Then(ext.compress(|entries|), EmitEntries(entries, bigEndian, ext))
    case Struct(name, fs) => Then(StructHeader(name, |fs|, ext), EmitAll(fs, bigEndian, ext))
    case UnitVariant(_, idx) => Emitted([UNIT_VARIANT] + U32Bytes(idx, bigEndian), None)
    case NewtypeVariant(_, idx, x) => Then(U32Bytes(idx, bigEndian), Emit(x, bigEndian, ext))
    case TupleVariant(_, idx, es) =>
      Then(U32Bytes(idx, bigEndian) + ext.compress(|es|), EmitAll(es, bigEndian, ext))
    case StructVariant(name, idx, fs) =>
      Then(StructVariantHeader(name, idx, |fs|, bigEndian, ext), EmitAll(fs, bigEndian, ext))
  }

  /** The elements one after the other, stopping at the first error. */
  function EmitAll(vs: seq<Value>, bigEndian: bool, ext: Externals): Emitted
    decreases vs, 1
  {
    if vs == [] then Emitted([], None)
    else
      var first := Emit(vs[0], bigEndian, ext);
      if first.error.Some? then first else Then(first.bytes, EmitAll(vs[1..], bigEndian, ext))
  }

  /** Each key followed by its value, stopping at the first error. */
  function EmitEntries(entries: seq<Entry>, bigEndian: bool, ext: Externals): Emitted
    decreases entries, 1
  {
    if entries == [] then Emitted([], None)
    else
      var first := EmitEntry(entries[0], bigEndian, ext);
      if first.error.Some? then first else Then(first.bytes, EmitEntries(entries[1..], bigEndian, ext))
  }

  /** The key, then (unless the key failed) the value. */
  function EmitEntry(e: Entry, bigEndian: bool, ext: Externals): Emitted
    decreases e, 0
  {
    var key := Emit(e.key, bigEndian, ext);
    if key.error.Some? then key else Then(key.bytes, Emit(e.val, bigEndian, ext))
  }

  /** `Serializer::to_bytes`: the whole encoding, or the error. */
  function Encode(v: Value, bigEndian: bool, ext: Externals): Result<seq<u8>>
  {
    var e := Emit(v, bigEndian, ext);
    if e.error.Some? then Err(e.error.value) else Ok(e.bytes)
  }

  /**
   * Serialization fails exactly when a 128-bit integer occurs somewhere in the
   * value, and the error it reports is then serde's `custom` message.
   */
  lemma {:induction false} EmitFailsOn128(v: Value, bigEndian: bool, ext: Externals)
    ensures Emit(v, bigEndian, ext).error.None? <==> No128(v)
    ensures Emit(v, bigEndian, ext).error.Some? ==> Emit(v, bigEndian, ext).error.value.Message?
    decreases v, 2
  {
    match v
    case OptSome(x) => EmitFailsOn128(x, bigEndian, ext);
    case NewtypeVariant(_, _, x) => EmitFailsOn128(x, bigEndian, ext);
    case Seq(es) => EmitAllFailsOn128(es, bigEndian, ext);
    case Map(entries) => EmitEntriesFailsOn128(entries, bigEndian, ext);
    case Struct(_, fs) => EmitAllFailsOn128(fs, bigEndian, ext);
    case TupleVariant(_, _, es) => EmitAllFailsOn128(es, bigEndian, ext);
    case StructVariant(_, _, fs) => EmitAllFailsOn128(fs, bigEndian, ext);
    case _ =>
  }

  lemma {:induction false} EmitAllFailsOn128(vs: seq<Value>, bigEndian: bool, ext: Externals)
    ensures EmitAll(vs, bigEndian, ext).error.None? <==> forall i :: 0 <= i < |vs| ==> No128(vs[i])
    ensures EmitAll(vs, bigEndian, ext).error.Some? ==> EmitAll(vs, bigEndian, ext).error.value.Message?
    decreases vs, 1
  {
    if vs != [] {
      EmitFailsOn128(vs[0], bigEndian, ext);
      EmitAllFailsOn128(vs[1..], bigEndian, ext);
      assert forall i :: 1 <= i < |vs| ==> vs[i] == vs[1..][i - 1];
    }
  }

  lemma {:induction false} EmitEntriesFailsOn128(entries: seq<Entry>, bigEndian: bool, ext: Externals)
    ensures EmitEntries(entries, bigEndian, ext).error.None? <==>
      forall i :: 0 <= i < |entries| ==> No128(entries[i].key) && No128(entries[i].val)
    ensures EmitEntries(entries, bigEndian, ext).error.Some? ==> EmitEntries(entries, bigEndian, ext).error.value.Message?
    decreases entries, 1
  {
    if entries != [] {
      var e := entries[0];
      assert e.key < e && e.val < e;
      EmitFailsOn128(e.key, bigEndian, ext);
      EmitFailsOn128(e.val, bigEndian, ext);
      EmitEntriesFailsOn128(entries[1..], bigEndian, ext);
      assert forall i :: 1 <= i < |entries| ==> entries[i] == entries[1..][i - 1];
    }
  }

  /** `to_bytes` returns bytes exactly for values without a 128-bit integer. */
  lemma EncodeFailsOn128(v: Value, bigEndian: bool, ext: Externals)
    ensures Encode(v, bigEndian, ext).Ok? <==> No128(v)
    ensures Encode(v, bigEndian, ext).Err? ==> Encode(v, bigEndian, ext).error.Message?
  {
    EmitFailsOn128(v, bigEndian, ext);
  }

  /** A serializer over a growable buffer; the buffer only ever grows at its end. */
  class Serializer {
    var output: seq<u8>
    const bigEndian: bool
    const ext: Externals

    /** `Serializer::new`: an empty buffer. */
    constructor (bigEndian: bool, ext: Externals)
      ensures output == [] && this.bigEndian == bigEndian && this.ext == ext
    {
      output := [];
      this.bigEndian := bigEndian;
      this.ext := ext;
    }

    /** `serialize_num`: the `Width()` bytes of the integer, in the chosen order. */
    method SerializeNum(t: IntType, i: int)
      modifies this
      ensures output == old(output) + ToBytes(t, i, bigEndian)
    {
      output := output + ToBytes(t, i, bigEndian);
    }

    /** `serialize_vec` over bytes: each byte through `serialize_num`, in order. */
    method SerializeVec(items: seq<u8>)
      modifies this
      ensures output == old(output) + items
    {
      var k := 0;
      while k < |items|
        invariant 0 <= k <= |items|
        invariant output == old(output) + items[..k]
      {
        SerializeNum(U8, items[k]);
        assert ToBytes(U8, items[k], bigEndian) == [items[k]];
        assert items[..k + 1] == items[..k] + [items[k]];
        k := k + 1;
      }
      assert items[..k] == items;
    }

    /** `serialize_bool`: the byte 1 or 0. */
    method SerializeBool(b: bool)
      modifies this
      ensures output == old(output) + [if b then 1 else 0]
    {
      SerializeNum(U8, if b then 1 else 0);
    }

    /** `serialize_char`: the UTF-8 bytes of the character. */
    method SerializeChar(c: char)
      modifies this
      ensures output == old(output) + Utf8.EncodeChar(c)
    {
      SerializeVec(Utf8.EncodeChar(c));
    }

    /** `serialize_str`: the compressed byte length, then the bytes. */
    method SerializeStr(s: string)
      modifies this
      ensures output == old(output) + StrBytes(s, ext)
    {
      var bytes := Utf8.EncodeString(s);
      SerializeVec(ext.compress(|bytes|));
      SerializeVec(bytes);
    }

    /** `serialize_bytes`: the compressed length, then the bytes. */
    method SerializeBytes(bs: seq<u8>)
      modifies this
      ensures output == old(output) + ext.compress(|bs|) + bs
    {
      SerializeVec(ext.compress(|bs|));
      SerializeVec(bs);
    }

    /** `serialize_none`: the `NONE` flag. */
    method SerializeNone()
      modifies this
      ensures output == old(output) + [NONE]
    {
      SerializeNum(U8, NONE);
    }

    /** `serialize_unit_variant`: the `UNIT_VARIANT` flag, then the index as a `u32`. */
    method SerializeUnitVariant(idx: nat)
      modifies this
      ensures output == old(output) + [UNIT_VARIANT] + U32Bytes(idx, bigEndian)
    {
      SerializeNum(U8, UNIT_VARIANT);
      SerializeNum(U32, idx);
    }

    /** `serialize_seq(Some(n))`, `serialize_tuple` and `serialize_map`: the compressed count. */
    method SerializeSeqHeader(n: nat)
      modifies this
      ensures output == old(output) + ext.compress(n)
    {
      SerializeVec(ext.compress(n));
    }

    /** `serialize_tuple_variant`: the index as a `u32`, then the compressed count. */
    method SerializeTupleVariantHeader(idx: nat, n: nat)
      modifies this
      ensures output == old(output) + U32Bytes(idx, bigEndian) + ext.compress(n)
    {
      SerializeNum(U32, idx);
      SerializeVec(ext.compress(n));
    }

    /** `serialize_struct`: the `STRUCT` flag, the name as a string, the compressed field count. */
    method SerializeStructHeader(name: string, n: nat)
      modifies this
      ensures output == old(output) + StructHeader(name, n, ext)
    {
      output := output + [STRUCT];
      SerializeStr(name);
      SerializeVec(ext.compress(n));
    }

    /** `serialize_struct_variant`: the `STRUCT_VARIANT` flag, the enum name, the index, the count. */
    method SerializeStructVariantHeader(name: string, idx: nat, n: nat)
      modifies this
      ensures output == old(output) + StructVariantHeader(name, idx, n, bigEndian, ext)
    {
      output := output + [STRUCT_VARIANT];
      SerializeStr(name);
      SerializeNum(U32, idx);
      SerializeVec(ext.compress(n));
    }

    /** `value.serialize(self)` for a value with no value inside it. */
    method SerializeLeaf(v: Value) returns (error: Option<BinaryError>)
      requires v.Bool? || v.Int? || v.Char? || v.Str? || v.ByteBuf? || v.OptNone? || v.Unit? || v.UnitVariant?
      modifies this
      ensures output == old(output) + Emit(v, bigEndian, ext).bytes
      ensures error == Emit(v, bigEndian, ext).error
    {
      error := None;
      match v {
        case Bool(b) => SerializeBool(b);
        case Int(t, i) =>
          if t == U128 || t == I128 {
            error := Some(Unsupported128(t));
          } else {
            SerializeNum(t, i);
          }
        case Char(c) => SerializeChar(c);
        case Str(s) => SerializeStr(s);
        case ByteBuf(bs) => SerializeBytes(bs);
        case OptNone => SerializeNone();
        case Unit =>
        case UnitVariant(_, idx) => SerializeUnitVariant(idx);
      }
    }

    /** `value.serialize(self)`: appends `Emit(v)` and reports its error. */
    method Serialize(v: Value) returns (error: Option<BinaryError>)
      modifies this
      ensures output == old(output) + Emit(v, bigEndian, ext).bytes
      ensures error == Emit(v, bigEndian, ext).error
      decreases v, 2
    {
      if v.OptSome? || v.NewtypeVariant? {
        error := SerializeWrapped(v);
      } else if v.Seq? || v.Map? || v.TupleVariant? {
        error := SerializeCollection(v);
      } else if v.Struct? {
        error := SerializeStruct(v.name, v.fields);
      } else if v.StructVariant? {
        error := SerializeStructVariant(v.enumName, v.index, v.fields);
      } else {
        error := SerializeLeaf(v);
      }
    }

    /** `serialize_some` and `serialize_newtype_variant`: a prefix, then the inner value. */
    method SerializeWrapped(v: Value) returns (error: Option<BinaryError>)
      requires v.OptSome? || v.NewtypeVariant?
      modifies this
      ensures output == old(output) + Emit(v, bigEndian, ext).bytes
      ensures error == Emit(v, bigEndian, ext).error
      decreases v, 1
    {
      if v.OptSome? {
        SerializeNum(U8, SOME);
      } else {
        SerializeNum(U32, v.index);
      }
      error := Serialize(v.inner);
    }

    /** `serialize_seq`, `serialize_map` and `serialize_tuple_variant`: a header, then the items. */
    method SerializeCollection(v: Value) returns (error: Option<BinaryError>)
      requires v.Seq? || v.Map? || v.TupleVariant?
      modifies this
      ensures output == old(output) + Emit(v, bigEndian, ext).bytes
      ensures error == Emit(v, bigEndian, ext).error
      decreases v, 1
    {
      match v {
        case Seq(es) =>
          ghost var before := output;
          SerializeSeqHeader(|es|);
          error := SerializeElements(es);
          AppendAssoc(before, ext.compress(|es|), EmitAll(es, bigEndian, ext).bytes);
        case Map(entries) =>
          ghost var before := output;
          SerializeSeqHeader(|entries|);
          error := SerializeEntries(entries);
          AppendAssoc(before, ext.compress(|entries|), EmitEntries(entries, bigEndian, ext).bytes);
        case TupleVariant(_, idx, es) =>
          ghost var before := output;
          SerializeTupleVariantHeader(idx, |es|);
          error := SerializeElements(es);
          AppendAssoc(before, U32Bytes(idx, bigEndian) + ext.compress(|es|), EmitAll(es, bigEndian, ext).bytes);
      }
    }

    /** `serialize_struct`: the header, then the fields in order. */
    method SerializeStruct(name: string, fs: seq<Value>) returns (error: Option<BinaryError>)
      modifies this
      ensures output == old(output) + Emit(Struct(name, fs), bigEndian, ext).bytes
      ensures error == Emit(Struct(name, fs), bigEndian, ext).error
      decreases Struct(name, fs), 1
    {
      ghost var before := output;
      SerializeStructHeader(name, |fs|);
      error := SerializeElements(fs);
      AppendAssoc(before, StructHeader(name, |fs|, ext), EmitAll(fs, bigEndian, ext).bytes);
    }

    /** `serialize_struct_variant`: the header, then the fields in order. */
    method SerializeStructVariant(name: string, idx: nat, fs: seq<Value>) returns (error: Option<BinaryError>)
      modifies this
      ensures output == old(output) + Emit(StructVariant(name, idx, fs), bigEndian, ext).bytes
      ensures error == Emit(StructVariant(name, idx, fs), bigEndian, ext).error
      decreases StructVariant(name, idx, fs), 1
    {
      ghost var before := output;
      SerializeStructVariantHeader(name, idx, |fs|);
      error := SerializeElements(fs);
      AppendAssoc(before, StructVariantHeader(name, idx, |fs|, bigEndian, ext), EmitAll(fs, bigEndian, ext).bytes);
    }

    /** `serialize_element`/`serialize_field` for each element, stopping at the first error. */
    method SerializeElements(vs: seq<Value>) returns (error: Option<BinaryError>)
      modifies this
      ensures output == old(output) + EmitAll(vs, bigEndian, ext).bytes
      ensures error == EmitAll(vs, bigEndian, ext).error
      decreases vs, 1
    {
      if vs == [] {
        return None;
      }
      error := Serialize(vs[0]);
      if error.None? {
        error := SerializeElements(vs[1..]);
      }
    }

    /** `serialize_key`/`serialize_value` for each entry, stopping at the first error. */
    method SerializeEntries(entries: seq<Entry>) returns (error: Option<BinaryError>)
      modifies this
      ensures output == old(output) + EmitEntries(entries, bigEndian, ext).bytes
      ensures error == EmitEntries(entries, bigEndian, ext).error
      decreases entries, 1
    {
      if entries == [] {
        return None;
      }
      error := SerializeEntry(entries[0]);
      if error.None? {
        error := SerializeEntries(entries[1..]);
      }
    }

    /** `serialize_entry`: the key, then the value unless the key failed. */
    method SerializeEntry(e: Entry) returns (error: Option<BinaryError>)
      modifies this
      ensures output == old(output) + EmitEntry(e, bigEndian, ext).bytes
      ensures error == EmitEntry(e, bigEndian, ext).error
      decreases e, 0
    {
      error := Serialize(e.key);
      if error.None? {
        error := Serialize(e.val);
      }
    }
  }

  /** `Serializer::to_bytes`: a fresh serializer, the value, then the buffer or the error. */
  method ToBytesOf(v: Value, bigEndian: bool, ext: Externals) returns (r: Result<seq<u8>>)
    ensures r == Encode(v, bigEndian, ext)
  {
    var s := new Serializer(bigEndian, ext);
    var error := s.Serialize(v);
    if error.Some? {
      return Err(error.value);
    }
    assert s.output == Emit(v, bigEndian, ext).bytes;
    return Ok(s.output);
  }
}
