/**
 * The stream serializer: `Serializer` writes the encoding of a value to a
 * `Write` sink, here a growable byte sequence that only ever grows at its end.
 *
 * The stream format differs from the in-memory one: every integer width is
 * written (128 bits included), a struct is only its field count and fields,
 * and every enum variant starts with a flag and its index as a `u32`. The
 * serializer never returns an error; `serialize_bytes` is `unimplemented!()`,
 * so a value holding a byte buffer is outside what it accepts (`NoByteBuf`).
 */
module StreamSer {
  import opened Bytes
  import opened Common
  import opened DataModel
  import Utf8
  import Ser
  import Options

  /** No element holds a byte buffer. */
  predicate Writable(vs: seq<Value>)
  {
    forall i :: 0 <= i < |vs| ==> NoByteBuf(vs[i])
  }

  /** No key and no value holds a byte buffer. */
  predicate WritableEntries(es: seq<Entry>)
  {
    forall i :: 0 <= i < |es| ==> NoByteBuf(es[i].key) && NoByteBuf(es[i].val)
  }

  /** What `value.serialize(&mut serializer)` writes to the sink. */
  function Emit(v: Value, bigEndian: bool, ext: Externals): seq<u8>
    requires NoByteBuf(v)
    decreases v, 2
  {
    match v
    case Bool(b) => [if b then 1 else 0]
    case Int(t, i) => ToBytes(t, i, bigEndian)
    case Char(c) => Utf8.EncodeChar(c)
    case Str(s) => Ser.StrBytes(s, ext)
    case ByteBuf(_) => assert false; []
    case OptNone => [NONE]
    case OptSome(x) => [SOME] + Emit(x, bigEndian, ext)
    case Unit => []
    case Seq(es) => ext.compress(|es|) + EmitAll(es, bigEndian, ext)
    case Map(entries) => ext.compress(|entries|) + EmitEntries(entries, bigEndian, ext)
    case Struct(_, fs) => ext.compress(|fs|) + EmitAll(fs, bigEndian, ext)
    case UnitVariant(_, idx) => [UNIT_VARIANT] + Ser.U32Bytes(idx, bigEndian)
    case NewtypeVariant(_, idx, x) => [ext.nonunitVariant] + Ser.U32Bytes(idx, bigEndian) + Emit(x, bigEndian, ext)
    case TupleVariant(_, idx, es) =>
      [ext.nonunitVariant] + Ser.U32Bytes(idx, bigEndian) + ext.compress(|es|) + EmitAll(es, bigEndian, ext)
    case StructVariant(_, idx, fs) =>
      [STRUCT_VARIANT] + Ser.U32Bytes(idx, bigEndian) + ext.compress(|fs|) + EmitAll(fs, bigEndian, ext)
  }

  /** The elements one after the other. */
  function EmitAll(vs: seq<Value>, bigEndian: bool, ext: Externals): seq<u8>
    requires Writable(vs)
    decreases vs, 1
  {
    if vs == [] then [] else Emit(vs[0], bigEndian, ext) + EmitAll(vs[1..], bigEndian, ext)
  }

  /** Each key followed by its value. */
  function EmitEntries(entries: seq<Entry>, bigEndian: bool, ext: Externals): seq<u8>
    requires WritableEntries(entries)
    decreases entries, 1
  {
    if entries == [] then [] else EmitEntry(entries[0], bigEndian, ext) + EmitEntries(entries[1..], bigEndian, ext)
  }

  /** The key, then the value. */
  function EmitEntry(e: Entry, bigEndian: bool, ext: Externals): seq<u8>
    requires NoByteBuf(e.key) && NoByteBuf(e.val)
    decreases e, 0
  {
    Emit(e.key, bigEndian, ext) + Emit(e.val, bigEndian, ext)
  }

  /** The first element and the rest, as `EmitAll` writes them. */
  lemma ElementsSplit(vs: seq<Value>, bigEndian: bool, ext: Externals)
    requires vs != [] && Writable(vs)
    ensures NoByteBuf(vs[0]) && Writable(vs[1..])
    ensures EmitAll(vs, bigEndian, ext) == Emit(vs[0], bigEndian, ext) + EmitAll(vs[1..], bigEndian, ext)
  {
  }

  /** The first entry and the rest, as `EmitEntries` writes them. */
  lemma EntriesSplit(entries: seq<Entry>, bigEndian: bool, ext: Externals)
    requires entries != [] && WritableEntries(entries)
    ensures NoByteBuf(entries[0].key) && NoByteBuf(entries[0].val) && WritableEntries(entries[1..])
    ensures EmitEntries(entries, bigEndian, ext)
            == EmitEntry(entries[0], bigEndian, ext) + EmitEntries(entries[1..], bigEndian, ext)
  {
  }

  /**
   * Values both serializers write alike: at no depth a struct, a variant
   * carrying data, a 128-bit integer or a byte buffer.
   */
  predicate Plain(v: Value)
    decreases v
  {
    match v
    case Int(t, _) => t != U128 && t != I128
    case ByteBuf(_) => false
    case OptSome(x) => Plain(x)
    case Seq(es) => forall i :: 0 <= i < |es| ==> Plain(es[i])
    case Map(entries) => forall i :: 0 <= i < |entries| ==> Plain(entries[i].key) && Plain(entries[i].val)
    case Struct(_, _) => false
    case NewtypeVariant(_, _, _) => false
    case TupleVariant(_, _, _) => false
    case StructVariant(_, _, _) => false
    case _ => true
  }

  /**
   * On a plain value the stream serializer writes exactly the bytes of the
   * in-memory one, which succeeds: the formats part only at structs, data
   * variants and 128-bit integers.
   */
  lemma {:induction false} FormatsAgree(v: Value, bigEndian: bool, ext: Externals)
    requires Plain(v)
    ensures NoByteBuf(v)
    ensures Ser.Emit(v, bigEndian, ext) == Ser.Emitted(Emit(v, bigEndian, ext), Options.None)
    decreases v, 2
  {
    match v
    case OptSome(x) => FormatsAgree(x, bigEndian, ext);
    case Seq(es) => FormatsAgreeAll(es, bigEndian, ext);
    case Map(entries) => FormatsAgreeEntries(entries, bigEndian, ext);
    case _ =>
  }

  lemma {:induction false} FormatsAgreeAll(vs: seq<Value>, bigEndian: bool, ext: Externals)
    requires forall i :: 0 <= i < |vs| ==> Plain(vs[i])
    ensures Writable(vs)
    ensures Ser.EmitAll(vs, bigEndian, ext) == Ser.Emitted(EmitAll(vs, bigEndian, ext), Options.None)
    decreases vs, 1
  {
    if vs != [] {
      FormatsAgree(vs[0], bigEndian, ext);
      FormatsAgreeAll(vs[1..], bigEndian, ext);
      assert forall i :: 1 <= i < |vs| ==> vs[i] == vs[1..][i - 1];
    }
  }

  lemma {:induction false} FormatsAgreeEntries(entries: seq<Entry>, bigEndian: bool, ext: Externals)
    requires forall i :: 0 <= i < |entries| ==> Plain(entries[i].key) && Plain(entries[i].val)
    ensures WritableEntries(entries)
    ensures Ser.EmitEntries(entries, bigEndian, ext) == Ser.Emitted(EmitEntries(entries, bigEndian, ext), Options.None)
    decreases entries, 1
  {
    if entries != [] {
      var e := entries[0];
      assert e.key < e && e.val < e;
      FormatsAgree(e.key, bigEndian, ext);
      FormatsAgree(e.val, bigEndian, ext);
      FormatsAgreeEntries(entries[1..], bigEndian, ext);
      assert forall i :: 1 <= i < |entries| ==> entries[i] == entries[1..][i - 1];
    }
  }

  /** A serializer writing to a sink; the sink only ever grows at its end. */
  class Serializer {
    var output: seq<u8>
    const bigEndian: bool
    const ext: Externals

    /** `Serializer::new` over a sink that already holds `output`. */
    constructor (output: seq<u8>, bigEndian: bool, ext: Externals)
      ensures this.output == output && this.bigEndian == bigEndian && this.ext == ext
    {
      this.output := output;
      this.bigEndian := bigEndian;
      this.ext := ext;
    }

    /** `write`: the whole buffer goes to the sink. */
    method Write(data: seq<u8>)
      modifies this
      ensures output == old(output) + data
    {
      output := output + data;
    }

    /** `serialize_num`: the `Width()` bytes of the integer, in the chosen order. */
    method SerializeNum(t: IntType, i: int)
      modifies this
      ensures output == old(output) + ToBytes(t, i, bigEndian)
    {
      Write(ToBytes(t, i, bigEndian));
    }

    /** `serialize_vec` over bytes: each byte through `serialize_num`, in order. */
    method SerializeVec(items: seq<u8>)
      modifies this
      ensures output == old(output) + items
    {
      for k := 0 to |items|
        invariant output == old(output) + items[..k]
      {
        SerializeNum(U8, items[k]);
        assert ToBytes(U8, items[k], bigEndian) == [items[k]];
        assert items[..k + 1] == items[..k] + [items[k]];
      }
      assert items[..|items|] == items;
    }

    /** `serialize_usize`: the header `compress_usize` makes for the count. */
    method SerializeUsize(n: nat)
      modifies this
      ensures output == old(output) + ext.compress(n)
    {
      SerializeVec(ext.compress(n));
    }

    /** `serialize_str`: the byte length through `serialize_usize`, then the UTF-8 bytes. */
    method SerializeStr(s: string)
      modifies this
      ensures output == old(output) + Ser.StrBytes(s, ext)
    {
      var bytes := Utf8.EncodeString(s);
      SerializeUsize(|bytes|);
      SerializeVec(bytes);
    }

    /** `serialize_unit_variant`, and the start of a data variant: the flag, then the index as a `u32`. */
    method SerializeVariantTag(flag: u8, idx: nat)
      modifies this
      ensures output == old(output) + [flag] + Ser.U32Bytes(idx, bigEndian)
    {
      SerializeNum(U8, flag);
      SerializeNum(U32, idx);
    }

    /** `value.serialize(self)`: appends `Emit(v)`. */
    method Serialize(v: Value)
      requires NoByteBuf(v)
      modifies this
      ensures output == old(output) + Emit(v, bigEndian, ext)
      decreases v, 2
    {
      if v.OptSome? || v.NewtypeVariant? {
        SerializeWrapped(v);
      } else if v.Seq? || v.Map? || v.Struct? {
        SerializeCollection(v);
      } else if v.TupleVariant? || v.StructVariant? {
        SerializeDataVariant(v);
      } else {
        SerializeLeaf(v);
      }
    }

    /** `value.serialize(self)` for a value with no value inside it. */
    method SerializeLeaf(v: Value)
      requires v.Bool? || v.Int? || v.Char? || v.Str? || v.OptNone? || v.Unit? || v.UnitVariant?
      modifies this
      ensures output == old(output) + Emit(v, bigEndian, ext)
    {
      match v {
        case Bool(b) => SerializeNum(U8, if b then 1 else 0);
        case Int(t, i) => SerializeNum(t, i);
        case Char(c) => SerializeVec(Utf8.EncodeChar(c));
        case Str(s) => SerializeStr(s);
        case OptNone => SerializeNum(U8, NONE);
        case Unit =>
        case UnitVariant(_, idx) => SerializeVariantTag(UNIT_VARIANT, idx);
      }
    }

    /** `serialize_some` and `serialize_newtype_variant`: a prefix, then the inner value. */
    method SerializeWrapped(v: Value)
      requires (v.OptSome? || v.NewtypeVariant?) && NoByteBuf(v)
      modifies this
      ensures output == old(output) + Emit(v, bigEndian, ext)
      decreases v, 1
    {
      if v.OptSome? {
        assert Emit(v, bigEndian, ext) == [SOME] + Emit(v.inner, bigEndian, ext);
        SerializeSome(v.inner);
      } else {
        assert Emit(v, bigEndian, ext)
            == [ext.nonunitVariant] + Ser.U32Bytes(v.index, bigEndian) + Emit(v.inner, bigEndian, ext);
        SerializeNewtypeVariant(v.index, v.inner);
      }
    }

    /** `serialize_some`: the `SOME` flag, then the value. */
    method SerializeSome(x: Value)
      requires NoByteBuf(x)
      modifies this
      ensures output == old(output) + [SOME] + Emit(x, bigEndian, ext)
      decreases x, 3
    {
      SerializeNum(U8, SOME);
      Serialize(x);
    }

    /** `serialize_newtype_variant`: `NONUNIT_VARIANT`, the index as a `u32`, then the value. */
    method SerializeNewtypeVariant(idx: nat, x: Value)
      requires NoByteBuf(x)
      modifies this
      ensures output == old(output) + [ext.nonunitVariant] + Ser.U32Bytes(idx, bigEndian) + Emit(x, bigEndian, ext)
      decreases x, 3
    {
      SerializeVariantTag(ext.nonunitVariant, idx);
      Serialize(x);
    }

    /** `serialize_seq`, `serialize_tuple`, `serialize_map` and `serialize_struct`: a count, then the items. */
    method SerializeCollection(v: Value)
      requires (v.Seq? || v.Map? || v.Struct?) && NoByteBuf(v)
      modifies this
      ensures output == old(output) + Emit(v, bigEndian, ext)
      decreases v, 1
    {
      match v {
        case Seq(es) =>
          ghost var before := output;
          SerializeUsize(|es|);
          SerializeElements(es);
          AppendAssoc(before, ext.compress(|es|), EmitAll(es, bigEndian, ext));
        case Map(entries) =>
          ghost var before := output;
          SerializeVec(ext.compress(|entries|));
          SerializeEntries(entries);
          AppendAssoc(before, ext.compress(|entries|), EmitEntries(entries, bigEndian, ext));
        case Struct(_, fs) =>
          ghost var before := output;
          SerializeUsize(|fs|);
          SerializeElements(fs);
          AppendAssoc(before, ext.compress(|fs|), EmitAll(fs, bigEndian, ext));
      }
    }

    /** `serialize_tuple_variant` and `serialize_struct_variant`: flag, index, count, then the fields. */
    method SerializeDataVariant(v: Value)
      requires (v.TupleVariant? || v.StructVariant?) && NoByteBuf(v)
      modifies this
      ensures output == old(output) + Emit(v, bigEndian, ext)
      decreases v, 1
    {
      if v.TupleVariant? {
        SerializeVariantFields(ext.nonunitVariant, v.index, v.elems);
      } else {
        SerializeVariantFields(STRUCT_VARIANT, v.index, v.fields);
      }
    }

    /** The flag, the index, the count, then the fields of a tuple or struct variant. */
    method SerializeVariantFields(flag: u8, idx: nat, items: seq<Value>)
      requires Writable(items)
      modifies this
      ensures output == old(output) + [flag] + Ser.U32Bytes(idx, bigEndian) + ext.compress(|items|)
                        + EmitAll(items, bigEndian, ext)
      decreases items, 2
    {
      SerializeVariantTag(flag, idx);
      SerializeUsize(|items|);
      SerializeElements(items);
    }

    /** `serialize_element`/`serialize_field` for each element in order. */
    method SerializeElements(vs: seq<Value>)
      requires Writable(vs)
      modifies this
      ensures output == old(output) + EmitAll(vs, bigEndian, ext)
      decreases vs, 1
    {
      if vs != [] {
        ElementsSplit(vs, bigEndian, ext);
        ghost var before := output;
        Serialize(vs[0]);
        SerializeElements(vs[1..]);
        AppendAssoc(before, Emit(vs[0], bigEndian, ext), EmitAll(vs[1..], bigEndian, ext));
      }
    }

    /** `serialize_key` and `serialize_value` for each entry in order. */
    method SerializeEntries(entries: seq<Entry>)
      requires WritableEntries(entries)
      modifies this
      ensures output == old(output) + EmitEntries(entries, bigEndian, ext)
      decreases entries, 1
    {
      if entries != [] {
        EntriesSplit(entries, bigEndian, ext);
        ghost var before := output;
        SerializeEntry(entries[0]);
        SerializeEntries(entries[1..]);
        AppendAssoc(before, EmitEntry(entries[0], bigEndian, ext), EmitEntries(entries[1..], bigEndian, ext));
      }
    }

    /** `serialize_key`, then `serialize_value`. */
    method SerializeEntry(e: Entry)
      requires NoByteBuf(e.key) && NoByteBuf(e.val)
      modifies this
      ensures output == old(output) + EmitEntry(e, bigEndian, ext)
      decreases e, 0
    {
      Serialize(e.key);
      Serialize(e.val);
    }
  }

  /** `Serializer::write_bytes`: the value's encoding is appended to what the sink already holds. */
  method WriteBytes(sink: seq<u8>, v: Value, bigEndian: bool, ext: Externals) returns (r: seq<u8>)
    requires NoByteBuf(v)
    ensures r == sink + Emit(v, bigEndian, ext)
  {
    var s := new Serializer(sink, bigEndian, ext);
    s.Serialize(v);
    r := s.output;
  }
}
