/**
 * The values the serializers accept and the target types the deserializers
 * are driven by.
 *
 * In the source, serde's derive macros turn a Rust value into calls such as
 * `serialize_struct` / `serialize_field`, and a Rust type into a visitor that
 * calls `deserialize_struct` and reads fields back. Here a `Value` stands for
 * the first and a `Shape` for the second; `Fits(v, s)` says that `v` is a
 * value of the Rust type described by `s`.
 *
 * A newtype struct serializes and deserializes as its inner value, and a unit
 * struct as `Unit`, so neither needs a case of its own. Tuples, arrays and
 * tuple structs are sequences whose shape fixes their length.
 */
module DataModel {
  import opened Bytes
  import opened Common
  import Utf8

  datatype Value =
    | Bool(b: bool)
    | Int(t: IntType, i: int)
    | Char(c: char)
    | Str(s: string)
    | ByteBuf(bytes: seq<u8>)
    | OptNone
    | OptSome(inner: Value)
    | Unit
    | Seq(elems: seq<Value>)
    | Map(entries: seq<Entry>)
    | Struct(name: string, fields: seq<Value>)
    | UnitVariant(enumName: string, index: nat)
    | NewtypeVariant(enumName: string, index: nat, inner: Value)
    | TupleVariant(enumName: string, index: nat, elems: seq<Value>)
    | StructVariant(enumName: string, index: nat, fields: seq<Value>)

  datatype Entry = Entry(key: Value, val: Value)

  /**
   * A Rust type as the deserializer sees it. `expecting` is the text the
   * derived visitor uses in an "invalid length" message (for instance
   * "struct Test with 2 elements"). A struct or struct variant lists its
   * field names and, in the same order, the fields' types.
   */
  datatype Shape =
    | BoolS
    | IntS(t: IntType)
    | CharS
    | StrS
    | BytesS
    | OptS(inner: Shape)
    | UnitS
    | SeqS(elem: Shape)
    | TupleS(expecting: string, elems: seq<Shape>)
    | MapS(key: Shape, val: Shape)
    | StructS(name: string, expecting: string, fieldNames: seq<string>, fields: seq<Shape>)
    | EnumS(name: string, variants: seq<Variant>)

  /** A variant of a Rust enum, in declaration order. */
  datatype Variant =
    | UnitV(name: string)
    | NewtypeV(name: string, inner: Shape)
    | TupleV(name: string, expecting: string, elems: seq<Shape>)
    | StructV(name: string, expecting: string, fieldNames: seq<string>, fields: seq<Shape>)

  /** A count the length codec can carry: a `usize`. */
  predicate IsUsize(n: nat)
  {
    n < USIZE_LIMIT
  }

  /** `v` is a value of the Rust type `s`. */
  predicate Fits(v: Value, s: Shape)
    decreases v
  {
    match v
    case Bool(_) => s.BoolS?
    case Int(t, i) => s == IntS(t) && t.Contains(i)
    case Char(_) => s.CharS?
    case Str(str) => s.StrS? && IsUsize(|Utf8.EncodeString(str)|)
    case ByteBuf(bs) => s.BytesS? && IsUsize(|bs|)
    case OptNone => s.OptS?
    case OptSome(x) => s.OptS? && Fits(x, s.inner)
    case Unit => s.UnitS?
    case Seq(es) =>
      IsUsize(|es|) &&
      (|| (s.SeqS? && forall i :: 0 <= i < |es| ==> Fits(es[i], s.elem))
       || (s.TupleS? && FitsAll(es, s.elems)))
    case Map(entries) =>
      s.MapS? && IsUsize(|entries|) &&
      forall i :: 0 <= i < |entries| ==> Fits(entries[i].key, s.key) && Fits(entries[i].val, s.val)
    case Struct(name, fs) =>
      s.StructS? && s.name == name && IsUsize(|Utf8.EncodeString(name)|)
      && FitsAll(fs, s.fields)
    case UnitVariant(name, idx) =>
      s.EnumS? && s.name == name && idx < |s.variants| && idx < U32_LIMIT
      && s.variants[idx].UnitV?
    case NewtypeVariant(name, idx, x) =>
      s.EnumS? && s.name == name && idx < |s.variants| && idx < U32_LIMIT
      && s.variants[idx].NewtypeV? && Fits(x, s.variants[idx].inner)
    case TupleVariant(name, idx, es) =>
      s.EnumS? && s.name == name && idx < |s.variants| && idx < U32_LIMIT
      && s.variants[idx].TupleV? && FitsAll(es, s.variants[idx].elems)
    case StructVariant(name, idx, fs) =>
      s.EnumS? && s.name == name && idx < |s.variants| && idx < U32_LIMIT
      && IsUsize(|Utf8.EncodeString(name)|)
      && s.variants[idx].StructV? && FitsAll(fs, s.variants[idx].fields)
  }

  /** Element `i` of `vs` fits shape `i` of `ss`, and there are as many of each. */
  predicate FitsAll(vs: seq<Value>, ss: seq<Shape>)
    decreases vs
  {
    |vs| == |ss| && IsUsize(|vs|) && forall i :: 0 <= i < |vs| ==> Fits(vs[i], ss[i])
  }

  /** The value is one of the enum's non-unit variants. */
  predicate IsDataVariant(v: Value)
  {
    v.NewtypeVariant? || v.TupleVariant? || v.StructVariant?
  }

  /** Neither the value nor any value inside it satisfies `IsDataVariant`. */
  predicate NoDataVariant(v: Value)
    decreases v
  {
    match v
    case OptSome(x) => NoDataVariant(x)
    case Seq(es) => forall i :: 0 <= i < |es| ==> NoDataVariant(es[i])
    case Map(entries) =>
      forall i :: 0 <= i < |entries| ==> NoDataVariant(entries[i].key) && NoDataVariant(entries[i].val)
    case Struct(_, fs) => forall i :: 0 <= i < |fs| ==> NoDataVariant(fs[i])
    case NewtypeVariant(_, _, _) => false
    case TupleVariant(_, _, _) => false
    case StructVariant(_, _, _) => false
    case _ => true
  }

  /** Neither the value nor any value inside it is a 128-bit integer. */
  predicate No128(v: Value)
    decreases v
  {
    match v
    case Int(t, _) => t != U128 && t != I128
    case OptSome(x) => No128(x)
    case Seq(es) => forall i :: 0 <= i < |es| ==> No128(es[i])
    case Map(entries) => forall i :: 0 <= i < |entries| ==> No128(entries[i].key) && No128(entries[i].val)
    case Struct(_, fs) => forall i :: 0 <= i < |fs| ==> No128(fs[i])
    case NewtypeVariant(_, _, x) => No128(x)
    case TupleVariant(_, _, es) => forall i :: 0 <= i < |es| ==> No128(es[i])
    case StructVariant(_, _, fs) => forall i :: 0 <= i < |fs| ==> No128(fs[i])
    case _ => true
  }

  /** Neither the value nor any value inside it is a byte buffer. */
  predicate NoByteBuf(v: Value)
    decreases v
  {
    match v
    case ByteBuf(_) => false
    case OptSome(x) => NoByteBuf(x)
    case Seq(es) => forall i :: 0 <= i < |es| ==> NoByteBuf(es[i])
    case Map(entries) => forall i :: 0 <= i < |entries| ==> NoByteBuf(entries[i].key) && NoByteBuf(entries[i].val)
    case Struct(_, fs) => forall i :: 0 <= i < |fs| ==> NoByteBuf(fs[i])
    case NewtypeVariant(_, _, x) => NoByteBuf(x)
    case TupleVariant(_, _, es) => forall i :: 0 <= i < |es| ==> NoByteBuf(es[i])
    case StructVariant(_, _, fs) => forall i :: 0 <= i < |fs| ==> NoByteBuf(fs[i])
    case _ => true
  }

  /**
   * Every character in the value is below U+0800, so its UTF-8 form is one or
   * two bytes: the characters the stream reader as written reads back.
   */
  predicate NarrowChars(v: Value)
    decreases v
  {
    match v
    case Char(c) => c as int < 0x800
    case OptSome(x) => NarrowChars(x)
    case Seq(es) => forall i :: 0 <= i < |es| ==> NarrowChars(es[i])
    case Map(entries) => forall i :: 0 <= i < |entries| ==> NarrowChars(entries[i].key) && NarrowChars(entries[i].val)
    case Struct(_, fs) => forall i :: 0 <= i < |fs| ==> NarrowChars(fs[i])
    case NewtypeVariant(_, _, x) => NarrowChars(x)
    case TupleVariant(_, _, es) => forall i :: 0 <= i < |es| ==> NarrowChars(es[i])
    case StructVariant(_, _, fs) => forall i :: 0 <= i < |fs| ==> NarrowChars(fs[i])
    case _ => true
  }
}
