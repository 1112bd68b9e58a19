/**
 * The in-memory `Deserializer` and its `BinarySeries`: the state the Rust
 * code mutates, and the steps that consume it. Each method is proved to do
 * to `data` what the function of the same name in `De` says.
 */
module DeState {
  import opened Bytes
  import opened Options
  import opened BinaryErrors
  import opened Common
  import opened DataModel
  import Utf8
  import De

  /** A deserializer over an owned copy of the input bytes. */
  class Deserializer {
    var data: seq<u8>
    const bigEndian: bool
    const ext: Externals

    /** `Deserializer::new`: a copy of the input. */
    constructor (input: seq<u8>, bigEndian: bool, ext: Externals)
      ensures data == input && this.bigEndian == bigEndian && this.ext == ext
    {
      data := input;
      this.bigEndian := bigEndian;
      this.ext := ext;
    }

    /** `peek`: looks at the first byte without consuming it. */
    method Peek() returns (r: Result<u8>)
      ensures r == De.Peek(data)
    {
      if |data| == 0 {
        return Err(UnexpectedEndOfInput);
      }
      return Ok(data[0]);
    }

    /** `next`: removes and returns the first byte. */
    method Next() returns (r: Result<u8>)
      modifies this
      ensures Outcome(r, data) == De.Next(old(data))
    {
      if |data| == 0 {
        return Err(UnexpectedEndOfInput);
      }
      r := Ok(data[0]);
      data := data[1..];
    }

    /** `take`: splits off the first `len` bytes when there are that many. */
    method Take(len: nat) returns (r: Result<seq<u8>>)
      modifies this
      ensures Outcome(r, data) == De.Take(old(data), len)
    {
      if |data| < len {
        return Err(UnexpectedEndOfInput);
      }
      var working := data;
      r := Ok(working[..len]);
      data := working[len..];
    }

    /** `next_u32`: four bytes, unwrapped. */
    method NextU32() returns (n: nat)
      requires |data| >= 4
      modifies this
      ensures Parsed(n, data) == De.NextU32(old(data), bigEndian)
    {
      var bytes := Take(4);
      n := FromBytes(U32, bytes.value, bigEndian);
    }

    /** `next_usize`: the header byte by byte, then `decompress_usize`, all unwrapped. */
    method NextUsize() returns (n: nat)
      requires !De.NextUsize(data, ext).Panicked?
      modifies this
      ensures Parsed(n, data) == De.NextUsize(old(data), ext)
    {
      var first := Next();
      var bytes := [first.value];
      if bytes[0] >= 0x80 {
        var second := Next();
        bytes := bytes + [second.value];
        var extra := bytes[1] / 32;
        assert |data| >= extra;
        for i := 0 to extra
          invariant |data| + i == |old(data)| - 2
          invariant bytes == old(data)[..2 + i] && data == old(data)[2 + i..]
        {
          var b := Next();
          bytes := bytes + [b.value];
          assert old(data)[..2 + i + 1] == old(data)[..2 + i] + [old(data)[2 + i]];
        }
        assert bytes == [old(data)[0], old(data)[1]] + old(data)[2..2 + extra];
      }
      var d := ext.decompress(bytes);
      n := d.value;
    }

    /** `take_string`: a length, that many bytes, and the string they encode, all unwrapped. */
    method TakeString() returns (str: string)
      requires !De.TakeString(data, ext).Panicked?
      modifies this
      ensures Parsed(str, data) == De.TakeString(old(data), ext)
    {
      var size := NextUsize();
      var bytes := Take(size);
      str := Utf8.FromUtf8(bytes.value).s;
    }

    /** `T::deserialize(self)` for a `T` of shape `s`. */
    method Deserialize(s: Shape) returns (r: Result<Value>)
      requires !De.Decode(s, data, bigEndian, ext).Panicked?
      modifies this
      ensures Outcome(r, data) == De.Decode(s, old(data), bigEndian, ext)
      decreases s, 5
    {
      match s
      case BoolS =>
        var b := Next();
        r := Ok(Bool(b.value != 0));
      case IntS(t) => r := DeserializeInt(t);
      case CharS => r := DeserializeChar();
      case StrS =>
        var str := TakeString();
        r := Ok(Str(str));
      case BytesS => r := DeserializeBytes();
      case OptS(inner) => r := DeserializeOption(inner);
      case UnitS => r := Ok(Unit);
      case SeqS(_) => r := DeserializeCollection(s);
      case TupleS(_, _) => r := DeserializeCollection(s);
      case MapS(_, _) => r := DeserializeCollection(s);
      case StructS(_, _, _, _) => r := DeserializeStruct(s);
      case EnumS(_, _) => r := DeserializeEnum(s);
    }

    /** `deserialize_<int>` through the `impl_deserialize_num!` bodies, `deserialize_u8`/`deserialize_i8`, and serde's 128-bit defaults. */
    method DeserializeInt(t: IntType) returns (r: Result<Value>)
      requires !De.DecodeInt(t, data, bigEndian).Panicked?
      modifies this
      ensures Outcome(r, data) == De.DecodeInt(t, old(data), bigEndian)
    {
      if t == U128 {
        return Err(Custom("u128 is not supported"));
      } else if t == I128 {
        return Err(Custom("i128 is not supported"));
      } else if t == U8 || t == I8 {
        var b := Next();
        return Ok(Int(t, FromBytes(t, [b.value], bigEndian)));
      }
      var bytes := Take(t.Width());
      r := Ok(Int(t, FromBytes(t, bytes.value, bigEndian)));
    }

    /** `deserialize_char`. */
    method DeserializeChar() returns (r: Result<Value>)
      requires !De.DecodeChar(data).Panicked?
      modifies this
      ensures Outcome(r, data) == De.DecodeChar(old(data))
    {
      var lead := Peek();
      var width := De.CharWidth(lead.value);
      if width == 0 {
        return Err(InvalidBytes);
      }
      var bytes := Take(width);
      var text := Utf8.FromUtf8(bytes.value);
      r := Ok(Char(text.s[0]));
    }

    /** `deserialize_bytes` and `deserialize_byte_buf`. */
    method DeserializeBytes() returns (r: Result<Value>)
      requires !De.DecodeBytes(data, ext).Panicked?
      modifies this
      ensures Outcome(r, data) == De.DecodeBytes(old(data), ext)
    {
      var len := NextUsize();
      var bytes := Take(len);
      r := Ok(ByteBuf(bytes.value));
    }

    /** `deserialize_option`. */
    method DeserializeOption(inner: Shape) returns (r: Result<Value>)
      requires !De.DecodeOption(inner, data, bigEndian, ext).Panicked?
      modifies this
      ensures Outcome(r, data) == De.DecodeOption(inner, old(data), bigEndian, ext)
      decreases OptS(inner), 2
    {
      var flag := Next();
      if flag.value == NONE {
        return Ok(OptNone);
      } else if flag.value == SOME {
        var x := Deserialize(inner);
        r := match x case Ok(v) => Ok(OptSome(v)) case Err(e) => Err(e);
      } else {
        r := Err(MissingOrInvalidFlag(flag.value, SOME));
      }
    }

    /** `deserialize_seq`, `deserialize_tuple` and `deserialize_map`: a count, a `BinarySeries`, the visitor. */
    method DeserializeCollection(s: Shape) returns (r: Result<Value>)
      requires s.SeqS? || s.TupleS? || s.MapS?
      requires !De.DecodeCollection(s, data, bigEndian, ext).Panicked?
      modifies this
      ensures Outcome(r, data) == De.DecodeCollection(s, old(data), bigEndian, ext)
      decreases s, 4
    {
      var len := NextUsize();
      var series := new BinarySeries(this, len);
      match s
      case SeqS(elem) =>
        var xs := VisitVec(series, elem);
        r := match xs case Ok(v) => Ok(Seq(v)) case Err(e) => Err(e);
      case TupleS(expecting, elems) =>
        var xs := VisitFixed(series, elems, expecting);
        r := match xs case Ok(v) => Ok(Seq(v)) case Err(e) => Err(e);
      case MapS(k, v) =>
        var es := VisitEntries(series, k, v);
        r := match es case Ok(v) => Ok(Map(v)) case Err(e) => Err(e);
    }

    /** The `Vec` visitor: `next_element` until the series ends. */
    method VisitVec(series: BinarySeries, elem: Shape) returns (r: Result<seq<Value>>)
      requires series.de == this && series.position == 0
      requires !De.DecodeElems(elem, 0, series.len, data, bigEndian, ext).Panicked?
      modifies this, series
      ensures Outcome(r, data) == De.DecodeElems(elem, 0, series.len, old(data), bigEndian, ext)
      decreases SeqS(elem), 1
    {
      var xs := [];
      var i := 0;
      ghost var target := De.DecodeElems(elem, 0, series.len, data, bigEndian, ext);
      De.PrependNothing(target);
      while true
        invariant series.position == i <= series.len
        invariant De.Prepend(xs, De.DecodeElems(elem, i, series.len, data, bigEndian, ext)) == target
        decreases series.len - i
      {
        ghost var step := De.SeriesStep(i, series.len, elem, data, bigEndian, ext);
        De.ElemsAfterStep(elem, i, series.len, data, bigEndian, ext, xs, step);
        var next := series.NextElement(elem, i);
        if next.Err? {
          return Err(next.error);
        }
        if next.value.None? {
          return Ok(xs);
        }
        xs := xs + [next.value.value];
        i := i + 1;
      }
    }

    /** The visitor of a tuple, tuple struct or struct: one `next_element` per field. */
    method VisitFixed(series: BinarySeries, shapes: seq<Shape>, expecting: string) returns (r: Result<seq<Value>>)
      requires series.de == this && series.position == 0
      requires !De.DecodeFixed(shapes, expecting, 0, series.len, data, bigEndian, ext).Panicked?
      modifies this, series
      ensures Outcome(r, data) == De.DecodeFixed(shapes, expecting, 0, series.len, old(data), bigEndian, ext)
      decreases shapes, 0
    {
      var xs := [];
      ghost var target := De.DecodeFixed(shapes, expecting, 0, series.len, data, bigEndian, ext);
      De.PrependNothing(target);
      for i := 0 to |shapes|
        invariant series.position == i
        invariant De.Prepend(xs, De.DecodeFixed(shapes, expecting, i, series.len, data, bigEndian, ext)) == target
      {
        ghost var step := De.SeriesStep(i, series.len, shapes[i], data, bigEndian, ext);
        De.FixedAfterStep(shapes, expecting, i, series.len, data, bigEndian, ext, xs, step);
        assert shapes[i] in shapes;
        var next := series.NextElement(shapes[i], i);
        if next.Err? {
          return Err(next.error);
        }
        if next.value.None? {
          return Err(Custom(De.InvalidLengthMessage(i, expecting)));
        }
        xs := xs + [next.value.value];
      }
      assert xs + [] == xs;
      r := Ok(xs);
    }

    /** The map visitor: `next_entry` until the series ends. */
    method VisitEntries(series: BinarySeries, k: Shape, v: Shape) returns (r: Result<seq<Entry>>)
      requires series.de == this && series.position == 0
      requires !De.DecodeEntries(k, v, 0, series.len, data, bigEndian, ext).Panicked?
      modifies this, series
      ensures Outcome(r, data) == De.DecodeEntries(k, v, 0, series.len, old(data), bigEndian, ext)
      decreases MapS(k, v), 3
    {
      var es := [];
      var i := 0;
      ghost var target := De.DecodeEntries(k, v, 0, series.len, data, bigEndian, ext);
      De.PrependNothing(target);
      while true
        invariant series.position == i <= series.len
        invariant De.Prepend(es, De.DecodeEntries(k, v, i, series.len, data, bigEndian, ext)) == target
        decreases series.len - i
      {
        var next := EntryRound(series, k, v, es, i);
        if next.Err? {
          return Err(next.error);
        }
        if next.value.None? {
          return Ok(es);
        }
        es := es + [next.value.value];
        i := i + 1;
      }
    }

    /** One `next_entry` of the map visitor, and where it leaves the entries read so far. */
    method EntryRound(series: BinarySeries, k: Shape, v: Shape, es: seq<Entry>, ghost i: nat)
      returns (next: Result<Option<Entry>>)
      requires series.de == this && series.position == i
      requires !De.DecodeEntries(k, v, i, series.len, data, bigEndian, ext).Panicked?
      modifies this, series
      ensures series.position == i + 1
      ensures next.Err? ==>
        De.Prepend(es, De.DecodeEntries(k, v, i, series.len, old(data), bigEndian, ext)) == Failed(next.error, data)
      ensures next == Ok(None) ==>
        De.Prepend(es, De.DecodeEntries(k, v, i, series.len, old(data), bigEndian, ext)) == Parsed(es, data)
      ensures next.Ok? && next.value.Some? ==>
        i < series.len &&
        De.Prepend(es, De.DecodeEntries(k, v, i, series.len, old(data), bigEndian, ext))
        == De.Prepend(es + [next.value.value], De.DecodeEntries(k, v, i + 1, series.len, data, bigEndian, ext))
      decreases MapS(k, v), 2
    {
      ghost var before := data;
      next := series.NextEntry(k, v, i);
      De.EntriesAfterStep(k, v, i, series.len, before, bigEndian, ext, es, next, data);
    }

    /** `deserialize_struct`: the flag, the name, then a count and the fields. */
    method DeserializeStruct(s: Shape) returns (r: Result<Value>)
      requires s.StructS?
      requires !De.DecodeStruct(s, data, bigEndian, ext).Panicked?
      modifies this
      ensures Outcome(r, data) == De.DecodeStruct(s, old(data), bigEndian, ext)
      decreases s, 2
    {
      var flag := Next();
      if flag.value != STRUCT {
        return Err(MissingOrInvalidFlag(flag.value, STRUCT));
      }
      var name := TakeString();
      if name != s.name {
        return Err(InvalidName(name, s.name));
      }
      var xs := DeserializeSeqOf(s.fields, s.expecting);
      r := match xs case Ok(v) => Ok(Struct(s.name, v)) case Err(e) => Err(e);
    }

    /** A count and a `BinarySeries` over it, visited by a struct, tuple struct or tuple variant visitor. */
    method DeserializeSeqOf(shapes: seq<Shape>, expecting: string) returns (r: Result<seq<Value>>)
      requires !De.DecodeSeqOf(shapes, expecting, data, bigEndian, ext).Panicked?
      modifies this
      ensures Outcome(r, data) == De.DecodeSeqOf(shapes, expecting, old(data), bigEndian, ext)
      decreases shapes, 1
    {
      var len := NextUsize();
      var series := new BinarySeries(this, len);
      r := VisitFixed(series, shapes, expecting);
    }

    /** `deserialize_enum`: a unit variant by index, or any variant by name through the `Enum` access. */
    method DeserializeEnum(s: Shape) returns (r: Result<Value>)
      requires s.EnumS?
      requires !De.DecodeEnum(s, data, bigEndian, ext).Panicked?
      modifies this
      ensures Outcome(r, data) == De.DecodeEnum(s, old(data), bigEndian, ext)
      decreases s, 2
    {
      var tag := Next();
      if tag.value == UNIT_VARIANT {
        var idx := NextU32();
        match s.variants[idx]
        case UnitV(_) => r := Ok(UnitVariant(s.name, idx));
        case NewtypeV(_, _) => r := Err(Custom(De.UnitVariantMismatch("newtype variant")));
        case TupleV(_, _, _) => r := Err(Custom(De.UnitVariantMismatch("tuple variant")));
        case StructV(_, _, _, _) => r := Err(Custom(De.UnitVariantMismatch("struct variant")));
      } else {
        var name := TakeString();
        var idx := De.VariantIndex(s.variants, name).value;
        r := DeserializeVariant(s, idx);
      }
    }

    /** `unit_variant`, `newtype_variant_seed`, `tuple_variant` and `struct_variant` of the `Enum` access. */
    method DeserializeVariant(s: Shape, idx: nat) returns (r: Result<Value>)
      requires s.EnumS? && idx < |s.variants|
      requires !De.DecodeVariant(s, idx, data, bigEndian, ext).Panicked?
      modifies this
      ensures Outcome(r, data) == De.DecodeVariant(s, idx, old(data), bigEndian, ext)
      decreases s, 1
    {
      var variant := s.variants[idx];
      assert variant in s.variants;
      match variant
      case UnitV(_) => r := Err(UnexpectedType);
      case NewtypeV(_, inner) =>
        var x := Deserialize(inner);
        r := match x case Ok(v) => Ok(NewtypeVariant(s.name, idx, v)) case Err(e) => Err(e);
      case TupleV(_, expecting, elems) =>
        var xs := DeserializeSeqOf(elems, expecting);
        r := match xs case Ok(v) => Ok(TupleVariant(s.name, idx, v)) case Err(e) => Err(e);
      case StructV(_, _, names, fields) =>
        var xs := DeserializeStructFields(names, fields);
        r := match xs case Ok(v) => Ok(StructVariant(s.name, idx, v)) case Err(e) => Err(e);
    }

    /** `struct_variant`: `deserialize_map` gives a count and a `BinarySeries` to the derived `visit_map`. */
    method DeserializeStructFields(names: seq<string>, fields: seq<Shape>) returns (r: Result<seq<Value>>)
      requires !De.DecodeStructFields(names, fields, data, bigEndian, ext).Panicked?
      modifies this
      ensures Outcome(r, data) == De.DecodeStructFields(names, fields, old(data), bigEndian, ext)
      decreases fields, 4
    {
      var len := NextUsize();
      var series := new BinarySeries(this, len);
      r := VisitFieldMap(series, names, fields);
    }

    /**
     * The derived `visit_map` of a struct variant: field names and values
     * until the series ends, then the fields in declaration order.
     */
    method VisitFieldMap(series: BinarySeries, names: seq<string>, fields: seq<Shape>) returns (r: Result<seq<Value>>)
      requires series.de == this && series.position == 0
      requires !De.VisitStructFields(names, fields, series.len, data, bigEndian, ext).Panicked?
      modifies this, series
      ensures Outcome(r, data) == De.VisitStructFields(names, fields, series.len, old(data), bigEndian, ext)
      decreases fields, 3
    {
      var found := De.Unseen(|fields|);
      var i := 0;
      ghost var target := De.DecodeFieldMap(names, fields, 0, series.len, found, data, bigEndian, ext);
      while true
        invariant series.position == i <= series.len && |found| == |fields|
        invariant De.DecodeFieldMap(names, fields, i, series.len, found, data, bigEndian, ext) == target
        decreases series.len - i
      {
        var next := FieldRound(series, names, fields, found, i);
        if next.Err? {
          return Err(next.error);
        }
        if next.value.None? {
          break;
        }
        found := next.value.value;
        i := i + 1;
      }
      r := De.CollectFields(names, fields, found, 0);
    }

    /** One round of the struct-variant visitor's loop, and where it leaves the fields found so far. */
    method FieldRound(series: BinarySeries, names: seq<string>, fields: seq<Shape>, found: seq<Option<Value>>,
                      ghost i: nat) returns (next: Result<Option<seq<Option<Value>>>>)
      requires series.de == this && series.position == i && |found| == |fields|
      requires !De.DecodeFieldMap(names, fields, i, series.len, found, data, bigEndian, ext).Panicked?
      modifies this, series
      ensures series.position == i + 1
      ensures next.Err? ==>
        De.DecodeFieldMap(names, fields, i, series.len, found, old(data), bigEndian, ext) == Failed(next.error, data)
      ensures next == Ok(None) ==>
        De.DecodeFieldMap(names, fields, i, series.len, found, old(data), bigEndian, ext) == Parsed(found, data)
      ensures next.Ok? && next.value.Some? ==>
        i < series.len && |next.value.value| == |fields| &&
        De.DecodeFieldMap(names, fields, i, series.len, found, old(data), bigEndian, ext)
        == De.DecodeFieldMap(names, fields, i + 1, series.len, next.value.value, data, bigEndian, ext)
      decreases fields, 2
    {
      ghost var before := data;
      next := NextField(series, names, fields, found, i);
      De.FieldMapAfterStep(names, fields, i, series.len, found, before, bigEndian, ext, next, data);
    }

    /** One round of the derived struct-variant `visit_map` loop. */
    method NextField(series: BinarySeries, names: seq<string>, fields: seq<Shape>, found: seq<Option<Value>>, ghost i: nat)
      returns (r: Result<Option<seq<Option<Value>>>>)
      requires series.de == this && series.position == i && |found| == |fields|
      requires !De.FieldStep(names, fields, i, series.len, found, data, bigEndian, ext).Panicked?
      modifies this, series
      ensures series.position == i + 1
      ensures Outcome(r, data) == De.FieldStep(names, fields, i, series.len, found, old(data), bigEndian, ext)
      decreases fields, 1
    {
      var key := series.NextFieldName(i);
      if key.Err? {
        return Err(key.error);
      }
      if key.value.None? {
        return Ok(None);
      }
      var name := key.value.value;
      var i := De.FieldIndex(names, name).value;
      if found[i].Some? {
        return Err(Custom("duplicate field `" + name + "`"));
      }
      assert fields[i] in fields;
      var x := series.NextValue(fields[i]);
      r := match x case Ok(v) => Ok(Some(found[i := Some(v)])) case Err(e) => Err(e);
    }
  }

  /** A `BinarySeries`: a count of elements announced by the data, and how many were asked for. */
  class BinarySeries {
    const de: Deserializer
    const len: nat
    var position: nat

    /** `BinarySeries::new`. */
    constructor (de: Deserializer, len: nat)
      ensures this.de == de && this.len == len && position == 0
    {
      this.de := de;
      this.len := len;
      position := 0;
    }

    /** The increment and the two checks at the start of `next_element_seed` and `next_key_seed`. */
    method Advance() returns (r: Result<bool>)
      modifies this
      ensures position == old(position) + 1
      ensures r == De.Admit(old(position), len)
    {
      position := position + 1;
      if position == len + 1 {
        return Ok(false);
      } else if position > len {
        return Err(InvalidLength(position, len));
      }
      return Ok(true);
    }

    /** `next_element_seed` (and `next_key_seed`, whose body is the same). */
    method NextElement(elem: Shape, ghost i: nat) returns (r: Result<Option<Value>>)
      requires position == i
      requires !De.SeriesStep(i, len, elem, de.data, de.bigEndian, de.ext).Panicked?
      modifies this, de
      ensures position == i + 1
      ensures Outcome(r, de.data) == De.SeriesStep(i, len, elem, old(de.data), de.bigEndian, de.ext)
      decreases elem, 6
    {
      var go := Advance();
      if go.Err? {
        return Err(go.error);
      }
      if !go.value {
        return Ok(None);
      }
      ghost var before := de.data;
      assert De.SeriesStep(i, len, elem, before, de.bigEndian, de.ext)
             == (match De.Decode(elem, before, de.bigEndian, de.ext)
                 case Parsed(v, rest) => Parsed(Some(v), rest)
                 case Failed(e, rest) => Failed(e, rest)
                 case Panicked => Panicked);
      var x := de.Deserialize(elem);
      if x.Ok? {
        r := Ok(Some(x.value));
      } else {
        r := Err(x.error);
      }
    }

    /** `next_key_seed` for a field identifier: `deserialize_identifier` reads it with `take_string`. */
    method NextFieldName(ghost i: nat) returns (r: Result<Option<string>>)
      requires position == i
      requires !De.NameStep(i, len, de.data, de.ext).Panicked?
      modifies this, de
      ensures position == i + 1
      ensures Outcome(r, de.data) == De.NameStep(i, len, old(de.data), de.ext)
    {
      var go := Advance();
      if go.Err? {
        return Err(go.error);
      }
      if !go.value {
        return Ok(None);
      }
      var name := de.TakeString();
      r := Ok(Some(name));
    }

    /** `next_entry_seed`: serde's default, `next_key_seed` and then `next_value_seed`. */
    method NextEntry(k: Shape, v: Shape, ghost i: nat) returns (r: Result<Option<Entry>>)
      requires position == i
      requires !De.EntryStep(i, len, k, v, de.data, de.bigEndian, de.ext).Panicked?
      modifies this, de
      ensures position == i + 1
      ensures Outcome(r, de.data) == De.EntryStep(i, len, k, v, old(de.data), de.bigEndian, de.ext)
      decreases MapS(k, v), 1
    {
      var key := NextElement(k, i);
      if key.Err? {
        return Err(key.error);
      }
      if key.value.None? {
        return Ok(None);
      }
      var val := NextValue(v);
      r := match val case Ok(x) => Ok(Some(Entry(key.value.value, x))) case Err(e) => Err(e);
    }

    /** `next_value_seed`: the value, read from the underlying deserializer. */
    method NextValue(v: Shape) returns (r: Result<Value>)
      requires !De.Decode(v, de.data, de.bigEndian, de.ext).Panicked?
      modifies de
      ensures Outcome(r, de.data) == De.Decode(v, old(de.data), de.bigEndian, de.ext)
      decreases v, 6
    {
      r := de.Deserialize(v);
    }
  }

  /** `Deserializer::from_bytes`: a deserializer over a copy of the input reads one value; what follows it is ignored. */
  method FromBytesOf(input: seq<u8>, s: Shape, bigEndian: bool, ext: Externals) returns (r: Result<Value>)
    requires !De.Decode(s, input, bigEndian, ext).Panicked?
    ensures r.Ok? <==> De.Decode(s, input, bigEndian, ext).Parsed?
    ensures r.Ok? ==> r.value == De.Decode(s, input, bigEndian, ext).value
    ensures r.Err? ==> r.error == De.Decode(s, input, bigEndian, ext).error
  {
    var de := new Deserializer(input, bigEndian, ext);
    r := de.Deserialize(s);
  }
}
