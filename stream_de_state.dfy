/**
 * The stream `Deserializer` and its `BinarySeries`: the state the Rust code
 * mutates, and the steps that consume it. The source is an in-memory reader
 * whose `input` holds the bytes not read yet; each method is proved to do to
 * `input` what the function of the same name in `StreamDe` says.
 */
module StreamDeState {
  import opened Bytes
  import opened Options
  import opened BinaryErrors
  import opened Common
  import opened DataModel
  import Utf8
  import De
  import StreamDe

  /** A deserializer over a reader. */
  class Deserializer {
    var input: seq<u8>
    const bigEndian: bool
    const ext: Externals

    /** `Deserializer::new`: the reader and the byte order. */
    constructor (input: seq<u8>, bigEndian: bool, ext: Externals)
      ensures this.input == input && this.bigEndian == bigEndian && this.ext == ext
    {
      this.input := input;
      this.bigEndian := bigEndian;
      this.ext := ext;
    }

    /** `Read::read` into a buffer of `n` bytes: as many bytes as are left, up to `n`, which the reader loses. */
    method Read(n: nat) returns (got: seq<u8>)
      modifies this
      ensures |got| == if n <= |old(input)| then n else |old(input)|
      ensures old(input) == got + input
    {
      var k := if n <= |input| then n else |input|;
      got := input[..k];
      input := input[k..];
    }

    /** `next`: a one-byte read; reading nothing is `UnexpectedEndOfInput`. */
    method Next() returns (r: Result<u8>)
      modifies this
      ensures Outcome(r, input) == De.Next(old(input))
    {
      var got := Read(1);
      if |got| < 1 {
        return Err(UnexpectedEndOfInput);
      }
      r := Ok(got[0]);
    }

    /** `take`: a read of `len` bytes; reading fewer is `UnexpectedEndOfInput`. */
    method Take(len: nat) returns (r: Result<seq<u8>>)
      modifies this
      ensures Outcome(r, input) == StreamDe.Take(old(input), len)
    {
      var got := Read(len);
      if |got| < len {
        return Err(UnexpectedEndOfInput);
      }
      r := Ok(got);
    }

    /** `next_u32`: four bytes through `take`, its error replaced by its `{:?}` text. */
    method NextU32() returns (r: Result<nat>)
      modifies this
      ensures Outcome(r, input) == StreamDe.NextU32(old(input), bigEndian)
    {
      var bytes := Take(4);
      if bytes.Err? {
        return Err(Message(StreamDe.END_OF_INPUT_DEBUG));
      }
      r := Ok(FromBytes(U32, bytes.value, bigEndian));
    }

    /** `next_usize`: the header byte by byte, then `decompress_usize`. */
    method NextUsize() returns (r: Result<nat>)
      modifies this
      ensures Outcome(r, input) == StreamDe.NextUsize(old(input), ext)
    {
      var first := Next();
      if first.Err? {
        return Err(first.error);
      }
      if first.value < 0x80 {
        r := ext.decompress([first.value]);
        return;
      }
      var second := Next();
      if second.Err? {
        return Err(second.error);
      }
      var extra := NextBytes(second.value / 32);
      if extra.Err? {
        return Err(extra.error);
      }
      r := ext.decompress([first.value, second.value] + extra.value);
    }

    /** The extra bytes of a `next_usize` header: `next` once per byte, stopping at the first failure. */
    method NextBytes(n: nat) returns (r: Result<seq<u8>>)
      modifies this
      ensures Outcome(r, input) == StreamDe.Take(old(input), n)
    {
      var bytes := [];
      for i := 0 to n
        invariant i <= |old(input)|
        invariant bytes == old(input)[..i] && input == old(input)[i..]
      {
        var b := Next();
        if b.Err? {
          return Err(b.error);
        }
        bytes := bytes + [b.value];
        assert old(input)[..i + 1] == old(input)[..i] + [old(input)[i]];
      }
      r := Ok(bytes);
    }

    /** `take_string`: a length, that many bytes, and the string they encode. */
    method TakeString() returns (r: Result<string>)
      modifies this
      ensures Outcome(r, input) == StreamDe.TakeString(old(input), ext)
    {
      var size := NextUsize();
      if size.Err? {
        return Err(size.error);
      }
      var bytes := Take(size.value);
      if bytes.Err? {
        return Err(bytes.error);
      }
      match Utf8.FromUtf8(bytes.value)
      case Text(str) => r := Ok(str);
      case FromUtf8Error(b, e) => r := Err(Message(DebugFromUtf8Error(b, e)));
    }

    /** `T::deserialize(self)` for a `T` of shape `s`. */
    method Deserialize(s: Shape) returns (r: Result<Value>)
      requires !StreamDe.Decode(s, input, bigEndian, ext).Panicked?
      modifies this
      ensures Outcome(r, input) == StreamDe.Decode(s, old(input), bigEndian, ext)
      decreases s, 6
    {
      match s
      case BoolS =>
        var b := Next();
        r := match b case Ok(x) => Ok(Bool(x != 0)) case Err(e) => Err(e);
      case IntS(t) => r := DeserializeInt(t);
      case CharS => r := DeserializeChar();
      case StrS =>
        var str := TakeString();
        r := match str case Ok(x) => Ok(Str(x)) case Err(e) => Err(e);
      case OptS(inner) => r := DeserializeOption(inner);
      case UnitS => r := Ok(Unit);
      case SeqS(elem) => r := DeserializeSeq(elem);
      case TupleS(_, _) => r := DeserializeTuple(s);
      case MapS(_, _) => r := DeserializeMap(s);
      case StructS(_, _, _, _) => r := DeserializeStruct(s);
      case EnumS(_, _) => r := DeserializeEnum(s);
    }

    /** `deserialize_u8`/`deserialize_i8` (`next`) and the `impl_deserialize_num!` bodies (`take`). */
    method DeserializeInt(t: IntType) returns (r: Result<Value>)
      modifies this
      ensures Outcome(r, input) == StreamDe.DecodeInt(t, old(input), bigEndian)
    {
      if t == U8 || t == I8 {
        var b := Next();
        r := match b case Ok(x) => Ok(Int(t, FromBytes(t, [x], bigEndian))) case Err(e) => Err(e);
      } else {
        var bytes := Take(t.Width());
        r := match bytes case Ok(x) => Ok(Int(t, FromBytes(t, x, bigEndian))) case Err(e) => Err(e);
      }
    }

    /** `deserialize_char`: the lead byte, the bytes it is taken to announce (as written), then `String::from_utf8`. */
    method DeserializeChar() returns (r: Result<Value>)
      modifies this
      ensures Outcome(r, input) == StreamDe.DecodeCharAsWritten(old(input))
    {
      var lead := Next();
      if lead.Err? {
        return Err(lead.error);
      }
      var extra := StreamDe.ExtraBytesAsWritten(lead.value);
      if extra.None? {
        return Err(InvalidBytes);
      }
      var more := Take(extra.value);
      if more.Err? {
        return Err(more.error);
      }
      match Utf8.FromUtf8([lead.value] + more.value)
      case FromUtf8Error(b, e) => r := Err(BinaryErrors.FromUtf8Error(b, e));
      case Text(str) =>
        if str == [] {
          r := Err(Message("failed to decode character"));
        } else {
          r := Ok(Char(str[0]));
        }
    }

    /** `deserialize_option`. */
    method DeserializeOption(inner: Shape) returns (r: Result<Value>)
      requires !StreamDe.DecodeOption(inner, input, bigEndian, ext).Panicked?
      modifies this
      ensures Outcome(r, input) == StreamDe.DecodeOption(inner, old(input), bigEndian, ext)
      decreases OptS(inner), 2
    {
      var flag := Next();
      if flag.Err? {
        return Err(flag.error);
      }
      if flag.value == NONE {
        return Ok(OptNone);
      } else if flag.value == SOME {
        var x := Deserialize(inner);
        r := match x case Ok(v) => Ok(OptSome(v)) case Err(e) => Err(e);
      } else {
        r := Err(MissingOrInvalidFlag(flag.value, SOME));
      }
    }

    /** `deserialize_seq` for a `Vec`: a count, a `BinarySeries`, the visitor. */
    method DeserializeSeq(elem: Shape) returns (r: Result<Value>)
      requires !StreamDe.DecodeSeq(elem, input, bigEndian, ext).Panicked?
      modifies this
      ensures Outcome(r, input) == StreamDe.DecodeSeq(elem, old(input), bigEndian, ext)
      decreases SeqS(elem), 4
    {
      var len := NextUsize();
      if len.Err? {
        return Err(len.error);
      }
      var series := new BinarySeries(this, len.value);
      var xs := VisitVec(series, elem);
      r := match xs case Ok(v) => Ok(Seq(v)) case Err(e) => Err(e);
    }

    /** `deserialize_tuple`: `deserialize_seq` under the tuple visitor. */
    method DeserializeTuple(s: Shape) returns (r: Result<Value>)
      requires s.TupleS?
      requires !StreamDe.DecodeTuple(s, input, bigEndian, ext).Panicked?
      modifies this
      ensures Outcome(r, input) == StreamDe.DecodeTuple(s, old(input), bigEndian, ext)
      decreases s, 4
    {
      var xs := DeserializeSeqOf(s.elems, s.expecting);
      r := match xs case Ok(v) => Ok(Seq(v)) case Err(e) => Err(e);
    }

    /** `deserialize_map`: a count, a `BinarySeries`, the visitor. */
    method DeserializeMap(s: Shape) returns (r: Result<Value>)
      requires s.MapS?
      requires !StreamDe.DecodeMap(s.key, s.val, input, bigEndian, ext).Panicked?
      modifies this
      ensures Outcome(r, input) == StreamDe.DecodeMap(s.key, s.val, old(input), bigEndian, ext)
      decreases s, 4
    {
      var es := DeserializeMapEntries(s.key, s.val);
      r := match es case Ok(x) => Ok(Map(x)) case Err(e) => Err(e);
    }

    /** A count, and a `BinarySeries` over it handed to the map visitor. */
    method DeserializeMapEntries(k: Shape, v: Shape) returns (r: Result<seq<Entry>>)
      requires !StreamDe.DecodeMapEntries(k, v, input, bigEndian, ext).Panicked?
      modifies this
      ensures Outcome(r, input) == StreamDe.DecodeMapEntries(k, v, old(input), bigEndian, ext)
      decreases MapS(k, v), 3
    {
      var len := NextUsize();
      if len.Err? {
        return Err(len.error);
      }
      var series := new BinarySeries(this, len.value);
      r := VisitEntries(series, k, v);
    }

    /** The `Vec` visitor: `next_element` until the series ends. */
    method VisitVec(series: BinarySeries, elem: Shape) returns (r: Result<seq<Value>>)
      requires series.de == this && series.position == 0
      requires !StreamDe.DecodeElems(elem, 0, series.len, input, bigEndian, ext).Panicked?
      modifies this, series
      ensures Outcome(r, input) == StreamDe.DecodeElems(elem, 0, series.len, old(input), bigEndian, ext)
      decreases SeqS(elem), 1
    {
      var xs := [];
      var i := 0;
      ghost var target := StreamDe.DecodeElems(elem, 0, series.len, input, bigEndian, ext);
      De.PrependNothing(target);
      while true
        invariant series.position == i <= series.len
        invariant De.Prepend(xs, StreamDe.DecodeElems(elem, i, series.len, input, bigEndian, ext)) == target
        decreases series.len - i
      {
        ghost var step := StreamDe.SeriesStep(i, series.len, elem, input, bigEndian, ext);
        StreamDe.ElemsAfterStep(elem, i, series.len, input, bigEndian, ext, xs, step);
        var next := series.NextElement(elem, i);
        if next.Err? {
          return Err(next.error);
        }
        if next.value.None? {
          return Ok(xs);
        }
        xs := xs + [next.value.value];
        i := i + 1;
      }
    }

    /** The visitor of a tuple, tuple struct, struct or data variant: one `next_element` per field. */
    method VisitFixed(series: BinarySeries, shapes: seq<Shape>, expecting: string) returns (r: Result<seq<Value>>)
      requires series.de == this && series.position == 0
      requires !StreamDe.DecodeFixed(shapes, expecting, 0, series.len, input, bigEndian, ext).Panicked?
      modifies this, series
      ensures Outcome(r, input) == StreamDe.DecodeFixed(shapes, expecting, 0, series.len, old(input), bigEndian, ext)
      decreases shapes, 0
    {
      var xs := [];
      ghost var target := StreamDe.DecodeFixed(shapes, expecting, 0, series.len, input, bigEndian, ext);
      De.PrependNothing(target);
      for i := 0 to |shapes|
        invariant series.position == i
        invariant De.Prepend(xs, StreamDe.DecodeFixed(shapes, expecting, i, series.len, input, bigEndian, ext)) == target
      {
        ghost var step := StreamDe.SeriesStep(i, series.len, shapes[i], input, bigEndian, ext);
        StreamDe.FixedAfterStep(shapes, expecting, i, series.len, input, bigEndian, ext, xs, step);
        assert shapes[i] in shapes;
        var next := series.NextElement(shapes[i], i);
        if next.Err? {
          return Err(next.error);
        }
        if next.value.None? {
          return Err(Custom(De.InvalidLengthMessage(i, expecting)));
        }
        xs := xs + [next.value.value];
      }
      assert xs + [] == xs;
      r := Ok(xs);
    }

    /** The map visitor: `next_entry` until the series ends. */
    method VisitEntries(series: BinarySeries, k: Shape, v: Shape) returns (r: Result<seq<Entry>>)
      requires series.de == this && series.position == 0
      requires !StreamDe.DecodeEntries(k, v, 0, series.len, input, bigEndian, ext).Panicked?
      modifies this, series
      ensures Outcome(r, input) == StreamDe.DecodeEntries(k, v, 0, series.len, old(input), bigEndian, ext)
      decreases MapS(k, v), 2
    {
      var es := [];
      var i := 0;
      ghost var target := StreamDe.DecodeEntries(k, v, 0, series.len, input, bigEndian, ext);
      De.PrependNothing(target);
      while true
        invariant series.position == i <= series.len
        invariant De.Prepend(es, StreamDe.DecodeEntries(k, v, i, series.len, input, bigEndian, ext)) == target
        decreases series.len - i
      {
        var next := EntryRound(series, k, v, es, i);
        if next.Err? {
          return Err(next.error);
        }
        if next.value.None? {
          return Ok(es);
        }
        es := es + [next.value.value];
        i := i + 1;
      }
    }

    /** One `next_entry` of the map visitor, and where it leaves the entries read so far. */
    method EntryRound(series: BinarySeries, k: Shape, v: Shape, es: seq<Entry>, ghost i: nat)
      returns (next: Result<Option<Entry>>)
      requires series.de == this && series.position == i
      requires !StreamDe.DecodeEntries(k, v, i, series.len, input, bigEndian, ext).Panicked?
      modifies this, series
      ensures series.position == i + 1
      ensures next.Err? ==>
        De.Prepend(es, StreamDe.DecodeEntries(k, v, i, series.len, old(input), bigEndian, ext)) == Failed(next.error, input)
      ensures next == Ok(None) ==>
        De.Prepend(es, StreamDe.DecodeEntries(k, v, i, series.len, old(input), bigEndian, ext)) == Parsed(es, input)
      ensures next.Ok? && next.value.Some? ==>
        i < series.len &&
        De.Prepend(es, StreamDe.DecodeEntries(k, v, i, series.len, old(input), bigEndian, ext))
        == De.Prepend(es + [next.value.value], StreamDe.DecodeEntries(k, v, i + 1, series.len, input, bigEndian, ext))
      decreases MapS(k, v), 1
    {
      ghost var before := input;
      next := series.NextEntry(k, v, i);
      StreamDe.EntriesAfterStep(k, v, i, series.len, before, bigEndian, ext, es, next, input);
    }

    /** `deserialize_struct`: a count and a `BinarySeries` for the derived `visit_seq`. */
    method DeserializeStruct(s: Shape) returns (r: Result<Value>)
      requires s.StructS?
      requires !StreamDe.DecodeStruct(s, input, bigEndian, ext).Panicked?
      modifies this
      ensures Outcome(r, input) == StreamDe.DecodeStruct(s, old(input), bigEndian, ext)
      decreases s, 2
    {
      var xs := DeserializeSeqOf(s.fields, s.expecting);
      r := match xs case Ok(v) => Ok(Struct(s.name, v)) case Err(e) => Err(e);
    }

    /** `deserialize_seq` under a fixed-length visitor: a count, then one element per field. */
    method DeserializeSeqOf(shapes: seq<Shape>, expecting: string) returns (r: Result<seq<Value>>)
      requires !StreamDe.DecodeSeqOf(shapes, expecting, input, bigEndian, ext).Panicked?
      modifies this
      ensures Outcome(r, input) == StreamDe.DecodeSeqOf(shapes, expecting, old(input), bigEndian, ext)
      decreases shapes, 1
    {
      var len := NextUsize();
      if len.Err? {
        return Err(len.error);
      }
      var series := new BinarySeries(this, len.value);
      r := VisitFixed(series, shapes, expecting);
    }

    /** `deserialize_enum`: the flag, the index, then the variant. */
    method DeserializeEnum(s: Shape) returns (r: Result<Value>)
      requires s.EnumS?
      requires !StreamDe.DecodeEnum(s, input, bigEndian, ext).Panicked?
      modifies this
      ensures Outcome(r, input) == StreamDe.DecodeEnum(s, old(input), bigEndian, ext)
      decreases s, 2
    {
      var tag := Next();
      if tag.Err? {
        return Err(tag.error);
      }
      if tag.value == ext.nonunitVariant || tag.value == STRUCT_VARIANT {
        var idx := NextU32();
        if idx.Err? {
          return Err(idx.error);
        }
        if idx.value >= |s.variants| {
          return Err(Custom(StreamDe.VariantIndexMessage(idx.value, |s.variants|)));
        }
        r := DeserializeVariant(s, idx.value);
      } else if tag.value == UNIT_VARIANT {
        var idx := NextU32();
        if idx.Err? {
          return Err(idx.error);
        }
        match s.variants[idx.value]
        case UnitV(_) => r := Ok(UnitVariant(s.name, idx.value));
        case NewtypeV(_, _) => r := Err(Custom(De.UnitVariantMismatch("newtype variant")));
        case TupleV(_, _, _) => r := Err(Custom(De.UnitVariantMismatch("tuple variant")));
        case StructV(_, _, _, _) => r := Err(Custom(De.UnitVariantMismatch("struct variant")));
      } else {
        r := Err(MissingOrInvalidFlag(tag.value, UNIT_VARIANT));
      }
    }

    /** `unit_variant`, `newtype_variant_seed`, `tuple_variant` and `struct_variant` of the `Enum` access. */
    method DeserializeVariant(s: Shape, idx: nat) returns (r: Result<Value>)
      requires s.EnumS? && idx < |s.variants|
      requires !StreamDe.DecodeVariant(s, idx, input, bigEndian, ext).Panicked?
      modifies this
      ensures Outcome(r, input) == StreamDe.DecodeVariant(s, idx, old(input), bigEndian, ext)
      decreases s, 1
    {
      var variant := s.variants[idx];
      assert variant in s.variants;
      match variant
      case UnitV(_) => r := Err(UnexpectedType);
      case NewtypeV(_, inner) =>
        var x := Deserialize(inner);
        r := match x case Ok(v) => Ok(NewtypeVariant(s.name, idx, v)) case Err(e) => Err(e);
      case TupleV(_, expecting, elems) =>
        var xs := DeserializeSeqOf(elems, expecting);
        r := match xs case Ok(v) => Ok(TupleVariant(s.name, idx, v)) case Err(e) => Err(e);
      case StructV(_, expecting, _, fields) =>
        var xs := DeserializeSeqOf(fields, expecting);
        r := match xs case Ok(v) => Ok(StructVariant(s.name, idx, v)) case Err(e) => Err(e);
    }
  }

  /** A `BinarySeries`: a count of elements announced by the data, and how many were asked for. */
  class BinarySeries {
    const de: Deserializer
    const len: nat
    var position: nat

    /** `BinarySeries::new`. */
    constructor (de: Deserializer, len: nat)
      ensures this.de == de && this.len == len && position == 0
    {
      this.de := de;
      this.len := len;
      position := 0;
    }

    /** The increment and the two checks at the start of `next_element_seed` and `next_key_seed`. */
    method Advance() returns (r: Result<bool>)
      modifies this
      ensures position == old(position) + 1
      ensures r == De.Admit(old(position), len)
    {
      position := position + 1;
      if position == len + 1 {
        return Ok(false);
      } else if position > len {
        return Err(InvalidLength(position, len));
      }
      return Ok(true);
    }

    /** `next_element_seed` (and `next_key_seed`, whose body is the same). */
    method NextElement(elem: Shape, ghost i: nat) returns (r: Result<Option<Value>>)
      requires position == i
      requires !StreamDe.SeriesStep(i, len, elem, de.input, de.bigEndian, de.ext).Panicked?
      modifies this, de
      ensures position == i + 1
      ensures Outcome(r, de.input) == StreamDe.SeriesStep(i, len, elem, old(de.input), de.bigEndian, de.ext)
      decreases elem, 7
    {
      var go := Advance();
      if go.Err? {
        return Err(go.error);
      }
      if !go.value {
        return Ok(None);
      }
      var x := de.Deserialize(elem);
      r := match x case Ok(v) => Ok(Some(v)) case Err(e) => Err(e);
    }

    /** `next_entry_seed`: serde's default, `next_key_seed` and then `next_value_seed`. */
    method NextEntry(k: Shape, v: Shape, ghost i: nat) returns (r: Result<Option<Entry>>)
      requires position == i
      requires !StreamDe.EntryStep(i, len, k, v, de.input, de.bigEndian, de.ext).Panicked?
      modifies this, de
      ensures position == i + 1
      ensures Outcome(r, de.input) == StreamDe.EntryStep(i, len, k, v, old(de.input), de.bigEndian, de.ext)
      decreases MapS(k, v), 0
    {
      var key := NextElement(k, i);
      if key.Err? {
        return Err(key.error);
      }
      if key.value.None? {
        return Ok(None);
      }
      var val := NextValue(v);
      r := match val case Ok(x) => Ok(Some(Entry(key.value.value, x))) case Err(e) => Err(e);
    }

    /** `next_value_seed`: the value, read from the underlying deserializer. */
    method NextValue(v: Shape) returns (r: Result<Value>)
      requires !StreamDe.Decode(v, de.input, de.bigEndian, de.ext).Panicked?
      modifies de
      ensures Outcome(r, de.input) == StreamDe.Decode(v, old(de.input), de.bigEndian, de.ext)
      decreases v, 7
    {
      r := de.Deserialize(v);
    }
  }

  /** `Deserializer::read_bytes`: one value from the reader, which keeps what follows it. */
  method ReadBytes(input: seq<u8>, s: Shape, bigEndian: bool, ext: Externals) returns (r: Result<Value>, rest: seq<u8>)
    requires !StreamDe.Decode(s, input, bigEndian, ext).Panicked?
    ensures Outcome(r, rest) == StreamDe.Decode(s, input, bigEndian, ext)
  {
    var de := new Deserializer(input, bigEndian, ext);
    r := de.Deserialize(s);
    rest := de.input;
  }
}
