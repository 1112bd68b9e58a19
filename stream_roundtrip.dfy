/**
 * The stream format read back: what the stream `Serializer` writes for a
 * value, the stream `Deserializer` reads as the same value, and the reader
 * keeps whatever followed it.
 *
 * Unlike the in-memory pair, this holds for every value of the target type
 * (`Fits`) under a sound length codec, 128-bit integers and data-carrying
 * enum variants included. Byte buffers are excluded, which neither side
 * implements, and so are characters of three or four UTF-8 bytes, which
 * `deserialize_char` as written does not read back (`NarrowChars`); the
 * corrected character reader does (`CharRoundTrip`).
 */
module StreamRoundTrip {
  import opened Bytes
  import opened Options
  import opened BinaryErrors
  import opened Common
  import opened DataModel
  import Utf8
  import Ser
  import opened StreamSer
  import opened StreamDe
  import De
  import RoundTrip

  /** `next_usize` reads back exactly the header `compress_usize` wrote. */
  lemma NextUsizeReadsHeader(n: nat, rest: seq<u8>, ext: Externals)
    requires Sound(ext) && n < USIZE_LIMIT
    ensures NextUsize(ext.compress(n) + rest, ext) == Parsed(n, rest)
  {
    var h := ext.compress(n);
    var data := h + rest;
    assert Framed(h) && ext.decompress(h) == Ok(n);
    assert data[0] == h[0];
    if h[0] < 0x80 {
      assert h == [h[0]];
      assert data[1..] == rest;
    } else {
      assert data[1..] == [h[1]] + h[2..] + rest;
      assert data[1..][1..] == h[2..] + rest;
      assert Take(h[2..] + rest, h[1] / 32) == Parsed(h[2..], rest);
      assert h == [h[0], h[1]] + h[2..];
    }
  }

  /** `take_string` reads back what `serialize_str` wrote. */
  lemma TakeStringReads(str: string, rest: seq<u8>, ext: Externals)
    requires Sound(ext) && IsUsize(|Utf8.EncodeString(str)|)
    ensures TakeString(Ser.StrBytes(str, ext) + rest, ext) == Parsed(str, rest)
  {
    var bytes := Utf8.EncodeString(str);
    assert Ser.StrBytes(str, ext) + rest == ext.compress(|bytes|) + (bytes + rest);
    NextUsizeReadsHeader(|bytes|, bytes + rest, ext);
    assert Take(bytes + rest, |bytes|) == Parsed(bytes, rest);
    Utf8.EncodeStringRoundTrip(str);
  }

  /** `next_u32` reads back a variant index written as a `u32`. */
  lemma NextU32Reads(idx: nat, rest: seq<u8>, bigEndian: bool)
    requires idx < U32_LIMIT
    ensures NextU32(Ser.U32Bytes(idx, bigEndian) + rest, bigEndian) == Parsed(idx, rest)
  {
    var u := Ser.U32Bytes(idx, bigEndian);
    Bytes.IntRoundTrip(U32, idx, bigEndian);
    assert Take(u + rest, 4) == Parsed(u, rest);
  }

  /** A character is read back from its UTF-8 bytes by the corrected `deserialize_char`. */
  lemma CharRoundTrip(c: char, rest: seq<u8>)
    ensures DecodeChar(Utf8.EncodeChar(c) + rest) == Parsed(Char(c), rest)
  {
    var bs := Utf8.EncodeChar(c);
    var data := bs + rest;
    Utf8.EncodeCharScans(c, rest);
    assert data[0] == bs[0];
    assert Utf8.LeadWidth(bs[0]) == |bs|;
    assert data[1..] == bs[1..] + rest;
    assert Take(bs[1..] + rest, |bs| - 1) == Parsed(bs[1..], rest);
    assert [bs[0]] + bs[1..] == bs;
    Utf8.EncodeCharRoundTrip(c);
  }

  /** A character below U+0800 is read back by `deserialize_char` as written. */
  lemma NarrowCharRoundTrip(c: char, rest: seq<u8>)
    requires c as int < 0x800
    ensures DecodeCharAsWritten(Utf8.EncodeChar(c) + rest) == Parsed(Char(c), rest)
  {
    var bs := Utf8.EncodeChar(c);
    assert (bs + rest)[0] == bs[0] < 0xE0;
    CharReadersAgree(bs + rest);
    CharRoundTrip(c, rest);
  }

  /** No element holds a character of three or four UTF-8 bytes. */
  predicate NarrowAll(vs: seq<Value>)
  {
    forall i :: 0 <= i < |vs| ==> NarrowChars(vs[i])
  }

  /** No key and no value holds a character of three or four UTF-8 bytes. */
  predicate NarrowEntries(es: seq<Entry>)
  {
    forall i :: 0 <= i < |es| ==> NarrowChars(es[i].key) && NarrowChars(es[i].val)
  }

  /** An integer of any width, 128 bits included, is read back from the bytes `serialize_num` wrote. */
  lemma IntRoundTrip(t: IntType, i: int, rest: seq<u8>, bigEndian: bool)
    requires t.Contains(i)
    ensures DecodeInt(t, ToBytes(t, i, bigEndian) + rest, bigEndian) == Parsed(Int(t, i), rest)
  {
    var bs := ToBytes(t, i, bigEndian);
    Bytes.IntRoundTrip(t, i, bigEndian);
    if t == U8 || t == I8 {
      assert bs == [bs[0]];
      assert (bs + rest)[1..] == rest;
    } else {
      assert Take(bs + rest, t.Width()) == Parsed(bs, rest);
    }
  }

  /** A unit variant is read back from `UNIT_VARIANT` and its index. */
  lemma UnitVariantRoundTrip(v: Value, s: Shape, rest: seq<u8>, bigEndian: bool, ext: Externals)
    requires v.UnitVariant? && Fits(v, s) && Sound(ext)
    ensures Decode(s, Emit(v, bigEndian, ext) + rest, bigEndian, ext) == Parsed(v, rest)
  {
    var u := Ser.U32Bytes(v.index, bigEndian);
    AppendAssoc([UNIT_VARIANT], u, rest);
    RoundTrip.DropOne(UNIT_VARIANT, u + rest);
    NextU32Reads(v.index, rest, bigEndian);
    assert Flags()[2] == UNIT_VARIANT;
    UnitVariantReads(s, [UNIT_VARIANT] + (u + rest), v.index, rest, bigEndian, ext);
  }

  /** A value with no value inside it is read back from its bytes. */
  lemma LeafRoundTrip(v: Value, s: Shape, rest: seq<u8>, bigEndian: bool, ext: Externals)
    requires v.Bool? || v.Int? || v.Char? || v.Str? || v.OptNone? || v.Unit? || v.UnitVariant?
    requires Sound(ext) && Fits(v, s) && NarrowChars(v)
    ensures Decode(s, Emit(v, bigEndian, ext) + rest, bigEndian, ext) == Parsed(v, rest)
  {
    match v
    case Bool(b) =>
      RoundTrip.DropOne(if b then 1 else 0, rest);
    case Int(t, i) =>
      IntRoundTrip(t, i, rest, bigEndian);
    case Char(c) =>
      NarrowCharRoundTrip(c, rest);
    case Str(str) =>
      TakeStringReads(str, rest, ext);
    case OptNone =>
      RoundTrip.DropOne(NONE, rest);
    case Unit =>
    case UnitVariant(_, _) =>
      UnitVariantRoundTrip(v, s, rest, bigEndian, ext);
  }

  /**
   * The round trip: a value of the target type that holds no byte buffer and
   * no character of three or four UTF-8 bytes is read back from what the
   * stream serializer wrote, whatever follows it.
   */
  lemma {:induction false} ValueRoundTrip(v: Value, s: Shape, rest: seq<u8>, bigEndian: bool, ext: Externals)
    requires Sound(ext) && Fits(v, s) && NoByteBuf(v) && NarrowChars(v)
    ensures Decode(s, Emit(v, bigEndian, ext) + rest, bigEndian, ext) == Parsed(v, rest)
    decreases v, 2
  {
    match v
    case OptSome(x) => OptionRoundTrip(x, s.inner, rest, bigEndian, ext);
    case Seq(es) =>
      if s.SeqS? {
        SeqRoundTrip(es, s, rest, bigEndian, ext);
      } else {
        TupleRoundTrip(es, s, rest, bigEndian, ext);
      }
    case Map(es) => MapRoundTrip(es, s, rest, bigEndian, ext);
    case Struct(name, fs) => StructRoundTrip(name, fs, s, rest, bigEndian, ext);
    case NewtypeVariant(name, idx, x) => NewtypeVariantRoundTrip(name, idx, x, s, rest, bigEndian, ext);
    case TupleVariant(name, idx, es) => TupleVariantRoundTrip(name, idx, es, s, rest, bigEndian, ext);
    case StructVariant(name, idx, fs) => StructVariantRoundTrip(name, idx, fs, s, rest, bigEndian, ext);
    case _ => LeafRoundTrip(v, s, rest, bigEndian, ext);
  }

  /** `Some(x)` is read back from `SOME` and the bytes of `x`. */
  lemma OptionRoundTrip(x: Value, inner: Shape, rest: seq<u8>, bigEndian: bool, ext: Externals)
    requires Sound(ext) && Fits(x, inner) && NoByteBuf(x) && NarrowChars(x)
    ensures Decode(OptS(inner), Emit(OptSome(x), bigEndian, ext) + rest, bigEndian, ext) == Parsed(OptSome(x), rest)
    decreases x, 3
  {
    var b := Emit(x, bigEndian, ext);
    ValueRoundTrip(x, inner, rest, bigEndian, ext);
    AppendAssoc([SOME], b, rest);
    RoundTrip.DropOne(SOME, b + rest);
    OptionReads(inner, [SOME] + (b + rest), x, rest, bigEndian, ext);
  }

  /** A `Vec` is read back from its count and its elements. */
  lemma SeqRoundTrip(es: seq<Value>, s: Shape, rest: seq<u8>, bigEndian: bool, ext: Externals)
    requires s.SeqS? && Sound(ext) && IsUsize(|es|) && Writable(es) && NarrowAll(es)
    requires forall j :: 0 <= j < |es| ==> Fits(es[j], s.elem)
    ensures Decode(s, Emit(Seq(es), bigEndian, ext) + rest, bigEndian, ext) == Parsed(Seq(es), rest)
    decreases es, 2
  {
    ElemsRoundTrip(s.elem, 0, |es|, es, rest, bigEndian, ext);
    SeqFromElems(es, s, rest, bigEndian, ext);
  }

  /** A tuple is read back from its count and its elements. */
  lemma TupleRoundTrip(es: seq<Value>, s: Shape, rest: seq<u8>, bigEndian: bool, ext: Externals)
    requires s.TupleS? && Sound(ext) && FitsAll(es, s.elems) && Writable(es) && NarrowAll(es)
    ensures Decode(s, Emit(Seq(es), bigEndian, ext) + rest, bigEndian, ext) == Parsed(Seq(es), rest)
    decreases es, 2
  {
    FixedRoundTrip(s.elems, s.expecting, 0, es, rest, bigEndian, ext);
    TupleFromFields(es, s, rest, bigEndian, ext);
  }

  /** A map is read back from its count and its entries. */
  lemma MapRoundTrip(es: seq<Entry>, s: Shape, rest: seq<u8>, bigEndian: bool, ext: Externals)
    requires s.MapS? && Sound(ext) && IsUsize(|es|) && WritableEntries(es) && NarrowEntries(es)
    requires forall j :: 0 <= j < |es| ==> Fits(es[j].key, s.key) && Fits(es[j].val, s.val)
    ensures Decode(s, Emit(Map(es), bigEndian, ext) + rest, bigEndian, ext) == Parsed(Map(es), rest)
    decreases es, 2
  {
    EntriesRoundTrip(s.key, s.val, 0, |es|, es, rest, bigEndian, ext);
    MapFromEntries(es, s, rest, bigEndian, ext);
  }

  /** A struct is read back from its count and its fields; its name comes from the type. */
  lemma StructRoundTrip(name: string, fs: seq<Value>, s: Shape, rest: seq<u8>, bigEndian: bool, ext: Externals)
    requires s.StructS? && s.name == name && Sound(ext) && FitsAll(fs, s.fields) && Writable(fs) && NarrowAll(fs)
    ensures Decode(s, Emit(Struct(name, fs), bigEndian, ext) + rest, bigEndian, ext) == Parsed(Struct(name, fs), rest)
    decreases fs, 2
  {
    FixedRoundTrip(s.fields, s.expecting, 0, fs, rest, bigEndian, ext);
    StructFromFields(name, fs, s, rest, bigEndian, ext);
  }

  /** A newtype variant is read back from its flag, its index and its value. */
  lemma NewtypeVariantRoundTrip(name: string, idx: nat, x: Value, s: Shape, rest: seq<u8>, bigEndian: bool,
                                ext: Externals)
    requires Fits(NewtypeVariant(name, idx, x), s) && Sound(ext) && NoByteBuf(x) && NarrowChars(x)
    ensures Decode(s, Emit(NewtypeVariant(name, idx, x), bigEndian, ext) + rest, bigEndian, ext)
            == Parsed(NewtypeVariant(name, idx, x), rest)
    decreases x, 3
  {
    ValueRoundTrip(x, s.variants[idx].inner, rest, bigEndian, ext);
    NewtypeVariantFromInner(name, idx, x, s, rest, bigEndian, ext);
  }

  /** A tuple variant is read back from its flag, its index, its count and its fields. */
  lemma TupleVariantRoundTrip(name: string, idx: nat, es: seq<Value>, s: Shape, rest: seq<u8>, bigEndian: bool,
                              ext: Externals)
    requires Fits(TupleVariant(name, idx, es), s) && Sound(ext) && Writable(es) && NarrowAll(es)
    ensures Decode(s, Emit(TupleVariant(name, idx, es), bigEndian, ext) + rest, bigEndian, ext)
            == Parsed(TupleVariant(name, idx, es), rest)
    decreases es, 2
  {
    var variant := s.variants[idx];
    FixedRoundTrip(variant.elems, variant.expecting, 0, es, rest, bigEndian, ext);
    TupleVariantFromFields(name, idx, es, s, rest, bigEndian, ext);
  }

  /** A struct variant is read back from its flag, its index, its count and its fields. */
  lemma StructVariantRoundTrip(name: string, idx: nat, fs: seq<Value>, s: Shape, rest: seq<u8>, bigEndian: bool,
                               ext: Externals)
    requires Fits(StructVariant(name, idx, fs), s) && Sound(ext) && Writable(fs) && NarrowAll(fs)
    ensures Decode(s, Emit(StructVariant(name, idx, fs), bigEndian, ext) + rest, bigEndian, ext)
            == Parsed(StructVariant(name, idx, fs), rest)
    decreases fs, 2
  {
    var variant := s.variants[idx];
    FixedRoundTrip(variant.fields, variant.expecting, 0, fs, rest, bigEndian, ext);
    StructVariantFromFields(name, idx, fs, s, rest, bigEndian, ext);
  }

  /** The `Vec` visitor from `position` on reads back the elements that are left. */
  lemma {:induction false} ElemsRoundTrip(elem: Shape, position: nat, len: nat, vs: seq<Value>,
                                          rest: seq<u8>, bigEndian: bool, ext: Externals)
    requires Sound(ext) && position + |vs| == len && Writable(vs) && NarrowAll(vs)
    requires forall j :: 0 <= j < |vs| ==> Fits(vs[j], elem)
    ensures DecodeElems(elem, position, len, EmitAll(vs, bigEndian, ext) + rest, bigEndian, ext) == Parsed(vs, rest)
    decreases vs, 1
  {
    if vs == [] {
      RoundTrip.AppendNil(rest);
      ElemsEndReads(elem, len, rest, bigEndian, ext);
    } else {
      var others := EmitAll(vs[1..], bigEndian, ext);
      ValueRoundTrip(vs[0], elem, others + rest, bigEndian, ext);
      ElemsRoundTrip(elem, position + 1, len, vs[1..], rest, bigEndian, ext);
      AllBytes(vs, rest, bigEndian, ext);
      ElemsCons(elem, position, len, Emit(vs[0], bigEndian, ext) + (others + rest), vs, others + rest, rest,
                bigEndian, ext);
    }
  }

  /** A fixed-length visitor from field `i` on reads back the fields that are left. */
  lemma {:induction false} FixedRoundTrip(shapes: seq<Shape>, expecting: string, i: nat, vs: seq<Value>,
                                          rest: seq<u8>, bigEndian: bool, ext: Externals)
    requires Sound(ext) && i + |vs| == |shapes| && Writable(vs) && NarrowAll(vs)
    requires forall j :: 0 <= j < |vs| ==> Fits(vs[j], shapes[i + j])
    ensures DecodeFixed(shapes, expecting, i, |shapes|, EmitAll(vs, bigEndian, ext) + rest, bigEndian, ext)
            == Parsed(vs, rest)
    decreases vs, 1
  {
    if vs == [] {
      RoundTrip.AppendNil(rest);
    } else {
      FixedTail(shapes, i, vs);
      var others := EmitAll(vs[1..], bigEndian, ext);
      ValueRoundTrip(vs[0], shapes[i], others + rest, bigEndian, ext);
      FixedRoundTrip(shapes, expecting, i + 1, vs[1..], rest, bigEndian, ext);
      AllBytes(vs, rest, bigEndian, ext);
      FixedCons(shapes, expecting, i, Emit(vs[0], bigEndian, ext) + (others + rest), vs, others + rest, rest,
                bigEndian, ext);
    }
  }

  /** What the fields after the first still satisfy. */
  lemma FixedTail(shapes: seq<Shape>, i: nat, vs: seq<Value>)
    requires vs != [] && i + |vs| == |shapes| && Writable(vs) && NarrowAll(vs)
    requires forall j :: 0 <= j < |vs| ==> Fits(vs[j], shapes[i + j])
    ensures NoByteBuf(vs[0]) && NarrowChars(vs[0]) && Fits(vs[0], shapes[i]) && Writable(vs[1..]) && NarrowAll(vs[1..])
    ensures forall j :: 0 <= j < |vs[1..]| ==> Fits(vs[1..][j], shapes[i + 1 + j])
  {
    assert Fits(vs[0], shapes[i + 0]);
    forall j | 0 <= j < |vs[1..]|
      ensures Fits(vs[1..][j], shapes[i + 1 + j])
    {
      assert Fits(vs[j + 1], shapes[i + (j + 1)]);
    }
  }

  /** The map visitor from `position` on reads back the entries that are left. */
  lemma {:induction false} EntriesRoundTrip(k: Shape, v: Shape, position: nat, len: nat, es: seq<Entry>,
                                            rest: seq<u8>, bigEndian: bool, ext: Externals)
    requires Sound(ext) && position + |es| == len && WritableEntries(es) && NarrowEntries(es)
    requires forall j :: 0 <= j < |es| ==> Fits(es[j].key, k) && Fits(es[j].val, v)
    ensures DecodeEntries(k, v, position, len, EmitEntries(es, bigEndian, ext) + rest, bigEndian, ext)
            == Parsed(es, rest)
    decreases es, 1
  {
    if es == [] {
      RoundTrip.AppendNil(rest);
      EntriesEndReads(k, v, len, rest, bigEndian, ext);
    } else {
      var e := es[0];
      assert NoByteBuf(e.key) && NoByteBuf(e.val) && NarrowChars(e.key) && NarrowChars(e.val);
      var others := EmitEntries(es[1..], bigEndian, ext);
      EntryRoundTrip(k, v, position, len, e, others + rest, bigEndian, ext);
      EntriesRoundTrip(k, v, position + 1, len, es[1..], rest, bigEndian, ext);
      EntriesBytes(es, rest, bigEndian, ext);
      EntriesCons(k, v, position, len, EmitEntry(e, bigEndian, ext) + (others + rest), es, others + rest, rest,
                  bigEndian, ext);
    }
  }

  /** One entry is read back by `next_entry` from its key and its value. */
  lemma EntryRoundTrip(k: Shape, v: Shape, position: nat, len: nat, e: Entry, rest: seq<u8>,
                       bigEndian: bool, ext: Externals)
    requires Sound(ext) && position < len
    requires Fits(e.key, k) && Fits(e.val, v) && NoByteBuf(e.key) && NoByteBuf(e.val)
    requires NarrowChars(e.key) && NarrowChars(e.val)
    ensures EntryStep(position, len, k, v, EmitEntry(e, bigEndian, ext) + rest, bigEndian, ext) == Parsed(Some(e), rest)
    decreases e, 0
  {
    var key := Emit(e.key, bigEndian, ext);
    var val := Emit(e.val, bigEndian, ext);
    ValueRoundTrip(e.val, v, rest, bigEndian, ext);
    ValueRoundTrip(e.key, k, val + rest, bigEndian, ext);
    AppendAssoc(key, val, rest);
    EntryStepReads(k, v, position, len, key + (val + rest), e, val + rest, rest, bigEndian, ext);
  }

  /* One element, field or entry in front of the ones already read back. */

  lemma ElemsCons(elem: Shape, position: nat, len: nat, data: seq<u8>, vs: seq<Value>, r1: seq<u8>, rest: seq<u8>,
                  bigEndian: bool, ext: Externals)
    requires vs != [] && position < len
    requires Decode(elem, data, bigEndian, ext) == Parsed(vs[0], r1)
    requires DecodeElems(elem, position + 1, len, r1, bigEndian, ext) == Parsed(vs[1..], rest)
    ensures DecodeElems(elem, position, len, data, bigEndian, ext) == Parsed(vs, rest)
  {
    ElemsStepReads(elem, position, len, data, vs[0], r1, bigEndian, ext);
    RoundTrip.ConsTail(vs);
  }

  lemma FixedCons(shapes: seq<Shape>, expecting: string, i: nat, data: seq<u8>, vs: seq<Value>, r1: seq<u8>,
                  rest: seq<u8>, bigEndian: bool, ext: Externals)
    requires vs != [] && i + |vs| == |shapes|
    requires Decode(shapes[i], data, bigEndian, ext) == Parsed(vs[0], r1)
    requires DecodeFixed(shapes, expecting, i + 1, |shapes|, r1, bigEndian, ext) == Parsed(vs[1..], rest)
    ensures DecodeFixed(shapes, expecting, i, |shapes|, data, bigEndian, ext) == Parsed(vs, rest)
  {
    FixedStepReads(shapes, expecting, i, |shapes|, data, vs[0], r1, bigEndian, ext);
    RoundTrip.ConsTail(vs);
  }

  lemma EntriesCons(k: Shape, v: Shape, position: nat, len: nat, data: seq<u8>, es: seq<Entry>, r1: seq<u8>,
                    rest: seq<u8>, bigEndian: bool, ext: Externals)
    requires es != []
    requires EntryStep(position, len, k, v, data, bigEndian, ext) == Parsed(Some(es[0]), r1)
    requires DecodeEntries(k, v, position + 1, len, r1, bigEndian, ext) == Parsed(es[1..], rest)
    ensures DecodeEntries(k, v, position, len, data, bigEndian, ext) == Parsed(es, rest)
  {
    EntriesStepReads(k, v, position, len, data, es[0], r1, bigEndian, ext);
    RoundTrip.ConsTail(es);
  }

  /* The header of a collection, struct or variant around contents already read back. */

  lemma SeqFromElems(es: seq<Value>, s: Shape, rest: seq<u8>, bigEndian: bool, ext: Externals)
    requires s.SeqS? && Sound(ext) && IsUsize(|es|) && Writable(es)
    requires DecodeElems(s.elem, 0, |es|, EmitAll(es, bigEndian, ext) + rest, bigEndian, ext) == Parsed(es, rest)
    ensures Decode(s, Emit(Seq(es), bigEndian, ext) + rest, bigEndian, ext) == Parsed(Seq(es), rest)
  {
    var body := EmitAll(es, bigEndian, ext);
    CountedBytes(Seq(es), es, rest, bigEndian, ext);
    NextUsizeReadsHeader(|es|, body + rest, ext);
    SeqReads(s, ext.compress(|es|) + (body + rest), |es|, body + rest, es, rest, bigEndian, ext);
  }

  lemma TupleFromFields(es: seq<Value>, s: Shape, rest: seq<u8>, bigEndian: bool, ext: Externals)
    requires s.TupleS? && Sound(ext) && |es| == |s.elems| && IsUsize(|es|) && Writable(es)
    requires DecodeFixed(s.elems, s.expecting, 0, |s.elems|, EmitAll(es, bigEndian, ext) + rest, bigEndian, ext)
             == Parsed(es, rest)
    ensures Decode(s, Emit(Seq(es), bigEndian, ext) + rest, bigEndian, ext) == Parsed(Seq(es), rest)
  {
    var body := EmitAll(es, bigEndian, ext);
    CountedBytes(Seq(es), es, rest, bigEndian, ext);
    CountedFields(s.elems, s.expecting, es, rest, bigEndian, ext);
    TupleReads(s, ext.compress(|es|) + (body + rest), es, rest, bigEndian, ext);
  }

  lemma MapFromEntries(es: seq<Entry>, s: Shape, rest: seq<u8>, bigEndian: bool, ext: Externals)
    requires s.MapS? && Sound(ext) && IsUsize(|es|) && WritableEntries(es)
    requires DecodeEntries(s.key, s.val, 0, |es|, EmitEntries(es, bigEndian, ext) + rest, bigEndian, ext)
             == Parsed(es, rest)
    ensures Decode(s, Emit(Map(es), bigEndian, ext) + rest, bigEndian, ext) == Parsed(Map(es), rest)
  {
    var body := EmitEntries(es, bigEndian, ext);
    MapBytes(es, rest, bigEndian, ext);
    NextUsizeReadsHeader(|es|, body + rest, ext);
    MapReads(s, ext.compress(|es|) + (body + rest), |es|, body + rest, es, rest, bigEndian, ext);
  }

  lemma StructFromFields(name: string, fs: seq<Value>, s: Shape, rest: seq<u8>, bigEndian: bool, ext: Externals)
    requires s.StructS? && s.name == name && Sound(ext) && |fs| == |s.fields| && IsUsize(|fs|) && Writable(fs)
    requires DecodeFixed(s.fields, s.expecting, 0, |s.fields|, EmitAll(fs, bigEndian, ext) + rest, bigEndian, ext)
             == Parsed(fs, rest)
    ensures Decode(s, Emit(Struct(name, fs), bigEndian, ext) + rest, bigEndian, ext) == Parsed(Struct(name, fs), rest)
  {
    var body := EmitAll(fs, bigEndian, ext);
    CountedBytes(Struct(name, fs), fs, rest, bigEndian, ext);
    CountedFields(s.fields, s.expecting, fs, rest, bigEndian, ext);
    StructReads(s, ext.compress(|fs|) + (body + rest), fs, rest, bigEndian, ext);
  }

  lemma NewtypeVariantFromInner(name: string, idx: nat, x: Value, s: Shape, rest: seq<u8>, bigEndian: bool,
                                ext: Externals)
    requires Fits(NewtypeVariant(name, idx, x), s) && Sound(ext) && NoByteBuf(x)
    requires Decode(s.variants[idx].inner, Emit(x, bigEndian, ext) + rest, bigEndian, ext) == Parsed(x, rest)
    ensures Decode(s, Emit(NewtypeVariant(name, idx, x), bigEndian, ext) + rest, bigEndian, ext)
            == Parsed(NewtypeVariant(name, idx, x), rest)
  {
    var u := Ser.U32Bytes(idx, bigEndian);
    var body := Emit(x, bigEndian, ext);
    NewtypeVariantBytes(name, idx, x, rest, bigEndian, ext);
    NextU32Reads(idx, body + rest, bigEndian);
    EnumDataReads(s, [ext.nonunitVariant] + (u + (body + rest)), idx, body + rest, bigEndian, ext);
    NewtypeVariantReads(s, idx, body + rest, x, rest, bigEndian, ext);
  }

  lemma TupleVariantFromFields(name: string, idx: nat, es: seq<Value>, s: Shape, rest: seq<u8>, bigEndian: bool,
                               ext: Externals)
    requires Fits(TupleVariant(name, idx, es), s) && Sound(ext) && Writable(es)
    requires DecodeFixed(s.variants[idx].elems, s.variants[idx].expecting, 0, |s.variants[idx].elems|,
                         EmitAll(es, bigEndian, ext) + rest, bigEndian, ext)
             == Parsed(es, rest)
    ensures Decode(s, Emit(TupleVariant(name, idx, es), bigEndian, ext) + rest, bigEndian, ext)
            == Parsed(TupleVariant(name, idx, es), rest)
  {
    var variant := s.variants[idx];
    var u := Ser.U32Bytes(idx, bigEndian);
    var counted := ext.compress(|es|) + (EmitAll(es, bigEndian, ext) + rest);
    DataVariantBytes(TupleVariant(name, idx, es), es, rest, bigEndian, ext);
    NextU32Reads(idx, counted, bigEndian);
    EnumDataReads(s, [ext.nonunitVariant] + (u + counted), idx, counted, bigEndian, ext);
    CountedFields(variant.elems, variant.expecting, es, rest, bigEndian, ext);
    TupleVariantReads(s, idx, counted, es, rest, bigEndian, ext);
  }

  lemma StructVariantFromFields(name: string, idx: nat, fs: seq<Value>, s: Shape, rest: seq<u8>, bigEndian: bool,
                                ext: Externals)
    requires Fits(StructVariant(name, idx, fs), s) && Sound(ext) && Writable(fs)
    requires DecodeFixed(s.variants[idx].fields, s.variants[idx].expecting, 0, |s.variants[idx].fields|,
                         EmitAll(fs, bigEndian, ext) + rest, bigEndian, ext)
             == Parsed(fs, rest)
    ensures Decode(s, Emit(StructVariant(name, idx, fs), bigEndian, ext) + rest, bigEndian, ext)
            == Parsed(StructVariant(name, idx, fs), rest)
  {
    var variant := s.variants[idx];
    var u := Ser.U32Bytes(idx, bigEndian);
    var counted := ext.compress(|fs|) + (EmitAll(fs, bigEndian, ext) + rest);
    DataVariantBytes(StructVariant(name, idx, fs), fs, rest, bigEndian, ext);
    NextU32Reads(idx, counted, bigEndian);
    EnumDataReads(s, [STRUCT_VARIANT] + (u + counted), idx, counted, bigEndian, ext);
    CountedFields(variant.fields, variant.expecting, fs, rest, bigEndian, ext);
    StructVariantReads(s, idx, counted, fs, rest, bigEndian, ext);
  }

  /** A count in front of fields already read back is `DecodeSeqOf`. */
  lemma CountedFields(shapes: seq<Shape>, expecting: string, vs: seq<Value>, rest: seq<u8>, bigEndian: bool,
                      ext: Externals)
    requires Sound(ext) && |vs| == |shapes| && IsUsize(|vs|) && Writable(vs)
    requires DecodeFixed(shapes, expecting, 0, |shapes|, EmitAll(vs, bigEndian, ext) + rest, bigEndian, ext)
             == Parsed(vs, rest)
    ensures DecodeSeqOf(shapes, expecting, ext.compress(|vs|) + (EmitAll(vs, bigEndian, ext) + rest), bigEndian, ext)
            == Parsed(vs, rest)
  {
    var body := EmitAll(vs, bigEndian, ext);
    NextUsizeReadsHeader(|vs|, body + rest, ext);
    SeqOfReads(shapes, expecting, ext.compress(|vs|) + (body + rest), |vs|, body + rest, vs, rest, bigEndian, ext);
  }

  /* What the serializer writes, grouped as the deserializer reads it. */

  lemma AllBytes(vs: seq<Value>, rest: seq<u8>, bigEndian: bool, ext: Externals)
    requires vs != [] && Writable(vs)
    ensures EmitAll(vs, bigEndian, ext) + rest
            == Emit(vs[0], bigEndian, ext) + (EmitAll(vs[1..], bigEndian, ext) + rest)
  {
    AppendAssoc(Emit(vs[0], bigEndian, ext), EmitAll(vs[1..], bigEndian, ext), rest);
  }

  lemma EntriesBytes(es: seq<Entry>, rest: seq<u8>, bigEndian: bool, ext: Externals)
    requires es != [] && WritableEntries(es)
    ensures EmitEntries(es, bigEndian, ext) + rest
            == EmitEntry(es[0], bigEndian, ext) + (EmitEntries(es[1..], bigEndian, ext) + rest)
  {
    var e := es[0];
    assert NoByteBuf(e.key) && NoByteBuf(e.val);
    AppendAssoc(EmitEntry(e, bigEndian, ext), EmitEntries(es[1..], bigEndian, ext), rest);
  }

  /** A `Vec`, a tuple or a struct: the count, then the items. */
  lemma CountedBytes(v: Value, items: seq<Value>, rest: seq<u8>, bigEndian: bool, ext: Externals)
    requires (v == Seq(items) || (v.Struct? && v.fields == items)) && Writable(items)
    ensures Emit(v, bigEndian, ext) + rest
            == ext.compress(|items|) + (EmitAll(items, bigEndian, ext) + rest)
  {
    AppendAssoc(ext.compress(|items|), EmitAll(items, bigEndian, ext), rest);
  }

  lemma MapBytes(es: seq<Entry>, rest: seq<u8>, bigEndian: bool, ext: Externals)
    requires WritableEntries(es)
    ensures Emit(Map(es), bigEndian, ext) + rest
            == ext.compress(|es|) + (EmitEntries(es, bigEndian, ext) + rest)
  {
    AppendAssoc(ext.compress(|es|), EmitEntries(es, bigEndian, ext), rest);
  }

  lemma NewtypeVariantBytes(name: string, idx: nat, x: Value, rest: seq<u8>, bigEndian: bool, ext: Externals)
    requires NoByteBuf(x)
    ensures Emit(NewtypeVariant(name, idx, x), bigEndian, ext) + rest
            == [ext.nonunitVariant] + (Ser.U32Bytes(idx, bigEndian) + (Emit(x, bigEndian, ext) + rest))
  {
    var u := Ser.U32Bytes(idx, bigEndian);
    var b := Emit(x, bigEndian, ext);
    assert [ext.nonunitVariant] + u + b + rest == [ext.nonunitVariant] + (u + (b + rest));
  }

  /** A tuple or struct variant: the flag, the index, the count, then the fields. */
  lemma DataVariantBytes(v: Value, items: seq<Value>, rest: seq<u8>, bigEndian: bool, ext: Externals)
    requires ((v.TupleVariant? && v.elems == items) || (v.StructVariant? && v.fields == items)) && Writable(items)
    ensures Emit(v, bigEndian, ext) + rest
            == [if v.TupleVariant? then ext.nonunitVariant else STRUCT_VARIANT]
               + (Ser.U32Bytes(v.index, bigEndian) + (ext.compress(|items|) + (EmitAll(items, bigEndian, ext) + rest)))
  {
    var flag := if v.TupleVariant? then ext.nonunitVariant else STRUCT_VARIANT;
    RoundTrip.AppendAssoc4([flag], Ser.U32Bytes(v.index, bigEndian), ext.compress(|items|),
                           EmitAll(items, bigEndian, ext), rest);
  }

  /* How the stream decoders compose: each lemma below unfolds one of them once. */

  lemma OptionReads(inner: Shape, data: seq<u8>, x: Value, rest: seq<u8>, bigEndian: bool, ext: Externals)
    requires |data| > 0 && data[0] == SOME
    requires Decode(inner, data[1..], bigEndian, ext) == Parsed(x, rest)
    ensures Decode(OptS(inner), data, bigEndian, ext) == Parsed(OptSome(x), rest)
  {
    OptionIsDecodeOption(inner, data, bigEndian, ext);
    OptionSomeReads(inner, data, x, rest, bigEndian, ext);
  }

  lemma OptionIsDecodeOption(inner: Shape, data: seq<u8>, bigEndian: bool, ext: Externals)
    ensures Decode(OptS(inner), data, bigEndian, ext) == DecodeOption(inner, data, bigEndian, ext)
  {
  }

  lemma OptionSomeReads(inner: Shape, data: seq<u8>, x: Value, rest: seq<u8>, bigEndian: bool, ext: Externals)
    requires |data| > 0 && data[0] == SOME
    requires Decode(inner, data[1..], bigEndian, ext) == Parsed(x, rest)
    ensures DecodeOption(inner, data, bigEndian, ext) == Parsed(OptSome(x), rest)
  {
    assert De.Next(data) == Parsed(SOME, data[1..]);
  }

  lemma SeqReads(s: Shape, data: seq<u8>, n: nat, r1: seq<u8>, xs: seq<Value>, rest: seq<u8>,
                 bigEndian: bool, ext: Externals)
    requires s.SeqS? && NextUsize(data, ext) == Parsed(n, r1)
    requires DecodeElems(s.elem, 0, n, r1, bigEndian, ext) == Parsed(xs, rest)
    ensures Decode(s, data, bigEndian, ext) == Parsed(Seq(xs), rest)
  {
  }

  lemma SeqOfReads(shapes: seq<Shape>, expecting: string, data: seq<u8>, n: nat, r1: seq<u8>, xs: seq<Value>,
                   rest: seq<u8>, bigEndian: bool, ext: Externals)
    requires NextUsize(data, ext) == Parsed(n, r1)
    requires DecodeFixed(shapes, expecting, 0, n, r1, bigEndian, ext) == Parsed(xs, rest)
    ensures DecodeSeqOf(shapes, expecting, data, bigEndian, ext) == Parsed(xs, rest)
  {
  }

  lemma TupleReads(s: Shape, data: seq<u8>, xs: seq<Value>, rest: seq<u8>, bigEndian: bool, ext: Externals)
    requires s.TupleS? && DecodeSeqOf(s.elems, s.expecting, data, bigEndian, ext) == Parsed(xs, rest)
    ensures Decode(s, data, bigEndian, ext) == Parsed(Seq(xs), rest)
  {
  }

  lemma MapReads(s: Shape, data: seq<u8>, n: nat, r1: seq<u8>, es: seq<Entry>, rest: seq<u8>,
                 bigEndian: bool, ext: Externals)
    requires s.MapS? && NextUsize(data, ext) == Parsed(n, r1)
    requires DecodeEntries(s.key, s.val, 0, n, r1, bigEndian, ext) == Parsed(es, rest)
    ensures Decode(s, data, bigEndian, ext) == Parsed(Map(es), rest)
  {
    assert DecodeMapEntries(s.key, s.val, data, bigEndian, ext) == Parsed(es, rest);
  }

  lemma StructReads(s: Shape, data: seq<u8>, xs: seq<Value>, rest: seq<u8>, bigEndian: bool, ext: Externals)
    requires s.StructS? && DecodeSeqOf(s.fields, s.expecting, data, bigEndian, ext) == Parsed(xs, rest)
    ensures Decode(s, data, bigEndian, ext) == Parsed(Struct(s.name, xs), rest)
  {
  }

  lemma UnitVariantReads(s: Shape, data: seq<u8>, idx: nat, rest: seq<u8>, bigEndian: bool, ext: Externals)
    requires s.EnumS? && idx < |s.variants| && s.variants[idx].UnitV?
    requires |data| > 0 && data[0] == UNIT_VARIANT && ext.nonunitVariant != UNIT_VARIANT
    requires NextU32(data[1..], bigEndian) == Parsed(idx, rest)
    ensures Decode(s, data, bigEndian, ext) == Parsed(UnitVariant(s.name, idx), rest)
  {
    assert Decode(s, data, bigEndian, ext) == DecodeEnum(s, data, bigEndian, ext);
  }

  lemma EnumDataReads(s: Shape, data: seq<u8>, idx: nat, rest: seq<u8>, bigEndian: bool, ext: Externals)
    requires s.EnumS? && idx < |s.variants|
    requires |data| > 0 && (data[0] == ext.nonunitVariant || data[0] == STRUCT_VARIANT)
    requires NextU32(data[1..], bigEndian) == Parsed(idx, rest)
    ensures Decode(s, data, bigEndian, ext) == DecodeVariant(s, idx, rest, bigEndian, ext)
  {
    EnumIsDecodeEnum(s, data, bigEndian, ext);
    DataTagReads(s, data, idx, rest, bigEndian, ext);
  }

  lemma EnumIsDecodeEnum(s: Shape, data: seq<u8>, bigEndian: bool, ext: Externals)
    requires s.EnumS?
    ensures Decode(s, data, bigEndian, ext) == DecodeEnum(s, data, bigEndian, ext)
  {
  }

  lemma DataTagReads(s: Shape, data: seq<u8>, idx: nat, rest: seq<u8>, bigEndian: bool, ext: Externals)
    requires s.EnumS? && idx < |s.variants|
    requires |data| > 0 && (data[0] == ext.nonunitVariant || data[0] == STRUCT_VARIANT)
    requires NextU32(data[1..], bigEndian) == Parsed(idx, rest)
    ensures DecodeEnum(s, data, bigEndian, ext) == DecodeVariant(s, idx, rest, bigEndian, ext)
  {
    assert De.Next(data) == Parsed(data[0], data[1..]);
  }

  lemma NewtypeVariantReads(s: Shape, idx: nat, data: seq<u8>, x: Value, rest: seq<u8>, bigEndian: bool,
                            ext: Externals)
    requires s.EnumS? && idx < |s.variants| && s.variants[idx].NewtypeV?
    requires Decode(s.variants[idx].inner, data, bigEndian, ext) == Parsed(x, rest)
    ensures DecodeVariant(s, idx, data, bigEndian, ext) == Parsed(NewtypeVariant(s.name, idx, x), rest)
  {
  }

  lemma TupleVariantReads(s: Shape, idx: nat, data: seq<u8>, xs: seq<Value>, rest: seq<u8>, bigEndian: bool,
                          ext: Externals)
    requires s.EnumS? && idx < |s.variants| && s.variants[idx].TupleV?
    requires DecodeSeqOf(s.variants[idx].elems, s.variants[idx].expecting, data, bigEndian, ext) == Parsed(xs, rest)
    ensures DecodeVariant(s, idx, data, bigEndian, ext) == Parsed(TupleVariant(s.name, idx, xs), rest)
  {
  }

  lemma StructVariantReads(s: Shape, idx: nat, data: seq<u8>, xs: seq<Value>, rest: seq<u8>, bigEndian: bool,
                           ext: Externals)
    requires s.EnumS? && idx < |s.variants| && s.variants[idx].StructV?
    requires DecodeSeqOf(s.variants[idx].fields, s.variants[idx].expecting, data, bigEndian, ext) == Parsed(xs, rest)
    ensures DecodeVariant(s, idx, data, bigEndian, ext) == Parsed(StructVariant(s.name, idx, xs), rest)
  {
  }

  lemma ElemsEndReads(elem: Shape, len: nat, data: seq<u8>, bigEndian: bool, ext: Externals)
    ensures DecodeElems(elem, len, len, data, bigEndian, ext) == Parsed([], data)
  {
  }

  lemma ElemsStepReads(elem: Shape, position: nat, len: nat, data: seq<u8>, x: Value, rest: seq<u8>,
                       bigEndian: bool, ext: Externals)
    requires position < len && Decode(elem, data, bigEndian, ext) == Parsed(x, rest)
    ensures DecodeElems(elem, position, len, data, bigEndian, ext)
            == De.Prepend([x], DecodeElems(elem, position + 1, len, rest, bigEndian, ext))
  {
  }

  lemma FixedStepReads(shapes: seq<Shape>, expecting: string, i: nat, len: nat, data: seq<u8>, x: Value,
                       rest: seq<u8>, bigEndian: bool, ext: Externals)
    requires i < |shapes| && i < len && Decode(shapes[i], data, bigEndian, ext) == Parsed(x, rest)
    ensures DecodeFixed(shapes, expecting, i, len, data, bigEndian, ext)
            == De.Prepend([x], DecodeFixed(shapes, expecting, i + 1, len, rest, bigEndian, ext))
  {
  }

  lemma EntryStepReads(k: Shape, v: Shape, position: nat, len: nat, data: seq<u8>, e: Entry, r1: seq<u8>,
                       rest: seq<u8>, bigEndian: bool, ext: Externals)
    requires position < len
    requires Decode(k, data, bigEndian, ext) == Parsed(e.key, r1)
    requires Decode(v, r1, bigEndian, ext) == Parsed(e.val, rest)
    ensures EntryStep(position, len, k, v, data, bigEndian, ext) == Parsed(Some(e), rest)
  {
  }

  lemma EntriesEndReads(k: Shape, v: Shape, len: nat, data: seq<u8>, bigEndian: bool, ext: Externals)
    ensures DecodeEntries(k, v, len, len, data, bigEndian, ext) == Parsed([], data)
  {
  }

  lemma EntriesStepReads(k: Shape, v: Shape, position: nat, len: nat, data: seq<u8>, e: Entry, rest: seq<u8>,
                         bigEndian: bool, ext: Externals)
    requires EntryStep(position, len, k, v, data, bigEndian, ext) == Parsed(Some(e), rest)
    ensures DecodeEntries(k, v, position, len, data, bigEndian, ext)
            == De.Prepend([e], DecodeEntries(k, v, position + 1, len, rest, bigEndian, ext))
  {
  }

  /** `read_bytes` of what `write_bytes` wrote to an empty sink: the value, and nothing left to read. */
  lemma WriteThenRead(v: Value, s: Shape, bigEndian: bool, ext: Externals)
    requires Sound(ext) && Fits(v, s) && NoByteBuf(v) && NarrowChars(v)
    ensures Decode(s, Emit(v, bigEndian, ext), bigEndian, ext) == Parsed(v, [])
  {
    ValueRoundTrip(v, s, [], bigEndian, ext);
    RoundTrip.AppendEmpty(Emit(v, bigEndian, ext));
  }

  /**
   * Two values of one type never share an encoding, and the encoding of one
   * is never a proper prefix of the encoding of another.
   */
  lemma EncodingInjective(v: Value, w: Value, s: Shape, rest: seq<u8>, rest': seq<u8>, bigEndian: bool,
                          ext: Externals)
    requires Sound(ext) && Fits(v, s) && Fits(w, s) && NoByteBuf(v) && NoByteBuf(w)
    requires NarrowChars(v) && NarrowChars(w)
    requires Emit(v, bigEndian, ext) + rest == Emit(w, bigEndian, ext) + rest'
    ensures v == w && rest == rest'
  {
    ValueRoundTrip(v, s, rest, bigEndian, ext);
    ValueRoundTrip(w, s, rest', bigEndian, ext);
  }

  /* The character decoder as written. */

  /**
   * As written, `deserialize_char` reads one byte too many after the lead
   * byte of a three- or four-byte character, so no such character is read
   * back from its own encoding, whatever follows it.
   */
  lemma CharAsWrittenOverreads(c: char, rest: seq<u8>)
    requires |Utf8.EncodeChar(c)| >= 3
    ensures DecodeCharAsWritten(Utf8.EncodeChar(c) + rest) != Parsed(Char(c), rest)
  {
    var bs := Utf8.EncodeChar(c);
    var data := bs + rest;
    Utf8.EncodeCharScans(c, rest);
    assert data[0] == bs[0] && Utf8.LeadWidth(bs[0]) == |bs|;
    assert ExtraBytesAsWritten(bs[0]) == Some(|bs|);
    var r1 := data[1..];
    assert |r1| == |bs| - 1 + |rest|;
    var taken := Take(r1, |bs|);
    if taken.Parsed? {
      assert |taken.rest| == |rest| - 1;
      assert DecodeCharAsWritten(data).rest == taken.rest;
    } else {
      assert DecodeCharAsWritten(data).Failed?;
    }
  }

  /** The three-byte character of the crate's own test, U+0C08, read back alone: the reader runs dry. */
  lemma CharAsWrittenThreeByteExample()
    ensures Utf8.EncodeChar('\U{0C08}') == [0xE0, 0xB0, 0x88]
    ensures DecodeCharAsWritten(Utf8.EncodeChar('\U{0C08}')) == Failed(UnexpectedEndOfInput, [])
    ensures DecodeChar(Utf8.EncodeChar('\U{0C08}')) == Parsed(Char('\U{0C08}'), [])
  {
    CharRoundTrip('\U{0C08}', []);
    assert Utf8.EncodeChar('\U{0C08}') + [] == Utf8.EncodeChar('\U{0C08}');
  }
}
