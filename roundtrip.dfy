/**
 * The in-memory format read back: what `Serializer` writes for a value,
 * `Deserializer` reads as the same value, and leaves whatever followed it.
 *
 * This holds for a value of the target type (`Fits`) under a sound length
 * codec, provided the value holds no 128-bit integer (which the serializer
 * refuses) and no data-carrying enum variant (which the serializer writes as
 * a bare index but the deserializer reads as a tag and a variant name).
 */
module RoundTrip {
  import opened Bytes
  import opened Options
  import opened BinaryErrors
  import opened Common
  import opened DataModel
  import Utf8
  import opened Ser
  import opened De

  /** The values `Serializer` and `Deserializer` agree on. */
  predicate Portable(v: Value)
  {
    NoDataVariant(v) && No128(v)
  }

  /** `next_usize` reads back exactly the header `compress_usize` wrote. */
  lemma NextUsizeReadsHeader(n: nat, rest: seq<u8>, ext: Externals)
    requires Sound(ext) && n < USIZE_LIMIT
    ensures NextUsize(ext.compress(n) + rest, ext) == Parsed(n, rest)
  {
    var h := ext.compress(n);
    var data := h + rest;
    assert Framed(h) && ext.decompress(h) == Ok(n);
    assert data[0] == h[0];
    if h[0] < 0x80 {
      assert h == [h[0]];
      assert data[1..] == rest;
    } else {
      assert data[1..] == [h[1]] + h[2..] + rest;
      assert data[1..][1..] == h[2..] + rest;
      assert h == [h[0], h[1]] + h[2..];
    }
  }

  /** `take_string` reads back what `serialize_str` wrote. */
  lemma TakeStringReads(str: string, rest: seq<u8>, ext: Externals)
    requires Sound(ext) && IsUsize(|Utf8.EncodeString(str)|)
    ensures TakeString(StrBytes(str, ext) + rest, ext) == Parsed(str, rest)
  {
    var bytes := Utf8.EncodeString(str);
    assert StrBytes(str, ext) + rest == ext.compress(|bytes|) + (bytes + rest);
    NextUsizeReadsHeader(|bytes|, bytes + rest, ext);
    assert Take(bytes + rest, |bytes|) == Parsed(bytes, rest);
    Utf8.EncodeStringRoundTrip(str);
  }

  /** `deserialize_bytes` reads back what `serialize_bytes` wrote. */
  lemma BytesReads(bs: seq<u8>, rest: seq<u8>, ext: Externals)
    requires Sound(ext) && IsUsize(|bs|)
    ensures DecodeBytes(ext.compress(|bs|) + bs + rest, ext) == Parsed(ByteBuf(bs), rest)
  {
    assert ext.compress(|bs|) + bs + rest == ext.compress(|bs|) + (bs + rest);
    NextUsizeReadsHeader(|bs|, bs + rest, ext);
    assert Take(bs + rest, |bs|) == Parsed(bs, rest);
  }

  /** A character is read back from its UTF-8 bytes. */
  lemma CharRoundTrip(c: char, rest: seq<u8>)
    ensures DecodeChar(Utf8.EncodeChar(c) + rest) == Parsed(Char(c), rest)
  {
    var bs := Utf8.EncodeChar(c);
    Utf8.EncodeCharScans(c, rest);
    assert (bs + rest)[0] == bs[0];
    assert CharWidth(bs[0]) == |bs|;
    assert Take(bs + rest, |bs|) == Parsed(bs, rest);
    Utf8.EncodeCharRoundTrip(c);
  }

  /** An integer of any width but 128 bits is read back from the bytes `serialize_num` wrote. */
  lemma IntRoundTrip(t: IntType, i: int, rest: seq<u8>, bigEndian: bool)
    requires t.Contains(i) && t != U128 && t != I128
    ensures DecodeInt(t, ToBytes(t, i, bigEndian) + rest, bigEndian) == Parsed(Int(t, i), rest)
  {
    var bs := ToBytes(t, i, bigEndian);
    Bytes.IntRoundTrip(t, i, bigEndian);
    if t == U8 || t == I8 {
      assert bs == [bs[0]];
      assert (bs + rest)[1..] == rest;
    } else {
      assert Take(bs + rest, t.Width()) == Parsed(bs, rest);
    }
  }

  /** A unit variant is read back from its flag and index. */
  lemma UnitVariantRoundTrip(v: Value, s: Shape, rest: seq<u8>, bigEndian: bool, ext: Externals)
    requires v.UnitVariant? && Fits(v, s)
    ensures DecodeEnum(s, [UNIT_VARIANT] + U32Bytes(v.index, bigEndian) + rest, bigEndian, ext) == Parsed(v, rest)
  {
    var idx := v.index;
    var u := U32Bytes(idx, bigEndian);
    assert ([UNIT_VARIANT] + u + rest)[1..] == u + rest;
    Bytes.IntRoundTrip(U32, idx, bigEndian);
    assert Take(u + rest, 4) == Parsed(u, rest);
    assert NextU32(u + rest, bigEndian) == Parsed(idx, rest);
  }

  /** A value with nothing inside it is read back from its bytes. */
  lemma LeafRoundTrip(v: Value, s: Shape, rest: seq<u8>, bigEndian: bool, ext: Externals)
    requires v.Bool? || v.Int? || v.Char? || v.Str? || v.ByteBuf? || v.OptNone? || v.Unit? || v.UnitVariant?
    requires Sound(ext) && Fits(v, s) && Portable(v)
    ensures Emit(v, bigEndian, ext).error == None
    ensures Decode(s, Emit(v, bigEndian, ext).bytes + rest, bigEndian, ext) == Parsed(v, rest)
  {
    if v.Bool? || v.Int? || v.Char? {
      ScalarRoundTrip(v, s, rest, bigEndian, ext);
    } else {
      MarkerRoundTrip(v, s, rest, bigEndian, ext);
    }
  }

  /** A `bool`, an integer or a `char` is read back from its bytes. */
  lemma ScalarRoundTrip(v: Value, s: Shape, rest: seq<u8>, bigEndian: bool, ext: Externals)
    requires v.Bool? || v.Int? || v.Char?
    requires Fits(v, s) && Portable(v)
    ensures Emit(v, bigEndian, ext).error == None
    ensures Decode(s, Emit(v, bigEndian, ext).bytes + rest, bigEndian, ext) == Parsed(v, rest)
  {
    match v
    case Bool(b) =>
      DropOne(if b then 1 else 0, rest);
    case Int(t, i) =>
      IntRoundTrip(t, i, rest, bigEndian);
    case Char(c) =>
      CharRoundTrip(c, rest);
  }

  /** A string, a byte buffer, `None`, unit or a unit variant is read back from its bytes. */
  lemma MarkerRoundTrip(v: Value, s: Shape, rest: seq<u8>, bigEndian: bool, ext: Externals)
    requires v.Str? || v.ByteBuf? || v.OptNone? || v.Unit? || v.UnitVariant?
    requires Sound(ext) && Fits(v, s)
    ensures Emit(v, bigEndian, ext).error == None
    ensures Decode(s, Emit(v, bigEndian, ext).bytes + rest, bigEndian, ext) == Parsed(v, rest)
  {
    match v
    case Str(str) =>
      TakeStringReads(str, rest, ext);
    case ByteBuf(bs) =>
      BytesReads(bs, rest, ext);
    case OptNone =>
      DropOne(NONE, rest);
    case Unit =>
    case UnitVariant(_, _) =>
      UnitVariantRoundTrip(v, s, rest, bigEndian, ext);
  }

  /**
   * The round trip: a portable value of the target type is read back from
   * what the serializer appended, whatever follows it, and the serializer
   * reports no error.
   */
  lemma {:induction false} ValueRoundTrip(v: Value, s: Shape, rest: seq<u8>, bigEndian: bool, ext: Externals)
    requires Sound(ext) && Fits(v, s) && Portable(v)
    ensures Emit(v, bigEndian, ext).error == None
    ensures Decode(s, Emit(v, bigEndian, ext).bytes + rest, bigEndian, ext) == Parsed(v, rest)
    decreases v, 2
  {
    if v.OptSome? {
      OptionRoundTrip(v.inner, s.inner, rest, bigEndian, ext);
    } else if v.Seq? && s.SeqS? {
      SeqRoundTrip(v.elems, s, rest, bigEndian, ext);
    } else if v.Seq? {
      TupleRoundTrip(v.elems, s, rest, bigEndian, ext);
    } else if v.Map? {
      MapRoundTrip(v.entries, s, rest, bigEndian, ext);
    } else if v.Struct? {
      StructRoundTrip(v.name, v.fields, s, rest, bigEndian, ext);
    } else {
      LeafRoundTrip(v, s, rest, bigEndian, ext);
    }
  }

  /** `Some(x)` is read back from `SOME` and the bytes of `x`. */
  lemma OptionRoundTrip(x: Value, inner: Shape, rest: seq<u8>, bigEndian: bool, ext: Externals)
    requires Sound(ext) && Fits(x, inner) && Portable(x)
    ensures Emit(OptSome(x), bigEndian, ext).error == None
    ensures Decode(OptS(inner), Emit(OptSome(x), bigEndian, ext).bytes + rest, bigEndian, ext) == Parsed(OptSome(x), rest)
    decreases x, 3
  {
    var b := Emit(x, bigEndian, ext).bytes;
    var data := [SOME] + (b + rest);
    ValueRoundTrip(x, inner, rest, bigEndian, ext);
    AppendAssoc([SOME], b, rest);
    DropOne(SOME, b + rest);
    OptionReads(inner, data, x, rest, bigEndian, ext);
  }

  /** A `Vec` is read back from its count and its elements. */
  lemma SeqRoundTrip(es: seq<Value>, s: Shape, rest: seq<u8>, bigEndian: bool, ext: Externals)
    requires s.SeqS? && Sound(ext) && IsUsize(|es|)
    requires forall j :: 0 <= j < |es| ==> Fits(es[j], s.elem) && Portable(es[j])
    ensures Emit(Seq(es), bigEndian, ext).error == None
    ensures Decode(s, Emit(Seq(es), bigEndian, ext).bytes + rest, bigEndian, ext) == Parsed(Seq(es), rest)
    decreases es, 2
  {
    ElemsRoundTrip(s.elem, 0, |es|, es, rest, bigEndian, ext);
    SeqFromElems(es, s, rest, bigEndian, ext);
  }

  /** A tuple or an array is read back from its count and its elements. */
  lemma TupleRoundTrip(es: seq<Value>, s: Shape, rest: seq<u8>, bigEndian: bool, ext: Externals)
    requires s.TupleS? && Sound(ext) && FitsAll(es, s.elems)
    requires forall j :: 0 <= j < |es| ==> Portable(es[j])
    ensures Emit(Seq(es), bigEndian, ext).error == None
    ensures Decode(s, Emit(Seq(es), bigEndian, ext).bytes + rest, bigEndian, ext) == Parsed(Seq(es), rest)
    decreases es, 3
  {
    FixedRoundTrip(s.elems, s.expecting, 0, es, rest, bigEndian, ext);
    TupleFromFields(es, s, rest, bigEndian, ext);
  }

  /** A map is read back from its count and its entries. */
  lemma MapRoundTrip(es: seq<Entry>, s: Shape, rest: seq<u8>, bigEndian: bool, ext: Externals)
    requires s.MapS? && Sound(ext) && IsUsize(|es|)
    requires forall j :: 0 <= j < |es| ==>
      Fits(es[j].key, s.key) && Fits(es[j].val, s.val) && Portable(es[j].key) && Portable(es[j].val)
    ensures Emit(Map(es), bigEndian, ext).error == None
    ensures Decode(s, Emit(Map(es), bigEndian, ext).bytes + rest, bigEndian, ext) == Parsed(Map(es), rest)
    decreases es, 2
  {
    EntriesRoundTrip(s.key, s.val, 0, |es|, es, rest, bigEndian, ext);
    MapFromEntries(es, s, rest, bigEndian, ext);
  }

  /** A struct is read back from its flag, its name, its count and its fields. */
  lemma StructRoundTrip(name: string, fs: seq<Value>, s: Shape, rest: seq<u8>, bigEndian: bool, ext: Externals)
    requires s.StructS? && s.name == name && Sound(ext) && IsUsize(|Utf8.EncodeString(name)|)
    requires FitsAll(fs, s.fields) && forall j :: 0 <= j < |fs| ==> Portable(fs[j])
    ensures Emit(Struct(name, fs), bigEndian, ext).error == None
    ensures Decode(s, Emit(Struct(name, fs), bigEndian, ext).bytes + rest, bigEndian, ext) == Parsed(Struct(name, fs), rest)
    decreases fs, 3
  {
    FixedRoundTrip(s.fields, s.expecting, 0, fs, rest, bigEndian, ext);
    NamedStructFromFields(name, fs, s, rest, bigEndian, ext);
    StructFromFields(name, fs, s, rest, bigEndian, ext);
  }

  /** The `Vec` visitor from `position` on reads back the elements that are left. */
  lemma {:induction false} ElemsRoundTrip(elem: Shape, position: nat, len: nat, vs: seq<Value>,
                                          rest: seq<u8>, bigEndian: bool, ext: Externals)
    requires Sound(ext) && position + |vs| == len
    requires forall j :: 0 <= j < |vs| ==> Fits(vs[j], elem) && Portable(vs[j])
    ensures EmitAll(vs, bigEndian, ext).error == None
    ensures DecodeElems(elem, position, len, EmitAll(vs, bigEndian, ext).bytes + rest, bigEndian, ext)
            == Parsed(vs, rest)
    decreases vs, 1
  {
    if vs == [] {
      AppendNil(rest);
      ElemsEndReads(elem, len, rest, bigEndian, ext);
    } else {
      var others := EmitAll(vs[1..], bigEndian, ext).bytes;
      ValueRoundTrip(vs[0], elem, others + rest, bigEndian, ext);
      ElemsRoundTrip(elem, position + 1, len, vs[1..], rest, bigEndian, ext);
      AllBytes(vs, rest, bigEndian, ext);
      ElemsCons(elem, position, len, Emit(vs[0], bigEndian, ext).bytes + (others + rest), vs, others + rest, rest,
                bigEndian, ext);
    }
  }

  /** The visitor of a tuple or struct from field `i` on reads back the fields that are left. */
  lemma {:induction false} FixedRoundTrip(shapes: seq<Shape>, expecting: string, i: nat, vs: seq<Value>,
                                          rest: seq<u8>, bigEndian: bool, ext: Externals)
    requires Sound(ext) && i + |vs| == |shapes|
    requires forall j :: 0 <= j < |vs| ==> Fits(vs[j], shapes[i + j]) && Portable(vs[j])
    ensures EmitAll(vs, bigEndian, ext).error == None
    ensures DecodeFixed(shapes, expecting, i, |shapes|, EmitAll(vs, bigEndian, ext).bytes + rest, bigEndian, ext)
            == Parsed(vs, rest)
    decreases vs, 1
  {
    if vs == [] {
      AppendNil(rest);
    } else {
      FixedTail(shapes, i, vs);
      var others := EmitAll(vs[1..], bigEndian, ext).bytes;
      ValueRoundTrip(vs[0], shapes[i], others + rest, bigEndian, ext);
      FixedRoundTrip(shapes, expecting, i + 1, vs[1..], rest, bigEndian, ext);
      AllBytes(vs, rest, bigEndian, ext);
      FixedCons(shapes, expecting, i, Emit(vs[0], bigEndian, ext).bytes + (others + rest), vs, others + rest, rest,
                bigEndian, ext);
    }
  }

  /** The first field fits the shape at `i`, and the others fit the shapes after it. */
  lemma FixedTail(shapes: seq<Shape>, i: nat, vs: seq<Value>)
    requires vs != [] && i + |vs| == |shapes|
    requires forall j :: 0 <= j < |vs| ==> Fits(vs[j], shapes[i + j]) && Portable(vs[j])
    ensures Fits(vs[0], shapes[i]) && Portable(vs[0])
    ensures forall j :: 0 <= j < |vs[1..]| ==> Fits(vs[1..][j], shapes[i + 1 + j]) && Portable(vs[1..][j])
  {
    assert Fits(vs[0], shapes[i + 0]) && Portable(vs[0]);
    forall j | 0 <= j < |vs[1..]|
      ensures Fits(vs[1..][j], shapes[i + 1 + j]) && Portable(vs[1..][j])
    {
      assert Fits(vs[j + 1], shapes[i + (j + 1)]) && Portable(vs[j + 1]);
    }
  }

  /** The map visitor from `position` on reads back the entries that are left. */
  lemma {:induction false} EntriesRoundTrip(k: Shape, v: Shape, position: nat, len: nat, es: seq<Entry>,
                                            rest: seq<u8>, bigEndian: bool, ext: Externals)
    requires Sound(ext) && position + |es| == len
    requires EntriesFit(es, k, v)
    ensures EmitEntries(es, bigEndian, ext).error == None
    ensures DecodeEntries(k, v, position, len, EmitEntries(es, bigEndian, ext).bytes + rest, bigEndian, ext)
            == Parsed(es, rest)
    decreases es, 1
  {
    if es == [] {
      AppendNil(rest);
      EntriesEndReads(k, v, len, rest, bigEndian, ext);
    } else {
      var e := es[0];
      var others := EmitEntries(es[1..], bigEndian, ext).bytes;
      EntriesFitTail(es, k, v);
      FirstEntryRoundTrip(k, v, position, len, es, others + rest, bigEndian, ext);
      EntriesRoundTrip(k, v, position + 1, len, es[1..], rest, bigEndian, ext);
      EntriesBytes(es, rest, bigEndian, ext);
      EntriesCons(k, v, position, len, EmitEntry(e, bigEndian, ext).bytes + (others + rest), es, others + rest, rest,
                  bigEndian, ext);
    }
  }

  /** Each key and each value fits its shape and can be read back. */
  predicate EntriesFit(es: seq<Entry>, k: Shape, v: Shape)
  {
    forall j :: 0 <= j < |es| ==>
      Fits(es[j].key, k) && Fits(es[j].val, v) && Portable(es[j].key) && Portable(es[j].val)
  }

  lemma EntriesFitTail(es: seq<Entry>, k: Shape, v: Shape)
    requires es != [] && EntriesFit(es, k, v)
    ensures EntriesFit(es[1..], k, v)
  {
    forall j | 0 <= j < |es[1..]|
      ensures Fits(es[1..][j].key, k) && Fits(es[1..][j].val, v) && Portable(es[1..][j].key) && Portable(es[1..][j].val)
    {
      assert es[1..][j] == es[j + 1];
    }
  }

  /** The first of the entries left is read back by `next_entry`. */
  lemma FirstEntryRoundTrip(k: Shape, v: Shape, position: nat, len: nat, es: seq<Entry>, rest: seq<u8>,
                            bigEndian: bool, ext: Externals)
    requires Sound(ext) && es != [] && position < len
    requires EntriesFit(es, k, v)
    ensures EmitEntry(es[0], bigEndian, ext).error == None
    ensures EntryStep(position, len, k, v, EmitEntry(es[0], bigEndian, ext).bytes + rest, bigEndian, ext)
            == Parsed(Some(es[0]), rest)
    decreases es, 0
  {
    EntryRoundTrip(k, v, position, len, es[0], rest, bigEndian, ext);
  }

  /** One entry is read back by `next_entry` from its key and its value. */
  lemma EntryRoundTrip(k: Shape, v: Shape, position: nat, len: nat, e: Entry, rest: seq<u8>,
                       bigEndian: bool, ext: Externals)
    requires Sound(ext) && position < len
    requires Fits(e.key, k) && Fits(e.val, v) && Portable(e.key) && Portable(e.val)
    ensures EmitEntry(e, bigEndian, ext).error == None
    ensures EntryStep(position, len, k, v, EmitEntry(e, bigEndian, ext).bytes + rest, bigEndian, ext)
            == Parsed(Some(e), rest)
    decreases e, 0
  {
    var key := Emit(e.key, bigEndian, ext).bytes;
    var val := Emit(e.val, bigEndian, ext).bytes;
    ValueRoundTrip(e.val, v, rest, bigEndian, ext);
    ValueRoundTrip(e.key, k, val + rest, bigEndian, ext);
    AppendAssoc(key, val, rest);
    EntryStepReads(k, v, position, len, key + (val + rest), e, val + rest, rest, bigEndian, ext);
  }

  /* One element, field or entry in front of the ones already read back. */

  lemma ElemsCons(elem: Shape, position: nat, len: nat, data: seq<u8>, vs: seq<Value>, r1: seq<u8>, rest: seq<u8>,
                  bigEndian: bool, ext: Externals)
    requires vs != [] && position < len
    requires Decode(elem, data, bigEndian, ext) == Parsed(vs[0], r1)
    requires DecodeElems(elem, position + 1, len, r1, bigEndian, ext) == Parsed(vs[1..], rest)
    ensures DecodeElems(elem, position, len, data, bigEndian, ext) == Parsed(vs, rest)
  {
    ElemsStepReads(elem, position, len, data, vs[0], r1, bigEndian, ext);
    ConsTail(vs);
  }

  lemma FixedCons(shapes: seq<Shape>, expecting: string, i: nat, data: seq<u8>, vs: seq<Value>, r1: seq<u8>,
                  rest: seq<u8>, bigEndian: bool, ext: Externals)
    requires vs != [] && i + |vs| == |shapes|
    requires Decode(shapes[i], data, bigEndian, ext) == Parsed(vs[0], r1)
    requires DecodeFixed(shapes, expecting, i + 1, |shapes|, r1, bigEndian, ext) == Parsed(vs[1..], rest)
    ensures DecodeFixed(shapes, expecting, i, |shapes|, data, bigEndian, ext) == Parsed(vs, rest)
  {
    FixedStepReads(shapes, expecting, i, |shapes|, data, vs[0], r1, bigEndian, ext);
    ConsTail(vs);
  }

  lemma EntriesCons(k: Shape, v: Shape, position: nat, len: nat, data: seq<u8>, es: seq<Entry>, r1: seq<u8>,
                    rest: seq<u8>, bigEndian: bool, ext: Externals)
    requires es != []
    requires EntryStep(position, len, k, v, data, bigEndian, ext) == Parsed(Some(es[0]), r1)
    requires DecodeEntries(k, v, position + 1, len, r1, bigEndian, ext) == Parsed(es[1..], rest)
    ensures DecodeEntries(k, v, position, len, data, bigEndian, ext) == Parsed(es, rest)
  {
    EntriesStepReads(k, v, position, len, data, es[0], r1, bigEndian, ext);
    ConsTail(es);
  }

  /* The bytes of several items: the first item's, then the others'. */

  lemma AllBytes(vs: seq<Value>, rest: seq<u8>, bigEndian: bool, ext: Externals)
    requires vs != []
    requires Emit(vs[0], bigEndian, ext).error == None && EmitAll(vs[1..], bigEndian, ext).error == None
    ensures EmitAll(vs, bigEndian, ext).error == None
    ensures EmitAll(vs, bigEndian, ext).bytes + rest
            == Emit(vs[0], bigEndian, ext).bytes + (EmitAll(vs[1..], bigEndian, ext).bytes + rest)
  {
    AppendAssoc(Emit(vs[0], bigEndian, ext).bytes, EmitAll(vs[1..], bigEndian, ext).bytes, rest);
  }

  lemma EntriesBytes(es: seq<Entry>, rest: seq<u8>, bigEndian: bool, ext: Externals)
    requires es != []
    requires EmitEntry(es[0], bigEndian, ext).error == None && EmitEntries(es[1..], bigEndian, ext).error == None
    ensures EmitEntries(es, bigEndian, ext).error == None
    ensures EmitEntries(es, bigEndian, ext).bytes + rest
            == EmitEntry(es[0], bigEndian, ext).bytes + (EmitEntries(es[1..], bigEndian, ext).bytes + rest)
  {
    AppendAssoc(EmitEntry(es[0], bigEndian, ext).bytes, EmitEntries(es[1..], bigEndian, ext).bytes, rest);
  }

  /* The header of a sequence, map or struct around contents already read back. */

  lemma SeqFromElems(es: seq<Value>, s: Shape, rest: seq<u8>, bigEndian: bool, ext: Externals)
    requires s.SeqS? && Sound(ext) && IsUsize(|es|)
    requires EmitAll(es, bigEndian, ext).error == None
    requires DecodeElems(s.elem, 0, |es|, EmitAll(es, bigEndian, ext).bytes + rest, bigEndian, ext) == Parsed(es, rest)
    ensures Emit(Seq(es), bigEndian, ext).error == None
    ensures Decode(s, Emit(Seq(es), bigEndian, ext).bytes + rest, bigEndian, ext) == Parsed(Seq(es), rest)
  {
    var body := EmitAll(es, bigEndian, ext).bytes;
    var data := ext.compress(|es|) + (body + rest);
    SeqBytes(es, rest, bigEndian, ext);
    NextUsizeReadsHeader(|es|, body + rest, ext);
    SeqReads(s, data, |es|, body + rest, es, rest, bigEndian, ext);
  }

  lemma TupleFromFields(es: seq<Value>, s: Shape, rest: seq<u8>, bigEndian: bool, ext: Externals)
    requires s.TupleS? && Sound(ext) && |es| == |s.elems| && IsUsize(|es|)
    requires EmitAll(es, bigEndian, ext).error == None
    requires DecodeFixed(s.elems, s.expecting, 0, |s.elems|, EmitAll(es, bigEndian, ext).bytes + rest, bigEndian, ext)
             == Parsed(es, rest)
    ensures Emit(Seq(es), bigEndian, ext).error == None
    ensures Decode(s, Emit(Seq(es), bigEndian, ext).bytes + rest, bigEndian, ext) == Parsed(Seq(es), rest)
  {
    var body := EmitAll(es, bigEndian, ext).bytes;
    var data := ext.compress(|es|) + (body + rest);
    SeqBytes(es, rest, bigEndian, ext);
    NextUsizeReadsHeader(|es|, body + rest, ext);
    TupleReads(s, data, |es|, body + rest, es, rest, bigEndian, ext);
  }

  lemma MapFromEntries(es: seq<Entry>, s: Shape, rest: seq<u8>, bigEndian: bool, ext: Externals)
    requires s.MapS? && Sound(ext) && IsUsize(|es|)
    requires EmitEntries(es, bigEndian, ext).error == None
    requires DecodeEntries(s.key, s.val, 0, |es|, EmitEntries(es, bigEndian, ext).bytes + rest, bigEndian, ext)
             == Parsed(es, rest)
    ensures Emit(Map(es), bigEndian, ext).error == None
    ensures Decode(s, Emit(Map(es), bigEndian, ext).bytes + rest, bigEndian, ext) == Parsed(Map(es), rest)
  {
    var body := EmitEntries(es, bigEndian, ext).bytes;
    var data := ext.compress(|es|) + (body + rest);
    MapBytes(es, rest, bigEndian, ext);
    NextUsizeReadsHeader(|es|, body + rest, ext);
    MapReads(s, data, |es|, body + rest, es, rest, bigEndian, ext);
  }

  /** What `serialize_seq` (or `serialize_tuple`) and the elements append, grouped as the deserializer reads it. */
  lemma SeqBytes(es: seq<Value>, rest: seq<u8>, bigEndian: bool, ext: Externals)
    ensures Emit(Seq(es), bigEndian, ext).error == EmitAll(es, bigEndian, ext).error
    ensures Emit(Seq(es), bigEndian, ext).bytes + rest
            == ext.compress(|es|) + (EmitAll(es, bigEndian, ext).bytes + rest)
  {
    AppendAssoc(ext.compress(|es|), EmitAll(es, bigEndian, ext).bytes, rest);
  }

  /** What `serialize_map` and the entries append, grouped as the deserializer reads it. */
  lemma MapBytes(es: seq<Entry>, rest: seq<u8>, bigEndian: bool, ext: Externals)
    ensures Emit(Map(es), bigEndian, ext).error == EmitEntries(es, bigEndian, ext).error
    ensures Emit(Map(es), bigEndian, ext).bytes + rest
            == ext.compress(|es|) + (EmitEntries(es, bigEndian, ext).bytes + rest)
  {
    AppendAssoc(ext.compress(|es|), EmitEntries(es, bigEndian, ext).bytes, rest);
  }

  lemma StructFromFields(name: string, fs: seq<Value>, s: Shape, rest: seq<u8>, bigEndian: bool, ext: Externals)
    requires s.StructS? && s.name == name
    requires EmitAll(fs, bigEndian, ext).error == None
    requires DecodeNamedStruct(s, StrBytes(name, ext) + (ext.compress(|fs|) + (EmitAll(fs, bigEndian, ext).bytes + rest)),
                               bigEndian, ext)
             == Parsed(Struct(name, fs), rest)
    ensures Emit(Struct(name, fs), bigEndian, ext).error == None
    ensures Decode(s, Emit(Struct(name, fs), bigEndian, ext).bytes + rest, bigEndian, ext) == Parsed(Struct(name, fs), rest)
  {
    var named := StrBytes(name, ext) + (ext.compress(|fs|) + (EmitAll(fs, bigEndian, ext).bytes + rest));
    StructBytes(name, fs, rest, bigEndian, ext);
    DropOne(STRUCT, named);
    StructReads(s, [STRUCT] + named, bigEndian, ext);
  }

  /**
   * A struct written under another name is refused by `deserialize_struct`
   * with `InvalidName`, naming the name read and the name expected, just
   * after the name.
   */
  lemma OtherNameRefused(name: string, fs: seq<Value>, s: Shape, rest: seq<u8>, bigEndian: bool, ext: Externals)
    requires s.StructS? && s.name != name && Sound(ext) && IsUsize(|Utf8.EncodeString(name)|)
    ensures Decode(s, Emit(Struct(name, fs), bigEndian, ext).bytes + rest, bigEndian, ext)
            == Failed(InvalidName(name, s.name), ext.compress(|fs|) + (EmitAll(fs, bigEndian, ext).bytes + rest))
  {
    var tail := ext.compress(|fs|) + (EmitAll(fs, bigEndian, ext).bytes + rest);
    StructBytes(name, fs, rest, bigEndian, ext);
    TakeStringReads(name, tail, ext);
    DropOne(STRUCT, StrBytes(name, ext) + tail);
    StructReads(s, [STRUCT] + (StrBytes(name, ext) + tail), bigEndian, ext);
  }

  /** What `serialize_struct` and the fields append, grouped as the deserializer reads it. */
  lemma StructBytes(name: string, fs: seq<Value>, rest: seq<u8>, bigEndian: bool, ext: Externals)
    ensures Emit(Struct(name, fs), bigEndian, ext).error == EmitAll(fs, bigEndian, ext).error
    ensures Emit(Struct(name, fs), bigEndian, ext).bytes + rest
            == [STRUCT] + (StrBytes(name, ext) + (ext.compress(|fs|) + (EmitAll(fs, bigEndian, ext).bytes + rest)))
  {
    AppendAssoc4([STRUCT], StrBytes(name, ext), ext.compress(|fs|), EmitAll(fs, bigEndian, ext).bytes, rest);
  }

  lemma NamedStructFromFields(name: string, fs: seq<Value>, s: Shape, rest: seq<u8>, bigEndian: bool, ext: Externals)
    requires s.StructS? && s.name == name && Sound(ext) && IsUsize(|Utf8.EncodeString(name)|)
    requires |fs| == |s.fields| && IsUsize(|fs|)
    requires DecodeFixed(s.fields, s.expecting, 0, |s.fields|, EmitAll(fs, bigEndian, ext).bytes + rest, bigEndian, ext)
             == Parsed(fs, rest)
    ensures DecodeNamedStruct(s, StrBytes(name, ext) + (ext.compress(|fs|) + (EmitAll(fs, bigEndian, ext).bytes + rest)),
                              bigEndian, ext)
            == Parsed(Struct(name, fs), rest)
  {
    var body := EmitAll(fs, bigEndian, ext).bytes;
    var counted := ext.compress(|fs|) + (body + rest);
    NextUsizeReadsHeader(|fs|, body + rest, ext);
    SeqOfReads(s.fields, s.expecting, counted, |fs|, body + rest, fs, rest, bigEndian, ext);
    TakeStringReads(name, counted, ext);
    NamedStructReads(s, StrBytes(name, ext) + counted, counted, fs, rest, bigEndian, ext);
  }

  /* Sequence identities, kept out of the lemmas that unfold the decoders. */

  lemma AppendAssoc4<T>(a: seq<T>, b: seq<T>, c: seq<T>, d: seq<T>, e: seq<T>)
    ensures a + b + c + d + e == a + (b + (c + (d + e)))
  {
  }

  lemma AppendNil<T>(t: seq<T>)
    ensures [] + t == t
  {
  }

  lemma AppendEmpty<T>(t: seq<T>)
    ensures t + [] == t
  {
  }

  lemma ConsTail<T>(s: seq<T>)
    requires s != []
    ensures [s[0]] + s[1..] == s
  {
  }

  lemma DropOne<T>(a: T, t: seq<T>)
    ensures ([a] + t)[1..] == t
  {
  }

  /* How the decoders compose: each lemma below unfolds one of them once. */

  lemma OptionReads(inner: Shape, data: seq<u8>, x: Value, rest: seq<u8>, bigEndian: bool, ext: Externals)
    requires |data| > 0 && data[0] == SOME
    requires Decode(inner, data[1..], bigEndian, ext) == Parsed(x, rest)
    ensures Decode(OptS(inner), data, bigEndian, ext) == Parsed(OptSome(x), rest)
  {
    OptionIsDecodeOption(inner, data, bigEndian, ext);
    SomeFlagReads(inner, data, x, rest, bigEndian, ext);
  }

  lemma OptionIsDecodeOption(inner: Shape, data: seq<u8>, bigEndian: bool, ext: Externals)
    ensures Decode(OptS(inner), data, bigEndian, ext) == DecodeOption(inner, data, bigEndian, ext)
  {
  }

  lemma SomeFlagReads(inner: Shape, data: seq<u8>, x: Value, rest: seq<u8>, bigEndian: bool, ext: Externals)
    requires |data| > 0 && data[0] == SOME
    requires Decode(inner, data[1..], bigEndian, ext) == Parsed(x, rest)
    ensures DecodeOption(inner, data, bigEndian, ext) == Parsed(OptSome(x), rest)
  {
    assert Next(data) == Parsed(SOME, data[1..]);
  }

  lemma SeqReads(s: Shape, data: seq<u8>, n: nat, r1: seq<u8>, xs: seq<Value>, rest: seq<u8>,
                 bigEndian: bool, ext: Externals)
    requires s.SeqS? && NextUsize(data, ext) == Parsed(n, r1)
    requires DecodeElems(s.elem, 0, n, r1, bigEndian, ext) == Parsed(xs, rest)
    ensures Decode(s, data, bigEndian, ext) == Parsed(Seq(xs), rest)
  {
  }

  lemma TupleReads(s: Shape, data: seq<u8>, n: nat, r1: seq<u8>, xs: seq<Value>, rest: seq<u8>,
                   bigEndian: bool, ext: Externals)
    requires s.TupleS? && NextUsize(data, ext) == Parsed(n, r1)
    requires DecodeFixed(s.elems, s.expecting, 0, n, r1, bigEndian, ext) == Parsed(xs, rest)
    ensures Decode(s, data, bigEndian, ext) == Parsed(Seq(xs), rest)
  {
  }

  lemma MapReads(s: Shape, data: seq<u8>, n: nat, r1: seq<u8>, es: seq<Entry>, rest: seq<u8>,
                 bigEndian: bool, ext: Externals)
    requires s.MapS? && NextUsize(data, ext) == Parsed(n, r1)
    requires DecodeEntries(s.key, s.val, 0, n, r1, bigEndian, ext) == Parsed(es, rest)
    ensures Decode(s, data, bigEndian, ext) == Parsed(Map(es), rest)
  {
    assert DecodeCollection(s, data, bigEndian, ext) == Parsed(Map(es), rest);
  }

  lemma StructReads(s: Shape, data: seq<u8>, bigEndian: bool, ext: Externals)
    requires s.StructS? && |data| > 0 && data[0] == STRUCT
    ensures Decode(s, data, bigEndian, ext) == DecodeNamedStruct(s, data[1..], bigEndian, ext)
  {
    assert Decode(s, data, bigEndian, ext) == DecodeStruct(s, data, bigEndian, ext);
  }

  lemma NamedStructReads(s: Shape, data: seq<u8>, r1: seq<u8>, xs: seq<Value>, rest: seq<u8>,
                         bigEndian: bool, ext: Externals)
    requires s.StructS? && TakeString(data, ext) == Parsed(s.name, r1)
    requires DecodeSeqOf(s.fields, s.expecting, r1, bigEndian, ext) == Parsed(xs, rest)
    ensures DecodeNamedStruct(s, data, bigEndian, ext) == Parsed(Struct(s.name, xs), rest)
  {
  }

  lemma SeqOfReads(shapes: seq<Shape>, expecting: string, data: seq<u8>, n: nat, r1: seq<u8>, xs: seq<Value>,
                    rest: seq<u8>, bigEndian: bool, ext: Externals)
    requires NextUsize(data, ext) == Parsed(n, r1)
    requires DecodeFixed(shapes, expecting, 0, n, r1, bigEndian, ext) == Parsed(xs, rest)
    ensures DecodeSeqOf(shapes, expecting, data, bigEndian, ext) == Parsed(xs, rest)
  {
  }

  lemma ElemsEndReads(elem: Shape, len: nat, data: seq<u8>, bigEndian: bool, ext: Externals)
    ensures DecodeElems(elem, len, len, data, bigEndian, ext) == Parsed([], data)
  {
  }

  lemma ElemsStepReads(elem: Shape, position: nat, len: nat, data: seq<u8>, x: Value, rest: seq<u8>,
                       bigEndian: bool, ext: Externals)
    requires position < len && Decode(elem, data, bigEndian, ext) == Parsed(x, rest)
    ensures DecodeElems(elem, position, len, data, bigEndian, ext)
            == Prepend([x], DecodeElems(elem, position + 1, len, rest, bigEndian, ext))
  {
  }

  lemma FixedStepReads(shapes: seq<Shape>, expecting: string, i: nat, len: nat, data: seq<u8>, x: Value,
                       rest: seq<u8>, bigEndian: bool, ext: Externals)
    requires i < |shapes| && i < len && Decode(shapes[i], data, bigEndian, ext) == Parsed(x, rest)
    ensures DecodeFixed(shapes, expecting, i, len, data, bigEndian, ext)
            == Prepend([x], DecodeFixed(shapes, expecting, i + 1, len, rest, bigEndian, ext))
  {
  }

  lemma EntryStepReads(k: Shape, v: Shape, position: nat, len: nat, data: seq<u8>, e: Entry, r1: seq<u8>,
                       rest: seq<u8>, bigEndian: bool, ext: Externals)
    requires position < len
    requires Decode(k, data, bigEndian, ext) == Parsed(e.key, r1)
    requires Decode(v, r1, bigEndian, ext) == Parsed(e.val, rest)
    ensures EntryStep(position, len, k, v, data, bigEndian, ext) == Parsed(Some(e), rest)
  {
  }

  lemma EntriesEndReads(k: Shape, v: Shape, len: nat, data: seq<u8>, bigEndian: bool, ext: Externals)
    ensures DecodeEntries(k, v, len, len, data, bigEndian, ext) == Parsed([], data)
  {
  }

  lemma EntriesStepReads(k: Shape, v: Shape, position: nat, len: nat, data: seq<u8>, e: Entry, rest: seq<u8>,
                         bigEndian: bool, ext: Externals)
    requires EntryStep(position, len, k, v, data, bigEndian, ext) == Parsed(Some(e), rest)
    ensures DecodeEntries(k, v, position, len, data, bigEndian, ext)
            == Prepend([e], DecodeEntries(k, v, position + 1, len, rest, bigEndian, ext))
  {
  }

  /** `from_bytes(to_bytes(v))` is `v`: the buffer holds exactly the value. */
  lemma FromBytesToBytes(v: Value, s: Shape, bigEndian: bool, ext: Externals)
    requires Sound(ext) && Fits(v, s) && Portable(v)
    ensures Encode(v, bigEndian, ext).Ok?
    ensures Decode(s, Encode(v, bigEndian, ext).value, bigEndian, ext) == Parsed(v, [])
  {
    ValueRoundTrip(v, s, [], bigEndian, ext);
    AppendEmpty(Emit(v, bigEndian, ext).bytes);
  }

  /**
   * Two portable values of one type never share an encoding, and the
   * encoding of one is never a proper prefix of the encoding of another.
   */
  lemma EncodingInjective(v: Value, w: Value, s: Shape, rest: seq<u8>, rest': seq<u8>, bigEndian: bool,
                          ext: Externals)
    requires Sound(ext) && Fits(v, s) && Fits(w, s) && Portable(v) && Portable(w)
    requires Emit(v, bigEndian, ext).bytes + rest == Emit(w, bigEndian, ext).bytes + rest'
    ensures v == w && rest == rest'
  {
    ValueRoundTrip(v, s, rest, bigEndian, ext);
    ValueRoundTrip(w, s, rest', bigEndian, ext);
  }
}
