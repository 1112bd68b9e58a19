/**
 * The in-memory deserializer: `Deserializer` holds the undecoded bytes in
 * `data` and consumes them from the front.
 *
 * The functions of this module say what each step does to the bytes: the
 * value it reads and what is left (`Parsed`), the error it returns and what
 * is left (`Failed`), or that the Rust code panics (`Panicked`) — every
 * `.unwrap()` in the source turns a failed step into a panic. The
 * `Deserializer` class of `DeState` performs the same steps on its `data`
 * field; its methods may only be called where the corresponding function
 * does not panic.
 *
 * What a derived `Deserialize` impl does with the steps (the visitor of a
 * `Vec`, a tuple, a struct, a map or an enum) is part of the functions, with
 * serde's own error texts.
 */
module De {
  import opened Bytes
  import opened Options
  import opened BinaryErrors
  import opened Common
  import opened DataModel
  import Text
  import Utf8

  /** `rest` is what is left of `data` once some bytes were taken from its front. */
  predicate Suffix(rest: seq<u8>, data: seq<u8>)
  {
    |rest| <= |data| && rest == data[|data| - |rest|..]
  }

  /** Whatever is left of a suffix of `data` is itself a suffix of `data`. */
  lemma SuffixOfSuffix(r1: seq<u8>, data: seq<u8>)
    requires Suffix(r1, data)
    ensures forall r :: Suffix(r, r1) ==> Suffix(r, data)
  {
    forall r | Suffix(r, r1)
      ensures Suffix(r, data)
    {
      assert data[|data| - |r|..] == r1[|r1| - |r|..];
    }
  }

  /** A step that did not panic consumed a prefix of its input and nothing else. */
  predicate FromFront<T>(d: Decoded<T>, data: seq<u8>)
  {
    !d.Panicked? ==> Suffix(d.rest, data)
  }

  /** `peek`: the first byte, or `UnexpectedEndOfInput`. */
  function Peek(data: seq<u8>): (r: Result<u8>)
    ensures r.Ok? <==> data != []
    ensures r.Ok? ==> r.value == data[0]
    ensures r.Err? ==> r.error == UnexpectedEndOfInput
  {
    if data == [] then Err(UnexpectedEndOfInput) else Ok(data[0])
  }

  /** `next`: the first byte, which the data loses. */
  function Next(data: seq<u8>): (d: Decoded<u8>)
    ensures !d.Panicked?
    ensures d.Parsed? <==> data != []
    ensures d.Parsed? ==> [d.value] + d.rest == data
    ensures d.Failed? ==> d.error == UnexpectedEndOfInput && d.rest == data
  {
    if data == [] then Failed(UnexpectedEndOfInput, data) else Parsed(data[0], data[1..])
  }

  /** `take(n)`: the first `n` bytes, or `UnexpectedEndOfInput` with the data unchanged. */
  function Take(data: seq<u8>, n: nat): (d: Decoded<seq<u8>>)
    ensures !d.Panicked?
    ensures d.Parsed? <==> n <= |data|
    ensures d.Parsed? ==> |d.value| == n && d.value + d.rest == data
    ensures d.Failed? ==> d.error == UnexpectedEndOfInput && d.rest == data
  {
    if |data| < n then Failed(UnexpectedEndOfInput, data) else Parsed(data[..n], data[n..])
  }

  /** `next_u32`: four bytes read as a `u32` in the chosen order; panics when fewer are left. */
  function NextU32(data: seq<u8>, bigEndian: bool): (d: Decoded<nat>)
    ensures !d.Failed?
    ensures d.Parsed? <==> |data| >= 4
    ensures d.Parsed? ==> d.value < U32_LIMIT && d.rest == data[4..]
                          && ToBytes(U32, d.value, bigEndian) == data[..4]
  {
    var taken := Take(data, 4);
    if !taken.Parsed? then Panicked
    else
      var n := FromBytes(U32, taken.value, bigEndian);
      BytesRoundTrip(U32, taken.value, bigEndian);
      Parsed(n, taken.rest)
  }

  /** `decompress_usize(header).unwrap()`. */
  function Decompress(header: seq<u8>, rest: seq<u8>, ext: Externals): (d: Decoded<nat>)
    ensures !d.Failed?
    ensures d.Parsed? <==> ext.decompress(header).Ok?
    ensures d.Parsed? ==> d.rest == rest && ext.decompress(header) == Ok(d.value)
  {
    match ext.decompress(header)
    case Ok(n) => Parsed(n, rest)
    case Err(_) => Panicked
  }

  /**
   * `next_usize`: one byte when its bit 7 is clear, otherwise two bytes and as
   * many more as the top three bits of the second one say; the header goes
   * through `decompress_usize`.
   */
  function NextUsize(data: seq<u8>, ext: Externals): (d: Decoded<nat>)
    ensures !d.Failed?
    ensures d.Parsed? ==>
      && Suffix(d.rest, data)
      && var header := data[..|data| - |d.rest|];
      && Framed(header) && ext.decompress(header) == Ok(d.value)
  {
    match Next(data)
    case Failed(_, _) => Panicked
    case Panicked => Panicked
    case Parsed(b0, r1) =>
      if b0 < 0x80 then
        assert data[..1] == [b0];
        Decompress([b0], r1, ext)
      else
        match Next(r1)
        case Failed(_, _) => Panicked
        case Panicked => Panicked
        case Parsed(b1, r2) =>
          match Take(r2, b1 / 32)
          case Failed(_, _) => Panicked
          case Panicked => Panicked
          case Parsed(extra, r3) =>
            assert data == [b0, b1] + extra + r3;
            assert data[..|data| - |r3|] == [b0, b1] + extra;
            Decompress([b0, b1] + extra, r3, ext)
  }

  /** `take_string`: a length, that many bytes, and `String::from_utf8` of them, all unwrapped. */
  function TakeString(data: seq<u8>, ext: Externals): (d: Decoded<string>)
    ensures !d.Failed?
    ensures d.Parsed? ==> Suffix(d.rest, data)
  {
    match NextUsize(data, ext)
    case Failed(err, rest') => Failed(err, rest')
    case Panicked => Panicked
    case Parsed(size, r1) =>
      match Take(r1, size)
      case Failed(_, _) => Panicked
      case Panicked => Panicked
      case Parsed(bs, r2) =>
        match Utf8.FromUtf8(bs)
        case Text(str) => Parsed(str, r2)
        case FromUtf8Error(_, _) => Panicked
  }

  /** The bytes `deserialize_char` takes for a lead byte, 0 for the continuation bytes 0x80..=0xBF. */
  function CharWidth(b: u8): (n: nat)
    ensures n <= 4
    ensures n == 0 <==> 0x80 <= b < 0xC0
    ensures Utf8.LeadWidth(b) != 0 ==> n == Utf8.LeadWidth(b)
  {
    if b < 0x80 then 1 else if b < 0xC0 then 0 else if b < 0xE0 then 2 else if b < 0xF0 then 3 else 4
  }

  /**
   * `deserialize_char`: peek at the lead byte, take the bytes it announces
   * and decode them; a continuation byte is `InvalidBytes` and leaves the
   * data untouched.
   */
  function DecodeChar(data: seq<u8>): (d: Decoded<Value>)
    ensures FromFront(d, data)
    ensures d.Failed? <==> data != [] && CharWidth(data[0]) == 0
    ensures d.Failed? ==> d.error == InvalidBytes && d.rest == data
  {
    if data == [] then Panicked
    else
      var w := CharWidth(data[0]);
      if w == 0 then Failed(InvalidBytes, data)
      else
        match Take(data, w)
        case Failed(_, _) => Panicked
        case Panicked => Panicked
        case Parsed(bs, rest) =>
          match Utf8.FromUtf8(bs)
          case FromUtf8Error(_, _) => Panicked
          case Text(s) => if s == [] then Panicked else Parsed(Char(s[0]), rest)
  }

  /** `deserialize_<int>`: one byte for `u8`/`i8`, `Width()` bytes otherwise; serde's default error for 128 bits. */
  function DecodeInt(t: IntType, data: seq<u8>, bigEndian: bool): (d: Decoded<Value>)
    ensures FromFront(d, data)
    ensures d.Failed? <==> t == U128 || t == I128
    ensures d.Parsed? ==> d.value.Int? && d.value.t == t && t.Contains(d.value.i)
  {
    if t == U128 then Failed(Custom("u128 is not supported"), data)
    else if t == I128 then Failed(Custom("i128 is not supported"), data)
    else if t == U8 || t == I8 then
      match Next(data)
      case Failed(_, _) => Panicked
      case Panicked => Panicked
      case Parsed(b, rest) =>
        Parsed(Int(t, FromBytes(t, [b], bigEndian)), rest)
    else
      match Take(data, t.Width())
      case Failed(_, _) => Panicked
      case Panicked => Panicked
      case Parsed(bs, rest) =>
        Parsed(Int(t, FromBytes(t, bs, bigEndian)), rest)
  }

  /** The message of serde's `Error::invalid_length`. */
  function InvalidLengthMessage(len: nat, expecting: string): string
  {
    "invalid length " + Text.Dec(len) + ", expected " + expecting
  }

  /** The message gives back both the length and the expectation it was built from. */
  lemma InvalidLengthMessageInjective(len: nat, expecting: string, len': nat, expecting': string)
    requires InvalidLengthMessage(len, expecting) == InvalidLengthMessage(len', expecting')
    ensures len == len' && expecting == expecting'
  {
    var d, d' := Text.Dec(len), Text.Dec(len');
    CommonPrefix("invalid length ", d, ", expected ", expecting, d', expecting');
    DigitsHaveNoComma(d, 10);
    DigitsHaveNoComma(d', 10);
    SplitAtSeparator(d, expecting, d', expecting', ", expected ");
    Text.RadixInjective(len, len', 10);
  }

  /** The message of serde's `Error::invalid_type` for a unit variant where another kind was expected. */
  function UnitVariantMismatch(kind: string): string
  {
    "invalid type: unit variant, expected " + kind
  }

  /** What `T::deserialize` reads from `data` when `T` has shape `s`. */
  function Decode(s: Shape, data: seq<u8>, bigEndian: bool, ext: Externals): (d: Decoded<Value>)
    ensures FromFront(d, data)
    decreases s, 3
  {
    match s
    case BoolS =>
      (match Next(data)
       case Failed(_, _) => Panicked
       case Panicked => Panicked
       case Parsed(b, rest) => Parsed(Bool(b != 0), rest))
    case IntS(t) => DecodeInt(t, data, bigEndian)
    case CharS => DecodeChar(data)
    case StrS =>
      (match TakeString(data, ext)
       case Failed(err, rest') => Failed(err, rest')
       case Panicked => Panicked
       case Parsed(str, rest) => Parsed(Str(str), rest))
    case BytesS => DecodeBytes(data, ext)
    case OptS(inner) => DecodeOption(inner, data, bigEndian, ext)
    case UnitS => Parsed(Unit, data)
    case SeqS(_) => DecodeCollection(s, data, bigEndian, ext)
    case TupleS(_, _) => DecodeCollection(s, data, bigEndian, ext)
    case MapS(_, _) => DecodeCollection(s, data, bigEndian, ext)
    case StructS(_, _, _, _) => DecodeStruct(s, data, bigEndian, ext)
    case EnumS(_, _) => DecodeEnum(s, data, bigEndian, ext)
  }

  /** `deserialize_bytes`: a length, then that many bytes. */
  function DecodeBytes(data: seq<u8>, ext: Externals): (d: Decoded<Value>)
    ensures FromFront(d, data)
    ensures d.Parsed? ==> d.value.ByteBuf?
  {
    match NextUsize(data, ext)
    case Failed(err, rest') => Failed(err, rest')
    case Panicked => Panicked
    case Parsed(len, r1) =>
      match Take(r1, len)
      case Failed(_, _) => Panicked
      case Panicked => Panicked
      case Parsed(bs, r2) =>
        Parsed(ByteBuf(bs), r2)
  }

  /** `deserialize_seq`, `deserialize_tuple` and `deserialize_map`: a count, then what the visitor reads. */
  function DecodeCollection(s: Shape, data: seq<u8>, bigEndian: bool, ext: Externals): (d: Decoded<Value>)
    requires s.SeqS? || s.TupleS? || s.MapS?
    ensures FromFront(d, data)
    decreases s, 2
  {
    match NextUsize(data, ext)
    case Failed(err, rest') => Failed(err, rest')
    case Panicked => Panicked
    case Parsed(len, r1) =>
      SuffixOfSuffix(r1, data);
      match s
      case SeqS(elem) =>
        (match DecodeElems(elem, 0, len, r1, bigEndian, ext)
         case Failed(err, rest') => Failed(err, rest')
         case Panicked => Panicked
         case Parsed(xs, r2) => Parsed(Seq(xs), r2))
      case TupleS(expecting, elems) =>
        (match DecodeFixed(elems, expecting, 0, len, r1, bigEndian, ext)
         case Failed(err, rest') => Failed(err, rest')
         case Panicked => Panicked
         case Parsed(xs, r2) => Parsed(Seq(xs), r2))
      case MapS(k, v) =>
        match DecodeEntries(k, v, 0, len, r1, bigEndian, ext)
        case Failed(err, rest') => Failed(err, rest')
        case Panicked => Panicked
        case Parsed(es, r2) =>
          Parsed(Map(es), r2)
  }

  /** `deserialize_option`: `NONE`, or `SOME` and the inner value, or a wrong flag. */
  function DecodeOption(inner: Shape, data: seq<u8>, bigEndian: bool, ext: Externals): (d: Decoded<Value>)
    ensures FromFront(d, data)
    decreases OptS(inner), 2
  {
    match Next(data)
    case Failed(_, _) => Panicked
    case Panicked => Panicked
    case Parsed(flag, rest) =>
      if flag == NONE then Parsed(OptNone, rest)
      else if flag == SOME then
        match Decode(inner, rest, bigEndian, ext)
        case Failed(err, rest') => Failed(err, rest')
        case Panicked => Panicked
        case Parsed(x, r) =>
          Parsed(OptSome(x), r)
      else Failed(MissingOrInvalidFlag(flag, SOME), rest)
  }

  /**
   * `deserialize_option` by its flag byte: `NONE` is `None`, any byte other
   * than `NONE` and `SOME` is refused with `SOME` as the expected flag, and
   * no byte at all is the panic of `next().unwrap()`.
   */
  lemma OptionFlags(inner: Shape, flag: u8, rest: seq<u8>, bigEndian: bool, ext: Externals)
    ensures DecodeOption(inner, [], bigEndian, ext) == Panicked
    ensures flag == NONE ==> DecodeOption(inner, [flag] + rest, bigEndian, ext) == Parsed(OptNone, rest)
    ensures flag != NONE && flag != SOME ==>
              DecodeOption(inner, [flag] + rest, bigEndian, ext) == Failed(MissingOrInvalidFlag(flag, SOME), rest)
  {
    assert ([flag] + rest)[1..] == rest;
  }

  /**
   * The start shared by `next_element_seed` and `next_key_seed`, for a call
   * made at `position` (before the increment): go on, stop (`Ok(false)`, the
   * call after the last element), or `InvalidLength` for any later call.
   */
  function Admit(position: nat, len: nat): (r: Result<bool>)
    ensures r == Ok(true) <==> position < len
    ensures r == Ok(false) <==> position == len
    ensures r.Err? <==> position > len
    ensures r.Err? ==> r.error == InvalidLength(position + 1, len)
  {
    if position + 1 == len + 1 then Ok(false)
    else if position + 1 > len then Err(InvalidLength(position + 1, len))
    else Ok(true)
  }

  /** `next_element_seed` at `position` of a series of `len`: `Admit`, then the element. */
  function SeriesStep(position: nat, len: nat, elem: Shape, data: seq<u8>, bigEndian: bool, ext: Externals)
    : (d: Decoded<Option<Value>>)
    ensures FromFront(d, data)
    ensures d.Parsed? && d.value.None? ==> position == len && d.rest == data
    ensures position == len ==> d == Parsed(None, data)
    ensures position > len ==> d == Failed(InvalidLength(position + 1, len), data)
    ensures d.Parsed? && d.value.Some? ==> position < len
    decreases elem, 4
  {
    match Admit(position, len)
    case Err(e) => Failed(e, data)
    case Ok(go) =>
      if !go then Parsed(None, data)
      else
        match Decode(elem, data, bigEndian, ext)
        case Failed(err, rest') => Failed(err, rest')
        case Panicked => Panicked
        case Parsed(x, rest) =>
          Parsed(Some(x), rest)
  }

  /** The `Vec` visitor from `position` on: `next_element` until it returns `None`. */
  function DecodeElems(elem: Shape, position: nat, len: nat, data: seq<u8>, bigEndian: bool, ext: Externals)
    : (d: Decoded<seq<Value>>)
    ensures FromFront(d, data)
    ensures d.Parsed? ==> position <= len && |d.value| == len - position
    decreases SeqS(elem), 1, len - position
  {
    match SeriesStep(position, len, elem, data, bigEndian, ext)
    case Parsed(Some(x), rest) => Prepend([x], DecodeElems(elem, position + 1, len, rest, bigEndian, ext))
    case Parsed(None, rest) => Parsed([], rest)
    case Failed(e, rest) => Failed(e, rest)
    case Panicked => Panicked
  }

  /**
   * The visitor of a tuple, tuple struct or struct (`visit_seq`) from field
   * `i` on: one `next_element` per field; a series that ends early is
   * serde's "invalid length" error naming the index. Elements beyond the
   * fields are left unread.
   */
  function DecodeFixed(shapes: seq<Shape>, expecting: string, i: nat, len: nat, data: seq<u8>,
                       bigEndian: bool, ext: Externals): (d: Decoded<seq<Value>>)
    requires i <= |shapes|
    ensures FromFront(d, data)
    ensures d.Parsed? ==> |d.value| == |shapes| - i
    decreases shapes, 1, |shapes| - i
  {
    if i == |shapes| then Parsed([], data)
    else
      assert shapes[i] in shapes;
      match SeriesStep(i, len, shapes[i], data, bigEndian, ext)
      case Parsed(Some(x), rest) => Prepend([x], DecodeFixed(shapes, expecting, i + 1, len, rest, bigEndian, ext))
      case Parsed(None, rest) => Failed(Custom(InvalidLengthMessage(i, expecting)), rest)
      case Failed(e, rest) => Failed(e, rest)
      case Panicked => Panicked
  }

  /** `next_entry_seed` (serde's default): `next_key_seed`, then `next_value_seed` when there is a key. */
  function EntryStep(position: nat, len: nat, k: Shape, v: Shape, data: seq<u8>, bigEndian: bool, ext: Externals)
    : (d: Decoded<Option<Entry>>)
    ensures FromFront(d, data)
    ensures d.Parsed? && d.value.None? ==> position == len && d.rest == data
    ensures position == len ==> d == Parsed(None, data)
    ensures position > len ==> d == Failed(InvalidLength(position + 1, len), data)
    ensures d.Parsed? && d.value.Some? ==> position < len
    decreases MapS(k, v), 0
  {
    match SeriesStep(position, len, k, data, bigEndian, ext)
    case Failed(err, rest') => Failed(err, rest')
    case Panicked => Panicked
    case Parsed(key, r1) =>
      if key.None? then Parsed(None, r1)
      else
        match Decode(v, r1, bigEndian, ext)
        case Failed(err, rest') => Failed(err, rest')
        case Panicked => Panicked
        case Parsed(val, r2) =>
          Parsed(Some(Entry(key.value, val)), r2)
  }

  /** The map visitor from `position` on: `next_entry` until it returns `None`. */
  function DecodeEntries(k: Shape, v: Shape, position: nat, len: nat, data: seq<u8>, bigEndian: bool, ext: Externals)
    : (d: Decoded<seq<Entry>>)
    ensures FromFront(d, data)
    ensures d.Parsed? ==> position <= len && |d.value| == len - position
    decreases MapS(k, v), 1, len - position
  {
    match EntryStep(position, len, k, v, data, bigEndian, ext)
    case Parsed(Some(e), rest) => Prepend([e], DecodeEntries(k, v, position + 1, len, rest, bigEndian, ext))
    case Parsed(None, rest) => Parsed([], rest)
    case Failed(e, rest) => Failed(e, rest)
    case Panicked => Panicked
  }

  /** `deserialize_struct`: the `STRUCT` flag, the name, the field count, then the fields in order. */
  function DecodeStruct(s: Shape, data: seq<u8>, bigEndian: bool, ext: Externals): (d: Decoded<Value>)
    requires s.StructS?
    ensures FromFront(d, data)
    ensures d.Parsed? ==> d.value.Struct? && d.value.name == s.name && |d.value.fields| == |s.fields|
    decreases s, 2
  {
    match Next(data)
    case Failed(_, _) => Panicked
    case Panicked => Panicked
    case Parsed(flag, rest) =>
      if flag != STRUCT then Failed(MissingOrInvalidFlag(flag, STRUCT), rest)
      else DecodeNamedStruct(s, rest, bigEndian, ext)
  }

  /**
   * `deserialize_struct` by its first byte: anything but `STRUCT` is refused
   * with `STRUCT` as the expected flag; `STRUCT` goes on to the name.
   */
  lemma StructFlag(s: Shape, flag: u8, rest: seq<u8>, bigEndian: bool, ext: Externals)
    requires s.StructS?
    ensures DecodeStruct(s, [], bigEndian, ext) == Panicked
    ensures flag != STRUCT ==>
              DecodeStruct(s, [flag] + rest, bigEndian, ext) == Failed(MissingOrInvalidFlag(flag, STRUCT), rest)
    ensures flag == STRUCT ==> DecodeStruct(s, [flag] + rest, bigEndian, ext) == DecodeNamedStruct(s, rest, bigEndian, ext)
  {
    assert ([flag] + rest)[1..] == rest;
  }

  /** What `deserialize_struct` reads after the flag: the name, checked, then the count and the fields. */
  function DecodeNamedStruct(s: Shape, data: seq<u8>, bigEndian: bool, ext: Externals): (d: Decoded<Value>)
    requires s.StructS?
    ensures FromFront(d, data)
    ensures d.Parsed? ==> d.value.Struct? && d.value.name == s.name && |d.value.fields| == |s.fields|
    decreases s, 1
  {
    match TakeString(data, ext)
    case Failed(err, rest') => Failed(err, rest')
    case Panicked => Panicked
    case Parsed(name, r1) =>
      SuffixOfSuffix(r1, data);
      if name != s.name then Failed(InvalidName(name, s.name), r1)
      else
        match DecodeSeqOf(s.fields, s.expecting, r1, bigEndian, ext)
        case Failed(err, rest') => Failed(err, rest')
        case Panicked => Panicked
        case Parsed(xs, r2) =>
          Parsed(Struct(s.name, xs), r2)
  }

  /** A count, then the `visit_seq` of a struct, tuple struct or tuple variant. */
  function DecodeSeqOf(shapes: seq<Shape>, expecting: string, data: seq<u8>, bigEndian: bool, ext: Externals)
    : (d: Decoded<seq<Value>>)
    ensures FromFront(d, data)
    ensures d.Parsed? ==> |d.value| == |shapes|
    decreases shapes, 2
  {
    match NextUsize(data, ext)
    case Failed(err, rest') => Failed(err, rest')
    case Panicked => Panicked
    case Parsed(len, r1) =>
      DecodeFixed(shapes, expecting, 0, len, r1, bigEndian, ext)
  }

  /** A value of an enum type. */
  predicate IsEnumValue(v: Value)
  {
    v.UnitVariant? || IsDataVariant(v)
  }

  /** The position of the first variant called `name`. */
  function VariantIndex(variants: seq<Variant>, name: string): (r: Option<nat>)
    ensures r.Some? ==> r.value < |variants| && variants[r.value].name == name
    ensures r.None? ==> forall i :: 0 <= i < |variants| ==> variants[i].name != name
  {
    if variants == [] then None
    else if variants[0].name == name then Some(0)
    else match VariantIndex(variants[1..], name)
      case None => None
      case Some(i) => Some(i + 1)
  }

  /**
   * `deserialize_enum`: after `UNIT_VARIANT`, a `u32` index into the variant
   * names (unchecked) read by serde's string deserializer, which only accepts
   * a unit variant; after any other byte, the variant's name as a string,
   * and then what the variant's kind reads.
   */
  function DecodeEnum(s: Shape, data: seq<u8>, bigEndian: bool, ext: Externals): (d: Decoded<Value>)
    requires s.EnumS?
    ensures FromFront(d, data)
    ensures d.Parsed? ==> IsEnumValue(d.value) && d.value.enumName == s.name && d.value.index < |s.variants|
    decreases s, 2
  {
    match Next(data)
    case Failed(_, _) => Panicked
    case Panicked => Panicked
    case Parsed(tag, r1) =>
      SuffixOfSuffix(r1, data);
      if tag == UNIT_VARIANT then
        match NextU32(r1, bigEndian)
        case Failed(err, rest') => Failed(err, rest')
        case Panicked => Panicked
        case Parsed(idx, r2) =>
          SuffixOfSuffix(r2, r1);
          if idx >= |s.variants| then Panicked
          else match s.variants[idx]
            case UnitV(_) => Parsed(UnitVariant(s.name, idx), r2)
            case NewtypeV(_, _) => Failed(Custom(UnitVariantMismatch("newtype variant")), r2)
            case TupleV(_, _, _) => Failed(Custom(UnitVariantMismatch("tuple variant")), r2)
            case StructV(_, _, _, _) => Failed(Custom(UnitVariantMismatch("struct variant")), r2)
      else
        match TakeString(r1, ext)
        case Failed(err, rest') => Failed(err, rest')
        case Panicked => Panicked
        case Parsed(vname, r2) =>
          SuffixOfSuffix(r2, r1);
          var found := VariantIndex(s.variants, vname);
          if found.None? then Panicked
          else DecodeVariant(s, found.value, r2, bigEndian, ext)
  }

  /** What the `Enum` access reads for variant `idx`, once its name is known. */
  function DecodeVariant(s: Shape, idx: nat, data: seq<u8>, bigEndian: bool, ext: Externals): (d: Decoded<Value>)
    requires s.EnumS? && idx < |s.variants|
    ensures FromFront(d, data)
    ensures d.Parsed? ==> IsDataVariant(d.value) && d.value.enumName == s.name && d.value.index == idx
    decreases s, 1
  {
    var variant := s.variants[idx];
    assert variant in s.variants;
    match variant
    case UnitV(_) => Failed(UnexpectedType, data)
    case NewtypeV(_, inner) =>
      (match Decode(inner, data, bigEndian, ext)
       case Failed(err, rest') => Failed(err, rest')
       case Panicked => Panicked
       case Parsed(x, r) => Parsed(NewtypeVariant(s.name, idx, x), r))
    case TupleV(_, expecting, elems) =>
      (match DecodeSeqOf(elems, expecting, data, bigEndian, ext)
       case Failed(err, rest') => Failed(err, rest')
       case Panicked => Panicked
       case Parsed(xs, r) => Parsed(TupleVariant(s.name, idx, xs), r))
    case StructV(_, _, names, fields) =>
      match DecodeStructFields(names, fields, data, bigEndian, ext)
      case Failed(err, rest') => Failed(err, rest')
      case Panicked => Panicked
      case Parsed(xs, r) =>
        Parsed(StructVariant(s.name, idx, xs), r)
  }

  /** `struct_variant`: `deserialize_map`, a count, then the visitor's `visit_map`. */
  function DecodeStructFields(names: seq<string>, fields: seq<Shape>, data: seq<u8>, bigEndian: bool,
                              ext: Externals): (d: Decoded<seq<Value>>)
    ensures FromFront(d, data)
    ensures d.Parsed? ==> |d.value| == |fields|
    decreases fields, 4
  {
    match NextUsize(data, ext)
    case Failed(err, rest') => Failed(err, rest')
    case Panicked => Panicked
    case Parsed(len, r1) =>
      VisitStructFields(names, fields, len, r1, bigEndian, ext)
  }

  /** The derived `visit_map` of a struct variant over `len` entries: the entries, then the fields in order. */
  function VisitStructFields(names: seq<string>, fields: seq<Shape>, len: nat, data: seq<u8>, bigEndian: bool,
                             ext: Externals): (d: Decoded<seq<Value>>)
    ensures FromFront(d, data)
    ensures d.Parsed? ==> |d.value| == |fields|
    decreases fields, 3
  {
    match DecodeFieldMap(names, fields, 0, len, Unseen(|fields|), data, bigEndian, ext)
    case Failed(err, rest') => Failed(err, rest')
    case Panicked => Panicked
    case Parsed(found, rest) =>
      match CollectFields(names, fields, found, 0)
      case Ok(xs) => Parsed(xs, rest)
      case Err(e) => Failed(e, rest)
  }

  /** No field seen yet. */
  function Unseen(n: nat): (r: seq<Option<Value>>)
    ensures |r| == n && forall i :: 0 <= i < n ==> r[i].None?
  {
    seq(n, _ => None)
  }

  /** The position of the first field called `name`. */
  function FieldIndex(names: seq<string>, name: string): (r: Option<nat>)
    ensures r.Some? ==> r.value < |names| && names[r.value] == name
    ensures r.None? ==> forall i :: 0 <= i < |names| ==> names[i] != name
  {
    if names == [] then None
    else if names[0] == name then Some(0)
    else match FieldIndex(names[1..], name)
      case None => None
      case Some(i) => Some(i + 1)
  }

  /** `next_key_seed` at `position` for a field identifier, which `deserialize_identifier` reads with `take_string`. */
  function NameStep(position: nat, len: nat, data: seq<u8>, ext: Externals): (d: Decoded<Option<string>>)
    ensures d.Parsed? && d.value.None? ==> position == len && d.rest == data
    ensures position == len ==> d == Parsed(None, data)
    ensures position > len ==> d == Failed(InvalidLength(position + 1, len), data)
    ensures d.Parsed? && d.value.Some? ==> position < len
    ensures position < len ==> !d.Failed? && (d.Parsed? ==> d.value.Some?) && FromFront(d, data)
  {
    match Admit(position, len)
    case Err(e) => Failed(e, data)
    case Ok(go) =>
      if !go then Parsed(None, data)
      else
        match TakeString(data, ext)
        case Failed(err, rest') => Failed(err, rest')
        case Panicked => Panicked
        case Parsed(name, rest) =>
          Parsed(Some(name), rest)
  }

  /**
   * One round of the struct-variant visitor's loop: a field name through
   * `next_key` (an unknown name is skipped with `deserialize_ignored_any`,
   * which panics), then, for a field not seen yet, its value through
   * `next_value`; a field seen twice is serde's "duplicate field" error.
   */
  function FieldStep(names: seq<string>, fields: seq<Shape>, position: nat, len: nat, found: seq<Option<Value>>,
                     data: seq<u8>, bigEndian: bool, ext: Externals): (d: Decoded<Option<seq<Option<Value>>>>)
    requires |found| == |fields|
    ensures FromFront(d, data)
    ensures d.Parsed? && d.value.None? ==> position == len && d.rest == data
    ensures position == len ==> d == Parsed(None, data)
    ensures position > len ==> d == Failed(InvalidLength(position + 1, len), data)
    ensures d.Parsed? && d.value.Some? ==> position < len && |d.value.value| == |fields|
    decreases fields, 1
  {
    match NameStep(position, len, data, ext)
    case Failed(err, rest') => Failed(err, rest')
    case Panicked => Panicked
    case Parsed(key, r1) =>
      if key.None? then Parsed(None, r1)
      else
        var i := FieldIndex(names, key.value);
        if i.None? || i.value >= |fields| then Panicked
        else if found[i.value].Some? then Failed(Custom("duplicate field `" + key.value + "`"), r1)
        else
          assert fields[i.value] in fields;
          match Decode(fields[i.value], r1, bigEndian, ext)
          case Failed(err, rest') => Failed(err, rest')
          case Panicked => Panicked
          case Parsed(x, r2) =>
            Parsed(Some(found[i.value := Some(x)]), r2)
  }

  /** The struct-variant visitor's loop from `position` on, with the fields `found` so far. */
  function DecodeFieldMap(names: seq<string>, fields: seq<Shape>, position: nat, len: nat, found: seq<Option<Value>>,
                          data: seq<u8>, bigEndian: bool, ext: Externals): (d: Decoded<seq<Option<Value>>>)
    requires |found| == |fields|
    ensures FromFront(d, data)
    ensures d.Parsed? ==> |d.value| == |fields|
    decreases fields, 2, len - position
  {
    match FieldStep(names, fields, position, len, found, data, bigEndian, ext)
    case Parsed(Some(found'), rest) => DecodeFieldMap(names, fields, position + 1, len, found', rest, bigEndian, ext)
    case Parsed(None, rest) => Parsed(found, rest)
    case Failed(e, rest) => Failed(e, rest)
    case Panicked => Panicked
  }

  /**
   * The fields in declaration order once the map is read: a missing `Option`
   * field is `None`, any other missing field is serde's "missing field" error.
   */
  function CollectFields(names: seq<string>, fields: seq<Shape>, found: seq<Option<Value>>, i: nat)
    : (r: Result<seq<Value>>)
    requires |found| == |fields| && i <= |fields|
    ensures r.Ok? ==> |r.value| == |fields| - i
    decreases |fields| - i
  {
    if i == |fields| then Ok([])
    else
      var x :- if found[i].Some? then Ok(found[i].value)
               else if fields[i].OptS? then Ok(OptNone)
               else Err(Custom("missing field `" + (if i < |names| then names[i] else "") + "`"));
      var xs :- CollectFields(names, fields, found, i + 1);
      Ok([x] + xs)
  }

  /** The values read so far, in front of what a step reads next. */
  function Prepend<T>(xs: seq<T>, d: Decoded<seq<T>>): (r: Decoded<seq<T>>)
    ensures r.Parsed? <==> d.Parsed?
    ensures r.Panicked? <==> d.Panicked?
    ensures r.Parsed? ==> r.value == xs + d.value && r.rest == d.rest
    ensures r.Failed? ==> r.error == d.error && r.rest == d.rest
  {
    match d
    case Parsed(ys, rest) => Parsed(xs + ys, rest)
    case Failed(e, rest) => Failed(e, rest)
    case Panicked => Panicked
  }

  lemma PrependTwice<T>(xs: seq<T>, x: T, d: Decoded<seq<T>>)
    ensures Prepend(xs, Prepend([x], d)) == Prepend(xs + [x], d)
  {
    if d.Parsed? {
      assert xs + ([x] + d.value) == xs + [x] + d.value;
    }
  }

  /** Nothing read so far changes nothing. */
  lemma PrependNothing<T>(d: Decoded<seq<T>>)
    ensures Prepend([], d) == d
  {
    if d.Parsed? {
      assert [] + d.value == d.value;
    }
  }

  /** How one `SeriesStep` advances the `Vec` visitor. */
  lemma ElemsAfterStep(elem: Shape, i: nat, len: nat, data: seq<u8>, bigEndian: bool, ext: Externals,
                       xs: seq<Value>, step: Decoded<Option<Value>>)
    requires step == SeriesStep(i, len, elem, data, bigEndian, ext)
    ensures step.Parsed? && step.value.Some? ==>
      i < len &&
      Prepend(xs, DecodeElems(elem, i, len, data, bigEndian, ext))
      == Prepend(xs + [step.value.value], DecodeElems(elem, i + 1, len, step.rest, bigEndian, ext))
    ensures step.Parsed? && step.value.None? ==> Prepend(xs, DecodeElems(elem, i, len, data, bigEndian, ext)) == Parsed(xs, data)
    ensures step.Failed? ==> Prepend(xs, DecodeElems(elem, i, len, data, bigEndian, ext)) == Failed(step.error, step.rest)
    ensures step.Panicked? ==> DecodeElems(elem, i, len, data, bigEndian, ext).Panicked?
  {
    if step.Parsed? && step.value.Some? {
      PrependTwice(xs, step.value.value, DecodeElems(elem, i + 1, len, step.rest, bigEndian, ext));
    } else if step.Parsed? {
      assert xs + [] == xs;
    }
  }

  /** How one `SeriesStep` advances the visitor of a tuple, tuple struct or struct. */
  lemma FixedAfterStep(shapes: seq<Shape>, expecting: string, i: nat, len: nat, data: seq<u8>, bigEndian: bool,
                       ext: Externals, xs: seq<Value>, step: Decoded<Option<Value>>)
    requires i < |shapes|
    requires step == SeriesStep(i, len, shapes[i], data, bigEndian, ext)
    ensures step.Parsed? && step.value.Some? ==>
      Prepend(xs, DecodeFixed(shapes, expecting, i, len, data, bigEndian, ext))
      == Prepend(xs + [step.value.value], DecodeFixed(shapes, expecting, i + 1, len, step.rest, bigEndian, ext))
    ensures step.Parsed? && step.value.None? ==>
      Prepend(xs, DecodeFixed(shapes, expecting, i, len, data, bigEndian, ext))
      == Failed(Custom(InvalidLengthMessage(i, expecting)), data)
    ensures step.Failed? ==> Prepend(xs, DecodeFixed(shapes, expecting, i, len, data, bigEndian, ext)) == Failed(step.error, step.rest)
    ensures step.Panicked? ==> DecodeFixed(shapes, expecting, i, len, data, bigEndian, ext).Panicked?
  {
    if step.Parsed? && step.value.Some? {
      PrependTwice(xs, step.value.value, DecodeFixed(shapes, expecting, i + 1, len, step.rest, bigEndian, ext));
    }
  }

  /** How the outcome of one `EntryStep` advances the map visitor. */
  lemma EntriesAfterStep(k: Shape, v: Shape, i: nat, len: nat, data: seq<u8>, bigEndian: bool, ext: Externals,
                         es: seq<Entry>, next: Result<Option<Entry>>, rest: seq<u8>)
    requires Outcome(next, rest) == EntryStep(i, len, k, v, data, bigEndian, ext)
    ensures next.Err? ==> Prepend(es, DecodeEntries(k, v, i, len, data, bigEndian, ext)) == Failed(next.error, rest)
    ensures next == Ok(None) ==> Prepend(es, DecodeEntries(k, v, i, len, data, bigEndian, ext)) == Parsed(es, rest)
    ensures next.Ok? && next.value.Some? ==>
      i < len &&
      Prepend(es, DecodeEntries(k, v, i, len, data, bigEndian, ext))
      == Prepend(es + [next.value.value], DecodeEntries(k, v, i + 1, len, rest, bigEndian, ext))
  {
    var step := EntryStep(i, len, k, v, data, bigEndian, ext);
    var d := DecodeEntries(k, v, i, len, data, bigEndian, ext);
    if next.Ok? && next.value.Some? {
      assert step == Parsed(next.value, rest);
      assert d == Prepend([next.value.value], DecodeEntries(k, v, i + 1, len, rest, bigEndian, ext));
      PrependTwice(es, next.value.value, DecodeEntries(k, v, i + 1, len, rest, bigEndian, ext));
    } else if next.Ok? {
      assert step == Parsed(None, rest);
      assert d == Parsed([], rest);
      assert es + [] == es;
    } else {
      assert step == Failed(next.error, rest);
    }
  }

  /** How the outcome of one `FieldStep` advances the struct-variant visitor's loop. */
  lemma FieldMapAfterStep(names: seq<string>, fields: seq<Shape>, i: nat, len: nat, found: seq<Option<Value>>,
                          data: seq<u8>, bigEndian: bool, ext: Externals,
                          next: Result<Option<seq<Option<Value>>>>, rest: seq<u8>)
    requires |found| == |fields|
    requires Outcome(next, rest) == FieldStep(names, fields, i, len, found, data, bigEndian, ext)
    ensures next.Err? ==> DecodeFieldMap(names, fields, i, len, found, data, bigEndian, ext) == Failed(next.error, rest)
    ensures next == Ok(None) ==> DecodeFieldMap(names, fields, i, len, found, data, bigEndian, ext) == Parsed(found, rest)
    ensures next.Ok? && next.value.Some? ==>
      i < len && |next.value.value| == |fields| &&
      DecodeFieldMap(names, fields, i, len, found, data, bigEndian, ext)
      == DecodeFieldMap(names, fields, i + 1, len, next.value.value, rest, bigEndian, ext)
  {
  }
}
