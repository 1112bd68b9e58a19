/**
 * The stream deserializer: `Deserializer` reads from a `Read` source, here
 * an in-memory reader (`&[u8]`) over `data`. Each `read` copies as many bytes
 * as are left, up to the size of its buffer, and advances past them.
 *
 * Unlike the in-memory deserializer, a short input is an error, not a
 * panic: `next` on an empty reader and a `take` that cannot be filled are
 * `UnexpectedEndOfInput`, and a `take` that falls short has drained the
 * reader. The functions below say what each step does to the bytes left in
 * the reader; the `Deserializer` class of `StreamDeState` performs the same
 * steps. The derived visitors read structs, tuple structs and the fields of
 * data variants as sequences, as the source hands all of them to
 * `deserialize_seq`.
 */
module StreamDe {
  import opened Bytes
  import opened Options
  import opened BinaryErrors
  import opened Common
  import opened DataModel
  import Text
  import Utf8
  import De

  /** `take(n)`: the next `n` bytes; when fewer are left, `UnexpectedEndOfInput`, and the reader is then empty. */
  function Take(data: seq<u8>, n: nat): (d: Decoded<seq<u8>>)
    ensures !d.Panicked?
    ensures d.Parsed? <==> n <= |data|
    ensures d.Parsed? ==> |d.value| == n && d.value + d.rest == data
    ensures d.Failed? ==> d.error == UnexpectedEndOfInput && d.rest == []
  {
    if |data| < n then Failed(UnexpectedEndOfInput, []) else Parsed(data[..n], data[n..])
  }

  /**
   * The `{:?}` text of `UnexpectedEndOfInput`, which `next_u32` wraps in a
   * `Message`: on an in-memory reader it is the only error `take` returns.
   */
  const END_OF_INPUT_DEBUG: string := "UnexpectedEndOfInput"

  /** `next_u32`: four bytes read as a `u32` in the chosen order; an error from `take` comes back as its `{:?}` text. */
  function NextU32(data: seq<u8>, bigEndian: bool): (d: Decoded<nat>)
    ensures !d.Panicked?
    ensures d.Parsed? <==> |data| >= 4
    ensures d.Parsed? ==> d.value < U32_LIMIT && d.rest == data[4..]
                          && ToBytes(U32, d.value, bigEndian) == data[..4]
    ensures d.Failed? ==> d == Failed(Message(END_OF_INPUT_DEBUG), [])
  {
    var taken := Take(data, 4);
    if taken.Failed? then Failed(Message(END_OF_INPUT_DEBUG), taken.rest)
    else
      BytesRoundTrip(U32, taken.value, bigEndian);
      Parsed(FromBytes(U32, taken.value, bigEndian), taken.rest)
  }

  /**
   * `next_usize`: one byte when its bit 7 is clear, otherwise two bytes and as
   * many more as the top three bits of the second one say (read one by one
   * with `next`, which fails as `take` does); the header then goes through
   * `decompress_usize`, whose error is returned.
   */
  function NextUsize(data: seq<u8>, ext: Externals): (d: Decoded<nat>)
    ensures !d.Panicked? && De.Suffix(d.rest, data)
    ensures d.Parsed? ==>
      && var header := data[..|data| - |d.rest|];
      && Framed(header) && ext.decompress(header) == Ok(d.value)
  {
    match De.Next(data)
    case Failed(e, rest) => Failed(e, rest)
    case Panicked => Panicked
    case Parsed(b0, r1) =>
      if b0 < 0x80 then
        assert data[..1] == [b0];
        Decompress([b0], r1, ext)
      else
        match De.Next(r1)
        case Failed(e, rest) => Failed(e, rest)
        case Panicked => Panicked
        case Parsed(b1, r2) =>
          match Take(r2, b1 / 32)
          case Failed(e, rest) => Failed(e, rest)
          case Panicked => Panicked
          case Parsed(extra, r3) =>
            assert data == [b0, b1] + extra + r3;
            assert data[..|data| - |r3|] == [b0, b1] + extra;
            Decompress([b0, b1] + extra, r3, ext)
  }

  /** `decompress_usize(header)?`. */
  function Decompress(header: seq<u8>, rest: seq<u8>, ext: Externals): (d: Decoded<nat>)
    ensures !d.Panicked? && d.rest == rest
    ensures d.Parsed? <==> ext.decompress(header).Ok?
    ensures d.Parsed? ==> ext.decompress(header) == Ok(d.value)
    ensures d.Failed? ==> d.error == ext.decompress(header).error
  {
    match ext.decompress(header)
    case Ok(n) => Parsed(n, rest)
    case Err(e) => Failed(e, rest)
  }

  /** `take_string`: a length, that many bytes, and `String::from_utf8` of them; a bad encoding is reported with its `{:?}` text. */
  function TakeString(data: seq<u8>, ext: Externals): (d: Decoded<string>)
    ensures !d.Panicked? && De.Suffix(d.rest, data)
  {
    match NextUsize(data, ext)
    case Failed(e, rest) => Failed(e, rest)
    case Panicked => Panicked
    case Parsed(size, r1) =>
      match Take(r1, size)
      case Failed(e, rest) => Failed(e, rest)
      case Panicked => Panicked
      case Parsed(bs, r2) =>
        match Utf8.FromUtf8(bs)
        case Text(str) => Parsed(str, r2)
        case FromUtf8Error(bytes, error) => Failed(Message(DebugFromUtf8Error(bytes, error)), r2)
  }

  /**
   * How many bytes `deserialize_char` reads after a lead byte, as the code is
   * written: none for ASCII, one after C0..DF, three after E0..EF and four
   * after F0..FF; `None` for a continuation byte.
   */
  function ExtraBytesAsWritten(lead: u8): (r: Option<nat>)
    ensures r.None? <==> 0x80 <= lead < 0xC0
  {
    if lead < 0x80 then Some(0)
    else if lead < 0xC0 then None
    else if lead < 0xE0 then Some(1)
    else if lead < 0xF0 then Some(3)
    else Some(4)
  }

  /** How many bytes follow a lead byte in UTF-8: none, one, two or three. */
  function ExtraBytes(lead: u8): (r: Option<nat>)
    ensures r.None? <==> 0x80 <= lead < 0xC0
    ensures Utf8.LeadWidth(lead) != 0 ==> r == Some(Utf8.LeadWidth(lead) - 1)
  {
    if lead < 0x80 then Some(0)
    else if lead < 0xC0 then None
    else if lead < 0xE0 then Some(1)
    else if lead < 0xF0 then Some(2)
    else Some(3)
  }

  /**
   * The rest of `deserialize_char` once the lead byte is read: the extra
   * bytes, `String::from_utf8` of all of them (its error through
   * `From<FromUtf8Error>`), and the first character of the string.
   */
  function CharAfterLead(lead: u8, extra: Option<nat>, data: seq<u8>): (d: Decoded<Value>)
    ensures !d.Panicked? && De.Suffix(d.rest, data)
    ensures d.Parsed? ==> d.value.Char?
    ensures extra.None? ==> d == Failed(InvalidBytes, data)
  {
    match extra
    case None => Failed(InvalidBytes, data)
    case Some(n) =>
      match Take(data, n)
      case Failed(e, rest) => Failed(e, rest)
      case Panicked => Panicked
      case Parsed(more, rest) =>
        match Utf8.FromUtf8([lead] + more)
        case FromUtf8Error(bytes, error) => Failed(BinaryErrors.FromUtf8Error(bytes, error), rest)
        case Text(s) =>
          if s == [] then Failed(Message("failed to decode character"), rest)
          else Parsed(Char(s[0]), rest)
  }

  /** `deserialize_char` as the code is written, with `ExtraBytesAsWritten`; this is what `Decode` reads for a `char`. */
  function DecodeCharAsWritten(data: seq<u8>): (d: Decoded<Value>)
    ensures !d.Panicked? && De.Suffix(d.rest, data)
    ensures d.Parsed? ==> d.value.Char?
    ensures data == [] ==> d == Failed(UnexpectedEndOfInput, [])
  {
    match De.Next(data)
    case Failed(e, rest) => Failed(e, rest)
    case Panicked => Panicked
    case Parsed(lead, r1) => CharAfterLead(lead, ExtraBytesAsWritten(lead), r1)
  }

  /**
   * `deserialize_char` reading as many bytes as the lead byte announces: the
   * corrected reader, which only the character round trip of the findings uses.
   */
  function DecodeChar(data: seq<u8>): (d: Decoded<Value>)
    ensures !d.Panicked? && De.Suffix(d.rest, data)
    ensures d.Parsed? ==> d.value.Char?
    ensures data == [] ==> d == Failed(UnexpectedEndOfInput, [])
  {
    match De.Next(data)
    case Failed(e, rest) => Failed(e, rest)
    case Panicked => Panicked
    case Parsed(lead, r1) => CharAfterLead(lead, ExtraBytes(lead), r1)
  }

  /** The reader as written and the corrected one differ only after a lead byte E0..FF. */
  lemma CharReadersAgree(data: seq<u8>)
    requires data == [] || data[0] < 0xE0
    ensures DecodeCharAsWritten(data) == DecodeChar(data)
  {
  }

  /** After a lead byte E0..FF the reader as written takes one byte more than the corrected one. */
  lemma CharReadersDiffer(lead: u8)
    requires lead >= 0xE0
    ensures ExtraBytesAsWritten(lead).Some? && ExtraBytes(lead).Some?
    ensures ExtraBytesAsWritten(lead).value == ExtraBytes(lead).value + 1
  {
  }

  /** `deserialize_u8`, `deserialize_i8` (one byte through `next`) and the `impl_deserialize_num!` bodies (`Width()` bytes). */
  function DecodeInt(t: IntType, data: seq<u8>, bigEndian: bool): (d: Decoded<Value>)
    ensures !d.Panicked? && De.Suffix(d.rest, data)
    ensures d.Parsed? <==> |data| >= t.Width()
    ensures d.Parsed? ==> d.value.Int? && d.value.t == t && t.Contains(d.value.i)
    ensures d.Failed? ==> d == Failed(UnexpectedEndOfInput, [])
  {
    if t == U8 || t == I8 then
      match De.Next(data)
      case Failed(e, rest) => Failed(e, rest)
      case Panicked => Panicked
      case Parsed(b, rest) => Parsed(Int(t, FromBytes(t, [b], bigEndian)), rest)
    else
      match Take(data, t.Width())
      case Failed(e, rest) => Failed(e, rest)
      case Panicked => Panicked
      case Parsed(bs, rest) => Parsed(Int(t, FromBytes(t, bs, bigEndian)), rest)
  }

  /** What `T::deserialize` reads from the reader when `T` has shape `s`. */
  function Decode(s: Shape, data: seq<u8>, bigEndian: bool, ext: Externals): (d: Decoded<Value>)
    ensures De.FromFront(d, data)
    decreases s, 4
  {
    match s
    case BoolS =>
      (match De.Next(data)
       case Failed(e, rest) => Failed(e, rest)
       case Panicked => Panicked
       case Parsed(b, rest) => Parsed(Bool(b != 0), rest))
    case IntS(t) => DecodeInt(t, data, bigEndian)
    case CharS => DecodeCharAsWritten(data)
    case StrS =>
      (match TakeString(data, ext)
       case Failed(e, rest) => Failed(e, rest)
       case Panicked => Panicked
       case Parsed(str, rest) => Parsed(Str(str), rest))
    case BytesS => Panicked
    case OptS(inner) => DecodeOption(inner, data, bigEndian, ext)
    case UnitS => Parsed(Unit, data)
    case SeqS(elem) => DecodeSeq(elem, data, bigEndian, ext)
    case TupleS(_, _) => DecodeTuple(s, data, bigEndian, ext)
    case MapS(k, v) => DecodeMap(k, v, data, bigEndian, ext)
    case StructS(_, _, _, _) => DecodeStruct(s, data, bigEndian, ext)
    case EnumS(_, _) => DecodeEnum(s, data, bigEndian, ext)
  }

  /** `deserialize_option`: `NONE`, or `SOME` and the inner value, or a wrong flag. */
  function DecodeOption(inner: Shape, data: seq<u8>, bigEndian: bool, ext: Externals): (d: Decoded<Value>)
    ensures De.FromFront(d, data)
    ensures d.Parsed? ==> d.value.OptNone? || d.value.OptSome?
    decreases OptS(inner), 2
  {
    match De.Next(data)
    case Failed(e, rest) => Failed(e, rest)
    case Panicked => Panicked
    case Parsed(flag, rest) =>
      if flag == NONE then Parsed(OptNone, rest)
      else if flag == SOME then
        match Decode(inner, rest, bigEndian, ext)
        case Failed(e, rest') => Failed(e, rest')
        case Panicked => Panicked
        case Parsed(x, rest') => Parsed(OptSome(x), rest')
      else Failed(MissingOrInvalidFlag(flag, SOME), rest)
  }

  /**
   * `deserialize_option` by its flag byte: `NONE` is `None`, any byte other
   * than `NONE` and `SOME` is refused with `SOME` as the expected flag, and an
   * empty reader is `UnexpectedEndOfInput` (`next()?`, not a panic).
   */
  lemma OptionFlags(inner: Shape, flag: u8, rest: seq<u8>, bigEndian: bool, ext: Externals)
    ensures DecodeOption(inner, [], bigEndian, ext) == Failed(UnexpectedEndOfInput, [])
    ensures flag == NONE ==> DecodeOption(inner, [flag] + rest, bigEndian, ext) == Parsed(OptNone, rest)
    ensures flag != NONE && flag != SOME ==>
              DecodeOption(inner, [flag] + rest, bigEndian, ext) == Failed(MissingOrInvalidFlag(flag, SOME), rest)
  {
    assert ([flag] + rest)[1..] == rest;
  }

  /** `deserialize_seq` under the `Vec` visitor: a count, then the elements. */
  function DecodeSeq(elem: Shape, data: seq<u8>, bigEndian: bool, ext: Externals): (d: Decoded<Value>)
    ensures De.FromFront(d, data)
    ensures d.Parsed? ==> d.value.Seq?
    decreases SeqS(elem), 2
  {
    match NextUsize(data, ext)
    case Failed(e, rest) => Failed(e, rest)
    case Panicked => Panicked
    case Parsed(len, r1) =>
      match DecodeElems(elem, 0, len, r1, bigEndian, ext)
      case Failed(e, rest) => Failed(e, rest)
      case Panicked => Panicked
      case Parsed(xs, rest) => Parsed(Seq(xs), rest)
  }

  /** `deserialize_tuple`: `deserialize_seq` under the tuple's visitor, which reads one element per field. */
  function DecodeTuple(s: Shape, data: seq<u8>, bigEndian: bool, ext: Externals): (d: Decoded<Value>)
    requires s.TupleS?
    ensures De.FromFront(d, data)
    ensures d.Parsed? ==> d.value.Seq? && |d.value.elems| == |s.elems|
    decreases s, 2
  {
    match DecodeSeqOf(s.elems, s.expecting, data, bigEndian, ext)
    case Failed(e, rest) => Failed(e, rest)
    case Panicked => Panicked
    case Parsed(xs, rest) => Parsed(Seq(xs), rest)
  }

  /** `deserialize_map`: the entries the map visitor reads, as a map. */
  function DecodeMap(k: Shape, v: Shape, data: seq<u8>, bigEndian: bool, ext: Externals): (d: Decoded<Value>)
    ensures De.FromFront(d, data)
    ensures d.Parsed? ==> d.value.Map?
    decreases MapS(k, v), 3
  {
    match DecodeMapEntries(k, v, data, bigEndian, ext)
    case Failed(e, rest) => Failed(e, rest)
    case Panicked => Panicked
    case Parsed(es, rest) => Parsed(Map(es), rest)
  }

  /** A count, then that many entries through the map visitor. */
  function DecodeMapEntries(k: Shape, v: Shape, data: seq<u8>, bigEndian: bool, ext: Externals): (d: Decoded<seq<Entry>>)
    ensures De.FromFront(d, data)
    decreases MapS(k, v), 2
  {
    match NextUsize(data, ext)
    case Failed(e, rest) => Failed(e, rest)
    case Panicked => Panicked
    case Parsed(len, r1) => DecodeEntries(k, v, 0, len, r1, bigEndian, ext)
  }

  /** `next_element_seed` at `position` of a series of `len`: `De.Admit`, then the element. */
  function SeriesStep(position: nat, len: nat, elem: Shape, data: seq<u8>, bigEndian: bool, ext: Externals)
    : (d: Decoded<Option<Value>>)
    ensures De.FromFront(d, data)
    ensures d.Parsed? && d.value.None? ==> position == len && d.rest == data
    ensures position == len ==> d == Parsed(None, data)
    ensures position > len ==> d == Failed(InvalidLength(position + 1, len), data)
    ensures d.Parsed? && d.value.Some? ==> position < len
    decreases elem, 5
  {
    match De.Admit(position, len)
    case Err(e) => Failed(e, data)
    case Ok(go) =>
      if !go then Parsed(None, data)
      else
        match Decode(elem, data, bigEndian, ext)
        case Failed(e, rest) => Failed(e, rest)
        case Panicked => Panicked
        case Parsed(x, rest) => Parsed(Some(x), rest)
  }

  /** The `Vec` visitor from `position` on: `next_element` until it returns `None`. */
  function DecodeElems(elem: Shape, position: nat, len: nat, data: seq<u8>, bigEndian: bool, ext: Externals)
    : (d: Decoded<seq<Value>>)
    ensures De.FromFront(d, data)
    ensures d.Parsed? ==> position <= len && |d.value| == len - position
    decreases SeqS(elem), 1, len - position
  {
    match SeriesStep(position, len, elem, data, bigEndian, ext)
    case Parsed(Some(x), rest) => De.Prepend([x], DecodeElems(elem, position + 1, len, rest, bigEndian, ext))
    case Parsed(None, rest) => Parsed([], rest)
    case Failed(e, rest) => Failed(e, rest)
    case Panicked => Panicked
  }

  /**
   * The `visit_seq` of a tuple, a tuple struct, a struct or a data variant
   * from field `i` on: one `next_element` per field; a series that ends
   * early is serde's "invalid length" error naming the index.
   */
  function DecodeFixed(shapes: seq<Shape>, expecting: string, i: nat, len: nat, data: seq<u8>,
                       bigEndian: bool, ext: Externals): (d: Decoded<seq<Value>>)
    requires i <= |shapes|
    ensures De.FromFront(d, data)
    ensures d.Parsed? ==> |d.value| == |shapes| - i
    decreases shapes, 1, |shapes| - i
  {
    if i == |shapes| then Parsed([], data)
    else
      assert shapes[i] in shapes;
      match SeriesStep(i, len, shapes[i], data, bigEndian, ext)
      case Parsed(Some(x), rest) => De.Prepend([x], DecodeFixed(shapes, expecting, i + 1, len, rest, bigEndian, ext))
      case Parsed(None, rest) => Failed(Custom(De.InvalidLengthMessage(i, expecting)), rest)
      case Failed(e, rest) => Failed(e, rest)
      case Panicked => Panicked
  }

  /** A count, then the fields through `DecodeFixed`: `deserialize_seq` under a fixed-length visitor. */
  function DecodeSeqOf(shapes: seq<Shape>, expecting: string, data: seq<u8>, bigEndian: bool, ext: Externals)
    : (d: Decoded<seq<Value>>)
    ensures De.FromFront(d, data)
    ensures d.Parsed? ==> |d.value| == |shapes|
    decreases shapes, 2
  {
    match NextUsize(data, ext)
    case Failed(e, rest) => Failed(e, rest)
    case Panicked => Panicked
    case Parsed(len, r1) => DecodeFixed(shapes, expecting, 0, len, r1, bigEndian, ext)
  }

  /** `next_entry_seed` (serde's default): `next_key_seed`, then `next_value_seed` when there is a key. */
  function EntryStep(position: nat, len: nat, k: Shape, v: Shape, data: seq<u8>, bigEndian: bool, ext: Externals)
    : (d: Decoded<Option<Entry>>)
    ensures De.FromFront(d, data)
    ensures d.Parsed? && d.value.None? ==> position == len && d.rest == data
    ensures position == len ==> d == Parsed(None, data)
    ensures position > len ==> d == Failed(InvalidLength(position + 1, len), data)
    ensures d.Parsed? && d.value.Some? ==> position < len
    decreases MapS(k, v), 0
  {
    match SeriesStep(position, len, k, data, bigEndian, ext)
    case Failed(e, rest) => Failed(e, rest)
    case Panicked => Panicked
    case Parsed(key, r1) =>
      if key.None? then Parsed(None, r1)
      else
        match Decode(v, r1, bigEndian, ext)
        case Failed(e, rest) => Failed(e, rest)
        case Panicked => Panicked
        case Parsed(val, rest) => Parsed(Some(Entry(key.value, val)), rest)
  }

  /** The map visitor from `position` on: `next_entry` until it returns `None`. */
  function DecodeEntries(k: Shape, v: Shape, position: nat, len: nat, data: seq<u8>, bigEndian: bool, ext: Externals)
    : (d: Decoded<seq<Entry>>)
    ensures De.FromFront(d, data)
    ensures d.Parsed? ==> position <= len && |d.value| == len - position
    decreases MapS(k, v), 1, len - position
  {
    match EntryStep(position, len, k, v, data, bigEndian, ext)
    case Parsed(Some(e), rest) => De.Prepend([e], DecodeEntries(k, v, position + 1, len, rest, bigEndian, ext))
    case Parsed(None, rest) => Parsed([], rest)
    case Failed(e, rest) => Failed(e, rest)
    case Panicked => Panicked
  }

  /** `deserialize_struct`: a count and the fields in order; the name is not in the data. */
  function DecodeStruct(s: Shape, data: seq<u8>, bigEndian: bool, ext: Externals): (d: Decoded<Value>)
    requires s.StructS?
    ensures De.FromFront(d, data)
    ensures d.Parsed? ==> d.value.Struct? && d.value.name == s.name && |d.value.fields| == |s.fields|
    decreases s, 2
  {
    match DecodeSeqOf(s.fields, s.expecting, data, bigEndian, ext)
    case Failed(e, rest) => Failed(e, rest)
    case Panicked => Panicked
    case Parsed(xs, rest) => Parsed(Struct(s.name, xs), rest)
  }

  /** The message of serde's `invalid_value` for a variant index the derived identifier visitor rejects. */
  function VariantIndexMessage(idx: nat, n: nat): string
  {
    "invalid value: integer `" + Text.Dec(idx) + "`, expected variant index 0 <= i < " + Text.Dec(n)
  }

  /** The message gives back both the rejected index and the number of variants. */
  lemma VariantIndexMessageInjective(idx: nat, n: nat, idx': nat, n': nat)
    requires VariantIndexMessage(idx, n) == VariantIndexMessage(idx', n')
    ensures idx == idx' && n == n'
  {
    var sep := "`, expected variant index 0 <= i < ";
    var d, dn, d', dn' := Text.Dec(idx), Text.Dec(n), Text.Dec(idx'), Text.Dec(n');
    CommonPrefix("invalid value: integer `", d, sep, dn, d', dn');
    assert forall i :: 0 <= i < |d| ==> Text.IsDigit(d[i], 10) && d[i] != sep[0];
    assert forall i :: 0 <= i < |d'| ==> Text.IsDigit(d'[i], 10) && d'[i] != sep[0];
    SplitAtSeparator(d, dn, d', dn', sep);
    Text.RadixInjective(idx, idx', 10);
    Text.RadixInjective(n, n', 10);
  }

  /**
   * `deserialize_enum`: a flag, then the variant index as a `u32`. After
   * `NONUNIT_VARIANT` or `STRUCT_VARIANT` the index goes to the `Enum`
   * access (an index past the variants is the derived visitor's error);
   * after `UNIT_VARIANT` it selects a name from the variant list (unchecked)
   * for serde's string deserializer, which only accepts a unit variant.
   */
  function DecodeEnum(s: Shape, data: seq<u8>, bigEndian: bool, ext: Externals): (d: Decoded<Value>)
    requires s.EnumS?
    ensures De.FromFront(d, data)
    ensures d.Parsed? ==> De.IsEnumValue(d.value) && d.value.enumName == s.name && d.value.index < |s.variants|
    decreases s, 2
  {
    match De.Next(data)
    case Failed(e, rest) => Failed(e, rest)
    case Panicked => Panicked
    case Parsed(tag, r1) =>
      if tag == ext.nonunitVariant || tag == STRUCT_VARIANT then
        match NextU32(r1, bigEndian)
        case Failed(e, rest) => Failed(e, rest)
        case Panicked => Panicked
        case Parsed(idx, r2) =>
          if idx >= |s.variants| then Failed(Custom(VariantIndexMessage(idx, |s.variants|)), r2)
          else DecodeVariant(s, idx, r2, bigEndian, ext)
      else if tag == UNIT_VARIANT then
        match NextU32(r1, bigEndian)
        case Failed(e, rest) => Failed(e, rest)
        case Panicked => Panicked
        case Parsed(idx, r2) =>
          if idx >= |s.variants| then Panicked
          else match s.variants[idx]
            case UnitV(_) => Parsed(UnitVariant(s.name, idx), r2)
            case NewtypeV(_, _) => Failed(Custom(De.UnitVariantMismatch("newtype variant")), r2)
            case TupleV(_, _, _) => Failed(Custom(De.UnitVariantMismatch("tuple variant")), r2)
            case StructV(_, _, _, _) => Failed(Custom(De.UnitVariantMismatch("struct variant")), r2)
      else Failed(MissingOrInvalidFlag(tag, UNIT_VARIANT), r1)
  }

  /**
   * `deserialize_enum` by its tag byte: a tag that is none of the three
   * variant flags is refused with `UNIT_VARIANT` (0xFE) as the expected flag,
   * and an empty reader is `UnexpectedEndOfInput`.
   */
  lemma EnumTags(s: Shape, tag: u8, rest: seq<u8>, bigEndian: bool, ext: Externals)
    requires s.EnumS?
    ensures DecodeEnum(s, [], bigEndian, ext) == Failed(UnexpectedEndOfInput, [])
    ensures tag != ext.nonunitVariant && tag != STRUCT_VARIANT && tag != UNIT_VARIANT ==>
              DecodeEnum(s, [tag] + rest, bigEndian, ext) == Failed(MissingOrInvalidFlag(tag, UNIT_VARIANT), rest)
  {
    assert ([tag] + rest)[1..] == rest;
  }

  /** What the `Enum` access reads for variant `idx`: `unit_variant` refuses; the others read the contents. */
  function DecodeVariant(s: Shape, idx: nat, data: seq<u8>, bigEndian: bool, ext: Externals): (d: Decoded<Value>)
    requires s.EnumS? && idx < |s.variants|
    ensures De.FromFront(d, data)
    ensures d.Parsed? ==> IsDataVariant(d.value) && d.value.enumName == s.name && d.value.index == idx
    decreases s, 1
  {
    var variant := s.variants[idx];
    assert variant in s.variants;
    match variant
    case UnitV(_) => Failed(UnexpectedType, data)
    case NewtypeV(_, inner) =>
      (match Decode(inner, data, bigEndian, ext)
       case Failed(e, rest) => Failed(e, rest)
       case Panicked => Panicked
       case Parsed(x, rest) => Parsed(NewtypeVariant(s.name, idx, x), rest))
    case TupleV(_, expecting, elems) =>
      (match DecodeSeqOf(elems, expecting, data, bigEndian, ext)
       case Failed(e, rest) => Failed(e, rest)
       case Panicked => Panicked
       case Parsed(xs, rest) => Parsed(TupleVariant(s.name, idx, xs), rest))
    case StructV(_, expecting, _, fields) =>
      match DecodeSeqOf(fields, expecting, data, bigEndian, ext)
      case Failed(e, rest) => Failed(e, rest)
      case Panicked => Panicked
      case Parsed(xs, rest) => Parsed(StructVariant(s.name, idx, xs), rest)
  }

  /** How one `SeriesStep` advances the `Vec` visitor. */
  lemma ElemsAfterStep(elem: Shape, i: nat, len: nat, data: seq<u8>, bigEndian: bool, ext: Externals,
                       xs: seq<Value>, step: Decoded<Option<Value>>)
    requires step == SeriesStep(i, len, elem, data, bigEndian, ext)
    ensures step.Parsed? && step.value.Some? ==>
      i < len &&
      De.Prepend(xs, DecodeElems(elem, i, len, data, bigEndian, ext))
      == De.Prepend(xs + [step.value.value], DecodeElems(elem, i + 1, len, step.rest, bigEndian, ext))
    ensures step.Parsed? && step.value.None? ==> De.Prepend(xs, DecodeElems(elem, i, len, data, bigEndian, ext)) == Parsed(xs, data)
    ensures step.Failed? ==> De.Prepend(xs, DecodeElems(elem, i, len, data, bigEndian, ext)) == Failed(step.error, step.rest)
    ensures step.Panicked? ==> DecodeElems(elem, i, len, data, bigEndian, ext).Panicked?
  {
    if step.Parsed? && step.value.Some? {
      De.PrependTwice(xs, step.value.value, DecodeElems(elem, i + 1, len, step.rest, bigEndian, ext));
    } else if step.Parsed? {
      assert xs + [] == xs;
    }
  }

  /** How one `SeriesStep` advances a fixed-length visitor. */
  lemma FixedAfterStep(shapes: seq<Shape>, expecting: string, i: nat, len: nat, data: seq<u8>, bigEndian: bool,
                       ext: Externals, xs: seq<Value>, step: Decoded<Option<Value>>)
    requires i < |shapes|
    requires step == SeriesStep(i, len, shapes[i], data, bigEndian, ext)
    ensures step.Parsed? && step.value.Some? ==>
      De.Prepend(xs, DecodeFixed(shapes, expecting, i, len, data, bigEndian, ext))
      == De.Prepend(xs + [step.value.value], DecodeFixed(shapes, expecting, i + 1, len, step.rest, bigEndian, ext))
    ensures step.Parsed? && step.value.None? ==>
      De.Prepend(xs, DecodeFixed(shapes, expecting, i, len, data, bigEndian, ext))
      == Failed(Custom(De.InvalidLengthMessage(i, expecting)), data)
    ensures step.Failed? ==> De.Prepend(xs, DecodeFixed(shapes, expecting, i, len, data, bigEndian, ext)) == Failed(step.error, step.rest)
    ensures step.Panicked? ==> DecodeFixed(shapes, expecting, i, len, data, bigEndian, ext).Panicked?
  {
    if step.Parsed? && step.value.Some? {
      De.PrependTwice(xs, step.value.value, DecodeFixed(shapes, expecting, i + 1, len, step.rest, bigEndian, ext));
    }
  }

  /** How the outcome of one `EntryStep` advances the map visitor. */
  lemma EntriesAfterStep(k: Shape, v: Shape, i: nat, len: nat, data: seq<u8>, bigEndian: bool, ext: Externals,
                         es: seq<Entry>, next: Result<Option<Entry>>, rest: seq<u8>)
    requires Outcome(next, rest) == EntryStep(i, len, k, v, data, bigEndian, ext)
    ensures next.Err? ==> De.Prepend(es, DecodeEntries(k, v, i, len, data, bigEndian, ext)) == Failed(next.error, rest)
    ensures next == Ok(None) ==> De.Prepend(es, DecodeEntries(k, v, i, len, data, bigEndian, ext)) == Parsed(es, rest)
    ensures next.Ok? && next.value.Some? ==>
      i < len &&
      De.Prepend(es, DecodeEntries(k, v, i, len, data, bigEndian, ext))
      == De.Prepend(es + [next.value.value], DecodeEntries(k, v, i + 1, len, rest, bigEndian, ext))
  {
    if next.Ok? && next.value.Some? {
      De.PrependTwice(es, next.value.value, DecodeEntries(k, v, i + 1, len, rest, bigEndian, ext));
    } else if next.Ok? {
      assert es + [] == es;
    }
  }
}
