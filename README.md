# serde_binary_adv and lowlevel-types ASCII, modelled in Dafny

`serde_binary_adv` is a compact binary data format for Rust's serde. It has
two serializer/deserializer pairs:

- **In-memory.** `Serializer` appends to a `Vec<u8>`. `Deserializer` consumes a
  copy of the input vector from the front.
- **Stream.** `Serializer` writes to a `Write` sink. `Deserializer` reads from a
  `Read` source.

Both pairs write integers in little- or big-endian order. They write a `bool`
as one byte and a `char` as its UTF-8 bytes. Strings and collections are
preceded by a compressed length header (`compress_usize`). Options and enum
variants are marked by one-byte type flags (`common.rs`). Every failure is a
`BinaryError`, whose `Display` text is part of the format's contract.

Next to it, the `lowlevel-types` crate has ASCII types:

- `ascii::Char`: a byte read as a character, with classifiers and case mappings.
- `AChar`: the older character type.
- `FixedLengthString<N>`: exactly `N` characters, padded with NULs.
- `AString`: a growable string that may be fixed in length.

`FixedLengthString` and `Char` serialize through serde, so they meet the binary
formats.

The model has these parts:

- **Values and types.** serde's data model is a `Value` datatype, and the Rust
  type that drives a deserializer is a `Shape`. `Fits(v, s)` says that `v` is a
  value of that type.
- **Specification functions.** Each serializer is a class whose buffer only
  grows at its end. Its methods are proved to append exactly what the
  specification function `Emit` gives. Each deserializer is a class over the
  unread input. Its methods are proved to return and leave exactly what the
  specification function `Decode` gives. `Decode` returns a value, an error or
  a panic, together with the unread input. Both `Decode` functions follow the
  code as written, including the stream reader's character bug (see Findings).
- **Round trips.** In the in-memory format, writing then reading a portable
  value returns it and leaves whatever followed untouched. In the stream
  format the same holds for values without byte buffers whose characters are
  all below U+0800; a character of three or four UTF-8 bytes is not read
  back, because the reader as written takes one byte too many. So two such
  values never share an encoding.
- **Error paths.** Each flag the readers check has a lemma naming the error
  that a wrong flag, a wrong struct name or empty input gives.
- **Shared pieces.** The length codec and the `NONUNIT_VARIANT` flag are used
  but not defined in the modelled files. They are the parameter `Externals`,
  about which only `Sound` is assumed:
  - the codec round-trips every `usize`;
  - its headers have the shape `next_usize` reads;
  - the extra flag differs from the five known ones.
- **Panics.** Where the source calls `unwrap`, the model returns `Panicked`.
  The state-changing methods require that their specification does not panic.

## Model

| member | source | states |
|---|---|---|
| Common.Flags | src/serde_binary_adv/common.rs:1-7 | there are five type flags |
| Common.FlagsDistinct | src/serde_binary_adv/common.rs:19-26 | the flags are 0x00, 0xFF, 0xFE, 0xFD, 0xFC and pairwise distinct |
| Common.Outcome | src/serde_binary_adv/common.rs:10 | a `Result` with the unread input is a parsed value exactly when it is `Ok`, and never a panic |
| Common.CompressInjective | src/serde_binary_adv/stream/ser.rs:63-66 | a sound length codec never writes one header for two lengths |
| Common.FramedPrefixFree | src/serde_binary_adv/stream/de.rs:143-155 | a length header is never a proper prefix of another, so the reader knows where it ends |
| BinaryErrors.Custom | src/serde_binary_adv/binaryerror.rs:26-40 | `custom` builds a `Message` whose display is the message itself |
| BinaryErrors.FromUtf8Error | src/serde_binary_adv/binaryerror.rs:70-76 | a UTF-8 error becomes a `Message` holding its debug text, which includes the offending bytes |
| BinaryErrors.Display | src/serde_binary_adv/binaryerror.rs:42-66 | a message shows as itself; every other error shows a non-empty sentence starting with a lower-case letter |
| BinaryErrors.Utf8ErrorDisplayExample | src/serde_binary_adv/binaryerror.rs:70-76 | the lone byte 0xFF fails UTF-8 validation at index 0 with one bad byte, and converts to the `FromUtf8Error { bytes: [255], ... }` debug text |
| BinaryErrors.FlagDisplayInjective | src/serde_binary_adv/binaryerror.rs:48-52 | the flag error's text determines both the actual and the expected flag |
| BinaryErrors.LengthDisplayInjective | src/serde_binary_adv/binaryerror.rs:53-59 | the length error's text determines both lengths |
| BinaryErrors.FixedTextsDistinct | src/serde_binary_adv/binaryerror.rs:46-63 | the three fixed error texts differ from each other |
| BinaryErrors.MessageDisplayExample | src/serde_binary_adv/binaryerror.rs:84-89 | a message error displays as its message |
| BinaryErrors.LengthDisplayExample | src/serde_binary_adv/binaryerror.rs:94-100 | `InvalidLength(2, 1)` displays as "invalid length, actual 2, expected 1" |
| BinaryErrors.NameDisplayExample | src/serde_binary_adv/binaryerror.rs:101-107 | `InvalidName` displays both names after their labels |
| BinaryErrors.FlagDisplayExample | src/serde_binary_adv/binaryerror.rs:108-114 | flags display in upper-case hexadecimal after "0x" |
| Bytes.IntRoundTrip | src/serde_binary_adv/de.rs:14-31 | `from_le_bytes`/`from_be_bytes` of `to_le_bytes`/`to_be_bytes` gives back every integer of the type, signed types in two's complement |
| Bytes.BytesRoundTrip | src/serde_binary_adv/ser.rs:38-45 | every byte string of the type's width is the encoding of the integer it decodes to |
| Bytes.IntEncodingInjective | src/serde_binary_adv/ser.rs:38-45 | two integers of one type never share an encoding |
| Bytes.BigEndianIsReversed | src/serde_binary_adv/ser.rs:38-45 | the big-endian bytes are the little-endian bytes reversed |
| Bytes.ToBytes | src/serde_binary_adv/ser.rs:38-45 | `to_le_bytes`/`to_be_bytes` give exactly the type's width in bytes |
| Bytes.FromBytes | src/serde_binary_adv/de.rs:14-31 | `from_le_bytes`/`from_be_bytes` of the type's width always give a value in the type's range |
| Utf8.EncodeStringRoundTrip | src/serde_binary_adv/ser.rs:116-119 | the UTF-8 bytes of any text are valid and decode to that text |
| Utf8.DecodeRoundTrip | src/serde_binary_adv/de.rs:116-119 | valid UTF-8 decodes to a text whose encoding is those bytes |
| Utf8.FromUtf8 | src/serde_binary_adv/stream/de.rs:157-165 | `String::from_utf8` succeeds exactly on valid UTF-8 and otherwise returns the bytes it was given |
| Utf8.EncodeCharScans | src/serde_binary_adv/de.rs:155-190 | a character's encoding starts with a lead byte announcing its width, and decoding that many bytes gives the character back |
| Utf8.EncodeChar | src/serde_binary_adv/ser.rs:111-114 | one to four bytes, and a single byte exactly for an ASCII character |
| Utf8.EncodeString | src/serde_binary_adv/ser.rs:116-119 | at least one byte per character |
| Ser.Serializer.constructor | src/serde_binary_adv/ser.rs:31-36 | `new` starts with an empty buffer and the chosen byte order |
| Ser.Serializer.SerializeNum | src/serde_binary_adv/ser.rs:38-45 | appends the integer's bytes in the chosen order |
| Ser.Serializer.SerializeVec | src/serde_binary_adv/ser.rs:47-52 | appends each byte in turn |
| Ser.Serializer.SerializeBool | src/serde_binary_adv/ser.rs:67-69 | appends 1 for true and 0 for false |
| Ser.Serializer.SerializeChar | src/serde_binary_adv/ser.rs:111-114 | appends the character's UTF-8 bytes |
| Ser.Serializer.SerializeStr | src/serde_binary_adv/ser.rs:116-119 | appends the byte length header, then the UTF-8 bytes |
| Ser.Serializer.SerializeBytes | src/serde_binary_adv/ser.rs:121-125 | appends the length header, then the bytes |
| Ser.Serializer.SerializeNone | src/serde_binary_adv/ser.rs:127-129 | appends the `NONE` flag |
| Ser.Serializer.SerializeUnitVariant | src/serde_binary_adv/ser.rs:147-155 | appends `UNIT_VARIANT`, then the index as a `u32` |
| Ser.Serializer.SerializeSeqHeader | src/serde_binary_adv/ser.rs:178-188 | a sequence or map starts with its element count |
| Ser.Serializer.SerializeTupleVariantHeader | src/serde_binary_adv/ser.rs:202-212 | a tuple variant starts with its index, then its field count |
| Ser.Serializer.SerializeStructHeader | src/serde_binary_adv/ser.rs:226-231 | a struct starts with `STRUCT`, its name, then its field count |
| Ser.Serializer.SerializeStructVariantHeader | src/serde_binary_adv/ser.rs:233-245 | a struct variant starts with `STRUCT_VARIANT`, the name, the index, then the field count |
| Ser.Serializer.SerializeLeaf | src/serde_binary_adv/ser.rs:67-155 | a value with no value inside it appends exactly its specified bytes; a 128-bit integer appends nothing and fails |
| Ser.Serializer.SerializeWrapped | src/serde_binary_adv/ser.rs:131-176 | `Some` appends `SOME` then the value; a newtype variant appends its index then the value |
| Ser.Serializer.SerializeCollection | src/serde_binary_adv/ser.rs:178-224 | a sequence, map or tuple variant appends its header, then its items in order, stopping at the first error |
| Ser.Serializer.SerializeStruct | src/serde_binary_adv/ser.rs:336-350 | a struct appends its header, then its fields in order |
| Ser.Serializer.SerializeStructVariant | src/serde_binary_adv/ser.rs:352-366 | a struct variant appends its header, then its fields in order |
| Ser.Serializer.SerializeElements | src/serde_binary_adv/ser.rs:248-311 | `serialize_element`/`serialize_field` append each element in turn, stopping at the first error |
| Ser.Serializer.SerializeEntries | src/serde_binary_adv/ser.rs:313-334 | each key is appended before its value, entry after entry |
| Ser.Serializer.SerializeEntry | src/serde_binary_adv/ser.rs:317-329 | a key, then its value, unless the key failed |
| Ser.Serializer.Serialize | src/serde_binary_adv/ser.rs:55-245 | serializing any value appends what `Emit` specifies and reports its error |
| Ser.ToBytesOf | src/serde_binary_adv/ser.rs:21-28 | `to_bytes` returns the whole encoding, or the first error |
| Ser.EmitFailsOn128 | src/serde_binary_adv/ser.rs:55-245 | serializing fails exactly when a 128-bit integer occurs at some depth, and the error is a `custom` message |
| Ser.EmitAllFailsOn128 | src/serde_binary_adv/ser.rs:248-311 | a series of elements fails exactly when one of them holds a 128-bit integer |
| Ser.EmitEntriesFailsOn128 | src/serde_binary_adv/ser.rs:313-334 | a map fails exactly when a key or value holds a 128-bit integer |
| Ser.EncodeFailsOn128 | src/serde_binary_adv/ser.rs:21-28 | `to_bytes` returns bytes exactly for values without a 128-bit integer |
| De.Peek | src/serde_binary_adv/de.rs:73-79 | returns the first byte, or `UnexpectedEndOfInput` on empty input |
| De.Next | src/serde_binary_adv/de.rs:81-87 | removes and returns the first byte, or fails on empty input and consumes nothing |
| De.Take | src/serde_binary_adv/de.rs:89-98 | splits off exactly `len` bytes, or fails when fewer remain and consumes nothing |
| De.NextU32 | src/serde_binary_adv/de.rs:33-44 | reads a `u32` in the chosen order from four bytes; short input panics through the callers' `unwrap` |
| De.NextUsize | src/serde_binary_adv/de.rs:102-114 | reads exactly one framed header and decodes it; running short panics |
| De.TakeString | src/serde_binary_adv/de.rs:116-119 | never reports a soft error, because the code unwraps every failure into a panic; a string read leaves a suffix of the input |
| De.CharWidth | src/serde_binary_adv/de.rs:155-190 | the lead byte's range fixes how many bytes `deserialize_char` takes; a continuation byte is refused |
| De.DecodeChar | src/serde_binary_adv/de.rs:155-190 | a continuation lead byte is `InvalidBytes` and consumes nothing; anything else consumes from the front |
| De.DecodeInt | src/serde_binary_adv/de.rs:125-153 | an integer of the requested type and in its range is read; the 128-bit types are refused |
| De.DecodeBytes | src/serde_binary_adv/de.rs:206-220 | reads only from the front of the input, and a success is a byte buffer |
| De.DecodeOption | src/serde_binary_adv/de.rs:222-237 | reads only from the front of the input; what it reads back is fixed by `RoundTrip.OptionRoundTrip` |
| De.OptionFlags | src/serde_binary_adv/de.rs:222-237 | empty input panics; `NONE` reads `None`; any flag but `NONE` and `SOME` is `MissingOrInvalidFlag` against `SOME`, with the flag consumed |
| De.DecodeCollection | src/serde_binary_adv/de.rs:261-294 | reads only from the front of the input; what it reads back is fixed by the sequence, tuple and map round trips |
| De.Admit | src/serde_binary_adv/de.rs:392-400 | the series hands out items while the position is below the count, ends exactly at the count, and past it reports `InvalidLength` |
| De.SeriesStep | src/serde_binary_adv/de.rs:385-402 | `next_element_seed`: at the count it ends without reading; past it, it fails without reading |
| De.DecodeElems | src/serde_binary_adv/de.rs:385-402 | reading a series yields exactly the announced number of elements |
| De.DecodeFixed | src/serde_binary_adv/de.rs:269-286 | a tuple reads exactly as many elements as its type has |
| De.EntryStep | src/serde_binary_adv/de.rs:408-429 | `next_key_seed` then `next_value_seed`, with the same end and overrun rules as a sequence |
| De.DecodeEntries | src/serde_binary_adv/de.rs:408-429 | reading a map yields exactly the announced number of entries |
| De.DecodeStruct | src/serde_binary_adv/de.rs:296-324 | reads from the front; a struct read has the type's name and one value per field of the type |
| De.DecodeNamedStruct | src/serde_binary_adv/de.rs:305-323 | after the flag, a struct read has the type's name and one value per field of the type |
| De.StructFlag | src/serde_binary_adv/de.rs:296-304 | empty input panics; any flag but `STRUCT` is `MissingOrInvalidFlag` against `STRUCT`; after `STRUCT` the name and fields are read |
| De.InvalidLengthMessageInjective | lowlevel-types/src/ascii/fixedlengthstring.rs:155 | the `invalid_length` text gives back both the length and the expectation |
| De.DecodeSeqOf | src/serde_binary_adv/de.rs:261-267 | a counted series of fixed shapes yields one value per shape |
| De.VariantIndex | src/serde_binary_adv/de.rs:446-451 | a variant name maps to the index of the variant so named, or to none when no variant has it |
| De.DecodeEnum | src/serde_binary_adv/de.rs:326-342 | reads from the front; a success is a variant of that enum, with an index inside its variant list |
| De.DecodeVariant | src/serde_binary_adv/de.rs:454-480 | reads from the front; a success is a data-carrying variant of that enum at the given index |
| De.DecodeStructFields | src/serde_binary_adv/de.rs:475-480 | a struct variant reads a map of named fields, one per field of the type |
| De.VisitStructFields | src/serde_binary_adv/de.rs:405-429 | a field map yields one value per field of the type |
| De.FieldIndex | src/serde_binary_adv/de.rs:344-349 | a field name maps to the index of the field so named, or to none |
| De.NameStep | src/serde_binary_adv/de.rs:408-422 | reading a field name follows the series' end and overrun rules |
| De.FieldStep | src/serde_binary_adv/de.rs:408-429 | a name, then that field's value, with the series' end and overrun rules |
| De.DecodeFieldMap | src/serde_binary_adv/de.rs:405-429 | reading a field map keeps one slot per field of the type |
| De.CollectFields | src/serde_binary_adv/de.rs:475-480 | a success gives exactly one value per remaining field |
| De.ElemsAfterStep | src/serde_binary_adv/de.rs:385-402 | one element read then the rest read is the whole series read |
| De.EntriesAfterStep | src/serde_binary_adv/de.rs:408-429 | one entry read then the rest read is the whole map read |
| De.FieldMapAfterStep | src/serde_binary_adv/de.rs:408-429 | one field read then the rest read is the whole field map read |
| De.Decode | src/serde_binary_adv/de.rs:122-364 | deserializing any shape reads only from the front of the input; what it reads back is fixed by `RoundTrip.ValueRoundTrip` and its errors by the flag lemmas |
| DeState.Deserializer.constructor | src/serde_binary_adv/de.rs:65-71 | `new` holds the whole input and the chosen byte order |
| DeState.Deserializer.Peek | src/serde_binary_adv/de.rs:73-79 | returns what `Peek` specifies and changes nothing |
| DeState.Deserializer.Next | src/serde_binary_adv/de.rs:81-87 | returns and leaves what `Next` specifies |
| DeState.Deserializer.Take | src/serde_binary_adv/de.rs:89-98 | returns and leaves what `Take` specifies |
| DeState.Deserializer.NextU32 | src/serde_binary_adv/de.rs:100 | returns and leaves what `NextU32` specifies |
| DeState.Deserializer.NextUsize | src/serde_binary_adv/de.rs:102-114 | reads the header byte by byte, as `NextUsize` specifies |
| DeState.Deserializer.TakeString | src/serde_binary_adv/de.rs:116-119 | returns and leaves what `TakeString` specifies |
| DeState.Deserializer.Deserialize | src/serde_binary_adv/de.rs:122-364 | deserializing any shape returns and leaves what `Decode` specifies |
| DeState.Deserializer.DeserializeInt | src/serde_binary_adv/de.rs:125-153 | as `DecodeInt` |
| DeState.Deserializer.DeserializeChar | src/serde_binary_adv/de.rs:155-190 | as `DecodeChar` |
| DeState.Deserializer.DeserializeBytes | src/serde_binary_adv/de.rs:206-220 | as `DecodeBytes` |
| DeState.Deserializer.DeserializeOption | src/serde_binary_adv/de.rs:222-237 | as `DecodeOption` |
| DeState.Deserializer.DeserializeCollection | src/serde_binary_adv/de.rs:261-294 | as `DecodeCollection` |
| DeState.Deserializer.VisitVec | src/serde_binary_adv/de.rs:385-402 | the visitor's loop over `next_element_seed` reads what `DecodeElems` specifies |
| DeState.Deserializer.VisitFixed | src/serde_binary_adv/de.rs:385-402 | the tuple visitor's loop reads what `DecodeFixed` specifies |
| DeState.Deserializer.VisitEntries | src/serde_binary_adv/de.rs:405-429 | the map visitor's loop reads what `DecodeEntries` specifies |
| DeState.Deserializer.EntryRound | src/serde_binary_adv/de.rs:408-429 | one round of the map loop advances `DecodeEntries` by one entry, or ends it |
| DeState.Deserializer.DeserializeStruct | src/serde_binary_adv/de.rs:296-324 | as `DecodeStruct` |
| DeState.Deserializer.DeserializeSeqOf | src/serde_binary_adv/de.rs:261-267 | as `DecodeSeqOf` |
| DeState.Deserializer.DeserializeEnum | src/serde_binary_adv/de.rs:326-342 | as `DecodeEnum` |
| DeState.Deserializer.DeserializeVariant | src/serde_binary_adv/de.rs:454-480 | as `DecodeVariant` |
| DeState.Deserializer.DeserializeStructFields | src/serde_binary_adv/de.rs:475-480 | as `DecodeStructFields` |
| DeState.Deserializer.VisitFieldMap | src/serde_binary_adv/de.rs:405-429 | the struct-variant visitor's loop reads what `VisitStructFields` specifies |
| DeState.Deserializer.FieldRound | src/serde_binary_adv/de.rs:408-429 | one round of the field loop advances `DecodeFieldMap` by one field, or ends it |
| DeState.Deserializer.NextField | src/serde_binary_adv/de.rs:408-429 | as `FieldStep` |
| DeState.BinarySeries.constructor | src/serde_binary_adv/de.rs:372-380 | a series starts at position 0 with the announced count |
| DeState.BinarySeries.Advance | src/serde_binary_adv/de.rs:392-400 | the position goes up by one, and the answer is `Admit` of the old position |
| DeState.BinarySeries.NextElement | src/serde_binary_adv/de.rs:385-402 | as `SeriesStep`, moving one position on |
| DeState.BinarySeries.NextFieldName | src/serde_binary_adv/de.rs:408-422 | as `NameStep`, moving one position on |
| DeState.BinarySeries.NextEntry | src/serde_binary_adv/de.rs:408-429 | as `EntryStep`, moving one position on |
| DeState.BinarySeries.NextValue | src/serde_binary_adv/de.rs:424-429 | reads one value as `Decode` specifies |
| DeState.FromBytesOf | src/serde_binary_adv/de.rs:54-62 | `from_bytes` returns the value `Decode` reads, or its error |
| RoundTrip.NextUsizeReadsHeader | src/serde_binary_adv/de.rs:102-114 | `next_usize` reads back exactly the header a sound codec wrote |
| RoundTrip.TakeStringReads | src/serde_binary_adv/de.rs:116-119 | `take_string` reads back the text `serialize_str` wrote |
| RoundTrip.BytesReads | src/serde_binary_adv/de.rs:206-213 | `deserialize_bytes` reads back what `serialize_bytes` wrote |
| RoundTrip.CharRoundTrip | src/serde_binary_adv/de.rs:155-190 | every character is read back from its UTF-8 bytes |
| RoundTrip.IntRoundTrip | src/serde_binary_adv/de.rs:125-153 | every integer other than 128-bit is read back in either byte order |
| RoundTrip.UnitVariantRoundTrip | src/serde_binary_adv/de.rs:335-338 | a unit variant is read back from its flag and index |
| RoundTrip.LeafRoundTrip | src/serde_binary_adv/de.rs:134-260 | a scalar, text, bytes, `None`, unit or unit variant is read back, leaving what followed |
| RoundTrip.OptionRoundTrip | src/serde_binary_adv/de.rs:222-237 | `Some(x)` is read back |
| RoundTrip.SeqRoundTrip | src/serde_binary_adv/de.rs:261-267 | a sequence is read back |
| RoundTrip.TupleRoundTrip | src/serde_binary_adv/de.rs:269-286 | a tuple is read back |
| RoundTrip.MapRoundTrip | src/serde_binary_adv/de.rs:288-294 | a map is read back with its entries in order |
| RoundTrip.StructRoundTrip | src/serde_binary_adv/de.rs:296-324 | a struct is read back, flag and name checked |
| RoundTrip.OtherNameRefused | src/serde_binary_adv/de.rs:305-313 | a struct written under another name is refused with `InvalidName` naming both, right after the name |
| RoundTrip.ElemsRoundTrip | src/serde_binary_adv/de.rs:385-402 | the elements written one after the other are read back by the series |
| RoundTrip.FixedRoundTrip | src/serde_binary_adv/de.rs:385-402 | a tuple's fields are read back by the series |
| RoundTrip.EntriesRoundTrip | src/serde_binary_adv/de.rs:408-429 | the entries written key before value are read back by the map series |
| RoundTrip.EntryRoundTrip | src/serde_binary_adv/de.rs:408-429 | one key and its value are read back |
| RoundTrip.ValueRoundTrip | src/serde_binary_adv/ser.rs:55-245 | whatever the serializer writes for a portable value of a type, the deserializer for that type reads back, leaving what followed |
| RoundTrip.FromBytesToBytes | src/serde_binary_adv/de.rs:54-62 | `from_bytes(to_bytes(v))` succeeds and is `v`, with no bytes left |
| RoundTrip.EncodingInjective | src/serde_binary_adv/ser.rs:21-28 | two portable values of one type never share an encoding, nor is one encoding a prefix of another |
| StreamSer.Serializer.constructor | src/serde_binary_adv/stream/ser.rs:35-41 | `new` writes to a sink that already holds `output` |
| StreamSer.Serializer.Write | src/serde_binary_adv/stream/ser.rs:43-45 | the whole buffer goes to the sink |
| StreamSer.Serializer.SerializeNum | src/serde_binary_adv/stream/ser.rs:47-54 | writes the integer's bytes in the chosen order |
| StreamSer.Serializer.SerializeVec | src/serde_binary_adv/stream/ser.rs:56-61 | writes each byte in turn |
| StreamSer.Serializer.SerializeUsize | src/serde_binary_adv/stream/ser.rs:63-66 | writes the compressed length header |
| StreamSer.Serializer.SerializeStr | src/serde_binary_adv/stream/ser.rs:138-141 | writes the byte length header, then the UTF-8 bytes |
| StreamSer.Serializer.SerializeVariantTag | src/serde_binary_adv/stream/ser.rs:167-175 | writes the flag, then the index as a `u32` |
| StreamSer.Serializer.SerializeLeaf | src/serde_binary_adv/stream/ser.rs:81-175 | a value with no value inside it writes exactly its specified bytes, 128-bit integers included |
| StreamSer.Serializer.SerializeWrapped | src/serde_binary_adv/stream/ser.rs:151-197 | `Some` and a newtype variant write their prefix, then the inner value |
| StreamSer.Serializer.SerializeSome | src/serde_binary_adv/stream/ser.rs:151-157 | the `SOME` flag, then the value |
| StreamSer.Serializer.SerializeNewtypeVariant | src/serde_binary_adv/stream/ser.rs:184-197 | `NONUNIT_VARIANT`, the index, then the value |
| StreamSer.Serializer.SerializeCollection | src/serde_binary_adv/stream/ser.rs:199-250 | a sequence, map or struct writes its count, then its items; a struct writes no flag and no name |
| StreamSer.Serializer.SerializeDataVariant | src/serde_binary_adv/stream/ser.rs:222-263 | a tuple or struct variant writes its flag, index and count, then its fields |
| StreamSer.Serializer.SerializeVariantFields | src/serde_binary_adv/stream/ser.rs:222-233 | the flag, the index and the count, before the fields |
| StreamSer.Serializer.SerializeElements | src/serde_binary_adv/stream/ser.rs:266-329 | each element in turn |
| StreamSer.Serializer.SerializeEntries | src/serde_binary_adv/stream/ser.rs:331-352 | each key before its value, entry after entry |
| StreamSer.Serializer.SerializeEntry | src/serde_binary_adv/stream/ser.rs:335-350 | a key, then its value |
| StreamSer.Serializer.Serialize | src/serde_binary_adv/stream/ser.rs:68-263 | serializing any value without bytes writes what `Emit` specifies |
| StreamSer.WriteBytes | src/serde_binary_adv/stream/ser.rs:25-32 | `write_bytes` appends the value's encoding to what the sink held |
| StreamSer.FormatsAgree | src/serde_binary_adv/stream/ser.rs:68-263 | on a value with no struct, no data variant, no 128-bit integer and no byte buffer, the stream serializer writes exactly the in-memory encoding |
| StreamSer.FormatsAgreeAll | src/serde_binary_adv/stream/ser.rs:266-329 | the same, element by element |
| StreamSer.FormatsAgreeEntries | src/serde_binary_adv/stream/ser.rs:331-352 | the same, entry by entry |
| StreamDe.Take | src/serde_binary_adv/stream/de.rs:125-139 | exactly `len` bytes, or `UnexpectedEndOfInput` after a short read drains the source |
| StreamDe.NextU32 | src/serde_binary_adv/stream/de.rs:52-84 | a `u32` from four bytes; a short read becomes a `Message` holding the debug text of the end-of-input error |
| StreamDe.NextUsize | src/serde_binary_adv/stream/de.rs:143-155 | reads exactly one framed header and decodes it, or fails |
| StreamDe.Decompress | src/serde_binary_adv/stream/de.rs:154 | the codec's error is passed on, nothing more is read |
| StreamDe.TakeString | src/serde_binary_adv/stream/de.rs:157-165 | never panics, and reads only from the front of the input |
| StreamDe.ExtraBytes | src/serde_binary_adv/stream/de.rs:211-225 | the corrected count of bytes after a lead byte: one less than the width its range announces |
| StreamDe.ExtraBytesAsWritten | src/serde_binary_adv/stream/de.rs:211-225 | only continuation bytes are refused as lead bytes |
| StreamDe.CharReadersAgree | src/serde_binary_adv/stream/de.rs:211-217 | for lead bytes below 0xE0 the code as written and the corrected count read the same |
| StreamDe.CharReadersDiffer | src/serde_binary_adv/stream/de.rs:218-223 | from 0xE0 on, the code as written takes exactly one byte more than the corrected count |
| StreamDe.CharAfterLead | src/serde_binary_adv/stream/de.rs:226-241 | a refused lead byte is `InvalidBytes` with nothing more read; a success is a `char`; it never panics |
| StreamDe.DecodeChar | src/serde_binary_adv/stream/de.rs:205-242 | the corrected reader of the Findings row (not what `Decode` uses): empty input is `UnexpectedEndOfInput`; a character read is a `char` |
| StreamDe.DecodeCharAsWritten | src/serde_binary_adv/stream/de.rs:205-242 | the reader `Decode` uses, as written: empty input is `UnexpectedEndOfInput`; it never panics, reads from the front, and a character read is a `char` |
| StreamDe.DecodeInt | src/serde_binary_adv/stream/de.rs:171-196 | every width is read, 128 bits included; short input is `UnexpectedEndOfInput` |
| StreamDe.DecodeOption | src/serde_binary_adv/stream/de.rs:273-288 | reads from the front; a success is `None` or `Some` |
| StreamDe.OptionFlags | src/serde_binary_adv/stream/de.rs:273-288 | empty input is `UnexpectedEndOfInput`; `NONE` reads `None`; any flag but `NONE` and `SOME` is `MissingOrInvalidFlag` against `SOME`, with the flag consumed |
| StreamDe.DecodeSeq | src/serde_binary_adv/stream/de.rs:312-318 | reads from the front; a success is a sequence |
| StreamDe.DecodeTuple | src/serde_binary_adv/stream/de.rs:320-337 | reads from the front; a success has as many elements as the tuple type |
| StreamDe.DecodeMap | src/serde_binary_adv/stream/de.rs:339-345 | reads from the front; a success is a map |
| StreamDe.DecodeMapEntries | src/serde_binary_adv/stream/de.rs:339-345 | reads only from the front of the input |
| StreamDe.SeriesStep | src/serde_binary_adv/stream/de.rs:428-445 | `next_element_seed` with the same end and overrun rules as the in-memory series |
| StreamDe.DecodeElems | src/serde_binary_adv/stream/de.rs:428-445 | a series yields exactly the announced number of elements |
| StreamDe.DecodeFixed | src/serde_binary_adv/stream/de.rs:428-445 | a tuple series yields one element per field of the type |
| StreamDe.DecodeSeqOf | src/serde_binary_adv/stream/de.rs:312-318 | a counted series of fixed shapes yields one value per shape |
| StreamDe.EntryStep | src/serde_binary_adv/stream/de.rs:451-472 | a key, then its value, with the series' end and overrun rules |
| StreamDe.DecodeEntries | src/serde_binary_adv/stream/de.rs:451-472 | a map series yields exactly the announced number of entries |
| StreamDe.DecodeStruct | src/serde_binary_adv/stream/de.rs:347-358 | reads from the front; a struct read has the type's name and one value per field, though the stream carries no name |
| StreamDe.DecodeEnum | src/serde_binary_adv/stream/de.rs:360-385 | reads from the front; a success is a variant of that enum, with an index inside its variant list |
| StreamDe.EnumTags | src/serde_binary_adv/stream/de.rs:360-385 | empty input is `UnexpectedEndOfInput`; a tag that is none of the three variant flags is `MissingOrInvalidFlag` against `UNIT_VARIANT`, with the tag consumed |
| StreamDe.VariantIndexMessageInjective | src/serde_binary_adv/stream/de.rs:485-523 | the `invalid_value` text for an out-of-range index gives back both the index and the number of variants |
| StreamDe.DecodeVariant | src/serde_binary_adv/stream/de.rs:485-523 | reads from the front; a success is a data-carrying variant of that enum at the index read |
| StreamDe.ElemsAfterStep | src/serde_binary_adv/stream/de.rs:428-445 | one element read then the rest read is the whole series read |
| StreamDe.EntriesAfterStep | src/serde_binary_adv/stream/de.rs:451-472 | one entry read then the rest read is the whole map read |
| StreamDe.Decode | src/serde_binary_adv/stream/de.rs:168-407 | deserializing any shape, characters as written, reads only from the front of the input; what it reads back is fixed by `StreamRoundTrip.ValueRoundTrip` |
| StreamDeState.Deserializer.constructor | src/serde_binary_adv/stream/de.rs:105-107 | `new` reads from the given source |
| StreamDeState.Deserializer.Read | src/serde_binary_adv/stream/de.rs:111 | a read hands over the first bytes of the source, as many as fit and as remain |
| StreamDeState.Deserializer.Next | src/serde_binary_adv/stream/de.rs:109-123 | as `De.Next`: the first byte, or `UnexpectedEndOfInput` with nothing consumed |
| StreamDeState.Deserializer.Take | src/serde_binary_adv/stream/de.rs:125-139 | as `Take` |
| StreamDeState.Deserializer.NextU32 | src/serde_binary_adv/stream/de.rs:141 | as `NextU32` |
| StreamDeState.Deserializer.NextUsize | src/serde_binary_adv/stream/de.rs:143-155 | reads the header byte by byte, as `NextUsize` specifies |
| StreamDeState.Deserializer.NextBytes | src/serde_binary_adv/stream/de.rs:149-151 | as `Take` |
| StreamDeState.Deserializer.TakeString | src/serde_binary_adv/stream/de.rs:157-165 | as `TakeString` |
| StreamDeState.Deserializer.Deserialize | src/serde_binary_adv/stream/de.rs:168-407 | deserializing any shape reads and returns what `Decode` specifies, characters as written |
| StreamDeState.Deserializer.DeserializeInt | src/serde_binary_adv/stream/de.rs:171-196 | as `DecodeInt` |
| StreamDeState.Deserializer.DeserializeChar | src/serde_binary_adv/stream/de.rs:205-242 | as `DecodeCharAsWritten`, byte counts as written |
| StreamDeState.Deserializer.DeserializeOption | src/serde_binary_adv/stream/de.rs:273-288 | as `DecodeOption` |
| StreamDeState.Deserializer.DeserializeSeq | src/serde_binary_adv/stream/de.rs:312-318 | as `DecodeSeq` |
| StreamDeState.Deserializer.DeserializeTuple | src/serde_binary_adv/stream/de.rs:320-337 | as `DecodeTuple` |
| StreamDeState.Deserializer.DeserializeMap | src/serde_binary_adv/stream/de.rs:339-345 | as `DecodeMap` |
| StreamDeState.Deserializer.DeserializeMapEntries | src/serde_binary_adv/stream/de.rs:339-345 | as `DecodeMapEntries` |
| StreamDeState.Deserializer.VisitVec | src/serde_binary_adv/stream/de.rs:428-445 | the visitor's loop reads what `DecodeElems` specifies |
| StreamDeState.Deserializer.VisitFixed | src/serde_binary_adv/stream/de.rs:428-445 | the tuple visitor's loop reads what `DecodeFixed` specifies |
| StreamDeState.Deserializer.VisitEntries | src/serde_binary_adv/stream/de.rs:448-473 | the map visitor's loop reads what `DecodeEntries` specifies |
| StreamDeState.Deserializer.EntryRound | src/serde_binary_adv/stream/de.rs:451-472 | one round of the map loop advances `DecodeEntries` by one entry, or ends it |
| StreamDeState.Deserializer.DeserializeStruct | src/serde_binary_adv/stream/de.rs:347-358 | as `DecodeStruct` |
| StreamDeState.Deserializer.DeserializeSeqOf | src/serde_binary_adv/stream/de.rs:312-318 | as `DecodeSeqOf` |
| StreamDeState.Deserializer.DeserializeEnum | src/serde_binary_adv/stream/de.rs:360-385 | as `DecodeEnum` |
| StreamDeState.Deserializer.DeserializeVariant | src/serde_binary_adv/stream/de.rs:485-523 | as `DecodeVariant` |
| StreamDeState.BinarySeries.constructor | src/serde_binary_adv/stream/de.rs:415-423 | a series starts at position 0 with the announced count |
| StreamDeState.BinarySeries.Advance | src/serde_binary_adv/stream/de.rs:435-443 | the position goes up by one, and the answer is `Admit` of the old position |
| StreamDeState.BinarySeries.NextElement | src/serde_binary_adv/stream/de.rs:428-445 | as `SeriesStep`, moving one position on |
| StreamDeState.BinarySeries.NextEntry | src/serde_binary_adv/stream/de.rs:451-472 | as `EntryStep`, moving one position on |
| StreamDeState.BinarySeries.NextValue | src/serde_binary_adv/stream/de.rs:467-472 | reads one value as `Decode` specifies, characters as written |
| StreamDeState.ReadBytes | src/serde_binary_adv/stream/de.rs:94-102 | `read_bytes` returns what `Decode` reads (characters as written), and the source keeps the rest |
| StreamRoundTrip.NextUsizeReadsHeader | src/serde_binary_adv/stream/de.rs:143-155 | `next_usize` reads back exactly the header a sound codec wrote |
| StreamRoundTrip.TakeStringReads | src/serde_binary_adv/stream/de.rs:157-165 | `take_string` reads back what `serialize_str` wrote |
| StreamRoundTrip.NextU32Reads | src/serde_binary_adv/stream/de.rs:141 | a `u32` is read back in either order |
| StreamRoundTrip.CharRoundTrip | src/serde_binary_adv/stream/de.rs:205-242 | with the corrected byte counts, every character is read back from its UTF-8 bytes |
| StreamRoundTrip.NarrowCharRoundTrip | src/serde_binary_adv/stream/de.rs:205-242 | as written, every character below U+0800 is read back from its UTF-8 bytes, leaving what followed |
| StreamRoundTrip.IntRoundTrip | src/serde_binary_adv/stream/de.rs:171-196 | every integer, 128-bit included, is read back in either order |
| StreamRoundTrip.UnitVariantRoundTrip | src/serde_binary_adv/stream/de.rs:374-379 | a unit variant is read back from its flag and index |
| StreamRoundTrip.LeafRoundTrip | src/serde_binary_adv/stream/de.rs:184-310 | a scalar, text, `None`, unit or unit variant is read back, leaving what followed; a character only below U+0800 |
| StreamRoundTrip.OptionRoundTrip | src/serde_binary_adv/stream/de.rs:273-288 | `Some(x)` is read back |
| StreamRoundTrip.SeqRoundTrip | src/serde_binary_adv/stream/de.rs:312-318 | a sequence is read back |
| StreamRoundTrip.TupleRoundTrip | src/serde_binary_adv/stream/de.rs:320-337 | a tuple is read back |
| StreamRoundTrip.MapRoundTrip | src/serde_binary_adv/stream/de.rs:339-345 | a map is read back with its entries in order |
| StreamRoundTrip.StructRoundTrip | src/serde_binary_adv/stream/de.rs:347-358 | a struct is read back from its count and fields |
| StreamRoundTrip.NewtypeVariantRoundTrip | src/serde_binary_adv/stream/de.rs:504-509 | a newtype variant is read back |
| StreamRoundTrip.TupleVariantRoundTrip | src/serde_binary_adv/stream/de.rs:511-516 | a tuple variant is read back |
| StreamRoundTrip.StructVariantRoundTrip | src/serde_binary_adv/stream/de.rs:518-523 | a struct variant is read back |
| StreamRoundTrip.ElemsRoundTrip | src/serde_binary_adv/stream/de.rs:428-445 | the elements written one after the other are read back by the series |
| StreamRoundTrip.FixedRoundTrip | src/serde_binary_adv/stream/de.rs:428-445 | a tuple's fields are read back by the series |
| StreamRoundTrip.EntriesRoundTrip | src/serde_binary_adv/stream/de.rs:451-472 | the entries written key before value are read back by the map series |
| StreamRoundTrip.EntryRoundTrip | src/serde_binary_adv/stream/de.rs:451-472 | one key and its value are read back |
| StreamRoundTrip.ValueRoundTrip | src/serde_binary_adv/stream/ser.rs:68-263 | whatever the stream serializer writes for a value of a type without byte buffers and with every character below U+0800, the stream deserializer as written reads back, leaving what followed |
| StreamRoundTrip.WriteThenRead | src/serde_binary_adv/stream/ser.rs:25-32 | reading back what `write_bytes` wrote gives the value and drains the source |
| StreamRoundTrip.EncodingInjective | src/serde_binary_adv/stream/ser.rs:25-32 | two values of one type with characters below U+0800 never share a stream encoding, nor is one a prefix of another |
| StreamRoundTrip.CharAsWrittenOverreads | src/serde_binary_adv/stream/de.rs:218-223 | as written, no character of three or four UTF-8 bytes is read back from its encoding, whatever follows |
| StreamRoundTrip.CharAsWrittenThreeByteExample | src/serde_binary_adv/stream/de.rs:218-220 | U+0C08 alone: as written, the read runs dry; corrected, it is read back |
| AsciiChars.Char.ToChar | lowlevel-types/src/ascii/char.rs:32-34 | the character is the code point of the byte's value |
| AsciiChars.Char.AsUtf8 | lowlevel-types/src/ascii/char.rs:17-23 | the UTF-8 form of the character, zero-padded to four bytes |
| AsciiChars.Char.LenUtf8 | lowlevel-types/src/ascii/char.rs:25-30 | the number of bytes in the UTF-8 form: 1 or 2 |
| AsciiChars.Char.Uppercase | lowlevel-types/src/ascii/char.rs:40-46 | a lower-case letter becomes its capital, which maps back; anything else stays |
| AsciiChars.Char.Lowercase | lowlevel-types/src/ascii/char.rs:48-54 | a capital becomes its lower-case letter; anything else stays |
| AsciiChars.Char.EqIgnoreCase | lowlevel-types/src/ascii/char.rs:36-38 | equal bytes, or a letter and its other case |
| AsciiChars.Char.IsUppercase | lowlevel-types/src/ascii/char.rs:60-65 | exactly the characters `A` to `Z` |
| AsciiChars.Char.IsLowercase | lowlevel-types/src/ascii/char.rs:67-72 | exactly the characters `a` to `z` |
| AsciiChars.Char.IsAlphabetic | lowlevel-types/src/ascii/char.rs:56-58 | exactly the letters of either case |
| AsciiChars.Char.IsNumeric | lowlevel-types/src/ascii/char.rs:74-79 | exactly the characters `0` to `9` |
| AsciiChars.Char.IsPunctuationAsWritten | lowlevel-types/src/ascii/char.rs:81-86 | ASCII punctuation minus `*` to `/` (see Findings) |
| AsciiChars.Char.IsPunctuation | lowlevel-types/src/ascii/char.rs:81-86 | the visible characters `!` to `~` that are neither letters nor digits |
| AsciiChars.Char.IsControl | lowlevel-types/src/ascii/char.rs:88-93 | exactly the characters below the space |
| AsciiChars.Char.IsWhitespace | lowlevel-types/src/ascii/char.rs:95-100 | tab, line feed, form feed, carriage return and space |
| AsciiChars.Char.IsNull | lowlevel-types/src/ascii/char.rs:102-104 | exactly NUL |
| AsciiChars.Char.Display | lowlevel-types/src/ascii/char.rs:107-115 | a control byte shows as NUL, `x` and its hexadecimal value; any other byte as its character |
| AsciiChars.Null | lowlevel-types/src/ascii/char.rs:13-15 | `null` is the NUL byte, a control byte |
| AsciiChars.EqIgnoreCaseEquivalence | lowlevel-types/src/ascii/char.rs:36-38 | ignoring case is reflexive, symmetric and transitive |
| AsciiChars.CaseCounterparts | lowlevel-types/src/ascii/char.rs:198-247 | each letter equals its other case ignoring case; other bytes have no other case |
| AsciiChars.CaseMappingRoundTrip | lowlevel-types/src/ascii/char.rs:40-54 | the case mappings are idempotent and undo each other on letters |
| AsciiChars.ClassesDisjoint | lowlevel-types/src/ascii/char.rs:56-93 | letters, digits, punctuation and control bytes share no byte |
| AsciiChars.AsciiPartition | lowlevel-types/src/ascii/char.rs:56-100 | the visible bytes are exactly letters, digits and punctuation, and no byte from 0x80 on is in any class |
| AsciiChars.PunctuationAsWrittenGap | lowlevel-types/src/ascii/char.rs:81-86 | the crate's punctuation test agrees with ASCII punctuation except on 0x2A-0x2F, which fall in no class |
| AsciiChars.AsteriskUnclassified | lowlevel-types/src/ascii/char.rs:83 | `*` is visible ASCII punctuation, yet as written it is in no class |
| AsciiChars.WhitespaceAndNull | lowlevel-types/src/ascii/char.rs:95-104 | whitespace is the space or a control byte; NUL is exactly `null` |
| AsciiChars.KnownForms | lowlevel-types/src/ascii/char.rs:166-196 | U+00A0 is C2 A0 in two bytes; NUL shows as NUL, `x`, `0`; `A` shows as "A" |
| AsciiAChars.AChar.AsUtf8 | lowlevel-types/src/ascii/achar.rs:17-28 | the UTF-8 form of the character, zero-padded to four bytes |
| AsciiAChars.AChar.LenUtf8 | lowlevel-types/src/ascii/achar.rs:30-35 | 1 below 0x80, 2 from there on |
| AsciiAChars.AChar.Uppercase | lowlevel-types/src/ascii/achar.rs:41-47 | a lower-case letter becomes its capital; anything else stays |
| AsciiAChars.AChar.Lowercase | lowlevel-types/src/ascii/achar.rs:49-55 | a capital becomes its lower-case letter; anything else stays |
| AsciiAChars.AChar.EqIgnoreCase | lowlevel-types/src/ascii/achar.rs:37-39 | equal bytes, or a letter and its other case |
| AsciiAChars.AChar.IsUppercase | lowlevel-types/src/ascii/achar.rs:61-66 | the bytes 0x41-0x5A, answered through the `Char` of the same byte |
| AsciiAChars.AChar.IsLowercase | lowlevel-types/src/ascii/achar.rs:68-73 | the bytes 0x61-0x7A |
| AsciiAChars.AChar.IsAlphabetic | lowlevel-types/src/ascii/achar.rs:57-59 | upper or lower case |
| AsciiAChars.AChar.IsNumeric | lowlevel-types/src/ascii/achar.rs:75-80 | the bytes 0x30-0x39 |
| AsciiAChars.AChar.IsPunctuationAsWritten | lowlevel-types/src/ascii/achar.rs:82-87 | the four ranges `achar.rs` writes, 0x2A-0x2F left out |
| AsciiAChars.AChar.IsPunctuation | lowlevel-types/src/ascii/achar.rs:82-87 | the four ASCII punctuation blocks, 0x21-0x2F included |
| AsciiAChars.AChar.IsControl | lowlevel-types/src/ascii/achar.rs:89-94 | the bytes 0x00-0x1F |
| AsciiAChars.AChar.IsWhitespace | lowlevel-types/src/ascii/achar.rs:96-101 | the bytes 0x09, 0x0A, 0x0C, 0x0D and 0x20 |
| AsciiAChars.AChar.IsNull | lowlevel-types/src/ascii/achar.rs:103-105 | the byte 0x00 |
| AsciiAChars.AChar.Display | lowlevel-types/src/ascii/achar.rs:114-122 | nothing exactly for a control byte, otherwise the character |
| AsciiAChars.Default | lowlevel-types/src/ascii/achar.rs:108-112 | the default is the NUL byte, which displays as nothing |
| AsciiAChars.CaseCounterparts | lowlevel-types/src/ascii/achar.rs:155-196 | each letter equals its other case ignoring case; other bytes keep their case |
| AsciiAChars.Classes | lowlevel-types/src/ascii/achar.rs:57-94 | letters are the two cases, control is 0x00-0x1F, and the classes share no byte |
| AsciiAChars.AgreesWithChar | lowlevel-types/src/ascii/achar.rs:17-122 | an `AChar` answers as the `Char` of the same byte, except that it shows control bytes as nothing |
| AsciiAChars.KnownForms | lowlevel-types/src/ascii/achar.rs:135-151 | U+00A0 is C2 A0 in two bytes; every byte from `MIN` to `MAX` has the UTF-8 form the crate's loop checks |
| Ascii.AsciiBytes | lowlevel-types/src/ascii/fixedlengthstring.rs:99-102 | one byte per character of an ASCII text |
| Ascii.AsciiBytesAreUtf8 | lowlevel-types/src/ascii/fixedlengthstring.rs:93-103 | for ASCII text, `c as u8` of each character is its UTF-8 encoding |
| Ascii.AsciiBytesDecode | lowlevel-types/src/ascii/astring.rs:85-89 | the bytes of an ASCII text decode as UTF-8 to that text |
| FixedLengthStrings.FixedLengthString.AsBytes | lowlevel-types/src/ascii/fixedlengthstring.rs:19-21 | `as_bytes` gives one byte per character |
| FixedLengthStrings.FixedLengthString.ToString | lowlevel-types/src/ascii/fixedlengthstring.rs:24-31 | `Display` and `String::from` give exactly one character per byte, so the NUL padding is kept |
| FixedLengthStrings.FixedLengthString.Len | lowlevel-types/src/ascii/fixedlengthstring.rs:15-17 | `len` is the number of bytes `as_bytes` gives and of characters `Display` writes |
| FixedLengthStrings.FixedLengthString.EqStr | lowlevel-types/src/ascii/fixedlengthstring.rs:39-44 | equal to a `&str` exactly when it has `N` characters and each is the code point of the byte at its position |
| FixedLengthStrings.New | lowlevel-types/src/ascii/fixedlengthstring.rs:11-13 | `new` is `N` NUL characters |
| FixedLengthStrings.FromArray | lowlevel-types/src/ascii/fixedlengthstring.rs:75-79 | an array of `N` bytes becomes the string of those bytes |
| FixedLengthStrings.ArrayRoundTrip | lowlevel-types/src/ascii/fixedlengthstring.rs:19-21 | `as_bytes` then `From<[u8; N]>` gives the string back |
| FixedLengthStrings.FromSlice | lowlevel-types/src/ascii/fixedlengthstring.rs:52-73 | input longer than `N` is refused; otherwise it is copied to the front and the rest is NUL |
| FixedLengthStrings.TryFromSlice | lowlevel-types/src/ascii/fixedlengthstring.rs:55-72 | the copying loop fills the array as `FromSlice` specifies |
| FixedLengthStrings.FromVec | lowlevel-types/src/ascii/fixedlengthstring.rs:46-50 | `From<Vec<u8>>` panics exactly on input longer than `N` |
| FixedLengthStrings.FromStr | lowlevel-types/src/ascii/fixedlengthstring.rs:81-106 | non-ASCII text is refused; ASCII text longer than `N` panics |
| FixedLengthStrings.TryFromStr | lowlevel-types/src/ascii/fixedlengthstring.rs:92-105 | the collecting loop gives what `FromStr` specifies |
| FixedLengthStrings.IntoString | lowlevel-types/src/ascii/fixedlengthstring.rs:108-116 | the pushing loop builds exactly the text `ToString` specifies |
| FixedLengthStrings.StrRoundTrip | lowlevel-types/src/ascii/fixedlengthstring.rs:39-44 | ASCII text reads back as itself padded with NULs, so it equals the string exactly when it fills all `N` |
| FixedLengthStrings.ToStringRoundTrip | lowlevel-types/src/ascii/fixedlengthstring.rs:81-116 | a string of ASCII characters is rebuilt from its own text |
| FixedLengthStrings.PaddingCompares | lowlevel-types/src/ascii/fixedlengthstring.rs:39-44 | "A" in two characters is not equal to "A" but to "A\0" |
| FixedLengthStrings.KnownCases | lowlevel-types/src/ascii/fixedlengthstring.rs:166-208 | the cases the crate's own checks name |
| AStrings.Resized | lowlevel-types/src/ascii/astring.rs:42 | `Vec::resize` keeps the old characters up to the size and pads with NUL |
| AStrings.ResizeTwice | lowlevel-types/src/ascii/astring.rs:35-45 | resizing to a length and then to a shorter one is resizing to the shorter at once |
| AStrings.GrowThenShrink | lowlevel-types/src/ascii/astring.rs:35-45 | growing and shrinking back gives the old characters |
| AStrings.AsBytes | lowlevel-types/src/ascii/astring.rs:87 | one byte per character |
| AStrings.AString.New | lowlevel-types/src/ascii/astring.rs:10-15 | empty, length not fixed |
| AStrings.AString.Len | lowlevel-types/src/ascii/astring.rs:31-33 | the number of characters, which is the number of bytes the string converts to |
| AStrings.AString.NewOfSize | lowlevel-types/src/ascii/astring.rs:17-22 | empty, length not fixed |
| AStrings.AString.Fixed | lowlevel-types/src/ascii/astring.rs:24-29 | empty, length fixed |
| AStrings.AString.FromBytes | lowlevel-types/src/ascii/astring.rs:48-55 | one character per byte, length not fixed |
| AStrings.AString.FromAChars | lowlevel-types/src/ascii/astring.rs:57-64 | a copy of the characters, length not fixed |
| AStrings.AString.Resize | lowlevel-types/src/ascii/astring.rs:35-45 | a fixed-length string is refused and unchanged; any other gets exactly the size asked for |
| AStrings.AString.IntoString | lowlevel-types/src/ascii/astring.rs:85-89 | succeeds exactly on valid UTF-8, giving the text that encodes to the bytes; otherwise panics |
| AStrings.TryFromString | lowlevel-types/src/ascii/astring.rs:66-83 | non-ASCII text is refused; ASCII text becomes its bytes and converts back to itself |
| AStrings.LoneHighBytePanics | lowlevel-types/src/ascii/astring.rs:48-55 | a byte from 0x80 on is accepted, yet alone it makes the conversion to `String` panic |
| AsciiSerde.CharValue | lowlevel-types/src/ascii/char.rs:124-131 | a `Char` serializes as its `u8`, a value both formats carry |
| AsciiSerde.VisitU8 | lowlevel-types/src/ascii/char.rs:154-159 | the visitor's character serializes back to the byte it was given |
| AsciiSerde.CharRoundTrip | lowlevel-types/src/ascii/char.rs:124-160 | both formats write a `Char` as its one byte, and the in-memory deserializer reads the character back |
| AsciiSerde.StringValue | lowlevel-types/src/ascii/fixedlengthstring.rs:119-127 | a string serializes as the byte buffer of its bytes |
| AsciiSerde.VisitBytes | lowlevel-types/src/ascii/fixedlengthstring.rs:150-159 | exactly `N` bytes become the string holding them; any other count is an invalid-length error |
| AsciiSerde.VisitRoundTrip | lowlevel-types/src/ascii/fixedlengthstring.rs:150-159 | the visitor rebuilds a string from its own bytes |
| AsciiSerde.ExpectingInjective | lowlevel-types/src/ascii/fixedlengthstring.rs:146-148 | the expectation text names the length: two lengths never share one |
| AsciiSerde.StringRoundTrip | lowlevel-types/src/ascii/fixedlengthstring.rs:119-137 | the in-memory format writes the bytes behind their count and reads back the same string |
| AsciiSerde.StringNotInStream | src/serde_binary_adv/stream/de.rs:259-264 | the stream format cannot carry the string: its serializer does not accept it and its deserializer panics |
| AsciiSerde.WrongLengthMessage | lowlevel-types/src/ascii.rs:35-38 | two bytes for a one-character string give "invalid length 2, expected an array of 1 ASCII bytes" |

## Left out

- Floating point: `f32` and `f64` are neither serialized nor read back.
- I/O:
  - The stream sink is a growable byte sequence, and the source is a byte
    sequence read from the front.
  - An I/O error other than running short is not modelled.
  - A read is taken to hand over as many bytes as it can, as a slice reader does.
  - The stream serializer's `write` unwraps the sink's result, so an I/O error
    panics, and it ignores how many bytes were written, so a short write loses
    the rest of the buffer. The model's sink accepts every byte, so neither
    case is modelled.
- Unimplemented paths:
  - `serialize_bytes`, `deserialize_bytes` and `deserialize_byte_buf` in the stream format.
  - `deserialize_ignored_any` and `deserialize_any`.
  - A sequence or map without a known length.
  - A value holding a byte buffer is outside what the stream serializer accepts.
- The stream serializer's `unsized_seq` field is not modelled.
- The older `serdebinaryadv` module is not part of this model.
- `compress_usize`, `decompress_usize` and `NONUNIT_VARIANT` are not part of
  this model. They are the parameter `Externals`, constrained only by `Sound`.
- RoundTrip.ValueRoundTrip: requires `Portable`, because the in-memory pair does
  not agree on enum variants that carry data. `serialize_newtype_variant`
  writes only the index. `deserialize_enum` reads a flag, then a variant name.
  128-bit integers are refused by the in-memory serializer and are excluded too.
- RoundTrip.FromBytesToBytes: requires `Portable`, for the same reason.
- RoundTrip.EncodingInjective: requires `Portable`, for the same reason.
- StreamRoundTrip.ValueRoundTrip: requires `NoByteBuf`, because the stream
  format implements neither side of byte buffers, and `NarrowChars`, because
  the reader as written (`stream/de.rs:218-223`) takes one byte too many after
  a character of three or four UTF-8 bytes (see Findings).
- StreamRoundTrip.LeafRoundTrip: requires every character below U+0800 (`NarrowChars`), for the same reason.
- StreamRoundTrip.OptionRoundTrip: requires every character below U+0800 (`NarrowChars`), for the same reason.
- StreamRoundTrip.SeqRoundTrip: requires every character below U+0800 (`NarrowChars`), for the same reason.
- StreamRoundTrip.TupleRoundTrip: requires every character below U+0800 (`NarrowChars`), for the same reason.
- StreamRoundTrip.MapRoundTrip: requires every character below U+0800 (`NarrowChars`), for the same reason.
- StreamRoundTrip.StructRoundTrip: requires every character below U+0800 (`NarrowChars`), for the same reason.
- StreamRoundTrip.NewtypeVariantRoundTrip: requires every character below U+0800 (`NarrowChars`), for the same reason.
- StreamRoundTrip.TupleVariantRoundTrip: requires every character below U+0800 (`NarrowChars`), for the same reason.
- StreamRoundTrip.StructVariantRoundTrip: requires every character below U+0800 (`NarrowChars`), for the same reason.
- StreamRoundTrip.ElemsRoundTrip: requires every character below U+0800 (`NarrowChars`), for the same reason.
- StreamRoundTrip.FixedRoundTrip: requires every character below U+0800 (`NarrowChars`), for the same reason.
- StreamRoundTrip.EntriesRoundTrip: requires every character below U+0800 (`NarrowChars`), for the same reason.
- StreamRoundTrip.EntryRoundTrip: requires every character below U+0800 (`NarrowChars`), for the same reason.
- StreamRoundTrip.WriteThenRead: requires every character below U+0800 (`NarrowChars`), for the same reason.
- StreamRoundTrip.EncodingInjective: requires every character below U+0800 (`NarrowChars`), for the same reason.
- StreamDe.DecodeChar: the corrected character reader is stated and proved to
  round-trip every character (`StreamRoundTrip.CharRoundTrip`), but
  `StreamDe.Decode` and the stream deserializer keep the byte counts as
  written, so the stream round trips do not cover wider characters.
- DeState.Deserializer.NextU32: requires four bytes. On shorter input every
  in-memory caller unwraps the error, which is a panic in `De.NextU32`.
- DeState.Deserializer.Deserialize: requires that `Decode` does not panic. A
  panic (an `unwrap` on short input, or an out-of-range variant index) is
  specified by `De.Decode` rather than by the method.
- StreamDeState.Deserializer.Deserialize: requires that `Decode` does not panic.
  An out-of-range variant index or a byte-buffer shape panics, and that is
  specified by `StreamDe.Decode`.
- Tests driven through serde's token streams are not modelled. Only the texts
  and values they check are stated.
- The `ASCIIError` message is a `&'static str` field. `try_from(&[u8])` and
  `try_from(&str)` assign a `format!` result to it. The model records which
  conversion refused (`Refusal`) instead of the message text.
- `achar.rs` and `astring.rs` are not declared in `ascii.rs`.
- `resize` pads with `AChar::null()`, which `achar.rs` does not define. The
  model pads with `AChar::default()`, the NUL byte.
- Capacity reserved by `with_capacity` is not modelled.
- Derived comparison, hashing and ordering are not modelled.
- `From<Char> for u8` and `From<&u8> for AChar` are the `value` field and its
  constructor.

## Findings

| source | as written | input that shows it | evidently intended | confidence | as-written member | corrected member |
|---|---|---|---|---|---|---|
| src/serde_binary_adv/stream/de.rs:218-223 | after a lead byte in 0xE0-0xEF the stream `deserialize_char` takes 3 more bytes, and after 0xF0-0xFF 4 more, one more than the character has | the character U+0C08 (bytes E0 B0 88) alone: the read of 3 bytes gets 2 and fails with `UnexpectedEndOfInput`; followed by other data it swallows the next byte | take 2 and 3 more bytes, as the in-memory `deserialize_char` does by taking 3 and 4 in all | not executed | StreamRoundTrip.CharAsWrittenOverreads | StreamRoundTrip.CharRoundTrip |
| lowlevel-types/src/ascii/char.rs:83 | `is_punctuation` matches 0x21..=0x29, leaving out 0x2A-0x2F (`*+,-./`); `achar.rs:84` repeats it | `Char(0x2A)` (`*`) is neither alphabetic, numeric, punctuation nor control | the range 0x21..=0x2F, so that the visible ASCII bytes are exactly letters, digits and punctuation | not executed | AsciiChars.AsteriskUnclassified | AsciiChars.AsciiPartition |
