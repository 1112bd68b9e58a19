/**
 * What the serializers and deserializers share: the one-byte type flags,
 * the `Result` alias, the outcome of a decoding step, and the length codec.
 *
 * The length codec (`compress_usize`/`decompress_usize`) and the
 * `NONUNIT_VARIANT` flag are used by the code but not defined in
 * `common.rs`; here they are parameters (`Externals`), and the properties
 * that need them assume only `Sound`: the codec round-trips every `usize`,
 * its headers have the shape `next_usize` reads, and the extra flag differs
 * from the five known ones.
 */
module Common {
  import opened Bytes
  import opened BinaryErrors

  const NONE: u8 := 0x00
  const SOME: u8 := 0xFF
  const UNIT_VARIANT: u8 := 0xFE
  const STRUCT: u8 := 0xFD
  const STRUCT_VARIANT: u8 := 0xFC

  /** The five flags of `common.rs`. */
  function Flags(): (fs: seq<u8>)
    ensures |fs| == 5
  {
    [NONE, SOME, UNIT_VARIANT, STRUCT, STRUCT_VARIANT]
  }

  /** The flags are pairwise distinct and keep the values the compatibility test pins. */
  lemma FlagsDistinct()
    ensures forall i, j :: 0 <= i < j < |Flags()| ==> Flags()[i] != Flags()[j]
    ensures Flags() == [0x00, 0xFF, 0xFE, 0xFD, 0xFC]
  {
  }

  /** `usize` on the platforms the crate targets. */
  const USIZE_LIMIT: nat := 0x1_0000_0000_0000_0000

  /** `u32`, the type of a variant index. */
  const U32_LIMIT: nat := 0x1_0000_0000

  /** `Result<T>` of the crate: `std::result::Result<T, BinaryError>`. */
  datatype Result<+T> = Ok(value: T) | Err(error: BinaryError)
  {
    predicate IsFailure()
    {
      Err?
    }

    function PropagateFailure<U>(): Result<U>
      requires Err?
    {
      Err(error)
    }

    function Extract(): T
      requires Ok?
    {
      value
    }
  }

  /**
   * The outcome of a decoding step on the remaining input: a value and what
   * is left, an error (with what is left), or a Rust panic.
   */
  datatype Decoded<+T> =
    | Parsed(value: T, rest: seq<u8>)
    | Failed(error: BinaryError, rest: seq<u8>)
    | Panicked
  {
    predicate IsFailure()
    {
      !Parsed?
    }

    function PropagateFailure<U>(): Decoded<U>
      requires IsFailure()
    {
      if Failed? then Failed(error, rest) else Panicked
    }

    /** The value and what is left after it, for `var (x, rest) :- step;`. */
    function Extract(): (T, seq<u8>)
      requires Parsed?
    {
      (value, rest)
    }
  }

  /** A method's `Result` and the state it leaves, read as a decoding outcome. */
  function Outcome<T>(r: Result<T>, rest: seq<u8>): (d: Decoded<T>)
    ensures !d.Panicked? && d.rest == rest
    ensures d.Parsed? <==> r.Ok?
  {
    match r
    case Ok(v) => Parsed(v, rest)
    case Err(e) => Failed(e, rest)
  }

  /** The parts of the format that the code uses but that are not part of this model. */
  datatype Externals = Externals(
    compress: nat -> seq<u8>,
    decompress: seq<u8> -> Result<nat>,
    nonunitVariant: u8)

  /**
   * How many bytes `next_usize` reads for a header that starts with `h`:
   * one when bit 7 of the first byte is clear, otherwise two plus the top
   * three bits of the second byte.
   */
  function HeaderLength(h: seq<u8>): (n: nat)
    requires |h| >= 1 && (h[0] >= 0x80 ==> |h| >= 2)
    ensures 1 <= n <= 9
  {
    if h[0] < 0x80 then 1 else 2 + h[1] / 32
  }

  /** A header is exactly as long as it announces. */
  predicate Framed(h: seq<u8>)
  {
    |h| >= 1 && (h[0] >= 0x80 ==> |h| >= 2) && |h| == HeaderLength(h)
  }

  predicate Sound(ext: Externals)
  {
    && ext.nonunitVariant !in Flags()
    && forall n: nat :: n < USIZE_LIMIT ==>
         Framed(ext.compress(n)) && ext.decompress(ext.compress(n)) == Ok(n)
  }

  /** A sound codec never writes the same header for two lengths. */
  lemma CompressInjective(ext: Externals, m: nat, n: nat)
    requires Sound(ext) && m < USIZE_LIMIT && n < USIZE_LIMIT
    requires ext.compress(m) == ext.compress(n)
    ensures m == n
  {
    assert ext.decompress(ext.compress(m)) == Ok(m);
  }

  /** A header is never a proper prefix of another header, so a reader knows where it ends. */
  lemma FramedPrefixFree(h: seq<u8>, h': seq<u8>)
    requires Framed(h) && Framed(h')
    requires |h| <= |h'| && h == h'[..|h|]
    ensures h == h'
  {
    assert h[0] == h'[0];
    if h[0] >= 0x80 {
      assert h[1] == h'[1];
    }
  }
}
