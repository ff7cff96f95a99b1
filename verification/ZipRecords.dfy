/** ZIP records, read from and written to their bytes (src/chunker/zip/records.rs, section 4.3 of APPNOTE). */
module ZipRecords {
  import opened Bytes

  datatype ZipFault =
    | UnknownSignature
    | MemberAfterCentralDirectory
    | RecordOutOfSequence
    | MissingZip64Sizes
    | MalformedExtraField
    | StoredSizesDisagree
    | ImplausibleExpansion
    | DescriptorSizeMismatch
    | CentralOffsetOutOfRange
    | EntryCountMismatch
    | CentralDirectoryGeometry
    | TrailingBytes
    | Truncated

  datatype Result<+T> = Ok(value: T) | Err(fault: ZipFault)

  // Little-endian fields.

  function Power256(n: nat): nat {
    if n == 0 then 1 else 256 * Power256(n - 1)
  }

  /** The `n` low bytes of `v`, least significant first: writing a field drops what does not fit. */
  function Le(v: nat, n: nat): (s: seq<Byte>)
    ensures |s| == n
  {
    if n == 0 then [] else [v % 256] + Le(v / 256, n - 1)
  }

  function UnLe(s: seq<Byte>): nat {
    if s == [] then 0 else s[0] + 256 * UnLe(s[1..])
  }

  function U16(s: seq<Byte>, at: nat): nat
    requires at + 2 <= |s|
  {
    UnLe(s[at..at + 2])
  }

  function U32(s: seq<Byte>, at: nat): nat
    requires at + 4 <= |s|
  {
    UnLe(s[at..at + 4])
  }

  function U64(s: seq<Byte>, at: nat): nat
    requires at + 8 <= |s|
  {
    UnLe(s[at..at + 8])
  }

  const MAX16: nat := 0xFFFF
  const MAX32: nat := 0xFFFF_FFFF
  const MAX64: nat := 0xFFFF_FFFF_FFFF_FFFF

  lemma PowersOf256()
    ensures Power256(2) == MAX16 + 1 && Power256(4) == MAX32 + 1 && Power256(8) == MAX64 + 1
  {
    assert Power256(3) == 0x100_0000;
    assert Power256(5) == 0x100_0000_0000;
    assert Power256(6) == 0x1_0000_0000_0000;
    assert Power256(7) == 0x100_0000_0000_0000;
  }

  /** A field wide enough reads back what was written. */
  lemma {:induction false} UnLeLe(v: nat, n: nat)
    requires v < Power256(n)
    ensures UnLe(Le(v, n)) == v
  {
    if n > 0 {
      UnLeLe(v / 256, n - 1);
      assert Le(v, n)[1..] == Le(v / 256, n - 1);
    }
  }

  lemma {:induction false} UnLeBound(s: seq<Byte>)
    ensures UnLe(s) < Power256(|s|)
  {
    if s != [] {
      UnLeBound(s[1..]);
    }
  }

  // Signatures, flags and methods.

  const LOCAL_HEADER: seq<Byte> := [0x50, 0x4B, 0x03, 0x04]
  const CENTRAL_HEADER: seq<Byte> := [0x50, 0x4B, 0x01, 0x02]
  const END_OF_CENTRAL_DIRECTORY: seq<Byte> := [0x50, 0x4B, 0x05, 0x06]
  const ZIP64_END_OF_CENTRAL_DIRECTORY: seq<Byte> := [0x50, 0x4B, 0x06, 0x06]
  const ZIP64_LOCATOR: seq<Byte> := [0x50, 0x4B, 0x06, 0x07]
  const DATA_DESCRIPTOR: seq<Byte> := [0x50, 0x4B, 0x07, 0x08]

  const METHOD_STORED: nat := 0
  const METHOD_DEFLATE: nat := 8
  const METHOD_DEFLATE64: nat := 9
  const FLAG_ENCRYPTED: nat := 1
  const FLAG_DESCRIPTOR: nat := 8
  const FLAG_UTF8: nat := 2048

  /** Whether the one-bit `flag` is set in `flags`. */
  predicate HasFlag(flags: nat, flag: Pos) {
    flags / flag % 2 == 1
  }

  // Member sizes.

  datatype MemberSizes = MemberSizes(compressed: nat, uncompressed: nat)

  function Saturate(v: nat): nat {
    if v < MAX64 then v else MAX64
  }

  /** Size claims no real member can carry are refused. */
  function Check(sizes: MemberSizes, codec: nat): Option<ZipFault> {
    if codec == METHOD_STORED && sizes.compressed != sizes.uncompressed then Some(StoredSizesDisagree)
    else if (codec == METHOD_DEFLATE || codec == METHOD_DEFLATE64)
         && sizes.uncompressed > Saturate(Saturate(sizes.compressed * 1032) + 64)
    then Some(ImplausibleExpansion)
    else None
  }

  // The ZIP64 extra field: a list of (id, size, data) fields, the one with id 1 first found.

  const ZIP64_ID: nat := 1

  function FindZip64(extra: seq<Byte>): Result<Option<seq<Byte>>>
    decreases |extra|
  {
    if extra == [] then Ok(None)
    else if |extra| < 4 then Err(MalformedExtraField)
    else
      var size := U16(extra, 2);
      if |extra| < 4 + size then Err(MalformedExtraField)
      else if U16(extra, 0) == ZIP64_ID then Ok(Some(extra[4..4 + size]))
      else FindZip64(extra[4 + size..])
  }

  method LocateZip64(extra: seq<Byte>) returns (data: Result<Option<seq<Byte>>>)
    ensures data == FindZip64(extra)
  {
    var at := 0;
    while at < |extra|
      invariant at <= |extra|
      invariant FindZip64(extra) == FindZip64(extra[at..])
    {
      if |extra| - at < 4 {
        return Err(MalformedExtraField);
      }
      var rest := extra[at..];
      assert extra[at..at + 2] == rest[0..2] && extra[at + 2..at + 4] == rest[2..4];
      var id, size := U16(extra, at), U16(extra, at + 2);
      var start := at + 4;
      if start + size > |extra| {
        return Err(MalformedExtraField);
      }
      if id == ZIP64_ID {
        assert extra[start..start + size] == rest[4..4 + size];
        return Ok(Some(extra[start..start + size]));
      }
      assert rest[4 + size..] == extra[start + size..];
      at := start + size;
    }
    data := Ok(None);
  }

  /** The `k`-th 64-bit value of a ZIP64 field, if the field is that long. */
  function Zip64Field(data: seq<Byte>, k: nat): Result<nat> {
    if 8 * k + 8 <= |data| then Ok(U64(data, 8 * k)) else Err(MissingZip64Sizes)
  }

  /** A 32-bit field of a header: its value, or, when it carries the marker, the next ZIP64 value. */
  function Resolve(field: nat, data: seq<Byte>, k: nat): Result<nat> {
    if field == MAX32 then Zip64Field(data, k) else Ok(field)
  }

  // Fixed parts of the records, after their signatures.

  const LOCAL_FIXED: nat := 26
  const CENTRAL_FIXED: nat := 42
  const END_FIXED: nat := 18
  const ZIP64_END_FIXED: nat := 52
  const ZIP64_LOCATOR_FIXED: nat := 16

  datatype LocalHeader = LocalHeader(
    codec: nat, crc: nat, hasDescriptor: bool, utf8: bool, encrypted: bool,
    compressed: nat, uncompressed: nat, nameLen: nat, extraLen: nat)

  function ParseLocal(b: seq<Byte>): LocalHeader
    requires |b| == LOCAL_FIXED
  {
    var flags := U16(b, 2);
    LocalHeader(U16(b, 4), U32(b, 10), HasFlag(flags, FLAG_DESCRIPTOR), HasFlag(flags, FLAG_UTF8), HasFlag(flags, FLAG_ENCRYPTED),
                U32(b, 14), U32(b, 18), U16(b, 22), U16(b, 24))
  }

  predicate NeedsZip64(h: LocalHeader) {
    h.compressed == MAX32 || h.uncompressed == MAX32
  }

  /** The sizes a local header claims, through its ZIP64 field where it defers to one. */
  function LocalSizes(h: LocalHeader, extra: seq<Byte>): Result<MemberSizes> {
    if !NeedsZip64(h) then Ok(MemberSizes(h.compressed, h.uncompressed))
    else
      match FindZip64(extra)
      case Err(f) => Err(f)
      case Ok(None) => Err(MissingZip64Sizes)
      case Ok(Some(data)) =>
        match Resolve(h.uncompressed, data, 0)
        case Err(f) => Err(f)
        case Ok(uncompressed) =>
          match Resolve(h.compressed, data, if h.uncompressed == MAX32 then 1 else 0)
          case Err(f) => Err(f)
          case Ok(compressed) => Ok(MemberSizes(compressed, uncompressed))
  }

  datatype CentralHeader = CentralHeader(
    codec: nat, compressed: nat, uncompressed: nat, nameLen: nat, extraLen: nat, commentLen: nat, localOffset: nat)

  function ParseCentral(b: seq<Byte>): CentralHeader
    requires |b| == CENTRAL_FIXED
  {
    CentralHeader(U16(b, 6), U32(b, 16), U32(b, 20), U16(b, 24), U16(b, 26), U16(b, 28), U32(b, 38))
  }

  datatype Located = Located(sizes: MemberSizes, offset: nat)

  /** The sizes and local-header offset of a central entry. */
  function CentralFacts(h: CentralHeader, extra: seq<Byte>): Result<Located> {
    if h.compressed != MAX32 && h.uncompressed != MAX32 && h.localOffset != MAX32
    then Ok(Located(MemberSizes(h.compressed, h.uncompressed), h.localOffset))
    else
      match FindZip64(extra)
      case Err(f) => Err(f)
      case Ok(None) => Err(MissingZip64Sizes)
      case Ok(Some(data)) =>
        var first := if h.uncompressed == MAX32 then 1 else 0;
        var second := first + if h.compressed == MAX32 then 1 else 0;
        match Resolve(h.uncompressed, data, 0)
        case Err(f) => Err(f)
        case Ok(uncompressed) =>
          match Resolve(h.compressed, data, first)
          case Err(f) => Err(f)
          case Ok(compressed) =>
            match Resolve(h.localOffset, data, second)
            case Err(f) => Err(f)
            case Ok(offset) => Ok(Located(MemberSizes(compressed, uncompressed), offset))
  }

  datatype EndRecord = EndRecord(entriesTotal: nat, centralSize: nat, centralOffset: nat, commentLen: nat)

  function ParseEnd(b: seq<Byte>): EndRecord
    requires |b| == END_FIXED
  {
    EndRecord(U16(b, 6), U32(b, 8), U32(b, 12), U16(b, 16))
  }

  datatype Zip64EndRecord = Zip64EndRecord(entriesTotal: nat, centralSize: nat, centralOffset: nat, extensibleLen: nat)

  function ParseZip64End(b: seq<Byte>): Result<Zip64EndRecord>
    requires |b| == ZIP64_END_FIXED
  {
    var size := U64(b, 0);
    if size < 44 then Err(CentralDirectoryGeometry)
    else Ok(Zip64EndRecord(U64(b, 28), U64(b, 36), U64(b, 44), size - 44))
  }
}
