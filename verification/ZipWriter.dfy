/** The canonical ZIP record printers and the streaming writer (src/chunker/office/canonical/writer.rs, src/decompose/writer/zip.rs). */
module ZipWriter {
  import opened Bytes
  import opened ZipRecords

  const VERSION_ZIP64: nat := 45
  const VERSION_PLAIN: nat := 20

  predicate NeedsZip64Len(len: nat) {
    len >= MAX32
  }

  // Local parts.

  /** The fixed part of a local header: version, flags, STORE, no time or date, and the rest. */
  function LocalFixed(version: nat, flags: nat, crc: nat, size: nat, nameLen: nat, extraLen: nat): (b: seq<Byte>)
    ensures |b| == LOCAL_FIXED
  {
    Le(version, 2) + Le(flags, 2) + Le(METHOD_STORED, 2) + Le(0, 2) + Le(0, 2)
    + Le(crc, 4) + Le(size, 4) + Le(size, 4) + Le(nameLen, 2) + Le(extraLen, 2)
  }

  /** The ZIP64 field of a local header, when its length needs one. */
  function LocalExtra(len: nat): seq<Byte> {
    if NeedsZip64Len(len) then Le(ZIP64_ID, 2) + Le(16, 2) + Le(len, 8) + Le(len, 8) else []
  }

  function Utf8Flag(utf8: bool): nat {
    if utf8 then FLAG_UTF8 else 0
  }

  function LocalHeaderKnown(name: seq<Byte>, utf8: bool, crc: nat, len: nat): seq<Byte> {
    var zip64 := NeedsZip64Len(len);
    LOCAL_HEADER
    + LocalFixed(if zip64 then VERSION_ZIP64 else VERSION_PLAIN, Utf8Flag(utf8), crc, if zip64 then MAX32 else len,
                 |name|, if zip64 then 20 else 0)
    + (name + LocalExtra(len))
  }

  function LocalHeaderUnknown(name: seq<Byte>, utf8: bool): seq<Byte> {
    LOCAL_HEADER + LocalFixed(VERSION_PLAIN, FLAG_DESCRIPTOR + Utf8Flag(utf8), 0, 0, |name|, 0) + name
  }

  function DescriptorBody(crc: nat, len: nat): (b: seq<Byte>)
    ensures |b| == 12
  {
    Le(crc, 4) + Le(len, 4) + Le(len, 4)
  }

  function DescriptorBytes(crc: nat, len: nat): seq<Byte> {
    DATA_DESCRIPTOR + DescriptorBody(crc, len)
  }

  // The central directory.

  datatype CentralEntry = CentralEntry(name: seq<Byte>, utf8: bool, crc: nat, len: nat, offset: nat, descriptor: bool)

  function CentralExtra(e: CentralEntry): seq<Byte> {
    var zip64Len := NeedsZip64Len(e.len);
    var zip64Offset := e.offset >= MAX32;
    if !zip64Len && !zip64Offset then []
    else
      Le(ZIP64_ID, 2) + Le((if zip64Len then 16 else 0) + (if zip64Offset then 8 else 0), 2)
      + ((if zip64Len then Le(e.len, 8) + Le(e.len, 8) else []) + (if zip64Offset then Le(e.offset, 8) else []))
  }

  function CentralFixed(e: CentralEntry): (b: seq<Byte>)
    ensures |b| == CENTRAL_FIXED
  {
    var zip64Len := NeedsZip64Len(e.len);
    var zip64Offset := e.offset >= MAX32;
    var version := if zip64Len || zip64Offset then VERSION_ZIP64 else VERSION_PLAIN;
    var size := if zip64Len then MAX32 else e.len;
    var flags := Utf8Flag(e.utf8) + if e.descriptor then FLAG_DESCRIPTOR else 0;
    Le(version, 2) + Le(version, 2) + Le(flags, 2) + Le(METHOD_STORED, 2) + Le(0, 2) + Le(0, 2)
    + Le(e.crc, 4) + Le(size, 4) + Le(size, 4) + Le(|e.name|, 2) + Le(|CentralExtra(e)|, 2)
    + Le(0, 2) + Le(0, 2) + Le(0, 2) + Le(0, 4) + Le(if zip64Offset then MAX32 else e.offset, 4)
  }

  function CentralHeaderBytes(e: CentralEntry): seq<Byte> {
    CENTRAL_HEADER + CentralFixed(e) + (e.name + CentralExtra(e))
  }

  function Directory(entries: seq<CentralEntry>): seq<Byte> {
    if entries == [] then []
    else Directory(entries[..|entries| - 1]) + CentralHeaderBytes(entries[|entries| - 1])
  }

  predicate TailNeedsZip64(entries: seq<CentralEntry>, centralOffset: nat) {
    || |entries| >= MAX16
    || |Directory(entries)| >= MAX32
    || centralOffset >= MAX32
    || exists i :: 0 <= i < |entries| && (NeedsZip64Len(entries[i].len) || entries[i].offset >= MAX32)
  }

  function Zip64EndFixedBytes(count: nat, size: nat, offset: nat): (b: seq<Byte>)
    ensures |b| == ZIP64_END_FIXED
  {
    Le(44, 8) + Le(VERSION_ZIP64, 2) + Le(VERSION_ZIP64, 2) + Le(0, 4) + Le(0, 4)
    + Le(count, 8) + Le(count, 8) + Le(size, 8) + Le(offset, 8)
  }

  function LocatorFixedBytes(zip64EndOffset: nat): (b: seq<Byte>)
    ensures |b| == ZIP64_LOCATOR_FIXED
  {
    Le(0, 4) + Le(zip64EndOffset, 8) + Le(1, 4)
  }

  function EndFixedBytes(count: nat, size: nat, offset: nat): (b: seq<Byte>)
    ensures |b| == END_FIXED
  {
    Le(0, 2) + Le(0, 2) + Le(count, 2) + Le(count, 2) + Le(size, 4) + Le(offset, 4) + Le(0, 2)
  }

  /** The ZIP64 end record and its locator. */
  function Zip64Tail(count: nat, size: nat, offset: nat): seq<Byte> {
    (ZIP64_END_OF_CENTRAL_DIRECTORY + Zip64EndFixedBytes(count, size, offset))
    + (ZIP64_LOCATOR + LocatorFixedBytes(offset + size))
  }

  function EndBytes(zip64: bool, count: nat, size: nat, offset: nat): seq<Byte> {
    END_OF_CENTRAL_DIRECTORY + if zip64 then EndFixedBytes(MAX16, MAX32, MAX32) else EndFixedBytes(count, size, offset)
  }

  /** The central directory and the end records. */
  function Tail(entries: seq<CentralEntry>, centralOffset: nat): seq<Byte> {
    var size := |Directory(entries)|;
    var zip64 := TailNeedsZip64(entries, centralOffset);
    Directory(entries)
    + (if zip64 then Zip64Tail(|entries|, size, centralOffset) else [])
    + EndBytes(zip64, |entries|, size, centralOffset)
  }

  method WriteTail(entries: seq<CentralEntry>, centralOffset: nat) returns (out: seq<Byte>)
    ensures out == Tail(entries, centralOffset)
  {
    hide CentralHeaderBytes, Zip64EndFixedBytes, LocatorFixedBytes, EndBytes;
    out := [];
    var anyZip64 := false;
    for i := 0 to |entries|
      invariant out == Directory(entries[..i])
      invariant anyZip64 <==> exists j :: 0 <= j < i && (NeedsZip64Len(entries[j].len) || entries[j].offset >= MAX32)
    {
      assert entries[..i + 1][..i] == entries[..i];
      out := out + CentralHeaderBytes(entries[i]);
      anyZip64 := anyZip64 || NeedsZip64Len(entries[i].len) || entries[i].offset >= MAX32;
    }
    assert entries[..|entries|] == entries;
    var size, count := |out|, |entries|;
    var zip64 := count >= MAX16 || size >= MAX32 || centralOffset >= MAX32 || anyZip64;
    assert zip64 == TailNeedsZip64(entries, centralOffset);
    if zip64 {
      out := out + (ZIP64_END_OF_CENTRAL_DIRECTORY + Zip64EndFixedBytes(count, size, centralOffset));
      out := out + (ZIP64_LOCATOR + LocatorFixedBytes(centralOffset + size));
    }
    out := out + EndBytes(zip64, count, size, centralOffset);
  }

  // Whole archives: members, each either framed with its size or closed by a descriptor.

  datatype Member = Member(name: seq<Byte>, utf8: bool, crc: nat, data: seq<Byte>, descriptor: bool)

  function LocalHeaderBytes(m: Member): seq<Byte> {
    if m.descriptor then LocalHeaderUnknown(m.name, m.utf8) else LocalHeaderKnown(m.name, m.utf8, m.crc, |m.data|)
  }

  function LocalBytes(m: Member): seq<Byte> {
    LocalHeaderBytes(m) + (m.data + if m.descriptor then DescriptorBytes(m.crc, |m.data|) else [])
  }

  function Locals(ms: seq<Member>): seq<Byte> {
    if ms == [] then [] else Locals(ms[..|ms| - 1]) + LocalBytes(ms[|ms| - 1])
  }

  /** The central entry of a member whose local header is at `offset`. */
  function EntryOf(m: Member, offset: nat): CentralEntry {
    CentralEntry(m.name, m.utf8, m.crc, |m.data|, offset, m.descriptor)
  }

  function Entries(ms: seq<Member>): (es: seq<CentralEntry>)
    ensures |es| == |ms|
  {
    if ms == [] then []
    else
      var front := ms[..|ms| - 1];
      Entries(front) + [EntryOf(ms[|ms| - 1], |Locals(front)|)]
  }

  /** The canonical archive of a list of members. */
  function Archive(ms: seq<Member>): seq<Byte> {
    Locals(ms) + Tail(Entries(ms), |Locals(ms)|)
  }

  lemma OneMore(ms: seq<Member>, m: Member)
    ensures Locals(ms + [m]) == Locals(ms) + LocalBytes(m)
    ensures Entries(ms + [m]) == Entries(ms) + [EntryOf(m, |Locals(ms)|)]
  {
    hide LocalBytes;
    assert (ms + [m])[..|ms|] == ms;
  }

  /** The streaming writer: every member in descriptor mode. The CRC hasher is the bytes it has absorbed. */
  class CanonicalZipWriter {
    const crcOf: seq<Byte> -> nat
    const utf8Of: seq<Byte> -> bool
    var entries: seq<CentralEntry>
    var offset: nat
    var open: Option<OpenMember>
    ghost var members: seq<Member>
    ghost var written: seq<Byte>

    /** What was written is the local parts of the closed members, then the open member's header and data so far. */
    ghost predicate Valid()
      reads this
    {
      && entries == Entries(members) && offset == |written|
      && (forall i :: 0 <= i < |members| ==> members[i].descriptor)
      && match open
         case None => written == Locals(members)
         case Some(m) =>
           && m.headerOffset == |Locals(members)|
           && written == Locals(members) + (LocalHeaderUnknown(m.name, utf8Of(m.name)) + m.data)
    }

    constructor (crcOf: seq<Byte> -> nat, utf8Of: seq<Byte> -> bool)
      ensures Valid() && members == [] && written == [] && open == None
      ensures this.crcOf == crcOf && this.utf8Of == utf8Of
    {
      this.crcOf, this.utf8Of := crcOf, utf8Of;
      entries, offset, open, members, written := [], 0, None, [], [];
    }

    method EmitCounted(bytes: seq<Byte>) returns (out: seq<Byte>)
      modifies this`offset, this`written
      ensures out == bytes && offset == old(offset) + |bytes| && written == old(written) + bytes
    {
      offset := offset + |bytes|;
      written := written + bytes;
      out := bytes;
    }

    method BeginMember(path: seq<Byte>) returns (out: seq<Byte>)
      requires Valid() && open.None?
      modifies this
      ensures Valid() && members == old(members) && written == old(written) + out
      ensures open == Some(OpenMember(path, old(offset), []))
    {
      var headerOffset := offset;
      out := EmitCounted(LocalHeaderUnknown(path, utf8Of(path)));
      open := Some(OpenMember(path, headerOffset, []));
      assert LocalHeaderUnknown(path, utf8Of(path)) + [] == LocalHeaderUnknown(path, utf8Of(path));
    }

    method MemberBytes(bytes: seq<Byte>) returns (out: seq<Byte>)
      requires Valid() && open.Some?
      modifies this
      ensures Valid() && members == old(members) && written == old(written) + out && out == bytes
      ensures open == Some(old(open).value.(data := old(open).value.data + bytes))
    {
      var m := open.value;
      open := Some(m.(data := m.data + bytes));
      out := EmitCounted(bytes);
      ghost var header := LocalHeaderUnknown(m.name, utf8Of(m.name));
      assert Locals(members) + (header + m.data) + bytes == Locals(members) + (header + (m.data + bytes));
    }

    /** Close the member with its descriptor; the source panics on a member of 4 GiB or more. */
    method EndMember() returns (out: seq<Byte>)
      requires Valid() && open.Some? && |open.value.data| <= MAX32
      modifies this
      ensures Valid() && open == None && written == old(written) + out
      ensures var m := old(open).value;
              members == old(members) + [Member(m.name, utf8Of(m.name), crcOf(m.data), m.data, true)]
    {
      hide LocalHeaderUnknown, DescriptorBytes, Entries, Locals;
      var m := open.value;
      var crc, len := crcOf(m.data), |m.data|;
      open := None;
      out := EmitCounted(DescriptorBytes(crc, len));
      entries := entries + [CentralEntry(m.name, utf8Of(m.name), crc, len, m.headerOffset, true)];
      ghost var closed := Member(m.name, utf8Of(m.name), crc, m.data, true);
      ghost var front := members;
      members := members + [closed];
      OneMore(front, closed);
      ghost var header := LocalHeaderUnknown(m.name, utf8Of(m.name));
      assert Locals(front) + (header + m.data) + out == Locals(front) + (header + (m.data + out));
    }

    /** An explicit directory entry: an empty member whose name ends in a slash. */
    method DirectoryEntry(path: seq<Byte>) returns (out: seq<Byte>)
      requires Valid() && open.None?
      modifies this
      ensures Valid() && open == None && written == old(written) + out
      ensures var name := if path != [] && path[|path| - 1] == '/' as int then path else path + ['/' as int];
              members == old(members) + [Member(name, utf8Of(name), crcOf([]), [], true)]
    {
      hide LocalHeaderUnknown, Entries, Locals;
      var name := path;
      if name == [] || name[|name| - 1] != '/' as int {
        name := name + ['/' as int];
      }
      var header := BeginMember(name);
      var close := EndMember();
      out := header + close;
      assert old(written) + header + close == old(written) + out;
    }

    /** The archive's tail: with what was written, the canonical archive of the members. */
    method Finish() returns (out: seq<Byte>)
      requires Valid() && open.None?
      ensures written + out == Archive(members)
    {
      out := WriteTail(entries, offset);
    }
  }

  datatype OpenMember = OpenMember(name: seq<Byte>, headerOffset: nat, data: seq<Byte>)
}
