/** Record headers as any writer prints them (sections 4.3.7, 4.3.9 and 4.3.12 of APPNOTE, 4.5.3 for ZIP64), and that they read back. */
module ZipHeaders {
  import opened Bytes
  import opened ZipRecords
  import opened ZipWalker
  import opened ZipWriter

  lemma PrefixField(b: seq<Byte>, a: seq<Byte>, x: seq<Byte>)
    requires a + x <= b
    ensures a <= b && b[|a|..|a| + |x|] == x
  {
  }

  /** The fixed part of any local header, without time or date. */
  function LocalRecord(version: nat, flags: nat, codec: nat, crc: nat, compressed: nat, uncompressed: nat, nameLen: nat, extraLen: nat): (b: seq<Byte>)
    ensures |b| == LOCAL_FIXED
  {
    Le(version, 2) + Le(flags, 2) + Le(codec, 2) + Le(0, 2) + Le(0, 2)
    + Le(crc, 4) + Le(compressed, 4) + Le(uncompressed, 4) + Le(nameLen, 2) + Le(extraLen, 2)
  }

  lemma ReadsRecord(version: nat, flags: nat, codec: nat, crc: nat, compressed: nat, uncompressed: nat, nameLen: nat, extraLen: nat)
    requires flags <= MAX16 && codec <= MAX16 && crc <= MAX32 && compressed <= MAX32 && uncompressed <= MAX32
    requires nameLen <= MAX16 && extraLen <= MAX16
    ensures ParseLocal(LocalRecord(version, flags, codec, crc, compressed, uncompressed, nameLen, extraLen)) ==
            LocalHeader(codec, crc, HasFlag(flags, FLAG_DESCRIPTOR), HasFlag(flags, FLAG_UTF8), HasFlag(flags, FLAG_ENCRYPTED),
                        compressed, uncompressed, nameLen, extraLen)
  {
    hide Le, UnLe, HasFlag;
    var b := LocalRecord(version, flags, codec, crc, compressed, uncompressed, nameLen, extraLen);
    var a1 := Le(version, 2);
    var a2 := a1 + Le(flags, 2);
    var a3 := a2 + Le(codec, 2);
    var a4 := a3 + Le(0, 2);
    var a5 := a4 + Le(0, 2);
    var a6 := a5 + Le(crc, 4);
    var a7 := a6 + Le(compressed, 4);
    var a8 := a7 + Le(uncompressed, 4);
    var a9 := a8 + Le(nameLen, 2);
    var a10 := a9 + Le(extraLen, 2);
    assert b == a10;
    PrefixField(b, a9, Le(extraLen, 2));
    PrefixField(b, a8, Le(nameLen, 2));
    PrefixField(b, a7, Le(uncompressed, 4));
    PrefixField(b, a6, Le(compressed, 4));
    PrefixField(b, a5, Le(crc, 4));
    PrefixField(b, a4, Le(0, 2));
    PrefixField(b, a3, Le(0, 2));
    PrefixField(b, a2, Le(codec, 2));
    PrefixField(b, a1, Le(flags, 2));
    PowersOf256();
    UnLeLe(flags, 2);
    UnLeLe(codec, 2);
    UnLeLe(crc, 4);
    UnLeLe(compressed, 4);
    UnLeLe(uncompressed, 4);
    UnLeLe(nameLen, 2);
    UnLeLe(extraLen, 2);
  }

  lemma FlagBits(flags: nat)
    ensures HasFlag(flags, FLAG_ENCRYPTED) <==> flags % 2 == 1
    ensures HasFlag(flags, FLAG_DESCRIPTOR) <==> flags / 8 % 2 == 1
    ensures HasFlag(flags, FLAG_UTF8) <==> flags / 2048 % 2 == 1
  {
  }

  /**
   * What a member is reported as: its name, its method, bit 0 of the flags for encryption, bit 11 for UTF-8, its checksum,
   * and its sizes, unless bit 3 says they follow and the compressed one is zero.
   */
  lemma MemberReported(w: Walk, version: nat, flags: nat, codec: nat, crc: nat, compressed: nat, uncompressed: nat, name: seq<Byte>, extra: seq<Byte>)
    requires flags <= MAX16 && codec <= MAX16 && crc <= MAX32 && compressed <= MAX32 && uncompressed <= MAX32
    requires |name| <= MAX16 && |extra| <= MAX16
    ensures var h := ParseLocal(LocalRecord(version, flags, codec, crc, compressed, uncompressed, |name|, |extra|));
            var step := EnterMember(w, h, name, extra);
            var unknown := flags / 8 % 2 == 1 && compressed == 0;
            && (step.Go? <==> unknown || (LocalSizes(h, extra).Ok? && Check(LocalSizes(h, extra).value, codec).None?))
            && (step.Go? ==>
                  && step.events != [] && step.events[0] ==
                     LocalHeaderRead(name, codec, flags / 2048 % 2 == 1, flags % 2 == 1,
                                     if unknown then None else Some(LocalSizes(h, extra).value), if unknown then 0 else crc))
  {
    hide LocalSizes, Check, HasFlag, LocalRecord;
    ReadsRecord(version, flags, codec, crc, compressed, uncompressed, |name|, |extra|);
    FlagBits(flags);
  }

  /** The fixed part of any central entry, after its signature. */
  datatype CentralRecord = CentralRecord(
    madeBy: nat, version: nat, flags: nat, codec: nat, time: nat, date: nat, crc: nat, compressed: nat, uncompressed: nat,
    nameLen: nat, extraLen: nat, commentLen: nat, disk: nat, internal: nat, external: nat, offset: nat)

  function PrintCentral(r: CentralRecord): (b: seq<Byte>)
    ensures |b| == CENTRAL_FIXED
  {
    Le(r.madeBy, 2) + Le(r.version, 2) + Le(r.flags, 2) + Le(r.codec, 2) + Le(r.time, 2) + Le(r.date, 2)
    + Le(r.crc, 4) + Le(r.compressed, 4) + Le(r.uncompressed, 4) + Le(r.nameLen, 2) + Le(r.extraLen, 2)
    + Le(r.commentLen, 2) + Le(r.disk, 2) + Le(r.internal, 2) + Le(r.external, 4) + Le(r.offset, 4)
  }

  lemma ReadsEntry(r: CentralRecord)
    requires r.codec <= MAX16 && r.compressed <= MAX32 && r.uncompressed <= MAX32 && r.offset <= MAX32
    requires r.nameLen <= MAX16 && r.extraLen <= MAX16 && r.commentLen <= MAX16
    ensures ParseCentral(PrintCentral(r)) ==
            CentralHeader(r.codec, r.compressed, r.uncompressed, r.nameLen, r.extraLen, r.commentLen, r.offset)
  {
    hide Le, UnLe;
    var b := PrintCentral(r);
    var a1 := Le(r.madeBy, 2);
    var a2 := a1 + Le(r.version, 2);
    var a3 := a2 + Le(r.flags, 2);
    var a4 := a3 + Le(r.codec, 2);
    var a5 := a4 + Le(r.time, 2);
    var a6 := a5 + Le(r.date, 2);
    var a7 := a6 + Le(r.crc, 4);
    var a8 := a7 + Le(r.compressed, 4);
    var a9 := a8 + Le(r.uncompressed, 4);
    var a10 := a9 + Le(r.nameLen, 2);
    var a11 := a10 + Le(r.extraLen, 2);
    var a12 := a11 + Le(r.commentLen, 2);
    var a13 := a12 + Le(r.disk, 2);
    var a14 := a13 + Le(r.internal, 2);
    var a15 := a14 + Le(r.external, 4);
    var a16 := a15 + Le(r.offset, 4);
    assert b == a16;
    PrefixField(b, a15, Le(r.offset, 4));
    PrefixField(b, a14, Le(r.external, 4));
    PrefixField(b, a13, Le(r.internal, 2));
    PrefixField(b, a12, Le(r.disk, 2));
    PrefixField(b, a11, Le(r.commentLen, 2));
    PrefixField(b, a10, Le(r.extraLen, 2));
    PrefixField(b, a9, Le(r.nameLen, 2));
    PrefixField(b, a8, Le(r.uncompressed, 4));
    PrefixField(b, a7, Le(r.compressed, 4));
    PrefixField(b, a6, Le(r.crc, 4));
    PrefixField(b, a5, Le(r.date, 2));
    PrefixField(b, a4, Le(r.time, 2));
    PrefixField(b, a3, Le(r.codec, 2));
    PrefixField(b, a2, Le(r.flags, 2));
    PrefixField(b, a1, Le(r.version, 2));
    PowersOf256();
    UnLeLe(r.codec, 2);
    UnLeLe(r.compressed, 4);
    UnLeLe(r.uncompressed, 4);
    UnLeLe(r.nameLen, 2);
    UnLeLe(r.extraLen, 2);
    UnLeLe(r.commentLen, 2);
    UnLeLe(r.offset, 4);
  }

  /** The body of any descriptor with 32-bit sizes. */
  function DescriptorRecord(crc: nat, compressed: nat, uncompressed: nat): (b: seq<Byte>)
    ensures |b| == 12
  {
    Le(crc, 4) + Le(compressed, 4) + Le(uncompressed, 4)
  }

  lemma ReadsBody(crc: nat, compressed: nat, uncompressed: nat)
    requires crc <= MAX32 && compressed <= MAX32 && uncompressed <= MAX32
    ensures var b := DescriptorRecord(crc, compressed, uncompressed);
            BodySizes(false, b) == MemberSizes(compressed, uncompressed) && BodyCrc(b) == crc
  {
    hide Le, UnLe;
    var b := DescriptorRecord(crc, compressed, uncompressed);
    assert b[0..4] == Le(crc, 4) && b[4..8] == Le(compressed, 4) && b[8..12] == Le(uncompressed, 4);
    PowersOf256();
    UnLeLe(crc, 4);
    UnLeLe(compressed, 4);
    UnLeLe(uncompressed, 4);
  }

  // Extra parts: fields of an id, a length and data.

  function ExtraField(id: nat, data: seq<Byte>): seq<Byte> {
    Le(id, 2) + Le(|data|, 2) + data
  }

  /** A ZIP64 field is found whole, whatever follows it. */
  lemma FindsFirst(data: seq<Byte>, rest: seq<Byte>)
    requires |data| <= MAX16
    ensures FindZip64(ExtraField(ZIP64_ID, data) + rest) == Ok(Some(data))
  {
    hide Le, UnLe;
    var extra := ExtraField(ZIP64_ID, data) + rest;
    assert extra[0..2] == Le(ZIP64_ID, 2) && extra[2..4] == Le(|data|, 2) && extra[4..4 + |data|] == data;
    PowersOf256();
    UnLeLe(ZIP64_ID, 2);
    UnLeLe(|data|, 2);
  }

  /** A field of any other id is passed over. */
  lemma FindsNext(id: nat, data: seq<Byte>, rest: seq<Byte>)
    requires id <= MAX16 && id != 1 && |data| <= MAX16
    ensures FindZip64(ExtraField(id, data) + rest) == FindZip64(rest)
  {
    hide Le, UnLe;
    var extra := ExtraField(id, data) + rest;
    assert extra[0..2] == Le(id, 2) && extra[2..4] == Le(|data|, 2) && extra[4 + |data|..] == rest;
    PowersOf256();
    UnLeLe(id, 2);
    UnLeLe(|data|, 2);
  }

  /** A field cut short makes the extra part malformed. */
  lemma FindsCut(id: nat, len: nat, data: seq<Byte>)
    requires id <= MAX16 && |data| < len <= MAX16
    ensures FindZip64(Le(id, 2) + Le(len, 2) + data) == Err(MalformedExtraField)
  {
    hide Le, UnLe;
    var extra := Le(id, 2) + Le(len, 2) + data;
    assert extra[2..4] == Le(len, 2);
    PowersOf256();
    UnLeLe(len, 2);
  }

  lemma FindsZip64(data: seq<Byte>)
    requires |data| <= MAX16
    ensures FindZip64(Le(ZIP64_ID, 2) + Le(|data|, 2) + data) == Ok(Some(data))
  {
    FindsFirst(data, []);
    assert ExtraField(ZIP64_ID, data) + [] == Le(ZIP64_ID, 2) + Le(|data|, 2) + data;
  }

  /** A length or offset in a record: deferred to the ZIP64 field or not. */
  datatype Quantity = Here(value: nat) | Deferred(value: nat)

  predicate InRange(q: Quantity) {
    match q
    case Here(value) => value < MAX32
    case Deferred(value) => value <= MAX64
  }

  function InRecord(q: Quantity): nat {
    if q.Deferred? then MAX32 else q.value
  }

  function InZip64(q: Quantity): seq<Byte> {
    if q.Deferred? then Le(q.value, 8) else []
  }

  /** The ZIP64 field holds what is deferred, in this order: decoded length, stored length, offset; others may follow. */
  function Zip64Data(uncompressed: Quantity, compressed: Quantity, offset: Quantity, more: seq<Byte>): seq<Byte> {
    InZip64(uncompressed) + InZip64(compressed) + InZip64(offset) + more
  }

  /** What the `k`-th place of such data holds. */
  lemma ReadsPlace(before: seq<Byte>, q: Quantity, after: seq<Byte>, k: nat)
    requires InRange(q) && q.Deferred? && |before| == 8 * k
    ensures Resolve(MAX32, before + InZip64(q) + after, k) == Ok(q.value)
  {
    hide Le, UnLe;
    var data := before + Le(q.value, 8) + after;
    assert data[8 * k..8 * k + 8] == Le(q.value, 8);
    PowersOf256();
    UnLeLe(q.value, 8);
  }

  /** The sizes of a local header read back, each from where it is. */
  lemma ResolvesLocal(h: LocalHeader, uncompressed: Quantity, compressed: Quantity, more: seq<Byte>, extra: seq<Byte>)
    requires InRange(uncompressed) && InRange(compressed)
    requires h.uncompressed == InRecord(uncompressed) && h.compressed == InRecord(compressed)
    requires uncompressed.Deferred? || compressed.Deferred? ==>
               FindZip64(extra) == Ok(Some(Zip64Data(uncompressed, compressed, Here(0), more)))
    ensures LocalSizes(h, extra) == Ok(MemberSizes(compressed.value, uncompressed.value))
  {
    hide FindZip64, Le, UnLe, Zip64Field;
    var u, c := InZip64(uncompressed), InZip64(compressed);
    var data := Zip64Data(uncompressed, compressed, Here(0), more);
    assert data == [] + u + (c + [] + more) == u + c + more;
    if uncompressed.Deferred? {
      ReadsPlace([], uncompressed, c + [] + more, 0);
    }
    if compressed.Deferred? {
      ReadsPlace(u, compressed, more, if uncompressed.Deferred? then 1 else 0);
    }
  }

  /** And the sizes and the offset of a central entry. */
  lemma ResolvesCentral(h: CentralHeader, uncompressed: Quantity, compressed: Quantity, offset: Quantity, more: seq<Byte>, extra: seq<Byte>)
    requires InRange(uncompressed) && InRange(compressed) && InRange(offset)
    requires h.uncompressed == InRecord(uncompressed) && h.compressed == InRecord(compressed) && h.localOffset == InRecord(offset)
    requires uncompressed.Deferred? || compressed.Deferred? || offset.Deferred? ==>
               FindZip64(extra) == Ok(Some(Zip64Data(uncompressed, compressed, offset, more)))
    ensures CentralFacts(h, extra) == Ok(Located(MemberSizes(compressed.value, uncompressed.value), offset.value))
  {
    hide FindZip64, Le, UnLe, Zip64Field;
    var u, c, o := InZip64(uncompressed), InZip64(compressed), InZip64(offset);
    var data := Zip64Data(uncompressed, compressed, offset, more);
    assert data == [] + u + (c + o + more) == u + c + (o + more) == (u + c) + o + more;
    if uncompressed.Deferred? {
      ReadsPlace([], uncompressed, c + o + more, 0);
    }
    if compressed.Deferred? {
      ReadsPlace(u, compressed, o + more, if uncompressed.Deferred? then 1 else 0);
    }
    if offset.Deferred? {
      ReadsPlace(u + c, offset, more, (if uncompressed.Deferred? then 1 else 0) + if compressed.Deferred? then 1 else 0);
    }
  }

  // What the canonical writer prints.

  /** A member of known length: stored, version 20, or 45 with a ZIP64 field when the length does not fit 32 bits. */
  lemma LocalPrinted(name: seq<Byte>, utf8: bool, crc: nat, len: nat)
    ensures var big, flags := len >= 0xFFFF_FFFF, if utf8 then 2048 else 0;
            var size := if big then 0xFFFF_FFFF else len;
            var extra := if big then ExtraField(1, Le(len, 8) + Le(len, 8)) else [];
            LocalHeaderKnown(name, utf8, crc, len) ==
            LOCAL_HEADER + LocalRecord(if big then 45 else 20, flags, 0, crc, size, size, |name|, |extra|) + (name + extra)
    ensures LocalHeaderUnknown(name, utf8) ==
            LOCAL_HEADER + LocalRecord(20, if utf8 then 2056 else 8, 0, 0, 0, 0, |name|, 0) + name
  {
    hide Le;
    var field := Le(len, 8) + Le(len, 8);
    Assoc(Le(1, 2) + Le(16, 2), Le(len, 8), Le(len, 8));
    assert |field| == 16;
  }

  /** Its directory entry: the same, and a ZIP64 field for what does not fit, the offset included. */
  lemma CentralPrinted(e: CentralEntry)
    ensures var bigLen, bigOffset := e.len >= 0xFFFF_FFFF, e.offset >= 0xFFFF_FFFF;
            var version := if bigLen || bigOffset then 45 else 20;
            var flags := (if e.utf8 then 2048 else 0) + (if e.descriptor then 8 else 0);
            var size := if bigLen then 0xFFFF_FFFF else e.len;
            var data := (if bigLen then Le(e.len, 8) + Le(e.len, 8) else []) + (if bigOffset then Le(e.offset, 8) else []);
            var extra := if bigLen || bigOffset then ExtraField(1, data) else [];
            CentralHeaderBytes(e) ==
            CENTRAL_HEADER
            + PrintCentral(CentralRecord(version, version, flags, 0, 0, 0, e.crc, size, size, |e.name|, |extra|, 0, 0, 0, 0,
                                         if bigOffset then 0xFFFF_FFFF else e.offset))
            + (e.name + extra)
  {
    hide Le;
  }

  /** The ZIP64 end records are printed exactly when an end field cannot hold its value or some entry has a ZIP64 field. */
  lemma Zip64Exactly(entries: seq<CentralEntry>, offset: nat)
    ensures TailNeedsZip64(entries, offset) <==>
            || |entries| >= 0xFFFF || |Directory(entries)| >= 0xFFFF_FFFF || offset >= 0xFFFF_FFFF
            || exists i :: 0 <= i < |entries| && CentralExtra(entries[i]) != []
  {
    hide Directory, Le;
    forall i | 0 <= i < |entries| ensures CentralExtra(entries[i]) != [] <==> NeedsZip64Len(entries[i].len) || entries[i].offset >= MAX32 {
      ExtraNonempty(entries[i]);
    }
  }

  lemma ExtraNonempty(e: CentralEntry)
    ensures CentralExtra(e) != [] <==> NeedsZip64Len(e.len) || e.offset >= MAX32
  {
    hide Le;
  }
}
