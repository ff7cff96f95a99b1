/** The bridge from walked source packages to the canonical stream (src/chunker/office/canonical/core.rs). */
module OoxmlCore {
  import opened Bytes
  import opened ZipRecords
  import opened ZipWalker
  import opened ZipWriter
  import opened Assembler

  datatype OfficeFault =
    | NotOoxmlPackage
    | MissingMainPart
    | UnrecognizedPackage
    | SignedPackage
    | UnsupportedMethod
    | MalformedDeflate
    | InflatedSizeMismatch
    | CrcMismatch
    | DeflateGeometry
    | MetadataOverBound
    | UnknownSizeMemberTooLarge
    | PackageTruncated

  const MAX_MEMBERS: nat := 100_000
  const MAX_NAME_BYTES: nat := 0x80_0000
  const UNIT_MIN: nat := 0x1000

  // Package names.

  datatype OfficeKind = Word | Excel | Powerpoint

  /** [Content_Types].xml */
  const CONTENT_TYPES: seq<Byte> :=
    [91, 67, 111, 110, 116, 101, 110, 116, 95, 84, 121, 112, 101, 115, 93, 46, 120, 109, 108]

  /** _xmlsignatures/ */
  const SIGNATURE_DIR: seq<Byte> := [95, 120, 109, 108, 115, 105, 103, 110, 97, 116, 117, 114, 101, 115, 47]

  /** word/document.xml, xl/workbook.xml, ppt/presentation.xml */
  function MainPart(kind: OfficeKind): seq<Byte> {
    match kind
    case Word => [119, 111, 114, 100, 47, 100, 111, 99, 117, 109, 101, 110, 116, 46, 120, 109, 108]
    case Excel => [120, 108, 47, 119, 111, 114, 107, 98, 111, 111, 107, 46, 120, 109, 108]
    case Powerpoint => [112, 112, 116, 47, 112, 114, 101, 115, 101, 110, 116, 97, 116, 105, 111, 110, 46, 120, 109, 108]
  }

  function KindOfMainPart(name: seq<Byte>): Option<OfficeKind> {
    if name == MainPart(Word) then Some(Word)
    else if name == MainPart(Excel) then Some(Excel)
    else if name == MainPart(Powerpoint) then Some(Powerpoint)
    else None
  }

  function Lower(b: Byte): Byte {
    if 65 <= b <= 90 then b + 32 else b
  }

  predicate EndsWith(name: seq<Byte>, suffix: seq<Byte>) {
    |suffix| <= |name| && forall i :: 0 <= i < |suffix| ==> Lower(name[|name| - |suffix| + i]) == suffix[i]
  }

  /** A name ending in .xml or .rels, whatever its case. */
  predicate IsXmlPart(name: seq<Byte>) {
    EndsWith(name, [46, 120, 109, 108]) || EndsWith(name, [46, 114, 101, 108, 115])
  }

  /** The package-level checks on member names. */
  datatype PackageCheck = PackageCheck(expected: Option<OfficeKind>, seen: nat, firstOk: bool, mainParts: set<OfficeKind>, signed: bool)

  function NewCheck(expected: Option<OfficeKind>): PackageCheck {
    PackageCheck(expected, 0, false, {}, false)
  }

  /** A member name joins the check; the first must be the content-types part. */
  function AddName(c: PackageCheck, name: seq<Byte>): Option<PackageCheck> {
    if c.seen == 0 && name != CONTENT_TYPES then None
    else
      var kind := KindOfMainPart(name);
      Some(c.(seen := c.seen + 1, firstOk := c.firstOk || c.seen == 0,
              mainParts := if kind.Some? then c.mainParts + {kind.value} else c.mainParts,
              signed := c.signed || SIGNATURE_DIR <= name))
  }

  function CloseCheck(c: PackageCheck): Option<OfficeFault> {
    if !c.firstOk then Some(NotOoxmlPackage)
    else
      match c.expected
      case Some(kind) => if kind in c.mainParts then None else Some(MissingMainPart)
      case None => if c.mainParts == {} then Some(UnrecognizedPackage) else None
  }

  // Decoding a member: the inflater and the CRC are given functions.

  datatype Produced = Made(bytes: seq<Byte>) | Bad(fault: OfficeFault)

  /** What the inflater yields when a byte is pushed after `before`, and when the compressed bytes end. */
  datatype Library = Library(push: (seq<Byte>, Byte) -> Produced, close: seq<Byte> -> Produced, crcOf: seq<Byte> -> nat)

  /** `raw` is what was pushed, `bytes` what came out. */
  datatype MemberDecoder = MemberDecoder(codec: nat, raw: seq<Byte>, bytes: seq<Byte>)

  predicate Decodable(codec: nat) {
    codec == METHOD_STORED || codec == METHOD_DEFLATE
  }

  function PushDecoder(lib: Library, d: MemberDecoder, b: Byte): Produced {
    if d.codec == METHOD_STORED then Made([b]) else lib.push(d.raw, b)
  }

  function CloseDecoder(lib: Library, d: MemberDecoder): Produced {
    if d.codec == METHOD_STORED then Made([]) else lib.close(d.raw)
  }

  // The core.

  datatype CanonStep = UnitBoundary | TextRegion(text: bool) | LargeUnitHere(headerLen: nat) | Emit(bytes: seq<Byte>)

  datatype Streaming = Streaming(name: seq<Byte>, utf8: bool, headerOffset: nat, claimed: Option<nat>)

  datatype Core = Core(
    check: PackageCheck, decoder: Option<MemberDecoder>, member: Option<Streaming>, entries: seq<CentralEntry>,
    namesTotal: nat, canonicalOffset: nat, tailWritten: bool, fault: Option<OfficeFault>)

  /** What handling an event leaves, and the steps it enqueues. */
  datatype Bridged = Bridged(core: Core, steps: seq<CanonStep>)

  function NewCore(expected: Option<OfficeKind>): Core {
    Core(NewCheck(expected), None, None, [], 0, 0, false, None)
  }

  function Emission(bytes: seq<Byte>): seq<CanonStep> {
    if bytes == [] then [] else [Emit(bytes)]
  }

  function Fail(c: Core, fault: OfficeFault): Bridged {
    Bridged(c.(fault := Some(fault)), [])
  }

  function CanonicalHeader(name: seq<Byte>, utf8: bool, crc: nat, claimed: Option<nat>): seq<Byte> {
    if claimed.Some? then LocalHeaderKnown(name, utf8, crc, claimed.value) else LocalHeaderUnknown(name, utf8)
  }

  /** A unit is large when its size is unknown, or claimed at least the document unit minimum. */
  predicate LargeClaim(claimed: Option<nat>) {
    claimed.None? || UNIT_MIN <= claimed.value
  }

  /** A member the checks let in: its canonical header goes out, as a unit of its own. */
  function AdmitMember(c: Core, name: seq<Byte>, codec: nat, utf8: bool, sizes: Option<MemberSizes>, crc: nat): Bridged {
    var claimed := if sizes.Some? then Some(sizes.value.uncompressed) else None;
    var header := CanonicalHeader(name, utf8, crc, claimed);
    Bridged(c.(decoder := Some(MemberDecoder(codec, [], [])),
               member := Some(Streaming(name, utf8, c.canonicalOffset, if sizes.Some? then Some(crc) else None)),
               canonicalOffset := c.canonicalOffset + |header|),
            [UnitBoundary, TextRegion(IsXmlPart(name))] + Emission(header) + (if LargeClaim(claimed) then [LargeUnitHere(|header|)] else []))
  }

  function HandleHeader(c: Core, name: seq<Byte>, codec: nat, utf8: bool, encrypted: bool, sizes: Option<MemberSizes>, crc: nat): Bridged {
    if c.fault.Some? then Bridged(c, [])
    else if encrypted then Fail(c, UnsupportedMethod)
    else
      match AddName(c.check, name)
      case None => Fail(c, NotOoxmlPackage)
      case Some(check) =>
        var c1 := c.(check := check);
        if check.signed then Fail(c1, SignedPackage)
        else if |c.entries| >= MAX_MEMBERS || c.namesTotal + |name| > MAX_NAME_BYTES then Fail(c1, MetadataOverBound)
        else
          var c2 := c1.(namesTotal := c.namesTotal + |name|);
          if !Decodable(codec) then Fail(c2, UnsupportedMethod) else AdmitMember(c2, name, codec, utf8, sizes, crc)
  }

  function HandleData(lib: Library, c: Core, b: Byte): Bridged {
    if c.fault.Some? || c.decoder.None? then Bridged(c, [])
    else
      var d := c.decoder.value;
      match PushDecoder(lib, d, b)
      case Bad(fault) => Fail(c, fault)
      case Made(bytes) =>
        Bridged(c.(decoder := Some(MemberDecoder(d.codec, d.raw + [b], d.bytes + bytes)), canonicalOffset := c.canonicalOffset + |bytes|),
                Emission(bytes))
  }

  function HandleEnd(lib: Library, c: Core, sizes: MemberSizes, crc: nat): Bridged {
    if c.fault.Some? || c.decoder.None? then Bridged(c, [])
    else
      var d := c.decoder.value;
      var c1 := c.(decoder := None);
      match CloseDecoder(lib, d)
      case Bad(fault) => Fail(c1, fault)
      case Made(rest) =>
        var data := d.bytes + rest;
        var c2 := c1.(canonicalOffset := c.canonicalOffset + |rest|);
        if c.member.None? then Bridged(c2, Emission(rest))
        else
          var m := c.member.value;
          var c3 := c2.(member := None);
          var computed := lib.crcOf(data);
          if |data| != sizes.uncompressed then Bridged(Fail(c3, InflatedSizeMismatch).core, Emission(rest))
          else if computed != (if m.claimed.Some? then m.claimed.value else crc) || computed != crc
          then Bridged(Fail(c3, CrcMismatch).core, Emission(rest))
          else if m.claimed.None? && |data| > MAX32 then Bridged(Fail(c3, UnknownSizeMemberTooLarge).core, Emission(rest))
          else
            var descriptor := if m.claimed.None? then DescriptorBytes(computed, |data|) else [];
            Bridged(c3.(canonicalOffset := c2.canonicalOffset + |descriptor|,
                        entries := c.entries + [CentralEntry(m.name, m.utf8, computed, |data|, m.headerOffset, m.claimed.None?)]),
                    Emission(rest) + Emission(descriptor))
  }

  function HandleCentral(c: Core): Bridged {
    if c.fault.Some? || c.tailWritten then Bridged(c, [])
    else
      var tail := Tail(c.entries, c.canonicalOffset);
      Bridged(c.(tailWritten := true, canonicalOffset := c.canonicalOffset + |tail|),
              [UnitBoundary, TextRegion(false)] + Emission(tail))
  }

  function Handle(lib: Library, c: Core, e: Event): Bridged {
    match e
    case LocalHeaderRead(name, codec, utf8, encrypted, sizes, crc) => HandleHeader(c, name, codec, utf8, encrypted, sizes, crc)
    case MemberData(b) => HandleData(lib, c, b)
    case MemberEnd(sizes, crc) => HandleEnd(lib, c, sizes, crc)
    case CentralBegun => HandleCentral(c)
  }

  function CloseCore(c: Core): Option<OfficeFault> {
    var fault := CloseCheck(c.check);
    if fault.Some? then fault else if !c.tailWritten then Some(PackageTruncated) else None
  }

  class CanonCore {
    const lib: Library
    var steps: seq<CanonStep>
    var check: PackageCheck
    var decoder: Option<MemberDecoder>
    var member: Option<Streaming>
    var entries: seq<CentralEntry>
    var namesTotal: nat
    var canonicalOffset: nat
    var tailWritten: bool
    var fault: Option<OfficeFault>

    ghost function View(): Core
      reads this
    {
      Core(check, decoder, member, entries, namesTotal, canonicalOffset, tailWritten, fault)
    }

    constructor (lib: Library, expected: Option<OfficeKind>)
      ensures View() == NewCore(expected) && steps == [] && this.lib == lib
    {
      this.lib := lib;
      steps, check, decoder, member, entries := [], NewCheck(expected), None, None, [];
      namesTotal, canonicalOffset, tailWritten, fault := 0, 0, false, None;
    }

    method NextStep() returns (step: Option<CanonStep>)
      modifies this`steps
      ensures if old(steps) == [] then step == None && steps == []
              else step == Some(old(steps)[0]) && steps == old(steps)[1..]
    {
      if steps == [] {
        return None;
      }
      step := Some(steps[0]);
      steps := steps[1..];
    }

    /** `r` is what this core has just become and enqueued. */
    ghost predicate Did(r: Bridged, before: seq<CanonStep>)
      reads this
    {
      View() == r.core && steps == before + r.steps
    }

    method EnqueueBytes(bytes: seq<Byte>)
      modifies this`steps, this`canonicalOffset
      ensures steps == old(steps) + Emission(bytes) && canonicalOffset == old(canonicalOffset) + |bytes|
    {
      if bytes != [] {
        canonicalOffset := canonicalOffset + |bytes|;
        steps := steps + [Emit(bytes)];
      }
    }

    method LocalHeader(name: seq<Byte>, codec: nat, utf8: bool, encrypted: bool, sizes: Option<MemberSizes>, crc: nat)
      modifies this
      ensures Did(Handle(lib, old(View()), LocalHeaderRead(name, codec, utf8, encrypted, sizes, crc)), old(steps))
    {
      hide AddName, AdmitMember;
      if fault.Some? {
        return;
      }
      if encrypted {
        fault := Some(UnsupportedMethod);
        return;
      }
      var named := AddName(check, name);
      if named.None? {
        fault := Some(NotOoxmlPackage);
        return;
      }
      check := named.value;
      if check.signed {
        fault := Some(SignedPackage);
        return;
      }
      if |entries| >= MAX_MEMBERS || namesTotal + |name| > MAX_NAME_BYTES {
        fault := Some(MetadataOverBound);
        return;
      }
      namesTotal := namesTotal + |name|;
      if !Decodable(codec) {
        fault := Some(UnsupportedMethod);
        return;
      }
      Open(name, codec, utf8, sizes, crc);
    }

    method Open(name: seq<Byte>, codec: nat, utf8: bool, sizes: Option<MemberSizes>, crc: nat)
      modifies this
      ensures Did(AdmitMember(old(View()), name, codec, utf8, sizes, crc), old(steps))
    {
      hide IsXmlPart, LocalHeaderKnown, LocalHeaderUnknown, Emission;
      decoder := Some(MemberDecoder(codec, [], []));
      var headerOffset := canonicalOffset;
      var header := match sizes
                    case Some(s) => LocalHeaderKnown(name, utf8, crc, s.uncompressed)
                    case None => LocalHeaderUnknown(name, utf8);
      steps := steps + [UnitBoundary];
      steps := steps + [TextRegion(IsXmlPart(name))];
      ghost var opening := [UnitBoundary, TextRegion(IsXmlPart(name))];
      assert steps == old(steps) + opening;
      EnqueueBytes(header);
      assert steps == old(steps) + (opening + Emission(header));
      if sizes.None? || sizes.value.uncompressed >= UNIT_MIN {
        steps := steps + [LargeUnitHere(|header|)];
        assert steps == old(steps) + (opening + Emission(header) + [LargeUnitHere(|header|)]);
      }
      member := Some(Streaming(name, utf8, headerOffset, if sizes.Some? then Some(crc) else None));
    }

    method Data(b: Byte)
      modifies this
      ensures Did(Handle(lib, old(View()), MemberData(b)), old(steps))
    {
      if fault.Some? || decoder.None? {
        return;
      }
      var d := decoder.value;
      var produced := PushDecoder(lib, d, b);
      if produced.Bad? {
        fault := Some(produced.fault);
        return;
      }
      decoder := Some(MemberDecoder(d.codec, d.raw + [b], d.bytes + produced.bytes));
      EnqueueBytes(produced.bytes);
    }

    method End(sizes: MemberSizes, crc: nat)
      modifies this
      ensures Did(Handle(lib, old(View()), MemberEnd(sizes, crc)), old(steps))
    {
      hide DescriptorBytes, Emission;
      if fault.Some? || decoder.None? {
        return;
      }
      var d := decoder.value;
      decoder := None;
      var rest := CloseDecoder(lib, d);
      if rest.Bad? {
        fault := Some(rest.fault);
        return;
      }
      EnqueueBytes(rest.bytes);
      if member.None? {
        return;
      }
      var m, data := member.value, d.bytes + rest.bytes;
      member := None;
      var computed := lib.crcOf(data);
      if |data| != sizes.uncompressed {
        fault := Some(InflatedSizeMismatch);
        return;
      }
      var claimedCrc := if m.claimed.Some? then m.claimed.value else crc;
      if computed != claimedCrc || computed != crc {
        fault := Some(CrcMismatch);
        return;
      }
      var unknown := m.claimed.None?;
      ghost var mid := steps;
      if unknown {
        if |data| > MAX32 {
          fault := Some(UnknownSizeMemberTooLarge);
          return;
        }
        EnqueueBytes(DescriptorBytes(computed, |data|));
      } else {
        NothingEmitted();
      }
      entries := entries + [CentralEntry(m.name, m.utf8, computed, |data|, m.headerOffset, unknown)];
    }

    lemma NothingEmitted()
      ensures Emission([]) == []
    {
    }

    method Central()
      modifies this
      ensures Did(Handle(lib, old(View()), CentralBegun), old(steps))
    {
      hide Tail;
      if fault.Some? || tailWritten {
        return;
      }
      tailWritten := true;
      steps := steps + [UnitBoundary];
      steps := steps + [TextRegion(false)];
      EnqueueBytes(Tail(entries, canonicalOffset));
    }

    /** The package must have closed completely. */
    method Close() returns (problem: Option<OfficeFault>)
      ensures problem == CloseCore(View())
    {
      problem := CloseCheck(check);
      if problem.None? && !tailWritten {
        problem := Some(PackageTruncated);
      }
    }
  }
}
