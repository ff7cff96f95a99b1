/** Source packages whose headers claim other decoded lengths than their members have. */
module OoxmlClaims {
  import opened Bytes
  import opened ZipRecords
  import opened ZipWalker
  import opened ZipScan
  import opened ZipWriter
  import opened ZipEvents
  import opened ZipHeaders
  import opened ZipRoundTrip
  import opened ZipDescriptors
  import A = Assembler
  import opened OoxmlCore
  import opened OoxmlCanon
  import opened OoxmlIdempotence

  /** A member whose header tells its stored length and claims a decoded one, with a descriptor that tells both after its data. */
  datatype Claimant = Claimant(name: seq<Byte>, utf8: bool, codec: nat, crc: nat, raw: seq<Byte>, claimed: nat, decoded: nat)

  predicate Writable(m: Claimant) {
    && |m.name| <= MAX16 && m.codec <= MAX16 && m.crc <= MAX32 && 0 < |m.raw| < MAX32 && m.claimed < MAX32 && m.decoded <= MAX32
  }

  function ClaimHeader(m: Claimant): seq<Byte> {
    LOCAL_HEADER + LocalRecord(VERSION_PLAIN, FLAG_DESCRIPTOR + Utf8Flag(m.utf8), m.codec, m.crc, |m.raw|, m.claimed, |m.name|, 0)
    + (m.name + [])
  }

  function ClaimDescriptor(m: Claimant): seq<Byte> {
    DATA_DESCRIPTOR + DescriptorRecord(m.crc, |m.raw|, m.decoded)
  }

  function ClaimBytes(m: Claimant): seq<Byte> {
    ClaimHeader(m) + (m.raw + ClaimDescriptor(m))
  }

  /** Both the header's sizes and the descriptor's are ones a member may have. */
  predicate Possible(m: Claimant) {
    Check(MemberSizes(|m.raw|, m.claimed), m.codec).None? && Check(MemberSizes(|m.raw|, m.decoded), m.codec).None?
  }

  /** What the walker reports of such a member. */
  function ClaimSource(m: Claimant): Source
    requires Writable(m) && Possible(m)
  {
    SourceMember(LocalHeaderRead(m.name, m.codec, m.utf8, false, Some(MemberSizes(|m.raw|, m.claimed)), m.crc), m.raw,
                 MemberSizes(|m.raw|, m.decoded), m.crc)
  }

  function InClaim(w: Walk, m: Claimant): Walk
    requires m.raw != []
  {
    w.(localCount := w.localCount + 1, offset := w.offset + |ClaimHeader(m)|,
       state := Data(|m.raw|, |m.raw|, m.claimed, m.crc, m.codec, Some(false)))
  }

  lemma ClaimHeaderRun(w: Walk, m: Claimant)
    requires w.state == Signature([]) && w.phase == Members && Writable(m)
    ensures Run(w, ClaimHeader(m)) ==
            if Check(MemberSizes(|m.raw|, m.claimed), m.codec).Some? then None
            else Some(Ran(InClaim(w, m), [LocalHeaderRead(m.name, m.codec, m.utf8, false, Some(MemberSizes(|m.raw|, m.claimed)), m.crc)]))
  {
    hide Run, ParseLocal, LocalRecord, Check;
    var flags := FLAG_DESCRIPTOR + Utf8Flag(m.utf8);
    var fixed := LocalRecord(VERSION_PLAIN, flags, m.codec, m.crc, |m.raw|, m.claimed, |m.name|, 0);
    FlagsRead(m.utf8);
    ReadsRecord(VERSION_PLAIN, flags, m.codec, m.crc, |m.raw|, m.claimed, |m.name|, 0);
    LocalRun(w, ParseLocal(fixed), fixed, m.name, []);
  }

  lemma ClaimDataRun(w: Walk, m: Claimant)
    requires Writable(m) && w.state == Data(|m.raw|, |m.raw|, m.claimed, m.crc, m.codec, Some(false))
    ensures Run(w, m.raw + ClaimDescriptor(m)) ==
            if Check(MemberSizes(|m.raw|, m.decoded), m.codec).Some? then None
            else Some(Ran(w.(state := Signature([]), offset := w.offset + |m.raw + ClaimDescriptor(m)|),
                          DataEvents(m.raw) + [MemberEnd(MemberSizes(|m.raw|, m.decoded), m.crc)]))
  {
    hide Run, DescriptorRecord, DataEvents, Check, BodySizes, BodyCrc;
    var d := ClaimDescriptor(m);
    DescribedDataRun(w, m.raw, m.claimed, m.crc, m.codec, false);
    RunThen(w, m.raw, d);
    assert d[..4] == DATA_DESCRIPTOR && d[|d| - 12..] == DescriptorRecord(m.crc, |m.raw|, m.decoded);
    ReadsBody(m.crc, |m.raw|, m.decoded);
    DescriptorRun(w.(state := Descriptor(false, |m.raw|, m.codec, []), offset := w.offset + |m.raw|), false, |m.raw|, m.codec, d);
  }

  /** The walker reports such a member exactly when its header's sizes and its descriptor's are each plausible, whatever the two say. */
  lemma ClaimRun(w: Walk, m: Claimant)
    requires w.state == Signature([]) && w.phase == Members && Writable(m)
    ensures Run(w, ClaimBytes(m)) ==
            if Possible(m) then Some(Ran(w.(localCount := w.localCount + 1, offset := w.offset + |ClaimBytes(m)|), SourceEvents(ClaimSource(m))))
            else None
  {
    hide Run, ClaimHeader, ClaimDescriptor, DataEvents, Check;
    ClaimHeaderRun(w, m);
    RunThen(w, ClaimHeader(m), m.raw + ClaimDescriptor(m));
    if Check(MemberSizes(|m.raw|, m.claimed), m.codec).None? {
      ClaimDataRun(InClaim(w, m), m);
    }
  }

  // A package of two members: the content types, empty and stored, and a main part.

  function ContentTypes(crc: nat): Member {
    Member(CONTENT_TYPES, false, crc, [], false)
  }

  function Opening(crc: nat): seq<Byte> {
    LocalBytes(ContentTypes(crc))
  }

  /** Directory entries for both members; the walk compares no entry with a member but counts them and checks their offsets. */
  function ClaimEntries(crc: nat, m: Claimant): (es: seq<CentralEntry>)
    ensures |es| == 2
  {
    [EntryOf(ContentTypes(crc), 0), CentralEntry(m.name, m.utf8, m.crc, |m.raw|, |Opening(crc)|, true)]
  }

  function ClaimPackage(crc: nat, m: Claimant): seq<Byte> {
    Opening(crc) + ClaimBytes(m) + Tail(ClaimEntries(crc, m), |Opening(crc) + ClaimBytes(m)|)
  }

  function ClaimSources(crc: nat, m: Claimant): seq<Source>
    requires crc <= MAX32 && Writable(m) && Possible(m)
  {
    assert |CONTENT_TYPES| == 19;
    [CanonSource(ContentTypes(crc)), ClaimSource(m)]
  }

  lemma OpeningRun(crc: nat)
    requires crc <= MAX32
    ensures var ct := ContentTypes(crc);
            Run(START, Opening(crc)) == Some(Ran(START.(offset := |Opening(crc)|, localCount := 1), MemberEvents(ct)))
            && Fits(ct) && MemberEvents(ct) == SourceEvents(CanonSource(ct))
  {
    hide Run, LocalBytes;
    MemberRun(START, ContentTypes(crc));
  }

  lemma DirectoryLen(es: seq<CentralEntry>)
    requires |es| == 2 && |es[0].name| <= MAX16 && |es[1].name| <= MAX16
    ensures |Directory(es)| <= MAX32
  {
    hide CentralHeaderBytes;
    EntryBytes(es[0]);
    EntryBytes(es[1]);
    assert es[..1] == [es[0]] && [es[0]][..0] == [];
    assert Directory([es[0]]) == Directory([]) + CentralHeaderBytes(es[0]);
    assert Directory(es) == Directory(es[..1]) + CentralHeaderBytes(es[1]);
  }

  lemma ClaimLens(crc: nat, m: Claimant)
    requires Writable(m)
    ensures 30 <= |Opening(crc)| <= 100 && 30 <= |ClaimBytes(m)| <= MAX32 + MAX16 + 100
  {
    hide LocalFixed, LocalRecord, DescriptorRecord;
    assert |CONTENT_TYPES| == 19;
  }

  lemma ClaimTailRun(crc: nat, m: Claimant)
    requires crc <= MAX32 && Writable(m)
    ensures var w := START.(offset := |Opening(crc) + ClaimBytes(m)|, localCount := 2);
            Closed(Run(w, Tail(ClaimEntries(crc, m), w.offset)), [CentralBegun])
  {
    hide Run, Tail, Opening, ClaimBytes, MayFinish, Directory;
    ClaimLens(crc, m);
    assert |CONTENT_TYPES| == 19;
    var es := ClaimEntries(crc, m);
    DirectoryLen(es);
    TailRun(START.(offset := |Opening(crc) + ClaimBytes(m)|, localCount := 2), es);
  }

  /** The package is walked to its end, both members as they are. */
  lemma ClaimReported(crc: nat, m: Claimant)
    requires crc <= MAX32 && Writable(m) && Possible(m)
    ensures Reports(ClaimPackage(crc, m), PackageEvents(ClaimSources(crc, m)))
  {
    hide Run, Tail, Opening, ClaimBytes, MayFinish, SourceEvents, CanonSource, ClaimSource, MemberEvents, Possible, Writable, ClaimEntries, Fits;
    var ct, body := ContentTypes(crc), Opening(crc) + ClaimBytes(m);
    OpeningRun(crc);
    var w := START.(offset := |Opening(crc)|, localCount := 1);
    RunThen(START, Opening(crc), ClaimBytes(m));
    ClaimRun(w, m);
    ClaimTailRun(crc, m);
    RunThen(START, body, Tail(ClaimEntries(crc, m), |body|));
    TwoSources(CanonSource(ct), ClaimSource(m));
  }

  lemma TwoSources(a: Source, b: Source)
    ensures SourcesEvents([a, b]) == SourceEvents(a) + SourceEvents(b)
  {
    hide SourceEvents;
    assert [a, b] == [] + [a] + [b];
    OneMoreSource([], a);
    OneMoreSource([a], b);
    assert SourcesEvents([]) == [];
    assert [] + SourceEvents(a) == SourceEvents(a);
  }

  // The core over such a package.

  lemma NamesPass(expected: Option<OfficeKind>, kind: OfficeKind)
    requires expected.Some? ==> expected.value == kind
    ensures var one := PackageCheck(expected, 1, true, {}, false);
            && AddName(NewCheck(expected), CONTENT_TYPES) == Some(one)
            && AddName(one, MainPart(kind)) == Some(one.(seen := 2, mainParts := {kind}))
            && CloseCheck(one.(seen := 2, mainParts := {kind})).None?
    ensures |MainPart(kind)| <= 20
  {
    assert |CONTENT_TYPES| == 19 && CONTENT_TYPES[0] == 91 && SIGNATURE_DIR[0] == 95;
    assert MainPart(kind)[0] != 95 && |MainPart(Word)| == 17 && |MainPart(Excel)| == 15 && |MainPart(Powerpoint)| == 20;
    assert {} + {kind} == {kind};
  }

  /** The member is a deflated main part whose descriptor tells its decoded length and checksum. */
  predicate Deflates(lib: Library, kind: OfficeKind, m: Claimant, data: seq<Byte>) {
    && m.name == MainPart(kind) && m.codec == METHOD_DEFLATE && Decode(lib, METHOD_DEFLATE, m.raw) == Made(data)
    && m.decoded == |data| && m.crc == lib.crcOf(data)
  }

  lemma ClaimAccepted(lib: Library, expected: Option<OfficeKind>, kind: OfficeKind, m: Claimant, data: seq<Byte>)
    requires CrcFits(lib) && Writable(m) && Possible(m) && Deflates(lib, kind, m, data) && (expected.Some? ==> expected.value == kind)
    ensures var ms := ClaimSources(lib.crcOf([]), m);
            && AllAccepted(lib, NewCore(expected), ms)
            && CloseCheck(AbsorbAll(NewCore(expected), PartsOf(lib, ms)).check).None?
            && PartsOf(lib, ms) == [EmptyTypes(lib), Part(m.name, m.utf8, m.crc, data, Some(m.claimed))]
  {
    hide Check, AddName, CloseCheck, Decode, AllAccepted, PartBytes, MainPart, Possible;
    NamesPass(expected, kind);
    StoredDecodes(lib, []);
    var c0, ms := NewCore(expected), ClaimSources(lib.crcOf([]), m);
    var a, b := ms[0], ms[1];
    assert |CONTENT_TYPES| == 19;
    assert PartsOf(lib, ms) == [PartOf(lib, a), PartOf(lib, b)];
    assert PartsOf(lib, [a]) == [PartOf(lib, a)];
    AbsorbTwo(c0, PartOf(lib, a), PartOf(lib, b));
    NoneAccepted(lib, c0);
    OneMoreAccepted(lib, c0, [], a);
    assert [] + [a] == [a] && [a] + [b] == ms && PartsOf(lib, []) == [];
    OneMoreAccepted(lib, c0, [a], b);
  }

  lemma NoneAccepted(lib: Library, c: Core)
    ensures AllAccepted(lib, c, [])
  {
  }

  function EmptyTypes(lib: Library): Part {
    Part(CONTENT_TYPES, false, lib.crcOf([]), [], Some(0))
  }

  lemma AbsorbTwo(c: Core, p: Part, q: Part)
    ensures AbsorbAll(c, []) == c && AbsorbAll(c, [p]) == Absorb(c, p) && AbsorbAll(c, [p, q]) == Absorb(Absorb(c, p), q)
  {
    hide Absorb;
    assert [p][..0] == [] && [p, q][..1] == [p];
  }

  /**
   * Any plausible claim goes through: whatever decoded length the header of a deflated main part claims, the package is
   * accepted, and the canonical stream keeps the claim. When it is not the decoded length, canonicalising the canonical
   * form does not give that form again.
   */
  lemma AnyPlausibleClaim(lib: Library, expected: Option<OfficeKind>, kind: OfficeKind, m: Claimant, data: seq<Byte>)
    requires CrcFits(lib) && Writable(m) && Possible(m) && Deflates(lib, kind, m, data) && (expected.Some? ==> expected.value == kind)
    ensures var s, ms := ClaimPackage(lib.crcOf([]), m), ClaimSources(lib.crcOf([]), m);
            var ops := Canonicalise(lib, expected, s);
            && Reports(s, PackageEvents(ms)) && ops == Some(PackageOps(PartsOf(lib, ms)))
            && (Honest(PartOf(lib, ms[1])) <==> m.claimed == |data|)
            && (m.claimed != |data| ==> Canonicalise(lib, expected, A.Pushed(ops.value)) != ops)
  {
    hide Run, CoreRun, Flat, PackageOps, AllAccepted, CloseCheck, AbsorbAll, SourcesEvents, MayFinish, Possible, ClaimPackage, Decode, A.Pushed, Canonicalise;
    var s, ms := ClaimPackage(lib.crcOf([]), m), ClaimSources(lib.crcOf([]), m);
    ClaimReported(lib.crcOf([]), m);
    ClaimAccepted(lib, expected, kind, m, data);
    PackageRuns(lib, expected, ms);
    Accepts(lib, expected, s, ms);
    assert PartsOf(lib, ms)[1] == PartOf(lib, ms[1]);
    if m.claimed != |data| {
      assert |CONTENT_TYPES| == 19;
      DishonestShifts(lib, expected, PartsOf(lib, ms), 1);
    }
  }

  lemma Accepts(lib: Library, expected: Option<OfficeKind>, s: seq<Byte>, ms: seq<Source>)
    requires Reports(s, PackageEvents(ms))
    requires var r := CoreRun(lib, NewCore(expected), PackageEvents(ms)); r.core.fault.None? && CloseCore(r.core).None?
    ensures Canonicalise(lib, expected, s) == Some(Flat(CoreRun(lib, NewCore(expected), PackageEvents(ms)).steps))
  {
    hide Run, CoreRun, Flat, SourcesEvents, MayFinish, CloseCore;
  }

  /** An empty final block of fixed codes (section 3.2.6 of RFC 1951): it decodes to nothing. */
  const EMPTY_DEFLATE: seq<Byte> := [3, 0]

  /** An empty document whose local header claims one byte. */
  lemma ClaimExample(lib: Library)
    requires CrcFits(lib) && Decode(lib, METHOD_DEFLATE, EMPTY_DEFLATE) == Made([])
    ensures var m := Claimant(MainPart(Word), false, METHOD_DEFLATE, lib.crcOf([]), EMPTY_DEFLATE, 1, 0);
            var s := ClaimPackage(lib.crcOf([]), m);
            var ops := Canonicalise(lib, None, s);
            ops.Some? && Canonicalise(lib, None, A.Pushed(ops.value)) != ops
  {
    hide Decode, Canonicalise, ClaimPackage, A.Pushed;
    var m := Claimant(MainPart(Word), false, METHOD_DEFLATE, lib.crcOf([]), EMPTY_DEFLATE, 1, 0);
    assert |EMPTY_DEFLATE| == 2 && |MainPart(Word)| == 17;
    AnyPlausibleClaim(lib, None, Word, m, []);
  }
}
