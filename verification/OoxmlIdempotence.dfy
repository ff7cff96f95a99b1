/** The canonical form is an archive, and canonicalising it again changes nothing, exactly when the code allows it. */
module OoxmlIdempotence {
  import opened Bytes
  import opened ZipRecords
  import opened ZipWalker
  import opened ZipScan
  import opened ZipWriter
  import opened ZipEvents
  import opened ZipRoundTrip
  import opened Assembler
  import opened OoxmlCore
  import opened OoxmlCanon
  import opened LargeUnits

  // The bytes of the canonical stream.

  /** The length a part's header claims is the length its bytes decode to. */
  predicate Honest(p: Part) {
    p.claimed.Some? ==> p.claimed.value == |p.data|
  }

  function MemberOf(p: Part): Member {
    Member(p.name, p.utf8, p.crc, p.data, p.claimed.None?)
  }

  function MembersOf(ps: seq<Part>): seq<Member> {
    seq(|ps|, i requires 0 <= i < |ps| => MemberOf(ps[i]))
  }

  function PartsBytes(ps: seq<Part>): seq<Byte> {
    if ps == [] then [] else PartsBytes(ps[..|ps| - 1]) + PartBytes(ps[|ps| - 1])
  }

  lemma PushedPart(p: Part)
    ensures Pushed(PartOps(p)) == PartBytes(p)
  {
    hide Pushed, Pushes, PartHeader, PartDescriptor, IsXmlPart, LargeClaim;
    var header, descriptor := PartHeader(p), PartDescriptor(p);
    var opening := [Boundary, SetGate(if IsXmlPart(p.name) then TextSeam else PerByte)];
    var mark := if LargeClaim(p.claimed) then [LargeUnit(|header|)] else [];
    PushedAppend(HeaderOps(p), Pushes(p.data) + Pushes(descriptor));
    PushedAppend(Pushes(p.data), Pushes(descriptor));
    PushedAppend(opening + Pushes(header), mark);
    PushedAppend(opening, Pushes(header));
    PushedPushes(header);
    PushedPushes(p.data);
    PushedPushes(descriptor);
    SilentOps(opening, mark);
    assert [] + header + [] == header;
  }

  /** Boundaries, gates and large-unit marks push nothing. */
  lemma SilentOps(x: seq<Op>, y: seq<Op>)
    requires |x| == 2 && !x[0].Push? && !x[1].Push? && |y| <= 1 && (y != [] ==> !y[0].Push?)
    ensures Pushed(x) == [] && Pushed(y) == []
  {
    assert x[..1][..0] == [] && x == x[..1] + [x[1]];
    assert Pushed(x[..1]) == [];
    if y != [] {
      assert y[..0] == [];
    }
  }

  lemma {:induction false} PushedParts(ps: seq<Part>)
    ensures Pushed(PartsOps(ps)) == PartsBytes(ps)
  {
    hide PartOps, PartBytes, Pushed;
    if ps == [] {
      PushedNothing();
    } else {
      PushedParts(ps[..|ps| - 1]);
      PushedPart(ps[|ps| - 1]);
      PushedAppend(PartsOps(ps[..|ps| - 1]), PartOps(ps[|ps| - 1]));
    }
  }

  lemma PushedNothing()
    ensures Pushed([]) == []
  {
  }

  lemma {:induction false} OffsetIsLength(c: Core, ps: seq<Part>)
    ensures AbsorbAll(c, ps).canonicalOffset == c.canonicalOffset + |PartsBytes(ps)|
  {
    hide PartBytes, AddName;
    if ps != [] {
      OffsetIsLength(c, ps[..|ps| - 1]);
    }
  }

  /** The bytes of a canonical stream: its parts, then the tail that describes them. */
  lemma PushedPackage(ps: seq<Part>)
    ensures Pushed(PackageOps(ps)) == PartsBytes(ps) + Tail(AbsorbAll(NewCore(None), ps).entries, |PartsBytes(ps)|)
  {
    hide PartsOps, PartsBytes, Pushed, Pushes, AbsorbAll, Tail;
    var c := AbsorbAll(NewCore(None), ps);
    var opening := [Boundary, SetGate(PerByte)];
    PushedAppend(PartsOps(ps), TailOps(c));
    PushedAppend(opening, Pushes(Tail(c.entries, c.canonicalOffset)));
    PushedPushes(Tail(c.entries, c.canonicalOffset));
    SilentOps(opening, []);
    PushedParts(ps);
    OffsetIsLength(NewCore(None), ps);
    assert [] + Tail(c.entries, c.canonicalOffset) == Tail(c.entries, c.canonicalOffset);
  }

  lemma {:induction false} HonestParts(ps: seq<Part>)
    requires forall i :: 0 <= i < |ps| ==> Honest(ps[i])
    ensures PartsBytes(ps) == Locals(MembersOf(ps))
    ensures AbsorbAll(NewCore(None), ps).entries == Entries(MembersOf(ps))
  {
    hide LocalHeaderKnown, LocalHeaderUnknown, DescriptorBytes, AddName;
    if ps != [] {
      var front, p := ps[..|ps| - 1], ps[|ps| - 1];
      HonestParts(front);
      assert MembersOf(ps) == MembersOf(front) + [MemberOf(p)];
      OneMore(MembersOf(front), MemberOf(p));
      HonestPart(p);
      OffsetIsLength(NewCore(None), front);
    }
  }

  lemma HonestPart(p: Part)
    requires Honest(p)
    ensures PartBytes(p) == LocalBytes(MemberOf(p))
  {
    hide LocalHeaderKnown, LocalHeaderUnknown, DescriptorBytes;
  }

  /** A part whose fields fit its records. */
  predicate Sized(p: Part) {
    Fits(MemberOf(p)) && (p.claimed.Some? ==> p.claimed.value <= MAX64)
  }

  /** Two known-size headers that agree in their first bytes claim the same length. */
  lemma HeaderTellsLength(name: seq<Byte>, utf8: bool, crc: nat, a: nat, b: nat, x: seq<Byte>, y: seq<Byte>)
    requires |name| <= MAX16 && crc <= MAX32 && a <= MAX64 && b <= MAX64
    requires LocalHeaderKnown(name, utf8, crc, a) + x == LocalHeaderKnown(name, utf8, crc, b) + y
    ensures a == b
  {
    hide LocalFixed, ParseLocal, HasFlag, LocalExtra, LocalSizes;
    var fa, fb := KnownFixed(name, utf8, crc, a), KnownFixed(name, utf8, crc, b);
    var left, right := LocalHeaderKnown(name, utf8, crc, a) + x, LocalHeaderKnown(name, utf8, crc, b) + y;
    assert left[4..30] == fa && right[4..30] == fb;
    ReadsKnown(name, utf8, crc, a);
    ReadsKnown(name, utf8, crc, b);
    LocalExtraLen(a);
    LocalExtraLen(b);
    var n := 30 + |name|;
    var e := |LocalExtra(a)|;
    assert left[n..n + e] == LocalExtra(a) && right[n..n + e] == LocalExtra(b);
    ReadsLocalSizes(ParseLocal(fa), a);
    ReadsLocalSizes(ParseLocal(fb), b);
  }

  function KnownFixed(name: seq<Byte>, utf8: bool, crc: nat, len: nat): (b: seq<Byte>)
    ensures |b| == LOCAL_FIXED
  {
    var zip64 := NeedsZip64Len(len);
    LocalFixed(if zip64 then VERSION_ZIP64 else VERSION_PLAIN, Utf8Flag(utf8), crc, if zip64 then MAX32 else len,
               |name|, if zip64 then 20 else 0)
  }

  lemma ReadsKnown(name: seq<Byte>, utf8: bool, crc: nat, len: nat)
    requires |name| <= MAX16 && crc <= MAX32 && len <= MAX64
    ensures var h := ParseLocal(KnownFixed(name, utf8, crc, len));
            && h.compressed == h.uncompressed == (if NeedsZip64Len(len) then MAX32 else len)
            && h.extraLen == |LocalExtra(len)|
  {
    hide LocalFixed, ParseLocal, HasFlag, LocalExtra;
    var zip64 := NeedsZip64Len(len);
    ReadsLocal(if zip64 then VERSION_ZIP64 else VERSION_PLAIN, Utf8Flag(utf8), crc, if zip64 then MAX32 else len, |name|, if zip64 then 20 else 0);
    LocalExtraLen(len);
  }

  /** The first dishonest part. */
  lemma {:induction false} FirstDishonest(ps: seq<Part>, i: nat) returns (k: nat)
    requires i < |ps| && !Honest(ps[i])
    ensures k < |ps| && !Honest(ps[k]) && forall j :: 0 <= j < k ==> Honest(ps[j])
    decreases i
  {
    if j: nat :| j < i && !Honest(ps[j]) {
      k := FirstDishonest(ps, j);
    } else {
      k := i;
    }
  }

  lemma {:induction false} PartsBytesPrefix(ps: seq<Part>, k: nat)
    requires k < |ps|
    ensures PartsBytes(ps[..k]) + PartBytes(ps[k]) <= PartsBytes(ps)
  {
    hide PartBytes;
    var front := ps[..|ps| - 1];
    if k < |front| {
      PartsBytesPrefix(front, k);
      assert front[..k] == ps[..k];
    } else {
      assert ps[..k] == front;
    }
  }

  /** Two readings of the same bytes after a common prefix. */
  lemma SamePlace(all: seq<Byte>, x: seq<Byte>, h1: seq<Byte>, t1: seq<Byte>, h2: seq<Byte>, t2: seq<Byte>)
      returns (y1: seq<Byte>, y2: seq<Byte>)
    requires x + (h1 + t1) <= all && x + (h2 + t2) <= all
    ensures h1 + y1 == h2 + y2
  {
    var rest := all[|x|..];
    assert h1 == all[|x|..|x| + |h1|] && h2 == all[|x|..|x| + |h2|];
    y1, y2 := rest[|h1|..], rest[|h2|..];
    assert h1 + y1 == rest;
  }

  lemma DishonestShows(ps: seq<Part>, k: nat)
    requires k < |ps| && !Honest(ps[k]) && Sized(ps[k]) && forall j :: 0 <= j < k ==> Honest(ps[j])
    ensures Pushed(PackageOps(ps)) != Archive(MembersOf(ps))
  {
    hide Pushed, PackageOps, Tail, LocalHeaderKnown, DescriptorBytes, Locals, PartsBytes, AbsorbAll, Honest;
    var p, m, front := ps[k], MemberOf(ps[k]), ps[..k];
    PushedPackage(ps);
    PartsBytesPrefix(ps, k);
    LocalsPrefix(MembersOf(ps), k);
    HonestParts(front);
    assert MembersOf(ps)[..k] == MembersOf(front);
    if Pushed(PackageOps(ps)) == Archive(MembersOf(ps)) {
      DishonestKnown(p);
      var x, y := SamePlace(Archive(MembersOf(ps)), Locals(MembersOf(front)), PartHeader(p), p.data + PartDescriptor(p),
                            LocalHeaderBytes(m), m.data + PartDescriptor(p));
      HeaderTellsLength(p.name, p.utf8, p.crc, p.claimed.value, |p.data|, x, y);
    }
  }

  lemma DishonestKnown(p: Part)
    requires !Honest(p)
    ensures p.claimed.Some? && p.claimed.value != |p.data|
  {
  }

  /**
   * The canonical bytes of a package are the archive of its decoded members exactly when every header-claimed length
   * is the decoded one: a member with both header sizes and a disagreeing descriptor is the one exception.
   */
  lemma CanonicalIsArchiveExactly(ps: seq<Part>)
    requires forall i :: 0 <= i < |ps| ==> Sized(ps[i])
    ensures Pushed(PackageOps(ps)) == Archive(MembersOf(ps)) <==> forall i :: 0 <= i < |ps| ==> Honest(ps[i])
  {
    hide Pushed, PackageOps, Tail, Locals, PartsBytes, AbsorbAll, Honest, Sized, MembersOf, Entries;
    if forall i :: 0 <= i < |ps| ==> Honest(ps[i]) {
      HonestArchive(ps);
    } else {
      var i: nat :| i < |ps| && !Honest(ps[i]);
      var k := FirstDishonest(ps, i);
      DishonestShows(ps, k);
    }
  }

  /** An accepted member is honest exactly when its header and its end claim the same decoded length. */
  lemma HonestWhenClaimsAgree(lib: Library, c: Core, m: Source)
    requires MemberAccepted(lib, c, m)
    ensures Honest(PartOf(lib, m)) <==> (m.head.sizes.Some? ==> m.head.sizes.value.uncompressed == m.ended.uncompressed)
  {
    hide Fed, AddName;
  }

  /**
   * A member of an accepted source whose header claims another length than its bytes decode to is deflated, its header's
   * sizes are plausible together, and the walk ended it by a trailing descriptor.
   */
  lemma DishonestOnlyDescribed(lib: Library, expected: Option<OfficeKind>, s: seq<Byte>, ms: seq<Source>, k: nat)
    requires Canonicalise(lib, expected, s).Some? && Reports(s, PackageEvents(ms)) && k < |ms| && !Honest(PartOf(lib, ms[k]))
    ensures var h := ms[k].head;
            h.codec == METHOD_DEFLATE && h.sizes.Some? && Check(h.sizes.value, METHOD_DEFLATE).None? && h.sizes.value != ms[k].ended
    ensures EndedByDescriptor(s, ms[..k + 1])
  {
    hide Run, CoreRun, SourcesEvents, Flat, PackageOps, AllAccepted, CloseCore, MayFinish, PartOf, Honest, EndedByDescriptor, Check;
    PackageRuns(lib, expected, ms);
    AcceptedAt(lib, NewCore(expected), ms, k);
    DishonestDeflated(lib, AbsorbAll(NewCore(expected), PartsOf(lib, ms[..k])), ms[k]);
    DisagreeDescribed(s, ms);
  }

  lemma DishonestDeflated(lib: Library, c: Core, m: Source)
    requires MemberAccepted(lib, c, m) && !Honest(PartOf(lib, m))
    ensures m.head.codec == METHOD_DEFLATE && Disagrees(m)
  {
    hide Decode, AddName;
    HonestWhenClaimsAgree(lib, c, m);
  }

  // Canonicalising again.

  /** What the walker reports of a member of the canonical archive. */
  function CanonSource(m: Member): Source
    requires Fits(m)
  {
    SourceMember(HeaderEvent(m), m.data, MemberSizes(|m.data|, |m.data|), m.crc)
  }

  function CanonSources(ms: seq<Member>): (r: seq<Source>)
    requires forall i :: 0 <= i < |ms| ==> Fits(ms[i])
    ensures |r| == |ms|
  {
    if ms == [] then [] else CanonSources(ms[..|ms| - 1]) + [CanonSource(ms[|ms| - 1])]
  }

  lemma {:induction false} CanonSourceAt(ms: seq<Member>, i: nat)
    requires i < |ms| && forall j :: 0 <= j < |ms| ==> Fits(ms[j])
    ensures CanonSources(ms)[i] == CanonSource(ms[i])
  {
    hide CanonSource, Fits;
    if i < |ms| - 1 {
      CanonSourceAt(ms[..|ms| - 1], i);
    }
  }

  lemma {:induction false} CanonEvents(ms: seq<Member>)
    requires forall i :: 0 <= i < |ms| ==> Fits(ms[i])
    ensures ArchiveEvents(ms) == SourcesEvents(CanonSources(ms))
  {
    hide DataEvents, HeaderEvent, Fits;
    if ms != [] {
      var front, m := ms[..|ms| - 1], ms[|ms| - 1];
      CanonEvents(front);
      OneMoreSource(CanonSources(front), CanonSource(m));
      assert MemberEvents(m) == SourceEvents(CanonSource(m));
    }
  }

  /** The CRC-32 of anything fits 32 bits. */
  ghost predicate CrcFits(lib: Library) {
    forall bytes :: lib.crcOf(bytes) <= MAX32
  }

  /** A member that was let in is let in again in its canonical form, as the same part. */
  lemma CanonAccepted(lib: Library, c: Core, m: Source)
    requires MemberAccepted(lib, c, m) && Honest(PartOf(lib, m)) && Fits(MemberOf(PartOf(lib, m)))
    ensures var again := CanonSource(MemberOf(PartOf(lib, m)));
            MemberAccepted(lib, c, again) && PartOf(lib, again) == PartOf(lib, m)
  {
    hide AddName, Fed;
    StoredDecodes(lib, PartOf(lib, m).data);
  }

  lemma AcceptedFits(lib: Library, c: Core, m: Source)
    requires MemberAccepted(lib, c, m) && CrcFits(lib) && |PartOf(lib, m).data| <= MAX64
    ensures Sized(PartOf(lib, m))
  {
    hide AddName, Fed;
    assert lib.crcOf(Decode(lib, m.head.codec, m.raw).bytes) <= MAX32;
  }

  /** Every prefix of an accepted package is accepted. */
  lemma {:induction false} AcceptedAt(lib: Library, c: Core, ms: seq<Source>, k: nat)
    requires AllAccepted(lib, c, ms) && k < |ms|
    ensures MemberAccepted(lib, AbsorbAll(c, PartsOf(lib, ms[..k])), ms[k])
  {
    hide MemberAccepted, AbsorbAll, PartsOf;
    var front := ms[..|ms| - 1];
    if k < |front| {
      AcceptedAt(lib, c, front, k);
      assert front[..k] == ms[..k];
    } else {
      assert ms[..k] == front;
    }
  }

  /** The parts of a package as members of the canonical archive. */
  function Canonical(lib: Library, ms: seq<Source>): seq<Member> {
    MembersOf(PartsOf(lib, ms))
  }

  predicate CanonicalFits(lib: Library, ms: seq<Source>) {
    forall i :: 0 <= i < |Canonical(lib, ms)| ==> Fits(Canonical(lib, ms)[i])
  }

  lemma OneMoreCanonical(lib: Library, ms: seq<Source>, m: Source)
    ensures Canonical(lib, ms + [m]) == Canonical(lib, ms) + [MemberOf(PartOf(lib, m))]
    ensures PartsOf(lib, ms + [m]) == PartsOf(lib, ms) + [PartOf(lib, m)]
  {
    hide PartOf;
  }

  lemma OneMoreCanon(ms: seq<Member>, m: Member)
    requires (forall i :: 0 <= i < |ms| ==> Fits(ms[i])) && Fits(m)
    ensures CanonSources(ms + [m]) == CanonSources(ms) + [CanonSource(m)]
  {
    hide CanonSource, Fits;
    assert (ms + [m])[..|ms|] == ms;
  }

  lemma OneMoreAccepted(lib: Library, c: Core, ms: seq<Source>, m: Source)
    ensures AllAccepted(lib, c, ms + [m]) <==> AllAccepted(lib, c, ms) && MemberAccepted(lib, AbsorbAll(c, PartsOf(lib, ms)), m)
  {
    hide MemberAccepted, AbsorbAll, PartOf;
    assert (ms + [m])[..|ms|] == ms;
  }

  /** The canonical archive of honest parts, read back, has those parts. */
  lemma HonestAgain(lib: Library, ps: seq<Part>)
    requires forall i :: 0 <= i < |ps| ==> Honest(ps[i]) && Fits(MemberOf(ps[i]))
    ensures PartsOf(lib, CanonSources(MembersOf(ps))) == ps
  {
    hide PartOf, CanonSource, CanonSources, Honest, Fits;
    var ms := MembersOf(ps);
    forall i | 0 <= i < |ps| ensures PartOf(lib, CanonSources(ms)[i]) == ps[i] {
      CanonSourceAt(ms, i);
      PartAgain(lib, ps[i]);
    }
  }

  lemma PartAgain(lib: Library, p: Part)
    requires Honest(p) && Fits(MemberOf(p))
    ensures PartOf(lib, CanonSource(MemberOf(p))) == p
  {
    hide Decode;
    StoredDecodes(lib, p.data);
  }

  lemma SourcesAgain(lib: Library, ms: seq<Source>)
    requires CanonicalFits(lib, ms) && forall i :: 0 <= i < |ms| ==> Honest(PartOf(lib, ms[i]))
    ensures PartsOf(lib, CanonSources(Canonical(lib, ms))) == PartsOf(lib, ms)
  {
    hide PartOf, CanonSource, CanonSources, Honest, Fits;
    assert forall i :: 0 <= i < |ms| ==> Canonical(lib, ms)[i] == MemberOf(PartsOf(lib, ms)[i]);
    HonestAgain(lib, PartsOf(lib, ms));
  }

  lemma {:induction false} AllAcceptedAgain(lib: Library, c: Core, ms: seq<Source>)
    requires AllAccepted(lib, c, ms)
    requires forall i :: 0 <= i < |ms| ==> Honest(PartOf(lib, ms[i])) && Fits(MemberOf(PartOf(lib, ms[i])))
    ensures CanonicalFits(lib, ms)
    ensures AllAccepted(lib, c, CanonSources(Canonical(lib, ms)))
  {
    hide MemberAccepted, AbsorbAll, PartOf, MemberOf, CanonSource, Honest, Fits;
    if ms != [] {
      var front, m := ms[..|ms| - 1], ms[|ms| - 1];
      assert ms == front + [m];
      AllAcceptedAgain(lib, c, front);
      AcceptedAgainStep(lib, c, front, m);
    }
  }

  lemma AcceptedAgainStep(lib: Library, c: Core, front: seq<Source>, m: Source)
    requires AllAccepted(lib, c, front + [m]) && Honest(PartOf(lib, m)) && Fits(MemberOf(PartOf(lib, m)))
    requires forall i :: 0 <= i < |front| ==> Honest(PartOf(lib, front[i]))
    requires CanonicalFits(lib, front) && AllAccepted(lib, c, CanonSources(Canonical(lib, front)))
    ensures CanonicalFits(lib, front + [m])
    ensures AllAccepted(lib, c, CanonSources(Canonical(lib, front + [m])))
  {
    hide MemberAccepted, AbsorbAll, PartOf, MemberOf, CanonSource, Honest, Fits, AllAccepted, PartsOf, Canonical, CanonSources;
    var now := MemberOf(PartOf(lib, m));
    OneMoreCanonical(lib, front, m);
    OneMoreCanon(Canonical(lib, front), now);
    OneMoreAccepted(lib, c, front, m);
    CanonAccepted(lib, AbsorbAll(c, PartsOf(lib, front)), m);
    SourcesAgain(lib, front);
    OneMoreAccepted(lib, c, CanonSources(Canonical(lib, front)), CanonSource(now));
  }

  /** When the archive is reported as written, canonicalising it gives the same stream. */
  lemma Again(lib: Library, expected: Option<OfficeKind>, ms: seq<Source>)
    requires AllAccepted(lib, NewCore(expected), ms)
    requires CloseCheck(AbsorbAll(NewCore(expected), PartsOf(lib, ms)).check).None?
    requires forall i :: 0 <= i < |ms| ==> Honest(PartOf(lib, ms[i])) && Fits(MemberOf(PartOf(lib, ms[i])))
    requires Reports(Archive(Canonical(lib, ms)), WholeEvents(Canonical(lib, ms)))
    ensures Canonicalise(lib, expected, Archive(Canonical(lib, ms))) == Some(PackageOps(PartsOf(lib, ms)))
  {
    hide Run, CoreRun, SourcesEvents, Flat, PackageOps, PartsOf, AllAccepted, CloseCore, MayFinish, CloseCheck, AbsorbAll, MembersOf, Archive,
         ArchiveEvents, Honest, Fits, PartOf, MemberOf;
    AllAcceptedAgain(lib, NewCore(expected), ms);
    SourcesAgain(lib, ms);
    var again := CanonSources(Canonical(lib, ms));
    PackageRuns(lib, expected, again);
    CanonEvents(Canonical(lib, ms));
  }

  // When the second reading ends a member elsewhere.

  /** From a clean core, whatever comes next in the stream begins with a boundary. */
  lemma {:induction false} NextIsBoundary(lib: Library, c: Core, es: seq<Event>)
    requires Clean(c)
    ensures var r := CoreRun(lib, c, es);
            || r.core.fault.Some?
            || (r.core == c && r.steps == [])
            || (r.steps != [] && r.steps[0] == UnitBoundary)
  {
    hide AddName, IsXmlPart, CanonicalHeader, Tail, Emission;
    if es != [] {
      NextIsBoundary(lib, c, es[..|es| - 1]);
    }
  }

  lemma FirstFlat(steps: seq<CanonStep>)
    requires steps != [] && steps[0] == UnitBoundary
    ensures Flat(steps) != [] && Flat(steps)[0] == Boundary
  {
    hide Flat;
    assert steps == [steps[0]] + steps[1..];
    FlatAppend([steps[0]], steps[1..]);
    FlatOne(steps[0]);
  }

  /** After a part of the canonical stream comes a boundary. */
  lemma {:induction false} BoundaryAfter(ps: seq<Part>, k: nat) returns (rest: seq<Op>)
    requires k < |ps|
    ensures PackageOps(ps) == PartsOps(ps[..k]) + PartOps(ps[k]) + rest && rest != [] && rest[0] == Boundary
  {
    hide PartsOps, PartOps, TailOps, AbsorbAll;
    var more := PartsBegin(ps, k);
    var tail := TailOps(AbsorbAll(NewCore(None), ps));
    TailBegins(AbsorbAll(NewCore(None), ps));
    rest := more + tail;
    assert PartsOps(ps[..k]) + PartOps(ps[k]) + more + tail == PartsOps(ps[..k]) + PartOps(ps[k]) + rest;
  }

  lemma TailBegins(c: Core)
    ensures TailOps(c) != [] && TailOps(c)[0] == Boundary
  {
    hide Tail, Pushes;
  }

  lemma PartBegins(p: Part)
    ensures PartOps(p) != [] && PartOps(p)[0] == Boundary
  {
    hide Pushes, PartHeader, PartDescriptor, IsXmlPart;
  }

  lemma {:induction false} PartsBegin(ps: seq<Part>, k: nat) returns (more: seq<Op>)
    requires k < |ps|
    ensures PartsOps(ps) == PartsOps(ps[..k]) + PartOps(ps[k]) + more && (more != [] ==> more[0] == Boundary)
  {
    hide PartOps;
    var front, last := ps[..|ps| - 1], ps[|ps| - 1];
    if k < |front| {
      assert front[..k] == ps[..k];
      var before := PartsBegin(front, k);
      PartBegins(last);
      more := before + PartOps(last);
      assert PartsOps(ps[..k]) + PartOps(ps[k]) + before + PartOps(last) == PartsOps(ps[..k]) + PartOps(ps[k]) + more;
    } else {
      assert ps[..k] == front;
      more := [];
    }
  }

  /** Two parts with one header that differ in their data. */
  predicate Twins(p: Part, q: Part) {
    p.name == q.name && p.utf8 == q.utf8 && p.claimed == q.claimed && (p.claimed.Some? ==> p.crc == q.crc) && |p.data| != |q.data|
  }

  /** The shorter of two twins takes fewer operations, and where it ends the longer still has a byte. */
  lemma CutShort(p: Part, q: Part)
    requires Twins(p, q) && |q.data| < |p.data|
    ensures |PartOps(q)| < |PartOps(p)| && PartOps(p)[|PartOps(q)|].Push?
  {
    hide LocalHeaderKnown, LocalHeaderUnknown, DescriptorBody, Pushes, IsXmlPart;
    assert HeaderOps(p) == HeaderOps(q);
    var h := |HeaderOps(p)|;
    var d := |PartDescriptor(p)|;
    assert d == |PartDescriptor(q)|;
    var i := |q.data| + d;
    var bytes := p.data + PartDescriptor(p);
    PushesSplit(p.data, PartDescriptor(p));
    PushesSplit(q.data, PartDescriptor(q));
    PushesAt(bytes, i);
    PushesLen(q.data + PartDescriptor(q));
    assert PartOps(p)[h + i] == Pushes(bytes)[i];
  }

  /** Two streams that agree up to twin parts, each with a boundary after its part, differ. */
  lemma TwinsDiffer(a: seq<Op>, p: Part, x: seq<Op>, q: Part, y: seq<Op>)
    requires Twins(p, q) && x != [] && x[0] == Boundary && y != [] && y[0] == Boundary
    ensures a + PartOps(p) + x != a + PartOps(q) + y
  {
    hide PartOps;
    if |q.data| < |p.data| {
      CutShort(p, q);
      var at := |a| + |PartOps(q)|;
      assert (a + PartOps(q) + y)[at] == y[0] && (a + PartOps(p) + x)[at] == PartOps(p)[|PartOps(q)|];
    } else {
      CutShort(q, p);
      var at := |a| + |PartOps(p)|;
      assert (a + PartOps(p) + x)[at] == x[0] && (a + PartOps(q) + y)[at] == PartOps(q)[|PartOps(p)|];
    }
  }

  /** A source that reports some members as parts of another and then a twin of its next part has another canonical stream. */
  lemma TwinStream(lib: Library, expected: Option<OfficeKind>, es: seq<Event>, before: seq<Source>, other: Source, ps: seq<Part>)
    requires |before| < |ps| && PartsOf(lib, before) == ps[..|before|] && Twins(ps[|before|], PartOf(lib, other))
    requires SourcesEvents(before + [other]) <= es
    ensures var r := CoreRun(lib, NewCore(expected), es);
            r.core.fault.Some? || !r.core.tailWritten || Flat(r.steps) != PackageOps(ps)
  {
    hide CoreRun, Flat, PartOps, PartOf, AllAccepted, SourcesEvents, PartsOps, PackageOps, Twins;
    var c0, read := NewCore(expected), before + [other];
    var r := CoreRun(lib, c0, es);
    if r.core.fault.None? && r.core.tailWritten {
      var pre := SourcesEvents(read);
      var rest := es[|pre|..];
      assert es == pre + rest;
      NoFaultBefore(lib, c0, pre, rest);
      MembersRun(lib, c0, read);
      AbsorbKeepsClean(c0, PartsOf(lib, read));
      var first := CoreRun(lib, c0, pre);
      FlatRuns(lib, c0, pre, rest);
      NextIsBoundary(lib, first.core, rest);
      var second := CoreRun(lib, first.core, rest);
      FirstFlat(second.steps);
      OneMoreOps(lib, before, other);
      var after := BoundaryAfter(ps, |before|);
      TwinsDiffer(PartsOps(PartsOf(lib, before)), ps[|before|], after, PartOf(lib, other), Flat(second.steps));
    }
  }

  lemma OneMoreOps(lib: Library, before: seq<Source>, other: Source)
    ensures PartsOps(PartsOf(lib, before + [other])) == PartsOps(PartsOf(lib, before)) + PartOps(PartOf(lib, other))
  {
    hide PartOps, PartOf;
    var ps := PartsOf(lib, before);
    assert PartsOf(lib, before + [other]) == ps + [PartOf(lib, other)];
    assert (ps + [PartOf(lib, other)])[..|ps|] == ps;
  }

  /** The canonical bytes up to a part, the parts before it being honest. */
  lemma PackageFrom(ps: seq<Part>, k: nat) returns (rest: seq<Byte>)
    requires k < |ps| && forall j :: 0 <= j < k ==> Honest(ps[j])
    ensures Pushed(PackageOps(ps)) == Locals(MembersOf(ps[..k])) + (PartBytes(ps[k]) + rest)
  {
    hide Pushed, PackageOps, Tail, Locals, PartsBytes, AbsorbAll, Honest, PartBytes, MembersOf;
    PushedPackage(ps);
    PartsBytesPrefix(ps, k);
    HonestParts(ps[..k]);
    var upTo := PartsBytes(ps[..k]) + PartBytes(ps[k]);
    rest := Pushed(PackageOps(ps))[|upTo|..];
    assert Pushed(PackageOps(ps)) == upTo + rest;
    assert upTo + rest == PartsBytes(ps[..k]) + (PartBytes(ps[k]) + rest);
  }

  /** A part that is read back as it is: its claim is its length, and no early descriptor is inside it. */
  predicate ReadsBack(p: Part) {
    Honest(p) && (p.claimed.None? ==> NoEarlyDescriptor(MemberOf(p)))
  }

  lemma FramedBefore(lib: Library, ps: seq<Part>, k: nat)
    requires k < |ps| && forall j :: 0 <= j < k ==> Sized(ps[j]) && ReadsBack(ps[j])
    ensures forall j :: 0 <= j < k ==> Framed(MembersOf(ps[..k])[j]) && Honest(ps[..k][j]) && Fits(MemberOf(ps[..k][j]))
    ensures PartsOf(lib, CanonSources(MembersOf(ps[..k]))) == ps[..k]
  {
    hide NoEarlyDescriptor, Fits, PartsOf, CanonSources, Honest;
    HonestAgain(lib, ps[..k]);
  }

  /** A known-size part whose claim is not its length: its bytes are read as another part. */
  lemma DishonestShifts(lib: Library, expected: Option<OfficeKind>, ps: seq<Part>, k: nat)
    requires k < |ps| && Sized(ps[k]) && !Honest(ps[k]) && forall j :: 0 <= j < k ==> Sized(ps[j]) && ReadsBack(ps[j])
    ensures Canonicalise(lib, expected, Pushed(PackageOps(ps))) != Some(PackageOps(ps))
  {
    hide Run, CoreRun, Pushed, PackageOps, Flat, Locals, MembersOf, NoEarlyDescriptor, LocalHeaderKnown, ArchiveEvents, CanonSources, PartsOf,
         SourcesEvents, MayFinish, CanonSource, Fits, CloseCheck;
    var p, bytes := ps[k], Pushed(PackageOps(ps));
    if Canonicalise(lib, expected, bytes).Some? {
      FramedBefore(lib, ps, k);
      PackageBefore(ps, k);
      var front := MembersOf(ps[..k]);
      var m := Claimed(p);
      ClaimedFits(p);
      var rest := PackageFrom(ps, k);
      assert PartBytes(p) + rest == LocalHeaderKnown(m.name, m.utf8, m.crc, |m.data|) + (p.data + PartDescriptor(p) + rest);
      var read := ClaimedRead(front, m, p.data + PartDescriptor(p) + rest);
      ReadTwin(lib, p, read);
      BeforeAndRead(front, CanonSource(read), MemberEvents(read));
      TwinStream(lib, expected, Run(START, bytes).value.events, CanonSources(front), CanonSource(read), ps);
    }
  }

  /** The member a known-size header claims: as many bytes as it says. */
  function Claimed(p: Part): (m: Member)
    requires p.claimed.Some?
    ensures |m.data| == p.claimed.value
  {
    Member(p.name, p.utf8, p.crc, seq(p.claimed.value, i => 0), false)
  }

  lemma ClaimedFits(p: Part)
    requires Sized(p) && p.claimed.Some?
    ensures Fits(Claimed(p))
  {
  }

  lemma PackageBefore(ps: seq<Part>, k: nat)
    requires k <= |ps|
    ensures |MembersOf(ps[..k])| == k
  {
  }

  lemma ReadTwin(lib: Library, p: Part, read: Member)
    requires !Honest(p) && Fits(read) && read == Claimed(p).(data := read.data) && |read.data| == p.claimed.value
    ensures Twins(p, PartOf(lib, CanonSource(read))) && MemberEvents(read) == SourceEvents(CanonSource(read))
  {
    hide Decode, DataEvents;
    StoredDecodes(lib, read.data);
  }

  lemma BeforeAndRead(front: seq<Member>, other: Source, events: seq<Event>)
    requires (forall i :: 0 <= i < |front| ==> Fits(front[i])) && events == SourceEvents(other)
    ensures SourcesEvents(CanonSources(front) + [other]) == ArchiveEvents(front) + events
  {
    hide SourcesEvents, CanonSources, ArchiveEvents, SourceEvents, Fits;
    CanonEvents(front);
    OneMoreSource(CanonSources(front), other);
  }

  /** The member the walker reports when it ends one early. */
  function ShortSource(m: Member, p: nat, sizes: MemberSizes, crc: nat): Source
    requires Fits(m) && m.descriptor && p <= |m.data| && sizes.compressed == p && Check(sizes, METHOD_STORED).None?
  {
    SourceMember(HeaderEvent(m), m.data[..p], sizes, crc)
  }

  lemma ShortTwin(lib: Library, p: Part, at: nat, sizes: MemberSizes, crc: nat)
    requires p.claimed.None? && Fits(MemberOf(p)) && at < |p.data| && sizes.compressed == at && Check(sizes, METHOD_STORED).None?
    ensures var short := ShortSource(MemberOf(p), at, sizes, crc);
            Twins(p, PartOf(lib, short)) && EarlyEvents(MemberOf(p), at, sizes, crc) == SourceEvents(short)
  {
    hide Decode, Check, DataEvents;
    StoredDecodes(lib, p.data[..at]);
  }

  /** An unknown-size part with an early descriptor is read back cut short there. */
  lemma EarlyCuts(lib: Library, expected: Option<OfficeKind>, ps: seq<Part>, k: nat)
    requires k < |ps| && Sized(ps[k]) && ps[k].claimed.None? && !NoEarlyDescriptor(MemberOf(ps[k]))
    requires forall j :: 0 <= j < k ==> Sized(ps[j]) && ReadsBack(ps[j])
    ensures Canonicalise(lib, expected, Pushed(PackageOps(ps))) != Some(PackageOps(ps))
  {
    hide Run, CoreRun, Pushed, PackageOps, Flat, Locals, MembersOf, DescriptorAt, ArchiveEvents, CanonSources, PartsOf, SourcesEvents, MayFinish,
         Fits, CloseCheck, Scanned, Check, EarlyEvents, ShortSource, LocalHeaderBytes, DescriptorBytes, PartHeader;
    var p, bytes := ps[k], Pushed(PackageOps(ps));
    if Canonicalise(lib, expected, bytes).Some? {
      FramedBefore(lib, ps, k);
      PackageBefore(ps, k);
      var front, m := MembersOf(ps[..k]), MemberOf(p);
      var q: nat :| q < |m.data| && DescriptorAt(false, Scanned(m), q);
      var at := LeastEarly(m, q);
      var rest := PackageFrom(ps, k);
      HonestPart(p);
      var more := UpToDescriptor(m, at, rest);
      var sizes, crc := EarlyInside(front, m, at, more);
      Assoc(Locals(front), LocalHeaderBytes(m) + Scanned(m)[..at + 16], more);
      ShortTwin(lib, p, at, sizes, crc);
      BeforeAndRead(front, ShortSource(m, at, sizes, crc), EarlyEvents(m, at, sizes, crc));
      TwinStream(lib, expected, Run(START, bytes).value.events, CanonSources(front), ShortSource(m, at, sizes, crc), ps);
    }
  }

  lemma UpToDescriptor(m: Member, at: nat, rest: seq<Byte>) returns (more: seq<Byte>)
    requires m.descriptor && at < |m.data|
    ensures at + 16 <= |Scanned(m)| && LocalBytes(m) + rest == LocalHeaderBytes(m) + Scanned(m)[..at + 16] + more
  {
    hide LocalHeaderBytes, DescriptorBody;
    more := Scanned(m)[at + 16..] + rest;
    assert LocalBytes(m) == LocalHeaderBytes(m) + Scanned(m);
    assert Scanned(m) == Scanned(m)[..at + 16] + Scanned(m)[at + 16..];
  }

  /** The first part that is not read back as it is. */
  lemma {:induction false} FirstLost(ps: seq<Part>, i: nat) returns (k: nat)
    requires i < |ps| && !ReadsBack(ps[i])
    ensures k < |ps| && !ReadsBack(ps[k]) && forall j :: 0 <= j < k ==> ReadsBack(ps[j])
    decreases i
  {
    if j: nat :| j < i && !ReadsBack(ps[j]) {
      k := FirstLost(ps, j);
    } else {
      k := i;
    }
  }

  /**
   * Canonicalising the canonical form of an accepted source gives that form again - the same bytes, boundaries, gates
   * and marks - exactly when every header-claimed length is the decoded one and no member of unknown size holds an
   * earlier self-consistent descriptor.
   */
  lemma IdempotentExactly(lib: Library, expected: Option<OfficeKind>, s: seq<Byte>, ms: seq<Source>)
    requires Canonicalise(lib, expected, s).Some? && Reports(s, PackageEvents(ms)) && CrcFits(lib)
    requires |Pushed(Canonicalise(lib, expected, s).value)| <= MAX64
    ensures var ops := Canonicalise(lib, expected, s);
            Canonicalise(lib, expected, Pushed(ops.value)) == ops <==>
              forall i :: 0 <= i < |ms| ==>
                var p := PartOf(lib, ms[i]); Honest(p) && (p.claimed.None? ==> NoEarlyDescriptor(MemberOf(p)))
  {
    hide Run, CoreRun, SourcesEvents, Flat, PackageOps, AllAccepted, CloseCheck, MayFinish, AbsorbAll, Honest, PartOf, Pushed, NoEarlyDescriptor,
         Sized;
    PackageRuns(lib, expected, ms);
    AllSized(lib, expected, ms);
    var ps := PartsOf(lib, ms);
    if forall i :: 0 <= i < |ps| ==> ReadsBack(ps[i]) {
      AllBack(lib, expected, ms);
      assert forall i :: 0 <= i < |ms| ==> PartOf(lib, ms[i]) == ps[i];
    } else {
      var i: nat :| i < |ps| && !ReadsBack(ps[i]);
      assert ps[i] == PartOf(lib, ms[i]);
      var k := FirstLost(ps, i);
      if Honest(ps[k]) {
        EarlyCuts(lib, expected, ps, k);
      } else {
        DishonestShifts(lib, expected, ps, k);
      }
    }
  }

  lemma AllBack(lib: Library, expected: Option<OfficeKind>, ms: seq<Source>)
    requires AllAccepted(lib, NewCore(expected), ms)
    requires CloseCheck(AbsorbAll(NewCore(expected), PartsOf(lib, ms)).check).None?
    requires forall i :: 0 <= i < |ms| ==> Sized(PartsOf(lib, ms)[i]) && ReadsBack(PartsOf(lib, ms)[i])
    requires |Pushed(PackageOps(PartsOf(lib, ms)))| <= MAX64
    ensures Canonicalise(lib, expected, Pushed(PackageOps(PartsOf(lib, ms)))) == Some(PackageOps(PartsOf(lib, ms)))
  {
    hide Run, CoreRun, SourcesEvents, Flat, PackageOps, AllAccepted, CloseCheck, MayFinish, AbsorbAll, Archive, Honest, PartOf, Pushed,
         NoEarlyDescriptor, Fits, WholeEvents;
    var now := Canonical(lib, ms);
    assert forall i :: 0 <= i < |ms| ==> PartsOf(lib, ms)[i] == PartOf(lib, ms[i]);
    assert forall i :: 0 <= i < |ms| ==> now[i] == MemberOf(PartsOf(lib, ms)[i]);
    HonestArchive(PartsOf(lib, ms));
    RoundTripExactly(now);
    Again(lib, expected, ms);
  }

  lemma HonestArchive(ps: seq<Part>)
    requires forall i :: 0 <= i < |ps| ==> Honest(ps[i])
    ensures Pushed(PackageOps(ps)) == Archive(MembersOf(ps))
  {
    hide Pushed, PackageOps, Tail, Locals, PartsBytes, AbsorbAll, Honest, MembersOf, Entries;
    PushedPackage(ps);
    HonestParts(ps);
  }

  lemma AllSized(lib: Library, expected: Option<OfficeKind>, ms: seq<Source>)
    requires AllAccepted(lib, NewCore(expected), ms) && CrcFits(lib)
    requires |Pushed(PackageOps(PartsOf(lib, ms)))| <= MAX64
    ensures forall i :: 0 <= i < |ms| ==> Sized(PartsOf(lib, ms)[i])
  {
    hide AllAccepted, AbsorbAll, MemberAccepted, PartOf, PartsBytes, Tail, Pushed, PackageOps, Sized, PartHeader, PartDescriptor;
    var ps := PartsOf(lib, ms);
    PushedPackage(ps);
    forall i | 0 <= i < |ms| ensures Sized(ps[i]) {
      AcceptedAt(lib, NewCore(expected), ms, i);
      PartsBytesPrefix(ps, i);
      assert |PartBytes(ps[i])| >= |ps[i].data|;
      AcceptedFits(lib, AbsorbAll(NewCore(expected), PartsOf(lib, ms[..i])), ms[i]);
    }
  }
}
