/** The canonical form of ooxml-v1: what it depends on, that it is an archive, and that canonicalising is idempotent. */
module OoxmlCanon {
  import opened Bytes
  import opened ZipRecords
  import opened ZipWalker
  import opened ZipScan
  import opened ZipWriter
  import opened ZipEvents
  import opened ZipRoundTrip
  import opened Assembler
  import opened OoxmlCore
  import opened LargeUnits

  // The canonical stream as assembler operations.

  function FlatStep(step: CanonStep): seq<Op> {
    match step
    case UnitBoundary => [Boundary]
    case TextRegion(text) => [SetGate(if text then TextSeam else PerByte)]
    case LargeUnitHere(n) => [LargeUnit(n)]
    case Emit(bytes) => Pushes(bytes)
  }

  /** The operations a queue of steps causes when it is drained into the assembler. */
  function Flat(steps: seq<CanonStep>): seq<Op> {
    if steps == [] then [] else Flat(steps[..|steps| - 1]) + FlatStep(steps[|steps| - 1])
  }

  lemma {:induction false} FlatAppend(x: seq<CanonStep>, y: seq<CanonStep>)
    ensures Flat(x + y) == Flat(x) + Flat(y)
  {
    hide FlatStep;
    if y == [] {
      assert x + y == x;
    } else {
      var front := y[..|y| - 1];
      assert (x + y)[..|x + y| - 1] == x + front;
      FlatAppend(x, front);
    }
  }

  lemma FlatOne(step: CanonStep)
    ensures Flat([step]) == FlatStep(step)
  {
    assert [step][..0] == [];
  }

  lemma FlatEmission(bytes: seq<Byte>)
    ensures Flat(Emission(bytes)) == Pushes(bytes)
  {
    if bytes != [] {
      FlatOne(Emit(bytes));
    }
  }

  // Runs of the core.

  function CoreRun(lib: Library, c: Core, es: seq<Event>): Bridged {
    if es == [] then Bridged(c, [])
    else
      var front := CoreRun(lib, c, es[..|es| - 1]);
      var last := Handle(lib, front.core, es[|es| - 1]);
      Bridged(last.core, front.steps + last.steps)
  }

  lemma {:induction false} CoreRunAppend(lib: Library, c: Core, x: seq<Event>, y: seq<Event>)
    ensures var first := CoreRun(lib, c, x);
            var second := CoreRun(lib, first.core, y);
            CoreRun(lib, c, x + y) == Bridged(second.core, first.steps + second.steps)
  {
    hide Handle;
    if y == [] {
      assert x + y == x;
    } else {
      var front := y[..|y| - 1];
      assert (x + y)[..|x + y| - 1] == x + front;
      CoreRunAppend(lib, c, x, front);
    }
  }

  lemma CoreRunOne(lib: Library, c: Core, e: Event)
    ensures CoreRun(lib, c, [e]) == Handle(lib, c, e)
  {
    hide Handle;
    assert [e][..0] == [];
    assert [] + Handle(lib, c, e).steps == Handle(lib, c, e).steps;
  }

  /** Two runs in a row, flattened. */
  lemma FlatRuns(lib: Library, c: Core, x: seq<Event>, y: seq<Event>)
    ensures var first := CoreRun(lib, c, x);
            var second := CoreRun(lib, first.core, y);
            var both := CoreRun(lib, c, x + y);
            both.core == second.core && Flat(both.steps) == Flat(first.steps) + Flat(second.steps)
  {
    hide CoreRun, Flat;
    CoreRunAppend(lib, c, x, y);
    FlatAppend(CoreRun(lib, c, x).steps, CoreRun(lib, CoreRun(lib, c, x).core, y).steps);
  }

  /** A core that has faulted ignores everything. */
  lemma {:induction false} FaultStays(lib: Library, c: Core, es: seq<Event>)
    requires c.fault.Some?
    ensures CoreRun(lib, c, es) == Bridged(c, [])
  {
    if es != [] {
      FaultStays(lib, c, es[..|es| - 1]);
    }
  }

  /** What a run faults on, no continuation of it forgives. */
  lemma NoFaultBefore(lib: Library, c: Core, x: seq<Event>, y: seq<Event>)
    requires CoreRun(lib, c, x + y).core.fault.None?
    ensures CoreRun(lib, c, x).core.fault.None?
  {
    hide CoreRun;
    CoreRunAppend(lib, c, x, y);
    var first := CoreRun(lib, c, x);
    if first.core.fault.Some? {
      FaultStays(lib, first.core, y);
    }
  }

  // A member, decoded.

  /** Everything the decoder yields while `raw` is pushed. */
  function Fed(lib: Library, codec: nat, raw: seq<Byte>): Produced {
    if raw == [] then Made([])
    else
      var front := raw[..|raw| - 1];
      match Fed(lib, codec, front)
      case Bad(f) => Bad(f)
      case Made(bytes) =>
        match PushDecoder(lib, MemberDecoder(codec, front, bytes), raw[|raw| - 1])
        case Bad(f) => Bad(f)
        case Made(more) => Made(bytes + more)
  }

  /** The decoded bytes of a member. */
  function Decode(lib: Library, codec: nat, raw: seq<Byte>): Produced {
    match Fed(lib, codec, raw)
    case Bad(f) => Bad(f)
    case Made(bytes) =>
      match CloseDecoder(lib, MemberDecoder(codec, raw, bytes))
      case Bad(f) => Bad(f)
      case Made(rest) => Made(bytes + rest)
  }

  lemma {:induction false} StoredFed(lib: Library, raw: seq<Byte>)
    ensures Fed(lib, METHOD_STORED, raw) == Made(raw)
  {
    hide PushDecoder;
    if raw != [] {
      var front := raw[..|raw| - 1];
      StoredFed(lib, front);
      StoredPush(lib, MemberDecoder(METHOD_STORED, front, front), raw[|raw| - 1]);
      assert front + [raw[|raw| - 1]] == raw;
    }
  }

  lemma StoredPush(lib: Library, d: MemberDecoder, b: Byte)
    requires d.codec == METHOD_STORED
    ensures PushDecoder(lib, d, b) == Made([b])
  {
  }

  /** A stored member decodes to its own bytes. */
  lemma StoredDecodes(lib: Library, raw: seq<Byte>)
    ensures Decode(lib, METHOD_STORED, raw) == Made(raw)
  {
    StoredFed(lib, raw);
    assert raw + [] == raw;
  }

  /** What the canonical form keeps of a member; `claimed` is the decoded length its header claims, if it does. */
  datatype Part = Part(name: seq<Byte>, utf8: bool, crc: nat, data: seq<Byte>, claimed: Option<nat>)

  function PartOf(lib: Library, m: Source): Part
  {
    var h := m.head;
    var decoded := Decode(lib, h.codec, m.raw);
    Part(h.name, h.utf8, m.endCrc, if decoded.Made? then decoded.bytes else [],
         if h.sizes.Some? then Some(h.sizes.value.uncompressed) else None)
  }

  function PartHeader(p: Part): seq<Byte> {
    CanonicalHeader(p.name, p.utf8, p.crc, p.claimed)
  }

  function PartDescriptor(p: Part): seq<Byte> {
    if p.claimed.None? then DescriptorBytes(p.crc, |p.data|) else []
  }

  function PartBytes(p: Part): seq<Byte> {
    PartHeader(p) + (p.data + PartDescriptor(p))
  }

  function HeaderOps(p: Part): seq<Op> {
    [Boundary, SetGate(if IsXmlPart(p.name) then TextSeam else PerByte)] + Pushes(PartHeader(p))
    + (if LargeClaim(p.claimed) then [LargeUnit(|PartHeader(p)|)] else [])
  }

  /** A part of the canonical stream: a unit of its own, gated by its name, marked when large. */
  function PartOps(p: Part): seq<Op> {
    HeaderOps(p) + (Pushes(p.data) + Pushes(PartDescriptor(p)))
  }

  /** No member is open, nothing has gone wrong, the tail is still to come. */
  predicate Clean(c: Core) {
    c.fault.None? && c.decoder.None? && c.member.None? && !c.tailWritten
  }

  /** The core after a part. */
  function Absorb(c: Core, p: Part): Core {
    var check := AddName(c.check, p.name);
    c.(check := if check.Some? then check.value else c.check,
       namesTotal := c.namesTotal + |p.name|,
       entries := c.entries + [CentralEntry(p.name, p.utf8, p.crc, |p.data|, c.canonicalOffset, p.claimed.None?)],
       canonicalOffset := c.canonicalOffset + |PartBytes(p)|)
  }

  /** The checks a member's header must pass. */
  predicate HeaderAccepted(c: Core, h: Event)
    requires h.LocalHeaderRead?
  {
    var check := AddName(c.check, h.name);
    && !h.encrypted && check.Some? && !check.value.signed
    && |c.entries| < MAX_MEMBERS && c.namesTotal + |h.name| <= MAX_NAME_BYTES && Decodable(h.codec)
  }

  /** The checks its bytes must pass against what the source claims of them. */
  predicate DataAccepted(lib: Library, m: Source)
  {
    var decoded := Decode(lib, m.head.codec, m.raw);
    && decoded.Made? && |decoded.bytes| == m.ended.uncompressed && lib.crcOf(decoded.bytes) == m.endCrc
    && (if m.head.sizes.Some? then m.head.crc == m.endCrc else |decoded.bytes| <= MAX32)
  }

  /** The core mid-member, once the header is in and `bytes` of the member have come out. */
  function Mid(c: Core, h: Event, raw: seq<Byte>, bytes: seq<Byte>): Core
    requires h.LocalHeaderRead?
  {
    var check := AddName(c.check, h.name);
    var claimed := if h.sizes.Some? then Some(h.sizes.value.uncompressed) else None;
    c.(check := if check.Some? then check.value else c.check,
       namesTotal := c.namesTotal + |h.name|,
       decoder := Some(MemberDecoder(h.codec, raw, bytes)),
       member := Some(Streaming(h.name, h.utf8, c.canonicalOffset, if h.sizes.Some? then Some(h.crc) else None)),
       canonicalOffset := c.canonicalOffset + |CanonicalHeader(h.name, h.utf8, h.crc, claimed)| + |bytes|)
  }

  lemma HeaderStep(lib: Library, c: Core, h: Event, p: Part)
    requires Clean(c) && h.LocalHeaderRead?
    requires p.name == h.name && p.utf8 == h.utf8 && p.claimed == (if h.sizes.Some? then Some(h.sizes.value.uncompressed) else None)
    requires h.sizes.Some? ==> p.crc == h.crc
    ensures var r := Handle(lib, c, h);
            && (r.core.fault.None? <==> HeaderAccepted(c, h))
            && (r.core.fault.None? ==> r.core == Mid(c, h, [], []) && Flat(r.steps) == HeaderOps(p))
  {
    hide AddName, IsXmlPart, LocalHeaderKnown, LocalHeaderUnknown, Pushes, Emission, Flat;
    if HeaderAccepted(c, h) {
      var header := PartHeader(p);
      var opening := [UnitBoundary, TextRegion(IsXmlPart(h.name))];
      var mark := if LargeClaim(p.claimed) then [LargeUnitHere(|header|)] else [];
      FlatAppend(opening + Emission(header), mark);
      FlatAppend(opening, Emission(header));
      FlatEmission(header);
      FlatOpening(opening);
      FlatMark(mark);
    }
  }

  lemma FlatOpening(steps: seq<CanonStep>)
    requires |steps| == 2 && steps[0].UnitBoundary? && steps[1].TextRegion?
    ensures Flat(steps) == [Boundary, SetGate(if steps[1].text then TextSeam else PerByte)]
  {
    assert steps == [steps[0]] + [steps[1]];
    FlatAppend([steps[0]], [steps[1]]);
    FlatOne(steps[0]);
    FlatOne(steps[1]);
  }

  lemma FlatMark(steps: seq<CanonStep>)
    requires steps == [] || (|steps| == 1 && steps[0].LargeUnitHere?)
    ensures Flat(steps) == if steps == [] then [] else [LargeUnit(steps[0].headerLen)]
  {
    if steps != [] {
      FlatOne(steps[0]);
      assert steps == [steps[0]];
    }
  }

  lemma {:induction false} DataSteps(lib: Library, c: Core, h: Event, raw: seq<Byte>)
    requires Clean(c) && h.LocalHeaderRead?
    ensures var r := CoreRun(lib, Mid(c, h, [], []), DataEvents(raw));
            match Fed(lib, h.codec, raw)
            case Bad(_) => r.core.fault.Some?
            case Made(bytes) => r.core == Mid(c, h, raw, bytes) && Flat(r.steps) == Pushes(bytes)
  {
    hide AddName, CanonicalHeader, Pushes, Flat, PushDecoder, CoreRun, DataEvents, Emission;
    var mid := Mid(c, h, [], []);
    if raw == [] {
      DataNothing();
      NoRun(lib, mid);
    } else {
      var front, b := raw[..|raw| - 1], raw[|raw| - 1];
      DataSteps(lib, c, h, front);
      DataOne(raw, |front|);
      assert raw[..|raw|] == raw;
      FlatRuns(lib, mid, DataEvents(front), [MemberData(b)]);
      var r := CoreRun(lib, mid, DataEvents(front));
      CoreRunOne(lib, r.core, MemberData(b));
      if Fed(lib, h.codec, raw).Made? {
        var bytes := Fed(lib, h.codec, front).bytes;
        var more := PushDecoder(lib, MemberDecoder(h.codec, front, bytes), b).bytes;
        FlatEmission(more);
        PushesSplit(bytes, more);
        assert front + [b] == raw;
      }
    }
  }

  lemma NoRun(lib: Library, c: Core)
    ensures CoreRun(lib, c, []) == Bridged(c, []) && Flat([]) == [] == Pushes([])
  {
  }

  lemma EndStep(lib: Library, c: Core, m: Source, bytes: seq<Byte>)
    requires Clean(c) && Fed(lib, m.head.codec, m.raw) == Made(bytes) && HeaderAccepted(c, m.head)
    ensures var r := Handle(lib, Mid(c, m.head, m.raw, bytes), MemberEnd(m.ended, m.endCrc));
            var p := PartOf(lib, m);
            && (r.core.fault.None? <==> DataAccepted(lib, m))
            && (r.core.fault.None? ==>
                  r.core == Absorb(c, p) && Pushes(bytes) + Flat(r.steps) == Pushes(p.data) + Pushes(PartDescriptor(p)))
  {
    hide AddName, LocalHeaderKnown, LocalHeaderUnknown, Pushes, Flat, DescriptorBytes, Emission, Fed;
    var d := MemberDecoder(m.head.codec, m.raw, bytes);
    var closed := CloseDecoder(lib, d);
    if DataAccepted(lib, m) {
      var rest, p := closed.bytes, PartOf(lib, m);
      var descriptor := PartDescriptor(p);
      FlatAppend(Emission(rest), Emission(descriptor));
      FlatEmission(rest);
      FlatEmission(descriptor);
      PushesSplit(bytes, rest);
      assert Pushes(bytes) + (Pushes(rest) + Pushes(descriptor)) == Pushes(bytes) + Pushes(rest) + Pushes(descriptor);
      assert c.entries + [] == c.entries;
    }
  }

  predicate MemberAccepted(lib: Library, c: Core, m: Source)
  {
    HeaderAccepted(c, m.head) && DataAccepted(lib, m)
  }

  /** A member goes through exactly when its checks pass, and then as its part: whatever its compression. */
  lemma MemberRuns(lib: Library, c: Core, m: Source)
    requires Clean(c)
    ensures var r := CoreRun(lib, c, SourceEvents(m));
            var p := PartOf(lib, m);
            && (r.core.fault.None? <==> MemberAccepted(lib, c, m))
            && (r.core.fault.None? ==> r.core == Absorb(c, p) && Flat(r.steps) == PartOps(p))
  {
    hide AddName, CanonicalHeader, Pushes, Flat, CoreRun, DataEvents, Handle, HeaderAccepted, DataAccepted, PartDescriptor, HeaderOps, Absorb;
    var end := MemberEnd(m.ended, m.endCrc);
    var p := PartOf(lib, m);
    FlatRuns(lib, c, [m.head], DataEvents(m.raw) + [end]);
    CoreRunOne(lib, c, m.head);
    var q := p.(crc := if m.head.sizes.Some? then m.head.crc else p.crc);
    HeaderStep(lib, c, m.head, q);
    var headed := Handle(lib, c, m.head);
    if HeaderAccepted(c, m.head) {
      FlatRuns(lib, headed.core, DataEvents(m.raw), [end]);
      DataSteps(lib, c, m.head, m.raw);
      var fed := CoreRun(lib, headed.core, DataEvents(m.raw));
      CoreRunOne(lib, fed.core, end);
      if Fed(lib, m.head.codec, m.raw).Bad? {
        FaultStays(lib, fed.core, [end]);
        NotFed(lib, m);
      } else {
        EndStep(lib, c, m, Fed(lib, m.head.codec, m.raw).bytes);
        if DataAccepted(lib, m) {
          SameCrc(lib, m);
        }
      }
    } else {
      FaultStays(lib, headed.core, DataEvents(m.raw) + [end]);
    }
  }

  lemma NotFed(lib: Library, m: Source)
    requires Fed(lib, m.head.codec, m.raw).Bad?
    ensures !DataAccepted(lib, m)
  {
  }

  lemma SameCrc(lib: Library, m: Source)
    requires DataAccepted(lib, m)
    ensures m.head.sizes.Some? ==> m.head.crc == PartOf(lib, m).crc
  {
  }

  // Whole packages.

  function PartsOf(lib: Library, ms: seq<Source>): seq<Part>
  {
    seq(|ms|, i requires 0 <= i < |ms| => PartOf(lib, ms[i]))
  }

  function AbsorbAll(c: Core, ps: seq<Part>): Core {
    if ps == [] then c else Absorb(AbsorbAll(c, ps[..|ps| - 1]), ps[|ps| - 1])
  }

  function PartsOps(ps: seq<Part>): seq<Op> {
    if ps == [] then [] else PartsOps(ps[..|ps| - 1]) + PartOps(ps[|ps| - 1])
  }

  predicate AllAccepted(lib: Library, c: Core, ms: seq<Source>)
  {
    ms == [] ||
    (var front := ms[..|ms| - 1];
     AllAccepted(lib, c, front) && MemberAccepted(lib, AbsorbAll(c, PartsOf(lib, front)), ms[|ms| - 1]))
  }

  lemma {:induction false} AbsorbKeepsClean(c: Core, ps: seq<Part>)
    requires Clean(c)
    ensures Clean(AbsorbAll(c, ps))
  {
    if ps != [] {
      AbsorbKeepsClean(c, ps[..|ps| - 1]);
    }
  }

  lemma {:induction false} MembersRun(lib: Library, c: Core, ms: seq<Source>)
    requires Clean(c)
    ensures var r := CoreRun(lib, c, SourcesEvents(ms));
            && (r.core.fault.None? <==> AllAccepted(lib, c, ms))
            && (r.core.fault.None? ==> r.core == AbsorbAll(c, PartsOf(lib, ms)) && Flat(r.steps) == PartsOps(PartsOf(lib, ms)))
  {
    hide CoreRun, SourceEvents, Flat, Absorb, PartOps, PartOf, MemberAccepted;
    if ms == [] {
      NoRun(lib, c);
      assert PartsOf(lib, ms) == [];
    } else {
      var front, m := ms[..|ms| - 1], ms[|ms| - 1];
      MembersRun(lib, c, front);
      assert PartsOf(lib, ms) == PartsOf(lib, front) + [PartOf(lib, m)];
      assert PartsOf(lib, ms)[..|ms| - 1] == PartsOf(lib, front);
      FlatRuns(lib, c, SourcesEvents(front), SourceEvents(m));
      var r := CoreRun(lib, c, SourcesEvents(front));
      if r.core.fault.Some? {
        FaultStays(lib, r.core, SourceEvents(m));
      } else {
        AbsorbKeepsClean(c, PartsOf(lib, front));
        MemberRuns(lib, r.core, m);
      }
    }
  }

  function TailOps(c: Core): seq<Op> {
    [Boundary, SetGate(PerByte)] + Pushes(Tail(c.entries, c.canonicalOffset))
  }

  /** The canonical stream of a package with these parts. */
  function PackageOps(ps: seq<Part>): seq<Op> {
    PartsOps(ps) + TailOps(AbsorbAll(NewCore(None), ps))
  }

  lemma CentralStep(lib: Library, c: Core)
    requires Clean(c)
    ensures Handle(lib, c, CentralBegun).core == c.(tailWritten := true, canonicalOffset := c.canonicalOffset + |Tail(c.entries, c.canonicalOffset)|)
    ensures Flat(Handle(lib, c, CentralBegun).steps) == TailOps(c)
  {
    hide Tail, Flat, Pushes, Emission;
    var tail := Tail(c.entries, c.canonicalOffset);
    var opening := [UnitBoundary, TextRegion(false)];
    FlatAppend(opening, Emission(tail));
    FlatOpening(opening);
    FlatEmission(tail);
  }

  /** The canonical stream of a source, if the walker and the core let all of it through. */
  function Canonicalise(lib: Library, expected: Option<OfficeKind>, s: seq<Byte>): Option<seq<Op>> {
    match Run(START, s)
    case None => None
    case Some(r) =>
      var bridged := CoreRun(lib, NewCore(expected), r.events);
      if MayFinish(r.next) && bridged.core.fault.None? && CloseCore(bridged.core).None? then Some(Flat(bridged.steps)) else None
  }

  /** What the kind a package is expected to be changes: only its check. */
  lemma {:induction false} ExpectationOnlyChecks(expected: Option<OfficeKind>, ps: seq<Part>)
    ensures var a, b := AbsorbAll(NewCore(expected), ps), AbsorbAll(NewCore(None), ps);
            a.entries == b.entries && a.canonicalOffset == b.canonicalOffset
  {
    hide PartBytes, AddName;
    if ps != [] {
      ExpectationOnlyChecks(expected, ps[..|ps| - 1]);
    }
  }

  /** The whole core over the events of a package. */
  lemma PackageRuns(lib: Library, expected: Option<OfficeKind>, ms: seq<Source>)
    ensures var r := CoreRun(lib, NewCore(expected), PackageEvents(ms));
            var c := AbsorbAll(NewCore(expected), PartsOf(lib, ms));
            && (r.core.fault.None? <==> AllAccepted(lib, NewCore(expected), ms))
            && (r.core.fault.None? ==> CloseCore(r.core) == CloseCheck(c.check) && Flat(r.steps) == PackageOps(PartsOf(lib, ms)))
  {
    hide CoreRun, SourcesEvents, Flat, AbsorbAll, PartsOps, PartsOf, AllAccepted, Handle, CloseCheck;
    var c0 := NewCore(expected);
    MembersRun(lib, c0, ms);
    FlatRuns(lib, c0, SourcesEvents(ms), [CentralBegun]);
    var r := CoreRun(lib, c0, SourcesEvents(ms));
    CoreRunOne(lib, r.core, CentralBegun);
    if r.core.fault.Some? {
      FaultStays(lib, r.core, [CentralBegun]);
    } else {
      AbsorbKeepsClean(c0, PartsOf(lib, ms));
      CentralStep(lib, r.core);
      ExpectationOnlyChecks(expected, PartsOf(lib, ms));
    }
  }

  /**
   * An accepted source's canonical stream - bytes, boundaries, gates and large-unit marks - is a function of its
   * members' names, UTF-8 flags, CRCs, decoded bytes and claimed lengths alone.
   */
  lemma StreamOfParts(lib: Library, expected: Option<OfficeKind>, s: seq<Byte>) returns (ms: seq<Source>)
    requires Canonicalise(lib, expected, s).Some?
    ensures Reports(s, PackageEvents(ms)) && AllAccepted(lib, NewCore(expected), ms)
    ensures Canonicalise(lib, expected, s) == Some(PackageOps(PartsOf(lib, ms)))
  {
    hide Run, CoreRun, SourcesEvents, Flat, PackageOps, PartsOf, AllAccepted, CloseCore, MayFinish;
    ms := FinishedShape(s);
    PackageRuns(lib, expected, ms);
  }

  /** Sources that decode to the same parts have the same canonical stream, whatever their compression. */
  lemma Converge(lib: Library, expected: Option<OfficeKind>, s1: seq<Byte>, ms1: seq<Source>, s2: seq<Byte>, ms2: seq<Source>)
    requires Reports(s1, PackageEvents(ms1)) && Reports(s2, PackageEvents(ms2))
    requires Canonicalise(lib, expected, s1).Some? && Canonicalise(lib, expected, s2).Some?
    requires PartsOf(lib, ms1) == PartsOf(lib, ms2)
    ensures Canonicalise(lib, expected, s1) == Canonicalise(lib, expected, s2)
  {
    hide Run, CoreRun, SourcesEvents, Flat, PackageOps, PartsOf, AllAccepted, CloseCore, MayFinish;
    PackageRuns(lib, expected, ms1);
    PackageRuns(lib, expected, ms2);
  }
}
