/** The zip-v1 chunker, and the relocation of large members (src/chunker/zip/chunker.rs). */
module ZipChunker {
  import opened Bytes
  import opened Gear
  import opened Assembler
  import opened LargeUnits
  import opened ZipRecords
  import opened ZipWalker
  import opened ZipScan
  import opened ZipDescriptors
  import opened ZipRoundTrip

  // The chunker on values.

  datatype Chunking = Chunking(walk: Walk, asm: Assembly)
  datatype Fed = Fed(next: Chunking, chunks: seq<seq<Byte>>) | Faulted(before: seq<seq<Byte>>, fault: ZipFault)

  const NEW_CHUNKING := Chunking(START, FRESH)

  /** One byte: a boundary if the walker stands at one, the byte itself, a realignment if it opened a large member. */
  function Feed(p: Params, c: Chunking, b: Byte): (r: Fed)
    requires ValidState(c.walk.state)
    ensures r.Fed? ==> ValidState(r.next.walk.state)
  {
    var begun := if AtMemberBoundary(c.walk) then Apply(p, c.asm, Boundary) else Out(c.asm, []);
    match Consume(c.walk, b)
    case Stop(fault) => Faulted(begun.chunks, fault)
    case Go(walk, _, large) =>
      var pushed := Apply(p, begun.next, Push(b));
      var aligned := if large.Some? then Apply(p, pushed.next, LargeUnit(large.value)) else Out(pushed.next, []);
      Fed(Chunking(walk, aligned.next), begun.chunks + pushed.chunks + aligned.chunks)
  }

  function FeedAll(p: Params, c: Chunking, s: seq<Byte>): (r: Fed)
    requires ValidState(c.walk.state)
    ensures r.Fed? ==> ValidState(r.next.walk.state)
  {
    if s == [] then Fed(c, [])
    else
      match FeedAll(p, c, s[..|s| - 1])
      case Faulted(before, f) => Faulted(before, f)
      case Fed(mid, chunks) =>
        match Feed(p, mid, s[|s| - 1])
        case Faulted(more, f) => Faulted(chunks + more, f)
        case Fed(next, more) => Fed(next, chunks + more)
  }

  datatype Problem = StreamRejected | Malformed(fault: ZipFault)

  class ZipChunker {
    var walker: Walker
    const assembler: BoundaryAssembler
    var rejected: bool

    ghost predicate Valid()
      reads this, walker, walker.fixed, assembler, assembler.gear
    {
      assembler.Valid() && (!rejected ==> walker.Valid())
    }

    ghost function View(): Chunking
      requires Valid() && !rejected
      reads this, walker, walker.fixed, assembler, assembler.gear
    {
      Chunking(walker.View(), assembler.View())
    }

    constructor (table: Table)
      ensures Valid() && !rejected && View() == NEW_CHUNKING && assembler.Parameters() == Params(table, MIN_BYTES)
      ensures fresh(walker) && fresh(walker.fixed) && fresh(assembler) && fresh(assembler.gear)
    {
      walker := new Walker();
      assembler := new BoundaryAssembler(table, MIN_BYTES);
      rejected := false;
    }

    method PushByte(b: Byte) returns (chunks: seq<seq<Byte>>, problem: Option<Problem>)
      requires Valid() && !rejected
      modifies this`rejected, walker, walker.fixed, assembler, assembler.gear
      ensures Valid()
      ensures match Feed(assembler.Parameters(), old(View()), b)
              case Faulted(before, f) => rejected && chunks == before && problem == Some(Malformed(f))
              case Fed(next, all) => !rejected && View() == next && chunks == all && problem == None
    {
      hide Consume, Apply, ValidState;
      chunks := [];
      if walker.AtBoundary() {
        chunks := assembler.UnitBoundary();
      }
      var fault, events, large := walker.ConsumeByte(b);
      if fault.Some? {
        rejected := true;
        assembler.Clear();
        return chunks, Some(Malformed(fault.value));
      }
      var pushed := assembler.PushByte(b);
      var aligned := [];
      if large.Some? {
        aligned := assembler.LargeUnitStarts(large.value);
      }
      chunks := chunks + pushed + aligned;
      problem := None;
    }

    method PushWindow(window: seq<Byte>) returns (chunks: seq<seq<Byte>>, problem: Option<Problem>)
      requires Valid()
      modifies this`rejected, walker, walker.fixed, assembler, assembler.gear
      ensures Valid()
      ensures old(rejected) ==> rejected && chunks == [] && problem == Some(StreamRejected)
      ensures !old(rejected) ==>
                match FeedAll(assembler.Parameters(), old(View()), window)
                case Faulted(before, f) => rejected && chunks == before && problem == Some(Malformed(f))
                case Fed(next, all) => !rejected && View() == next && chunks == all && problem == None
    {
      hide Feed;
      chunks := [];
      if rejected {
        return [], Some(StreamRejected);
      }
      for i := 0 to |window|
        invariant Valid() && !rejected
        invariant FeedAll(assembler.Parameters(), old(View()), window[..i]) == Fed(View(), chunks)
      {
        assert window[..i + 1][..i] == window[..i];
        var one;
        one, problem := PushByte(window[i]);
        chunks := chunks + one;
        if problem.Some? {
          FaultsFrom(assembler.Parameters(), old(View()), window, i + 1);
          return;
        }
      }
      assert window[..|window|] == window;
      problem := None;
    }

    method Finish() returns (chunks: seq<seq<Byte>>, problem: Option<Problem>)
      requires Valid()
      modifies this, assembler, assembler.gear
      ensures Valid() && (walker == old(walker) || (fresh(walker) && fresh(walker.fixed)))
      ensures if old(rejected) then rejected && chunks == [] && problem == Some(StreamRejected)
              else if !MayFinish(old(View()).walk) then rejected && chunks == [] && problem == Some(Malformed(Truncated))
              else !rejected && problem == None && chunks == Flush(old(View()).asm)
                   && View() == Chunking(START, Assembly([], [], old(View()).asm.gate))
    {
      chunks := [];
      if rejected {
        return [], Some(StreamRejected);
      }
      if !walker.Finished() {
        rejected := true;
        assembler.Clear();
        return [], Some(Malformed(Truncated));
      }
      chunks := assembler.Finish();
      walker := new Walker();
      problem := None;
    }
  }

  lemma {:induction false} FaultsFrom(p: Params, c: Chunking, s: seq<Byte>, i: nat)
    requires ValidState(c.walk.state) && i <= |s| && FeedAll(p, c, s[..i]).Faulted?
    ensures FeedAll(p, c, s) == FeedAll(p, c, s[..i])
  {
    hide Feed;
    if i == |s| {
      assert s[..i] == s;
    } else {
      var front := s[..|s| - 1];
      assert front[..i] == s[..i];
      FaultsFrom(p, c, front, i);
    }
  }

  // The chunker as walker and assembler composed.

  function ByteOps(w: Walk, b: Byte, large: Option<nat>): seq<Op> {
    (if AtMemberBoundary(w) then [Boundary] else []) + [Push(b)] + (if large.Some? then [LargeUnit(large.value)] else [])
  }

  /** The operations a walk over `s` causes, as long as it does not fault. */
  function Ops(w: Walk, s: seq<Byte>): seq<Op>
    requires ValidState(w.state)
  {
    if s == [] then []
    else
      var front := s[..|s| - 1];
      match Run(w, front)
      case None => Ops(w, front)
      case Some(r) =>
        match Consume(r.next, s[|s| - 1])
        case Stop(_) => Ops(w, front)
        case Go(_, _, large) => Ops(w, front) + ByteOps(r.next, s[|s| - 1], large)
  }

  /** The chunks of a whole accepted stream. */
  function StreamChunks(p: Params, s: seq<Byte>): seq<seq<Byte>> {
    AllChunks(p, Ops(START, s))
  }

  lemma FeedIsOps(p: Params, c: Chunking, b: Byte)
    requires ValidState(c.walk.state) && Consume(c.walk, b).Go?
    ensures var step := Consume(c.walk, b);
            var out := Assemble(p, c.asm, ByteOps(c.walk, b, step.large));
            Feed(p, c, b) == Fed(Chunking(step.next, out.next), out.chunks)
  {
    hide Consume, Apply, ValidState;
    var large := Consume(c.walk, b).large;
    var begin := if AtMemberBoundary(c.walk) then [Boundary] else [];
    var align := if large.Some? then [LargeUnit(large.value)] else [];
    AssembleAppend(p, c.asm, begin + [Push(b)], align);
    AssembleAppend(p, c.asm, begin, [Push(b)]);
    var begun := Assemble(p, c.asm, begin);
    AssembleOne(p, c.asm, Boundary);
    AssembleOne(p, begun.next, Push(b));
    if large.Some? {
      AssembleOne(p, Assemble(p, c.asm, begin + [Push(b)]).next, LargeUnit(large.value));
    }
  }

  /** Feeding a stream is walking it and running the operations. */
  lemma {:induction false} FeedIsRun(p: Params, s: seq<Byte>)
    requires Run(START, s).Some?
    ensures var out := Assemble(p, FRESH, Ops(START, s));
            FeedAll(p, NEW_CHUNKING, s) == Fed(Chunking(Run(START, s).value.next, out.next), out.chunks)
  {
    hide Consume, Apply, Feed, ByteOps;
    if s != [] {
      var front, b := s[..|s| - 1], s[|s| - 1];
      FeedIsRun(p, front);
      var w := Run(START, front).value.next;
      FeedIsOps(p, FeedAll(p, NEW_CHUNKING, front).next, b);
      AssembleAppend(p, FRESH, Ops(START, front), ByteOps(w, b, Consume(w, b).large));
    }
  }

  lemma {:induction false} OpsAppend(w: Walk, x: seq<Byte>, y: seq<Byte>)
    requires ValidState(w.state) && Run(w, x).Some?
    ensures Ops(w, x + y) == Ops(w, x) + Ops(Run(w, x).value.next, y)
  {
    hide Consume, ByteOps, Run;
    if y == [] {
      assert x + y == x;
    } else {
      var front, b := y[..|y| - 1], y[|y| - 1];
      assert (x + y)[..|x + y| - 1] == x + front;
      OpsAppend(w, x, front);
      RunAppend(w, x, front);
    }
  }

  lemma OpsOne(w: Walk, s: seq<Byte>, k: nat)
    requires ValidState(w.state) && k < |s| && Run(w, s[..k]).Some? && Consume(Run(w, s[..k]).value.next, s[k]).Go?
    ensures var mid := Run(w, s[..k]).value.next;
            Ops(w, s[..k + 1]) == Ops(w, s[..k]) + ByteOps(mid, s[k], Consume(mid, s[k]).large)
  {
    hide Consume, ByteOps, Run;
    assert s[..k + 1][..k] == s[..k];
  }

  lemma OpsNothing(w: Walk)
    requires ValidState(w.state)
    ensures Ops(w, []) == []
  {
  }

  // Operations of the parts of a member.

  lemma SignatureOps(w: Walk, k: nat)
    requires w.state == Signature([]) && w.phase == Members && 0 < k <= 4
    ensures Ops(w, LOCAL_HEADER[..k]) == [Boundary] + Pushes(LOCAL_HEADER[..k])
    ensures k < 4 ==> Run(w, LOCAL_HEADER[..k]) == Some(Ran(w.(state := Signature(LOCAL_HEADER[..k]), offset := w.offset + k), []))
    decreases k
  {
    hide Run, Consume, Ops, Pushes;
    var sig := LOCAL_HEADER;
    RunNothing(w);
    assert sig[..0] == [];
    if k == 1 {
      SignatureByte(w, sig, 0);
      ConsumeSignature(w, sig[0]);
      OpsOne(w, sig, 0);
      OpsNothing(w);
      PushesSnoc(sig, 0);
      PushesNone();
    } else {
      SignatureOps(w, k - 1);
      var x := w.(state := Signature(sig[..k - 1]), offset := w.offset + k - 1);
      SignatureGoes(x, k - 1);
      if k < 4 {
        SignatureByte(w, sig, k - 1);
      }
      OpsOne(w, sig, k - 1);
      PushesSnoc(sig, k - 1);
    }
  }

  lemma PushesNone()
    ensures Pushes([]) == []
  {
  }

  lemma SignatureGoes(x: Walk, k: nat)
    requires 0 < k < 4 && x.state == Signature(LOCAL_HEADER[..k]) && x.phase == Members
    ensures Consume(x, LOCAL_HEADER[k]).Go? && Consume(x, LOCAL_HEADER[k]).large == None && !AtMemberBoundary(x)
  {
    assert LOCAL_HEADER[..k] + [LOCAL_HEADER[k]] == LOCAL_HEADER[..k + 1];
    assert LOCAL_HEADER[..4] == LOCAL_HEADER;
  }

  lemma {:induction false} FixedOps(w: Walk, kind: Record, fixed: seq<Byte>, k: nat)
    requires w.state == Fixed(kind, []) && |fixed| == FixedLen(kind) && k < |fixed|
    ensures Ops(w, fixed[..k]) == Pushes(fixed[..k])
  {
    hide Run, Consume, FixedLen, Ops, Pushes;
    if k == 0 {
      assert fixed[..0] == [];
      OpsNothing(w);
      PushesNone();
    } else {
      FixedOps(w, kind, fixed, k - 1);
      FixedCollects(w, kind, fixed, k - 1);
      var x := w.(state := Fixed(kind, fixed[..k - 1]), offset := w.offset + k - 1);
      ConsumeFixed(x, fixed[k - 1]);
      OpsOne(w, fixed, k - 1);
      PushesSnoc(fixed, k - 1);
    }
  }

  lemma {:induction false} VariableOps(w: Walk, part: Variable, v: seq<Byte>, k: nat)
    requires w.state == VariablePart(part, VariableLen(part), []) && |v| == VariableLen(part) && k < |v|
    ensures Ops(w, v[..k]) == Pushes(v[..k])
  {
    hide Run, Consume, VariableLen, Ops, Pushes;
    if k == 0 {
      assert v[..0] == [];
      OpsNothing(w);
      PushesNone();
    } else {
      VariableOps(w, part, v, k - 1);
      VariableCollects(w, part, v, k - 1);
      var x := w.(state := VariablePart(part, VariableLen(part), v[..k - 1]), offset := w.offset + k - 1);
      ConsumeVariable(x, v[k - 1]);
      OpsOne(w, v, k - 1);
      PushesSnoc(v, k - 1);
    }
  }

  lemma {:induction false} DataOps(w: Walk, data: seq<Byte>, uncompressed: nat, crc: nat, codec: nat, descriptor: Option<bool>, k: nat)
    requires data != [] && w.state == Data(|data|, |data|, uncompressed, crc, codec, descriptor) && k <= |data|
    ensures Ops(w, data[..k]) == Pushes(data[..k])
  {
    hide Run, Ops, Pushes;
    if k == 0 {
      assert data[..0] == [];
      OpsNothing(w);
      PushesNone();
    } else {
      DataOps(w, data, uncompressed, crc, codec, descriptor, k - 1);
      DataCounts(w, data, uncompressed, crc, codec, descriptor, k - 1);
      OpsOne(w, data, k - 1);
      PushesSnoc(data, k - 1);
    }
  }

  lemma {:induction false} DescriptorOps(w: Walk, zip64: bool, dataLen: nat, codec: nat, d: seq<Byte>, k: nat)
    requires w.state == Descriptor(zip64, dataLen, codec, []) && Describes(zip64, d) && k <= |d| && Run(w, d).Some?
    ensures Ops(w, d[..k]) == Pushes(d[..k])
  {
    hide Run, Ops, Pushes, Describes, Consume;
    if k == 0 {
      assert d[..0] == [];
      OpsNothing(w);
      PushesNone();
    } else {
      DescriptorOps(w, zip64, dataLen, codec, d, k - 1);
      DescriptorCollects(w, zip64, dataLen, codec, d, k - 1);
      var x := w.(state := Descriptor(zip64, dataLen, codec, d[..k - 1]), offset := w.offset + k - 1);
      DescriptorByte(w, x, d, k - 1);
      OpsOne(w, d, k - 1);
      PushesSnoc(d, k - 1);
    }
  }

  /** A byte of a descriptor that is accepted begins nothing and reports no large member. */
  lemma DescriptorByte(w: Walk, x: Walk, d: seq<Byte>, k: nat)
    requires ValidState(w.state) && k < |d| && Run(w, d).Some? && Run(w, d[..k]) == Some(Ran(x, [])) && x.state.Descriptor?
    ensures Consume(x, d[k]).Go? && Consume(x, d[k]).large == None && !AtMemberBoundary(x)
  {
    hide Run;
    assert d == d[..k + 1] + d[k + 1..] && d[..k + 1][..k] == d[..k];
    RunAppend(w, d[..k + 1], d[k + 1..]);
    RunStep(w, d, k);
    NoMark(x, d[k]);
  }

  lemma NoMark(x: Walk, b: Byte)
    requires x.state.Descriptor?
    ensures Consume(x, b).Go? ==> Consume(x, b).large == None
  {
  }

  // A large member: its size known from its header, and at least the minimum chunk size of data.

  /** `descriptor` is the descriptor after the data, empty for a member without one. */
  datatype LargeMember = LargeMember(fixed: seq<Byte>, name: seq<Byte>, extra: seq<Byte>, data: seq<Byte>, descriptor: seq<Byte>)

  predicate IsLarge(m: LargeMember) {
    && |m.fixed| == LOCAL_FIXED
    && var h := ParseLocal(m.fixed);
       && h.nameLen == |m.name| && h.extraLen == |m.extra|
       && LocalSizes(h, m.extra).Ok? && LocalSizes(h, m.extra).value.compressed == |m.data| >= MIN_BYTES
       && Check(LocalSizes(h, m.extra).value, h.codec).None?
       && if h.hasDescriptor then IsDescribed(NeedsZip64(h), h.codec, m.data, m.descriptor) else m.descriptor == []
  }

  /** A descriptor that the walker takes for the end of such data. */
  predicate IsDescribed(zip64: bool, codec: nat, data: seq<Byte>, d: seq<Byte>) {
    Describes(zip64, d) && var sizes := BodySizes(zip64, BodyOf(zip64, d)); sizes.compressed == |data| && Check(sizes, codec).None?
  }

  /** What the member holds after its header. */
  function PayloadOf(m: LargeMember): seq<Byte> {
    m.data + m.descriptor
  }

  function HeaderOf(m: LargeMember): seq<Byte> {
    LOCAL_HEADER + m.fixed + (m.name + m.extra)
  }

  function UnitOf(m: LargeMember): seq<Byte> {
    HeaderOf(m) + PayloadOf(m)
  }

  /** Where the walker is once a large member's header is in. */
  function Entered(w: Walk, m: LargeMember): Walk
    requires IsLarge(m)
  {
    var h := ParseLocal(m.fixed);
    var sizes := LocalSizes(h, m.extra).value;
    w.(localCount := w.localCount + 1, offset := w.offset + |HeaderOf(m)|,
       state := Data(sizes.compressed, sizes.compressed, sizes.uncompressed, h.crc, h.codec,
                     if h.hasDescriptor then Some(NeedsZip64(h)) else None))
  }

  lemma EnterLarge(w: Walk, m: LargeMember)
    requires IsLarge(m)
    ensures var h := ParseLocal(m.fixed);
            var step := EnterMember(w, h, m.name, m.extra);
            step.Go? && step.large == Some(|HeaderOf(m)|)
            && step.next == w.(state := Entered(w, m).state)
  {
    hide ParseLocal, LocalSizes, Check;
    RawIsKnown(ParseLocal(m.fixed), m.extra);
  }

  /** A header that gives a size has not left it to a descriptor. */
  lemma RawIsKnown(h: LocalHeader, extra: seq<Byte>)
    requires LocalSizes(h, extra).Ok? && 0 < LocalSizes(h, extra).value.compressed
    ensures h.compressed != 0
  {
  }

  lemma HeaderRuns(w: Walk, m: LargeMember)
    requires w.state == Signature([]) && w.phase == Members && IsLarge(m)
    ensures Run(w, HeaderOf(m)).Some? && Run(w, HeaderOf(m)).value.next == Entered(w, m)
  {
    hide Run, ParseLocal, EnterMember, LocalSizes, Check;
    LocalRun(w, ParseLocal(m.fixed), m.fixed, m.name, m.extra);
    EnterLarge(w.(localCount := w.localCount + 1), m);
  }

  /** The last byte of a large member's header reports it, wherever that byte is. */
  lemma LastFixed(w: Walk, m: LargeMember)
    requires w.state == Fixed(RLocal, []) && w.phase == Members && IsLarge(m)
    ensures var r := Run(w, m.fixed);
            && r.Some?
            && Ops(w, m.fixed) == Pushes(m.fixed) + (if m.name + m.extra == [] then [LargeUnit(|HeaderOf(m)|)] else [])
            && (m.name + m.extra != [] ==>
                  r.value.next.state == VariablePart(LocalPart(ParseLocal(m.fixed)), |m.name + m.extra|, []))
  {
    hide Run, ParseLocal, Ops, Pushes, EnterMember, Consume, LocalSizes, Check;
    var last := LOCAL_FIXED - 1;
    var h := ParseLocal(m.fixed);
    LocalFixedRun(w, h, m.fixed);
    FixedOps(w, RLocal, m.fixed, last);
    FixedCollects(w, RLocal, m.fixed, last);
    var x := w.(state := Fixed(RLocal, m.fixed[..last]), offset := w.offset + last);
    assert m.fixed[..last] + [m.fixed[last]] == m.fixed == m.fixed[..last + 1];
    ConsumeFixed(x, m.fixed[last]);
    if m.name + m.extra == [] {
      assert m.name == [] && m.extra == [];
      EnterLarge(x.(state := Signature([]), localCount := x.localCount + 1), m);
      EnterLarge(w.(localCount := w.localCount + 1, state := Signature([]), offset := w.offset + LOCAL_FIXED), m);
      var none: seq<Byte> := [];
      assert none[..h.nameLen] == [] && none[h.nameLen..] == [];
    }
    OpsOne(w, m.fixed, last);
    PushesSnoc(m.fixed, last);
  }

  lemma LastVariable(w: Walk, m: LargeMember)
    requires IsLarge(m) && m.name + m.extra != []
    requires w.state == VariablePart(LocalPart(ParseLocal(m.fixed)), |m.name + m.extra|, [])
    ensures Ops(w, m.name + m.extra) == Pushes(m.name + m.extra) + [LargeUnit(|HeaderOf(m)|)]
  {
    hide Run, ParseLocal, Ops, Pushes, EnterMember, Consume, LocalSizes, Check;
    var h, v := ParseLocal(m.fixed), m.name + m.extra;
    var last := |v| - 1;
    VariableOps(w, LocalPart(h), v, last);
    VariableCollects(w, LocalPart(h), v, last);
    var x := w.(state := VariablePart(LocalPart(h), |v|, v[..last]), offset := w.offset + last);
    assert v[..last] + [v[last]] == v == v[..last + 1];
    assert v[..h.nameLen] == m.name && v[h.nameLen..] == m.extra;
    ConsumeVariable(x, v[last]);
    EnterLarge(x.(state := Signature([])), m);
    OpsOne(w, v, last);
    PushesSnoc(v, last);
  }

  /** The walk over a large member's header: a boundary, its bytes, the realignment. */
  lemma HeaderOps(w: Walk, m: LargeMember)
    requires w.state == Signature([]) && w.phase == Members && IsLarge(m)
    ensures Ops(w, HeaderOf(m)) == [Boundary] + Pushes(HeaderOf(m)) + [LargeUnit(|HeaderOf(m)|)]
  {
    hide Run, ParseLocal, Ops, Pushes, IsLarge;
    var v := m.name + m.extra;
    var w1 := w.(state := Fixed(RLocal, []), offset := w.offset + 4);
    LocalSignature(w);
    SignatureOps(w, 4);
    assert LOCAL_HEADER[..4] == LOCAL_HEADER;
    LastFixed(w1, m);
    OpsAppend(w, LOCAL_HEADER, m.fixed);
    RunAppend(w, LOCAL_HEADER, m.fixed);
    PushesSplit(LOCAL_HEADER, m.fixed);
    PushesSplit(LOCAL_HEADER + m.fixed, v);
    PushesNone();
    var a, b, c, l := [Boundary], Pushes(LOCAL_HEADER), Pushes(m.fixed), [LargeUnit(|HeaderOf(m)|)];
    if v == [] {
      assert HeaderOf(m) == LOCAL_HEADER + m.fixed;
      assert a + b + (c + l) == a + (b + c) + l;
    } else {
      var w2 := Run(w1, m.fixed).value.next;
      LastVariable(w2, m);
      OpsAppend(w, LOCAL_HEADER + m.fixed, v);
      assert c + [] == c;
      assert a + b + c + (Pushes(v) + l) == a + (b + c + Pushes(v)) + l;
    }
  }

  /** After its header, the walk over a large member is its bytes. */
  lemma PayloadRuns(w: Walk, m: LargeMember)
    requires IsLarge(m) && w.state == Entered(w, m).state
    ensures Ops(w, PayloadOf(m)) == Pushes(PayloadOf(m))
    ensures Run(w, PayloadOf(m)).Some? && Run(w, PayloadOf(m)).value.next.state == Signature([])
    ensures Run(w, PayloadOf(m)).value.next.phase == w.phase
  {
    hide Run, ParseLocal, Ops, Pushes, LocalSizes, Check, BodySizes, Describes, HeaderOf;
    var h, d, s := ParseLocal(m.fixed), m.descriptor, w.state;
    DataOps(w, m.data, s.uncompressed, s.crc, s.codec, s.descriptor, |m.data|);
    assert m.data[..|m.data|] == m.data;
    if h.hasDescriptor {
      DescribedDataRun(w, m.data, s.uncompressed, s.crc, s.codec, NeedsZip64(h));
      var next := Run(w, m.data).value.next;
      DescriptorRun(next, NeedsZip64(h), |m.data|, s.codec, d);
      DescriptorOps(next, NeedsZip64(h), |m.data|, s.codec, d, |d|);
      assert d[..|d|] == d;
      OpsAppend(w, m.data, d);
      RunAppend(w, m.data, d);
      PushesSplit(m.data, d);
    } else {
      DataRun(w, m.data, s.uncompressed, s.crc, s.codec);
      assert m.data + [] == m.data;
    }
  }

  /** The walk over a large member is the operations of a large unit, and ends at a member boundary. */
  lemma MemberOps(w: Walk, m: LargeMember)
    requires w.state == Signature([]) && w.phase == Members && IsLarge(m)
    ensures Ops(w, UnitOf(m)) == UnitOps(HeaderOf(m), PayloadOf(m))
    ensures Run(w, UnitOf(m)).Some? && AtMemberBoundary(Run(w, UnitOf(m)).value.next)
  {
    hide Run, ParseLocal, Ops, Pushes, HeaderOf, PayloadOf, IsLarge, LocalSizes, Check;
    HeaderOps(w, m);
    HeaderRuns(w, m);
    OpsAppend(w, HeaderOf(m), PayloadOf(m));
    RunAppend(w, HeaderOf(m), PayloadOf(m));
    PayloadRuns(Entered(w, m), m);
  }

  // Relocation.

  predicate Accepts(s: seq<Byte>) {
    Run(START, s).Some? && MayFinish(Run(START, s).value.next)
  }

  /** A member starts at this position of a stream. */
  predicate MemberStarts(pre: seq<Byte>) {
    Run(START, pre).Some? && AtMemberBoundary(Run(START, pre).value.next)
  }

  lemma {:induction false} NoGates(w: Walk, s: seq<Byte>)
    requires ValidState(w.state)
    ensures forall i :: 0 <= i < |Ops(w, s)| ==> !Ops(w, s)[i].SetGate?
  {
    hide Consume, Run;
    if s != [] {
      NoGates(w, s[..|s| - 1]);
    }
  }

  lemma {:induction false} PushedOps(w: Walk, s: seq<Byte>)
    requires ValidState(w.state) && Run(w, s).Some?
    ensures Pushed(Ops(w, s)) == s
  {
    hide Consume, ByteOps, Pushed;
    if s == [] {
      PushedNone();
    } else {
      var front, b := s[..|s| - 1], s[|s| - 1];
      PushedOps(w, front);
      var mid := Run(w, front).value.next;
      PushedByte(mid, b, Consume(mid, b).large);
      PushedAppend(Ops(w, front), ByteOps(mid, b, Consume(mid, b).large));
      assert front + [b] == s;
    }
  }

  lemma PushedNone()
    ensures Pushed([]) == []
  {
  }

  lemma PushedOne(op: Op)
    ensures Pushed([op]) == match op case Push(b) => [b] case _ => []
  {
    assert [op][..0] == [];
  }

  lemma PushedByte(w: Walk, b: Byte, large: Option<nat>)
    ensures Pushed(ByteOps(w, b, large)) == [b]
  {
    hide Pushed, AtMemberBoundary;
    var begin := if AtMemberBoundary(w) then [Boundary] else [];
    var align := if large.Some? then [LargeUnit(large.value)] else [];
    PushedAppend(begin + [Push(b)], align);
    PushedAppend(begin, [Push(b)]);
    PushedNone();
    PushedOne(Boundary);
    PushedOne(Push(b));
    if large.Some? { PushedOne(LargeUnit(large.value)); }
  }

  /** What follows a member starts with its boundary. */
  lemma {:induction false} NextBoundary(w: Walk, s: seq<Byte>)
    requires AtMemberBoundary(w) && Run(w, s).Some?
    ensures s == [] ==> Ops(w, s) == []
    ensures s != [] ==> Ops(w, s) != [] && Ops(w, s)[0] == Boundary
  {
    hide Consume;
    if |s| == 1 {
      assert s[..0] == [];
    } else if |s| > 1 {
      NextBoundary(w, s[..|s| - 1]);
    }
  }

  lemma OpsAroundMember(pre: seq<Byte>, m: LargeMember, post: seq<Byte>) returns (more: seq<Op>)
    requires Accepts(pre + UnitOf(m) + post) && MemberStarts(pre) && IsLarge(m)
    ensures AfterUnit(more) && Ops(START, pre + UnitOf(m) + post) == Ops(START, pre) + UnitOps(HeaderOf(m), PayloadOf(m)) + more
  {
    hide Run, Ops, UnitOf, HeaderOf, IsLarge, UnitOps;
    var w := Run(START, pre).value.next;
    MemberOps(w, m);
    RunAppend(START, pre, UnitOf(m));
    var after := Run(w, UnitOf(m)).value.next;
    RunAppend(START, pre + UnitOf(m), post);
    more := Ops(after, post);
    OpsAppend(START, pre, UnitOf(m));
    OpsAppend(START, pre + UnitOf(m), post);
    NextBoundary(after, post);
  }

  /** The bytes the assembler has buffered, once the boundary before the member at `|pre|` is reported. */
  function BufferAt(p: Params, pre: seq<Byte>): seq<Byte> {
    Apply(p, Assemble(p, FRESH, Ops(START, pre)).next, Boundary).next.buffer
  }

  /**
   * In every accepted archive that contains a large member whose header no content cut falls into, the member's chunks
   * start exactly at its local header and are the ones its own bytes decide; only the last may be extended by what follows.
   */
  lemma LargeMemberRelocates(p: Params, pre: seq<Byte>, m: LargeMember, post: seq<Byte>)
    requires ValidParams(p) && Accepts(pre + UnitOf(m) + post) && MemberStarts(pre) && IsLarge(m)
    requires HeaderUncut(p, BufferAt(p, pre), HeaderOf(m))
    ensures HoldsUnit(StreamChunks(p, pre + UnitOf(m) + post), |pre|, UnitChunks(p, HeaderOf(m), PayloadOf(m)))
  {
    hide Run, Ops, UnitOf, UnitOps, HoldsUnit, UnitChunks, HeaderUncut, Apply, ParseLocal, LocalSizes, Check;
    var more := OpsAroundMember(pre, m, post);
    PushedOps(START, pre);
    NoGates(START, pre);
    NoGateOps(p, FRESH, Ops(START, pre));
    UnitChunked(p, Ops(START, pre), HeaderOf(m), PayloadOf(m), more);
  }

  /** A large member begins a chunk exactly when no content cut falls inside its header, or nothing was buffered before it. */
  lemma LargeMemberBeginsChunk(p: Params, pre: seq<Byte>, m: LargeMember, post: seq<Byte>)
    requires ValidParams(p) && Accepts(pre + UnitOf(m) + post) && MemberStarts(pre) && IsLarge(m)
    ensures ChunkStartsAt(StreamChunks(p, pre + UnitOf(m) + post), |pre|) <==>
            HeaderUncut(p, BufferAt(p, pre), HeaderOf(m)) || BufferAt(p, pre) == []
  {
    hide Run, Ops, UnitOf, UnitOps, HeaderUncut, Apply, UnitChunks, ChunkStartsAt, IsLarge, HoldsUnit;
    if HeaderUncut(p, BufferAt(p, pre), HeaderOf(m)) {
      LargeMemberRelocates(p, pre, m, post);
      HeldUnitStarts(StreamChunks(p, pre + UnitOf(m) + post), |pre|, UnitChunks(p, HeaderOf(m), PayloadOf(m)));
    } else {
      var more := OpsAroundMember(pre, m, post);
      PushedOps(START, pre);
      NoGates(START, pre);
      NoGateOps(p, FRESH, Ops(START, pre));
      CutUnitDecides(p, Ops(START, pre), HeaderOf(m), PayloadOf(m), more);
    }
  }
}
