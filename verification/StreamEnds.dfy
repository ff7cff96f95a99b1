/** How many chunks a byte, and the end of a stream, bring (src/chunker/assembler.rs, src/stream/chunker.rs). */
module StreamEnds {
  import opened Bytes
  import opened Gear
  import opened Assembler
  import opened LargeUnits
  import opened IsobmffWalker
  import opened IsobmffGrammar
  import opened IsobmffChunker
  import opened Relocation
  import Z = ZipWalker
  import R = ZipRecords
  import S = ZipScan
  import C = ZipChunker

  // One byte brings at most one chunk.

  /** What a chunker does with one byte: a boundary before it, the byte, a large unit's mark after it. */
  function ByteSteps(begin: bool, b: Byte, large: Option<nat>): seq<Op> {
    (if begin then [Boundary] else []) + [Push(b)] + (if large.Some? then [LargeUnit(large.value)] else [])
  }

  lemma OneChunkPerByte(p: Params, a: Assembly, begin: bool, b: Byte, large: Option<nat>)
    requires ValidParams(p) && (large.Some? ==> 0 < large.value)
    ensures |Assemble(p, a, ByteSteps(begin, b, large)).chunks| <= 1
  {
    hide Apply, Assemble;
    var one := if begin then Apply(p, a, Boundary) else Out(a, []);
    var two := Apply(p, one.next, Push(b));
    var three := if large.Some? then Apply(p, two.next, LargeUnit(large.value)) else Out(two.next, []);
    StepsAre(p, a, begin, b, large);
    BoundaryLeaves(p, a);
    PushLeaves(p, one.next, b);
    if large.Some? { LargeLeaves(p, two.next, large.value); }
  }

  lemma StepsAre(p: Params, a: Assembly, begin: bool, b: Byte, large: Option<nat>)
    ensures var one := if begin then Apply(p, a, Boundary) else Out(a, []);
            var two := Apply(p, one.next, Push(b));
            var three := if large.Some? then Apply(p, two.next, LargeUnit(large.value)) else Out(two.next, []);
            Assemble(p, a, ByteSteps(begin, b, large)) == Out(three.next, one.chunks + two.chunks + three.chunks)
  {
    hide Apply, Assemble;
    var first, last := if begin then [Boundary] else [], if large.Some? then [LargeUnit(large.value)] else [];
    EndOfRun(p, a, []);
    AssembleAppend(p, a, first, [Push(b)]);
    AssembleAppend(p, a, first + [Push(b)], last);
    if begin { AssembleOne(p, a, Boundary); }
    var one := Assemble(p, a, first);
    AssembleOne(p, one.next, Push(b));
    var two := Assemble(p, a, first + [Push(b)]);
    EndOfRun(p, two.next, []);
    if large.Some? { AssembleOne(p, two.next, LargeUnit(large.value)); }
  }

  /** A boundary that emits a chunk leaves nothing buffered. */
  lemma BoundaryLeaves(p: Params, a: Assembly)
    ensures var out := Apply(p, a, Boundary); |out.chunks| <= 1 && (out.chunks != [] ==> out.next.buffer == [])
  {
  }

  /** A byte that emits a chunk leaves nothing buffered either, and needs more than itself to do it. */
  lemma PushLeaves(p: Params, a: Assembly, b: Byte)
    ensures var out := Apply(p, a, Push(b));
            && |out.chunks| <= 1 && (out.chunks != [] ==> out.next.buffer == [])
            && (a.buffer == [] ==> out.chunks == [] && out.next.buffer == [b])
  {
  }

  /** A mark emits a chunk only if more than the unit's header is buffered. */
  lemma LargeLeaves(p: Params, a: Assembly, n: nat)
    ensures var out := Apply(p, a, LargeUnit(n)); |out.chunks| <= 1 && (out.chunks != [] ==> n < |a.buffer|)
  {
  }

  /** No byte makes the ISO BMFF chunker emit two chunks. */
  lemma IsobmffByte(p: Params, c: Chunking, b: Byte)
    requires ValidParams(p)
    ensures |FeedByte(p, c, b).chunks| <= 1
  {
    hide Apply, Assemble, Consume;
    var step := Consume(c.walk, b);
    BoundaryLeaves(p, c.asm);
    if step.Go? {
      MarkPositive(c.walk, b);
      OneChunkPerByte(p, c.asm, AtBoundary(c.walk), b, step.large);
      StepsAre(p, c.asm, AtBoundary(c.walk), b, step.large);
    }
  }

  lemma MarkPositive(w: Walk, b: Byte)
    ensures Consume(w, b).Go? && Consume(w, b).large.Some? ==> 0 < Consume(w, b).large.value
  {
  }

  /** Nor the ZIP chunker. */
  lemma ZipByte(p: Params, c: C.Chunking, b: Byte)
    requires ValidParams(p) && Z.ValidState(c.walk.state)
    ensures var r := C.Feed(p, c, b); |if r.Fed? then r.chunks else r.before| <= 1
  {
    hide Apply, Assemble, Z.Consume, Z.ValidState;
    var step := Z.Consume(c.walk, b);
    BoundaryLeaves(p, c.asm);
    if step.Go? {
      ZipMarkPositive(c.walk, b);
      OneChunkPerByte(p, c.asm, Z.AtMemberBoundary(c.walk), b, step.large);
      StepsAre(p, c.asm, Z.AtMemberBoundary(c.walk), b, step.large);
    }
  }

  lemma ZipMarkPositive(w: Z.Walk, b: Byte)
    requires Z.ValidState(w.state)
    ensures Z.Consume(w, b).Go? && Z.Consume(w, b).large.Some? ==> 0 < Z.Consume(w, b).large.value
  {
    hide Z.ScanPending, R.ParseLocal, R.ParseCentral, R.ParseEnd, R.ParseZip64End, R.LocalSizes, R.CentralFacts, Z.ReconcileEnd;
  }

  // The end of a stream brings none, one or two.

  /** Finishing emits two chunks exactly when one is held and something is buffered after it. */
  lemma FlushesTwo(a: Assembly)
    ensures |Flush(a)| == (if a.held != [] then 1 else 0) + (if a.buffer != [] then 1 else 0)
  {
  }

  /** Nothing is emitted before something is held. */
  predicate HeldFirst(out: Out) {
    out.next.held == [] ==> out.chunks == []
  }

  lemma HoldsFirst(p: Params, a: Assembly, op: Op)
    requires ValidParams(p)
    ensures a.held == [] ==> Apply(p, a, op).chunks == []
    ensures a.held != [] ==> Apply(p, a, op).next.held != []
  {
  }

  lemma {:induction false} HeldBefore(p: Params, ops: seq<Op>)
    requires ValidParams(p)
    ensures HeldFirst(Assemble(p, FRESH, ops))
  {
    hide Apply;
    if ops != [] {
      var front := Assemble(p, FRESH, ops[..|ops| - 1]);
      HeldBefore(p, ops[..|ops| - 1]);
      HoldsFirst(p, front.next, ops[|ops| - 1]);
    }
  }

  /** After the last byte, and a mark perhaps, the buffer is empty exactly when a content cut fell there. */
  lemma BufferAtEnd(p: Params, front: seq<Op>, b: Byte, large: Option<nat>)
    requires large.Some? ==> 0 < large.value
    ensures var a := Assemble(p, FRESH, front).next;
            var ops := front + ByteSteps(false, b, large);
            Assemble(p, FRESH, ops).next.buffer == [] <==> CutAfter(p, a.gate, a.buffer + [b])
  {
    hide Assemble, CutAfter;
    var a := Assemble(p, FRESH, front).next;
    AssembleAppend(p, FRESH, front, ByteSteps(false, b, large));
    StepsAre(p, a, false, b, large);
  }

  /** The last byte's place is a content cut exactly when the rule cuts there. */
  lemma CutAtEnd(p: Params, front: seq<Op>, b: Byte, large: Option<nat>)
    ensures var a := Assemble(p, FRESH, front).next;
            var ops := front + ByteSteps(false, b, large);
            |Pushed(ops)| == |Pushed(front)| + 1
            && (ContentCutAt(p, ops, |Pushed(ops)|) <==> CutAfter(p, a.gate, a.buffer + [b]))
  {
    hide Assemble, CutAfter, Pushed;
    var steps := ByteSteps(false, b, large);
    var ops := front + steps;
    assert steps == [Push(b)] + steps[1..];
    PushedAppend(front, steps);
    C.PushedOne(Push(b));
    PushedAppend([Push(b)], steps[1..]);
    C.PushedNone();
    if large.Some? { C.PushedOne(LargeUnit(large.value)); assert steps[1..] == [LargeUnit(large.value)]; }
    assert ops[..|front|] == front && ops[|front|] == Push(b);
    if CutAfter(p, Assemble(p, FRESH, front).next.gate, Assemble(p, FRESH, front).next.buffer + [b]) {
      assert MarksCut(p, ops, |front|, |Pushed(ops)|);
    }
    if ContentCutAt(p, ops, |Pushed(ops)|) {
      var i: nat :| i < |ops| && MarksCut(p, ops, i, |Pushed(ops)|);
      if i < |front| {
        PushedGrows(ops, i + 1, |front|);
        PushedSnoc(ops, i);
      }
      assert i == |front|;
    }
  }

  lemma {:induction false} PushedGrows(ops: seq<Op>, i: nat, j: nat)
    requires i <= j <= |ops|
    ensures |Pushed(ops[..i])| <= |Pushed(ops[..j])|
  {
    if i < j {
      PushedGrows(ops, i, j - 1);
      assert ops[..j][..j - 1] == ops[..j - 1];
    }
  }

  lemma PushedSnoc(ops: seq<Op>, i: nat)
    requires i < |ops| && ops[i].Push?
    ensures |Pushed(ops[..i + 1])| == |Pushed(ops[..i])| + 1
  {
    assert ops[..i + 1][..i] == ops[..i];
  }

  /** A stream that ends in a byte, and a mark perhaps: it ends in two chunks at once exactly when it makes two or more and no content cut falls at its end. */
  lemma EndsInTwo(p: Params, front: seq<Op>, b: Byte, large: Option<nat>)
    requires ValidParams(p) && (large.Some? ==> 0 < large.value)
    ensures var ops := front + ByteSteps(false, b, large);
            |Flush(Assemble(p, FRESH, ops).next)| == 2 <==> 2 <= |AllChunks(p, ops)| && !ContentCutAt(p, ops, |Pushed(ops)|)
  {
    hide Assemble, CutAfter, Pushed, ContentCutAt, Flush;
    var ops := front + ByteSteps(false, b, large);
    BufferAtEnd(p, front, b, large);
    CutAtEnd(p, front, b, large);
    HeldBefore(p, ops);
    FlushesTwo(Assemble(p, FRESH, ops).next);
  }

  /** So of every accepted ISO BMFF stream. */
  lemma IsobmffEndsInTwo(p: Params, s: seq<Byte>)
    requires ValidParams(p) && Accepts(START, s)
    ensures var fed := FeedAll(p, NEW_CHUNKING, s);
            && fed.problem.None?
            && (|Flush(fed.next.asm)| == 2 <==> 2 <= |StreamChunks(p, s)| && !ContentCutAt(p, Ops(START, s), |s|))
  {
    hide Assemble, Run, Ops, ContentCutAt, Consume, Flush, AllChunks;
    NothingNotAccepted();
    FeedIsRun(p, NEW_CHUNKING, s);
    PushedOps(START, s);
    var front, b := s[..|s| - 1], s[|s| - 1];
    assert s == front + [b] && s[..|s|] == s;
    RunAppend(START, front, [b]);
    RunSplit(START, s, |s| - 1);
    var w := Run(START, front).value;
    OneRuns(w, b);
    OpsSnoc(START, s, |s| - 1);
    MarkPositive(w, b);
    var begun := Ops(START, front) + if AtBoundary(w) then [Boundary] else [];
    assert Ops(START, s) == begun + ByteSteps(false, b, Consume(w, b).large);
    EndsInTwo(p, begun, b, Consume(w, b).large);
  }

  lemma NothingNotAccepted()
    ensures !Accepts(START, [])
  {
  }

  lemma OneRuns(w: Walk, b: Byte)
    requires Run(w, [b]).Some?
    ensures Consume(w, b).Go?
  {
    hide Consume;
  }

  /** And of every accepted archive. */
  lemma ZipEndsInTwo(p: Params, s: seq<Byte>)
    requires ValidParams(p) && C.Accepts(s)
    ensures var fed := C.FeedAll(p, C.NEW_CHUNKING, s);
            && fed.Fed?
            && (|Flush(fed.next.asm)| == 2 <==> 2 <= |C.StreamChunks(p, s)| && !ContentCutAt(p, C.Ops(Z.START, s), |s|))
  {
    hide Assemble, S.Run, C.Ops, ContentCutAt, Z.Consume, Flush, AllChunks, Z.ValidState, Z.AtMemberBoundary, C.FeedAll, Z.MayFinish;
    NoArchiveIsEmpty();
    C.FeedIsRun(p, s);
    C.PushedOps(Z.START, s);
    var front, b := s[..|s| - 1], s[|s| - 1];
    assert s == front + [b] && s[..|s|] == s;
    S.RunAppend(Z.START, front, [b]);
    var w := S.Run(Z.START, front).value.next;
    ArchiveByteRuns(w, b);
    C.OpsOne(Z.START, s, |s| - 1);
    ZipMarkPositive(w, b);
    var begun := C.Ops(Z.START, front) + if Z.AtMemberBoundary(w) then [Boundary] else [];
    assert C.Ops(Z.START, s) == begun + ByteSteps(false, b, Z.Consume(w, b).large);
    EndsInTwo(p, begun, b, Z.Consume(w, b).large);
  }

  lemma NoArchiveIsEmpty()
    ensures !C.Accepts([]) && Z.ValidState(Z.START.state)
  {
  }

  lemma ArchiveByteRuns(w: Z.Walk, b: Byte)
    requires Z.ValidState(w.state) && S.Run(w, [b]).Some?
    ensures Z.Consume(w, b).Go?
  {
    hide Z.Consume;
    assert [b][..0] == [];
  }

  // A stream that ends in two chunks, whatever the gear table.

  /** A box of known size, not descended into, too small to be reported large. */
  predicate SmallBox(unit: seq<Byte>) {
    && ParseHeader(unit).Some?
    && ParseHeader(unit).value.size == Some(|unit|)
    && !IsContainer(ParseHeader(unit).value.kind)
    && |unit| < ParseHeader(unit).value.headerLen + MIN_BYTES
  }

  lemma SmallNotReported(open: seq<Option<nat>>, seen: bool, s: seq<Byte>)
    requires ParseHeader(s).Some? && CanDebit(open, ParseHeader(s).value.headerLen)
    requires MayOpen(open, seen, ParseHeader(s).value) && SmallBox(s)
    ensures Enter(open, seen, s).Go? && Enter(open, seen, s).large == None
  {
    hide IsContainer, MayBegin;
    EnterGoes(open, seen, s);
    HeaderCopy(s);
  }

  lemma SmallHeaderOps(w: Walk, unit: seq<Byte>)
    requires Ready(w) && SmallBox(unit) && OpensHere(w, unit)
    ensures var h := unit[..ParseHeader(unit).value.headerLen]; Ops(w, h) == [Boundary] + Pushes(h)
  {
    hide Consume, OpenBox, IsContainer, MayBegin;
    var last := ParseHeader(unit).value.headerLen - 1;
    HeaderOps(w.open, w.seenFirst, unit, last);
    HeaderWalk(w.open, w.seenFirst, unit, last);
    HeaderStep(w.open, w.seenFirst, unit, last);
    SmallNotReported(w.open, w.seenFirst, unit);
    OpsSnoc(w, unit, last);
    PushesSnoc(unit, last);
  }

  /** The walk over a small box is a boundary and its bytes. */
  lemma SmallBoxOps(w: Walk, unit: seq<Byte>)
    requires Ready(w) && SmallBox(unit) && OpensOpaque(w, unit)
    ensures Ops(w, unit) == [Boundary] + Pushes(unit)
  {
    hide ParseHeader, IsContainer, MayBegin, OpenBox, Consume, Run, Ops, Pushes;
    var n := ParseHeader(unit).value.headerLen;
    SmallHeaderOps(w, unit);
    OpaqueStep(w, unit);
    var header, payload := unit[..n], unit[n..];
    assert unit == header + payload;
    OpsAppend(w, header, payload);
    PushesSplit(header, payload);
    if payload == [] {
      NoOps(Run(w, header).value);
      assert Pushes(payload) == [] by { PushesLen(payload); }
    } else {
      assert payload[..|payload|] == payload;
      PayloadOps(Debit(w.open, n), true, |payload|, payload, |payload|);
    }
  }

  lemma NoOps(w: Walk)
    ensures Ops(w, []) == []
  {
  }

  const FTYP_HEADER: seq<Byte> := [0, 0, 0x40, 0, 0x66, 0x74, 0x79, 0x70]
  const FREE_BOX: seq<Byte> := [0, 0, 0, 8, 0x66, 0x72, 0x65, 0x65]

  /** An `ftyp` box of exactly 16384 bytes. */
  function FtypBox(): (s: seq<Byte>)
    ensures |s| == MIN_BYTES && s[..8] == FTYP_HEADER
  {
    FTYP_HEADER + seq(MIN_BYTES - 8, _ => 0)
  }

  lemma WordValue(a: Byte, b: Byte, c: Byte, d: Byte)
    ensures BigEndian([a, b, c, d]) == (((a as int) * 256 + (b as int)) * 256 + (c as int)) * 256 + (d as int)
  {
    var s := [a, b, c, d];
    var x: int, y: int, z: int := a, b, c;
    assert s[..3][..2] == s[..2] && s[..2][..1] == s[..1] && s[..1][..0] == [];
    assert BigEndian(s[..1]) == x && BigEndian(s[..2]) == x * 256 + y && BigEndian(s[..3]) == (x * 256 + y) * 256 + z;
  }

  lemma BoxHeaders(post: seq<Byte>)
    ensures ParseHeader(FtypBox() + post) == Some(Box(8, Some(MIN_BYTES), 0x6674_7970))
    ensures ParseHeader(FREE_BOX) == Some(Box(8, Some(8), 0x6672_6565))
  {
    hide BigEndian;
    var s := FtypBox() + post;
    assert s[0..4] == s[..8][..4] == [0, 0, 0x40, 0] && s[4..8] == s[..8][4..] == [0x66, 0x74, 0x79, 0x70] by {
      assert s[..8] == FTYP_HEADER;
    }
    assert FREE_BOX[0..4] == [0, 0, 0, 8] && FREE_BOX[4..8] == [0x66, 0x72, 0x65, 0x65];
    WordValue(0, 0, 0x40, 0);
    WordValue(0x66, 0x74, 0x79, 0x70);
    WordValue(0, 0, 0, 8);
    WordValue(0x66, 0x72, 0x65, 0x65);
  }

  /** The two boxes are a stream. */
  lemma TwoBoxesAccepted()
    ensures Accepts(START, FtypBox() + FREE_BOX)
  {
    hide ParseHeader, FtypBox, Accepts;
    var s := FtypBox() + FREE_BOX;
    BoxHeaders(FREE_BOX);
    assert s[MIN_BYTES..] == FREE_BOX;
    assert FREE_BOX[8..] == [];
    assert TopLevel([], false) && TopLevel(FREE_BOX, false) && TopLevel(s, true);
    AcceptsExactlyStreams(s);
  }

  lemma TwoBoxesOps()
    ensures Ops(START, FtypBox() + FREE_BOX) == [Boundary] + Pushes(FtypBox()) + ([Boundary] + Pushes(FREE_BOX))
  {
    hide ParseHeader, FtypBox, Accepts, Run, Ops, Pushes;
    var ftyp := FtypBox();
    BoxHeaders(FREE_BOX);
    BoxHeaders([]);
    assert ftyp + [] == ftyp;
    TwoBoxesAccepted();
    assert ftyp[..|ftyp|] == ftyp;
    SmallBoxOps(START, ftyp);
    OpaqueRun(START, ftyp);
    var w := Run(START, ftyp).value;
    SmallBoxOps(w, FREE_BOX);
    OpsAppend(START, ftyp, FREE_BOX);
  }

  /** A unit of the minimum size is held once a second one begins, whether the hash cut it or the boundary closed it. */
  lemma MinimumUnitHeld(p: Params, x: seq<Byte>, y: seq<Byte>)
    requires p.unitMin == MIN_BYTES == |x| && |y| < MIN_BYTES
    ensures Assemble(p, FRESH, [Boundary] + Pushes(x) + ([Boundary] + Pushes(y))) == Out(Assembly(y, x, PerByte), [])
  {
    hide Apply, Pushes, Assemble;
    var front, last := x[..|x| - 1], x[|x| - 1];
    assert x == front + [last] && [] + front == front && [] + y == y;
    AssembleOne(p, FRESH, Boundary);
    BoundaryOnNothing(p, FRESH);
    AssembleAppend(p, FRESH, [Boundary], Pushes(x));
    ShortBufferLeavesHeaderUncut(p, [], front);
    UncutPushes(p, FRESH, front);
    PushesStep(p, FRESH, front, last);
    LastByte(p, front, last);
    var mid := Assemble(p, FRESH, [Boundary] + Pushes(x));
    AssembleAppend(p, FRESH, [Boundary] + Pushes(x), [Boundary] + Pushes(y));
    AssembleAppend(p, mid.next, [Boundary], Pushes(y));
    AssembleOne(p, mid.next, Boundary);
    var held := Assembly([], x, PerByte);
    ShortBufferLeavesHeaderUncut(p, [], y);
    UncutPushes(p, held, y);
  }

  lemma BoundaryOnNothing(p: Params, a: Assembly)
    requires a.buffer == [] && 0 < p.unitMin
    ensures Apply(p, a, Boundary) == Out(a, [])
  {
  }

  /** The byte that fills the unit, and the boundary after it. */
  lemma LastByte(p: Params, front: seq<Byte>, last: Byte)
    requires p.unitMin == MIN_BYTES == |front| + 1
    ensures var out := Apply(p, Assembly(front, [], PerByte), Push(last));
            && out.chunks == [] && Apply(p, out.next, Boundary) == Out(Assembly([], front + [last], PerByte), [])
  {
  }

  /** The accepted stream of the two boxes ends in both at once, for every gear table. */
  lemma TwoBoxesEndInTwo(t: Table)
    ensures Accepts(START, FtypBox() + FREE_BOX)
    ensures var fed := FeedAll(Params(t, MIN_BYTES), NEW_CHUNKING, FtypBox() + FREE_BOX);
            fed.problem.None? && Flush(fed.next.asm) == [FtypBox(), FREE_BOX]
  {
    hide Assemble, Run, Ops, Pushes, FtypBox;
    var p, s := Params(t, MIN_BYTES), FtypBox() + FREE_BOX;
    TwoBoxesAccepted();
    FeedIsRun(p, NEW_CHUNKING, s);
    TwoBoxesOps();
    MinimumUnitHeld(p, FtypBox(), FREE_BOX);
  }
}
