/** A large ISO BMFF box is cut the same way wherever it sits. */
module Relocation {
  import opened Bytes
  import opened Gear
  import opened Assembler
  import opened LargeUnits
  import opened IsobmffWalker
  import opened IsobmffGrammar
  import opened IsobmffChunker

  // A large box in a stream is such a unit.

  /** `unit` is one whole box of known size, not descended into, whose payload is at least the minimum chunk size. */
  predicate LargeBox(unit: seq<Byte>) {
    && ParseHeader(unit).Some?
    && ParseHeader(unit).value.size == Some(|unit|)
    && !IsContainer(ParseHeader(unit).value.kind)
    && ParseHeader(unit).value.headerLen + MIN_BYTES <= |unit|
  }

  /** `unit` is one whole box that runs to the end of its stream, not descended into. */
  predicate OpenEndedBox(unit: seq<Byte>) {
    ParseHeader(unit).Some? && ParseHeader(unit).value.size.None? && !IsContainer(ParseHeader(unit).value.kind)
  }

  /** The boxes whose headers the walker reports to the assembler. */
  predicate ReportedBox(unit: seq<Byte>) {
    LargeBox(unit) || OpenEndedBox(unit)
  }

  function BoxHeader(unit: seq<Byte>): seq<Byte>
    requires ReportedBox(unit)
  {
    unit[..ParseHeader(unit).value.headerLen]
  }

  function BoxPayload(unit: seq<Byte>): seq<Byte>
    requires ReportedBox(unit)
  {
    unit[ParseHeader(unit).value.headerLen..]
  }

  lemma {:induction false} OpsAppend(w: Walk, x: seq<Byte>, y: seq<Byte>)
    requires Run(w, x).Some?
    ensures Ops(w, x + y) == Ops(w, x) + Ops(Run(w, x).value, y)
    decreases |x|
  {
    hide Consume, ByteOps;
    if x == [] {
      assert x + y == y;
    } else {
      assert (x + y)[0] == x[0] && (x + y)[1..] == x[1..] + y;
      OpsAppend(Consume(w, x[0]).next, x[1..], y);
    }
  }

  lemma OpsSnoc(w: Walk, s: seq<Byte>, k: nat)
    requires k < |s| && Run(w, s[..k]).Some? && Consume(Run(w, s[..k]).value, s[k]).Go?
    ensures var mid := Run(w, s[..k]).value;
            Ops(w, s[..k + 1]) == Ops(w, s[..k]) + ByteOps(mid, s[k], Consume(mid, s[k]).large)
  {
    hide Consume, ByteOps;
    var mid := Run(w, s[..k]).value;
    assert s[..k + 1] == s[..k] + [s[k]];
    OpsAppend(w, s[..k], [s[k]]);
    assert [s[k]][1..] == [];
    assert Ops(mid, [s[k]]) == ByteOps(mid, s[k], Consume(mid, s[k]).large) + [];
  }

  lemma {:induction false} HeaderOps(open: seq<Option<nat>>, seen: bool, s: seq<Byte>, k: nat)
    requires 0 < k <= |s| && CanDebit(open, k) && Short(s, k)
    ensures Ops(Walk(Header([]), open, seen), s[..k]) == [Boundary] + Pushes(s[..k])
  {
    hide Consume;
    HeaderWalk(open, seen, s, k - 1);
    HeaderStep(open, seen, s, k - 1);
    OpsSnoc(Walk(Header([]), open, seen), s, k - 1);
    PushesSnoc(s, k - 1);
    if k == 1 {
      assert s[..0] == [];
    } else {
      HeaderOps(open, seen, s, k - 1);
    }
  }

  lemma {:induction false} PayloadOps(open: seq<Option<nat>>, seen: bool, n: Pos, s: seq<Byte>, k: nat)
    requires k <= n && k <= |s| && CanDebit(open, n)
    ensures Ops(Walk(Payload(n), open, seen), s[..k]) == Pushes(s[..k])
  {
    hide Consume;
    if k == 0 {
      assert s[..0] == [];
    } else {
      PayloadWalk(open, seen, n, s, k - 1);
      PayloadStep(open, seen, n, k - 1, s[k - 1]);
      OpsSnoc(Walk(Payload(n), open, seen), s, k - 1);
      PushesSnoc(s, k - 1);
      PayloadOps(open, seen, n, s, k - 1);
    }
  }

  lemma {:induction false} ToEndOps(s: seq<Byte>)
    ensures Ops(Walk(PayloadToEnd, [], true), s) == Pushes(s)
    decreases |s|
  {
    if s != [] {
      ToEndOps(s[1..]);
      assert s == s[..1] + s[1..];
      assert s[..1] == [s[0]] && [s[0]][..0] == [];
      PushesSplit(s[..1], s[1..]);
    }
  }

  /** The last header byte of a large or open-ended box reports it. */
  lemma LargeReported(open: seq<Option<nat>>, seen: bool, s: seq<Byte>)
    requires ParseHeader(s).Some? && CanDebit(open, ParseHeader(s).value.headerLen)
    requires MayOpen(open, seen, ParseHeader(s).value)
    requires var box := ParseHeader(s).value;
             !IsContainer(box.kind) && (box.size.Some? ==> box.headerLen + MIN_BYTES <= box.size.value)
    ensures Enter(open, seen, s).Go? && Enter(open, seen, s).large == Some(ParseHeader(s).value.headerLen)
  {
    hide IsContainer, MayBegin;
    EnterGoes(open, seen, s);
    HeaderCopy(s);
  }

  lemma ReportedHeaderOps(w: Walk, unit: seq<Byte>)
    requires Ready(w) && ReportedBox(unit) && OpensHere(w, unit)
    ensures Ops(w, BoxHeader(unit)) == [Boundary] + Pushes(BoxHeader(unit)) + [LargeUnit(|BoxHeader(unit)|)]
  {
    hide Consume, OpenBox, IsContainer, MayBegin;
    var last := |BoxHeader(unit)| - 1;
    HeaderOps(w.open, w.seenFirst, unit, last);
    HeaderWalk(w.open, w.seenFirst, unit, last);
    HeaderStep(w.open, w.seenFirst, unit, last);
    LargeReported(w.open, w.seenFirst, unit);
    OpsSnoc(w, unit, last);
    PushesSnoc(unit, last);
  }

  /** The walk over a large box is the operations of a large unit. */
  lemma LargeBoxOps(w: Walk, unit: seq<Byte>)
    requires Ready(w) && LargeBox(unit) && OpensOpaque(w, unit)
    ensures Ops(w, unit) == UnitOps(BoxHeader(unit), BoxPayload(unit))
  {
    hide ParseHeader, IsContainer, MayBegin, OpenBox, Consume;
    var n := ParseHeader(unit).value.headerLen;
    ReportedHeaderOps(w, unit);
    OpaqueStep(w, unit);
    assert unit == unit[..n] + unit[n..];
    OpsAppend(w, unit[..n], unit[n..]);
    assert BoxPayload(unit)[..|unit| - n] == BoxPayload(unit);
    PayloadOps(Debit(w.open, n), true, |unit| - n, unit[n..], |unit| - n);
  }

  /** The walk over an open-ended box is the operations of a unit, too. */
  lemma OpenEndedOps(w: Walk, unit: seq<Byte>)
    requires Ready(w) && OpenEndedBox(unit) && OpensHere(w, unit)
    ensures Ops(w, unit) == UnitOps(BoxHeader(unit), BoxPayload(unit))
  {
    hide ParseHeader, IsContainer, MayBegin, OpenBox, Consume, Run, Ops, Pushes;
    var n := ParseHeader(unit).value.headerLen;
    ReportedHeaderOps(w, unit);
    OpenEndedLeads(w, unit);
    HeaderLeads(w, unit);
    assert unit == unit[..n] + unit[n..];
    OpsAppend(w, unit[..n], unit[n..]);
    ToEndOps(unit[n..]);
  }

  /** In an accepted stream, such a box is reached at a boundary, and opened. */
  lemma ReportedBoxReached(pre: seq<Byte>, unit: seq<Byte>, post: seq<Byte>)
    requires Accepts(START, pre + unit + post) && ReportedBox(unit) && StartsBox(pre + unit + post, |pre|)
    ensures Run(START, pre).Some? && Ready(Run(START, pre).value) && OpensHere(Run(START, pre).value, unit)
    ensures Run(Run(START, pre).value, unit + post).Some?
  {
    hide Consume, StartsBox, IsContainer, MayBegin, ParseHeader;
    var s := pre + unit + post;
    BoundariesAreBoxStarts(s, |pre|);
    assert s[..|pre|] == pre && s[|pre|..] == unit + post;
    RunSound(START, pre);
    RunSplit(START, s, |pre|);
    var w := Run(START, pre).value;
    ParsePrefix(unit + post, |unit|);
    assert (unit + post)[..|unit|] == unit;
    if !CanDebit(w.open, ParseHeader(unit).value.headerLen) {
      RefusesFirst(w, unit + post);
    }
    HeaderLeads(w, unit + post);
  }

  /** It is then counted to its end, and leaves the walker at a boundary. */
  lemma LargeBoxInStream(pre: seq<Byte>, unit: seq<Byte>, post: seq<Byte>)
    requires Accepts(START, pre + unit + post) && LargeBox(unit) && StartsBox(pre + unit + post, |pre|)
    ensures Run(START, pre).Some? && Ready(Run(START, pre).value) && OpensOpaque(Run(START, pre).value, unit)
    ensures var w := Run(START, pre).value;
            && Run(w, unit).Some? && AtBoundary(Run(w, unit).value)
            && (post != [] ==> Run(Run(w, unit).value, post).Some?)
  {
    hide Consume, StartsBox, IsContainer, MayBegin, ParseHeader, Accepts, Run;
    ReportedBoxReached(pre, unit, post);
    var w := Run(START, pre).value;
    OpaqueRun(w, unit);
    assert unit[..|unit|] == unit && (unit + post)[..|unit|] == unit && (unit + post)[|unit|..] == post;
    RunSplit(w, unit + post, |unit|);
  }

  lemma {:induction false} OpsSetNoGate(w: Walk, s: seq<Byte>)
    ensures forall i :: 0 <= i < |Ops(w, s)| ==> !Ops(w, s)[i].SetGate?
    decreases |s|
  {
    hide Consume;
    if s != [] && Consume(w, s[0]).Go? {
      OpsSetNoGate(Consume(w, s[0]).next, s[1..]);
    }
  }

  lemma {:induction false} PushedOps(w: Walk, s: seq<Byte>)
    requires Run(w, s).Some?
    ensures Pushed(Ops(w, s)) == s
    decreases |s|
  {
    hide Consume;
    if s != [] {
      var step := Consume(w, s[0]);
      var one := ByteOps(w, s[0], step.large);
      PushedAppend(one, Ops(step.next, s[1..]));
      PushedOps(step.next, s[1..]);
      PushedByte(w, s[0], step.large);
    }
  }

  lemma PushedByte(w: Walk, b: Byte, large: Option<nat>)
    ensures Pushed(ByteOps(w, b, large)) == [b]
  {
    var begin := if AtBoundary(w) then [Boundary] else [];
    var align := if large.Some? then [LargeUnit(large.value)] else [];
    PushedAppend(begin + [Push(b)], align);
    PushedAppend(begin, [Push(b)]);
    assert Pushed(begin) == [] && Pushed(align) == [] && Pushed([Push(b)]) == [b];
  }

  /** The stream's operations, taken apart around a large box. */
  lemma OpsAroundLargeBox(pre: seq<Byte>, unit: seq<Byte>, post: seq<Byte>) returns (more: seq<Op>)
    requires Accepts(START, pre + unit + post) && LargeBox(unit) && StartsBox(pre + unit + post, |pre|)
    ensures Run(START, pre).Some? && AfterUnit(more)
    ensures Ops(START, pre + unit + post) == Ops(START, pre) + UnitOps(BoxHeader(unit), BoxPayload(unit)) + more
  {
    hide Consume, StartsBox, Accepts, LargeBox, UnitOps;
    LargeBoxInStream(pre, unit, post);
    var w := Run(START, pre).value;
    more := Ops(Run(w, unit).value, post);
    assert pre + unit + post == pre + (unit + post);
    OpsAppend(START, pre, unit + post);
    OpsAppend(w, unit, post);
    LargeBoxOps(w, unit);
    if post != [] {
      var last := Run(w, unit).value;
      assert Consume(last, post[0]).Go?;
    }
  }

  /** The bytes the assembler has buffered, once the boundary before the unit at `|pre|` is reported. */
  function BufferAt(p: Params, pre: seq<Byte>): seq<Byte> {
    Apply(p, Assemble(p, FRESH, Ops(START, pre)).next, Boundary).next.buffer
  }

  /**
   * Relocation. In every accepted stream that contains a large box whose header no content cut falls into,
   * the box's chunks start exactly at its first byte and are the ones its own bytes decide, whatever
   * precedes and follows it; only the last of them may be extended by what follows.
   */
  lemma LargeBoxRelocates(p: Params, pre: seq<Byte>, unit: seq<Byte>, post: seq<Byte>)
    requires ValidParams(p)
    requires Accepts(START, pre + unit + post) && LargeBox(unit) && StartsBox(pre + unit + post, |pre|)
    requires HeaderUncut(p, BufferAt(p, pre), BoxHeader(unit))
    ensures HoldsUnit(StreamChunks(p, pre + unit + post), |pre|, UnitChunks(p, BoxHeader(unit), BoxPayload(unit)))
  {
    hide StartsBox, Accepts, UnitOps, HoldsUnit, UnitChunks, HeaderUncut, Apply;
    var more := OpsAroundLargeBox(pre, unit, post);
    var ops := Ops(START, pre);
    PushedOps(START, pre);
    OpsSetNoGate(START, pre);
    NoGateOps(p, FRESH, ops);
    UnitChunked(p, ops, BoxHeader(unit), BoxPayload(unit), more);
  }

  /** A large box whose header ends short of the minimum chunk size always is. */
  lemma EarlyHeaderRelocates(p: Params, pre: seq<Byte>, unit: seq<Byte>, post: seq<Byte>)
    requires ValidParams(p)
    requires Accepts(START, pre + unit + post) && LargeBox(unit) && StartsBox(pre + unit + post, |pre|)
    requires |BufferAt(p, pre)| + |BoxHeader(unit)| < MIN_BYTES
    ensures HoldsUnit(StreamChunks(p, pre + unit + post), |pre|, UnitChunks(p, BoxHeader(unit), BoxPayload(unit)))
  {
    hide StartsBox, Accepts, UnitOps, HoldsUnit, UnitChunks, HeaderUncut, Apply;
    ShortBufferLeavesHeaderUncut(p, BufferAt(p, pre), BoxHeader(unit));
    LargeBoxRelocates(p, pre, unit, post);
  }

  /** Two streams with the same large box share its chunks. */
  lemma SameBoxSameChunks(p: Params, pre: seq<Byte>, post: seq<Byte>, pre': seq<Byte>, post': seq<Byte>, unit: seq<Byte>)
    returns (n: nat, n': nat)
    requires ValidParams(p) && LargeBox(unit)
    requires Accepts(START, pre + unit + post) && StartsBox(pre + unit + post, |pre|)
    requires Accepts(START, pre' + unit + post') && StartsBox(pre' + unit + post', |pre'|)
    requires HeaderUncut(p, BufferAt(p, pre), BoxHeader(unit)) && HeaderUncut(p, BufferAt(p, pre'), BoxHeader(unit))
    ensures var k := |UnitChunks(p, BoxHeader(unit), BoxPayload(unit))| - 1;
            var chunks, chunks' := StreamChunks(p, pre + unit + post), StreamChunks(p, pre' + unit + post');
            && n + k < |chunks| && n' + k < |chunks'|
            && |Flatten(chunks[..n])| == |pre| && |Flatten(chunks'[..n'])| == |pre'|
            && chunks[n..n + k] == chunks'[n'..n' + k]
  {
    hide StartsBox, Accepts, HeaderUncut, Apply, UnitChunks, StreamChunks;
    var own := UnitChunks(p, BoxHeader(unit), BoxPayload(unit));
    LargeBoxRelocates(p, pre, unit, post);
    LargeBoxRelocates(p, pre', unit, post');
    n :| HoldsUnitFrom(StreamChunks(p, pre + unit + post), n, |pre|, own);
    n' :| HoldsUnitFrom(StreamChunks(p, pre' + unit + post'), n', |pre'|, own);
  }

  /** A box header is too short to be cut on its own. */
  lemma SomethingBuffered(p: Params, buffer: seq<Byte>, unit: seq<Byte>)
    requires ReportedBox(unit) && !HeaderUncut(p, buffer, BoxHeader(unit))
    ensures buffer != []
  {
    hide HeaderUncut;
    if buffer == [] {
      ShortBufferLeavesHeaderUncut(p, buffer, BoxHeader(unit));
    }
  }

  /** A large box begins a chunk exactly when no content cut falls inside its header. */
  lemma LargeBoxBeginsChunk(p: Params, pre: seq<Byte>, unit: seq<Byte>, post: seq<Byte>)
    requires ValidParams(p)
    requires Accepts(START, pre + unit + post) && LargeBox(unit) && StartsBox(pre + unit + post, |pre|)
    ensures ChunkStartsAt(StreamChunks(p, pre + unit + post), |pre|) <==> HeaderUncut(p, BufferAt(p, pre), BoxHeader(unit))
  {
    hide StartsBox, Accepts, UnitOps, HeaderUncut, Apply, UnitChunks, ChunkStartsAt;
    if HeaderUncut(p, BufferAt(p, pre), BoxHeader(unit)) {
      LargeBoxRelocates(p, pre, unit, post);
      HeldUnitStarts(StreamChunks(p, pre + unit + post), |pre|, UnitChunks(p, BoxHeader(unit), BoxPayload(unit)));
    } else {
      var more := OpsAroundLargeBox(pre, unit, post);
      PushedOps(START, pre);
      OpsSetNoGate(START, pre);
      NoGateOps(p, FRESH, Ops(START, pre));
      CutUnitDecides(p, Ops(START, pre), BoxHeader(unit), BoxPayload(unit), more);
      SomethingBuffered(p, BufferAt(p, pre), unit);
    }
  }

  /** The chunk stream around an open-ended box: the box is the last unit. */
  lemma OpsBeforeOpenEnded(pre: seq<Byte>, unit: seq<Byte>)
    requires Accepts(START, pre + unit) && OpenEndedBox(unit) && StartsBox(pre + unit, |pre|)
    ensures Run(START, pre).Some?
    ensures Ops(START, pre + unit) == Ops(START, pre) + UnitOps(BoxHeader(unit), BoxPayload(unit)) + []
  {
    hide Consume, StartsBox, Accepts, OpenEndedBox, UnitOps, BoxHeader, BoxPayload, Run, Ops, OpensHere, Ready;
    assert pre + unit + [] == pre + unit;
    ReportedBoxReached(pre, unit, []);
    OpsAppend(START, pre, unit);
    OpenEndedOps(Run(START, pre).value, unit);
  }

  /**
   * An open-ended box whose header no content cut falls into is chunked from its first byte on, by its own
   * bytes alone, however short it turns out to be.
   */
  lemma OpenEndedBoxRelocates(p: Params, pre: seq<Byte>, unit: seq<Byte>)
    requires ValidParams(p) && Accepts(START, pre + unit) && OpenEndedBox(unit) && StartsBox(pre + unit, |pre|)
    requires HeaderUncut(p, BufferAt(p, pre), BoxHeader(unit))
    ensures HoldsUnit(StreamChunks(p, pre + unit), |pre|, UnitChunks(p, BoxHeader(unit), BoxPayload(unit)))
  {
    hide StartsBox, Accepts, UnitOps, HoldsUnit, UnitChunks, HeaderUncut, Apply;
    OpsBeforeOpenEnded(pre, unit);
    PushedOps(START, pre);
    OpsSetNoGate(START, pre);
    NoGateOps(p, FRESH, Ops(START, pre));
    UnitChunked(p, Ops(START, pre), BoxHeader(unit), BoxPayload(unit), []);
  }

  /** An open-ended box begins a chunk exactly when no content cut falls inside its header. */
  lemma OpenEndedBoxBeginsChunk(p: Params, pre: seq<Byte>, unit: seq<Byte>)
    requires ValidParams(p) && Accepts(START, pre + unit) && OpenEndedBox(unit) && StartsBox(pre + unit, |pre|)
    ensures ChunkStartsAt(StreamChunks(p, pre + unit), |pre|) <==> HeaderUncut(p, BufferAt(p, pre), BoxHeader(unit))
  {
    hide StartsBox, Accepts, UnitOps, HeaderUncut, Apply, UnitChunks, ChunkStartsAt;
    if HeaderUncut(p, BufferAt(p, pre), BoxHeader(unit)) {
      OpenEndedBoxRelocates(p, pre, unit);
      HeldUnitStarts(StreamChunks(p, pre + unit), |pre|, UnitChunks(p, BoxHeader(unit), BoxPayload(unit)));
    } else {
      OpsBeforeOpenEnded(pre, unit);
      PushedOps(START, pre);
      OpsSetNoGate(START, pre);
      NoGateOps(p, FRESH, Ops(START, pre));
      CutUnitDecides(p, Ops(START, pre), BoxHeader(unit), BoxPayload(unit), []);
      SomethingBuffered(p, BufferAt(p, pre), unit);
    }
  }
}
