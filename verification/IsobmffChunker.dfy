/** The isobmff-v1 chunker: the box walker driving the assembler (src/chunker/isobmff/chunker.rs). */
module IsobmffChunker {
  import opened Bytes
  import opened Gear
  import opened Assembler
  import opened IsobmffWalker
  import opened IsobmffGrammar

  // The chunker on values.

  datatype Chunking = Chunking(walk: Walk, asm: Assembly, rejected: bool)
  datatype Problem = StreamRejected | Malformed(fault: Fault)
  datatype Fed = Fed(next: Chunking, chunks: seq<seq<Byte>>, problem: Option<Problem>)

  const NEW_CHUNKING := Chunking(START, FRESH, false)

  /** One byte: a boundary if the walker stands at one, the byte itself, a realignment if it opened a large box. */
  function FeedByte(p: Params, c: Chunking, b: Byte): (r: Fed)
    ensures r.problem.Some? <==> r.next.rejected
  {
    var begun := if AtBoundary(c.walk) then Apply(p, c.asm, Boundary) else Out(c.asm, []);
    match Consume(c.walk, b)
    case Stop(fault) =>
      Fed(Chunking(c.walk, Assembly([], [], begun.next.gate), true), begun.chunks, Some(Malformed(fault)))
    case Go(walk, large) =>
      var pushed := Apply(p, begun.next, Push(b));
      var aligned := if large.Some? then Apply(p, pushed.next, LargeUnit(large.value)) else Out(pushed.next, []);
      Fed(Chunking(walk, aligned.next, false), begun.chunks + pushed.chunks + aligned.chunks, None)
  }

  /** A window of the stream, byte by byte. */
  function FeedAll(p: Params, c: Chunking, window: seq<Byte>): Fed
    decreases |window|
  {
    if c.rejected then Fed(c, [], Some(StreamRejected))
    else if window == [] then Fed(c, [], None)
    else
      var one := FeedByte(p, c, window[0]);
      if one.problem.Some? then one
      else
        var rest := FeedAll(p, one.next, window[1..]);
        Fed(rest.next, one.chunks + rest.chunks, rest.problem)
  }

  class IsobmffChunker {
    var walker: Walker
    const assembler: BoundaryAssembler
    var rejected: bool

    ghost predicate Valid()
      reads this, walker, walker.header, assembler, assembler.gear
    {
      walker.Valid() && assembler.Valid()
    }

    /** The walker is not part of the value once the stream is rejected: nothing reads it again. */
    ghost function View(): Chunking
      requires Valid()
      reads this, walker, walker.header, assembler, assembler.gear
    {
      Chunking(walker.View(), assembler.View(), rejected)
    }

    constructor (table: Table)
      ensures Valid() && View() == NEW_CHUNKING && assembler.Parameters() == Params(table, MIN_BYTES)
      ensures fresh(walker) && fresh(walker.header) && fresh(assembler) && fresh(assembler.gear)
    {
      walker := new Walker();
      assembler := new BoundaryAssembler(table, MIN_BYTES);
      rejected := false;
    }

    method PushByte(b: Byte) returns (chunks: seq<seq<Byte>>, problem: Option<Problem>)
      requires Valid() && !rejected
      modifies this`rejected, walker, walker.header, assembler, assembler.gear
      ensures Valid()
      ensures var fed := FeedByte(assembler.Parameters(), old(View()), b);
              && chunks == fed.chunks && problem == fed.problem
              && assembler.View() == fed.next.asm && rejected == fed.next.rejected
              && (!rejected ==> View() == fed.next)
    {
      hide Consume, Apply;
      chunks := [];
      if walker.AtBoxBoundary() {
        chunks := assembler.UnitBoundary();
      }
      var fault, large := walker.ConsumeByte(b);
      if fault.Some? {
        rejected := true;
        assembler.Clear();
        return chunks, Some(Malformed(fault.value));
      }
      var pushed := assembler.PushByte(b);
      var aligned := [];
      if large.Some? {
        aligned := assembler.LargeUnitStarts(large.value);
      }
      chunks := chunks + pushed + aligned;
      problem := None;
    }

    method PushWindow(window: seq<Byte>) returns (chunks: seq<seq<Byte>>, problem: Option<Problem>)
      requires Valid()
      modifies this`rejected, walker, walker.header, assembler, assembler.gear
      ensures Valid()
      ensures var fed := FeedAll(assembler.Parameters(), old(View()), window);
              && chunks == fed.chunks && problem == fed.problem
              && assembler.View() == fed.next.asm && rejected == fed.next.rejected
              && (!rejected ==> View() == fed.next)
    {
      hide FeedByte;
      chunks := [];
      if rejected {
        return [], Some(StreamRejected);
      }
      ghost var p := assembler.Parameters();
      for i := 0 to |window|
        invariant Valid() && !rejected
        invariant var rest := FeedAll(p, View(), window[i..]);
                  FeedAll(p, old(View()), window) == Fed(rest.next, chunks + rest.chunks, rest.problem)
      {
        assert window[i..][0] == window[i] && window[i..][1..] == window[i + 1..];
        var one;
        one, problem := PushByte(window[i]);
        chunks := chunks + one;
        if problem.Some? {
          return;
        }
      }
      assert window[|window|..] == [];
      problem := None;
    }

    method Finish() returns (chunks: seq<seq<Byte>>, problem: Option<Problem>)
      requires Valid()
      modifies this, walker, walker.header, assembler, assembler.gear
      ensures Valid()
      ensures walker == old(walker) || (fresh(walker) && fresh(walker.header))
      ensures if old(rejected) then chunks == [] && problem == Some(StreamRejected) && rejected
              else if MayFinish(old(View()).walk)
              then chunks == Flush(old(View()).asm) && problem == None && View() == Chunking(START, Assembly([], [], old(View()).asm.gate), false)
              else chunks == [] && problem == Some(Malformed(Truncated)) && rejected
    {
      if rejected {
        return [], Some(StreamRejected);
      }
      if !walker.Finished() {
        rejected := true;
        assembler.Clear();
        return [], Some(Malformed(Truncated));
      }
      chunks := assembler.Finish();
      walker := new Walker();
      problem := None;
    }
  }

  // The chunker as walker and assembler composed: the walk yields operations, the assembler runs them.

  /** The assembler operations one consumed byte causes. */
  function ByteOps(w: Walk, b: Byte, large: Option<nat>): seq<Op> {
    (if AtBoundary(w) then [Boundary] else []) + [Push(b)] + (if large.Some? then [LargeUnit(large.value)] else [])
  }

  /** The operations a walk over `s` causes, as long as it does not fault. */
  function Ops(w: Walk, s: seq<Byte>): seq<Op>
    decreases |s|
  {
    if s == [] then []
    else
      match Consume(w, s[0])
      case Stop(_) => []
      case Go(next, large) => ByteOps(w, s[0], large) + Ops(next, s[1..])
  }

  /** The chunks of a whole accepted stream. */
  function StreamChunks(p: Params, s: seq<Byte>): seq<seq<Byte>> {
    AllChunks(p, Ops(START, s))
  }

  lemma FeedByteIsRun(p: Params, c: Chunking, b: Byte)
    requires !c.rejected && Consume(c.walk, b).Go?
    ensures var step := Consume(c.walk, b);
            var out := Assemble(p, c.asm, ByteOps(c.walk, b, step.large));
            FeedByte(p, c, b) == Fed(Chunking(step.next, out.next, false), out.chunks, None)
  {
    hide Consume, Apply;
    var large := Consume(c.walk, b).large;
    var begin := if AtBoundary(c.walk) then [Boundary] else [];
    var align := if large.Some? then [LargeUnit(large.value)] else [];
    AssembleAppend(p, c.asm, begin + [Push(b)], align);
    AssembleAppend(p, c.asm, begin, [Push(b)]);
    var begun := Assemble(p, c.asm, begin);
    AssembleOne(p, c.asm, Boundary);
    AssembleOne(p, begun.next, Push(b));
    if large.Some? {
      AssembleOne(p, Assemble(p, c.asm, begin + [Push(b)]).next, LargeUnit(large.value));
    }
  }

  /** Feeding a window is walking it and running the operations. */
  lemma {:induction false} FeedIsRun(p: Params, c: Chunking, s: seq<Byte>)
    requires !c.rejected && Run(c.walk, s).Some?
    ensures var out := Assemble(p, c.asm, Ops(c.walk, s));
            FeedAll(p, c, s) == Fed(Chunking(Run(c.walk, s).value, out.next, false), out.chunks, None)
    decreases |s|
  {
    hide Consume, Apply, FeedByte, ByteOps;
    if s != [] {
      var step := Consume(c.walk, s[0]);
      FeedByteIsRun(p, c, s[0]);
      var one := FeedByte(p, c, s[0]);
      FeedIsRun(p, one.next, s[1..]);
      AssembleAppend(p, c.asm, ByteOps(c.walk, s[0], step.large), Ops(step.next, s[1..]));
    }
  }

  /** How a stream is cut into windows does not matter, for the chunks or for the verdict. */
  lemma {:induction false} WindowsDoNotMatter(p: Params, c: Chunking, x: seq<Byte>, y: seq<Byte>)
    requires !c.rejected
    ensures var first := FeedAll(p, c, x);
            var second := FeedAll(p, first.next, y);
            var whole := FeedAll(p, c, x + y);
            && whole.chunks == first.chunks + second.chunks
            && whole.next == second.next
            && whole.problem == if first.problem.Some? then first.problem else second.problem
    decreases |x|
  {
    hide FeedByte;
    if x == [] {
      assert x + y == y;
      assert FeedAll(p, c, y).chunks == [] + FeedAll(p, c, y).chunks;
    } else {
      assert (x + y)[0] == x[0] && (x + y)[1..] == x[1..] + y;
      var one := FeedByte(p, c, x[0]);
      if one.problem.None? {
        WindowsDoNotMatter(p, one.next, x[1..], y);
      }
    }
  }
}
