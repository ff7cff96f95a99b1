/** The chunk-assembly machine shared by the container profiles (src/chunker/assembler.rs). */
module Assembler {
  import opened Bytes
  import opened Gear

  datatype Gate = PerByte | TextSeam
  datatype Seam = NoSeam | StrictSeam | SoftSeam

  /** The table the hash rolls over and the size at which a boundary closes a chunk. */
  datatype Params = Params(table: Table, unitMin: nat)

  /** What the source asserts of its callers' constants. */
  ghost predicate ValidParams(p: Params) {
    0 < p.unitMin <= MIN_BYTES
  }

  function SeamOf(b: Byte): Seam {
    if b == '\n' as int || b == '>' as int then StrictSeam
    else if b == '\t' as int || b == '\r' as int || b == ' ' as int || b == ',' as int || b == ';' as int
         || b == '.' as int || b == '}' as int || b == ']' as int || b == ')' as int || b == '"' as int
    then SoftSeam
    else NoSeam
  }

  /** Whether the hash allows a content-defined cut after the last byte of `chunk`. */
  predicate HashHit(p: Params, gate: Gate, chunk: seq<Byte>)
    requires chunk != []
  {
    var h := Hash(p.table, chunk);
    var early := |chunk| < TARGET_BYTES;
    match gate
    case PerByte => Cuts(h, if early then GENERIC_STRICT else GENERIC_RELAXED)
    case TextSeam =>
      match SeamOf(chunk[|chunk| - 1])
      case NoSeam => false
      case SoftSeam => !early && Cuts(h, TEXT_RELAXED)
      case StrictSeam => Cuts(h, if early then TEXT_STRICT else TEXT_RELAXED)
  }

  /** A content-defined (or forced) cut after the last byte of `chunk`. */
  predicate CutAfter(p: Params, gate: Gate, chunk: seq<Byte>) {
    MIN_BYTES <= |chunk| && (MAX_BYTES <= |chunk| || HashHit(p, gate, chunk))
  }

  // The machine on values: what is buffered, what is held, which gate is set. The rolling hash
  // is not part of it; the class below keeps it equal to the fold of the buffer.

  datatype Assembly = Assembly(buffer: seq<Byte>, held: seq<Byte>, gate: Gate)
  datatype Out = Out(next: Assembly, chunks: seq<seq<Byte>>)

  const FRESH := Assembly([], [], PerByte)

  function Release(held: seq<Byte>): seq<seq<Byte>> {
    if held == [] then [] else [held]
  }

  predicate Attaches(a: Assembly) {
    a.held != [] && |a.held| + |a.buffer| <= MAX_BYTES
  }

  function Close(a: Assembly): Out {
    Out(a.(buffer := [], held := a.buffer), Release(a.held))
  }

  function Attach(a: Assembly): Out {
    Out(a.(buffer := [], held := a.held + a.buffer), [])
  }

  datatype Op = SetGate(gate: Gate) | Boundary | LargeUnit(headerLen: nat) | Push(b: Byte)

  function Apply(p: Params, a: Assembly, op: Op): Out {
    match op
    case SetGate(gate) => Out(a.(gate := gate), [])
    case Boundary =>
      if p.unitMin <= |a.buffer| then Close(a)
      else if a.buffer != [] && Attaches(a) then Attach(a)
      else Out(a, [])
    case LargeUnit(n) =>
      if |a.buffer| <= n then Out(a, [])
      else
        var cut := |a.buffer| - n;
        var before := a.(buffer := a.buffer[..cut]);
        var out := if Attaches(before) then Attach(before) else Close(before);
        Out(out.next.(buffer := a.buffer[cut..]), out.chunks)
    case Push(b) =>
      var full := a.(buffer := a.buffer + [b]);
      if CutAfter(p, a.gate, full.buffer) then Close(full) else Out(full, [])
  }

  /** The chunks a finished stream still owes. */
  function Flush(a: Assembly): seq<seq<Byte>> {
    Release(a.held) + Release(a.buffer)
  }

  function Assemble(p: Params, a: Assembly, ops: seq<Op>): Out {
    if ops == [] then Out(a, [])
    else
      var front := Assemble(p, a, ops[..|ops| - 1]);
      var last := Apply(p, front.next, ops[|ops| - 1]);
      Out(last.next, front.chunks + last.chunks)
  }

  /** Every chunk of a stream that ends after `ops`. */
  function AllChunks(p: Params, ops: seq<Op>): seq<seq<Byte>> {
    var out := Assemble(p, FRESH, ops);
    out.chunks + Flush(out.next)
  }

  class BoundaryAssembler {
    const gear: GearHash
    const unitMin: nat
    var gate: Gate
    var seam: Seam
    var buffer: seq<Byte>
    var held: seq<Byte>

    ghost function View(): Assembly
      reads this
    {
      Assembly(buffer, held, gate)
    }

    function Parameters(): Params {
      Params(gear.table, unitMin)
    }

    /** The hash is the gear fold of exactly the buffered bytes. */
    ghost predicate Valid()
      reads this, gear
    {
      gear.hash == Hash(gear.table, buffer)
    }

    constructor (table: Table, unitMin: nat)
      ensures Valid() && fresh(gear)
      ensures View() == FRESH && Parameters() == Params(table, unitMin)
    {
      this.gear := new GearHash(table);
      this.unitMin := unitMin;
      gate, seam := PerByte, NoSeam;
      buffer, held := [], [];
    }

    method SetGateTo(gate: Gate)
      requires Valid()
      modifies this
      ensures Valid() && View() == Apply(Parameters(), old(View()), SetGate(gate)).next
    {
      this.gate := gate;
    }

    /** The next byte begins a structural unit. */
    method UnitBoundary() returns (chunks: seq<seq<Byte>>)
      requires Valid()
      modifies this, gear
      ensures Valid() && Out(View(), chunks) == Apply(Parameters(), old(View()), Boundary)
    {
      chunks := [];
      if |buffer| >= unitMin {
        chunks := CloseChunk();
      } else if held != [] && buffer != [] && |held| + |buffer| <= MAX_BYTES {
        held := held + buffer;
        buffer := [];
        gear.Reset();
      }
    }

    /** The unit whose header was just pushed is large: make its header begin a chunk. */
    method LargeUnitStarts(headerLen: nat) returns (chunks: seq<seq<Byte>>)
      requires Valid()
      modifies this, gear
      ensures Valid() && Out(View(), chunks) == Apply(Parameters(), old(View()), LargeUnit(headerLen))
    {
      hide CutAfter, FoldFrom;
      chunks := [];
      if |buffer| <= headerLen {
        return;
      }
      var cut := |buffer| - headerLen;
      var header := buffer[cut..];
      buffer := buffer[..cut];
      if held != [] && |held| + |buffer| <= MAX_BYTES {
        held := held + buffer;
        buffer := [];
      } else {
        chunks := CloseChunk();
      }
      gear.Reset();
      gear.UpdateAll(header);
      buffer := buffer + header;
      assert buffer == header;
    }

    /** Append one accepted byte, and cut if the hash says so. */
    method PushByte(b: Byte) returns (chunks: seq<seq<Byte>>)
      requires Valid()
      modifies this, gear
      ensures Valid() && Out(View(), chunks) == Apply(Parameters(), old(View()), Push(b))
    {
      HashPush(gear.table, buffer, b);
      buffer := buffer + [b];
      gear.Update(b);
      seam := SeamOf(b);
      chunks := [];
      if CutHere() {
        chunks := CloseChunk();
      }
    }

    method Finish() returns (chunks: seq<seq<Byte>>)
      requires Valid()
      modifies this, gear
      ensures Valid() && View() == Assembly([], [], gate) && gate == old(gate)
      ensures chunks == Flush(old(View()))
    {
      chunks := [];
      if held != [] {
        chunks := chunks + [held];
        held := [];
      }
      if buffer != [] {
        chunks := chunks + [buffer];
        buffer := [];
      }
      gear.Reset();
    }

    /** Drop everything: the stream was rejected. */
    method Clear()
      requires Valid()
      modifies this, gear
      ensures Valid() && View() == Assembly([], [], gate) && gate == old(gate)
    {
      buffer, held := [], [];
      gear.Reset();
    }

    predicate CutHere()
      requires Valid() && buffer != [] && seam == SeamOf(buffer[|buffer| - 1])
      reads this, gear
      ensures CutHere() == CutAfter(Parameters(), gate, buffer)
    {
      var len := |buffer|;
      if len < MIN_BYTES then false
      else if len >= MAX_BYTES then true
      else
        var beforeTarget := len < TARGET_BYTES;
        match gate
        case PerByte => Cuts(gear.hash, if beforeTarget then GENERIC_STRICT else GENERIC_RELAXED)
        case TextSeam =>
          match (seam, beforeTarget)
          case (NoSeam, _) => false
          case (SoftSeam, true) => false
          case (StrictSeam, true) => Cuts(gear.hash, TEXT_STRICT)
          case (_, false) => Cuts(gear.hash, TEXT_RELAXED)
    }

    /** Close the buffered chunk: the held one goes out, the new one is held. */
    method CloseChunk() returns (chunks: seq<seq<Byte>>)
      modifies this, gear
      ensures Valid() && Out(View(), chunks) == Close(old(View()))
    {
      chunks := [];
      if held != [] {
        chunks := [held];
        held := [];
      }
      held, buffer := buffer, held;
      buffer := [];
      gear.Reset();
    }
  }

  // Laws of runs.

  lemma {:induction false} AssembleAppend(p: Params, a: Assembly, x: seq<Op>, y: seq<Op>)
    ensures var first := Assemble(p, a, x);
            var second := Assemble(p, first.next, y);
            Assemble(p, a, x + y) == Out(second.next, first.chunks + second.chunks)
  {
    hide Apply;
    if y == [] {
      assert x + y == x;
    } else {
      var front := y[..|y| - 1];
      assert (x + y)[..|x + y| - 1] == x + front;
      AssembleAppend(p, a, x, front);
    }
  }

  lemma AssembleOne(p: Params, a: Assembly, op: Op)
    ensures Assemble(p, a, [op]) == Apply(p, a, op)
  {
    assert [op][..0] == [];
    assert Assemble(p, a, []).chunks + Apply(p, a, op).chunks == Apply(p, a, op).chunks;
  }

  /** The bytes a list of operations pushes. */
  function Pushed(ops: seq<Op>): seq<Byte> {
    if ops == [] then []
    else
      var op := ops[|ops| - 1];
      Pushed(ops[..|ops| - 1]) + if op.Push? then [op.b] else []
  }

  lemma {:induction false} PushedAppend(x: seq<Op>, y: seq<Op>)
    ensures Pushed(x + y) == Pushed(x) + Pushed(y)
  {
    if y == [] {
      assert x + y == x;
    } else {
      assert (x + y)[..|x + y| - 1] == x + y[..|y| - 1];
      PushedAppend(x, y[..|y| - 1]);
    }
  }

  function Stored(out: Out): seq<Byte> {
    Flatten(out.chunks) + out.next.held + out.next.buffer
  }

  lemma ReleaseFlattens(x: seq<Byte>)
    ensures Flatten(Release(x)) == x
  {
    FlattenOne(x);
  }

  lemma CloseConserves(a: Assembly)
    ensures Stored(Close(a)) == a.held + a.buffer && Stored(Attach(a)) == a.held + a.buffer
  {
    ReleaseFlattens(a.held);
    assert Flatten([]) == [];
  }

  lemma ApplyConserves(p: Params, a: Assembly, op: Op)
    ensures Stored(Apply(p, a, op)) == a.held + a.buffer + if op.Push? then [op.b] else []
  {
    assert Flatten([]) == [];
    match op
    case SetGate(_) =>
    case Boundary => CloseConserves(a);
    case LargeUnit(n) =>
      if n < |a.buffer| {
        var cut := |a.buffer| - n;
        var before := a.(buffer := a.buffer[..cut]);
        CloseConserves(before);
        assert a.buffer[..cut] + a.buffer[cut..] == a.buffer;
        assert before.held + before.buffer + a.buffer[cut..] == a.held + (a.buffer[..cut] + a.buffer[cut..]);
      }
    case Push(b) =>
      var full := a.(buffer := a.buffer + [b]);
      CloseConserves(full);
      assert a.held + full.buffer == a.held + a.buffer + [b];
  }

  lemma StoredThen(chunks: seq<seq<Byte>>, last: Out)
    ensures Stored(Out(last.next, chunks + last.chunks)) == Flatten(chunks) + Stored(last)
  {
    FlattenAppend(chunks, last.chunks);
    Regroup(Flatten(chunks), Flatten(last.chunks), last.next.held, last.next.buffer);
  }

  /** Nothing is lost, duplicated or reordered: emitted, held and buffered bytes are the pushed ones. */
  lemma {:induction false} Conservation(p: Params, a: Assembly, ops: seq<Op>)
    ensures Stored(Assemble(p, a, ops)) == a.held + a.buffer + Pushed(ops)
  {
    hide Apply;
    if ops == [] {
      assert Flatten([]) == [];
    } else {
      hide Flatten;
      var front, op := ops[..|ops| - 1], ops[|ops| - 1];
      var mid := Assemble(p, a, front);
      Conservation(p, a, front);
      ApplyConserves(p, mid.next, op);
      StoredThen(mid.chunks, Apply(p, mid.next, op));
      Regroup(Flatten(mid.chunks), mid.next.held, mid.next.buffer, if op.Push? then [op.b] else []);
      Regroup(a.held, a.buffer, Pushed(front), if op.Push? then [op.b] else []);
    }
  }

  lemma FlushFlattens(chunks: seq<seq<Byte>>, a: Assembly)
    ensures Flatten(chunks + Flush(a)) == Stored(Out(a, chunks))
  {
    FlattenAppend(chunks, Flush(a));
    FlattenAppend(Release(a.held), Release(a.buffer));
    ReleaseFlattens(a.held);
    ReleaseFlattens(a.buffer);
    Regroup(Flatten(chunks), a.held, a.buffer, []);
  }

  /** The emitted chunks of a whole stream concatenate to the stream. */
  lemma ChunksCoverStream(p: Params, ops: seq<Op>)
    ensures Flatten(AllChunks(p, ops)) == Pushed(ops)
  {
    Conservation(p, FRESH, ops);
    var out := Assemble(p, FRESH, ops);
    FlushFlattens(out.chunks, out.next);
    assert FRESH.held + FRESH.buffer + Pushed(ops) == Pushed(ops);
  }

  predicate Legal(chunk: seq<Byte>) {
    0 < |chunk| <= MAX_BYTES
  }

  ghost predicate AllLegal(chunks: seq<seq<Byte>>) {
    forall i :: 0 <= i < |chunks| ==> Legal(chunks[i])
  }

  /** Between operations the buffer is below the maximum and the held chunk within it. */
  predicate Bounded(a: Assembly) {
    |a.buffer| < MAX_BYTES && |a.held| <= MAX_BYTES
  }

  lemma {:induction false} Envelope(p: Params, a: Assembly, ops: seq<Op>)
    requires ValidParams(p) && Bounded(a)
    ensures Bounded(Assemble(p, a, ops).next) && AllLegal(Assemble(p, a, ops).chunks)
  {
    if ops != [] {
      Envelope(p, a, ops[..|ops| - 1]);
    }
  }

  /** No chunk of any stream is empty or above 256 KiB. */
  lemma EveryChunkIsLegal(p: Params, ops: seq<Op>)
    requires ValidParams(p)
    ensures AllLegal(AllChunks(p, ops))
  {
    Envelope(p, FRESH, ops);
  }

  // Where chunks may end.

  /** Position `pos` begins a structural unit: a boundary was reported there, or a large unit's header begins there. */
  ghost predicate StructuralAt(ops: seq<Op>, pos: nat) {
    exists i :: 0 <= i < |ops| && MarksUnit(ops, i, pos)
  }

  ghost predicate MarksUnit(ops: seq<Op>, i: nat, pos: nat)
    requires i < |ops|
  {
    var here := |Pushed(ops[..i])|;
    || (ops[i].Boundary? && pos == here)
    || (ops[i].LargeUnit? && pos + ops[i].headerLen == here)
  }

  /** A content-defined cut was judged after byte `pos`, by the hash of the bytes since the previous cut. */
  ghost predicate ContentCutAt(p: Params, ops: seq<Op>, pos: nat) {
    exists i :: 0 <= i < |ops| && MarksCut(p, ops, i, pos)
  }

  ghost predicate MarksCut(p: Params, ops: seq<Op>, i: nat, pos: nat)
    requires i < |ops|
  {
    var a := Assemble(p, FRESH, ops[..i]).next;
    ops[i].Push? && pos == |Pushed(ops[..i])| + 1 && CutAfter(p, a.gate, a.buffer + [ops[i].b])
  }

  /** A legal place for a chunk of `len` bytes to end. */
  ghost predicate LegalEnd(p: Params, ops: seq<Op>, pos: nat, len: nat) {
    StructuralAt(ops, pos) || (ContentCutAt(p, ops, pos) && MIN_BYTES <= len)
  }

  lemma LegalEndExtends(p: Params, ops: seq<Op>, op: Op, pos: nat, len: nat)
    requires LegalEnd(p, ops, pos, len)
    ensures LegalEnd(p, ops + [op], pos, len)
  {
    var more := ops + [op];
    if StructuralAt(ops, pos) {
      var i :| 0 <= i < |ops| && MarksUnit(ops, i, pos);
      assert more[..i] == ops[..i];
      assert MarksUnit(more, i, pos);
    } else {
      var i :| 0 <= i < |ops| && MarksCut(p, ops, i, pos);
      assert more[..i] == ops[..i];
      assert MarksCut(p, more, i, pos);
    }
  }

  /** Chunk `k` of `chunks` ends at a legal place of the stream `ops`. */
  ghost predicate EndsLegally(p: Params, ops: seq<Op>, chunks: seq<seq<Byte>>, k: nat)
    requires k < |chunks|
  {
    LegalEnd(p, ops, |Flatten(chunks[..k + 1])|, |chunks[k]|)
  }

  ghost predicate AllEndLegally(p: Params, ops: seq<Op>, chunks: seq<seq<Byte>>) {
    forall k :: 0 <= k < |chunks| ==> EndsLegally(p, ops, chunks, k)
  }

  /** The closed chunks of a run, the held one included. */
  function Closed(out: Out): seq<seq<Byte>> {
    out.chunks + Release(out.next.held)
  }

  /** A step either leaves the closed chunks alone, extends the last, or closes one more. */
  lemma ClosedStep(p: Params, ops: seq<Op>, op: Op)
    ensures var old_ := Closed(Assemble(p, FRESH, ops));
            var new_ := Closed(Assemble(p, FRESH, ops + [op]));
            || new_ == old_
            || (|new_| == |old_| > 0 && new_[..|new_| - 1] == old_[..|old_| - 1])
            || (|new_| == |old_| + 1 && new_[..|old_|] == old_)
  {
    assert (ops + [op])[..|ops|] == ops;
  }

  lemma ClosedEndsAt(p: Params, ops: seq<Op>)
    ensures var out := Assemble(p, FRESH, ops);
            |Flatten(Closed(out))| + |out.next.buffer| == |Pushed(ops)|
  {
    var out := Assemble(p, FRESH, ops);
    Conservation(p, FRESH, ops);
    FlattenAppend(out.chunks, Release(out.next.held));
    FlattenOne(out.next.held);
  }

  /** Which operations change the closed chunks, and what they leave in the buffer. */
  lemma ClosedChange(p: Params, a: Assembly, chunks: seq<seq<Byte>>, op: Op)
    requires ValidParams(p)
    ensures var step := Apply(p, a, op);
            var after := Closed(Out(step.next, chunks + step.chunks));
            after != Closed(Out(a, chunks)) ==>
              && after != []
              && !op.SetGate?
              && (op.Boundary? ==> step.next.buffer == [])
              && (op.LargeUnit? ==> |step.next.buffer| == op.headerLen)
              && (op.Push? ==> step.next.buffer == [] && CutAfter(p, a.gate, a.buffer + [op.b])
                               && MIN_BYTES <= |after[|after| - 1]|)
  {
    var step := Apply(p, a, op);
    assert chunks + [] == chunks;
    match op
    case SetGate(_) =>
    case Boundary =>
    case LargeUnit(n) =>
    case Push(b) =>
  }

  lemma ClosedChangesLegally(p: Params, ops: seq<Op>, op: Op)
    requires ValidParams(p)
    ensures var old_ := Closed(Assemble(p, FRESH, ops));
            var new_ := Closed(Assemble(p, FRESH, ops + [op]));
            new_ != old_ ==> new_ != [] && LegalEnd(p, ops + [op], |Flatten(new_)|, |new_[|new_| - 1]|)
  {
    var more := ops + [op];
    assert more[..|ops|] == ops && more[|ops|] == op;
    var before := Assemble(p, FRESH, ops);
    ClosedEndsAt(p, more);
    ClosedChange(p, before.next, before.chunks, op);
    var end := |Flatten(Closed(Assemble(p, FRESH, more)))|;
    if Closed(Assemble(p, FRESH, more)) != Closed(before) {
      if op.Push? {
        assert MarksCut(p, more, |ops|, end);
      } else {
        assert MarksUnit(more, |ops|, end);
      }
    }
  }

  /** When the last closed chunk changes, it ends where the operation says it may. */
  lemma LastClosedEndsLegally(p: Params, ops: seq<Op>, op: Op)
    requires ValidParams(p)
    ensures var old_ := Closed(Assemble(p, FRESH, ops));
            var new_ := Closed(Assemble(p, FRESH, ops + [op]));
            new_ != old_ ==> new_ != [] && EndsLegally(p, ops + [op], new_, |new_| - 1)
  {
    var new_ := Closed(Assemble(p, FRESH, ops + [op]));
    ClosedChangesLegally(p, ops, op);
    assert new_[..|new_|] == new_;
  }

  /** Every closed chunk ends at a structural position or at a content cut, and if it is below the minimum, at a structural one. */
  lemma {:induction false} ClosedChunksEndLegally(p: Params, ops: seq<Op>)
    requires ValidParams(p)
    ensures AllEndLegally(p, ops, Closed(Assemble(p, FRESH, ops)))
    decreases |ops|
  {
    hide Apply, Flatten;
    if ops != [] {
      var front, op := ops[..|ops| - 1], ops[|ops| - 1];
      assert ops == front + [op];
      ClosedChunksEndLegally(p, front);
      var old_ := Closed(Assemble(p, FRESH, front));
      var new_ := Closed(Assemble(p, FRESH, ops));
      ClosedStep(p, front, op);
      LastClosedEndsLegally(p, front, op);
      forall k | 0 <= k < |new_| ensures EndsLegally(p, ops, new_, k) {
        if k < |old_| && (k + 1 < |new_| || new_ == old_) {
          assert new_[..k + 1] == old_[..k + 1] && new_[k] == old_[k] by {
            if new_ != old_ && |new_| == |old_| {
              assert new_[..k + 1] == new_[..|new_| - 1][..k + 1];
              assert old_[..k + 1] == old_[..|old_| - 1][..k + 1];
              assert new_[k] == new_[..|new_| - 1][k] && old_[k] == old_[..|old_| - 1][k];
            } else if new_ != old_ {
              assert new_[..k + 1] == new_[..|old_|][..k + 1];
              assert new_[k] == new_[..|old_|][k];
            }
          }
          assert EndsLegally(p, front, old_, k);
          LegalEndExtends(p, front, op, |Flatten(old_[..k + 1])|, |old_[k]|);
        }
      }
    } else {
      assert Closed(Assemble(p, FRESH, ops)) == [];
    }
  }

  /** In a finished stream, every chunk but the last ends legally. */
  lemma ChunksEndLegally(p: Params, ops: seq<Op>, k: nat)
    requires ValidParams(p) && k + 1 < |AllChunks(p, ops)|
    ensures EndsLegally(p, ops, AllChunks(p, ops), k)
  {
    var out := Assemble(p, FRESH, ops);
    var closed := Closed(out);
    ClosedChunksEndLegally(p, ops);
    assert AllChunks(p, ops) == closed + Release(out.next.buffer);
    assert AllChunks(p, ops)[..k + 1] == closed[..k + 1];
    assert EndsLegally(p, ops, closed, k);
  }
}
