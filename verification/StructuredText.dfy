/** The structured-text-v1 chunker: text seams, and forced cuts that never split a scalar (src/chunker/structured_text/chunker.rs). */
module StructuredText {
  import opened Bytes
  import opened Gear
  import opened Utf8

  datatype Candidate = NoCandidate | LineEnd | SoftBreak

  function CandidateOf(b: Byte): Candidate {
    if b == '\n' as int then LineEnd
    else if b == '\t' as int || b == '\r' as int || b == ' ' as int || b == ',' as int || b == ';' as int || b == '.' as int
         || b == '}' as int || b == ']' as int || b == '>' as int || b == ')' as int
    then SoftBreak
    else NoCandidate
  }

  /** Whether a boundary falls after what is buffered, which ends a complete scalar. */
  predicate CutAfter(t: Table, buffer: seq<Byte>)
    requires buffer != []
  {
    && MIN_BYTES <= |buffer|
    && (MAX_BYTES <= |buffer| ||
        match CandidateOf(buffer[|buffer| - 1])
        case NoCandidate => false
        case LineEnd => Cuts(Hash(t, buffer), if |buffer| < TARGET_BYTES then TEXT_STRICT else TEXT_RELAXED)
        case SoftBreak => TARGET_BYTES <= |buffer| && Cuts(Hash(t, buffer), TEXT_RELAXED))
  }

  /** What is buffered, the end of its last complete scalar, and the validator. */
  datatype State = State(scan: Scan, buffer: seq<Byte>, last: nat)
  datatype Fed = Fed(state: State, chunks: seq<seq<Byte>>) | Faulted(before: seq<seq<Byte>>, fault: Fault)

  const FRESH := State(BOUNDARY, [], 0)

  /** A byte that completed a scalar. */
  function Completed(t: Table, scan: Scan, buffer: seq<Byte>): Fed
    requires buffer != []
  {
    if CutAfter(t, buffer) then Fed(State(scan, [], 0), [buffer]) else Fed(State(scan, buffer, |buffer|), [])
  }

  /** A byte that left a scalar open: at the maximum the chunk closes before that scalar, whose bytes are carried over. */
  function Open(scan: Scan, buffer: seq<Byte>, last: nat): Fed
    requires last <= |buffer|
  {
    if MAX_BYTES <= |buffer| then Fed(State(scan, buffer[last..], 0), [buffer[..last]]) else Fed(State(scan, buffer, last), [])
  }

  function Feed(t: Table, x: State, b: Byte): Fed
    requires x.last <= |x.buffer|
  {
    match Step(x.scan, b)
    case Bad(fault) => Faulted([], fault)
    case Next(scan, completed) =>
      if completed then Completed(t, scan, x.buffer + [b]) else Open(scan, x.buffer + [b], x.last)
  }

  function FeedAll(t: Table, x: State, s: seq<Byte>): (r: Fed)
    requires x.last <= |x.buffer|
    ensures r.Fed? ==> r.state.last <= |r.state.buffer|
  {
    if s == [] then Fed(x, [])
    else
      match FeedAll(t, x, s[..|s| - 1])
      case Faulted(before, fault) => Faulted(before, fault)
      case Fed(mid, chunks) =>
        match Feed(t, mid, s[|s| - 1])
        case Faulted(_, fault) => Faulted(chunks, fault)
        case Fed(next, more) => Fed(next, chunks + more)
  }

  datatype Problem = StreamRejected | Malformed(fault: Fault) | EndsInsideScalar

  class StructuredTextChunker {
    const gear: GearHash
    var utf8: Utf8Scanner
    var offset: nat
    var lastBoundary: nat
    var rejected: bool
    var buffer: seq<Byte>

    ghost function View(): State
      reads this, utf8
    {
      State(utf8.View(), buffer, lastBoundary)
    }

    /** While the stream is accepted the hash is the gear fold of exactly the buffered bytes, carried ones included. */
    ghost predicate Valid()
      reads this, gear
    {
      !rejected ==> gear.hash == Hash(gear.table, buffer) && lastBoundary <= |buffer|
    }

    constructor (table: Table)
      ensures Valid() && !rejected && fresh(gear) && fresh(utf8) && gear.table == table && View() == FRESH
    {
      gear := new GearHash(table);
      utf8 := new Utf8Scanner();
      offset, lastBoundary, rejected, buffer := 0, 0, false, [];
    }

    predicate CutHere(b: Byte)
      requires Valid() && !rejected && buffer != [] && buffer[|buffer| - 1] == b
      reads this, gear
      ensures CutHere(b) == CutAfter(gear.table, buffer)
    {
      var len := |buffer|;
      if len < MIN_BYTES then false
      else if len >= MAX_BYTES then true
      else
        match (CandidateOf(b), len < TARGET_BYTES)
        case (NoCandidate, _) => false
        case (LineEnd, true) => Cuts(gear.hash, TEXT_STRICT)
        case (SoftBreak, true) => false
        case (_, false) => Cuts(gear.hash, TEXT_RELAXED)
    }

    method EmitWhole() returns (chunk: seq<Byte>)
      modifies this`buffer, this`lastBoundary, gear
      ensures chunk == old(buffer) && buffer == [] && lastBoundary == 0 && gear.hash == Hash(gear.table, buffer)
    {
      chunk := buffer;
      buffer, lastBoundary := [], 0;
      gear.Reset();
    }

    /** Close the chunk at the last scalar boundary; the open scalar's bytes start the next one, and re-seed its hash. */
    method EmitToLastBoundary() returns (chunk: seq<Byte>)
      requires lastBoundary <= |buffer|
      modifies this`buffer, this`lastBoundary, gear
      ensures chunk == old(buffer[..lastBoundary]) && buffer == old(buffer[lastBoundary..]) && lastBoundary == 0
      ensures gear.hash == Hash(gear.table, buffer)
    {
      var tail := buffer[lastBoundary..];
      chunk := buffer[..lastBoundary];
      buffer, lastBoundary := tail, 0;
      gear.Reset();
      gear.UpdateAll(tail);
    }

    method PushByte(b: Byte) returns (chunks: seq<seq<Byte>>, problem: Option<Problem>)
      requires Valid() && !rejected
      modifies this, gear, utf8
      ensures Valid() && utf8 == old(utf8)
      ensures match Feed(gear.table, old(View()), b)
              case Faulted(_, fault) => rejected && buffer == [] && chunks == [] && problem == Some(Malformed(fault))
              case Fed(next, more) => !rejected && View() == next && chunks == more && problem == None
    {
      hide CutAfter, FoldFrom, Step;
      chunks, problem := [], None;
      var r := utf8.Push(b);
      if r.Bad? {
        rejected, buffer := true, [];
        return [], Some(Malformed(r.fault));
      }
      offset := offset + 1;
      HashPush(gear.table, buffer, b);
      buffer := buffer + [b];
      gear.Update(b);
      if r.completed {
        lastBoundary := |buffer|;
        if CutHere(b) {
          var chunk := EmitWhole();
          chunks := [chunk];
        }
      } else if |buffer| >= MAX_BYTES {
        var chunk := EmitToLastBoundary();
        chunks := [chunk];
      }
    }

    method PushWindow(window: seq<Byte>) returns (chunks: seq<seq<Byte>>, problem: Option<Problem>)
      requires Valid()
      modifies this, gear, utf8
      ensures Valid() && utf8 == old(utf8)
      ensures old(rejected) ==> rejected && chunks == [] && problem == Some(StreamRejected)
      ensures !old(rejected) ==>
                match FeedAll(gear.table, old(View()), window)
                case Faulted(before, fault) => rejected && chunks == before && problem == Some(Malformed(fault))
                case Fed(next, all) => !rejected && View() == next && chunks == all && problem == None
    {
      hide Feed;
      chunks := [];
      if rejected {
        return [], Some(StreamRejected);
      }
      for i := 0 to |window|
        invariant Valid() && !rejected && utf8 == old(utf8)
        invariant FeedAll(gear.table, old(View()), window[..i]) == Fed(View(), chunks)
      {
        assert window[..i + 1][..i] == window[..i];
        var one;
        one, problem := PushByte(window[i]);
        if problem.Some? {
          FaultsFrom(gear.table, old(View()), window, i + 1);
          return;
        }
        chunks := chunks + one;
      }
      assert window[..|window|] == window;
      problem := None;
    }

    method Finish() returns (chunks: seq<seq<Byte>>, problem: Option<Problem>)
      requires Valid()
      modifies this, gear
      ensures Valid() && (utf8 == old(utf8) || fresh(utf8))
      ensures if old(rejected) then rejected && chunks == [] && problem == Some(StreamRejected)
              else if old(View()).scan.remaining != 0 then rejected && chunks == [] && problem == Some(EndsInsideScalar)
              else !rejected && problem == None && View().scan == BOUNDARY && buffer == []
                   && chunks == if old(buffer) == [] then [] else [old(buffer)]
    {
      chunks := [];
      if rejected {
        return [], Some(StreamRejected);
      }
      if !utf8.AtBoundary() {
        rejected, buffer := true, [];
        return [], Some(EndsInsideScalar);
      }
      if buffer != [] {
        var chunk := EmitWhole();
        chunks := [chunk];
      }
      utf8 := new Utf8Scanner();
      offset := 0;
      problem := None;
    }
  }

  /** A fault stays. */
  lemma {:induction false} FaultsFrom(t: Table, x: State, s: seq<Byte>, i: nat)
    requires x.last <= |x.buffer| && i <= |s| && FeedAll(t, x, s[..i]).Faulted?
    ensures FeedAll(t, x, s) == FeedAll(t, x, s[..i])
  {
    hide Feed;
    if i == |s| {
      assert s[..i] == s;
    } else {
      var front := s[..|s| - 1];
      assert front[..i] == s[..i];
      FaultsFrom(t, x, front, i);
    }
  }

  // What an accepted stream is cut into.

  /** How a chunk that is not the last may end: where the hash or the maximum says, or backed off an open scalar from the maximum. */
  ghost predicate LegalChunk(t: Table, chunk: seq<Byte>) {
    && chunk != [] && |chunk| <= MAX_BYTES && WellFormed(chunk)
    && (CutAfter(t, chunk) || MAX_BYTES - 3 <= |chunk|)
  }

  /** The buffer is whole scalars up to the last boundary, then the bytes of at most one open scalar. */
  ghost predicate BufferOk(x: State, cs: seq<Scalar>, got: seq<Byte>) {
    && x.buffer == EncodeAll(cs) + got && x.last == |EncodeAll(cs)| && |got| <= 3 && Partial(got, x.scan)
    && |x.buffer| < MAX_BYTES
  }

  lemma CompletedOk(t: Table, x: State, cs: seq<Scalar>, got: seq<Byte>, b: Byte) returns (ds: seq<Scalar>)
    requires BufferOk(x, cs, got) && Step(x.scan, b).Next? && Step(x.scan, b).completed
    ensures var r := Feed(t, x, b);
            r.Fed? && BufferOk(r.state, ds, []) && forall i :: 0 <= i < |r.chunks| ==> LegalChunk(t, r.chunks[i])
  {
    hide Encode, Step, CutAfter, Begin;
    var c := CompletedEncodes(got, x.scan, b);
    OneMoreScalar(cs, c);
    Assoc(EncodeAll(cs), got, [b]);
    var full := x.buffer + [b];
    assert EncodeAll(cs + [c]) == full;
    CompletedRests(x.scan, b);
    assert WellFormed(full) && full + [] == full && EncodeAll([]) + [] == [];
    if MAX_BYTES <= |full| {
      MaximumCuts(t, full);
    }
    if CutAfter(t, full) {
      ds := [];
      assert LegalChunk(t, full);
    } else {
      ds := cs + [c];
    }
  }

  lemma MaximumCuts(t: Table, buffer: seq<Byte>)
    requires MAX_BYTES <= |buffer|
    ensures CutAfter(t, buffer)
  {
  }

  lemma OpenOk(t: Table, x: State, cs: seq<Scalar>, got: seq<Byte>, b: Byte) returns (ds: seq<Scalar>, more: seq<Byte>)
    requires BufferOk(x, cs, got) && Step(x.scan, b).Next? && !Step(x.scan, b).completed
    ensures var r := Feed(t, x, b);
            r.Fed? && BufferOk(r.state, ds, more) && more != [] && forall i :: 0 <= i < |r.chunks| ==> LegalChunk(t, r.chunks[i])
  {
    hide Encode, Step, CutAfter, Begin, EncodeAll, Partial;
    PartialGrows(got, x.scan, b);
    Assoc(EncodeAll(cs), got, [b]);
    var full := x.buffer + [b];
    more := got + [b];
    assert full == EncodeAll(cs) + more && full[..x.last] == EncodeAll(cs) && full[x.last..] == more;
    NoScalars();
    assert [] + more == more && WellFormed(full[..x.last]);
    ds := if MAX_BYTES <= |full| then [] else cs;
  }

  lemma NoScalars()
    ensures EncodeAll([]) == []
  {
  }

  /** Every accepted prefix: legal chunks so far, and a buffer of whole scalars and at most one open. */
  lemma {:induction false} Shape(t: Table, s: seq<Byte>) returns (cs: seq<Scalar>, got: seq<Byte>)
    requires FeedAll(t, FRESH, s).Fed?
    ensures var r := FeedAll(t, FRESH, s);
            && BufferOk(r.state, cs, got) && (r.state.scan.remaining == 0 <==> got == [])
            && forall i :: 0 <= i < |r.chunks| ==> LegalChunk(t, r.chunks[i])
  {
    hide Encode, Step, CutAfter, Feed, LegalChunk, Partial;
    if s == [] {
      cs, got := [], [];
      StartsOk();
    } else {
      var front, b := s[..|s| - 1], s[|s| - 1];
      var cs0, got0 := Shape(t, front);
      var x := FeedAll(t, FRESH, front).state;
      FeedsOnStep(t, x, b);
      if Step(x.scan, b).completed {
        cs := CompletedOk(t, x, cs0, got0, b);
        got := [];
        RestsWhenNone(Feed(t, x, b).state, cs, got);
      } else {
        cs, got := OpenOk(t, x, cs0, got0, b);
        RestsWhenNone(Feed(t, x, b).state, cs, got);
      }
    }
  }

  lemma StartsOk()
    ensures BufferOk(FRESH, [], [])
  {
  }

  lemma FeedsOnStep(t: Table, x: State, b: Byte)
    requires x.last <= |x.buffer|
    ensures Feed(t, x, b).Fed? <==> Step(x.scan, b).Next?
    ensures Feed(t, x, b).Fed? ==> Feed(t, x, b).state.scan == Step(x.scan, b).scan
  {
    hide Step, CutAfter;
  }

  lemma RestsWhenNone(x: State, cs: seq<Scalar>, got: seq<Byte>)
    requires BufferOk(x, cs, got)
    ensures x.scan.remaining == 0 <==> got == []
  {
  }

  /** The chunker's validator runs on, whatever is cut. */
  lemma {:induction false} ScanIsRun(t: Table, s: seq<Byte>)
    ensures FeedAll(t, FRESH, s).Fed? <==> Run(s).Some?
    ensures FeedAll(t, FRESH, s).Fed? ==> FeedAll(t, FRESH, s).state.scan == Run(s).value
  {
    hide Step, Feed;
    if s != [] {
      var front := s[..|s| - 1];
      ScanIsRun(t, front);
      if Run(front).Some? {
        FeedsOnStep(t, FeedAll(t, FRESH, front).state, s[|s| - 1]);
      }
    }
  }

  /** Whether a whole stream is accepted. */
  predicate Accepted(t: Table, s: seq<Byte>) {
    FeedAll(t, FRESH, s).Fed? && FeedAll(t, FRESH, s).state.scan.remaining == 0
  }

  /** A stream is accepted exactly when it is well-formed UTF-8. */
  lemma AcceptsExactly(t: Table, s: seq<Byte>)
    ensures Accepted(t, s) <==> WellFormed(s)
  {
    hide FeedAll, Run;
    ScanIsRun(t, s);
    AcceptsExactlyWellFormed(s);
  }

  lemma FeedConserves(t: Table, x: State, b: Byte)
    requires x.last <= |x.buffer| && Feed(t, x, b).Fed?
    ensures var r := Feed(t, x, b); Flatten(r.chunks) + r.state.buffer == x.buffer + [b]
  {
    hide CutAfter, Step;
    var full := x.buffer + [b];
    FlattenOne(full);
    FlattenOne(full[..x.last]);
    assert full[..x.last] + full[x.last..] == full && full + [] == full;
  }

  lemma {:induction false} Conserves(t: Table, s: seq<Byte>)
    requires FeedAll(t, FRESH, s).Fed?
    ensures var r := FeedAll(t, FRESH, s); Flatten(r.chunks) + r.state.buffer == s
  {
    hide Feed, Flatten;
    if s == [] {
      NothingFlattens();
    } else {
      var front, b := s[..|s| - 1], s[|s| - 1];
      Conserves(t, front);
      var r := FeedAll(t, FRESH, front);
      var q := Feed(t, r.state, b);
      FeedConserves(t, r.state, b);
      FlattenAppend(r.chunks, q.chunks);
      Assoc(Flatten(r.chunks), Flatten(q.chunks), q.state.buffer);
      Assoc(Flatten(r.chunks), r.state.buffer, [b]);
      assert front + [b] == s;
    }
  }

  lemma NothingFlattens()
    ensures Flatten([]) == []
  {
  }

  /** Every chunk of a whole accepted stream. */
  function AllChunks(t: Table, s: seq<Byte>): seq<seq<Byte>>
    requires Accepted(t, s)
  {
    var r := FeedAll(t, FRESH, s);
    r.chunks + if r.state.buffer == [] then [] else [r.state.buffer]
  }

  /**
   * A well-formed stream is cut into chunks that are each well-formed, non-empty and at most the maximum, that make up
   * the stream, and of which every one but the last is at least the minimum and ends legally.
   */
  lemma ChunksOfText(t: Table, s: seq<Byte>)
    requires Accepted(t, s)
    ensures var chunks := AllChunks(t, s);
            && Flatten(chunks) == s
            && (forall i :: 0 <= i < |chunks| ==> chunks[i] != [] && |chunks[i]| <= MAX_BYTES && WellFormed(chunks[i]))
            && forall i :: 0 <= i < |chunks| - 1 ==> MIN_BYTES <= |chunks[i]| && LegalChunk(t, chunks[i])
  {
    hide FeedAll, CutAfter, Flatten, Encode, Partial;
    var r := FeedAll(t, FRESH, s);
    var cs, got := Shape(t, s);
    Conserves(t, s);
    assert EncodeAll(cs) + [] == EncodeAll(cs);
    if r.state.buffer == [] {
      assert r.chunks + [] == r.chunks && Flatten(r.chunks) + [] == Flatten(r.chunks);
    } else {
      FlattenAppend(r.chunks, [r.state.buffer]);
      FlattenOne(r.state.buffer);
    }
    forall i | 0 <= i < |r.chunks| ensures MIN_BYTES <= |r.chunks[i]| {
      assert LegalChunk(t, r.chunks[i]);
      LegalIsLong(t, r.chunks[i]);
    }
  }

  lemma LegalIsLong(t: Table, chunk: seq<Byte>)
    requires LegalChunk(t, chunk)
    ensures MIN_BYTES <= |chunk|
  {
  }
}
