/**
 * The same bytes become the same chunks: how the assembler cuts a large unit, whatever precedes and follows it
 * (README.md, "How similar files end up sharing chunks").
 */
module LargeUnits {
  import opened Bytes
  import opened Gear
  import opened Assembler

  /** The push of each byte of `s`. */
  function Pushes(s: seq<Byte>): seq<Op> {
    if s == [] then [] else Pushes(s[..|s| - 1]) + [Push(s[|s| - 1])]
  }

  /** Content-defined cutting of `s` after `buffer`: the chunks cut, and what stays uncut. */
  datatype Cut = Cut(chunks: seq<seq<Byte>>, rest: seq<Byte>)

  function Content(p: Params, gate: Gate, buffer: seq<Byte>, s: seq<Byte>): Cut {
    if s == [] then Cut([], buffer)
    else
      var front := Content(p, gate, buffer, s[..|s| - 1]);
      var grown := front.rest + [s[|s| - 1]];
      if CutAfter(p, gate, grown) then Cut(front.chunks + [grown], []) else Cut(front.chunks, grown)
  }

  /** Pushing bytes is content-defined cutting, one chunk held back. */
  lemma {:induction false} PushesCut(p: Params, a: Assembly, s: seq<Byte>)
    ensures var cut := Content(p, a.gate, a.buffer, s);
            var out := Assemble(p, a, Pushes(s));
            && out.next.buffer == cut.rest && out.next.gate == a.gate
            && Closed(out) == Release(a.held) + cut.chunks
            && (cut.chunks == [] ==> out.next.held == a.held && out.chunks == [])
  {
    hide CutAfter;
    if s != [] {
      hide Assemble, Pushes;
      var front, b := s[..|s| - 1], s[|s| - 1];
      assert s == front + [b];
      PushesCut(p, a, front);
      PushesStep(p, a, front, b);
      var mid := Assemble(p, a, Pushes(front));
      if CutAfter(p, a.gate, mid.next.buffer + [b]) {
        assert Closed(Assemble(p, a, Pushes(s))) == Closed(mid) + [mid.next.buffer + [b]];
      }
    }
  }

  // Closed chunks only ever grow: at the end of the list, or the last one at its own end.

  /** `ys` is `xs` with its last chunk possibly extended and more chunks after it. */
  predicate Grown(xs: seq<seq<Byte>>, ys: seq<seq<Byte>>) {
    |xs| <= |ys| && (xs != [] ==> xs[..|xs| - 1] == ys[..|xs| - 1] && xs[|xs| - 1] <= ys[|xs| - 1])
  }

  lemma GrownTrans(xs: seq<seq<Byte>>, ys: seq<seq<Byte>>, zs: seq<seq<Byte>>)
    requires Grown(xs, ys) && Grown(ys, zs)
    ensures Grown(xs, zs)
  {
    if xs != [] {
      var n := |xs| - 1;
      assert ys[..n] == ys[..|ys| - 1][..n] && zs[..n] == zs[..|ys| - 1][..n];
      if n < |ys| - 1 {
        assert ys[n] == ys[..|ys| - 1][n] && zs[n] == zs[..|ys| - 1][n];
      }
    }
  }

  lemma ClosedGrowsByOne(p: Params, a: Assembly, chunks: seq<seq<Byte>>, op: Op)
    ensures var step := Apply(p, a, op);
            Grown(Closed(Out(a, chunks)), Closed(Out(step.next, chunks + step.chunks)))
  {
    hide CutAfter, Grown;
    assert chunks + [] == chunks;
    GrownSelf(Closed(Out(a, chunks)));
    match op
    case SetGate(_) =>
    case Boundary =>
      AttachGrows(a, chunks);
      CloseGrows(a, chunks);
    case LargeUnit(n) =>
      if n < |a.buffer| {
        var before := a.(buffer := a.buffer[..|a.buffer| - n]);
        AttachGrows(before, chunks);
        CloseGrows(before, chunks);
      }
    case Push(b) =>
      CloseGrows(a.(buffer := a.buffer + [b]), chunks);
  }

  lemma AttachGrows(a: Assembly, chunks: seq<seq<Byte>>)
    ensures a.held != [] ==> Grown(chunks + Release(a.held), chunks + Release(a.held + a.buffer))
  {
    if a.held != [] {
      var before, after := chunks + [a.held], chunks + [a.held + a.buffer];
      assert before[..|chunks|] == chunks == after[..|chunks|];
    }
  }

  lemma CloseGrows(a: Assembly, chunks: seq<seq<Byte>>)
    ensures Grown(chunks + Release(a.held), chunks + Release(a.held) + Release(a.buffer))
  {
    GrownAppend(chunks + Release(a.held), Release(a.buffer));
  }

  lemma {:induction false} ClosedGrows(p: Params, a: Assembly, chunks: seq<seq<Byte>>, ops: seq<Op>)
    ensures var out := Assemble(p, a, ops);
            Grown(Closed(Out(a, chunks)), Closed(Out(out.next, chunks + out.chunks)))
  {
    hide Apply, Closed;
    if ops == [] {
      assert chunks + [] == chunks;
      assert Grown(Closed(Out(a, chunks)), Closed(Out(a, chunks)));
    } else {
      var front := ops[..|ops| - 1];
      var mid := Assemble(p, a, front);
      ClosedGrows(p, a, chunks, front);
      ClosedGrowsByOne(p, mid.next, chunks + mid.chunks, ops[|ops| - 1]);
      var step := Apply(p, mid.next, ops[|ops| - 1]);
      assert chunks + mid.chunks + step.chunks == chunks + (mid.chunks + step.chunks);
      GrownTrans(Closed(Out(a, chunks)), Closed(Out(mid.next, chunks + mid.chunks)),
                 Closed(Out(step.next, chunks + mid.chunks + step.chunks)));
    }
  }

  // A large unit in the hands of the assembler.

  /** The operations of a large unit: its boundary, its header, the realignment, its payload. */
  function UnitOps(header: seq<Byte>, payload: seq<Byte>): seq<Op> {
    [Boundary] + Pushes(header) + [LargeUnit(|header|)] + Pushes(payload)
  }

  /** No content cut falls inside a header pushed after `buffer`. */
  predicate HeaderUncut(p: Params, buffer: seq<Byte>, header: seq<Byte>) {
    forall k :: 0 < k <= |header| ==> !CutAfter(p, PerByte, buffer + header[..k])
  }

  /** The content-defined chunks of a unit: a function of its bytes alone. */
  function UnitChunks(p: Params, header: seq<Byte>, payload: seq<Byte>): (chunks: seq<seq<Byte>>)
    ensures chunks != []
  {
    var cut := Content(p, PerByte, header, payload);
    if cut.chunks == [] then [header + payload] else cut.chunks
  }

  lemma UncutPrefix(p: Params, buffer: seq<Byte>, h: seq<Byte>, n: nat)
    requires n <= |h| && HeaderUncut(p, buffer, h)
    ensures HeaderUncut(p, buffer, h[..n])
    ensures 0 < n ==> !CutAfter(p, PerByte, buffer + h[..n])
  {
    hide CutAfter;
    var front := h[..n];
    forall k | 0 < k <= |front| ensures !CutAfter(p, PerByte, buffer + front[..k]) {
      assert front[..k] == h[..k];
    }
  }

  /** One more byte pushed. */
  lemma PushesStep(p: Params, a: Assembly, s: seq<Byte>, b: Byte)
    ensures var mid := Assemble(p, a, Pushes(s));
            var step := Apply(p, mid.next, Push(b));
            Assemble(p, a, Pushes(s + [b])) == Out(step.next, mid.chunks + step.chunks)
  {
    hide Apply;
    assert (s + [b])[..|s|] == s;
    assert Pushes(s + [b])[..|Pushes(s)|] == Pushes(s);
  }

  lemma {:induction false} UncutPushes(p: Params, a: Assembly, h: seq<Byte>)
    requires a.gate == PerByte && HeaderUncut(p, a.buffer, h)
    ensures Assemble(p, a, Pushes(h)) == Out(a.(buffer := a.buffer + h), [])
  {
    hide CutAfter, Apply, HeaderUncut, Assemble, Pushes;
    if h == [] {
      PushesNothing(p, a);
      assert a.buffer + h == a.buffer;
    } else {
      var front, b := h[..|h| - 1], h[|h| - 1];
      assert h == front + [b] && h[..|h|] == h;
      UncutPrefix(p, a.buffer, h, |h| - 1);
      UncutPushes(p, a, front);
      UncutPrefix(p, a.buffer, h, |h|);
      assert a.buffer + front + [b] == a.buffer + h;
      UncutPush(p, a, front, b);
    }
  }

  lemma PushesNothing(p: Params, a: Assembly)
    ensures Assemble(p, a, Pushes([])) == Out(a, [])
  {
  }

  lemma UncutPush(p: Params, a: Assembly, s: seq<Byte>, b: Byte)
    requires !CutAfter(p, a.gate, a.buffer + s + [b])
    requires Assemble(p, a, Pushes(s)) == Out(a.(buffer := a.buffer + s), [])
    ensures Assemble(p, a, Pushes(s + [b])) == Out(a.(buffer := a.buffer + s + [b]), [])
  {
    hide CutAfter, Assemble, Pushes;
    PushesStep(p, a, s, b);
  }

  /** Once its header is in, a large unit stands alone in the buffer, everything before it closed. */
  lemma UnitAligned(p: Params, a: Assembly, h: seq<Byte>)
    requires a.gate == PerByte && h != [] && HeaderUncut(p, Apply(p, a, Boundary).next.buffer, h)
    ensures var out := Assemble(p, a, [Boundary] + Pushes(h) + [LargeUnit(|h|)]);
            && out.next.buffer == h && out.next.gate == PerByte
  {
    var begun := Apply(p, a, Boundary);
    var held := Out(begun.next.(buffer := begun.next.buffer + h), []);
    AssembleAppend(p, a, [Boundary] + Pushes(h), [LargeUnit(|h|)]);
    AssembleAppend(p, a, [Boundary], Pushes(h));
    AssembleOne(p, a, Boundary);
    UncutPushes(p, begun.next, h);
    AssembleOne(p, held.next, LargeUnit(|h|));
  }

  lemma {:induction false} NothingCut(p: Params, gate: Gate, buffer: seq<Byte>, s: seq<Byte>)
    requires Content(p, gate, buffer, s).chunks == []
    ensures Content(p, gate, buffer, s).rest == buffer + s
  {
    hide CutAfter;
    if s != [] {
      NothingCut(p, gate, buffer, s[..|s| - 1]);
    }
  }

  /** The chunks closed before a unit, once its header is in: exactly the bytes before it. */
  function Before(p: Params, a: Assembly, chunks: seq<seq<Byte>>, h: seq<Byte>): seq<seq<Byte>> {
    var out := Assemble(p, a, [Boundary] + Pushes(h) + [LargeUnit(|h|)]);
    chunks + Closed(out)
  }

  lemma {:induction false} PushedPushes(s: seq<Byte>)
    ensures Pushed(Pushes(s)) == s
  {
    if s != [] {
      PushedPushes(s[..|s| - 1]);
      assert Pushes(s)[..|Pushes(s)| - 1] == Pushes(s[..|s| - 1]);
    }
  }

  lemma PushedUnitHeader(h: seq<Byte>)
    ensures Pushed([Boundary] + Pushes(h) + [LargeUnit(|h|)]) == h
  {
    PushedAppend([Boundary] + Pushes(h), [LargeUnit(|h|)]);
    PushedAppend([Boundary], Pushes(h));
    PushedPushes(h);
    assert Pushed([Boundary]) == [] && Pushed([LargeUnit(|h|)]) == [];
  }

  lemma BeforeIsBefore(p: Params, a: Assembly, chunks: seq<seq<Byte>>, h: seq<Byte>)
    requires a.gate == PerByte && h != [] && HeaderUncut(p, Apply(p, a, Boundary).next.buffer, h)
    ensures Flatten(Before(p, a, chunks, h)) == Flatten(chunks) + a.held + a.buffer
  {
    hide Apply, Flatten, HeaderUncut, Pushes;
    var ops := [Boundary] + Pushes(h) + [LargeUnit(|h|)];
    var out := Assemble(p, a, ops);
    Conservation(p, a, ops);
    PushedUnitHeader(h);
    UnitAligned(p, a, h);
    FlattenAppend(out.chunks, Release(out.next.held));
    ReleaseFlattens(out.next.held);
    FlattenAppend(chunks, Closed(out));
    SameTail(Flatten(out.chunks) + out.next.held, a.held + a.buffer, h);
    Regroup(Flatten(chunks), a.held, a.buffer, []);
  }

  lemma SameTail(x: seq<Byte>, y: seq<Byte>, t: seq<Byte>)
    requires x + t == y + t
    ensures x == y
  {
    assert |x| == |y|;
    assert x == (x + t)[..|x|] && y == (y + t)[..|y|];
  }

  /** The end of a unit: either a stream's end or the boundary of what follows. */
  predicate AfterUnit(more: seq<Op>) {
    more == [] || more[0] == Boundary
  }

  /** A unit that was never cut inside is closed whole by what follows it. */
  lemma WholeUnitCloses(p: Params, a: Assembly, chunks: seq<seq<Byte>>, more: seq<Op>)
    requires AfterUnit(more) && 0 < |a.buffer| && (more != [] ==> p.unitMin <= |a.buffer|)
    ensures var out := Assemble(p, a, more);
            Grown(Closed(Out(a, chunks)) + [a.buffer], chunks + out.chunks + Flush(out.next))
  {
    hide Apply, Grown, Assemble;
    var unit := Closed(Out(a, chunks)) + [a.buffer];
    if more == [] {
      EndOfRun(p, a, chunks);
      assert chunks + Flush(a) == unit;
      GrownSelf(unit);
    } else {
      var closed := Close(a);
      assert more == [Boundary] + more[1..];
      AssembleAppend(p, a, [Boundary], more[1..]);
      AssembleOne(p, a, Boundary);
      ApplyBoundary(p, a);
      FlushGrows(p, closed.next, chunks + closed.chunks, more[1..]);
      var out := Assemble(p, closed.next, more[1..]);
      assert chunks + closed.chunks + out.chunks == chunks + (closed.chunks + out.chunks);
      assert Closed(Out(closed.next, chunks + closed.chunks)) == unit;
    }
  }

  lemma EndOfRun(p: Params, a: Assembly, chunks: seq<seq<Byte>>)
    ensures Assemble(p, a, []) == Out(a, []) && chunks + [] == chunks
  {
  }

  lemma GrownSelf(xs: seq<seq<Byte>>)
    ensures Grown(xs, xs)
  {
  }

  lemma GrownAppend(xs: seq<seq<Byte>>, more: seq<seq<Byte>>)
    ensures Grown(xs, xs + more)
  {
    if xs != [] {
      assert xs[..|xs| - 1] == (xs + more)[..|xs| - 1];
    }
  }

  lemma ApplyBoundary(p: Params, a: Assembly)
    requires p.unitMin <= |a.buffer|
    ensures Apply(p, a, Boundary) == Close(a)
  {
  }

  /** The chunks of a finished stream grow out of the chunks closed at any moment before. */
  lemma FlushGrows(p: Params, a: Assembly, chunks: seq<seq<Byte>>, ops: seq<Op>)
    ensures var out := Assemble(p, a, ops);
            Grown(Closed(Out(a, chunks)), chunks + out.chunks + Flush(out.next))
  {
    hide Apply, Assemble, Grown;
    var out := Assemble(p, a, ops);
    ClosedGrows(p, a, chunks, ops);
    var closed := Closed(Out(out.next, chunks + out.chunks));
    assert chunks + out.chunks + Flush(out.next) == closed + Release(out.next.buffer);
    GrownAppend(closed, Release(out.next.buffer));
    GrownTrans(Closed(Out(a, chunks)), closed, closed + Release(out.next.buffer));
  }

  lemma UnitSoFar(a: Assembly, chunks: seq<seq<Byte>>, cut: seq<seq<Byte>>, mid: Out)
    requires Closed(mid) == Release(a.held) + cut
    ensures Closed(Out(mid.next, chunks + mid.chunks)) == Closed(Out(a, chunks)) + cut
  {
    assert chunks + mid.chunks + Release(mid.next.held) == chunks + (Release(a.held) + cut) == chunks + Release(a.held) + cut;
  }

  /** From the moment its header is in, a unit's chunks are the ones its own bytes decide. */
  lemma UnitIsCut(p: Params, a: Assembly, chunks: seq<seq<Byte>>, h: seq<Byte>, payload: seq<Byte>, more: seq<Op>)
    requires ValidParams(p) && AfterUnit(more) && h != []
    requires a.gate == PerByte && a.buffer == h && (more != [] ==> p.unitMin <= |h| + |payload|)
    ensures var out := Assemble(p, a, Pushes(payload) + more);
            Grown(Closed(Out(a, chunks)) + UnitChunks(p, h, payload), chunks + out.chunks + Flush(out.next))
  {
    hide Apply, Content, Assemble, Grown, Flush, AfterUnit;
    PushesCut(p, a, payload);
    AssembleAppend(p, a, Pushes(payload), more);
    var mid := Assemble(p, a, Pushes(payload));
    var out := Assemble(p, mid.next, more);
    assert chunks + mid.chunks + out.chunks == chunks + (mid.chunks + out.chunks);
    var cut := Content(p, PerByte, h, payload);
    if cut.chunks == [] {
      NothingCut(p, PerByte, h, payload);
      assert mid.next.held == a.held && mid.chunks == [] && chunks + mid.chunks == chunks;
      WholeUnitCloses(p, mid.next, chunks + mid.chunks, more);
    } else {
      UnitSoFar(a, chunks, cut.chunks, mid);
      FlushGrows(p, mid.next, chunks + mid.chunks, more);
    }
  }

  /** Among `chunks`, the chunks of a unit start exactly at byte `at`; only the last may be extended. */
  ghost predicate HoldsUnit(chunks: seq<seq<Byte>>, at: nat, unit: seq<seq<Byte>>) {
    exists n: nat :: HoldsUnitFrom(chunks, n, at, unit)
  }

  predicate HoldsUnitFrom(chunks: seq<seq<Byte>>, n: nat, at: nat, unit: seq<seq<Byte>>) {
    && unit != [] && n + |unit| <= |chunks|
    && |Flatten(chunks[..n])| == at
    && chunks[n..n + |unit| - 1] == unit[..|unit| - 1]
    && unit[|unit| - 1] <= chunks[n + |unit| - 1]
  }

  lemma GrownHolds(before: seq<seq<Byte>>, unit: seq<seq<Byte>>, chunks: seq<seq<Byte>>)
    requires unit != [] && Grown(before + unit, chunks)
    ensures HoldsUnit(chunks, |Flatten(before)|, unit)
  {
    hide Flatten;
    var all := before + unit;
    var n := |before|;
    assert chunks[..|all| - 1] == all[..|all| - 1];
    assert chunks[..n] == chunks[..|all| - 1][..n] == before;
    assert chunks[n..n + |unit| - 1] == chunks[..|all| - 1][n..] == unit[..|unit| - 1];
    assert HoldsUnitFrom(chunks, n, |Flatten(before)|, unit);
  }

  /** A large unit whose header is not cut is chunked by its own bytes, at its own start. */
  lemma UnitChunked(p: Params, ops: seq<Op>, h: seq<Byte>, payload: seq<Byte>, more: seq<Op>)
    requires ValidParams(p) && AfterUnit(more) && h != [] && (more != [] ==> p.unitMin <= |h| + |payload|)
    requires var a := Assemble(p, FRESH, ops).next;
             a.gate == PerByte && HeaderUncut(p, Apply(p, a, Boundary).next.buffer, h)
    ensures HoldsUnit(AllChunks(p, ops + UnitOps(h, payload) + more), |Pushed(ops)|, UnitChunks(p, h, payload))
  {
    hide Apply, CutAfter, Flatten, HeaderUncut, Pushes, Grown, HoldsUnit, UnitChunks, Flush;
    var start := Assemble(p, FRESH, ops);
    var head := [Boundary] + Pushes(h) + [LargeUnit(|h|)];
    var aligned := Assemble(p, start.next, head);
    UnitAligned(p, start.next, h);
    BeforeIsBefore(p, start.next, start.chunks, h);
    Conservation(p, FRESH, ops);
    assert FRESH.held + FRESH.buffer + Pushed(ops) == Pushed(ops);
    var before := start.chunks + Closed(aligned);
    UnitIsCut(p, aligned.next, start.chunks + aligned.chunks, h, payload, more);
    assert Closed(Out(aligned.next, start.chunks + aligned.chunks)) == before;
    assert ops + UnitOps(h, payload) + more == (ops + head) + (Pushes(payload) + more);
    AssembleAppend(p, FRESH, ops + head, Pushes(payload) + more);
    AssembleAppend(p, FRESH, ops, head);
    GrownHolds(before, UnitChunks(p, h, payload), AllChunks(p, ops + UnitOps(h, payload) + more));
  }

  // A cut inside the header: the unit then begins no chunk.

  /** Some chunk starts (or the stream ends) at byte `at`. */
  ghost predicate ChunkStartsAt(chunks: seq<seq<Byte>>, at: nat) {
    exists n: nat :: n <= |chunks| && |Flatten(chunks[..n])| == at
  }

  lemma {:induction false} FlattenPrefixes(chunks: seq<seq<Byte>>, m: nat, n: nat)
    requires m <= n <= |chunks|
    ensures |Flatten(chunks[..m])| <= |Flatten(chunks[..n])|
    decreases n - m
  {
    if m < n {
      assert chunks[..n] == chunks[..n - 1] + [chunks[n - 1]];
      assert chunks[..n][..n - 1] == chunks[..n - 1];
      FlattenPrefixes(chunks, m, n - 1);
    }
  }

  /** A closed chunk that straddles byte `at` keeps every later chunk from starting there. */
  lemma Straddled(closed: seq<seq<Byte>>, chunks: seq<seq<Byte>>, at: nat)
    requires closed != [] && Grown(closed, chunks)
    requires |Flatten(closed[..|closed| - 1])| < at < |Flatten(closed)|
    ensures !ChunkStartsAt(chunks, at)
  {
    var m := |closed|;
    assert chunks[..m][..m - 1] == closed[..m - 1] && closed[..m] == closed;
    forall n: nat | n <= |chunks| ensures |Flatten(chunks[..n])| != at {
      if n < m {
        FlattenPrefixes(chunks, n, m - 1);
        assert chunks[..m - 1] == closed[..m - 1];
      } else {
        FlattenPrefixes(chunks, m, n);
        assert |Flatten(chunks[..m])| == |Flatten(closed[..m - 1])| + |chunks[m - 1]|;
      }
    }
  }

  /** The first `k` header bytes at which a content cut falls, if one does. */
  lemma FirstCut(p: Params, buffer: seq<Byte>, h: seq<Byte>) returns (k: nat)
    requires !HeaderUncut(p, buffer, h)
    ensures 0 < k <= |h| && CutAfter(p, PerByte, buffer + h[..k]) && HeaderUncut(p, buffer, h[..k - 1])
  {
    hide CutAfter;
    k := 1;
    while k < |h| && !CutAfter(p, PerByte, buffer + h[..k])
      invariant 0 < k && (h != [] ==> k <= |h|)
      invariant forall i :: 0 < i < k && i <= |h| ==> !CutAfter(p, PerByte, buffer + h[..i])
    {
      k := k + 1;
    }
    var front := h[..k - 1];
    forall i | 0 < i <= |front| ensures !CutAfter(p, PerByte, buffer + front[..i]) {
      assert front[..i] == h[..i];
    }
  }

  lemma {:induction false} PushesAt(s: seq<Byte>, i: nat)
    requires i < |s|
    ensures |Pushes(s)| == |s| && Pushes(s)[i] == Push(s[i])
  {
    PushesLen(s);
    if i < |s| - 1 {
      PushesAt(s[..|s| - 1], i);
    } else {
      PushesLen(s[..|s| - 1]);
    }
  }

  lemma PushesSnoc(s: seq<Byte>, k: nat)
    requires k < |s|
    ensures Pushes(s[..k + 1]) == Pushes(s[..k]) + [Push(s[k])]
  {
    assert s[..k + 1][..k] == s[..k];
  }

  lemma {:induction false} PushesSplit(s: seq<Byte>, t: seq<Byte>)
    ensures Pushes(s + t) == Pushes(s) + Pushes(t)
  {
    if t == [] {
      assert s + t == s;
    } else {
      assert (s + t)[..|s + t| - 1] == s + t[..|t| - 1];
      PushesSplit(s, t[..|t| - 1]);
    }
  }

  /** The cut inside the header closes a chunk of what was buffered and the header's bytes so far. */
  lemma CutCloses(p: Params, a: Assembly, chunks: seq<seq<Byte>>, h: seq<Byte>, k: nat)
    requires a.gate == PerByte && 0 < k <= |h|
    requires var begun := Apply(p, a, Boundary).next;
             CutAfter(p, PerByte, begun.buffer + h[..k]) && HeaderUncut(p, begun.buffer, h[..k - 1])
    ensures var out := Assemble(p, a, [Boundary] + Pushes(h[..k]));
            var closed := Closed(Out(out.next, chunks + out.chunks));
            var at := |Flatten(chunks)| + |a.held| + |a.buffer|;
            && closed != [] && |Flatten(closed)| == at + k
            && |Flatten(closed[..|closed| - 1])| == at - |Apply(p, a, Boundary).next.buffer|
  {
    hide Apply, CutAfter, HeaderUncut, Closed, Flatten;
    CutReached(p, a, h, k);
    CutEnds(p, a, chunks, h[..k], Assemble(p, a, [Boundary] + Pushes(h[..k])));
  }

  /** What is buffered there is held. */
  lemma CutReached(p: Params, a: Assembly, h: seq<Byte>, k: nat)
    requires a.gate == PerByte && 0 < k <= |h|
    requires var begun := Apply(p, a, Boundary).next;
             CutAfter(p, PerByte, begun.buffer + h[..k]) && HeaderUncut(p, begun.buffer, h[..k - 1])
    ensures Assemble(p, a, [Boundary] + Pushes(h[..k])).next == Assembly([], Apply(p, a, Boundary).next.buffer + h[..k], PerByte)
  {
    hide Apply, Assemble, Pushes, CutAfter, HeaderUncut;
    var begun, b := Apply(p, a, Boundary), h[k - 1];
    GateStays(p, a);
    UncutPushes(p, begun.next, h[..k - 1]);
    PushesSnoc(h, k - 1);
    AssembleAppend(p, a, [Boundary], Pushes(h[..k]));
    AssembleOne(p, a, Boundary);
    AssembleAppend(p, begun.next, Pushes(h[..k - 1]), [Push(b)]);
    var before := begun.next.(buffer := begun.next.buffer + h[..k - 1]);
    AssembleOne(p, before, Push(b));
    assert before.buffer + [b] == begun.next.buffer + h[..k];
    PushCloses(p, before, b);
  }

  lemma GateStays(p: Params, a: Assembly)
    ensures Apply(p, a, Boundary).next.gate == a.gate
  {
  }

  lemma PushCloses(p: Params, a: Assembly, b: Byte)
    requires CutAfter(p, a.gate, a.buffer + [b])
    ensures Apply(p, a, Push(b)).next == Assembly([], a.buffer + [b], a.gate)
  {
    hide CutAfter;
  }

  lemma {:induction false} PushesLen(s: seq<Byte>)
    ensures |Pushes(s)| == |s|
  {
    if s != [] {
      PushesLen(s[..|s| - 1]);
    }
  }

  lemma CutEnds(p: Params, a: Assembly, chunks: seq<seq<Byte>>, h: seq<Byte>, out: Out)
    requires out == Assemble(p, a, [Boundary] + Pushes(h))
    requires out.next.buffer == [] && out.next.held != []
    ensures var closed := Closed(Out(out.next, chunks + out.chunks));
            var at := |Flatten(chunks)| + |a.held| + |a.buffer|;
            && closed != [] && |Flatten(closed)| == at + |h|
            && |Flatten(closed[..|closed| - 1])| + |out.next.held| == at + |h|
  {
    hide Apply, Assemble;
    Conservation(p, a, [Boundary] + Pushes(h));
    PushedAppend([Boundary], Pushes(h));
    PushedPushes(h);
    assert Pushed([Boundary]) == [];
    FlattenAppend(chunks, out.chunks);
    var closed := Closed(Out(out.next, chunks + out.chunks));
    assert closed == chunks + out.chunks + [out.next.held];
    assert closed[..|closed| - 1] == chunks + out.chunks;
  }

  lemma GrownStarts(closed: seq<seq<Byte>>, chunks: seq<seq<Byte>>, at: nat)
    requires closed != [] && Grown(closed, chunks) && |Flatten(closed[..|closed| - 1])| == at
    ensures ChunkStartsAt(chunks, at)
  {
    var n := |closed| - 1;
    assert n <= |chunks| && |Flatten(chunks[..n])| == at;
  }

  /** A unit whose header a content cut falls into begins a chunk exactly when nothing was buffered before it. */
  lemma CutUnitDecides(p: Params, ops: seq<Op>, h: seq<Byte>, payload: seq<Byte>, more: seq<Op>)
    requires ValidParams(p)
    requires var a := Assemble(p, FRESH, ops).next;
             a.gate == PerByte && !HeaderUncut(p, Apply(p, a, Boundary).next.buffer, h)
    ensures ChunkStartsAt(AllChunks(p, ops + UnitOps(h, payload) + more), |Pushed(ops)|) <==>
            Apply(p, Assemble(p, FRESH, ops).next, Boundary).next.buffer == []
  {
    hide CutAfter, Flatten, HeaderUncut, Grown, Apply, Pushes, Closed, Flush, ChunkStartsAt;
    var start := Assemble(p, FRESH, ops);
    var k := FirstCut(p, Apply(p, start.next, Boundary).next.buffer, h);
    CutCloses(p, start.next, start.chunks, h, k);
    Conservation(p, FRESH, ops);
    var first := [Boundary] + Pushes(h[..k]);
    var rest := Pushes(h[k..]) + [LargeUnit(|h|)] + Pushes(payload) + more;
    PushesSplit(h[..k], h[k..]);
    assert h[..k] + h[k..] == h;
    assert ops + UnitOps(h, payload) + more == ops + first + rest;
    AssembleAppend(p, FRESH, ops + first, rest);
    AssembleAppend(p, FRESH, ops, first);
    var mid := Assemble(p, FRESH, ops + first);
    FlushGrows(p, mid.next, mid.chunks, rest);
    var all := AllChunks(p, ops + UnitOps(h, payload) + more);
    if Apply(p, start.next, Boundary).next.buffer == [] {
      GrownStarts(Closed(mid), all, |Pushed(ops)|);
    } else {
      Straddled(Closed(mid), all, |Pushed(ops)|);
    }
  }

  lemma {:induction false} NoGateOps(p: Params, a: Assembly, ops: seq<Op>)
    requires forall i :: 0 <= i < |ops| ==> !ops[i].SetGate?
    ensures Assemble(p, a, ops).next.gate == a.gate
  {
    hide CutAfter;
    if ops != [] {
      NoGateOps(p, a, ops[..|ops| - 1]);
    }
  }

  lemma HeldUnitStarts(chunks: seq<seq<Byte>>, at: nat, unit: seq<seq<Byte>>)
    requires HoldsUnit(chunks, at, unit)
    ensures ChunkStartsAt(chunks, at)
  {
    var n: nat :| HoldsUnitFrom(chunks, n, at, unit);
    assert n <= |chunks| && |Flatten(chunks[..n])| == at;
  }

  /** No cut can fall inside a header that ends short of the minimum chunk size. */
  lemma ShortBufferLeavesHeaderUncut(p: Params, buffer: seq<Byte>, h: seq<Byte>)
    requires |buffer| + |h| < MIN_BYTES
    ensures HeaderUncut(p, buffer, h)
  {
  }
}
