/** When a compound is refused: counted by recursion on its bytes, container by container (src/decompose/decomposer.rs). */
module DecomposeRefusals {
  import opened Bytes
  import opened DecomposeSink
  import opened DecomposeReading
  import opened DecomposeWindows

  // How many entries and members there are in all; nothing when something among them is refused.

  function Plus(a: Option<nat>, b: Option<nat>): Option<nat> {
    if a.Some? && b.Some? then Some(a.value + b.value) else None
  }

  /** One entry or member with a safe path. */
  function PathCount(path: seq<Byte>): Option<nat> {
    if PathFault(path).Some? then None else Some(1)
  }

  /** What is inside a member, by its name and first bytes: nothing to count, or a container, with a level left for it. */
  function InsideCount<R>(readers: Readers<R>, path: seq<Byte>, bytes: seq<Byte>, depth: nat, ended: bool): Option<nat>
    decreases MAX_DEPTH - depth, 0
  {
    match readers.infer(path, Head(bytes)).container
    case None => Some(0)
    case Some(kind) =>
      if MAX_DEPTH <= depth + 1 then None
      else if ended then WholeCount(readers, kind, bytes, depth + 1)
      else PartCount(readers, kind, bytes, depth + 1)
  }

  function ReadCount<R>(readers: Readers<R>, read: Read, depth: nat): Option<nat>
    decreases MAX_DEPTH - depth, 1
  {
    match read
    case AnEntry(_, meta) => PathCount(meta.path)
    case AMember(meta, bytes) => Plus(PathCount(meta.path), InsideCount(readers, meta.path, bytes, depth, true))
  }

  function SaidCount<R>(readers: Readers<R>, said: seq<Read>, depth: nat): Option<nat>
    decreases MAX_DEPTH - depth, 2, |said|
  {
    if said == [] then Some(0) else Plus(SaidCount(readers, said[..|said| - 1], depth), ReadCount(readers, said[|said| - 1], depth))
  }

  /** A member whose bytes are still coming: it is not looked into before there are enough of them. */
  function OpenCount<R>(readers: Readers<R>, meta: Meta, bytes: seq<Byte>, depth: nat): Option<nat>
    decreases MAX_DEPTH - depth, 1
  {
    Plus(PathCount(meta.path), if |bytes| < THRESHOLD then Some(0) else InsideCount(readers, meta.path, bytes, depth, false))
  }

  function ToldCount<R>(readers: Readers<R>, t: Told, depth: nat): Option<nat>
    decreases MAX_DEPTH - depth, 3
  {
    match t
    case Unannounced => Some(0)
    case Between(past) => SaidCount(readers, past.said, depth)
    case Inside(past, meta, bytes) => Plus(SaidCount(readers, past.said, depth), OpenCount(readers, meta, bytes, depth))
  }

  /** The first bytes of a container of this kind, at this depth. */
  function PartCount<R>(readers: Readers<R>, kind: ContainerKind, bytes: seq<Byte>, depth: nat): Option<nat>
    decreases MAX_DEPTH - depth, 4
  {
    match Reading(readers, kind, bytes)
    case None => None
    case Some(s) => ToldCount(readers, s.told, depth)
  }

  /** All the bytes of one: its reader must let them end there, and inside no member. */
  function WholeCount<R>(readers: Readers<R>, kind: ContainerKind, bytes: seq<Byte>, depth: nat): Option<nat>
    decreases MAX_DEPTH - depth, 4
  {
    match ReadOut(readers, kind, bytes)
    case None => None
    case Some(account) => SaidCount(readers, account.past.said, depth)
  }

  // The count while a member is open: before it is looked into, after, and at its end.

  function StartedCount<R>(readers: Readers<R>, t: Told, depth: nat): Option<nat>
    requires t.Inside?
  {
    Plus(SaidCount(readers, t.past.said, depth), PathCount(t.meta.path))
  }

  function DecidedCount<R>(readers: Readers<R>, t: Told, depth: nat): Option<nat>
    requires t.Inside?
  {
    Plus(StartedCount(readers, t, depth), InsideCount(readers, t.meta.path, t.bytes, depth, false))
  }

  function EndedCount<R>(readers: Readers<R>, t: Told, depth: nat): Option<nat>
    requires t.Inside?
  {
    Plus(StartedCount(readers, t, depth), InsideCount(readers, t.meta.path, t.bytes, depth, true))
  }

  lemma InsideTold<R>(readers: Readers<R>, t: Told, depth: nat)
    requires t.Inside?
    ensures ToldCount(readers, t, depth) == if |t.bytes| < THRESHOLD then StartedCount(readers, t, depth) else DecidedCount(readers, t, depth)
    ensures ToldCount(readers, Between(Remember(t.past, AMember(t.meta, t.bytes))), depth) == EndedCount(readers, t, depth)
    ensures AtMost(DecidedCount(readers, t, depth), EndedCount(readers, t, depth))
  {
    hide SaidCount, InsideCount, PathFault;
    SaidSnoc(readers, t.past.said, AMember(t.meta, t.bytes), depth);
    InsideEnds(readers, t.meta.path, t.bytes, depth);
  }

  /** A count that is there and does not pass the cap. */
  predicate Within(count: Option<nat>) {
    Fits(count, 0)
  }

  /** Nor when there are `base` more already. */
  predicate Fits(count: Option<nat>, base: nat) {
    count.Some? && base + count.value <= MAX_TOTAL_MEMBERS
  }

  /** And `total` is what they come to. */
  predicate Holds(count: Option<nat>, base: nat, total: nat) {
    Fits(count, base) && total == base + count.value
  }

  /** A compound whose first bytes, or all of them, are as given is let through so far. */
  predicate LetThrough<R>(readers: Readers<R>, input: seq<Byte>) {
    |input| < THRESHOLD ||
    (readers.detect(Head(input)).Some? && Within(PartCount(readers, readers.detect(Head(input)).value, input, 0)))
  }

  predicate Decomposable<R>(readers: Readers<R>, input: seq<Byte>) {
    readers.detect(Head(input)).Some? && Within(WholeCount(readers, readers.detect(Head(input)).value, input, 0))
  }

  // More of the bytes never takes a refusal back, and never counts less.

  /** `b` counts at least what `a` does, or is refused. */
  predicate AtMost(a: Option<nat>, b: Option<nat>) {
    b.Some? ==> a.Some? && a.value <= b.value
  }

  lemma SaidSnoc<R>(readers: Readers<R>, said: seq<Read>, read: Read, depth: nat)
    ensures SaidCount(readers, said + [read], depth) == Plus(SaidCount(readers, said, depth), ReadCount(readers, read, depth))
  {
    hide ReadCount;
    assert (said + [read])[..|said|] == said;
  }

  lemma {:induction false} TellGrows<R>(readers: Readers<R>, t: Told, e: ReaderEvent, depth: nat)
    requires Tell(t, e).Some?
    ensures AtMost(ToldCount(readers, t, depth), ToldCount(readers, Tell(t, e).value, depth))
    decreases MAX_DEPTH - depth, 3
  {
    hide SaidCount, InsideCount, PathFault;
    match e
    case Announce(kind) => NothingSaid(readers, depth);
    case ReadEntry(entry, meta) =>
      SaidSnoc(readers, t.past.said, AnEntry(entry, meta), depth);
    case ReadStart(meta) =>
    case ReadBytes(bytes) =>
      if |t.bytes| >= THRESHOLD {
        InsideGrows(readers, t.meta.path, t.bytes, bytes, depth);
      }
    case ReadEnd(length) =>
      SaidSnoc(readers, t.past.said, AMember(t.meta, t.bytes), depth);
      InsideEnds(readers, t.meta.path, t.bytes, depth);
  }

  lemma NothingSaid<R>(readers: Readers<R>, depth: nat)
    ensures SaidCount(readers, [], depth) == Some(0)
  {
  }

  lemma {:induction false} TellAllGrows<R>(readers: Readers<R>, t: Told, es: seq<ReaderEvent>, depth: nat)
    requires TellAll(t, es).Some?
    ensures AtMost(ToldCount(readers, t, depth), ToldCount(readers, TellAll(t, es).value, depth))
    decreases MAX_DEPTH - depth, 4, |es|
  {
    hide ToldCount, Tell;
    if es != [] {
      TellGrows(readers, t, es[0], depth);
      TellAllGrows(readers, Tell(t, es[0]).value, es[1..], depth);
    }
  }

  lemma {:induction false} PartGrows<R>(readers: Readers<R>, kind: ContainerKind, bytes: seq<Byte>, more: seq<Byte>, depth: nat)
    ensures AtMost(PartCount(readers, kind, bytes, depth), PartCount(readers, kind, bytes + more, depth))
    decreases MAX_DEPTH - depth, 5, |more|
  {
    hide ToldCount, TellAll;
    if more == [] {
      assert bytes + more == bytes;
    } else {
      var front, b := more[..|more| - 1], more[|more| - 1];
      PartGrows(readers, kind, bytes, front, depth);
      assert bytes + more == (bytes + front) + [b];
      if Reading(readers, kind, bytes + more).Some? {
        assert (bytes + more)[..|bytes + more| - 1] == bytes + front;
        var s := Reading(readers, kind, bytes + front).value;
        TellAllGrows(readers, s.told, readers.push(s.reader, b).events, depth);
      }
    }
  }

  lemma {:induction false} PartOfWhole<R>(readers: Readers<R>, kind: ContainerKind, bytes: seq<Byte>, depth: nat)
    ensures AtMost(PartCount(readers, kind, bytes, depth), WholeCount(readers, kind, bytes, depth))
    decreases MAX_DEPTH - depth, 5, 0
  {
    hide TellAll, SaidCount;
    if ReadOut(readers, kind, bytes).Some? {
      var s := Reading(readers, kind, bytes).value;
      TellAllGrows(readers, s.told, readers.finish(s.reader).events, depth);
    }
  }

  lemma {:induction false} InsideGrows<R>(readers: Readers<R>, path: seq<Byte>, bytes: seq<Byte>, more: seq<Byte>, depth: nat)
    requires THRESHOLD <= |bytes|
    ensures AtMost(InsideCount(readers, path, bytes, depth, false), InsideCount(readers, path, bytes + more, depth, false))
    decreases MAX_DEPTH - depth, 2
  {
    hide PartCount;
    HeadGrows(bytes, more);
    var inside := readers.infer(path, Head(bytes)).container;
    if inside.Some? && depth + 1 < MAX_DEPTH {
      PartGrows(readers, inside.value, bytes, more, depth + 1);
    }
  }

  lemma HeadGrows(bytes: seq<Byte>, more: seq<Byte>)
    requires THRESHOLD <= |bytes|
    ensures Head(bytes + more) == Head(bytes)
  {
  }

  lemma {:induction false} InsideEnds<R>(readers: Readers<R>, path: seq<Byte>, bytes: seq<Byte>, depth: nat)
    ensures AtMost(InsideCount(readers, path, bytes, depth, false), InsideCount(readers, path, bytes, depth, true))
    decreases MAX_DEPTH - depth, 2
  {
    hide PartCount, WholeCount;
    var inside := readers.infer(path, Head(bytes)).container;
    if inside.Some? && depth + 1 < MAX_DEPTH {
      PartOfWhole(readers, inside.value, bytes, depth + 1);
    }
  }

  /** One more entry, or member begun, counts once. */
  lemma OneMoreCount<R>(readers: Readers<R>, past: Past, entry: EntryKind, meta: Meta, depth: nat)
    ensures ToldCount(readers, Between(Remember(past, AnEntry(entry, meta))), depth) == Plus(ToldCount(readers, Between(past), depth), PathCount(meta.path))
    ensures ToldCount(readers, Inside(past, meta, []), depth) == Plus(ToldCount(readers, Between(past), depth), PathCount(meta.path))
  {
    hide SaidCount, PathFault;
    SaidSnoc(readers, past.said, AnEntry(entry, meta), depth);
  }

  /** A member with a container inside counts what that does, too. */
  lemma NestedCount<R>(readers: Readers<R>, t: Told, kind: ContainerKind, depth: nat)
    requires t.Inside? && readers.infer(t.meta.path, Head(t.bytes)).container == Some(kind) && depth + 1 < MAX_DEPTH
    ensures DecidedCount(readers, t, depth) == Plus(StartedCount(readers, t, depth), PartCount(readers, kind, t.bytes, depth + 1))
    ensures EndedCount(readers, t, depth) == Plus(StartedCount(readers, t, depth), WholeCount(readers, kind, t.bytes, depth + 1))
  {
  }

  /** A plain one counts once. */
  lemma PlainCount<R>(readers: Readers<R>, t: Told, depth: nat)
    requires t.Inside? && readers.infer(t.meta.path, Head(t.bytes)).container == None
    ensures DecidedCount(readers, t, depth) == EndedCount(readers, t, depth) == StartedCount(readers, t, depth)
  {
  }

  /** What an open member decided on, its first bytes tell. */
  lemma DecidedByHead<R>(readers: Readers<R>, path: seq<Byte>, bytes: seq<Byte>, n: nat, media: Option<Label>, inside: Option<ContainerKind>)
    requires HeadOnly(readers) && Decided(readers, path, bytes, n, media, inside) && (THRESHOLD <= n || n == |bytes|)
    ensures readers.infer(path, Head(bytes)) == Inferred(media, inside)
  {
    ChosenByHead(readers, path, bytes, media, inside);
  }

  lemma HeadTells<R>(readers: Readers<R>, path: seq<Byte>, bytes: seq<Byte>)
    requires HeadOnly(readers)
    ensures readers.infer(path, bytes) == readers.infer(path, Head(bytes)) && readers.detect(bytes) == readers.detect(Head(bytes))
  {
  }

  /** What a reader has told counts as its bytes do, as far as they go. */
  lemma ToldIsPart<R>(readers: Readers<R>, kind: ContainerKind, bytes: seq<Byte>, s: Standing<R>, depth: nat)
    requires Reading(readers, kind, bytes) == Some(s)
    ensures PartCount(readers, kind, bytes, depth) == ToldCount(readers, s.told, depth)
  {
  }

  /** A container that ends while a member is open ends that member first: it counts no less than with the member whole. */
  lemma EndedOfWhole<R>(readers: Readers<R>, kind: ContainerKind, bytes: seq<Byte>, s: Standing<R>, depth: nat)
    requires Reading(readers, kind, bytes) == Some(s) && s.told.Inside?
    requires readers.finish(s.reader).Finished? ==> FinishTold(s.told, readers.finish(s.reader).events)
    ensures AtMost(EndedCount(readers, s.told, depth), WholeCount(readers, kind, bytes, depth))
  {
    hide SaidCount, InsideCount, PathFault;
    if ReadOut(readers, kind, bytes).Some? {
      var es := readers.finish(s.reader).events;
      var ended := Between(Remember(s.told.past, AMember(s.told.meta, s.told.bytes)));
      assert es != [] && Tell(s.told, es[0]) == Some(ended);
      TellAllGrows(readers, ended, es[1..], depth);
      InsideTold(readers, s.told, depth);
    }
  }

  /** Once refused, always refused. */
  lemma StaysRefused<R>(readers: Readers<R>, input: seq<Byte>, more: seq<Byte>)
    requires LetThrough(readers, input + more)
    ensures LetThrough(readers, input)
  {
    hide PartCount;
    if THRESHOLD <= |input| {
      HeadGrows(input, more);
      PartGrows(readers, readers.detect(Head(input)).value, input, more, 0);
    }
  }
}
