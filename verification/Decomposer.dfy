/** The recursive decomposition driver: a bounded stack of readers (src/decompose/decomposer.rs). */
module Decomposer {
  import opened Bytes
  import opened DecomposeSink
  import opened DecomposeReading
  import opened DecomposeWindows
  import opened DecomposeRefusals

  // The stack.

  /** A level's open member; its first bytes are kept in `probe` until it is decided whether to recurse. */
  datatype OpenMember = OpenMember(meta: Meta, probe: Option<seq<Byte>>, nested: bool, media: Option<Label>)

  datatype Level<+R> = Level(
    reader: R, kind: Option<ContainerKind>, depth: nat, members: nat, entries: nat, office: Option<Label>, open: Option<OpenMember>)

  datatype Phase = Detect(buffer: seq<Byte>) | Running | Done | Rejected

  /** What is remembered of a level: the kind it was begun with, what it was fed, what its reader told, when its member was decided. */
  datatype Note = Note(begun: ContainerKind, fed: seq<Byte>, told: Told, decided: nat)

  predicate HasNested<R>(l: Level<R>) {
    l.open.Some? && l.open.value.nested
  }

  /** A level agrees with what its reader has told. */
  predicate LevelOk<R>(l: Level<R>, t: Told, depth: nat) {
    && l.depth == depth && l.kind == (if t.Unannounced? then None else Some(t.past.kind)) && (l.open.Some? <==> t.Inside?)
    && (l.kind.None? ==> l.members == 0 && l.entries == 0)
    && (l.open.Some? ==> l.open.value.meta == t.meta)
    && (l.open.Some? && l.open.value.probe.Some? ==>
          l.open.value.probe.value == t.bytes && !l.open.value.nested && l.open.value.media.None?)
  }

  /** The levels from `index` up are consistent: each below the top is inside a nested member. */
  predicate Shaped<R>(levels: seq<Level<R>>, notes: seq<Note>, index: nat) {
    && |levels| == |notes| && index < |levels| <= MAX_DEPTH
    && (forall j :: index <= j < |levels| ==> LevelOk(levels[j], notes[j].told, j))
    && (forall j :: index <= j < |levels| - 1 ==> HasNested(levels[j]))
  }

  /** What a nested member holds, once its container has been walked. */
  ghost predicate InnerIs<R>(readers: Readers<R>, o: OpenItem, note: Note) {
    note.told.Inside? && o.inner.Some? &&
    exists kind ::
      Decided(readers, o.meta.path, note.told.bytes, note.decided, o.media, Some(kind)) && Tells(readers, o.inner.value, kind, note.told.bytes)
  }

  /** An open member as the sink has seen it; `above` says whether a level sits on it. */
  ghost predicate OpenIs<R>(readers: Readers<R>, o: OpenMember, note: Note, shown: OpenItem, above: bool) {
    && note.told.Inside?
    && shown.meta == o.meta && shown.media == o.media && shown.nested == o.nested
    && if o.nested then shown.inner.Some? == !above && (!above ==> InnerIs(readers, shown, note))
       else Flatten(shown.windows) == note.told.bytes
            && Decided(readers, o.meta.path, note.told.bytes, note.decided, o.media, None)
  }

  /** The items of an announced level, as the sink has seen them. */
  ghost predicate ListedAs<R>(readers: Readers<R>, l: Level<R>, t: Told, f: Frame) {
    && !t.Unannounced? && l.kind == Some(f.kind)
    && l.members == CountMembers(f.items) && l.entries == |f.items| - CountMembers(f.items)
    && ItemsAre(readers, f.items, t.past.said)
  }

  /** An announced level as the sink has seen it. */
  ghost predicate FrameIs<R>(readers: Readers<R>, l: Level<R>, note: Note, f: Frame, above: bool) {
    && ListedAs(readers, l, note.told, f)
    && (f.open.Some? <==> l.open.Some? && l.open.value.probe.None?)
    && (f.open.Some? ==> OpenIs(readers, l.open.value, note, f.open.value, above))
  }

  /** How many levels the sink has seen begin: all, but for a top level that has not announced itself. */
  function Announced<R>(levels: seq<Level<R>>): nat {
    if levels != [] && levels[|levels| - 1].kind.None? then |levels| - 1 else |levels|
  }

  /** The sink has seen the levels from `index` up as they are. */
  ghost predicate Shows<R>(readers: Readers<R>, levels: seq<Level<R>>, notes: seq<Note>, index: nat, fs: seq<Frame>)
    requires |levels| == |notes|
  {
    && |fs| == Announced(levels)
    && forall j :: index <= j < |fs| ==> FrameIs(readers, levels[j], notes[j], fs[j], j + 1 < |levels|)
  }

  /** The nested member of a level feeds the level above it. */
  predicate Feeds<R>(readers: Readers<R>, o: OpenMember, note: Note, above: Note) {
    && note.told.Inside? && above.fed == note.told.bytes
    && Decided(readers, o.meta.path, note.told.bytes, note.decided, o.media, Some(above.begun))
  }

  /** A member is decided as soon as there are enough bytes. */
  predicate Ripe<R>(l: Level<R>, note: Note) {
    l.open.Some? ==> if l.open.value.probe.None? then THRESHOLD <= note.decided else |l.open.value.probe.value| < THRESHOLD
  }

  // What a member's progress does to what the sink has seen of it.

  lemma MoreDecided<R>(readers: Readers<R>, path: seq<Byte>, bytes: seq<Byte>, more: seq<Byte>, n: nat, media: Option<Label>, inside: Option<ContainerKind>)
    requires Decided(readers, path, bytes, n, media, inside)
    ensures Decided(readers, path, bytes + more, n, media, inside)
  {
    assert (bytes + more)[..n] == bytes[..n];
  }

  lemma JustDecided<R>(readers: Readers<R>, path: seq<Byte>, bytes: seq<Byte>)
    ensures var i := readers.infer(path, bytes); Decided(readers, path, bytes, |bytes|, i.media, i.container)
  {
    assert bytes[..|bytes|] == bytes;
  }

  /** A member that ends is listed as the reader told it. */
  lemma EndsAs<R>(readers: Readers<R>, o: OpenMember, note: Note, shown: OpenItem)
    requires OpenIs(readers, o, note, shown, false) && (THRESHOLD <= note.decided || note.decided == |note.told.bytes|)
    requires o.meta == note.told.meta
    ensures ItemIs(readers, ItemOf(shown, |note.told.bytes|), AMember(note.told.meta, note.told.bytes))
  {
    hide Tells, Decided, Flatten;
    if o.nested {
      var kind :|
        Decided(readers, shown.meta.path, note.told.bytes, note.decided, shown.media, Some(kind))
        && Tells(readers, shown.inner.value, kind, note.told.bytes);
      assert Chosen(readers, shown.meta.path, note.told.bytes, shown.media, Some(kind));
    }
  }

  /** The container of a nested member has been walked. */
  lemma WalkedIs<R>(readers: Readers<R>, o: OpenMember, note: Note, shown: OpenItem, above: Note, c: Container)
    requires OpenIs(readers, o, note, shown, true) && o.nested && Feeds(readers, o, note, above) && Tells(readers, c, above.begun, above.fed)
    ensures OpenIs(readers, o, note, shown.(inner := Some(c)), false)
  {
    hide Tells, Decided;
    var now := shown.(inner := Some(c));
    assert Decided(readers, now.meta.path, note.told.bytes, note.decided, now.media, Some(above.begun))
      && Tells(readers, now.inner.value, above.begun, note.told.bytes);
  }

  lemma NothingListed<R>(readers: Readers<R>, kind: ContainerKind)
    ensures ItemsAre(readers, [], []) && CountMembers([]) == 0
  {
  }

  /** Which reader a level has, and what it was fed, does not show. */
  lemma ReaderHidden<R>(readers: Readers<R>, l: Level<R>, next: R, note: Note, fed: seq<Byte>)
    ensures var m, moved := l.(reader := next), note.(fed := fed);
            && (forall depth :: LevelOk(l, note.told, depth) ==> LevelOk(m, note.told, depth))
            && (forall f, above :: FrameIs(readers, l, note, f, above) ==> FrameIs(readers, m, moved, f, above))
            && HasNested(m) == HasNested(l) && Ripe(m, moved) == Ripe(l, note)
  {
    hide ItemsAre, Decided, Tells;
  }

  /** The levels below the top, as the sink has seen them: each feeds the next. */
  ghost predicate StacksUp<R>(readers: Readers<R>, levels: seq<Level<R>>, notes: seq<Note>, from: nat, under: seq<Frame>) {
    && |levels| == |notes| == |under| + 1
    && forall j :: from <= j < |under| ==>
         && FrameIs(readers, levels[j], notes[j], under[j], true)
         && levels[j].open.Some? && Feeds(readers, levels[j].open.value, notes[j], notes[j + 1])
  }

  /** What the levels from `from` on, below `index`, have counted: all but what is above them. */
  function Under<R>(readers: Readers<R>, notes: seq<Note>, from: nat, index: nat): Option<nat>
    decreases index
  {
    if index <= from then Some(0)
    else if index <= |notes| && notes[index - 1].told.Inside? then
      Plus(Under(readers, notes, from, index - 1), StartedCount(readers, notes[index - 1].told, index - 1))
    else None
  }

  /** The levels from `from` up are where reading what they were fed leaves them, and each feeds the next. */
  ghost predicate Chain<R>(readers: Readers<R>, at: R -> Stand, levels: seq<Level<R>>, notes: seq<Note>, from: nat) {
    && from < |levels| == |notes| && |levels| <= MAX_DEPTH
    && (forall j :: from <= j < |levels| ==>
          && Reading(readers, notes[j].begun, notes[j].fed) == Some(Standing(levels[j].reader, notes[j].told, levels[j].office))
          && StandOf(notes[j].told) == at(levels[j].reader))
    && (forall j :: from <= j < |levels| - 1 ==> ChainLink(readers, notes[j], notes[j + 1]))
  }

  predicate ChainLink<R>(readers: Readers<R>, note: Note, above: Note) {
    && note.told.Inside? && above.fed == note.told.bytes && THRESHOLD <= |note.told.bytes|
    && readers.infer(note.told.meta.path, Head(note.told.bytes)).container == Some(above.begun)
  }

  /** What a level has told counts what those below count, and its own. */
  lemma {:induction false} ChainCount<R>(readers: Readers<R>, at: R -> Stand, levels: seq<Level<R>>, notes: seq<Note>, from: nat, index: nat)
    requires Chain(readers, at, levels, notes, from) && from <= index < |levels|
    ensures ToldCount(readers, notes[from].told, from) == Plus(Under(readers, notes, from, index), ToldCount(readers, notes[index].told, index))
  {
    hide ToldCount, StartedCount, DecidedCount, PartCount, Reading;
    if from < index {
      ChainCount(readers, at, levels, notes, from, index - 1);
      var t, above := notes[index - 1].told, notes[index];
      assert ChainLink(readers, notes[index - 1], above);
      InsideTold(readers, t, index - 1);
      NestedCount(readers, t, above.begun, index - 1);
      ToldIsPart(readers, above.begun, above.fed, Reading(readers, above.begun, above.fed).value, index);
    }
  }

  /** When the container of some level is refused whole, so is that of every level below. */
  lemma {:induction false} ChainEnds<R(!new)>(readers: Readers<R>, at: R -> Stand, levels: seq<Level<R>>, notes: seq<Note>, from: nat, index: nat, base: nat)
    requires Brackets(readers, at) && Chain(readers, at, levels, notes, from) && from <= index < |levels|
    requires !Fits(Plus(Under(readers, notes, from, index), WholeCount(readers, notes[index].begun, notes[index].fed, index)), base)
    ensures !Fits(WholeCount(readers, notes[from].begun, notes[from].fed, from), base)
  {
    hide ToldCount, StartedCount, EndedCount, WholeCount, Reading, Brackets;
    if from < index {
      var k := index - 1;
      var t, above := notes[k].told, notes[index];
      assert ChainLink(readers, notes[k], above);
      NestedCount(readers, t, above.begun, k);
      LastTold(readers, at, levels[k].reader, t);
      EndedOfWhole(readers, notes[k].begun, notes[k].fed, Reading(readers, notes[k].begun, notes[k].fed).value, k);
      ChainEnds(readers, at, levels, notes, from, k, base);
    }
  }

  lemma LastTold<R(!new)>(readers: Readers<R>, at: R -> Stand, r: R, t: Told)
    requires Brackets(readers, at) && StandOf(t) == at(r)
    ensures readers.finish(r).Finished? ==> FinishTold(t, readers.finish(r).events)
  {
  }

  lemma {:induction false} UnderPrefix<R>(readers: Readers<R>, notes: seq<Note>, n: nat, from: nat, index: nat)
    requires index <= n <= |notes|
    ensures Under(readers, notes[..n], from, index) == Under(readers, notes, from, index)
  {
    hide StartedCount;
    if from < index {
      UnderPrefix(readers, notes, n, from, index - 1);
    }
  }

  // What a top level shows after each of its reader's words.

  /** A level that is consistent and shown as it is, with nothing above it. */
  ghost predicate TopIs<R>(readers: Readers<R>, l: Level<R>, note: Note, f: Frame, depth: nat) {
    LevelOk(l, note.told, depth) && l.kind.Some? && FrameIs(readers, l, note, f, false)
  }

  lemma EntryShown<R>(readers: Readers<R>, l: Level<R>, note: Note, f: Frame, depth: nat, entry: EntryKind, meta: Meta)
    requires TopIs(readers, l, note, f, depth) && note.told.Between?
    ensures f.open.None? && l.open.None?
    ensures var told := Between(Remember(note.told.past, AnEntry(entry, meta)));
            TopIs(readers, l.(entries := l.entries + 1), note.(told := told), AddItem(f, Entry(entry, meta)), depth)
  {
    hide ItemsAre, CountMembers, HeightOf;
    OneMoreItem(f.items, Entry(entry, meta), 0);
    OneMoreIs(readers, f.items, Entry(entry, meta), note.told.past.said, AnEntry(entry, meta));
  }

  lemma StartShown<R>(readers: Readers<R>, l: Level<R>, note: Note, f: Frame, depth: nat, meta: Meta, office: Option<Label>)
    requires TopIs(readers, l, note, f, depth) && note.told.Between?
    ensures var open := OpenMember(meta, Some([]), false, None);
            TopIs(readers, l.(open := Some(open), office := office), note.(told := Inside(note.told.past, meta, [])), f, depth)
  {
    hide ItemsAre, CountMembers;
  }

  lemma PlainShown<R>(readers: Readers<R>, l: Level<R>, note: Note, f: Frame, depth: nat, media: Option<Label>)
    requires TopIs(readers, l, note, f, depth) && note.told.Inside? && l.open.Some? && l.open.value.probe.Some?
    requires readers.infer(note.told.meta.path, note.told.bytes) == Inferred(media, None)
    ensures f.open.None? && l.open.value.probe == Some(note.told.bytes) && l.open.value.meta == note.told.meta
    ensures var shown := OpenItem(note.told.meta, media, false, [note.told.bytes], None);
            TopIs(readers, l.(open := Some(OpenMember(note.told.meta, None, false, media))),
                  note.(decided := |note.told.bytes|), f.(open := Some(shown)), depth)
  {
    hide ItemsAre, CountMembers, Decided, Flatten;
    JustDecided(readers, note.told.meta.path, note.told.bytes);
    FlattenOne(note.told.bytes);
  }

  lemma BytesShown<R>(readers: Readers<R>, l: Level<R>, note: Note, f: Frame, depth: nat, bytes: seq<Byte>)
    requires TopIs(readers, l, note, f, depth) && note.told.Inside? && l.open.Some? && l.open.value.probe.None? && !HasNested(l)
    ensures f.open.Some? && !f.open.value.nested
    ensures TopIs(readers, l, note.(told := Fuller(note.told, bytes)),
                  f.(open := Some(f.open.value.(windows := f.open.value.windows + [bytes]))), depth)
  {
    hide ItemsAre, CountMembers, Decided, Flatten;
    OneMoreWindow(f.open.value.windows, bytes, 0);
    MoreDecided(readers, l.open.value.meta.path, note.told.bytes, bytes, note.decided, l.open.value.media, None);
  }

  /** What a level's reader has told once more bytes of its member are in. */
  function Fuller(t: Told, bytes: seq<Byte>): Told
    requires t.Inside?
  {
    t.(bytes := t.bytes + bytes)
  }

  lemma EndShown<R>(readers: Readers<R>, l: Level<R>, note: Note, open: OpenMember, f: Frame)
    requires note.told.Inside? && l.open.None? && l.depth < MAX_DEPTH && l.kind == Some(note.told.past.kind) && open.meta == note.told.meta
    requires ListedAs(readers, l, note.told, f) && f.open.Some? && OpenIs(readers, open, note, f.open.value, false)
    requires THRESHOLD <= note.decided || note.decided == |note.told.bytes|
    ensures var read := AMember(note.told.meta, note.told.bytes);
            && NextInside(f, MemberEnd(|note.told.bytes|, open.media, l.depth)).Some?
            && TopIs(readers, l.(members := l.members + 1), note.(told := Between(Remember(note.told.past, read))),
                     NextInside(f, MemberEnd(|note.told.bytes|, open.media, l.depth)).value, l.depth)
  {
    hide ItemsAre, CountMembers, Decided, Flatten, Tells, ItemIs, HeightOf;
    EndCloses(readers, note, open, f.open.value);
    EndsAs(readers, open, note, f.open.value);
    var item := ItemOf(f.open.value, |note.told.bytes|);
    OneMoreItem(f.items, item, 0);
    OneMoreIs(readers, f.items, item, note.told.past.said, AMember(note.told.meta, note.told.bytes));
  }

  lemma EndCloses<R>(readers: Readers<R>, note: Note, open: OpenMember, shown: OpenItem)
    requires OpenIs(readers, open, note, shown, false)
    ensures shown.media == open.media && (if shown.nested then shown.inner.Some? else |Flatten(shown.windows)| == |note.told.bytes|)
  {
  }

  class Decomposer<R(!new)> {
    const readers: Readers<R>
    ghost const at: R -> Stand

    var phase: Phase
    var levels: seq<Level<R>>
    var totalMembers: nat

    /** The events the sink has received. */
    var trace: seq<SinkEvent>

    /** What is remembered of each level, and all bytes pushed. */
    ghost var notes: seq<Note>
    ghost var input: seq<Byte>

    /** The containers the sink has seen begin and not end. */
    ghost function Stack(): seq<Frame>
      requires Track(trace).Some?
      reads this
    {
      Track(trace).value.frames
    }

    /** The stack from `index` up, over the frames `below` that it leaves alone. */
    ghost predicate Inv(index: nat, below: seq<Frame>)
      reads this
    {
      && Shaped(levels, notes, index) && |below| == index && (below != [] ==> MayBegin(Tracking(below, None)))
      && Track(trace).Some? && Track(trace).value.whole.None?
      && Shows(readers, levels, notes, index, Stack()) && Stack()[..index] == below
    }

    /** A level's reader is where reading what the level was fed leaves it. */
    ghost predicate SettledAt(j: nat)
      requires j < |levels| == |notes|
      reads this
    {
      Reading(readers, notes[j].begun, notes[j].fed) == Some(Standing(levels[j].reader, notes[j].told, levels[j].office)) && Ripe(levels[j], notes[j])
    }

    ghost predicate FeedsAbove(j: nat)
      requires j + 1 < |levels| == |notes|
      reads this
    {
      levels[j].open.Some? && Feeds(readers, levels[j].open.value, notes[j], notes[j + 1])
    }

    ghost predicate Settled(index: nat)
      reads this
    {
      && |levels| == |notes|
      && (forall j :: index <= j < |levels| ==> SettledAt(j))
      && (forall j :: index <= j < |levels| - 1 ==> FeedsAbove(j))
    }

    /** The levels above `index` are settled, and the member at `index` feeds the first of them. */
    ghost predicate SettledAbove(index: nat)
      reads this
    {
      index < |levels| == |notes| && Settled(index + 1) && (index + 1 < |levels| ==> FeedsAbove(index))
    }

    /** A nested member whose container has been finished already. */
    ghost predicate WalkedTop(index: nat)
      reads this
    {
      index + 1 == |levels| && HasNested(levels[index])
    }

    /** A level sits on top exactly when the level below it is inside a nested member. */
    ghost predicate TopIsPlain()
      reads this
    {
      levels != [] && !HasNested(levels[|levels| - 1])
    }

    twostate predicate Kept(index: nat)
      reads this
    {
      && index <= old(|levels|) && index <= |levels| && old(|levels| == |notes|) && |levels| == |notes|
      && levels[..index] == old(levels[..index]) && notes[..index] == old(notes[..index])
    }

    /** Level `index` was fed nothing and its reader did not move. */
    twostate predicate SameReader(index: nat)
      reads this
    {
      && Kept(index) && index < old(|levels|) && index < |levels|
      && levels[index].reader == old(levels[index].reader)
      && notes[index].begun == old(notes[index].begun) && notes[index].fed == old(notes[index].fed)
    }

    /** Nor did it come by an Office label. */
    twostate predicate SameLabel(index: nat)
      reads this
    {
      SameReader(index) && levels[index].office == old(levels[index].office)
    }

    ghost predicate Sound() {
      Brackets(readers, at)
    }

    // What has been counted, when inference and detection look at no more than the first bytes.

    /** All entries and members are `base` and `count` more. */
    ghost predicate Sums(count: Option<nat>, base: nat)
      reads this
    {
      HeadOnly(readers) ==> Holds(count, base, totalMembers)
    }

    /** Something is refused, or there are too many. */
    ghost predicate Barred(count: Option<nat>, base: nat) {
      HeadOnly(readers) ==> !Fits(count, base)
    }

    /** What level `index` has told is counted; a nested member whose container has been finished is counted whole. */
    ghost predicate Counted(index: nat, base: nat)
      requires index < |levels| == |notes|
      reads this
    {
      var t := notes[index].told;
      Sums(if WalkedTop(index) && t.Inside? then EndedCount(readers, t, index) else ToldCount(readers, t, index), base)
    }

    /** The outer level reads all that was pushed. */
    ghost predicate Runs()
      reads this
    {
      Inv(0, []) && Settled(0) && TopIsPlain() && notes[0].fed == input && Counted(0, 0)
    }

    ghost predicate Valid()
      reads this
    {
      && Sound() && Track(trace).Some?
      && match phase
         case Detect(buffer) => levels == [] && notes == [] && trace == [] && totalMembers == 0 && input == buffer && |buffer| < THRESHOLD
         case Running => Runs() && exists n: nat :: THRESHOLD <= n && Detected(readers, input, n, notes[0].begun)
         case Done => Track(trace).value.whole.Some? && Decomposes(readers, input, Track(trace).value.whole.value)
         case Rejected => true
    }

    constructor (readers: Readers<R>, ghost at: R -> Stand)
      requires Brackets(readers, at)
      ensures Valid() && phase == Detect([]) && trace == [] && this.readers == readers
    {
      this.readers, this.at := readers, at;
      phase, levels, totalMembers, trace := Detect([]), [], 0, [];
      notes, input := [], [];
    }

    method Emit(e: SinkEvent)
      requires Track(trace).Some? && Next(Track(trace).value, e).Some?
      modifies this`trace
      ensures trace == old(trace) + [e] && Track(trace) == Next(Track(old(trace)).value, e)
    {
      TrackOne(BEGINNING, trace, e);
      trace := trace + [e];
    }

    /** An event inside the top container. */
    method EmitInside(e: SinkEvent, ghost below: seq<Frame>, ghost f: Frame) returns (ghost g: Frame)
      requires Track(trace) == Some(Tracking(below + [f], None)) && e.depth == |below| && NextInside(f, e).Some?
      modifies this`trace
      ensures g == NextInside(f, e).value && Track(trace) == Some(Tracking(below + [g], None))
    {
      hide Track, NextInside;
      OverFrame(below, f);
      ghost var t := Track(trace).value;
      NoContainerInside(f, e);
      g := NextInside(f, e).value;
      assert SetTop(below + [f], g) == below + [g];
      Emit(e);
    }

    lemma OverFrame(below: seq<Frame>, f: Frame)
      ensures (below + [f])[..|below|] == below && Top(below + [f]) == f && below + [f] != []
    {
    }

    method CountOne() returns (problem: Option<Reason>)
      modifies this`totalMembers
      ensures totalMembers == old(totalMembers) + 1
      ensures problem == if totalMembers > MAX_TOTAL_MEMBERS then Some(MetadataOverBound) else None
    {
      totalMembers := totalMembers + 1;
      problem := if totalMembers > MAX_TOTAL_MEMBERS then Some(MetadataOverBound) else None;
    }

    /** The top level as the sink has seen it. */
    lemma TopShown(index: nat, below: seq<Frame>) returns (f: Frame)
      requires Inv(index, below) && index + 1 == |levels|
      ensures LevelOk(levels[index], notes[index].told, index)
      ensures if levels[index].kind.None? then Track(trace) == Some(Tracking(below, None))
              else Track(trace) == Some(Tracking(below + [f], None)) && FrameIs(readers, levels[index], notes[index], f, false)
    {
      hide Track, FrameIs, LevelOk;
      f := Frame(Zip, [], None);
      if levels[index].kind.None? {
        assert Stack() == Stack()[..index];
      } else {
        f := Stack()[index];
        assert Stack() == Stack()[..index] + [f];
      }
    }

    /** And the other way round. */
    lemma ShownTop(index: nat, below: seq<Frame>, f: Frame)
      requires index + 1 == |levels| == |notes| <= MAX_DEPTH && |below| == index && (below != [] ==> MayBegin(Tracking(below, None)))
      requires LevelOk(levels[index], notes[index].told, index)
      requires if levels[index].kind.None? then Track(trace) == Some(Tracking(below, None))
               else Track(trace) == Some(Tracking(below + [f], None)) && FrameIs(readers, levels[index], notes[index], f, false)
      ensures Inv(index, below)
    {
      hide Track, FrameIs, LevelOk;
      OverFrame(below, f);
    }

    /** A new level: its container is announced at once unless it is a gzip stream, whose inside is not known yet. */
    method PushLevel(kind: ContainerKind, ghost below: seq<Frame>)
      requires |levels| == |notes| == |below| < MAX_DEPTH
      requires Track(trace) == Some(Tracking(below, None)) && MayBegin(Tracking(below, None))
      modifies this`levels, this`notes, this`trace
      ensures |levels| == old(|levels|) + 1 && Kept(old(|levels|)) && notes[old(|levels|)].begun == kind && notes[old(|levels|)].fed == []
      ensures notes[old(|levels|)].told == FirstTold(kind)
      ensures Inv(old(|levels|), below) && Settled(old(|levels|)) && TopIsPlain()
    {
      hide Track;
      var depth := |levels|;
      var known := if kind == Zip || kind == Tar then Some(kind) else None;
      if known.Some? {
        Emit(ContainerStart(kind, depth));
      }
      levels := levels + [Level(readers.start(kind), known, depth, 0, 0, None, None)];
      notes := notes + [Note(kind, [], FirstTold(kind), 0)];
      NothingListed(readers, kind);
      ShownTop(depth, below, Frame(kind, [], None));
    }

    /** Feed bytes to one level's reader, and handle what it says of each. */
    method FeedLevel(index: nat, bytes: seq<Byte>, ghost below: seq<Frame>, ghost base: nat) returns (problem: Option<Reason>)
      requires Sound() && Inv(index, below) && Settled(index) && TopIsPlain() && Counted(index, base)
      modifies this`levels, this`notes, this`trace, this`totalMembers
      ensures Track(trace).Some?
      ensures problem.None? ==> Inv(index, below) && Kept(index) && Settled(index) && TopIsPlain() && Counted(index, base)
      ensures problem.None? ==> notes[index].fed == old(notes[index].fed) + bytes && notes[index].begun == old(notes[index].begun)
      ensures problem.Some? ==> Barred(PartCount(readers, old(notes[index].begun), old(notes[index].fed) + bytes, index), base)
      decreases MAX_DEPTH - index, 6
    {
      hide Shows, Next, Track, Shaped, TellAll, Brackets, LevelOk, HeadOnly, PartCount, ToldCount, EndedCount;
      InvHere(index, below);
      ghost var kind, fed := notes[index].begun, notes[index].fed;
      for i := 0 to |bytes|
        invariant Inv(index, below) && Settled(index) && TopIsPlain() && index < |levels| && Counted(index, base)
        invariant Kept(index)
        invariant notes[index].fed == fed + bytes[..i] && notes[index].begun == kind
      {
        assert bytes[..i + 1] == bytes[..i] + [bytes[i]];
        label here:
        problem := FeedByte(index, bytes[i], below, base);
        if problem.Some? {
          assert fed + bytes[..i] + [bytes[i]] + bytes[i + 1..] == fed + bytes;
          PartGrows(readers, kind, fed + bytes[..i] + [bytes[i]], bytes[i + 1..], index);
          return;
        }
        KeptStill@here(index);
        InvHere(index, below);
      }
      assert bytes[..|bytes|] == bytes;
      problem := None;
    }

    lemma InvHere(index: nat, below: seq<Frame>)
      requires Inv(index, below)
      ensures index < |levels| == |notes| <= MAX_DEPTH && |below| == index && Track(trace).Some?
      ensures below != [] ==> MayBegin(Tracking(below, None))
      ensures LevelOk(levels[index], notes[index].told, index)
    {
    }

    lemma InvParts(index: nat, below: seq<Frame>)
      requires Inv(index, below)
      ensures Shaped(levels, notes, index) && Track(trace).Some? && Track(trace).value.whole.None?
      ensures Shows(readers, levels, notes, index, Stack()) && index <= |Stack()| && Stack()[..index] == below
    {
    }

    /** Nothing but the phase and the input has changed. */
    twostate lemma StillRuns()
      requires old(Inv(0, []) && Settled(0) && TopIsPlain() && Counted(0, 0))
      requires levels == old(levels) && notes == old(notes) && trace == old(trace) && totalMembers == old(totalMembers)
      ensures Inv(0, []) && Settled(0) && TopIsPlain() && Counted(0, 0)
    {
      hide Track, LevelOk, FrameIs, Reading, Ripe, Feeds, HeadOnly, ToldCount, EndedCount;
      forall j | 0 <= j < |levels| ensures SettledAt(j) {
        assert old(SettledAt(j));
      }
      forall j | 0 <= j < |levels| - 1 ensures FeedsAbove(j) {
        assert old(FeedsAbove(j));
      }
    }

    twostate lemma KeptStill(index: nat)
      requires Kept(index)
      ensures levels[..index] == old(levels[..index]) && notes[..index] == old(notes[..index])
    {
    }

    method FeedByte(index: nat, b: Byte, ghost below: seq<Frame>, ghost base: nat) returns (problem: Option<Reason>)
      requires Sound() && Inv(index, below) && Settled(index) && TopIsPlain() && Counted(index, base)
      modifies this`levels, this`notes, this`trace, this`totalMembers
      ensures Track(trace).Some?
      ensures problem.None? ==> Inv(index, below) && Kept(index) && Settled(index) && TopIsPlain() && Counted(index, base)
      ensures problem.None? ==> notes[index].fed == old(notes[index].fed) + [b] && notes[index].begun == old(notes[index].begun)
      ensures problem.Some? ==> Barred(PartCount(readers, old(notes[index].begun), old(notes[index].fed) + [b], index), base)
      ensures var r := readers.push(old(levels[index].reader), b); r.Refused? ==> problem == Some(r.reason)
      decreases MAX_DEPTH - index, 5
    {
      hide Shows, Next, Track, Shaped, TellAll, Brackets, LevelOk, HeadOnly, ToldCount, EndedCount;
      InvHere(index, below);
      var r := readers.push(levels[index].reader, b);
      assert SettledAt(index);
      ReadOn(readers, notes[index].begun, notes[index].fed, b);
      if r.Refused? {
        return Some(r.reason);
      }
      PushSays(index, b);
      Advance(index, r.next, b, below);
      problem := Dispatch(index, r.events, below, base);
      if problem.Some? {
        return;
      }
      InvHere(index, below);
      SettledFrom(index);
    }

    /** What a reader says of a byte follows on from what it has told. */
    lemma PushSays(index: nat, b: Byte)
      requires Sound() && index < |levels| == |notes| && SettledAt(index) && readers.push(levels[index].reader, b).Pushed?
      ensures TellAll(notes[index].told, readers.push(levels[index].reader, b).events).Some?
    {
      hide TellAll;
      ReadingStands(readers, at, notes[index].begun, notes[index].fed);
      var r, t := levels[index].reader, notes[index].told;
      assert StepTold(at, readers.push(r, b).next, t, readers.push(r, b).events);
    }

    lemma SettledFrom(index: nat)
      requires SettledAbove(index) && SettledAt(index)
      ensures Settled(index)
    {
    }

    /** The reader of a level moves on past a byte. */
    method Advance(index: nat, next: R, b: Byte, ghost below: seq<Frame>)
      requires Inv(index, below) && Settled(index) && TopIsPlain()
      modifies this`levels, this`notes
      ensures Inv(index, below) && SettledAbove(index) && TopIsPlain() && Kept(index) && Ripe(levels[index], notes[index])
      ensures |levels| == old(|levels|) && levels[index] == old(levels[index]).(reader := next)
      ensures notes[index] == old(notes[index]).(fed := old(notes[index].fed) + [b])
    {
      hide Track, LevelOk, FrameIs, Ripe, Decided;
      assert SettledAt(index) && (index + 1 < |levels| ==> FeedsAbove(index));
      ReaderHidden(readers, levels[index], next, notes[index], notes[index].fed + [b]);
      ghost var was, words := levels, notes;
      levels := levels[index := levels[index].(reader := next)];
      notes := notes[index := notes[index].(fed := notes[index].fed + [b])];
      forall j | index <= j < |levels| ensures LevelOk(levels[j], notes[j].told, j) {
        assert LevelOk(was[j], words[j].told, j);
      }
      SettledApart(index);
      NestedApart(index, was);
    }

    lemma NestedApart(index: nat, was: seq<Level<R>>)
      requires |was| == |levels| && index < |levels| && levels == was[index := levels[index]] && HasNested(levels[index]) == HasNested(was[index])
      ensures forall j :: 0 <= j < |levels| ==> HasNested(levels[j]) == HasNested(was[j])
    {
    }

    /** Changes to a level leave the levels above it settled. */
    twostate lemma SettledApart(index: nat)
      requires old(Settled(index + 1)) && index < |levels| && old(index < |levels| && index < |notes|) && index < |notes|
      requires levels == old(levels)[index := levels[index]] && notes == old(notes)[index := notes[index]]
      ensures Settled(index + 1)
    {
      hide Reading, Ripe, Decided;
      forall j | index + 1 <= j < |levels| ensures SettledAt(j) {
        assert old(SettledAt(j));
      }
      forall j | index + 1 <= j < |levels| - 1 ensures FeedsAbove(j) {
        assert old(FeedsAbove(j));
      }
    }

    /** Handle what a level's reader said, event by event. */
    method Dispatch(index: nat, events: seq<ReaderEvent>, ghost below: seq<Frame>, ghost base: nat) returns (problem: Option<Reason>)
      requires Sound() && Inv(index, below) && SettledAbove(index) && Ripe(levels[index], notes[index]) && Counted(index, base)
      requires TellAll(notes[index].told, events).Some?
      requires TopIsPlain() || (WalkedTop(index) && (events == [] || events[0].ReadEnd?))
      modifies this`levels, this`notes, this`trace, this`totalMembers
      ensures Track(trace).Some?
      ensures problem.None? ==> Inv(index, below) && SettledAbove(index) && SameReader(index) && Ripe(levels[index], notes[index])
      ensures problem.None? ==> notes[index].told == TellAll(old(notes[index].told), events).value
      ensures problem.None? ==>
                levels[index].office == LabelledAll(readers, old(levels[index].reader), old(levels[index].office), events)
      ensures problem.None? ==> TopIsPlain() || (events == [] && old(WalkedTop(index)) && WalkedTop(index))
      ensures events == [] ==> problem.None? && levels == old(levels)
      ensures problem.None? ==> Counted(index, base)
      ensures problem.Some? ==> Barred(ToldCount(readers, TellAll(old(notes[index].told), events).value, index), base)
      decreases MAX_DEPTH - index, 4
    {
      hide Shows, Next, Track, Shaped, Brackets, LevelOk, HeadOnly, ToldCount, EndedCount, Tell;
      var queue := events;
      problem := None;
      while queue != []
        invariant Inv(index, below) && SettledAbove(index) && SameReader(index) && Ripe(levels[index], notes[index])
        invariant TellAll(notes[index].told, queue) == TellAll(old(notes[index].told), events)
        invariant LabelledAll(readers, levels[index].reader, levels[index].office, queue) ==
                  LabelledAll(readers, old(levels[index].reader), old(levels[index].office), events)
        invariant TopIsPlain() || (WalkedTop(index) && queue == events && old(WalkedTop(index)))
        invariant problem.None? && (events == [] ==> queue == [] && levels == old(levels))
        invariant Counted(index, base)
        decreases |queue|
      {
        var event := queue[0];
        queue := queue[1..];
        InvHere(index, below);
        label here:
        problem := HandleEvent(index, event, below, base);
        if problem.Some? {
          TellAllGrows(readers, Tell(old@here(notes[index].told), event).value, queue, index);
          return;
        }
        SameStill@here(index);
      }
      InvHere(index, below);
    }

    twostate lemma SameStill(index: nat)
      requires SameReader(index)
      ensures levels[..index] == old(levels[..index]) && notes[..index] == old(notes[..index])
    {
    }

    method HandleEvent(index: nat, event: ReaderEvent, ghost below: seq<Frame>, ghost base: nat) returns (problem: Option<Reason>)
      requires Sound() && Inv(index, below) && SettledAbove(index) && Ripe(levels[index], notes[index]) && Counted(index, base)
      requires Tell(notes[index].told, event).Some?
      requires TopIsPlain() || (WalkedTop(index) && event.ReadEnd?)
      modifies this`levels, this`notes, this`trace, this`totalMembers
      ensures Track(trace).Some?
      ensures problem.None? ==> Inv(index, below) && SettledAbove(index) && SameReader(index) && TopIsPlain()
      ensures problem.None? ==> Ripe(levels[index], notes[index]) && Some(notes[index].told) == Tell(old(notes[index].told), event)
      ensures problem.None? ==> levels[index].office == Labelled(readers, old(levels[index].reader), old(levels[index].office), event)
      ensures problem.None? ==> Counted(index, base)
      ensures problem.Some? ==> Barred(ToldCount(readers, Tell(old(notes[index].told), event).value, index), base)
      decreases MAX_DEPTH - index, 3
    {
      hide Shows, Next, Track, Shaped, Brackets, LevelOk, HeadOnly, ToldCount, EndedCount;
      InvHere(index, below);
      problem := None;
      match event {
        case Announce(kind) =>
          AnnounceLevel(index, kind, below, base);
        case ReadEntry(entry, meta) =>
          problem := HandleEntry(index, entry, meta, below, base);
        case ReadStart(meta) =>
          problem := HandleStart(index, meta, below, base);
        case ReadBytes(bytes) =>
          problem := RouteBytes(index, bytes, below, base);
        case ReadEnd(length) =>
          InsideTold(readers, notes[index].told, index);
          problem := CloseMember(index, length, below, base);
      }
    }

    /** A level whose reader is in no member is the top. */
    lemma AtTop(index: nat)
      requires SettledAbove(index) && !notes[index].told.Inside?
      ensures index + 1 == |levels|
    {
    }

    /** The note of a level, with what its reader has told now. */
    ghost function Noted(index: nat, told: Told): seq<Note>
      requires index < |notes|
      reads this
    {
      notes[index := notes[index].(told := told)]
    }

    method AnnounceLevel(index: nat, kind: ContainerKind, ghost below: seq<Frame>, ghost base: nat)
      requires Inv(index, below) && SettledAbove(index) && TopIsPlain() && notes[index].told.Unannounced? && Counted(index, base)
      modifies this`levels, this`notes, this`trace
      ensures Inv(index, below) && SettledAbove(index) && SameLabel(index) && TopIsPlain()
      ensures Ripe(levels[index], notes[index]) && notes[index].told == Between(Past(kind, [])) && Counted(index, base)
    {
      hide Track, Shows, HeadOnly, SaidCount;
      AtTop(index);
      NothingSaid(readers, index);
      ghost var f := TopShown(index, below);
      var level := levels[index];
      Emit(ContainerStart(kind, level.depth));
      levels := levels[index := level.(kind := Some(kind))];
      notes := Noted(index, Between(Past(kind, [])));
      NothingListed(readers, kind);
      ShownTop(index, below, Frame(kind, [], None));
    }

    method HandleEntry(index: nat, entry: EntryKind, meta: Meta, ghost below: seq<Frame>, ghost base: nat) returns (problem: Option<Reason>)
      requires Inv(index, below) && SettledAbove(index) && TopIsPlain() && notes[index].told.Between? && Counted(index, base)
      modifies this`levels, this`notes, this`trace, this`totalMembers
      ensures Track(trace).Some?
      ensures problem.None? ==> Inv(index, below) && SettledAbove(index) && SameLabel(index) && TopIsPlain()
      ensures problem.None? ==> Ripe(levels[index], notes[index])
      ensures problem.None? ==> notes[index].told == Between(Remember(old(notes[index].told.past), AnEntry(entry, meta)))
      ensures problem.Some? ==> problem == if PathFault(meta.path).Some? then PathFault(meta.path) else Some(MetadataOverBound)
      ensures PathFault(meta.path).Some? ==> problem.Some?
      ensures problem.None? ==> Counted(index, base)
      ensures problem.Some? ==>
                Barred(ToldCount(readers, Between(Remember(old(notes[index].told.past), AnEntry(entry, meta))), index), base)
    {
      hide Shows, Track, Next, PathFault, Shaped, LevelOk, HeadOnly, ToldCount, EndedCount;
      InvHere(index, below);
      OneMoreCount(readers, notes[index].told.past, entry, meta, index);
      problem := CheckPath(meta.path);
      if problem.Some? {
        return;
      }
      problem := CountOne();
      if problem.None? {
        ShowEntry(index, entry, meta, below);
      }
    }

    method ShowEntry(index: nat, entry: EntryKind, meta: Meta, ghost below: seq<Frame>)
      requires Inv(index, below) && SettledAbove(index) && TopIsPlain() && notes[index].told.Between?
      modifies this`levels, this`notes, this`trace
      ensures Inv(index, below) && SettledAbove(index) && SameLabel(index) && TopIsPlain() && Ripe(levels[index], notes[index])
      ensures notes[index].told == Between(Remember(old(notes[index].told.past), AnEntry(entry, meta)))
    {
      hide Track, Next, Shows, FrameIs, LevelOk, Shaped;
      AtTop(index);
      InvHere(index, below);
      ghost var f := TopShown(index, below);
      var level := levels[index];
      KindHere(level, notes[index].told, index);
      EntryShown(readers, level, notes[index], f, index, entry, meta);
      ghost var g := EmitInside(EntrySeen(entry, meta, level.depth), below, f);
      levels := levels[index := level.(entries := level.entries + 1)];
      notes := Noted(index, Between(Remember(notes[index].told.past, AnEntry(entry, meta))));
      ShownTop(index, below, g);
    }

    method HandleStart(index: nat, meta: Meta, ghost below: seq<Frame>, ghost base: nat) returns (problem: Option<Reason>)
      requires Inv(index, below) && SettledAbove(index) && TopIsPlain() && notes[index].told.Between? && Counted(index, base)
      modifies this`levels, this`notes, this`totalMembers
      ensures Track(trace).Some?
      ensures problem.None? ==> Inv(index, below) && SettledAbove(index) && SameReader(index) && TopIsPlain()
      ensures problem.None? ==> Ripe(levels[index], notes[index]) && notes[index].told == Inside(old(notes[index].told.past), meta, [])
      ensures problem.None? ==> levels[index].office == Labelled(readers, old(levels[index].reader), old(levels[index].office), ReadStart(meta))
      ensures problem.Some? ==> problem == if PathFault(meta.path).Some? then PathFault(meta.path) else Some(MetadataOverBound)
      ensures PathFault(meta.path).Some? ==> problem.Some?
      ensures problem.None? ==> Counted(index, base)
      ensures problem.Some? ==> Barred(ToldCount(readers, Inside(old(notes[index].told.past), meta, []), index), base)
    {
      hide Shows, Track, Next, PathFault, FrameIs, LevelOk, Shaped, HeadOnly, ToldCount, EndedCount;
      AtTop(index);
      InvHere(index, below);
      OneMoreCount(readers, notes[index].told.past, EntryKind.Directory, meta, index);
      problem := CheckPath(meta.path);
      if problem.Some? {
        return;
      }
      problem := CountOne();
      if problem.Some? {
        return;
      }
      ghost var f := TopShown(index, below);
      var level := levels[index];
      if level.office.None? {
        level := level.(office := readers.office(level.reader, meta.path));
      }
      KindHere(levels[index], notes[index].told, index);
      StartShown(readers, levels[index], notes[index], f, index, meta, level.office);
      levels := levels[index := level.(open := Some(OpenMember(meta, Some([]), false, None)))];
      notes := Noted(index, Inside(notes[index].told.past, meta, []));
      ShownTop(index, below, f);
    }

    /** Member bytes go to the level above a nested member, to the probe of an undecided one, or to the sink. */
    method RouteBytes(index: nat, bytes: seq<Byte>, ghost below: seq<Frame>, ghost base: nat) returns (problem: Option<Reason>)
      requires Sound() && Inv(index, below) && SettledAbove(index) && TopIsPlain() && Ripe(levels[index], notes[index])
      requires notes[index].told.Inside? && Counted(index, base)
      modifies this`levels, this`notes, this`trace, this`totalMembers
      ensures Track(trace).Some?
      ensures problem.None? ==> Inv(index, below) && SettledAbove(index) && SameLabel(index) && TopIsPlain()
      ensures problem.None? ==> Ripe(levels[index], notes[index]) && notes[index].told == Fuller(old(notes[index].told), bytes)
      ensures problem.None? ==> Counted(index, base)
      ensures problem.Some? ==> Barred(ToldCount(readers, Fuller(old(notes[index].told), bytes), index), base)
      decreases MAX_DEPTH - index, 2
    {
      hide Shows, Next, Track, Shaped, Brackets, HeadOnly, ToldCount, DecidedCount, EndedCount;
      InvHere(index, below);
      ghost var t := notes[index].told;
      InsideTold(readers, t, index);
      InsideTold(readers, Fuller(t, bytes), index);
      var open := levels[index].open.value;
      if open.nested {
        EnoughBytes(index, below);
        problem := RouteDown(index, bytes, below, base);
      } else if open.probe.Some? {
        KeepProbe(index, bytes, below);
        problem := None;
        if |levels[index].open.value.probe.value| >= THRESHOLD {
          problem := DecideMember(index, below, base);
        }
      } else {
        EnoughBytes(index, below);
        if HeadOnly(readers) {
          PlainInside(index, below);
          HeadGrows(t.bytes, bytes);
          PlainCount(readers, t, index);
          PlainCount(readers, Fuller(t, bytes), index);
        }
        ShowBytes(index, bytes, below);
        problem := None;
      }
    }

    /** A decided member has at least the bytes it was decided on. */
    lemma EnoughBytes(index: nat, below: seq<Frame>)
      requires Inv(index, below) && SettledAbove(index) && index < |levels| && notes[index].told.Inside?
      requires levels[index].open.Some? && levels[index].open.value.probe.None? && (TopIsPlain() || index + 1 < |levels|)
      ensures notes[index].decided <= |notes[index].told.bytes|
    {
      hide Track;
    }

    /** A member decided to be plain has no container inside. */
    lemma PlainInside(index: nat, below: seq<Frame>)
      requires HeadOnly(readers) && Inv(index, below) && SettledAbove(index) && index < |levels| && notes[index].told.Inside?
      requires levels[index].open.Some? && levels[index].open.value.probe.None? && !levels[index].open.value.nested
      requires THRESHOLD <= notes[index].decided || notes[index].decided == |notes[index].told.bytes|
      ensures readers.infer(notes[index].told.meta.path, Head(notes[index].told.bytes)).container == None
    {
      hide Track, HeadOnly;
      UndecidedTop(index, below);
      var f := TopShown(index, below);
      var t := notes[index].told;
      DecidedByHead(readers, t.meta.path, t.bytes, notes[index].decided, levels[index].open.value.media, None);
    }

    /** The stack seen from one level further up. */
    lemma Descends(index: nat, below: seq<Frame>) returns (f: Frame)
      requires Inv(index, below) && SettledAbove(index) && index + 1 < |levels|
      ensures f == Stack()[index] && FrameIs(readers, levels[index], notes[index], f, true)
      ensures LevelOk(levels[index], notes[index].told, index) && HasNested(levels[index])
      ensures Inv(index + 1, below + [f]) && Settled(index + 1) && |levels| <= MAX_DEPTH
    {
      hide Track, LevelOk;
      f := Stack()[index];
      assert FrameIs(readers, levels[index], notes[index], f, true);
      assert LevelOk(levels[index], notes[index].told, index) && HasNested(levels[index]);
      LevelDepth(levels[index], notes[index].told, index);
      NestedAwaits(levels[index], notes[index], f);
      assert Stack()[..index + 1] == below + [f];
      OverFrame(below, f);
    }

    lemma NestedAwaits(l: Level<R>, note: Note, f: Frame)
      requires FrameIs(readers, l, note, f, true) && LevelOk(l, note.told, l.depth) && HasNested(l)
      ensures Awaits(f) && l.open.value.probe.None?
    {
    }

    /** And from one level further down. */
    lemma Ascends(index: nat, below: seq<Frame>, f: Frame)
      requires Inv(index + 1, below + [f]) && |below| == index && (below != [] ==> MayBegin(Tracking(below, None)))
      requires index < |notes| && index < |levels|
      requires LevelOk(levels[index], notes[index].told, index) && HasNested(levels[index])
      requires FrameIs(readers, levels[index], notes[index], f, true)
      ensures Inv(index, below)
    {
      hide Track, LevelOk, FrameIs;
      OverFrame(below, f);
      assert Stack()[..index + 1][..index] == Stack()[..index] && Stack()[index] == Stack()[..index + 1][index] == f;
    }

    /** What is kept below `index + 1` includes level `index`. */
    twostate lemma KeptAt(index: nat)
      requires Kept(index + 1)
      ensures levels[index] == old(levels[index]) && notes[index] == old(notes[index]) && SameLabel(index)
    {
      assert levels[index] == levels[..index + 1][index] && notes[index] == notes[..index + 1][index];
      assert levels[..index] == levels[..index + 1][..index] && notes[..index] == notes[..index + 1][..index];
    }

    method RouteDown(index: nat, bytes: seq<Byte>, ghost below: seq<Frame>, ghost base: nat) returns (problem: Option<Reason>)
      requires Sound() && Inv(index, below) && SettledAbove(index) && TopIsPlain() && Ripe(levels[index], notes[index])
      requires notes[index].told.Inside? && HasNested(levels[index]) && Counted(index, base) && THRESHOLD <= |notes[index].told.bytes|
      modifies this`levels, this`notes, this`trace, this`totalMembers
      ensures Track(trace).Some?
      ensures problem.None? ==> Inv(index, below) && SettledAbove(index) && SameLabel(index) && TopIsPlain()
      ensures problem.None? ==> Ripe(levels[index], notes[index]) && notes[index].told == Fuller(old(notes[index].told), bytes)
      ensures problem.None? ==> Counted(index, base)
      ensures problem.Some? ==> Barred(ToldCount(readers, Fuller(old(notes[index].told), bytes), index), base)
      decreases MAX_DEPTH - index, 1
    {
      hide Shows, Next, Track, Shaped, Brackets, LevelOk, FrameIs, Decided, HeadOnly, ToldCount, DecidedCount, EndedCount, StartedCount, PartCount;
      InvHere(index, below);
      assert index + 1 < |levels|;
      ghost var f := Descends(index, below);
      ghost var t := notes[index].told;
      InsideTold(readers, t, index);
      KindHere(levels[index], t, index);
      assert FeedsAbove(index);
      ghost var above := NestedEnds(index, levels[index].open.value, base);
      if HeadOnly(readers) {
        MoreNested(readers, t, bytes, notes[index + 1].begun, index);
      }
      problem := FeedLevel(index + 1, bytes, below + [f], above);
      if problem.Some? {
        return;
      }
      PartCounted(index + 1, above);
      KeptAt(index);
      InvHere(index + 1, below + [f]);
      ghost var note := notes[index];
      MoreDecided(readers, levels[index].open.value.meta.path, note.told.bytes, bytes, note.decided, levels[index].open.value.media,
                  Some(notes[index + 1].begun));
      FullerOk(levels[index], note, f, bytes, index);
      ghost var was := notes;
      InvParts(index + 1, below + [f]);
      label fed:
      notes := Noted(index, Fuller(note.told, bytes));
      SettledApart@fed(index);
      InvApart(index, below + [f], was);
      Ascends(index, below, f);
    }

    /** What a settled level has told counts as what it was fed does. */
    lemma PartCounted(index: nat, base: nat)
      requires index < |levels| == |notes| && Settled(index) && TopIsPlain() && Counted(index, base)
      ensures Sums(PartCount(readers, notes[index].begun, notes[index].fed, index), base)
    {
      hide HeadOnly, ToldCount, EndedCount, PartCount, Reading, Ripe;
      assert SettledAt(index);
      ToldIsPart(readers, notes[index].begun, notes[index].fed, Reading(readers, notes[index].begun, notes[index].fed).value, index);
    }

    /** More bytes of a nested member are more bytes of its container. */
    lemma MoreNested(readers: Readers<R>, t: Told, bytes: seq<Byte>, kind: ContainerKind, index: nat)
      requires t.Inside? && THRESHOLD <= |t.bytes| && index + 1 < MAX_DEPTH
      requires readers.infer(t.meta.path, Head(t.bytes)).container == Some(kind)
      ensures ToldCount(readers, Fuller(t, bytes), index) ==
              Plus(StartedCount(readers, t, index), PartCount(readers, kind, t.bytes + bytes, index + 1))
    {
      hide PartCount, InsideCount;
      HeadGrows(t.bytes, bytes);
      InsideTold(readers, Fuller(t, bytes), index);
      NestedCount(readers, Fuller(t, bytes), kind, index);
    }

    /** More bytes told of a nested member show nowhere. */
    lemma FullerOk(l: Level<R>, note: Note, f: Frame, bytes: seq<Byte>, index: nat)
      requires LevelOk(l, note.told, index) && HasNested(l) && FrameIs(readers, l, note, f, true) && note.told.Inside?
      ensures var fuller := note.(told := Fuller(note.told, bytes));
              LevelOk(l, fuller.told, index) && FrameIs(readers, l, fuller, f, true)
    {
    }

    /** A change to a level's note leaves the levels above it as they are. */
    lemma InvApart(index: nat, under: seq<Frame>, was: seq<Note>)
      requires |was| == |notes| && index < |was| && notes == was[index := notes[index]]
      requires Shaped(levels, was, index + 1) && |under| == index + 1 && MayBegin(Tracking(under, None))
      requires Track(trace).Some? && Track(trace).value.whole.None? && Shows(readers, levels, was, index + 1, Stack()) && Stack()[..index + 1] == under
      ensures Inv(index + 1, under)
    {
      hide Track, LevelOk, FrameIs;
      forall j | index + 1 <= j < |levels| ensures LevelOk(levels[j], notes[j].told, j) {
        assert LevelOk(levels[j], was[j].told, j);
      }
    }

    /** First bytes of an undecided member are kept back. */
    method KeepProbe(index: nat, bytes: seq<Byte>, ghost below: seq<Frame>)
      requires Inv(index, below) && SettledAbove(index) && TopIsPlain() && notes[index].told.Inside?
      requires levels[index].open.Some? && levels[index].open.value.probe.Some?
      modifies this`levels, this`notes
      ensures Inv(index, below) && SettledAbove(index) && SameLabel(index) && TopIsPlain() && index + 1 == |levels|
      ensures levels[index].open.Some? && levels[index].open.value.probe == Some(old(notes[index].told.bytes) + bytes)
      ensures notes[index].told == Fuller(old(notes[index].told), bytes)
    {
      hide Track, Shows, ItemsAre;
      InvHere(index, below);
      UndecidedTop(index, below);
      ghost var f := TopShown(index, below);
      var level := levels[index];
      var open := level.open.value;
      levels := levels[index := level.(open := Some(open.(probe := Some(open.probe.value + bytes))))];
      notes := Noted(index, Fuller(notes[index].told, bytes));
      ShownTop(index, below, f);
    }

    /** A level whose member is not nested is the top. */
    lemma UndecidedTop(index: nat, below: seq<Frame>)
      requires Inv(index, below) && !HasNested(levels[index])
      ensures index + 1 == |levels|
    {
    }

    /** Bytes of a member decided to be plain go to the sink. */
    method ShowBytes(index: nat, bytes: seq<Byte>, ghost below: seq<Frame>)
      requires Inv(index, below) && SettledAbove(index) && TopIsPlain() && Ripe(levels[index], notes[index]) && notes[index].told.Inside?
      requires levels[index].open.Some? && levels[index].open.value.probe.None? && !levels[index].open.value.nested
      modifies this`notes, this`trace
      ensures Inv(index, below) && SettledAbove(index) && SameLabel(index) && TopIsPlain() && Ripe(levels[index], notes[index])
      ensures notes[index].told == Fuller(old(notes[index].told), bytes)
    {
      hide Track, Next, Shows, FrameIs, LevelOk;
      InvHere(index, below);
      UndecidedTop(index, below);
      ghost var f := TopShown(index, below);
      KindHere(levels[index], notes[index].told, index);
      BytesShown(readers, levels[index], notes[index], f, index, bytes);
      ghost var g := EmitInside(MemberBytes(bytes, levels[index].depth), below, f);
      notes := Noted(index, Fuller(notes[index].told, bytes));
      ShownTop(index, below, g);
    }

    /** The first bytes and the name decide whether a member is walked as a container of its own. */
    method DecideMember(index: nat, ghost below: seq<Frame>, ghost base: nat) returns (problem: Option<Reason>)
      requires Sound() && Inv(index, below) && SettledAbove(index) && notes[index].told.Inside?
      requires levels[index].open.Some? && levels[index].open.value.probe.Some?
      requires Sums(StartedCount(readers, notes[index].told, index), base)
      modifies this`levels, this`notes, this`trace, this`totalMembers
      ensures Track(trace).Some?
      ensures problem.None? ==> Inv(index, below) && SettledAbove(index) && SameLabel(index) && TopIsPlain()
      ensures var told := old(notes[index].told);
              var inferred := readers.infer(told.meta.path, told.bytes);
              && (inferred.container.Some? && index + 1 == MAX_DEPTH ==> problem == Some(DepthExceeded))
              && (problem.None? ==>
                    && notes[index] == old(notes[index]).(decided := |told.bytes|)
                    && levels[index].open == Some(OpenMember(told.meta, None, inferred.container.Some?, inferred.media)))
      ensures problem.None? ==> Sums(DecidedCount(readers, old(notes[index].told), index), base)
      ensures problem.Some? ==> Barred(DecidedCount(readers, old(notes[index].told), index), base)
      decreases MAX_DEPTH - index, 1
    {
      hide Shows, Next, Track, Shaped, Brackets, HeadOnly, StartedCount, DecidedCount;
      InvHere(index, below);
      UndecidedTop(index, below);
      var open := levels[index].open.value;
      var probe := open.probe.value;
      var inferred := readers.infer(open.meta.path, probe);
      if HeadOnly(readers) {
        HeadTells(readers, open.meta.path, probe);
      }
      if inferred.container.Some? {
        if |levels| >= MAX_DEPTH {
          TooDeep(notes[index].told, index);
          return Some(DepthExceeded);
        }
        problem := OpenNested(index, inferred.container.value, inferred.media, probe, below, base);
      } else {
        if HeadOnly(readers) {
          PlainCount(readers, notes[index].told, index);
        }
        problem := None;
        OpenPlain(index, inferred.media, probe, below);
      }
    }

    lemma TooDeep(t: Told, index: nat)
      requires t.Inside? && MAX_DEPTH <= index + 1
      requires HeadOnly(readers) ==> readers.infer(t.meta.path, Head(t.bytes)).container.Some?
      ensures HeadOnly(readers) ==> DecidedCount(readers, t, index) == None
    {
      hide HeadOnly;
    }

    /** A level's note, with its member decided on the bytes told so far. */
    ghost function NowDecided(index: nat): seq<Note>
      requires index < |notes| && notes[index].told.Inside?
      reads this
    {
      notes[index := notes[index].(decided := |notes[index].told.bytes|)]
    }

    method OpenNested(index: nat, kind: ContainerKind, media: Option<Label>, probe: seq<Byte>, ghost below: seq<Frame>, ghost base: nat)
        returns (problem: Option<Reason>)
      requires Sound() && Inv(index, below) && SettledAbove(index) && notes[index].told.Inside? && index + 1 == |levels| < MAX_DEPTH
      requires levels[index].open.Some? && levels[index].open.value.probe == Some(probe)
      requires readers.infer(notes[index].told.meta.path, notes[index].told.bytes) == Inferred(media, Some(kind))
      requires Sums(StartedCount(readers, notes[index].told, index), base)
      modifies this`levels, this`notes, this`trace, this`totalMembers
      ensures Track(trace).Some?
      ensures problem.None? ==> Inv(index, below) && SettledAbove(index) && SameLabel(index) && TopIsPlain()
      ensures problem.None? ==> notes[index] == old(notes[index]).(decided := |old(notes[index].told.bytes)|)
      ensures problem.None? ==> levels[index].open == Some(OpenMember(old(notes[index].told.meta), None, true, media))
      ensures problem.None? ==> Sums(DecidedCount(readers, old(notes[index].told), index), base)
      ensures problem.Some? ==> Barred(DecidedCount(readers, old(notes[index].told), index), base)
      decreases MAX_DEPTH - index, 0
    {
      hide Shows, Next, Track, Shaped, Brackets, FrameIs, Decided, HeadOnly, StartedCount, DecidedCount, PartCount, EndedCount, ToldCount;
      InvHere(index, below);
      ghost var t := notes[index].told;
      ghost var apart := 0;
      if HeadOnly(readers) {
        HeadTells(readers, t.meta.path, t.bytes);
        NestedCount(readers, t, kind, index);
        apart := base + StartedCount(readers, t, index).value;
      }
      ghost var f := StartNested(index, media, below);
      label started:
      problem := BeginLevel(kind, probe, below + [f], apart);
      if problem.Some? {
        return;
      }
      KeptAt@started(index);
      InvHere(index + 1, below + [f]);
      JustDecided(readers, notes[index].told.meta.path, notes[index].told.bytes);
      Ascends(index, below, f);
    }

    /** A new level on top, and its first bytes. */
    method BeginLevel(kind: ContainerKind, bytes: seq<Byte>, ghost below: seq<Frame>, ghost base: nat) returns (problem: Option<Reason>)
      requires Sound() && |levels| == |notes| == |below| < MAX_DEPTH
      requires Track(trace) == Some(Tracking(below, None)) && MayBegin(Tracking(below, None))
      requires HeadOnly(readers) ==> totalMembers == base <= MAX_TOTAL_MEMBERS
      modifies this`levels, this`notes, this`trace, this`totalMembers
      ensures Track(trace).Some?
      ensures problem.None? ==>
                var index := old(|levels|);
                && Inv(index, below) && Kept(index) && Settled(index) && TopIsPlain() && Counted(index, base)
                && notes[index].begun == kind && notes[index].fed == bytes
                && Sums(PartCount(readers, kind, bytes, index), base)
      ensures problem.Some? ==> Barred(PartCount(readers, kind, bytes, old(|levels|)), base)
      decreases MAX_DEPTH - |levels|, 7
    {
      hide Shows, Next, Track, Shaped, Brackets, FrameIs, HeadOnly, PartCount, EndedCount, ToldCount;
      var index := |levels|;
      PushLevel(kind, below);
      NothingCounted(kind, index);
      KeptStill(index);
      assert [] + bytes == bytes;
      label begun:
      problem := FeedLevel(index, bytes, below, base);
      if problem.None? {
        KeptStill@begun(index);
        InvHere(index, below);
        PartCounted(index, base);
      }
    }

    /** A container just begun holds nothing yet. */
    lemma NothingCounted(kind: ContainerKind, index: nat)
      ensures ToldCount(readers, FirstTold(kind), index) == Some(0)
    {
    }

    /** A nested member is announced: its container may begin on top of it. */
    method StartNested(index: nat, media: Option<Label>, ghost below: seq<Frame>) returns (ghost g: Frame)
      requires Inv(index, below) && SettledAbove(index) && notes[index].told.Inside? && index + 1 == |levels|
      requires levels[index].open.Some? && levels[index].open.value.probe.Some?
      modifies this`levels, this`notes, this`trace
      ensures SameLabel(index) && |levels| == old(|levels|) == |notes| && LevelOk(levels[index], notes[index].told, index) && HasNested(levels[index])
      ensures levels[index].open == Some(OpenMember(old(notes[index].told.meta), None, true, media))
      ensures notes[index] == old(notes[index]).(decided := |old(notes[index].told.bytes)|)
      ensures FrameIs(readers, levels[index], notes[index], g, true)
      ensures Track(trace) == Some(Tracking(below + [g], None)) && MayBegin(Tracking(below + [g], None))
    {
      hide Track, Next, Shows, ItemsAre;
      InvHere(index, below);
      ghost var f := TopShown(index, below);
      var level := levels[index];
      var open := level.open.value;
      g := EmitInside(MemberStart(open.meta, media, true, level.depth), below, f);
      levels := levels[index := level.(open := Some(OpenMember(open.meta, None, true, media)))];
      notes := NowDecided(index);
      OverFrame(below, g);
    }

    /** A plain member is announced, and its first bytes with it. */
    method OpenPlain(index: nat, media: Option<Label>, probe: seq<Byte>, ghost below: seq<Frame>)
      requires Inv(index, below) && SettledAbove(index) && notes[index].told.Inside? && index + 1 == |levels|
      requires levels[index].open.Some? && levels[index].open.value.probe == Some(probe)
      requires readers.infer(notes[index].told.meta.path, notes[index].told.bytes) == Inferred(media, None)
      modifies this`levels, this`notes, this`trace
      ensures Inv(index, below) && SettledAbove(index) && SameLabel(index) && TopIsPlain()
      ensures notes[index] == old(notes[index]).(decided := |old(notes[index].told.bytes)|)
      ensures levels[index].open == Some(OpenMember(old(notes[index].told.meta), None, false, media))
    {
      hide Track, Next, Shows, FrameIs, LevelOk, Shaped;
      InvHere(index, below);
      ghost var f := TopShown(index, below);
      var level := levels[index];
      var open := level.open.value;
      KindHere(level, notes[index].told, index);
      PlainShown(readers, level, notes[index], f, index, media);
      ghost var g := EmitInside(MemberStart(open.meta, media, false, level.depth), below, f);
      g := EmitInside(MemberBytes(probe, level.depth), below, g);
      levels := levels[index := level.(open := Some(OpenMember(open.meta, None, false, media)))];
      notes := NowDecided(index);
      assert [] + [probe] == [probe];
      ShownTop(index, below, g);
    }

    /** The open member ends: what is undecided is decided, what is nested is finished, and the sink is told. */
    method CloseMember(index: nat, length: nat, ghost below: seq<Frame>, ghost base: nat) returns (problem: Option<Reason>)
      requires Sound() && Inv(index, below) && SettledAbove(index) && Ripe(levels[index], notes[index]) && Counted(index, base)
      requires notes[index].told.Inside? && |notes[index].told.bytes| == length
      requires TopIsPlain() || WalkedTop(index)
      modifies this`levels, this`notes, this`trace, this`totalMembers
      ensures Track(trace).Some?
      ensures problem.None? ==> Inv(index, below) && SettledAbove(index) && SameLabel(index) && TopIsPlain() && index + 1 == |levels|
      ensures problem.None? ==> Ripe(levels[index], notes[index]) && Some(notes[index].told) == Tell(old(notes[index].told), ReadEnd(length))
      ensures problem.None? ==> Counted(index, base)
      ensures problem.Some? ==> Barred(EndedCount(readers, old(notes[index].told), index), base)
      decreases MAX_DEPTH - index, 2
    {
      hide Shows, Next, Track, Shaped, Brackets, HeadOnly, StartedCount, DecidedCount, EndedCount, ToldCount;
      InvHere(index, below);
      InsideTold(readers, notes[index].told, index);
      if levels[index].open.Some? && levels[index].open.value.probe.Some? {
        problem := DecideMember(index, below, base);
        if problem.Some? {
          return;
        }
      } else if !WalkedTop(index) {
        EnoughBytes(index, below);
      }
      label decided:
      problem := EndMember(index, length, below, base);
    }

    /** A member about to end is counted with what is inside it: whole, when that has been finished already. */
    ghost predicate Ending(index: nat, base: nat)
      requires index < |levels| == |notes| && notes[index].told.Inside?
      reads this
    {
      var t := notes[index].told;
      Sums(if WalkedTop(index) then EndedCount(readers, t, index) else DecidedCount(readers, t, index), base)
    }

    method EndMember(index: nat, length: nat, ghost below: seq<Frame>, ghost base: nat) returns (problem: Option<Reason>)
      requires Sound() && Inv(index, below) && SettledAbove(index) && notes[index].told.Inside? && |notes[index].told.bytes| == length
      requires levels[index].open.Some? && levels[index].open.value.probe.None?
      requires THRESHOLD <= notes[index].decided || notes[index].decided == length
      requires (TopIsPlain() || WalkedTop(index)) && Ending(index, base)
      modifies this`levels, this`notes, this`trace, this`totalMembers
      ensures Track(trace).Some?
      ensures problem.None? ==> Inv(index, below) && SettledAbove(index) && SameLabel(index) && TopIsPlain() && index + 1 == |levels|
      ensures problem.None? ==> Ripe(levels[index], notes[index]) && Some(notes[index].told) == Tell(old(notes[index].told), ReadEnd(length))
      ensures problem.None? ==> Counted(index, base)
      ensures problem.Some? ==> Barred(EndedCount(readers, old(notes[index].told), index), base)
      decreases MAX_DEPTH - index, 1
    {
      hide Shows, Next, Track, Shaped, OpenIs, ItemsAre, Brackets, HeadOnly, DecidedCount, EndedCount, ToldCount;
      InvHere(index, below);
      InsideTold(readers, notes[index].told, index);
      var open := levels[index].open.value;
      ghost var frame := TakeOpen(index, below);
      label taken:
      ghost var shown;
      problem, shown := FinishNested(index, open, frame, below, base);
      if problem.Some? {
        return;
      }
      KeptAt@taken(index);
      TellEnd(index, length, open, shown, below);
    }

    /** The open member is taken out of its level; what the sink has seen of it stays. */
    method TakeOpen(index: nat, ghost below: seq<Frame>) returns (ghost f: Frame)
      requires Inv(index, below) && SettledAbove(index) && notes[index].told.Inside?
      requires levels[index].open.Some? && levels[index].open.value.probe.None?
      requires TopIsPlain() || WalkedTop(index)
      modifies this`levels
      ensures |levels| == old(|levels|) && levels[index] == old(levels[index]).(open := None) && SameLabel(index)
      ensures FrameIs(readers, old(levels[index]), notes[index], f, index + 1 < |levels|)
      ensures old(levels[index].open).Some? && old(levels[index].open.value.meta) == notes[index].told.meta
      ensures if index + 1 < |levels| then
                old(HasNested(levels[index])) && Feeds(readers, old(levels[index].open.value), notes[index], notes[index + 1])
                && Inv(index + 1, below + [f]) && Settled(index + 1) && TopIsPlain()
              else Track(trace) == Some(Tracking(below + [f], None))
    {
      hide Track, Next, FrameIs, Feeds, LevelOk, Reading, Ripe;
      InvHere(index, below);
      KindHere(levels[index], notes[index].told, index);
      ghost var was := levels;
      if index + 1 < |levels| {
        f := Descends(index, below);
      } else {
        f := TopShown(index, below);
      }
      levels := levels[index := levels[index].(open := None)];
      if index + 1 < |levels| {
        StillAbove(index, below + [f], was);
        SettledApart(index);
      }
    }

    /** A change to a level leaves the levels above it as they are. */
    lemma StillAbove(index: nat, under: seq<Frame>, was: seq<Level<R>>)
      requires |was| == |levels| == |notes| && index + 1 < |was| && levels == was[index := levels[index]]
      requires Shaped(was, notes, index + 1) && |under| == index + 1 && MayBegin(Tracking(under, None))
      requires Track(trace).Some? && Track(trace).value.whole.None? && Shows(readers, was, notes, index + 1, Stack()) && Stack()[..index + 1] == under
      ensures Inv(index + 1, under)
    {
      hide Track, LevelOk, FrameIs;
      forall j | index + 1 <= j < |levels| ensures LevelOk(levels[j], notes[j].told, j) {
        assert LevelOk(was[j], notes[j].told, j);
      }
    }

    /** What is nested in a member that ends is finished. */
    method FinishNested(index: nat, open: OpenMember, ghost frame: Frame, ghost below: seq<Frame>, ghost base: nat)
        returns (problem: Option<Reason>, ghost shown: Frame)
      requires Sound() && index < |levels| == |notes| && |levels| <= MAX_DEPTH && |below| == index
      requires frame.open.Some? && OpenIs(readers, open, notes[index], frame.open.value, index + 1 < |levels|)
      requires if index + 1 < |levels| then
                 open.nested && Feeds(readers, open, notes[index], notes[index + 1])
                 && Inv(index + 1, below + [frame]) && Settled(index + 1) && TopIsPlain()
               else Track(trace) == Some(Tracking(below + [frame], None))
      requires open.meta == notes[index].told.meta && (THRESHOLD <= notes[index].decided || notes[index].decided == |notes[index].told.bytes|)
      requires Sums(if open.nested && index + 1 == |levels| then EndedCount(readers, notes[index].told, index)
                    else DecidedCount(readers, notes[index].told, index), base)
      modifies this`levels, this`notes, this`trace, this`totalMembers
      ensures Track(trace).Some?
      ensures problem.None? ==> Sums(EndedCount(readers, old(notes[index].told), index), base)
      ensures problem.Some? ==> Barred(EndedCount(readers, old(notes[index].told), index), base)
      ensures problem.None? ==> |levels| == index + 1 && Kept(index + 1)
      ensures problem.None? ==> Track(trace) == Some(Tracking(below + [shown], None))
      ensures problem.None? ==>
                shown.kind == frame.kind && shown.items == frame.items && shown.open.Some?
                && OpenIs(readers, open, notes[index], shown.open.value, false)
      decreases MAX_DEPTH - index, 0
    {
      hide Shows, Next, Track, Shaped, OpenIs, Brackets, Feeds, HeadOnly, DecidedCount, EndedCount, StartedCount, ToldCount, WholeCount;
      problem, shown := None, frame;
      OverFrame(below, frame);
      if !open.nested {
        PlainEnds(open, notes[index], frame.open.value, index);
      }
      if open.nested && |levels| > index + 1 {
        ghost var whole;
        ghost var above := NestedEnds(index, open, base);
        problem, whole := FinishLevelsFrom(index + 1, below + [frame], above);
        if problem.None? {
          KeptAt(index);
          WalkedIs(readers, open, notes[index], frame.open.value, old(notes[index + 1]), whole);
          shown := Walked(frame, whole);
          assert SetTop(below + [frame], shown) == below + [shown];
        }
      }
    }

    lemma PlainEnds(open: OpenMember, note: Note, shown: OpenItem, index: nat)
      requires !open.nested && OpenIs(readers, open, note, shown, false) && open.meta == note.told.meta
      requires THRESHOLD <= note.decided || note.decided == |note.told.bytes|
      ensures HeadOnly(readers) ==> DecidedCount(readers, note.told, index) == EndedCount(readers, note.told, index)
    {
      hide HeadOnly;
      if HeadOnly(readers) {
        DecidedByHead(readers, open.meta.path, note.told.bytes, note.decided, open.media, None);
        PlainCount(readers, note.told, index);
      }
    }

    /** What the container inside a member that ends will count to is what the member does. */
    lemma NestedEnds(index: nat, open: OpenMember, base: nat) returns (above: nat)
      requires index + 1 < |levels| == |notes| && |levels| <= MAX_DEPTH && Settled(index + 1) && TopIsPlain()
      requires Feeds(readers, open, notes[index], notes[index + 1]) && open.meta == notes[index].told.meta
      requires THRESHOLD <= notes[index].decided || notes[index].decided == |notes[index].told.bytes|
      requires Sums(DecidedCount(readers, notes[index].told, index), base)
      ensures Counted(index + 1, above)
      ensures HeadOnly(readers) ==>
                var t := notes[index].told;
                && readers.infer(t.meta.path, Head(t.bytes)).container == Some(notes[index + 1].begun)
                && Holds(StartedCount(readers, t, index), base, above)
                && EndedCount(readers, t, index) ==
                   Plus(StartedCount(readers, t, index), WholeCount(readers, notes[index + 1].begun, notes[index + 1].fed, index + 1))
    {
      hide HeadOnly, ToldCount, PartCount, WholeCount, DecidedCount, EndedCount, StartedCount, Reading;
      above := 0;
      if HeadOnly(readers) {
        var t := notes[index].told;
        assert SettledAt(index + 1);
        DecidedByHead(readers, t.meta.path, t.bytes, notes[index].decided, open.media, Some(notes[index + 1].begun));
        NestedCount(readers, t, notes[index + 1].begun, index);
        ToldIsPart(readers, notes[index + 1].begun, t.bytes, Reading(readers, notes[index + 1].begun, t.bytes).value, index + 1);
        above := base + StartedCount(readers, t, index).value;
      }
    }

    /** The end of a member, once whatever was nested in it has been finished. */
    method TellEnd(index: nat, length: nat, open: OpenMember, ghost shown: Frame, ghost below: seq<Frame>)
      requires index + 1 == |levels| == |notes| <= MAX_DEPTH && |below| == index && (below != [] ==> MayBegin(Tracking(below, None)))
      requires levels[index].depth == index && levels[index].open.None? && ListedAs(readers, levels[index], notes[index].told, shown)
      requires notes[index].told.Inside? && |notes[index].told.bytes| == length && open.meta == notes[index].told.meta
      requires THRESHOLD <= notes[index].decided || notes[index].decided == length
      requires shown.open.Some? && OpenIs(readers, open, notes[index], shown.open.value, false)
      requires levels[index].kind == Some(notes[index].told.past.kind)
      requires Track(trace) == Some(Tracking(below + [shown], None))
      modifies this`levels, this`notes, this`trace
      ensures Inv(index, below) && SettledAbove(index) && SameLabel(index) && TopIsPlain() && index + 1 == |levels|
      ensures Ripe(levels[index], notes[index]) && Some(notes[index].told) == Tell(old(notes[index].told), ReadEnd(length))
    {
      hide Track, Next, Shows, FrameIs, LevelOk, Shaped, ListedAs, OpenIs, NextInside;
      var level := levels[index];
      ghost var told := notes[index].told;
      EndShown(readers, level, notes[index], open, shown);
      ghost var g := EmitInside(MemberEnd(length, open.media, level.depth), below, shown);
      levels := levels[index := level.(members := level.members + 1)];
      notes := Noted(index, Between(Remember(told.past, AMember(told.meta, told.bytes))));
      ShownTop(index, below, g);
    }

    /** Finish and pop every level from `from` up, the top first: the container that the lowest of them was fed. */
    method FinishLevelsFrom(from: nat, ghost below: seq<Frame>, ghost base: nat) returns (problem: Option<Reason>, ghost whole: Container)
      requires Sound() && Inv(from, below) && Settled(from) && TopIsPlain() && Counted(from, base)
      modifies this`levels, this`notes, this`trace, this`totalMembers
      ensures Track(trace).Some?
      ensures problem.None? ==> |levels| == from && Kept(from) && Track(trace) == Some(Visited(Tracking(below, None), whole))
      ensures problem.None? ==> Tells(readers, whole, old(notes[from].begun), old(notes[from].fed))
      ensures problem.None? ==> Sums(WholeCount(readers, old(notes[from].begun), old(notes[from].fed), from), base)
      ensures problem.Some? ==> Barred(WholeCount(readers, old(notes[from].begun), old(notes[from].fed), from), base)
      decreases MAX_DEPTH - from, 7
    {
      hide Shows, Next, Track, Shaped, Tells, Visited, Brackets, HeadOnly, WholeCount, ToldCount, EndedCount;
      InvHere(from, below);
      whole := Container(Zip, [], None);
      StackUncounted(from, below, base);
      while |levels| > from
        invariant |levels| > from ==> Inv(from, below) && Settled(from)
        invariant |levels| > from ==> StackCounted(from, base)
        invariant |levels| > from ==> notes[from].begun == old(notes[from].begun) && notes[from].fed == old(notes[from].fed)
        invariant |levels| == from ==> Sums(WholeCount(readers, old(notes[from].begun), old(notes[from].fed), from), base)
        invariant |levels| == from ==> Track(trace) == Some(Visited(Tracking(below, None), whole))
        invariant |levels| == from ==> Tells(readers, whole, old(notes[from].begun), old(notes[from].fed))
        invariant from <= |levels| && Kept(from)
        invariant Track(trace).Some?
        decreases |levels|
      {
        label here:
        problem, whole := FinishTop(from, below, base);
        if problem.Some? {
          return;
        }
        KeptStill@here(from);
      }
      problem := None;
    }

    /** What the stack from `from` up has counted, the top with a nested member that has been finished. */
    ghost predicate StackCounted(from: nat, base: nat)
      requires from < |levels| == |notes|
      reads this
    {
      var top := |levels| - 1;
      var t := notes[top].told;
      Sums(Plus(Under(readers, notes, from, top),
                if WalkedTop(top) && t.Inside? then EndedCount(readers, t, top) else ToldCount(readers, t, top)), base)
    }

    lemma Chained(from: nat, below: seq<Frame>)
      requires HeadOnly(readers) && Sound() && Inv(from, below) && Settled(from)
      ensures Chain(readers, at, levels, notes, from)
    {
      hide Track, Shows, Reading, HeadOnly, Brackets;
      forall j | from <= j < |levels| ensures
        && Reading(readers, notes[j].begun, notes[j].fed) == Some(Standing(levels[j].reader, notes[j].told, levels[j].office))
        && StandOf(notes[j].told) == at(levels[j].reader)
      {
        assert SettledAt(j);
        ReadingStands(readers, at, notes[j].begun, notes[j].fed);
      }
      forall j | from <= j < |levels| - 1 ensures ChainLink(readers, notes[j], notes[j + 1]) {
        assert SettledAt(j) && FeedsAbove(j) && LevelOk(levels[j], notes[j].told, j) && HasNested(levels[j]);
        var open := levels[j].open.value;
        DecidedByHead(readers, open.meta.path, notes[j].told.bytes, notes[j].decided, open.media, Some(notes[j + 1].begun));
      }
    }

    lemma StackUncounted(from: nat, below: seq<Frame>, base: nat)
      requires Sound() && Inv(from, below) && Settled(from) && TopIsPlain() && Counted(from, base)
      ensures StackCounted(from, base)
    {
      hide Inv, Settled, HeadOnly, ToldCount, EndedCount, Brackets, Chain, Under;
      InvHere(from, below);
      if HeadOnly(readers) {
        Chained(from, below);
        ChainCount(readers, at, levels, notes, from, |levels| - 1);
      }
    }

    /** Finish the top level: its reader's last words are handled, and it is then still the top, and popped. */
    method FinishTop(from: nat, ghost below: seq<Frame>, ghost base: nat) returns (problem: Option<Reason>, ghost whole: Container)
      requires Sound() && Inv(from, below) && Settled(from) && StackCounted(from, base)
      modifies this`levels, this`notes, this`trace, this`totalMembers
      ensures Track(trace).Some?
      ensures problem.None? ==> |levels| == old(|levels|) - 1 && from <= |levels| && Kept(from)
      ensures problem.None? ==>
                if |levels| > from then
                  Inv(from, below) && Settled(from)
                  && notes[from].begun == old(notes[from].begun) && notes[from].fed == old(notes[from].fed)
                else Track(trace) == Some(Visited(Tracking(below, None), whole))
                     && Tells(readers, whole, old(notes[from].begun), old(notes[from].fed))
      ensures problem.None? ==>
                if |levels| > from then StackCounted(from, base)
                else Sums(WholeCount(readers, old(notes[from].begun), old(notes[from].fed), from), base)
      ensures problem.Some? ==> Barred(WholeCount(readers, old(notes[from].begun), old(notes[from].fed), from), base)
      decreases MAX_DEPTH - from, 6
    {
      hide Shows, Next, Track, Shaped, TellAll, Tells, Visited, Brackets, LevelOk, StacksUp, Reading, Ripe, ReadOut, Feeds,
           HeadOnly, WholeCount, ToldCount, EndedCount, Chain, Under;
      InvHere(from, below);
      whole := Container(Zip, [], None);
      var index := |levels| - 1;
      ghost var under := SplitAt(from, below);
      InvHere(index, under);
      ghost var upper, words := levels, notes;
      ghost var above := TopCounted(from, below, base);
      problem := LastDispatch(index, under, above);
      if problem.Some? {
        RefusedBelow(from, upper, words, base, above);
        return;
      }
      InvHere(index, under);
      KindHere(levels[index], notes[index].told, index);
      problem, whole := PopTop(index, under);
      if problem.Some? {
        RefusedBelow(from, upper, words, base, above);
        return;
      }
      NowWalked(from, upper, words, base, above);
      assert levels == old(levels)[..index] && notes == old(notes)[..index];
      Uncovers(from, below, old(levels), old(notes), under, whole);
      SettledUnder(from);
    }

    /** The top level's share of what the stack has counted. */
    lemma TopCounted(from: nat, below: seq<Frame>, base: nat) returns (above: nat)
      requires Sound() && Inv(from, below) && Settled(from) && StackCounted(from, base)
      ensures from < |levels| == |notes| && Counted(|levels| - 1, above)
      ensures HeadOnly(readers) ==> Chain(readers, at, levels, notes, from) && Holds(Under(readers, notes, from, |levels| - 1), base, above)
    {
      hide Inv, Settled, HeadOnly, ToldCount, EndedCount, Brackets, Chain, Under;
      InvHere(from, below);
      above := 0;
      if HeadOnly(readers) {
        Chained(from, below);
        above := base + Under(readers, notes, from, |levels| - 1).value;
      }
    }

    lemma RefusedBelow(from: nat, upper: seq<Level<R>>, words: seq<Note>, base: nat, above: nat)
      requires Sound() && from < |upper| == |words|
      requires HeadOnly(readers) ==> Chain(readers, at, upper, words, from) && Holds(Under(readers, words, from, |upper| - 1), base, above)
      requires var top := words[|upper| - 1]; Barred(WholeCount(readers, top.begun, top.fed, |upper| - 1), above)
      ensures Barred(WholeCount(readers, words[from].begun, words[from].fed, from), base)
    {
      hide HeadOnly, WholeCount, Chain, Under, Brackets;
      if HeadOnly(readers) {
        ChainEnds(readers, at, upper, words, from, |upper| - 1, base);
      }
    }

    /** With the top popped, the level below is inside a member whose container has been finished. */
    lemma NowWalked(from: nat, upper: seq<Level<R>>, words: seq<Note>, base: nat, above: nat)
      requires from < |upper| == |words| && levels == upper[..|upper| - 1] && notes == words[..|upper| - 1]
      requires Shaped(upper, words, from)
      requires HeadOnly(readers) ==> Chain(readers, at, upper, words, from) && Holds(Under(readers, words, from, |upper| - 1), base, above)
      requires var top := words[|upper| - 1]; Sums(WholeCount(readers, top.begun, top.fed, |upper| - 1), above)
      ensures if |levels| > from then StackCounted(from, base) else Sums(WholeCount(readers, words[from].begun, words[from].fed, from), base)
    {
      hide HeadOnly, WholeCount, StartedCount, EndedCount, ToldCount, Reading, LevelOk;
      var index := |upper| - 1;
      if HeadOnly(readers) && index > from {
        var k := index - 1;
        var t, above_ := words[k].told, words[index];
        assert ChainLink(readers, words[k], above_) && HasNested(upper[k]);
        NestedCount(readers, t, above_.begun, k);
        UnderPrefix(readers, words, index, from, k);
      }
    }

    twostate lemma SettledUnder(from: nat)
      requires old(Settled(from)) && |levels| < old(|levels|) && levels == old(levels)[..|levels|] && old(|levels| == |notes|) && notes == old(notes)[..|levels|]
      ensures Settled(from)
    {
      hide Reading, Ripe, Feeds;
      forall j | from <= j < |levels| ensures SettledAt(j) {
        assert old(SettledAt(j));
      }
      forall j | from <= j < |levels| - 1 ensures FeedsAbove(j) {
        assert old(FeedsAbove(j));
      }
    }

    /** The top reader's last words. */
    method LastDispatch(index: nat, ghost under: seq<Frame>, ghost base: nat) returns (problem: Option<Reason>)
      requires Sound() && Inv(index, under) && SettledAbove(index) && index + 1 == |levels| && SettledAt(index) && Counted(index, base)
      modifies this`levels, this`notes, this`trace, this`totalMembers
      ensures Track(trace).Some?
      ensures problem.None? ==> Inv(index, under) && |levels| == index + 1 && SameReader(index) && !notes[index].told.Unannounced?
      ensures problem.None? && notes[index].told.Between? ==>
                ReadOut(readers, notes[index].begun, notes[index].fed) == Some(Account(notes[index].told.past, levels[index].office))
      ensures problem.None? ==>
                if notes[index].told.Between? then Sums(WholeCount(readers, notes[index].begun, notes[index].fed, index), base)
                else WholeCount(readers, notes[index].begun, notes[index].fed, index) == None
      ensures problem.Some? ==> Barred(WholeCount(readers, old(notes[index].begun), old(notes[index].fed), index), base)
      decreases MAX_DEPTH - index, 5
    {
      hide Shows, Next, Track, Shaped, TellAll, Brackets, LevelOk, HeadOnly, SaidCount, EndedCount;
      InvHere(index, under);
      var last := readers.finish(levels[index].reader);
      if last.Denied? {
        return Some(last.cause);
      }
      LastWords(index, under, last.events);
      problem := Dispatch(index, last.events, under, base);
      if problem.None? {
        InvHere(index, under);
        StillTop(index, last.events);
      }
    }

    /** After the last words, the level being finished is again the top. */
    lemma StillTop(index: nat, events: seq<ReaderEvent>)
      requires SettledAbove(index) && !notes[index].told.Unannounced? && (events == [] ==> index + 1 == |levels|)
      requires events != [] ==> !notes[index].told.Inside?
      ensures index + 1 == |levels|
    {
    }

    /** What a reader may say last leaves its level on top. */
    lemma LastWords(index: nat, under: seq<Frame>, events: seq<ReaderEvent>)
      requires Sound() && Inv(index, under) && index + 1 == |levels| && SettledAt(index)
      requires readers.finish(levels[index].reader) == Finished(events)
      ensures FinishTold(notes[index].told, events) && (TopIsPlain() || (WalkedTop(index) && (events == [] || events[0].ReadEnd?)))
    {
      hide TellAll, Track, Shows;
      InvHere(index, under);
      ReadingStands(readers, at, notes[index].begun, notes[index].fed);
      var r, t := levels[index].reader, notes[index].told;
      assert FinishTold(t, readers.finish(r).events);
    }

    /** The stack seen from its top. */
    lemma SplitAt(from: nat, below: seq<Frame>) returns (under: seq<Frame>)
      requires Inv(from, below) && Settled(from)
      ensures var index := |levels| - 1;
              && Inv(index, under) && SettledAbove(index) && SettledAt(index) && |Stack()| >= index && under == Stack()[..index]
              && StacksUp(readers, levels, notes, from, under) && Shaped(levels, notes, from)
      ensures from < |levels| && (from == |levels| - 1 ==> under == below)
    {
      hide Track, LevelOk, FrameIs;
      var index := |levels| - 1;
      under := Stack()[..index];
      forall j | from <= j < index ensures levels[j].open.Some? && Feeds(readers, levels[j].open.value, notes[j], notes[j + 1]) {
        assert FeedsAbove(j);
      }
      if from < index {
        var f := Stack()[index - 1];
        assert FrameIs(readers, levels[index - 1], notes[index - 1], f, true);
        assert LevelOk(levels[index - 1], notes[index - 1].told, index - 1) && HasNested(levels[index - 1]);
        LevelDepth(levels[index - 1], notes[index - 1].told, index - 1);
        NestedAwaits(levels[index - 1], notes[index - 1], f);
        assert Top(under) == f;
      }
    }

    lemma KindHere(l: Level<R>, t: Told, depth: nat)
      requires LevelOk(l, t, depth)
      ensures l.depth == depth && (l.kind.None? <==> t.Unannounced?) && (t.Inside? <==> l.open.Some?)
      ensures t.Inside? ==> l.open.value.meta == t.meta
      ensures l.kind.Some? ==> l.kind.value == t.past.kind
    {
    }

    lemma LevelDepth(l: Level<R>, t: Told, depth: nat)
      requires LevelOk(l, t, depth)
      ensures l.depth == depth
    {
    }

    /** The stack with its top popped, over the same frames below. */
    lemma Uncovers(from: nat, below: seq<Frame>, upper: seq<Level<R>>, words: seq<Note>, under: seq<Frame>, c: Container)
      requires Shaped(upper, words, from) && levels == upper[..|upper| - 1] && notes == words[..|upper| - 1]
      requires |below| == from && (below != [] ==> MayBegin(Tracking(below, None)))
      requires |under| == |levels| && from <= |under| && under[..from] == below && MayBegin(Tracking(under, None))
      requires StacksUp(readers, upper, words, from, under)
      requires Track(trace) == Some(Visited(Tracking(under, None), c))
      requires Tells(readers, c, words[|under|].begun, words[|under|].fed)
      ensures if |levels| > from then Inv(from, below) else under == below
    {
      hide Track, LevelOk, FrameIs, Tells, Feeds;
      var index := |levels|;
      if index > from {
        var l, note, f := upper[index - 1], words[index - 1], under[index - 1];
        assert LevelOk(l, note.told, index - 1) && HasNested(l) && FrameIs(readers, l, note, f, true);
        LevelDepth(l, note.told, index - 1);
        NestedAwaits(l, note, f);
        FrameWalks(l, note, f, words[index], c);
        assert Stack() == SetTop(under, Walked(f, c));
        forall j | from <= j < index ensures FrameIs(readers, levels[j], notes[j], Stack()[j], j + 1 < index) {
          assert levels[j] == upper[j] && notes[j] == words[j] && (j + 1 < index ==> Stack()[j] == under[j]);
        }
        forall j | from <= j < index ensures LevelOk(levels[j], notes[j].told, j) && HasNested(levels[j]) {
          assert LevelOk(upper[j], words[j].told, j) && HasNested(upper[j]);
        }
        KindKnown(l, note, f);
      }
    }

    lemma KindKnown(l: Level<R>, note: Note, f: Frame)
      requires FrameIs(readers, l, note, f, true)
      ensures l.kind.Some?
    {
    }

    lemma FrameWalks(l: Level<R>, note: Note, f: Frame, above: Note, c: Container)
      requires FrameIs(readers, l, note, f, true) && HasNested(l) && l.open.value.probe.None? && f.open.Some?
      requires Feeds(readers, l.open.value, note, above) && Tells(readers, c, above.begun, above.fed)
      ensures FrameIs(readers, l, note, Walked(f, c), false)
    {
      hide ItemsAre, CountMembers, OpenIs, Feeds, Tells;
      WalkedIs(readers, l.open.value, note, f.open.value, above, c);
    }

    /** The top level, with no member open, is popped, and its container ends. */
    method PopTop(index: nat, ghost under: seq<Frame>) returns (problem: Option<Reason>, ghost whole: Container)
      requires Inv(index, under) && |levels| == index + 1 && !notes[index].told.Unannounced?
      requires notes[index].told.Between? ==>
                 ReadOut(readers, notes[index].begun, notes[index].fed) == Some(Account(notes[index].told.past, levels[index].office))
      modifies this`levels, this`notes, this`trace
      ensures Track(trace).Some?
      ensures problem.None? ==> levels == old(levels)[..index] && notes == old(notes)[..index]
      ensures problem.None? ==> MayBegin(Tracking(under, None)) && Track(trace) == Some(Visited(Tracking(under, None), whole))
      ensures problem.None? ==> Tells(readers, whole, old(notes[index].begun), old(notes[index].fed))
      ensures problem == if old(levels[index].open.Some?) then Some(Malformed) else None
    {
      hide Track, ItemsAre, ReadOut, Shows;
      whole := Container(Zip, [], None);
      ghost var f := TopShown(index, under);
      var level := levels[index];
      OverFrame(under, f);
      levels, notes := levels[..index], notes[..index];
      if level.open.Some? {
        problem := Some(Malformed);
        return;
      }
      problem := None;
      var kind := if level.kind.Some? then level.kind.value else Gzip;
      whole := Container(kind, f.items, level.office);
      Emit(ContainerEnd(ContainerFacts(kind, level.members, level.entries, level.office), level.depth));
    }

    // The public face.

    /** Push a window of the compound's bytes. */
    method Push(window: seq<Byte>) returns (problem: Option<Problem>)
      requires Valid()
      modifies this
      ensures Valid()
      ensures old(phase).Rejected? || old(phase).Done? ==> problem == Some(StreamRejected) && trace == old(trace) && phase == old(phase)
      ensures problem.None? ==> input == old(input) + window && (phase.Detect? || phase.Running?)
      ensures problem.Some? && !old(phase).Done? ==> phase.Rejected?
      ensures HeadOnly(readers) && (old(phase).Detect? || old(phase).Running?) ==>
                && (problem.None? <==> LetThrough(readers, old(input) + window))
                && (problem == Some(NotAContainer) <==> THRESHOLD <= |old(input) + window| && readers.detect(Head(old(input) + window)).None?)
    {
      hide Shows, Next, Track, Shaped, TellAll, Brackets, LevelOk, HeadOnly, PartCount, ToldCount, EndedCount, Reading;
      match phase {
        case Rejected => return Some(StreamRejected);
        case Done => return Some(StreamRejected);
        case Running =>
          ghost var n: nat :| THRESHOLD <= n && Detected(readers, input, n, notes[0].begun);
          DetectedByHead(input, window, n, notes[0].begun);
          var reason := FeedLevel(0, window, [], 0);
          if reason.Some? {
            phase := Rejected;
            return Some(Opaque(reason.value));
          }
          assert (input + window)[..n] == input[..n];
          RememberInput(window);
          assert Detected(readers, input, n, notes[0].begun);
          Through();
          problem := None;
        case Detect(buffer) =>
          input := input + window;
          phase := Detect(buffer + window);
          problem := None;
          if |buffer + window| >= THRESHOLD {
            problem := StartOuter(buffer + window);
            if problem.None? {
              assert Detected(readers, input, |input|, notes[0].begun);
              Through();
            }
          }
      }
    }

    /** The kind detected once is the kind the first bytes tell. */
    lemma DetectedByHead(input: seq<Byte>, more: seq<Byte>, n: nat, kind: ContainerKind)
      requires Detected(readers, input, n, kind) && (THRESHOLD <= n || (n == |input| && more == []))
      ensures HeadOnly(readers) ==> readers.detect(Head(input + more)) == Some(kind)
    {
      hide HeadOnly;
      if HeadOnly(readers) {
        HeadTells(readers, [], input[..n]);
        HeadOfPrefix(input, n);
        assert input + [] == input;
        if THRESHOLD <= n {
          HeadGrows(input, more);
        }
      }
    }

    /** A run that has not faulted has been let through. */
    lemma Through()
      requires Runs() && THRESHOLD <= |input| && (HeadOnly(readers) ==> readers.detect(Head(input)) == Some(notes[0].begun))
      ensures HeadOnly(readers) ==> LetThrough(readers, input)
    {
      hide HeadOnly, Inv, PartCount, ToldCount, EndedCount;
      InvHere(0, []);
      assert SettledAt(0);
      ToldIsPart(readers, notes[0].begun, notes[0].fed, Reading(readers, notes[0].begun, notes[0].fed).value, 0);
    }

    ghost method RememberInput(window: seq<Byte>)
      requires Inv(0, []) && Settled(0) && TopIsPlain() && notes[0].fed == input + window && Counted(0, 0)
      modifies this`input
      ensures Runs() && input == old(input) + window
    {
      input := input + window;
      StillRuns();
    }

    /** The outer prefix tells the outer container, or that there is none. */
    method StartOuter(buffer: seq<Byte>) returns (problem: Option<Problem>)
      requires Sound() && levels == [] && notes == [] && trace == [] && totalMembers == 0 && input == buffer
      modifies this
      ensures input == old(input) && Track(trace).Some?
      ensures problem == Some(NotAContainer) <==> readers.detect(buffer).None?
      ensures if problem.None? then phase.Running? && Runs() && Detected(readers, input, |input|, notes[0].begun) else phase.Rejected?
      ensures HeadOnly(readers) && problem.None? ==> readers.detect(Head(buffer)) == Some(notes[0].begun)
      ensures HeadOnly(readers) ==> readers.detect(buffer) == readers.detect(Head(buffer))
      ensures HeadOnly(readers) && problem.Some? && readers.detect(buffer).Some? ==>
                !Within(PartCount(readers, readers.detect(buffer).value, buffer, 0))
    {
      hide Shows, Next, Shaped, TellAll, Brackets, LevelOk, HeadOnly, PartCount, ToldCount, EndedCount, Reading;
      var kind := readers.detect(buffer);
      if HeadOnly(readers) {
        HeadTells(readers, [], buffer);
      }
      if kind.None? {
        phase := Rejected;
        return Some(NotAContainer);
      }
      phase := Running;
      var reason := BeginLevel(kind.value, buffer, [], 0);
      if reason.Some? {
        phase := Rejected;
        return Some(Opaque(reason.value));
      }
      assert buffer[..|buffer|] == buffer;
      problem := None;
    }

    /**
     * The compound's bytes ended. What a run that finishes has told the sink is the listing of one container:
     * the one that reading all the bytes, and nested members on their own, gives.
     */
    method Finish() returns (problem: Option<Problem>)
      requires Valid()
      modifies this
      ensures Valid()
      ensures problem.None? ==>
                phase.Done? && input == old(input) && exists whole :: Decomposes(readers, input, whole) && Events(whole, 0) == trace
      ensures problem.Some? ==> phase.Rejected?
      ensures HeadOnly(readers) && (old(phase).Detect? || old(phase).Running?) ==> (problem.None? <==> Decomposable(readers, old(input)))
    {
      hide Shows, Next, Track, Shaped, TellAll, Brackets, LevelOk, Events, Tells, HeadOnly, PartCount, WholeCount, ToldCount, EndedCount, Reading;
      match phase {
        case Rejected => return Some(StreamRejected);
        case Done =>
          phase := Rejected;
          return Some(StreamRejected);
        case Detect(buffer) =>
          problem := StartOuter(buffer);
          if problem.Some? {
            if readers.detect(buffer).Some? {
              PartOfWhole(readers, readers.detect(buffer).value, buffer, 0);
            }
            return;
          }
        case Running =>
      }
      ghost var n: nat :| (THRESHOLD <= n || n == |input|) && Detected(readers, input, n, notes[0].begun);
      ghost var kind := notes[0].begun;
      DetectedByHead(input, [], n, kind);
      assert input + [] == input;
      ghost var whole;
      var reason;
      reason, whole := FinishLevelsFrom(0, [], 0);
      if reason.Some? {
        phase := Rejected;
        return Some(Opaque(reason.value));
      }
      phase := Done;
      problem := None;
      assert Detected(readers, input, n, kind) && Tells(readers, whole, kind, input);
      TrackLists(trace);
    }
  }
}
