/** The decomposition events and what a well-formed stream of them is (src/decompose/sink.rs). */
module DecomposeSink {
  import opened Bytes

  datatype ContainerKind = Zip | Tar | TarGzip | Gzip
  datatype EntryKind = Directory | Symlink(target: seq<Byte>) | Hardlink(target: seq<Byte>) | Other(tag: Byte)
  datatype Meta = Meta(path: seq<Byte>, ordinal: nat, size: Option<nat>, mode: Option<nat>, mtime: Option<nat>)

  /** A media type or an Office kind is only carried along: any byte string stands for it. */
  type Label = seq<Byte>

  datatype ContainerFacts = ContainerFacts(kind: ContainerKind, members: nat, entries: nat, office: Option<Label>)

  datatype SinkEvent =
    | ContainerStart(kind: ContainerKind, depth: nat)
    | EntrySeen(entry: EntryKind, meta: Meta, depth: nat)
    | MemberStart(member: Meta, media: Option<Label>, nested: bool, depth: nat)
    | MemberBytes(bytes: seq<Byte>, depth: nat)
    | MemberEnd(length: nat, ended: Option<Label>, depth: nat)
    | ContainerEnd(facts: ContainerFacts, depth: nat)

  const MAX_DEPTH: nat := 8

  // A container as a tree, and its listing as a stream of events.

  /** A container as a whole: its kind, what it holds in order, its Office label. */
  datatype Container = Container(kind: ContainerKind, items: seq<Item>, office: Option<Label>)

  datatype Item =
    | Entry(entry: EntryKind, meta: Meta)
    | Plain(meta: Meta, media: Option<Label>, windows: seq<seq<Byte>>)
    | Nested(meta: Meta, media: Option<Label>, inner: Container, length: nat)

  function WindowEvents(windows: seq<seq<Byte>>, depth: nat): seq<SinkEvent> {
    seq(|windows|, i requires 0 <= i < |windows| => MemberBytes(windows[i], depth))
  }

  function CountMembers(items: seq<Item>): (n: nat)
    ensures n <= |items|
  {
    if items == [] then 0 else CountMembers(items[..|items| - 1]) + if items[|items| - 1].Entry? then 0 else 1
  }

  function ItemEvents(item: Item, depth: nat): seq<SinkEvent>
    decreases item, 0
  {
    match item
    case Entry(entry, meta) => [EntrySeen(entry, meta, depth)]
    case Plain(meta, media, windows) =>
      [MemberStart(meta, media, false, depth)] + WindowEvents(windows, depth) + [MemberEnd(|Flatten(windows)|, media, depth)]
    case Nested(meta, media, inner, length) =>
      [MemberStart(meta, media, true, depth)] + Events(inner, depth + 1) + [MemberEnd(length, media, depth)]
  }

  function ItemsEvents(items: seq<Item>, depth: nat): seq<SinkEvent>
    decreases items, |items|
  {
    if items == [] then []
    else ItemsEvents(items[..|items| - 1], depth) + ItemEvents(items[|items| - 1], depth)
  }

  /** The listing of a container at a depth: its start, its items, its end with their counts. */
  function Events(c: Container, depth: nat): seq<SinkEvent>
    decreases c, 1
  {
    [ContainerStart(c.kind, depth)] + ItemsEvents(c.items, depth)
    + [ContainerEnd(ContainerFacts(c.kind, CountMembers(c.items), |c.items| - CountMembers(c.items), c.office), depth)]
  }

  /** How deep containers nest. */
  function Height(c: Container): nat
    decreases c, 1
  {
    1 + HeightOf(c.items)
  }

  function ItemHeight(item: Item): nat
    decreases item, 0
  {
    if item.Nested? then Height(item.inner) else 0
  }

  function HeightOf(items: seq<Item>): nat
    decreases items, |items|
  {
    if items == [] then 0
    else
      var rest, last := HeightOf(items[..|items| - 1]), ItemHeight(items[|items| - 1]);
      if last > rest then last else rest
  }

  lemma OneMoreItem(items: seq<Item>, item: Item, depth: nat)
    ensures ItemsEvents(items + [item], depth) == ItemsEvents(items, depth) + ItemEvents(item, depth)
    ensures CountMembers(items + [item]) == CountMembers(items) + if item.Entry? then 0 else 1
    ensures HeightOf(items + [item]) == if ItemHeight(item) > HeightOf(items) then ItemHeight(item) else HeightOf(items)
  {
    hide ItemEvents, ItemHeight;
    assert (items + [item])[..|items|] == items;
  }

  lemma OneMoreWindow(windows: seq<seq<Byte>>, bytes: seq<Byte>, depth: nat)
    ensures WindowEvents(windows + [bytes], depth) == WindowEvents(windows, depth) + [MemberBytes(bytes, depth)]
    ensures Flatten(windows + [bytes]) == Flatten(windows) + bytes
  {
    assert (windows + [bytes])[..|windows|] == windows;
  }

  lemma NoWindows(depth: nat)
    ensures WindowEvents([], depth) == [] && Flatten([]) == []
  {
  }

  // The rules of a well-bracketed stream, as a stack of open containers: one per depth.

  /** The member a container has open: its bytes so far, or, if it is nested, the container found in it. */
  datatype OpenItem = OpenItem(meta: Meta, media: Option<Label>, nested: bool, windows: seq<seq<Byte>>, inner: Option<Container>)

  /** An open container: its kind, what it has held so far, its open member. Its depth is its place in the stack. */
  datatype Frame = Frame(kind: ContainerKind, items: seq<Item>, open: Option<OpenItem>)

  datatype Tracking = Tracking(frames: seq<Frame>, whole: Option<Container>)

  function Top(fs: seq<Frame>): Frame
    requires fs != []
  {
    fs[|fs| - 1]
  }

  function SetTop(fs: seq<Frame>, f: Frame): (r: seq<Frame>)
    requires fs != []
    ensures |r| == |fs| && r[..|fs| - 1] == fs[..|fs| - 1] && Top(r) == f
  {
    fs[..|fs| - 1] + [f]
  }

  /** A frame inside a nested member that has not been walked. */
  predicate Awaits(f: Frame) {
    f.open.Some? && f.open.value.nested && f.open.value.inner.None?
  }

  /** A container may begin: the outermost, once; another, inside a nested member that has not been walked. */
  predicate MayBegin(t: Tracking) {
    if t.frames == [] then t.whole.None? else Awaits(Top(t.frames))
  }

  function Walked(f: Frame, c: Container): Frame
    requires f.open.Some?
  {
    f.(open := Some(f.open.value.(inner := Some(c))))
  }

  /** What remains of a stack once a container that may begin on it has come and gone. */
  function Visited(t: Tracking, c: Container): Tracking
    requires MayBegin(t)
  {
    if t.frames == [] then Tracking([], Some(c)) else Tracking(SetTop(t.frames, Walked(Top(t.frames), c)), None)
  }

  /** An open member that ends. */
  function ItemOf(o: OpenItem, length: nat): Item
    requires o.nested ==> o.inner.Some?
  {
    if o.nested then Nested(o.meta, o.media, o.inner.value, length) else Plain(o.meta, o.media, o.windows)
  }

  function AddItem(f: Frame, item: Item): Frame {
    Frame(f.kind, f.items + [item], None)
  }

  /** What an event inside a container makes of its frame; `None` when it may not come here. */
  function NextInside(f: Frame, e: SinkEvent): Option<Frame> {
    match e
    case EntrySeen(entry, meta, _) => if f.open.None? then Some(AddItem(f, Entry(entry, meta))) else None
    case MemberStart(meta, media, nested, _) =>
      if f.open.None? then Some(f.(open := Some(OpenItem(meta, media, nested, [], None)))) else None
    case MemberBytes(bytes, _) =>
      if f.open.Some? && !f.open.value.nested then
        Some(f.(open := Some(f.open.value.(windows := f.open.value.windows + [bytes]))))
      else None
    case MemberEnd(length, media, _) =>
      if f.open.Some? && f.open.value.media == media
         && (if f.open.value.nested then f.open.value.inner.Some? else |Flatten(f.open.value.windows)| == length)
      then Some(AddItem(f, ItemOf(f.open.value, length))) else None
    case ContainerStart(_, _) => None
    case ContainerEnd(_, _) => None
  }

  predicate EndsFrame(f: Frame, facts: ContainerFacts) {
    && f.open.None? && facts.kind == f.kind
    && facts.members == CountMembers(f.items) && facts.entries == |f.items| - CountMembers(f.items)
  }

  /** One event of a stream; `None` when it may not come here. */
  function Next(t: Tracking, e: SinkEvent): Option<Tracking> {
    var fs := t.frames;
    if e.ContainerStart? then
      if MayBegin(t) && e.depth == |fs| < MAX_DEPTH then Some(Tracking(fs + [Frame(e.kind, [], None)], None)) else None
    else if e.depth + 1 != |fs| then None
    else if e.ContainerEnd? then
      var below := Tracking(fs[..|fs| - 1], None);
      if EndsFrame(Top(fs), e.facts) && MayBegin(below) then
        Some(Visited(below, Container(e.facts.kind, Top(fs).items, e.facts.office)))
      else None
    else
      match NextInside(Top(fs), e)
      case None => None
      case Some(f) => Some(Tracking(SetTop(fs, f), None))
  }

  const BEGINNING := Tracking([], None)

  /** A stream of events, after what came before it. */
  function TrackFrom(t: Tracking, trace: seq<SinkEvent>): Option<Tracking> {
    if trace == [] then Some(t)
    else
      match TrackFrom(t, trace[..|trace| - 1])
      case None => None
      case Some(u) => Next(u, trace[|trace| - 1])
  }

  function Track(trace: seq<SinkEvent>): Option<Tracking> {
    TrackFrom(BEGINNING, trace)
  }

  lemma TrackOne(t: Tracking, trace: seq<SinkEvent>, e: SinkEvent)
    requires TrackFrom(t, trace).Some?
    ensures TrackFrom(t, trace + [e]) == Next(TrackFrom(t, trace).value, e)
  {
    hide Next;
    assert (trace + [e])[..|trace|] == trace;
  }

  lemma {:induction false} TrackThen(t: Tracking, x: seq<SinkEvent>, y: seq<SinkEvent>)
    requires TrackFrom(t, x).Some?
    ensures TrackFrom(t, x + y) == TrackFrom(TrackFrom(t, x).value, y)
  {
    hide Next;
    if y == [] {
      assert x + y == x;
    } else {
      assert (x + y)[..|x + y| - 1] == x + y[..|y| - 1];
      TrackThen(t, x, y[..|y| - 1]);
    }
  }

  // From a stream to its tree: the stack is the tree so far.

  function OpenEvents(o: OpenItem, depth: nat): seq<SinkEvent> {
    [MemberStart(o.meta, o.media, o.nested, depth)]
    + if o.nested then (if o.inner.Some? then Events(o.inner.value, depth + 1) else []) else WindowEvents(o.windows, depth)
  }

  function FrameEvents(f: Frame, depth: nat): seq<SinkEvent> {
    [ContainerStart(f.kind, depth)] + ItemsEvents(f.items, depth) + if f.open.Some? then OpenEvents(f.open.value, depth) else []
  }

  function StackEvents(fs: seq<Frame>): seq<SinkEvent> {
    if fs == [] then [] else StackEvents(fs[..|fs| - 1]) + FrameEvents(fs[|fs| - 1], |fs| - 1)
  }

  /** What a frame holds nests no deeper than the cap leaves room for. */
  predicate Low(f: Frame, depth: nat) {
    && depth + 1 + HeightOf(f.items) <= MAX_DEPTH
    && (f.open.Some? && f.open.value.inner.Some? ==> f.open.value.nested && depth + 1 + Height(f.open.value.inner.value) <= MAX_DEPTH)
  }

  predicate Stacked(fs: seq<Frame>) {
    && (forall i :: 0 <= i < |fs| ==> Low(fs[i], i))
    && (forall i :: 0 <= i < |fs| - 1 ==> Awaits(fs[i]))
  }

  /** The stack with its top replaced. */
  lemma GrowTop(fs: seq<Frame>, f: Frame, more: seq<SinkEvent>)
    requires Stacked(fs) && fs != [] && Low(f, |fs| - 1)
    requires FrameEvents(f, |fs| - 1) == FrameEvents(Top(fs), |fs| - 1) + more
    ensures StackEvents(SetTop(fs, f)) == StackEvents(fs) + more && Stacked(SetTop(fs, f))
  {
    hide FrameEvents, Low;
    var gs := SetTop(fs, f);
    assert gs[..|gs| - 1] == fs[..|fs| - 1];
    Assoc(StackEvents(fs[..|fs| - 1]), FrameEvents(Top(fs), |fs| - 1), more);
    forall i | 0 <= i < |gs| ensures Low(gs[i], i) {
      assert i < |gs| - 1 ==> gs[i] == fs[i];
    }
    forall i | 0 <= i < |gs| - 1 ensures Awaits(gs[i]) {
      assert gs[i] == fs[i];
    }
  }

  lemma EntryGrows(f: Frame, e: SinkEvent)
    requires e.EntrySeen? && NextInside(f, e).Some? && Low(f, e.depth)
    ensures var g := NextInside(f, e).value; FrameEvents(g, e.depth) == FrameEvents(f, e.depth) + [e] && Low(g, e.depth)
  {
    hide ItemsEvents, Events, CountMembers, HeightOf;
    OneMoreItem(f.items, Entry(e.entry, e.meta), e.depth);
  }

  lemma StartGrows(f: Frame, e: SinkEvent)
    requires e.MemberStart? && NextInside(f, e).Some? && Low(f, e.depth)
    ensures var g := NextInside(f, e).value; FrameEvents(g, e.depth) == FrameEvents(f, e.depth) + [e] && Low(g, e.depth)
  {
    hide ItemsEvents, Events, WindowEvents;
    NoWindows(e.depth);
    var g := NextInside(f, e).value;
    assert OpenEvents(g.open.value, e.depth) == [e];
  }

  lemma BytesGrow(f: Frame, e: SinkEvent)
    requires e.MemberBytes? && NextInside(f, e).Some? && Low(f, e.depth)
    ensures var g := NextInside(f, e).value; FrameEvents(g, e.depth) == FrameEvents(f, e.depth) + [e] && Low(g, e.depth)
  {
    hide ItemsEvents, Events, WindowEvents;
    OneMoreWindow(f.open.value.windows, e.bytes, e.depth);
    var g := NextInside(f, e).value;
    assert OpenEvents(g.open.value, e.depth) == OpenEvents(f.open.value, e.depth) + [e];
  }

  lemma EndGrows(f: Frame, e: SinkEvent)
    requires e.MemberEnd? && NextInside(f, e).Some? && Low(f, e.depth)
    ensures var g := NextInside(f, e).value; FrameEvents(g, e.depth) == FrameEvents(f, e.depth) + [e] && Low(g, e.depth)
  {
    hide ItemsEvents, Events, WindowEvents, CountMembers, HeightOf, Height;
    var item := ItemOf(f.open.value, e.length);
    OneMoreItem(f.items, item, e.depth);
    assert ItemEvents(item, e.depth) == OpenEvents(f.open.value, e.depth) + [e];
  }

  /** One event inside the top container. */
  lemma GrowInside(fs: seq<Frame>, e: SinkEvent)
    requires Stacked(fs) && fs != [] && e.depth + 1 == |fs| && NextInside(Top(fs), e).Some?
    ensures var gs := SetTop(fs, NextInside(Top(fs), e).value); Stacked(gs) && StackEvents(gs) == StackEvents(fs) + [e]
  {
    hide FrameEvents, NextInside, Low, StackEvents;
    assert Low(Top(fs), |fs| - 1);
    if e.EntrySeen? {
      EntryGrows(Top(fs), e);
    } else if e.MemberStart? {
      StartGrows(Top(fs), e);
    } else if e.MemberBytes? {
      BytesGrow(Top(fs), e);
    } else {
      NoContainerInside(Top(fs), e);
      EndGrows(Top(fs), e);
    }
    GrowTop(fs, NextInside(Top(fs), e).value, [e]);
  }

  lemma NoContainerInside(f: Frame, e: SinkEvent)
    requires NextInside(f, e).Some?
    ensures e.EntrySeen? || e.MemberStart? || e.MemberBytes? || e.MemberEnd?
  {
  }

  /** A container begins. */
  lemma GrowStart(fs: seq<Frame>, e: SinkEvent)
    requires Stacked(fs) && e.ContainerStart? && e.depth == |fs| < MAX_DEPTH && (fs != [] ==> Awaits(Top(fs)))
    ensures var gs := fs + [Frame(e.kind, [], None)]; Stacked(gs) && StackEvents(gs) == StackEvents(fs) + [e]
  {
    hide Low, FrameEvents;
    var f := Frame(e.kind, [], None);
    var gs := fs + [f];
    assert gs[..|fs|] == fs;
    JustStarted(e.kind, |fs|);
    forall i | 0 <= i < |gs| ensures Low(gs[i], i) {
      assert i < |fs| ==> gs[i] == fs[i];
    }
    forall i | 0 <= i < |gs| - 1 ensures Awaits(gs[i]) {
      assert gs[i] == fs[i];
    }
  }

  lemma JustStarted(kind: ContainerKind, depth: nat)
    requires depth < MAX_DEPTH
    ensures FrameEvents(Frame(kind, [], None), depth) == [ContainerStart(kind, depth)] && Low(Frame(kind, [], None), depth)
  {
  }

  /** A frame that ends lists its container. */
  lemma FrameCloses(f: Frame, e: SinkEvent)
    requires e.ContainerEnd? && EndsFrame(f, e.facts) && Low(f, e.depth)
    ensures var c := Container(e.facts.kind, f.items, e.facts.office);
            FrameEvents(f, e.depth) + [e] == Events(c, e.depth) && e.depth + Height(c) <= MAX_DEPTH
  {
    hide ItemsEvents, CountMembers;
  }

  /** A nested container comes and goes: it is the inside of the member below. */
  lemma WalkedEvents(f: Frame, c: Container, depth: nat)
    requires Awaits(f) && Low(f, depth) && depth + 1 + Height(c) <= MAX_DEPTH
    ensures FrameEvents(Walked(f, c), depth) == FrameEvents(f, depth) + Events(c, depth + 1) && Low(Walked(f, c), depth)
  {
    hide ItemsEvents, Events, Height;
    var start := MemberStart(f.open.value.meta, f.open.value.media, true, depth);
    var listed := [ContainerStart(f.kind, depth)] + ItemsEvents(f.items, depth);
    assert OpenEvents(f.open.value, depth) == [start];
    Assoc(listed, [start], Events(c, depth + 1));
  }

  /** The top container ends. */
  lemma GrowEnd(fs: seq<Frame>, e: SinkEvent)
    requires Stacked(fs) && fs != [] && e.ContainerEnd? && e.depth + 1 == |fs| && EndsFrame(Top(fs), e.facts)
    requires var below := fs[..|fs| - 1]; below != [] ==> Awaits(Top(below))
    ensures var below, c := fs[..|fs| - 1], Container(e.facts.kind, Top(fs).items, e.facts.office);
            if below == [] then StackEvents(fs) + [e] == Events(c, 0) && Height(c) <= MAX_DEPTH
            else var gs := SetTop(below, Walked(Top(below), c)); Stacked(gs) && StackEvents(gs) == StackEvents(fs) + [e]
  {
    hide FrameEvents, Low, Events, Height, EndsFrame;
    var d := |fs| - 1;
    var below, c := fs[..d], Container(e.facts.kind, Top(fs).items, e.facts.office);
    assert Low(fs[d], d);
    FrameCloses(Top(fs), e);
    if d == 0 {
      assert [] + FrameEvents(Top(fs), 0) == FrameEvents(Top(fs), 0);
    } else {
      assert Low(fs[d - 1], d - 1);
      WalkedEvents(Top(below), c, d - 1);
      forall i | 0 <= i < |below| - 1 ensures Awaits(below[i]) {
        assert below[i] == fs[i];
      }
      GrowTop(below, Walked(Top(below), c), Events(c, d));
      Assoc(StackEvents(below), FrameEvents(Top(fs), d), [e]);
    }
  }

  /** What the rules have accepted: a finished container listed whole, or the containers still open, as far as they go. */
  predicate Lists(t: Tracking, trace: seq<SinkEvent>) {
    if t.whole.Some? then t.frames == [] && Events(t.whole.value, 0) == trace && Height(t.whole.value) <= MAX_DEPTH
    else Stacked(t.frames) && StackEvents(t.frames) == trace
  }

  lemma {:induction false} TrackLists(trace: seq<SinkEvent>)
    requires Track(trace).Some?
    ensures Lists(Track(trace).value, trace)
  {
    if trace != [] {
      hide NextInside, EndsFrame, Events, Height, StackEvents, Stacked, Visited, Walked;
      var front, e := trace[..|trace| - 1], trace[|trace| - 1];
      assert trace == front + [e];
      TrackLists(front);
      var fs := Track(front).value.frames;
      if e.ContainerStart? {
        GrowStart(fs, e);
      } else if e.ContainerEnd? {
        GrowEnd(fs, e);
        VisitedAs(Tracking(fs[..|fs| - 1], None), Container(e.facts.kind, Top(fs).items, e.facts.office));
      } else {
        GrowInside(fs, e);
      }
    }
  }

  lemma VisitedAs(t: Tracking, c: Container)
    requires MayBegin(t)
    ensures Visited(t, c) == if t.frames == [] then Tracking([], Some(c)) else Tracking(SetTop(t.frames, Walked(Top(t.frames), c)), None)
  {
  }

  // From a tree to its stream.

  lemma {:induction false} WindowsTrack(fs: seq<Frame>, windows: seq<seq<Byte>>)
    requires fs != [] && Top(fs).open.Some? && !Top(fs).open.value.nested && Top(fs).open.value.windows == []
    ensures TrackFrom(Tracking(fs, None), WindowEvents(windows, |fs| - 1)) ==
            Some(Tracking(SetTop(fs, Top(fs).(open := Some(Top(fs).open.value.(windows := windows)))), None))
  {
    if windows == [] {
      NoWindows(|fs| - 1);
      assert SetTop(fs, Top(fs)) == fs;
    } else {
      var front, last := windows[..|windows| - 1], windows[|windows| - 1];
      WindowsTrack(fs, front);
      assert windows == front + [last];
      OneMoreWindow(front, last, |fs| - 1);
      TrackOne(Tracking(fs, None), WindowEvents(front, |fs| - 1), MemberBytes(last, |fs| - 1));
    }
  }

  /** An event, a stream, an event. */
  lemma Surround(t: Tracking, start: SinkEvent, body: seq<SinkEvent>, end: SinkEvent, begun: Tracking, after: Tracking)
    requires Next(t, start) == Some(begun) && TrackFrom(begun, body) == Some(after)
    ensures TrackFrom(t, [start] + body + [end]) == Next(after, end)
  {
    hide Next;
    assert [] + [start] == [start];
    TrackOne(t, [], start);
    TrackThen(t, [start], body);
    TrackOne(t, [start] + body, end);
  }

  lemma {:induction false} PlainTracks(fs: seq<Frame>, item: Item)
    requires fs != [] && Top(fs).open.None? && item.Plain?
    ensures TrackFrom(Tracking(fs, None), ItemEvents(item, |fs| - 1)) == Some(Tracking(SetTop(fs, AddItem(Top(fs), item)), None))
  {
    hide WindowEvents, Flatten, TrackFrom;
    var d := |fs| - 1;
    var start, end := MemberStart(item.meta, item.media, false, d), MemberEnd(|Flatten(item.windows)|, item.media, d);
    var one := Next(Tracking(fs, None), start).value;
    WindowsTrack(one.frames, item.windows);
    var two := TrackFrom(one, WindowEvents(item.windows, d)).value;
    Surround(Tracking(fs, None), start, WindowEvents(item.windows, d), end, one, two);
  }

  lemma NestedTracks(fs: seq<Frame>, item: Item, start: SinkEvent, one: Tracking)
    requires fs != [] && Top(fs).open.None? && item.Nested?
    requires start == MemberStart(item.meta, item.media, true, |fs| - 1) && Next(Tracking(fs, None), start) == Some(one)
    requires MayBegin(one) && TrackFrom(one, Events(item.inner, |fs|)) == Some(Visited(one, item.inner))
    ensures TrackFrom(Tracking(fs, None), ItemEvents(item, |fs| - 1)) == Some(Tracking(SetTop(fs, AddItem(Top(fs), item)), None))
  {
    hide Events, TrackFrom;
    var end := MemberEnd(item.length, item.media, |fs| - 1);
    Surround(Tracking(fs, None), start, Events(item.inner, |fs|), end, one, Visited(one, item.inner));
  }

  lemma {:induction false} ItemTracks(fs: seq<Frame>, item: Item)
    requires fs != [] && Top(fs).open.None? && |fs| + ItemHeight(item) <= MAX_DEPTH
    ensures TrackFrom(Tracking(fs, None), ItemEvents(item, |fs| - 1)) == Some(Tracking(SetTop(fs, AddItem(Top(fs), item)), None))
    decreases item, 0
  {
    hide WindowEvents, Events, Height, Flatten;
    var d, t := |fs| - 1, Tracking(fs, None);
    match item {
      case Entry(entry, meta) =>
        TrackOne(t, [], EntrySeen(entry, meta, d));
        assert [] + ItemEvents(item, d) == ItemEvents(item, d);
      case Plain(meta, media, windows) =>
        PlainTracks(fs, item);
      case Nested(meta, media, inner, length) =>
        var start := MemberStart(meta, media, true, d);
        var one := Next(t, start).value;
        ListingTracks(one, inner);
        NestedTracks(fs, item, start, one);
    }
  }

  lemma {:induction false} ItemsTrack(fs: seq<Frame>, items: seq<Item>)
    requires fs != [] && Top(fs).open.None? && |fs| + HeightOf(items) <= MAX_DEPTH
    ensures TrackFrom(Tracking(fs, None), ItemsEvents(items, |fs| - 1)) ==
            Some(Tracking(SetTop(fs, Top(fs).(items := Top(fs).items + items)), None))
    decreases items, |items|
  {
    hide ItemEvents, ItemHeight, Next;
    if items == [] {
      assert SetTop(fs, Top(fs)) == fs && Top(fs).items + [] == Top(fs).items;
    } else {
      var front, last := items[..|items| - 1], items[|items| - 1];
      ItemsTrack(fs, front);
      var mid := TrackFrom(Tracking(fs, None), ItemsEvents(front, |fs| - 1)).value;
      ItemTracks(mid.frames, last);
      TrackThen(Tracking(fs, None), ItemsEvents(front, |fs| - 1), ItemEvents(last, |fs| - 1));
      assert Top(fs).items + front + [last] == Top(fs).items + items;
    }
  }

  /** The listing of a container that nests no deeper than the cap is accepted wherever a container may begin, and is remembered whole. */
  lemma {:induction false} ListingTracks(t: Tracking, c: Container)
    requires MayBegin(t) && |t.frames| + Height(c) <= MAX_DEPTH
    ensures TrackFrom(t, Events(c, |t.frames|)) == Some(Visited(t, c))
    decreases c, 1
  {
    hide ItemsEvents, CountMembers, HeightOf, TrackFrom;
    var d, m := |t.frames|, CountMembers(c.items);
    var start, end := ContainerStart(c.kind, d), ContainerEnd(ContainerFacts(c.kind, m, |c.items| - m, c.office), d);
    var one := Next(t, start).value;
    ItemsTrack(one.frames, c.items);
    var two := TrackFrom(one, ItemsEvents(c.items, d)).value;
    Surround(t, start, ItemsEvents(c.items, d), end, one, two);
    assert two.frames[..d] == t.frames && [] + c.items == c.items;
  }

  /** The rules accept a stream to its end exactly when it lists a container that nests no deeper than the cap: that container. */
  lemma CompleteExactly(trace: seq<SinkEvent>, c: Container)
    ensures Track(trace) == Some(Tracking([], Some(c))) <==> Events(c, 0) == trace && Height(c) <= MAX_DEPTH
  {
    hide Events, Height, TrackFrom, Visited;
    if Track(trace) == Some(Tracking([], Some(c))) {
      TrackLists(trace);
    }
    if Events(c, 0) == trace && Height(c) <= MAX_DEPTH {
      ListingTracks(BEGINNING, c);
      VisitedAs(BEGINNING, c);
    }
  }

  /** A listing tells its container: different containers have different listings. */
  lemma ListingsTellApart(a: Container, b: Container)
    requires Height(a) <= MAX_DEPTH && Height(b) <= MAX_DEPTH && Events(a, 0) == Events(b, 0)
    ensures a == b
  {
    CompleteExactly(Events(a, 0), a);
    CompleteExactly(Events(a, 0), b);
  }
}
