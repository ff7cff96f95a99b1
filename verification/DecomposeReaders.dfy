/** The driver's three readers (src/decompose/decomposer.rs, src/decompose/zip.rs): each brackets its members. */
module DecomposeReaders {
  import opened Bytes
  import opened DecomposeSink
  import opened DecomposeReading
  import opened Decomposer
  import T = TarWalker
  import Z = ZipWalker
  import E = ZipEvents
  import S = ZipScan
  import R = ZipRecords
  import O = OoxmlCore

  // Telling lists of events.

  lemma {:induction false} TellThen(t: Told, x: seq<ReaderEvent>, y: seq<ReaderEvent>)
    ensures TellAll(t, x + y) == match TellAll(t, x) case None => None case Some(u) => TellAll(u, y)
    decreases |x|
  {
    hide Tell;
    if x == [] {
      assert x + y == y;
    } else {
      assert (x + y)[0] == x[0] && (x + y)[1..] == x[1..] + y;
      if Tell(t, x[0]).Some? {
        TellThen(Tell(t, x[0]).value, x[1..], y);
      }
    }
  }

  lemma TellOne(t: Told, e: ReaderEvent)
    ensures TellAll(t, [e]) == Tell(t, e)
  {
    assert [e][1..] == [];
  }

  /** Bytes join a trailing bytes event. */
  function PushBytes(out: seq<ReaderEvent>, bytes: seq<Byte>): seq<ReaderEvent> {
    if bytes == [] then out
    else if out != [] && out[|out| - 1].ReadBytes? then out[..|out| - 1] + [ReadBytes(out[|out| - 1].bytes + bytes)]
    else out + [ReadBytes(bytes)]
  }

  /** Joined or not, the bytes are told. */
  lemma TellBytes(t: Told, out: seq<ReaderEvent>, bytes: seq<Byte>)
    requires TellAll(t, out).Some? && TellAll(t, out).value.Inside?
    ensures var u := TellAll(t, out).value;
            TellAll(t, PushBytes(out, bytes)) == Some(u.(bytes := u.bytes + bytes))
  {
    var u := TellAll(t, out).value;
    if bytes == [] {
      assert u.bytes + [] == u.bytes;
    } else if out != [] && out[|out| - 1].ReadBytes? {
      var front, last := out[..|out| - 1], out[|out| - 1];
      assert out == front + [last];
      TellThen(t, front, [last]);
      TellOne(TellAll(t, front).value, last);
      TellThen(t, front, [ReadBytes(last.bytes + bytes)]);
      TellOne(TellAll(t, front).value, ReadBytes(last.bytes + bytes));
      Assoc(TellAll(t, front).value.bytes, last.bytes, bytes);
    } else {
      TellThen(t, out, [ReadBytes(bytes)]);
      TellOne(u, ReadBytes(bytes));
    }
  }

  lemma TellMore(t: Told, out: seq<ReaderEvent>, e: ReaderEvent)
    requires TellAll(t, out).Some?
    ensures TellAll(t, out + [e]) == Tell(TellAll(t, out).value, e)
  {
    TellThen(t, out, [e]);
    TellOne(TellAll(t, out).value, e);
  }

  // The TAR reader.

  datatype TarState = TarState(walker: T.Walk, remaining: Option<nat>, size: nat, ordinal: nat)

  /** The reader counts down the member bytes the walker still expects. */
  predicate TarOk(r: TarState) {
    && T.ValidWalk(r.walker)
    && (if r.walker.state.InData? && r.walker.state.remaining > 0
        then r.remaining == Some(r.walker.state.remaining) && r.walker.state.remaining <= r.size
        else r.remaining == None)
  }

  type TarReader = r: TarState | TarOk(r) witness TarState(T.START, None, 0, 0)

  const NEW_TAR: TarReader := TarState(T.START, None, 0, 0)

  function TarAt(r: TarReader): Stand {
    if r.remaining.Some? then StandInside(r.size - r.remaining.value) else StandBetween
  }

  function SinkKind(kind: T.Kind): Option<EntryKind> {
    match kind
    case Regular => None
    case Directory => Some(EntryKind.Directory)
    case Symlink(target) => Some(EntryKind.Symlink(target))
    case Hardlink(target) => Some(EntryKind.Hardlink(target))
    case Other(tag) => Some(EntryKind.Other(tag))
  }

  function TarFault(f: T.Fault): Reason {
    if f == T.MetadataOverBound then MetadataOverBound else if f == T.SparseMember then UnsupportedFeature else Malformed
  }

  /** An entry opens: a member, with its size if it has bytes, or an entry of another kind. */
  function TarEntrySaid(r: TarState, entry: T.TarEntry): Pushed<TarState> {
    var meta := Meta(entry.path, r.ordinal, Some(entry.size), entry.mode, entry.mtime);
    var next := r.(ordinal := r.ordinal + 1);
    match SinkKind(entry.kind)
    case Some(kind) => Pushed(next, [ReadEntry(kind, meta)])
    case None =>
      if entry.size == 0 then Pushed(next, [ReadStart(meta), ReadEnd(0)])
      else Pushed(next.(remaining := Some(entry.size), size := entry.size), [ReadStart(meta)])
  }

  function TarByteSaid(r: TarState, b: Byte): Pushed<TarState> {
    match r.remaining
    case None => Pushed(r, [ReadBytes([b])])
    case Some(n) =>
      if n <= 1 then Pushed(r.(remaining := None), [ReadBytes([b]), ReadEnd(r.size)])
      else Pushed(r.(remaining := Some(n - 1)), [ReadBytes([b])])
  }

  function PushTar(r: TarReader, b: Byte): (p: Pushed<TarReader>) {
    TarStepOk(r, b);
    match T.Consume(r.walker, b)
    case Stop(f) => Refused(TarFault(f))
    case Go(next, event) =>
      var moved := r.(walker := next);
      match event
      case Entry(entry) => TarEntrySaid(moved, entry)
      case Data(_) => TarByteSaid(moved, b)
      case Nothing => Pushed(moved, [])
      case End => Pushed(moved, [])
  }

  function FinishTar(r: TarReader): Finished {
    if !T.MayFinish(r.walker) || r.remaining.Some? then Denied(Malformed) else Finished([])
  }

  /** What a walker's step leaves its state at. */
  lemma TarStepState(w: T.Walk, b: Byte)
    requires T.ValidWalk(w) && T.Consume(w, b).Go?
    ensures var step := T.Consume(w, b);
            match step.event
            case Entry(entry) =>
              !w.state.InData? &&
              if entry.kind.Regular? && entry.size > 0 then step.next.state.InData? && step.next.state.remaining == entry.size
              else !step.next.state.InData?
            case Data(_) =>
              w.state.InData? && w.state.remaining > 0
              && (if w.state.remaining > 1 then step.next.state.InData? && step.next.state.remaining == w.state.remaining - 1
                  else step.next.state.InData? ==> step.next.state.remaining == 0)
            case _ => (step.next.state.InData? ==> step.next.state.remaining == 0) && (w.state.InData? ==> w.state.remaining == 0)
  {
    hide T.ChecksumMatches, T.AllZero, T.HeaderPath, T.Mode;
  }

  lemma TarStepOk(r: TarReader, b: Byte)
    ensures var step := T.Consume(r.walker, b);
            step.Go? ==>
              (var moved := r.(walker := step.next);
               match step.event
               case Entry(entry) => TarOk(TarEntrySaid(moved, entry).next) && TarEntrySaid(moved, entry).Pushed?
               case Data(_) => TarOk(TarByteSaid(moved, b).next) && TarByteSaid(moved, b).Pushed?
               case _ => TarOk(moved))
  {
    hide T.Consume;
    if T.Consume(r.walker, b).Go? {
      TarStepState(r.walker, b);
    }
  }

  /** The TAR reader brackets its members, and each has as many bytes as its entry says. */
  lemma TarBrackets(r: TarReader, b: Byte, t: Told)
    requires PushTar(r, b).Pushed? && StandOf(t) == TarAt(r)
    ensures StepTold(TarAt, PushTar(r, b).next, t, PushTar(r, b).events)
  {
    hide T.Consume;
    TarStepState(r.walker, b);
    TarStepOk(r, b);
    NothingTold(t);
    var es := PushTar(r, b).events;
    if |es| == 1 {
      TellOne(t, es[0]);
      assert es == [es[0]];
    } else if |es| == 2 {
      assert es == [es[0]] + [es[1]];
      TellOne(t, es[0]);
      TellMore(t, [es[0]], es[1]);
    }
  }

  // The ZIP reader.

  datatype ZipDecoder = Stored | Deflate(raw: seq<Byte>)
  datatype ZipState = ZipState(
    walker: Z.Walk, decoder: Option<ZipDecoder>, memberOpen: bool, produced: nat, ordinal: nat, officeFirst: bool)

  /** An open member is one the walker is inside of and the reader decodes; inside any other it skips. */
  predicate ZipOk(r: ZipState) {
    && E.Ordered(r.walker) && E.Plausible(r.walker)
    && (r.memberOpen ==> E.InMember(r.walker.state) && r.decoder.Some?)
    && (E.InMember(r.walker.state) && !r.memberOpen ==> r.decoder.None?)
  }

  type ZipReader = r: ZipState | ZipOk(r) witness ZipState(Z.START, None, false, 0, 0, false)

  const NEW_ZIP: ZipReader := ZipState(Z.START, None, false, 0, 0, false)

  function ZipStand(r: ZipState): Stand {
    if r.memberOpen then StandInside(r.produced) else StandBetween
  }

  function ZipAt(r: ZipReader): Stand {
    ZipStand(r)
  }

  /** The bridge that turns walker events into reader events. */
  datatype Bridge = Bridge(r: ZipState, out: seq<ReaderEvent>, fault: Option<Reason>)

  function BridgeHeader(br: Bridge, name: seq<Byte>, codec: nat, encrypted: bool, sizes: Option<R.MemberSizes>): Bridge {
    var r := br.r;
    if encrypted then br.(fault := Some(EncryptedWithoutKey))
    else
      var meta := Meta(name, r.ordinal, if sizes.Some? then Some(sizes.value.uncompressed) else None, None, None);
      var next := r.(ordinal := r.ordinal + 1, officeFirst := r.officeFirst || (r.ordinal == 0 && name == O.CONTENT_TYPES));
      if name != [] && name[|name| - 1] == 47 then
        if sizes.Some? && sizes.value.uncompressed > 0 then br.(r := next, fault := Some(Malformed))
        else Bridge(next.(decoder := None), br.out + [ReadEntry(EntryKind.Directory, meta)], None)
      else if codec == R.METHOD_STORED then
        Bridge(next.(decoder := Some(Stored), memberOpen := true, produced := 0), br.out + [ReadStart(meta)], None)
      else if codec == R.METHOD_DEFLATE then
        Bridge(next.(decoder := Some(Deflate([])), memberOpen := true, produced := 0), br.out + [ReadStart(meta)], None)
      else br.(r := next, fault := Some(UnsupportedCompression))
  }

  function BridgeBytes(br: Bridge, bytes: seq<Byte>): Bridge {
    br.(r := br.r.(produced := br.r.produced + |bytes|), out := PushBytes(br.out, bytes))
  }

  function BridgeData(lib: O.Library, br: Bridge, b: Byte): Bridge {
    match br.r.decoder
    case None => br
    case Some(Stored) => BridgeBytes(br, [b])
    case Some(Deflate(raw)) =>
      match lib.push(raw, b)
      case Bad(_) => br.(fault := Some(Malformed))
      case Made(bytes) => BridgeBytes(br.(r := br.r.(decoder := Some(Deflate(raw + [b])))), bytes)
  }

  function BridgeEnd(lib: O.Library, br: Bridge, sizes: R.MemberSizes): Bridge {
    if !br.r.memberOpen then br.(r := br.r.(decoder := None))
    else
      var flushed :=
        if br.r.decoder.Some? && br.r.decoder.value.Deflate? then
          (match lib.close(br.r.decoder.value.raw)
           case Bad(_) => br.(fault := Some(Malformed))
           case Made(bytes) => BridgeBytes(br, bytes))
        else br;
      if flushed.fault.Some? then flushed
      else if flushed.r.produced != sizes.uncompressed then flushed.(fault := Some(Malformed))
      else
        flushed.(r := flushed.r.(memberOpen := false, decoder := None), out := flushed.out + [ReadEnd(flushed.r.produced)])
  }

  function BridgeOne(lib: O.Library, br: Bridge, e: Z.Event): Bridge {
    if br.fault.Some? then br
    else
      match e
      case LocalHeaderRead(name, codec, _, encrypted, sizes, _) => BridgeHeader(br, name, codec, encrypted, sizes)
      case MemberData(b) => BridgeData(lib, br, b)
      case MemberEnd(sizes, _) => BridgeEnd(lib, br, sizes)
      case CentralBegun => br
  }

  function BridgeAll(lib: O.Library, br: Bridge, es: seq<Z.Event>): Bridge {
    if es == [] then br else BridgeOne(lib, BridgeAll(lib, br, es[..|es| - 1]), es[|es| - 1])
  }

  /** What has come out agrees with what the reader counts, after `t`. */
  predicate Agrees(t: Told, br: Bridge) {
    br.fault.None? ==> TellAll(t, br.out).Some? && StandOf(TellAll(t, br.out).value) == ZipStand(br.r) && (br.r.memberOpen ==> br.r.decoder.Some?)
  }

  lemma BridgeBytesAgree(t: Told, br: Bridge, bytes: seq<Byte>)
    requires Agrees(t, br) && br.fault.None? && br.r.memberOpen
    ensures Agrees(t, BridgeBytes(br, bytes))
  {
    TellBytes(t, br.out, bytes);
  }

  lemma HeaderAgrees(t: Told, br: Bridge, name: seq<Byte>, codec: nat, encrypted: bool, sizes: Option<R.MemberSizes>)
    requires Agrees(t, br) && br.fault.None? && !br.r.memberOpen
    ensures var after := BridgeHeader(br, name, codec, encrypted, sizes);
            Agrees(t, after) && after.r.walker == br.r.walker && (after.fault.None? ==> after.r.memberOpen || after.r.decoder.None?)
  {
    hide TellAll;
    var after := BridgeHeader(br, name, codec, encrypted, sizes);
    if after.fault.None? {
      TellMore(t, br.out, after.out[|br.out|]);
      assert after.out == br.out + [after.out[|br.out|]];
    }
  }

  lemma ByteAgrees(lib: O.Library, t: Told, br: Bridge, b: Byte)
    requires Agrees(t, br) && br.fault.None? && (br.r.memberOpen || br.r.decoder.None?)
    ensures var after := BridgeData(lib, br, b);
            && Agrees(t, after) && after.r.walker == br.r.walker
            && (after.fault.None? ==> after.r.memberOpen == br.r.memberOpen && (after.r.decoder.None? <==> br.r.decoder.None?))
  {
    hide PushBytes, TellAll;
    if br.r.decoder.Some? {
      match br.r.decoder.value {
        case Stored => BridgeBytesAgree(t, br, [b]);
        case Deflate(raw) =>
          if lib.push(raw, b).Made? {
            BridgeBytesAgree(t, br.(r := br.r.(decoder := Some(Deflate(raw + [b])))), lib.push(raw, b).bytes);
          }
      }
    }
  }

  lemma BridgeAgrees(lib: O.Library, t: Told, br: Bridge, e: Z.Event)
    requires Agrees(t, br) && (e.LocalHeaderRead? ==> !br.r.memberOpen) && (e.MemberData? ==> br.r.memberOpen || br.r.decoder.None?)
    ensures Agrees(t, BridgeOne(lib, br, e))
    ensures var after := BridgeOne(lib, br, e);
            after.r.walker == br.r.walker
            && (after.fault.None? ==>
                  (e.MemberData? ==> after.r.memberOpen == br.r.memberOpen && (after.r.decoder.None? <==> br.r.decoder.None?))
                  && (e.MemberEnd? ==> !after.r.memberOpen) && (e.CentralBegun? ==> after == br)
                  && (e.LocalHeaderRead? ==> after.r.memberOpen || after.r.decoder.None?))
  {
    hide Agrees, BridgeHeader, BridgeData;
    if br.fault.None? {
      match e {
        case LocalHeaderRead(name, codec, _, encrypted, sizes, _) => HeaderAgrees(t, br, name, codec, encrypted, sizes);
        case MemberData(b) => ByteAgrees(lib, t, br, b);
        case MemberEnd(sizes, _) => EndingAgrees(lib, t, br, sizes);
        case CentralBegun =>
      }
    }
  }

  lemma EndingAgrees(lib: O.Library, t: Told, br: Bridge, sizes: R.MemberSizes)
    requires Agrees(t, br) && br.fault.None?
    ensures var after := BridgeEnd(lib, br, sizes); Agrees(t, after) && after.r.walker == br.r.walker && (after.fault.None? ==> !after.r.memberOpen)
  {
    hide PushBytes, TellAll;
    if br.r.memberOpen {
      EndAgrees(lib, t, br, sizes);
    }
  }

  lemma EndAgrees(lib: O.Library, t: Told, br: Bridge, sizes: R.MemberSizes)
    requires Agrees(t, br) && br.fault.None? && br.r.memberOpen
    ensures var after := BridgeEnd(lib, br, sizes); Agrees(t, after) && after.r.walker == br.r.walker && (after.fault.None? ==> !after.r.memberOpen)
  {
    hide PushBytes, TellAll;
    var flushed := br;
    if br.r.decoder.value.Deflate? && lib.close(br.r.decoder.value.raw).Made? {
      flushed := BridgeBytes(br, lib.close(br.r.decoder.value.raw).bytes);
      BridgeBytesAgree(t, br, lib.close(br.r.decoder.value.raw).bytes);
    }
    TellMore(t, flushed.out, ReadEnd(flushed.r.produced));
  }

  /** Where the bridge stands inside a member: open, or skipping it. */
  predicate Skipping(br: Bridge) {
    br.fault.None? ==> br.r.memberOpen || br.r.decoder.None?
  }

  lemma {:induction false} DataAgrees(lib: O.Library, t: Told, br: Bridge, bytes: seq<Byte>)
    requires Agrees(t, br) && Skipping(br)
    ensures var after := BridgeAll(lib, br, S.DataEvents(bytes));
            Agrees(t, after) && Skipping(after) && after.r.walker == br.r.walker
            && (after.fault.None? ==> br.fault.None? && after.r.memberOpen == br.r.memberOpen)
  {
    hide BridgeOne;
    if bytes == [] {
      assert S.DataEvents(bytes) == [];
    } else {
      var front, b := bytes[..|bytes| - 1], bytes[|bytes| - 1];
      DataAgrees(lib, t, br, front);
      assert S.DataEvents(bytes)[..|bytes| - 1] == S.DataEvents(front);
      var mid := BridgeAll(lib, br, S.DataEvents(front));
      if mid.fault.None? {
        BridgeAgrees(lib, t, mid, Z.MemberData(b));
      } else {
        FaultKept(lib, mid, Z.MemberData(b));
      }
    }
  }

  lemma FaultKept(lib: O.Library, br: Bridge, e: Z.Event)
    requires br.fault.Some?
    ensures BridgeOne(lib, br, e) == br
  {
  }

  lemma BridgeLast(lib: O.Library, br: Bridge, es: seq<Z.Event>, e: Z.Event)
    ensures BridgeAll(lib, br, es + [e]) == BridgeOne(lib, BridgeAll(lib, br, es), e)
  {
    hide BridgeOne;
    assert (es + [e])[..|es|] == es;
  }

  /** The bridge over the events of one consumed byte. */
  function ZipSaid(lib: O.Library, r: ZipState, next: Z.Walk, events: seq<Z.Event>): Bridge {
    BridgeAll(lib, Bridge(r.(walker := next), [], None), events)
  }

  /** A byte inside a member keeps the reader in step with the walker. */
  lemma InsideSaid(lib: O.Library, r: ZipReader, b: Byte, t: Told)
    requires E.InMember(r.walker.state) && Z.Consume(r.walker, b).Go? && StandOf(t) == ZipAt(r)
    ensures var step := Z.Consume(r.walker, b);
            var br := ZipSaid(lib, r, step.next, step.events);
            Agrees(t, br) && (br.fault.None? ==> ZipOk(br.r))
  {
    hide Z.Consume, BridgeOne, TellAll;
    var step := Z.Consume(r.walker, b);
    var x := E.MemberStep(r.walker, b);
    var start := Bridge(r.(walker := step.next), [], None);
    NothingTold(t);
    DataAgrees(lib, t, start, x.bytes);
    var mid := BridgeAll(lib, start, S.DataEvents(x.bytes));
    OrderedInside(r.walker, step.next);
    match x.end {
      case None =>
        assert step.events == S.DataEvents(x.bytes);
      case Some(end) =>
        assert step.events == S.DataEvents(x.bytes) + [end];
        BridgeLast(lib, start, S.DataEvents(x.bytes), end);
        BridgeAgrees(lib, t, mid, end);
        if mid.fault.Some? {
          FaultKept(lib, mid, end);
        }
    }
  }

  lemma NothingTold(t: Told)
    ensures TellAll(t, []) == Some(t)
  {
  }

  lemma OrderedInside(w: Z.Walk, next: Z.Walk)
    requires E.Ordered(w) && E.InMember(w.state) && next.(state := w.state, offset := w.offset) == w
    requires Z.ValidState(next.state) && (next.state == Z.Signature([]) || E.InMember(next.state))
    ensures E.Ordered(next) && E.Plausible(next)
  {
  }

  /** So does a byte outside. */
  lemma OutsideSaid(lib: O.Library, r: ZipReader, b: Byte, t: Told)
    requires !E.InMember(r.walker.state) && Z.Consume(r.walker, b).Go? && StandOf(t) == ZipAt(r)
    ensures var step := Z.Consume(r.walker, b);
            var br := ZipSaid(lib, r, step.next, step.events);
            Agrees(t, br) && (br.fault.None? ==> ZipOk(br.r))
  {
    hide Z.Consume, BridgeOne, TellAll;
    var step := Z.Consume(r.walker, b);
    var x := E.OutsideStep(r.walker, b);
    var start := Bridge(r.(walker := step.next), [], None);
    NothingTold(t);
    match x {
      case Quiet =>
      case Opened(head) =>
        assert step.events == [] + [head];
        BridgeLast(lib, start, [], head);
        BridgeAgrees(lib, t, start, head);
      case Whole(m) =>
        assert step.events == [m.head] + (S.DataEvents(m.raw) + [Z.MemberEnd(m.ended, m.endCrc)]);
        WholeSaid(lib, t, start, m);
      case Begun =>
        assert step.events == [] + [Z.CentralBegun];
        BridgeLast(lib, start, [], Z.CentralBegun);
        BridgeAgrees(lib, t, start, Z.CentralBegun);
    }
  }

  /** A header and then data. */
  lemma HeadAndData(lib: O.Library, t: Told, start: Bridge, head: Z.Event, raw: seq<Byte>)
    requires Agrees(t, start) && start.fault.None? && !start.r.memberOpen && head.LocalHeaderRead?
    ensures var br := BridgeAll(lib, start, [head] + S.DataEvents(raw));
            Agrees(t, br) && Skipping(br) && br.r.walker == start.r.walker
  {
    hide BridgeOne, Agrees, S.DataEvents;
    assert [] + [head] == [head];
    BridgeLast(lib, start, [], head);
    BridgeAgrees(lib, t, start, head);
    BridgeThen(lib, start, [head], S.DataEvents(raw));
    DataAgrees(lib, t, BridgeOne(lib, start, head), raw);
  }

  /** A member reported whole opens and closes in one byte. */
  lemma WholeSaid(lib: O.Library, t: Told, start: Bridge, m: E.Source)
    requires Agrees(t, start) && start.fault.None? && !start.r.memberOpen
    ensures var br := BridgeAll(lib, start, E.SourceEvents(m));
            Agrees(t, br) && br.r.walker == start.r.walker && (br.fault.None? ==> !br.r.memberOpen)
  {
    hide BridgeOne, BridgeAll, Agrees, S.DataEvents;
    var end := Z.MemberEnd(m.ended, m.endCrc);
    var upTo := [m.head] + S.DataEvents(m.raw);
    HeadAndData(lib, t, start, m.head, m.raw);
    Assoc([m.head], S.DataEvents(m.raw), [end]);
    BridgeLast(lib, start, upTo, end);
    var two := BridgeAll(lib, start, upTo);
    BridgeAgrees(lib, t, two, end);
    if two.fault.Some? {
      FaultKept(lib, two, end);
    }
  }

  lemma {:induction false} BridgeThen(lib: O.Library, br: Bridge, x: seq<Z.Event>, y: seq<Z.Event>)
    ensures BridgeAll(lib, br, x + y) == BridgeAll(lib, BridgeAll(lib, br, x), y)
  {
    hide BridgeOne;
    if y == [] {
      assert x + y == x;
    } else {
      assert (x + y)[..|x + y| - 1] == x + y[..|y| - 1];
      BridgeThen(lib, br, x, y[..|y| - 1]);
    }
  }

  /** What one byte makes the reader say agrees with where it stands. */
  lemma ZipStepOk(lib: O.Library, r: ZipReader, b: Byte, t: Told)
    requires Z.Consume(r.walker, b).Go? && StandOf(t) == ZipAt(r)
    ensures var step := Z.Consume(r.walker, b);
            var br := ZipSaid(lib, r, step.next, step.events);
            Agrees(t, br) && (br.fault.None? ==> ZipOk(br.r))
  {
    hide Z.Consume, ZipSaid;
    if E.InMember(r.walker.state) {
      InsideSaid(lib, r, b, t);
    } else {
      OutsideSaid(lib, r, b, t);
    }
  }

  /** Some telling that stands where the reader does. */
  function ToldOf(r: ZipState): (t: Told)
    ensures StandOf(t) == ZipStand(r)
  {
    if r.memberOpen then Inside(Past(Zip, []), Meta([], 0, None, None, None), seq(r.produced, _ => 0)) else Between(Past(Zip, []))
  }

  function PushZip(lib: O.Library, r: ZipReader, b: Byte): Pushed<ZipReader> {
    match Z.Consume(r.walker, b)
    case Stop(_) => Refused(Malformed)
    case Go(next, events, _) =>
      ZipStepOk(lib, r, b, ToldOf(r));
      var br := ZipSaid(lib, r, next, events);
      if br.fault.Some? then Refused(br.fault.value) else Pushed(br.r, br.out)
  }

  function FinishZip(r: ZipReader): Finished {
    if Z.MayFinish(r.walker) then Finished([]) else Denied(Malformed)
  }

  /** The ZIP reader brackets its members, and each has as many bytes as were decoded. */
  lemma ZipBrackets(lib: O.Library, r: ZipReader, b: Byte, t: Told)
    requires PushZip(lib, r, b).Pushed? && StandOf(t) == ZipAt(r)
    ensures StepTold(ZipAt, PushZip(lib, r, b).next, t, PushZip(lib, r, b).events)
  {
    hide Z.Consume, ZipSaid;
    ZipStepOk(lib, r, b, t);
  }

  // The gzip reader: the unwrapped bytes are one member, or a TAR archive.

  /** What unwrapping yields when a byte is pushed after `before`, what ends it, and the name it carries. */
  datatype Gunzip = Gunzip(push: (seq<Byte>, Byte) -> O.Produced, close: seq<Byte> -> bool, name: seq<Byte> -> seq<Byte>)

  datatype GzInner = Undecided(buffer: seq<Byte>) | InTar(tar: TarReader) | Single(produced: nat)
  datatype GzReader = GzReader(consumed: seq<Byte>, inner: GzInner)

  const NEW_GZ: GzReader := GzReader([], Undecided([]))

  function GzAt(r: GzReader): Stand {
    match r.inner
    case Undecided(_) => StandUnannounced
    case InTar(tar) => TarAt(tar)
    case Single(produced) => StandInside(produced)
  }

  /** A TAR archive, by its magic or by a verified header checksum. */
  predicate IsTarPrefix(prefix: seq<Byte>) {
    T.BLOCK <= |prefix| && (prefix[257..262] == T.USTAR || T.ChecksumMatches(prefix[..T.BLOCK]))
  }

  /** A run of bytes through the TAR reader. */
  function PushTarAll(r: TarReader, bytes: seq<Byte>): Pushed<TarReader>
    decreases |bytes|
  {
    if bytes == [] then Pushed(r, [])
    else
      match PushTar(r, bytes[0])
      case Refused(reason) => Refused(reason)
      case Pushed(next, events) =>
        match PushTarAll(next, bytes[1..])
        case Refused(reason) => Refused(reason)
        case Pushed(last, more) => Pushed(last, events + more)
  }

  lemma {:induction false} TarRunBrackets(r: TarReader, bytes: seq<Byte>, t: Told)
    requires PushTarAll(r, bytes).Pushed? && StandOf(t) == TarAt(r)
    ensures StepTold(TarAt, PushTarAll(r, bytes).next, t, PushTarAll(r, bytes).events)
    decreases |bytes|
  {
    hide PushTar, TellAll;
    NothingTold(t);
    if bytes != [] {
      var one := PushTar(r, bytes[0]);
      TarBrackets(r, bytes[0], t);
      var u := TellAll(t, one.events).value;
      TarRunBrackets(one.next, bytes[1..], u);
      TellThen(t, one.events, PushTarAll(one.next, bytes[1..]).events);
    }
  }

  function Announced(kind: ContainerKind, p: Pushed<TarReader>, consumed: seq<Byte>): Pushed<GzReader> {
    match p
    case Refused(reason) => Refused(reason)
    case Pushed(tar, events) => Pushed(GzReader(consumed, InTar(tar)), [Announce(kind)] + events)
  }

  /** The first unwrapped bytes decide what the stream wraps. */
  function Decide(gunzip: Gunzip, consumed: seq<Byte>, buffer: seq<Byte>): Pushed<GzReader> {
    if IsTarPrefix(buffer) then Announced(TarGzip, PushTarAll(NEW_TAR, buffer), consumed)
    else
      var meta := Meta(gunzip.name(consumed), 0, None, None, None);
      Pushed(GzReader(consumed, Single(|buffer|)), PushBytes([Announce(Gzip), ReadStart(meta)], buffer))
  }

  function PushGz(gunzip: Gunzip, r: GzReader, b: Byte): Pushed<GzReader> {
    var consumed := r.consumed + [b];
    match gunzip.push(r.consumed, b)
    case Bad(_) => Refused(Malformed)
    case Made(bytes) =>
      if bytes == [] then Pushed(r.(consumed := consumed), [])
      else
        match r.inner
        case Undecided(buffer) =>
          if |buffer + bytes| >= THRESHOLD then Decide(gunzip, consumed, buffer + bytes)
          else Pushed(GzReader(consumed, Undecided(buffer + bytes)), [])
        case InTar(tar) =>
          (match PushTarAll(tar, bytes)
           case Refused(reason) => Refused(reason)
           case Pushed(next, events) => Pushed(GzReader(consumed, InTar(next)), events))
        case Single(produced) => Pushed(GzReader(consumed, Single(produced + |bytes|)), PushBytes([], bytes))
  }

  function FinishInner(r: GzReader): Finished {
    match r.inner
    case Undecided(_) => Finished([])
    case InTar(tar) => FinishTar(tar)
    case Single(produced) => Finished([ReadEnd(produced)])
  }

  function After(events: seq<ReaderEvent>, f: Finished): Finished {
    match f
    case Denied(cause) => f
    case Finished(more) => Finished(events + more)
  }

  function FinishGz(gunzip: Gunzip, r: GzReader): Finished {
    if !gunzip.close(r.consumed) then Denied(Malformed)
    else
      match r.inner
      case Undecided(buffer) =>
        (match Decide(gunzip, r.consumed, buffer)
         case Refused(reason) => Denied(reason)
         case Pushed(decided, events) => After(events, FinishInner(decided)))
      case _ => FinishInner(r)
  }

  lemma DecideBrackets(gunzip: Gunzip, consumed: seq<Byte>, buffer: seq<Byte>)
    requires Decide(gunzip, consumed, buffer).Pushed?
    ensures var d := Decide(gunzip, consumed, buffer);
            StepTold(GzAt, d.next, Unannounced, d.events) && d.events != [] && !d.next.inner.Undecided?
  {
    hide PushTarAll, TellAll, IsTarPrefix, PushBytes;
    if IsTarPrefix(buffer) {
      var p := PushTarAll(NEW_TAR, buffer);
      TellOne(Unannounced, Announce(TarGzip));
      TarRunBrackets(NEW_TAR, buffer, Between(Past(TarGzip, [])));
      TellThen(Unannounced, [Announce(TarGzip)], p.events);
    } else {
      var meta := Meta(gunzip.name(consumed), 0, None, None, None);
      var opening := [Announce(Gzip), ReadStart(meta)];
      assert opening == [Announce(Gzip)] + [ReadStart(meta)];
      TellOne(Unannounced, Announce(Gzip));
      TellMore(Unannounced, [Announce(Gzip)], ReadStart(meta));
      TellBytes(Unannounced, opening, buffer);
      SomethingSaid(opening, buffer);
      assert [] + buffer == buffer;
    }
  }

  lemma SomethingSaid(out: seq<ReaderEvent>, bytes: seq<Byte>)
    requires out != []
    ensures PushBytes(out, bytes) != []
  {
  }

  lemma GzBrackets(gunzip: Gunzip, r: GzReader, b: Byte, t: Told)
    requires PushGz(gunzip, r, b).Pushed? && StandOf(t) == GzAt(r)
    ensures StepTold(GzAt, PushGz(gunzip, r, b).next, t, PushGz(gunzip, r, b).events)
  {
    hide PushTarAll, TellAll, Decide, PushBytes;
    NothingTold(t);
    var bytes := gunzip.push(r.consumed, b).bytes;
    if bytes != [] {
      match r.inner {
        case Undecided(buffer) =>
          if |buffer + bytes| >= THRESHOLD {
            DecideBrackets(gunzip, r.consumed + [b], buffer + bytes);
          }
        case InTar(tar) =>
          TarRunBrackets(tar, bytes, t);
        case Single(produced) =>
          TellBytes(t, [], bytes);
      }
    }
  }

  /** At its end a gzip stream that was never decided is, and its single member ends. */
  lemma GzFinishes(gunzip: Gunzip, r: GzReader, t: Told)
    requires FinishGz(gunzip, r).Finished? && StandOf(t) == GzAt(r)
    ensures FinishTold(t, FinishGz(gunzip, r).events)
  {
    hide TellAll, Decide;
    NothingTold(t);
    match r.inner {
      case Undecided(buffer) =>
        DecideBrackets(gunzip, r.consumed, buffer);
        var d := Decide(gunzip, r.consumed, buffer);
        var u := TellAll(Unannounced, d.events).value;
        match d.next.inner {
          case InTar(tar) =>
            assert d.events + [] == d.events;
          case Single(produced) =>
            TellMore(Unannounced, d.events, ReadEnd(produced));
          case Undecided(_) =>
        }
      case InTar(tar) =>
      case Single(produced) =>
        TellOne(t, ReadEnd(produced));
    }
  }

  // All three.

  datatype LevelReader = ZipLevel(zip: ZipReader) | TarLevel(tar: TarReader) | GzLevel(gz: GzReader)

  function LevelAt(r: LevelReader): Stand {
    match r
    case ZipLevel(zip) => ZipAt(zip)
    case TarLevel(tar) => TarAt(tar)
    case GzLevel(gz) => GzAt(gz)
  }

  function StartLevel(kind: ContainerKind): LevelReader {
    match kind
    case Zip => ZipLevel(NEW_ZIP)
    case Tar => TarLevel(NEW_TAR)
    case Gzip => GzLevel(NEW_GZ)
    case TarGzip => GzLevel(NEW_GZ)
  }

  function PushLevelReader(lib: O.Library, gunzip: Gunzip, r: LevelReader, b: Byte): Pushed<LevelReader> {
    match r
    case ZipLevel(zip) =>
      (match PushZip(lib, zip, b) case Refused(reason) => Refused(reason) case Pushed(next, events) => Pushed(ZipLevel(next), events))
    case TarLevel(tar) =>
      (match PushTar(tar, b) case Refused(reason) => Refused(reason) case Pushed(next, events) => Pushed(TarLevel(next), events))
    case GzLevel(gz) =>
      (match PushGz(gunzip, gz, b) case Refused(reason) => Refused(reason) case Pushed(next, events) => Pushed(GzLevel(next), events))
  }

  function FinishLevel(gunzip: Gunzip, r: LevelReader): Finished {
    match r
    case ZipLevel(zip) => FinishZip(zip)
    case TarLevel(tar) => FinishTar(tar)
    case GzLevel(gz) => FinishGz(gunzip, gz)
  }

  /** The container a byte prefix positively identifies. */
  function ContainerByPrefix(prefix: seq<Byte>): Option<ContainerKind> {
    if [0x1F, 0x8B] <= prefix then Some(Gzip)
    else if R.LOCAL_HEADER <= prefix || R.END_OF_CENTRAL_DIRECTORY <= prefix then Some(Zip)
    else if IsTarPrefix(prefix) then Some(Tar)
    else None
  }

  /** Inside an Office package, a main part's name tells the package's kind. */
  function OfficeLabel(r: LevelReader, path: seq<Byte>): Option<Label> {
    if r.ZipLevel? && r.zip.officeFirst && O.KindOfMainPart(path).Some? then Some(O.MainPart(O.KindOfMainPart(path).value)) else None
  }

  function ContainerReaders(lib: O.Library, gunzip: Gunzip, infer: (seq<Byte>, seq<Byte>) -> Inferred): Readers<LevelReader> {
    Readers(StartLevel, (r, b) => PushLevelReader(lib, gunzip, r, b), r => FinishLevel(gunzip, r), OfficeLabel, infer, ContainerByPrefix)
  }

  /** The three readers bracket their members: what the driver proves of such readers holds of it with these. */
  lemma ReadersBracket(lib: O.Library, gunzip: Gunzip, infer: (seq<Byte>, seq<Byte>) -> Inferred)
    ensures Brackets(ContainerReaders(lib, gunzip, infer), LevelAt)
  {
    hide PushZip, PushTar, PushGz, FinishGz, TellAll;
    var readers := ContainerReaders(lib, gunzip, infer);
    forall r, b, t | readers.push(r, b).Pushed? && StandOf(t) == LevelAt(r)
      ensures StepTold(LevelAt, readers.push(r, b).next, t, readers.push(r, b).events)
    {
      match r {
        case ZipLevel(zip) =>
          ZipBrackets(lib, zip, b, t);
          assert readers.push(r, b) == Pushed(ZipLevel(PushZip(lib, zip, b).next), PushZip(lib, zip, b).events);
        case TarLevel(tar) =>
          TarBrackets(tar, b, t);
          assert readers.push(r, b) == Pushed(TarLevel(PushTar(tar, b).next), PushTar(tar, b).events);
        case GzLevel(gz) =>
          GzBrackets(gunzip, gz, b, t);
          assert readers.push(r, b) == Pushed(GzLevel(PushGz(gunzip, gz, b).next), PushGz(gunzip, gz, b).events);
      }
    }
    forall r, t | readers.finish(r).Finished? && StandOf(t) == LevelAt(r)
      ensures FinishTold(t, readers.finish(r).events)
    {
      NothingTold(t);
      if r.GzLevel? {
        GzFinishes(gunzip, r.gz, t);
      }
    }
  }

  /** A driver over the three readers. */
  method NewDecomposer(lib: O.Library, gunzip: Gunzip, infer: (seq<Byte>, seq<Byte>) -> Inferred)
      returns (d: Decomposer<LevelReader>)
    ensures fresh(d) && d.Valid() && d.phase == Detect([]) && d.trace == []
  {
    ReadersBracket(lib, gunzip, infer);
    d := new Decomposer(ContainerReaders(lib, gunzip, infer), LevelAt);
  }
}
