/** What a walk reports: whole members one after another, then, once, the start of the central directory. */
module ZipEvents {
  import opened Bytes
  import opened ZipRecords
  import opened ZipWalker
  import opened ZipScan

  /** A member as the walker reports it: its header, its stored bytes, its end. */
  datatype SourceMember = SourceMember(head: Event, raw: seq<Byte>, ended: MemberSizes, endCrc: nat)

  /** A header event whose name and sizes came from header fields, the sizes plausible for the method. */
  predicate HeaderFits(e: Event) {
    && e.LocalHeaderRead? && |e.name| <= MAX16
    && (e.sizes.Some? ==> e.sizes.value.compressed <= MAX64 && e.sizes.value.uncompressed <= MAX64)
    && (e.sizes.Some? ==> Check(e.sizes.value, e.codec).None?)
  }

  /** What a member's end and its header tell of its stored bytes is their number; the end's sizes are plausible too. */
  predicate EndFits(head: Event, raw: seq<Byte>, ended: MemberSizes)
    requires HeaderFits(head)
  {
    && ended.compressed == |raw| && Check(ended, head.codec).None?
    && (head.sizes.Some? ==> head.sizes.value.compressed == |raw|)
  }

  /** A member as a walk can report it. */
  type Source = m: SourceMember | HeaderFits(m.head) && EndFits(m.head, m.raw, m.ended)
    witness SourceMember(LocalHeaderRead([], 0, false, false, None, 0), [], MemberSizes(0, 0), 0)

  /** The sizes a member's header claims are not those its end tells. */
  predicate Disagrees(m: Source) {
    m.head.sizes.Some? && m.head.sizes.value != m.ended
  }

  function SourceEvents(m: SourceMember): seq<Event> {
    [m.head] + (DataEvents(m.raw) + [MemberEnd(m.ended, m.endCrc)])
  }

  function SourcesEvents(ms: seq<Source>): seq<Event> {
    if ms == [] then [] else SourcesEvents(ms[..|ms| - 1]) + SourceEvents(ms[|ms| - 1])
  }

  /** The events of a whole package. */
  function PackageEvents(ms: seq<Source>): seq<Event> {
    SourcesEvents(ms) + [CentralBegun]
  }

  lemma OneMoreSource(ms: seq<Source>, m: Source)
    ensures SourcesEvents(ms + [m]) == SourcesEvents(ms) + SourceEvents(m)
  {
    hide SourceEvents;
    assert (ms + [m])[..|ms|] == ms;
  }

  // Where a walk stands between events.

  predicate InMember(s: State) {
    s.Data? || s.DataScan? || s.Descriptor?
  }

  predicate ReadingLocal(s: State) {
    (s.Fixed? && s.kind == RLocal) || (s.VariablePart? && s.part.LocalPart?)
  }

  /** The central directory has begun exactly when its start is known, and then no member is read again. */
  predicate Ordered(w: Walk) {
    && ValidState(w.state)
    && (w.phase != Members ==> w.centralStart.Some?)
    && (InMember(w.state) || ReadingLocal(w.state) ==> w.centralStart.None?)
    && (w.phase == Members && w.centralStart.Some? ==> (w.state.Fixed? && w.state.kind == REnd) || w.state.Skip?)
    && (w.state.Fixed? && w.state.kind != RLocal ==> w.centralStart.Some?)
    && (w.state.VariablePart? && w.state.part.CentralPart? ==> w.centralStart.Some? && w.phase != Members)
    && (w.state.Fixed? && (w.state.kind == RCentral || w.state.kind == RZip64End || w.state.kind == RZip64Locator) ==> w.phase != Members)
    && (w.state.Skip? ==> w.state.andThen != Members && w.centralStart.Some?)
  }

  /** The events of finished members, of the member being read, and of the central directory's start. */
  datatype Progress = Progress(done: seq<Source>, head: Option<Event>, raw: seq<Byte>, begun: bool)

  function ProgressEvents(p: Progress): seq<Event> {
    SourcesEvents(p.done)
    + (if p.head.Some? then [p.head.value] + DataEvents(p.raw) else [])
    + (if p.begun then [CentralBegun] else [])
  }

  /** How far a member's bytes have come, by the state of the walk inside it. */
  predicate Counts(head: Event, raw: seq<Byte>, s: State)
    requires head.LocalHeaderRead?
  {
    match s
    case Data(remaining, declared, uncompressed, _, codec, _) =>
      head.sizes == Some(MemberSizes(declared, uncompressed)) && codec == head.codec && |raw| + remaining == declared
    case DataScan(consumed, codec, _, _) => head.sizes.None? && codec == head.codec && consumed == |raw|
    case Descriptor(_, dataLen, codec, _) =>
      head.sizes.Some? && head.sizes.value.compressed == dataLen == |raw| && codec == head.codec
    case _ => true
  }

  /** A local header that has been counted and not yet reported. */
  function Counting(s: State): nat {
    if s.VariablePart? && s.part.LocalPart? then 1 else 0
  }

  predicate Follows(p: Progress, w: Walk) {
    && w.localCount == |p.done| + (if p.head.Some? then 1 else Counting(w.state))
    && Ordered(w) && (p.begun <==> w.centralStart.Some?) && (p.head.Some? <==> InMember(w.state))
    && (p.head.Some? ==> HeaderFits(p.head.value) && Counts(p.head.value, p.raw, w.state))
  }

  /** A step inside a member reports some of its bytes, and perhaps its end. */
  datatype Within = Within(bytes: seq<Byte>, end: Option<Event>)

  function WithinEvents(x: Within): seq<Event> {
    DataEvents(x.bytes) + if x.end.Some? then [x.end.value] else []
  }

  predicate Ends(x: Within, step: Step) {
    && (x.end.Some? ==> x.end.value.MemberEnd?)
    && (step.Go? ==> step.events == WithinEvents(x) && (x.end.Some? <==> !InMember(step.next.state))
                     && (x.end.Some? ==> step.next.state == Signature([])))
  }

  /** What such a step does to the count of the member's bytes, and what an end it reports tells. */
  predicate Tallies(s: State, x: Within, next: State)
    requires x.end.Some? ==> x.end.value.MemberEnd?
  {
    match s
    case Data(remaining, declared, uncompressed, _, codec, _) =>
      && |x.bytes| == 1
      && if x.end.Some? then remaining == 1 && x.end.value.ended == MemberSizes(declared, uncompressed)
         else if next.Data? then remaining > 1 && next == s.(remaining := remaining - 1)
         else next.Descriptor? && remaining == 1 && next.dataLen == declared && next.closeCodec == codec
    case DataScan(consumed, codec, _, _) =>
      if x.end.Some? then x.end.value.ended.compressed == consumed + |x.bytes| && Check(x.end.value.ended, codec).None?
      else next.DataScan? && next.consumed == consumed + |x.bytes| && next.scanCodec == codec
    case Descriptor(_, dataLen, codec, _) =>
      && x.bytes == []
      && if x.end.Some? then x.end.value.ended.compressed == dataLen && Check(x.end.value.ended, codec).None?
         else next.Descriptor? && next.dataLen == dataLen && next.closeCodec == codec
    case _ => true
  }

  lemma Tallied(head: Event, raw: seq<Byte>, s: State, x: Within, next: State)
    requires HeaderFits(head) && InMember(s) && Counts(head, raw, s) && (x.end.Some? ==> x.end.value.MemberEnd?) && Tallies(s, x, next)
    ensures if x.end.Some? then EndFits(head, raw + x.bytes, x.end.value.ended) else Counts(head, raw + x.bytes, next)
  {
    hide Check;
  }

  lemma CloseShape(w: Walk, codec: nat, zip64: bool, body: seq<Byte>) returns (x: Within)
    requires |body| == BodyLen(zip64)
    ensures Ends(x, CloseMember(w, codec, zip64, body)) && x.bytes == []
    ensures CloseMember(w, codec, zip64, body).Go? ==>
              x.end.Some? && x.end.value.ended == BodySizes(zip64, body) && Check(BodySizes(zip64, body), codec).None?
  {
    hide Check, BodySizes, BodyCrc;
    x := Within([], Some(MemberEnd(BodySizes(zip64, body), BodyCrc(body))));
    assert WithinEvents(x) == [x.end.value];
  }

  lemma {:induction false} ScanShape(w: Walk, consumed: nat, codec: nat, zip64: bool, pending: seq<Byte>) returns (x: Within)
    ensures Ends(x, ScanPending(w, consumed, codec, zip64, pending))
    ensures var step := ScanPending(w, consumed, codec, zip64, pending);
            step.Go? ==>
              if x.end.Some? then x.end.value.ended.compressed == consumed + |x.bytes| && Check(x.end.value.ended, codec).None?
              else step.next.state.DataScan? && step.next.state.consumed == consumed + |x.bytes| && step.next.state.scanCodec == codec
    decreases |pending|
  {
    hide CloseMember, Looks, BodySizes, Check;
    if Closes(zip64, consumed, pending) {
      x := CloseShape(w, codec, zip64, pending[4..4 + BodyLen(zip64)]);
    } else if Waits(zip64, pending) {
      x := Within([], None);
      assert WithinEvents(x) == [];
    } else {
      EmptyWaits(zip64);
      var rest := ScanShape(w, consumed + 1, codec, zip64, pending[1..]);
      x := Within([pending[0]] + rest.bytes, rest.end);
      assert DataEvents(x.bytes) == [MemberData(pending[0])] + DataEvents(rest.bytes);
      assert WithinEvents(x) == [MemberData(pending[0])] + WithinEvents(rest);
    }
  }

  lemma MemberStep(w: Walk, b: Byte) returns (x: Within)
    requires ValidState(w.state) && InMember(w.state)
    ensures Ends(x, Consume(w, b))
    ensures var step := Consume(w, b); step.Go? ==>
            step.next.(state := w.state, offset := w.offset) == w && Tallies(w.state, x, step.next.state)
  {
    hide Check, BodySizes, BodyCrc, ScanPending;
    match w.state
    case Data(_, _, _, _, _, _) =>
      var d := w.state;
      x := Within([b], if d.remaining == 1 && d.descriptor.None? then Some(MemberEnd(MemberSizes(d.declared, d.uncompressed), d.crc)) else None);
      assert DataEvents([b]) == [MemberData(b)];
      assert WithinEvents(x) == if x.end.Some? then [MemberData(b), x.end.value] else [MemberData(b)];
    case DataScan(consumed, codec, zip64, pending) =>
      x := ScanShape(w.(state := Signature([])), consumed, codec, zip64, pending + [b]);
      ScanKeeps(w.(state := Signature([])), consumed, codec, zip64, pending + [b]);
    case Descriptor(zip64, dataLen, codec, got) =>
      var all := got + [b];
      var from := if 4 <= |all| && all[..4] == DATA_DESCRIPTOR then 4 else 0;
      if |all| < 4 || |all| < from + BodyLen(zip64) {
        x := Within([], None);
        assert WithinEvents(x) == [];
      } else {
        x := CloseShape(w.(state := Signature([])), codec, zip64, all[from..from + BodyLen(zip64)]);
      }
  }

  lemma {:induction false} ScanKeeps(w: Walk, consumed: nat, codec: nat, zip64: bool, pending: seq<Byte>)
    ensures var step := ScanPending(w, consumed, codec, zip64, pending); step.Go? ==> step.next.(state := w.state) == w
    decreases |pending|
  {
    hide Check, BodySizes, BodyCrc, Looks;
    if !Closes(zip64, consumed, pending) && !Waits(zip64, pending) {
      EmptyWaits(zip64);
      ScanKeeps(w, consumed + 1, codec, zip64, pending[1..]);
    }
  }

  /** A step of an ordered walk that is inside no member. */
  datatype Outside = Quiet | Opened(head: Event) | Whole(member: Source) | Begun

  predicate Leaves(x: Outside, w: Walk, step: Step)
    requires step.Go?
  {
    && Ordered(step.next) && (x.Opened? <==> InMember(step.next.state))
    && (x.Begun? <==> w.centralStart.None? && step.next.centralStart.Some?)
    && (w.centralStart.Some? ==> step.next.centralStart.Some?)
    && match x
       case Quiet => step.events == []
       case Opened(head) => HeaderFits(head) && Counts(head, [], step.next.state) && step.events == [head]
       case Whole(m) => step.events == SourceEvents(m) && !Disagrees(m)
       case Begun => step.events == [CentralBegun]
  }

  /** Local headers are counted, and each that is counted is reported. */
  predicate Accounts(x: Outside, w: Walk, counting: nat, step: Step)
    requires step.Go?
  {
    step.next.localCount + counting == w.localCount + Counting(step.next.state) + (if x.Opened? || x.Whole? then 1 else 0)
  }

  lemma SignatureStep(w: Walk, sig: seq<Byte>) returns (x: Outside)
    requires Ordered(w) && w.state == Signature([]) && DispatchSignature(w, sig).Go?
    ensures Leaves(x, w, DispatchSignature(w, sig)) && Accounts(x, w, 0, DispatchSignature(w, sig))
  {
    hide SignatureKind;
    x := if DispatchSignature(w, sig).events == [] then Quiet else Begun;
  }

  lemma FieldsFit(b: seq<Byte>, at: nat)
    ensures at + 2 <= |b| ==> U16(b, at) <= MAX16
    ensures at + 4 <= |b| ==> U32(b, at) <= MAX32
    ensures at + 8 <= |b| ==> U64(b, at) <= MAX64
  {
    PowersOf256();
    if at + 2 <= |b| {
      UnLeBound(b[at..at + 2]);
    }
    if at + 4 <= |b| {
      UnLeBound(b[at..at + 4]);
    }
    if at + 8 <= |b| {
      UnLeBound(b[at..at + 8]);
    }
  }

  /** What the fields of a parsed local header can hold. */
  predicate LocalFits(h: LocalHeader) {
    h.nameLen <= MAX16 && h.compressed <= MAX32 && h.uncompressed <= MAX32
  }

  lemma ParsedFits(fixed: seq<Byte>)
    requires |fixed| == LOCAL_FIXED
    ensures LocalFits(ParseLocal(fixed))
  {
    hide UnLe;
    FieldsFit(fixed, 14);
    FieldsFit(fixed, 18);
    FieldsFit(fixed, 22);
  }

  lemma SizesFit(h: LocalHeader, extra: seq<Byte>)
    requires LocalFits(h) && LocalSizes(h, extra).Ok?
    ensures LocalSizes(h, extra).value.compressed <= MAX64 && LocalSizes(h, extra).value.uncompressed <= MAX64
  {
    hide FindZip64, UnLe;
    if NeedsZip64(h) {
      var data := FindZip64(extra).value.value;
      FieldsFit(data, 0);
      FieldsFit(data, 8);
    }
  }

  lemma EnterStep(w: Walk, h: LocalHeader, name: seq<Byte>, extra: seq<Byte>) returns (x: Outside)
    requires w.state == Signature([]) && w.centralStart.None? && w.phase == Members && LocalFits(h) && |name| == h.nameLen
    requires EnterMember(w, h, name, extra).Go?
    ensures Leaves(x, w, EnterMember(w, h, name, extra)) && Accounts(x, w, 1, EnterMember(w, h, name, extra))
  {
    hide LocalSizes, Check, DataEvents;
    var step := EnterMember(w, h, name, extra);
    if h.hasDescriptor && h.compressed == 0 {
      x := Opened(step.events[0]);
    } else {
      SizesFit(h, extra);
      var sizes := LocalSizes(h, extra).value;
      if sizes.compressed == 0 {
        x := Whole(SourceMember(step.events[0], [], sizes, h.crc));
        DataNothing();
        assert SourceEvents(x.member) == [step.events[0], MemberEnd(sizes, h.crc)];
      } else {
        x := Opened(step.events[0]);
      }
    }
  }

  /** Local headers in progress carry fields that were read from 16- and 32-bit fields. */
  predicate Plausible(w: Walk) {
    w.state.VariablePart? && w.state.part.LocalPart? ==> LocalFits(w.state.part.local)
  }

  lemma VariableStep(w: Walk, part: Variable, v: seq<Byte>) returns (x: Outside)
    requires w.state == Signature([]) && |v| == VariableLen(part) && DispatchVariable(w, part, v).Go?
    requires part.LocalPart? ==> LocalFits(part.local) && w.centralStart.None? && w.phase == Members
    requires part.CentralPart? ==> w.centralStart.Some? && w.phase != Members
    ensures Leaves(x, w, DispatchVariable(w, part, v)) && Accounts(x, w, if part.LocalPart? then 1 else 0, DispatchVariable(w, part, v))
  {
    hide EnterMember, CentralFacts, Check, DataEvents;
    match part
    case LocalPart(h) => x := EnterStep(w, h, v[..h.nameLen], v[h.nameLen..]);
    case CentralPart(h) => x := Quiet;
  }

  lemma FixedStep(w: Walk, kind: Record, fixed: seq<Byte>) returns (x: Outside)
    requires w.state == Signature([]) && |fixed| == FixedLen(kind) && DispatchFixed(w, kind, fixed).Go?
    requires if kind == RLocal then w.centralStart.None? && w.phase == Members else w.centralStart.Some?
    requires kind == RCentral || kind == RZip64End || kind == RZip64Locator ==> w.phase != Members
    ensures Leaves(x, w, DispatchFixed(w, kind, fixed)) && Plausible(DispatchFixed(w, kind, fixed).next)
    ensures Accounts(x, w, 0, DispatchFixed(w, kind, fixed))
  {
    hide DispatchVariable, ParseLocal, ParseCentral, ParseEnd, ParseZip64End, ReconcileEnd, DataEvents;
    x := Quiet;
    match kind {
      case RLocal =>
        ParsedFits(fixed);
        var h := ParseLocal(fixed);
        if h.nameLen + h.extraLen == 0 {
          x := VariableStep(w.(localCount := w.localCount + 1), LocalPart(h), []);
          VariableLands(w.(localCount := w.localCount + 1), LocalPart(h), []);
        }
      case RCentral =>
        var h := ParseCentral(fixed);
        if h.nameLen + h.extraLen + h.commentLen == 0 {
          x := VariableStep(w.(centralCount := w.centralCount + 1), CentralPart(h), []);
          VariableLands(w.(centralCount := w.centralCount + 1), CentralPart(h), []);
        }
      case _ =>
    }
  }

  lemma OutsideStep(w: Walk, b: Byte) returns (x: Outside)
    requires Ordered(w) && Plausible(w) && !InMember(w.state) && Consume(w, b).Go?
    ensures Leaves(x, w, Consume(w, b)) && Plausible(Consume(w, b).next) && Accounts(x, w, Counting(w.state), Consume(w, b))
  {
    hide DispatchSignature, DispatchFixed, DispatchVariable, VariableLen, SourceEvents;
    x := Quiet;
    var rest := w.(state := Signature([]));
    match w.state {
      case Signature(got) =>
        if |got| == 3 {
          x := SignatureStep(rest, got + [b]);
          SignatureLands(rest, got + [b]);
        }
      case Fixed(kind, fixed) =>
        if |fixed| + 1 == FixedLen(kind) {
          x := FixedStep(rest, kind, fixed + [b]);
        }
      case VariablePart(part, total, v) =>
        if |v| + 1 == total {
          x := VariableStep(rest, part, v + [b]);
          VariableLands(rest, part, v + [b]);
        }
      case Skip(left, andThen) =>
    }
  }

  lemma SignatureLands(w: Walk, sig: seq<Byte>)
    ensures DispatchSignature(w, sig).Go? ==> DispatchSignature(w, sig).next.state.Fixed?
  {
    hide SignatureKind;
  }

  lemma VariableLands(w: Walk, part: Variable, v: seq<Byte>)
    requires |v| == VariableLen(part)
    ensures DispatchVariable(w, part, v).Go? ==> !DispatchVariable(w, part, v).next.state.VariablePart?
  {
    hide CentralFacts, Check, LocalSizes;
  }

  function Extend(p: Progress, x: Within): Progress
    requires p.head.Some? && HeaderFits(p.head.value) && (x.end.Some? ==> x.end.value.MemberEnd?)
    requires x.end.Some? ==> EndFits(p.head.value, p.raw + x.bytes, x.end.value.ended)
  {
    match x.end
    case None => p.(raw := p.raw + x.bytes)
    case Some(end) => Progress(p.done + [SourceMember(p.head.value, p.raw + x.bytes, end.ended, end.endCrc)], None, [], p.begun)
  }

  lemma ExtendEvents(p: Progress, x: Within)
    requires p.head.Some? && HeaderFits(p.head.value) && !p.begun && (x.end.Some? ==> x.end.value.MemberEnd?)
    requires x.end.Some? ==> EndFits(p.head.value, p.raw + x.bytes, x.end.value.ended)
    ensures ProgressEvents(Extend(p, x)) == ProgressEvents(p) + WithinEvents(x)
  {
    hide SourcesEvents, DataEvents;
    var all := p.raw + x.bytes;
    DataAppend(all, |p.raw|, |all|);
    assert all[..|p.raw|] == p.raw && all[|p.raw|..|all|] == x.bytes && all[..|all|] == all;
    var done, head, old_, new_ := SourcesEvents(p.done), [p.head.value], DataEvents(p.raw), DataEvents(x.bytes);
    match x.end
    case None =>
      assert done + (head + (old_ + new_)) == done + (head + old_) + new_;
      assert new_ + [] == new_;
    case Some(end) =>
      var m := SourceMember(p.head.value, all, end.ended, end.endCrc);
      OneMoreSource(p.done, m);
      assert done + (head + (old_ + new_ + [end])) == done + (head + old_) + (new_ + [end]);
  }

  function Grow(p: Progress, x: Outside): Progress {
    match x
    case Quiet => p
    case Opened(head) => p.(head := Some(head), raw := [])
    case Whole(m) => p.(done := p.done + [m])
    case Begun => p.(begun := true)
  }

  function OutsideEvents(x: Outside): seq<Event> {
    match x
    case Quiet => []
    case Opened(head) => [head]
    case Whole(m) => SourceEvents(m)
    case Begun => [CentralBegun]
  }

  lemma GrowEvents(p: Progress, x: Outside)
    requires p.head.None? && (x.Opened? || x.Whole? || x.Begun? ==> !p.begun)
    ensures ProgressEvents(Grow(p, x)) == ProgressEvents(p) + OutsideEvents(x)
  {
    hide SourcesEvents, SourceEvents, DataEvents;
    DataNothing();
    if x.Whole? {
      OneMoreSource(p.done, x.member);
    }
  }

  /** A walk of `s` was inside a descriptor after known-size data, and the byte at `j` ended the last of `ms`. */
  predicate DescriptorEnds(s: seq<Byte>, j: nat, ms: seq<Source>) {
    && j < |s| && Run(START, s[..j]).Some? && Run(START, s[..j]).value.next.state.Descriptor?
    && Run(START, s[..j + 1]).Some? && Run(START, s[..j + 1]).value.events == SourcesEvents(ms)
  }

  ghost predicate EndedByDescriptor(s: seq<Byte>, ms: seq<Source>) {
    exists j: nat :: DescriptorEnds(s, j, ms)
  }

  /** Every member whose header and end disagree on its sizes was ended by such a descriptor. */
  ghost predicate Described(s: seq<Byte>, ms: seq<Source>) {
    forall k :: 0 <= k < |ms| && Disagrees(ms[k]) ==> EndedByDescriptor(s, ms[..k + 1])
  }

  /** Every walk reports members whole and in order, the last perhaps still open. */
  lemma {:induction false} RunShape(s: seq<Byte>) returns (p: Progress)
    requires Run(START, s).Some?
    ensures var r := Run(START, s).value; r.events == ProgressEvents(p) && Follows(p, r.next) && Plausible(r.next)
    ensures Described(s, p.done)
  {
    hide Consume, ProgressEvents, SourceEvents, Ordered, Grow, Extend, Described, Follows, Plausible, Finishes;
    if s == [] {
      p := Progress([], None, [], false);
      StartShape();
    } else {
      var front, b := s[..|s| - 1], s[|s| - 1];
      var p0 := RunShape(front);
      var w := Run(START, front).value.next;
      p := StepShape(p0, w, b);
      StillDescribed(s, p0, p, w);
    }
  }

  /** What a step does to the finished members: nothing, or one more, ended by a descriptor if its sizes disagree. */
  predicate Finishes(p0: Progress, w: Walk, p: Progress) {
    || p.done == p0.done
    || (&& |p.done| == |p0.done| + 1 && p.done[..|p0.done|] == p0.done && ProgressEvents(p) == SourcesEvents(p.done)
        && (Disagrees(p.done[|p0.done|]) ==> w.state.Descriptor?))
  }

  lemma StillDescribed(s: seq<Byte>, p0: Progress, p: Progress, w: Walk)
    requires s != [] && Run(START, s).Some? && Run(START, s).value.events == ProgressEvents(p)
    requires Run(START, s[..|s| - 1]).Some? && Run(START, s[..|s| - 1]).value.next == w
    requires Described(s[..|s| - 1], p0.done) && Finishes(p0, w, p)
    ensures Described(s, p.done)
  {
    hide Run, ProgressEvents, SourcesEvents;
    var front, n := s[..|s| - 1], |p0.done|;
    forall k | 0 <= k < |p.done| && Disagrees(p.done[k]) ensures EndedByDescriptor(s, p.done[..k + 1]) {
      if k < n {
        var j: nat :| DescriptorEnds(front, j, p0.done[..k + 1]);
        assert front[..j] == s[..j] && front[..j + 1] == s[..j + 1];
        assert p.done[..k + 1] == p0.done[..k + 1];
        assert DescriptorEnds(s, j, p.done[..k + 1]);
      } else {
        assert s[..|s| - 1 + 1] == s && p.done[..k + 1] == p.done;
        assert DescriptorEnds(s, |s| - 1, p.done[..k + 1]);
      }
    }
  }

  lemma StartShape()
    ensures ProgressEvents(Progress([], None, [], false)) == [] && Follows(Progress([], None, [], false), START) && Plausible(START)
    ensures Described([], [])
  {
  }

  lemma StepShape(p0: Progress, w: Walk, b: Byte) returns (p: Progress)
    requires Follows(p0, w) && Plausible(w) && Consume(w, b).Go?
    ensures var step := Consume(w, b);
            ProgressEvents(p) == ProgressEvents(p0) + step.events && Follows(p, step.next) && Plausible(step.next)
    ensures Finishes(p0, w, p)
  {
    hide Consume, ProgressEvents, SourceEvents, WithinEvents, Finishes;
    if InMember(w.state) {
      var x := MemberStep(w, b);
      Tallied(p0.head.value, p0.raw, w.state, x, Consume(w, b).next.state);
      ExtendEvents(p0, x);
      p := Extend(p0, x);
      ExtendFinishes(p0, w, x, Consume(w, b).next.state);
    } else {
      var x := OutsideStep(w, b);
      if p0.begun {
        OnlyMembersOpen(w, b, x);
      }
      GrowEvents(p0, x);
      p := Grow(p0, x);
      GrowFinishes(p0, w, x);
    }
  }

  lemma ExtendFinishes(p0: Progress, w: Walk, x: Within, next: State)
    requires Follows(p0, w) && InMember(w.state) && (x.end.Some? ==> x.end.value.MemberEnd?) && Tallies(w.state, x, next)
    requires x.end.Some? ==> EndFits(p0.head.value, p0.raw + x.bytes, x.end.value.ended)
    ensures Finishes(p0, w, Extend(p0, x))
  {
    hide Check, SourcesEvents, HeaderFits, EndFits;
    if x.end.Some? {
      assert Extend(p0, x).done[..|p0.done|] == p0.done;
    }
  }

  lemma GrowFinishes(p0: Progress, w: Walk, x: Outside)
    requires Follows(p0, w) && !InMember(w.state) && (x.Whole? ==> !p0.begun && !Disagrees(x.member))
    ensures Finishes(p0, w, Grow(p0, x))
  {
    hide SourcesEvents, HeaderFits, EndFits;
    if x.Whole? {
      assert Grow(p0, x).done[..|p0.done|] == p0.done;
    }
  }

  /** Once the central directory has begun, no member is reported. */
  lemma OnlyMembersOpen(w: Walk, b: Byte, x: Outside)
    requires Ordered(w) && !InMember(w.state) && Consume(w, b).Go? && Leaves(x, w, Consume(w, b)) && w.centralStart.Some?
    ensures !x.Opened? && !x.Whole?
  {
    hide CentralFacts, Check, ParseLocal, ParseCentral, ParseEnd, ParseZip64End, ReconcileEnd, SignatureKind, EnterMember, DataEvents;
  }

  /** A finished walk reported exactly the events of some list of members. */
  lemma FinishedShape(s: seq<Byte>) returns (ms: seq<Source>)
    requires Run(START, s).Some? && MayFinish(Run(START, s).value.next)
    ensures Run(START, s).value.events == PackageEvents(ms) && Described(s, ms)
  {
    hide Run, SourcesEvents, Described;
    var p := RunShape(s);
    ms := p.done;
    assert SourcesEvents(ms) + [] == SourcesEvents(ms);
  }

  /** What a walk reports determines the members. */
  lemma {:induction false} SourcesTellApart(a: seq<Source>, b: seq<Source>)
    requires SourcesEvents(a) == SourcesEvents(b)
    ensures a == b
  {
    hide SourceEvents;
    if a == [] || b == [] {
      SomeEvents(a);
      SomeEvents(b);
    } else {
      var fa, x, fb, y := a[..|a| - 1], a[|a| - 1], b[..|b| - 1], b[|b| - 1];
      LastTold(SourcesEvents(fa), x, SourcesEvents(fb), y);
      SourcesTellApart(fa, fb);
      assert a == fa + [x] && b == fb + [y];
    }
  }

  lemma SomeEvents(ms: seq<Source>)
    ensures SourcesEvents(ms) == [] <==> ms == []
  {
  }

  lemma LastTold(a: seq<Event>, x: Source, b: seq<Event>, y: Source)
    requires a + SourceEvents(x) == b + SourceEvents(y)
    ensures x == y && a == b
  {
    NoLonger(a, x, b, y);
    NoLonger(b, y, a, x);
    var n := |x.raw|;
    assert (a + SourceEvents(x))[..|a|] == a && (b + SourceEvents(y))[..|a|] == b;
    assert SourceEvents(x) == (a + SourceEvents(x))[|a|..] == (b + SourceEvents(y))[|a|..] == SourceEvents(y);
    assert x.head == SourceEvents(x)[0] == SourceEvents(y)[0] == y.head;
    assert MemberEnd(x.ended, x.endCrc) == SourceEvents(x)[n + 1] == SourceEvents(y)[n + 1] == MemberEnd(y.ended, y.endCrc);
    forall i | 0 <= i < n ensures x.raw[i] == y.raw[i] {
      assert MemberData(x.raw[i]) == SourceEvents(x)[i + 1] == SourceEvents(y)[i + 1] == MemberData(y.raw[i]);
    }
  }

  /** Counted from the end, the first header read is the last member's. */
  lemma NoLonger(a: seq<Event>, x: Source, b: seq<Event>, y: Source)
    requires a + SourceEvents(x) == b + SourceEvents(y)
    ensures |y.raw| <= |x.raw|
  {
    assert (a + SourceEvents(x))[|a|] == x.head;
    assert |a| == |b| + |y.raw| - |x.raw|;
  }

  /** A finished walk ended every member whose header and end disagree on the sizes by a trailing descriptor. */
  lemma DisagreeDescribed(s: seq<Byte>, ms: seq<Source>)
    requires Run(START, s).Some? && MayFinish(Run(START, s).value.next) && Run(START, s).value.events == PackageEvents(ms)
    ensures Described(s, ms)
  {
    hide Run, SourcesEvents, Described, MayFinish;
    var found := FinishedShape(s);
    assert SourcesEvents(ms) == PackageEvents(ms)[..|PackageEvents(ms)| - 1] == SourcesEvents(found);
    SourcesTellApart(ms, found);
  }
}
