/** The forward-only ZIP walker (src/chunker/zip/walker/core.rs, descriptor.rs, dispatch.rs, state.rs). */
module ZipWalker {
  import opened Bytes
  import opened ZipRecords
  import Gear

  datatype Phase = Members | Central | Zip64EndSeen | LocatorSeen | Complete
  datatype Record = RLocal | RCentral | REnd | RZip64End | RZip64Locator
  datatype Variable = LocalPart(local: LocalHeader) | CentralPart(central: CentralHeader)

  function FixedLen(kind: Record): Pos {
    match kind
    case RLocal => LOCAL_FIXED
    case RCentral => CENTRAL_FIXED
    case REnd => END_FIXED
    case RZip64End => ZIP64_END_FIXED
    case RZip64Locator => ZIP64_LOCATOR_FIXED
  }

  // Data descriptors: CRC and two sizes, 64-bit when the header deferred to ZIP64.

  function BodyLen(zip64: bool): nat {
    if zip64 then 20 else 12
  }

  function BodyCrc(body: seq<Byte>): nat
    requires 4 <= |body|
  {
    U32(body, 0)
  }

  function BodySizes(zip64: bool, body: seq<Byte>): MemberSizes
    requires |body| == BodyLen(zip64)
  {
    if zip64 then MemberSizes(U64(body, 4), U64(body, 12)) else MemberSizes(U32(body, 4), U32(body, 8))
  }

  // What the walker reports to its observer.

  datatype Event =
    | LocalHeaderRead(name: seq<Byte>, codec: nat, utf8: bool, encrypted: bool, sizes: Option<MemberSizes>, crc: nat)
    | MemberData(b: Byte)
    | MemberEnd(ended: MemberSizes, endCrc: nat)
    | CentralBegun

  // The walker on values: each state carries the bytes it has collected.

  datatype State =
    | Signature(got: seq<Byte>)
    | Fixed(kind: Record, fixed: seq<Byte>)
    | VariablePart(part: Variable, total: nat, variable: seq<Byte>)
    | Data(remaining: Pos, declared: nat, uncompressed: nat, crc: nat, codec: nat, descriptor: Option<bool>)
    | DataScan(consumed: nat, scanCodec: nat, scanZip64: bool, pending: seq<Byte>)
    | Descriptor(zip64: bool, dataLen: nat, closeCodec: nat, body: seq<Byte>)
    | Skip(left: Pos, andThen: Phase)

  datatype Walk = Walk(
    state: State, phase: Phase, offset: nat, localCount: nat, centralCount: nat,
    centralStart: Option<nat>, centralEnd: nat, zip64End: Option<Zip64EndRecord>)

  datatype Step = Go(next: Walk, events: seq<Event>, large: Option<nat>) | Stop(fault: ZipFault)

  const START := Walk(Signature([]), Members, 0, 0, 0, None, 0, None)

  predicate AtMemberBoundary(w: Walk) {
    w.state == Signature([]) && w.phase == Members
  }

  predicate MayFinish(w: Walk) {
    w.phase == Complete && w.state == Signature([])
  }

  function SignatureKind(sig: seq<Byte>): Option<Record> {
    if sig == LOCAL_HEADER then Some(RLocal)
    else if sig == CENTRAL_HEADER then Some(RCentral)
    else if sig == END_OF_CENTRAL_DIRECTORY then Some(REnd)
    else if sig == ZIP64_END_OF_CENTRAL_DIRECTORY then Some(RZip64End)
    else if sig == ZIP64_LOCATOR then Some(RZip64Locator)
    else None
  }

  /** The first end record marks where the central directory ended, and, without entries, where it began. */
  function BeginEnd(w: Walk, recordStart: nat): Walk {
    w.(centralStart := if w.centralStart.None? then Some(recordStart) else w.centralStart, centralEnd := recordStart)
  }

  /** Four signature bytes are in; the fourth is at `w.offset`. */
  function DispatchSignature(w: Walk, sig: seq<Byte>): Step {
    match SignatureKind(sig)
    case None => Stop(UnknownSignature)
    case Some(kind) =>
      var recordStart := if 3 <= w.offset then w.offset - 3 else 0;
      var begun := if w.phase == Members then [CentralBegun] else [];
      var w' := w.(state := Fixed(kind, []));
      match (kind, w.phase)
      case (RLocal, Members) => Go(w', [], None)
      case (RLocal, _) => Stop(MemberAfterCentralDirectory)
      case (RCentral, Members) => Go(w'.(phase := Central, centralStart := Some(recordStart)), begun, None)
      case (RCentral, Central) => Go(w', [], None)
      case (RZip64End, Members) => Go(BeginEnd(w', recordStart).(phase := Zip64EndSeen), begun, None)
      case (RZip64End, Central) => Go(BeginEnd(w', recordStart).(phase := Zip64EndSeen), begun, None)
      case (RZip64Locator, Zip64EndSeen) => Go(w'.(phase := LocatorSeen), [], None)
      case (REnd, Members) => Go(BeginEnd(w', recordStart), begun, None)
      case (REnd, Central) => Go(BeginEnd(w', recordStart), begun, None)
      case (REnd, LocatorSeen) => Go(w', [], None)
      case (_, _) => Stop(RecordOutOfSequence)
  }

  function SkipTo(w: Walk, n: nat, phase: Phase): Walk {
    if n == 0 then w.(phase := phase, state := Signature([])) else w.(state := Skip(n, phase))
  }

  /** The end record against the members and entries that streamed past. */
  function ReconcileEnd(w: Walk, end: EndRecord): Option<ZipFault> {
    var entries := if w.zip64End.Some? && end.entriesTotal == MAX16 then w.zip64End.value.entriesTotal else end.entriesTotal;
    var size := if w.zip64End.Some? && end.centralSize == MAX32 then w.zip64End.value.centralSize else end.centralSize;
    var offset := if w.zip64End.Some? && end.centralOffset == MAX32 then w.zip64End.value.centralOffset else end.centralOffset;
    if entries != w.centralCount || entries != w.localCount then Some(EntryCountMismatch)
    else if w.centralStart.None? then Some(RecordOutOfSequence)
    else if offset != w.centralStart.value || offset + size != w.centralEnd then Some(CentralDirectoryGeometry)
    else None
  }

  function DispatchFixed(w: Walk, kind: Record, fixed: seq<Byte>): Step
    requires |fixed| == FixedLen(kind)
  {
    match kind
    case RLocal =>
      var h := ParseLocal(fixed);
      BeginVariable(w.(localCount := w.localCount + 1), LocalPart(h), h.nameLen + h.extraLen)
    case RCentral =>
      var h := ParseCentral(fixed);
      BeginVariable(w.(centralCount := w.centralCount + 1), CentralPart(h), h.nameLen + h.extraLen + h.commentLen)
    case REnd =>
      var end := ParseEnd(fixed);
      var fault := ReconcileEnd(w, end);
      if fault.Some? then Stop(fault.value) else Go(SkipTo(w, end.commentLen, Complete), [], None)
    case RZip64End =>
      (match ParseZip64End(fixed)
       case Err(f) => Stop(f)
       case Ok(end) => Go(SkipTo(w.(zip64End := Some(end)), end.extensibleLen, Zip64EndSeen), [], None))
    case RZip64Locator => Go(w.(state := Signature([])), [], None)
  }

  function BeginVariable(w: Walk, part: Variable, total: nat): Step
    requires total == VariableLen(part)
  {
    if total == 0 then DispatchVariable(w, part, []) else Go(w.(state := VariablePart(part, total, [])), [], None)
  }

  function VariableLen(part: Variable): nat {
    match part
    case LocalPart(h) => h.nameLen + h.extraLen
    case CentralPart(h) => h.nameLen + h.extraLen + h.commentLen
  }

  function DispatchVariable(w: Walk, part: Variable, v: seq<Byte>): Step
    requires |v| == VariableLen(part)
  {
    match part
    case LocalPart(h) => EnterMember(w, h, v[..h.nameLen], v[h.nameLen..])
    case CentralPart(h) =>
      match CentralFacts(h, v[h.nameLen..h.nameLen + h.extraLen])
      case Err(f) => Stop(f)
      case Ok(located) =>
        var fault := Check(located.sizes, h.codec);
        if fault.Some? then Stop(fault.value)
        else if w.centralStart.None? then Stop(RecordOutOfSequence)
        else if located.offset >= w.centralStart.value then Stop(CentralOffsetOutOfRange)
        else Go(w.(state := Signature([])), [], None)
  }

  function EnterMember(w: Walk, h: LocalHeader, name: seq<Byte>, extra: seq<Byte>): Step {
    var zip64 := NeedsZip64(h);
    if h.hasDescriptor && h.compressed == 0 then
      Go(w.(state := DataScan(0, h.codec, zip64, [])),
         [LocalHeaderRead(name, h.codec, h.utf8, h.encrypted, None, 0)], None)
    else
      match LocalSizes(h, extra)
      case Err(f) => Stop(f)
      case Ok(sizes) =>
        var read := LocalHeaderRead(name, h.codec, h.utf8, h.encrypted, Some(sizes), h.crc);
        var large := if Gear.MIN_BYTES <= sizes.compressed then Some(LOCAL_FIXED + 4 + |name| + |extra|) else None;
        var fault := Check(sizes, h.codec);
        if fault.Some? then Stop(fault.value)
        else if sizes.compressed == 0 then
          Go(w.(state := Signature([])), [read, MemberEnd(sizes, h.crc)], large)
        else
          var descriptor := if h.hasDescriptor then Some(zip64) else None;
          Go(w.(state := Data(sizes.compressed, sizes.compressed, sizes.uncompressed, h.crc, h.codec, descriptor)), [read], large)
  }

  /** One member byte of a member whose compressed size is known. */
  function CountData(w: Walk, b: Byte): Step
    requires w.state.Data?
  {
    var d := w.state;
    if d.remaining > 1 then Go(w.(state := d.(remaining := d.remaining - 1)), [MemberData(b)], None)
    else if d.descriptor.Some? then
      Go(w.(state := Descriptor(d.descriptor.value, d.declared, d.codec, [])), [MemberData(b)], None)
    else
      Go(w.(state := Signature([])), [MemberData(b), MemberEnd(MemberSizes(d.declared, d.uncompressed), d.crc)], None)
  }

  /** The bytes are, as far as they go, a signed descriptor. */
  predicate Looks(pending: seq<Byte>) {
    |pending| < 4 || pending[..4] == DATA_DESCRIPTOR
  }

  /** The bytes are a descriptor whose compressed size is exactly the member bytes before it. */
  predicate Closes(zip64: bool, consumed: nat, pending: seq<Byte>) {
    && Looks(pending) && 4 + BodyLen(zip64) <= |pending|
    && BodySizes(zip64, pending[4..4 + BodyLen(zip64)]).compressed == consumed
  }

  /** The bytes may still become a descriptor. */
  predicate Waits(zip64: bool, pending: seq<Byte>) {
    Looks(pending) && |pending| < 4 + BodyLen(zip64)
  }

  /** The descriptor scan: judge the pending bytes, giving up their first to the member until they may be a descriptor. */
  function ScanPending(w: Walk, consumed: nat, codec: nat, zip64: bool, pending: seq<Byte>): (step: Step)
    ensures step.Go? ==> step.large == None && ValidState(step.next.state)
    decreases |pending|
  {
    if Closes(zip64, consumed, pending) then CloseMember(w, codec, zip64, pending[4..4 + BodyLen(zip64)])
    else if Waits(zip64, pending) then Go(w.(state := DataScan(consumed, codec, zip64, pending)), [], None)
    else After([MemberData(pending[0])], ScanPending(w, consumed + 1, codec, zip64, pending[1..]))
  }

  /** A descriptor body ends its member, if its size claims can hold. */
  function CloseMember(w: Walk, codec: nat, zip64: bool, body: seq<Byte>): Step
    requires |body| == BodyLen(zip64)
  {
    var sizes := BodySizes(zip64, body);
    match Check(sizes, codec)
    case Some(f) => Stop(f)
    case None => Go(w.(state := Signature([])), [MemberEnd(sizes, BodyCrc(body))], None)
  }

  /** A step with events before its own. */
  function After(events: seq<Event>, step: Step): Step {
    match step
    case Go(next, es, large) => Go(next, events + es, large)
    case Stop(f) => Stop(f)
  }

  /** The descriptor after a member of known size; its signature is optional. */
  function CloseDescriptor(w: Walk, zip64: bool, dataLen: nat, codec: nat, got: seq<Byte>): Step {
    var from := if 4 <= |got| && got[..4] == DATA_DESCRIPTOR then 4 else 0;
    if |got| < 4 || |got| < from + BodyLen(zip64) then
      Go(w.(state := Descriptor(zip64, dataLen, codec, got)), [], None)
    else
      var body := got[from..from + BodyLen(zip64)];
      if BodySizes(zip64, body).compressed != dataLen then Stop(DescriptorSizeMismatch)
      else CloseMember(w, codec, zip64, body)
  }

  predicate ValidState(s: State) {
    match s
    case Signature(got) => |got| < 4
    case Fixed(kind, fixed) => |fixed| < FixedLen(kind)
    case VariablePart(part, total, v) => total == VariableLen(part) && |v| < total
    case _ => true
  }

  function StepAt(w: Walk, b: Byte): Step
    requires ValidState(w.state)
  {
    var rest := w.(state := Signature([]));
    match w.state
    case Signature(got) =>
      if w.phase == Complete then Stop(TrailingBytes)
      else if |got| == 3 then DispatchSignature(rest, got + [b])
      else Go(w.(state := Signature(got + [b])), [], None)
    case Fixed(kind, fixed) =>
      if |fixed| + 1 == FixedLen(kind) then DispatchFixed(rest, kind, fixed + [b])
      else Go(w.(state := Fixed(kind, fixed + [b])), [], None)
    case VariablePart(part, total, v) =>
      if |v| + 1 == total then DispatchVariable(rest, part, v + [b])
      else Go(w.(state := VariablePart(part, total, v + [b])), [], None)
    case Data(_, _, _, _, _, _) => CountData(w, b)
    case DataScan(consumed, codec, zip64, pending) => ScanPending(rest, consumed, codec, zip64, pending + [b])
    case Descriptor(zip64, dataLen, codec, got) => CloseDescriptor(rest, zip64, dataLen, codec, got + [b])
    case Skip(left, andThen) =>
      Go(if left == 1 then rest.(phase := andThen) else w.(state := Skip(left - 1, andThen)), [], None)
  }

  function Consume(w: Walk, b: Byte): (step: Step)
    requires ValidState(w.state)
    ensures step.Go? ==> ValidState(step.next.state)
  {
    match StepAt(w, b)
    case Go(next, events, large) => Go(next.(offset := w.offset + 1), events, large)
    case Stop(f) => Stop(f)
  }

  // The walker itself: one fixed buffer, one variable buffer, a few counters.

  const FIXED_MAX: nat := 52

  datatype Collecting =
    | AtSignature(len: nat)
    | AtFixed(kind: Record, len: nat)
    | AtVariable(part: Variable, total: nat)
    | AtData(remaining: Pos, declared: nat, uncompressed: nat, crc: nat, codec: nat, descriptor: Option<bool>)
    | AtScan(consumed: nat, codec: nat, zip64: bool, pending: nat)
    | AtDescriptor(zip64: bool, dataLen: nat, codec: nat, len: nat)
    | AtSkip(left: Pos, andThen: Phase)

  class Walker {
    var state: Collecting
    var phase: Phase
    var offset: nat
    const fixed: array<Byte>
    var variable: seq<Byte>
    var localCount: nat
    var centralCount: nat
    var centralStart: Option<nat>
    var centralEnd: nat
    var zip64End: Option<Zip64EndRecord>

    ghost predicate Valid()
      reads this, fixed
    {
      && fixed.Length == FIXED_MAX
      && match state
         case AtSignature(len) => len < 4
         case AtFixed(kind, len) => len < FixedLen(kind)
         case AtVariable(part, total) => total == VariableLen(part) && |variable| < total
         case AtScan(_, _, zip64, pending) => pending < 4 + BodyLen(zip64)
         case AtDescriptor(zip64, _, _, len) => len < 4 + BodyLen(zip64)
         case _ => true
    }

    ghost function View(): Walk
      requires Valid()
      reads this, fixed
    {
      var s :=
        match state
        case AtSignature(len) => Signature(fixed[..len])
        case AtFixed(kind, len) => Fixed(kind, fixed[..len])
        case AtVariable(part, total) => VariablePart(part, total, variable)
        case AtData(remaining, declared, uncompressed, crc, codec, descriptor) =>
          Data(remaining, declared, uncompressed, crc, codec, descriptor)
        case AtScan(consumed, codec, zip64, pending) => DataScan(consumed, codec, zip64, fixed[..pending])
        case AtDescriptor(zip64, dataLen, codec, len) => Descriptor(zip64, dataLen, codec, fixed[..len])
        case AtSkip(left, andThen) => Skip(left, andThen);
      Book(s)
    }

    /** The walker's counters and phase, with a given state. */
    ghost function Book(s: State): Walk
      reads this
    {
      Walk(s, phase, offset, localCount, centralCount, centralStart, centralEnd, zip64End)
    }

    constructor ()
      ensures Valid() && View() == START && fresh(fixed)
    {
      fixed := new Byte[FIXED_MAX](_ => 0);
      state, phase, offset, variable := AtSignature(0), Members, 0, [];
      localCount, centralCount, centralStart, centralEnd, zip64End := 0, 0, None, 0, None;
    }

    predicate AtBoundary()
      requires Valid()
      reads this, fixed
      ensures AtBoundary() == AtMemberBoundary(View())
    {
      state == AtSignature(0) && phase == Members
    }

    predicate Finished()
      requires Valid()
      reads this, fixed
      ensures Finished() == MayFinish(View())
    {
      phase == Complete && state == AtSignature(0)
    }

    /** `step` is what this walker has just done, from a walk `before` it. */
    ghost predicate Did(step: Step, fault: Option<ZipFault>, events: seq<Event>, large: Option<nat>)
      requires step.Go? ==> Valid()
      reads this, fixed
    {
      match step
      case Go(next, es, l) => fault == None && View() == next && events == es && large == l
      case Stop(f) => fault == Some(f)
    }

    method ConsumeByte(b: Byte) returns (fault: Option<ZipFault>, events: seq<Event>, large: Option<nat>)
      requires Valid()
      modifies this, fixed
      ensures var step := Consume(old(View()), b);
              (step.Go? ==> Valid()) && Did(step, fault, events, large)
    {
      hide StepAt;
      fault, events, large := StepByte(b);
      offset := offset + 1;
    }

    method StepByte(b: Byte) returns (fault: Option<ZipFault>, events: seq<Event>, large: Option<nat>)
      requires Valid()
      modifies this, fixed
      ensures offset == old(offset)
      ensures var step := StepAt(old(View()), b);
              (step.Go? ==> Valid()) && Did(step, fault, events, large)
    {
      hide DispatchSignature, DispatchFixed, DispatchVariable, ScanPending, CloseDescriptor, CountData, VariableLen;
      fault, events, large := None, [], None;
      match state {
      case AtSignature(len) =>
        fault, events := SignatureByte(b);
      case AtFixed(kind, len) =>
        fixed[len] := b;
        assert fixed[..len + 1] == old(fixed[..len]) + [b];
        if len + 1 == FixedLen(kind) {
          fault, events, large := DispatchFixedHere(kind);
        } else {
          state := AtFixed(kind, len + 1);
        }
      case AtVariable(part, total) =>
        variable := variable + [b];
        if |variable| == total {
          fault, events, large := DispatchVariableHere(part);
        }
      case AtData(_, _, _, _, _, _) =>
        events := CountDataHere(b);
      case AtScan(consumed, codec, zip64, pending) =>
        fault, events := Scan(b, consumed, codec, zip64, pending);
      case AtDescriptor(zip64, dataLen, codec, len) =>
        fault, events := DescriptorByte(b);
      case AtSkip(left, andThen) =>
        assert fixed[..0] == [];
        if left == 1 {
          phase, state := andThen, AtSignature(0);
        } else {
          state := AtSkip(left - 1, andThen);
        }
      }
    }

    method SignatureByte(b: Byte) returns (fault: Option<ZipFault>, events: seq<Event>)
      requires Valid() && state.AtSignature?
      modifies this, fixed
      ensures offset == old(offset)
      ensures var step := StepAt(old(View()), b);
              (step.Go? ==> Valid()) && Did(step, fault, events, None)
    {
      hide DispatchSignature;
      fault, events := None, [];
      var len := state.len;
      if phase == Complete {
        return Some(TrailingBytes), [];
      }
      fixed[len] := b;
      assert fixed[..len + 1] == old(fixed[..len]) + [b];
      if len + 1 == 4 {
        fault, events := DispatchSignatureHere();
      } else {
        state := AtSignature(len + 1);
      }
    }

    method DescriptorByte(b: Byte) returns (fault: Option<ZipFault>, events: seq<Event>)
      requires Valid() && state.AtDescriptor?
      modifies this`state, fixed
      ensures var step := StepAt(old(View()), b);
              (step.Go? ==> Valid()) && Did(step, fault, events, None)
    {
      hide CloseDescriptor;
      var d := state;
      fixed[d.len] := b;
      assert fixed[..d.len + 1] == old(fixed[..d.len]) + [b];
      fault, events := TryCloseDescriptor(d.zip64, d.dataLen, d.codec, d.len + 1);
    }

    method CountDataHere(b: Byte) returns (events: seq<Event>)
      requires Valid() && state.AtData?
      modifies this`state
      ensures Valid() && Did(CountData(old(View()), b), None, events, None)
    {
      assert fixed[..0] == [];
      var d := state;
      events := [MemberData(b)];
      if d.remaining > 1 {
        state := d.(remaining := d.remaining - 1);
      } else if d.descriptor.Some? {
        state := AtDescriptor(d.descriptor.value, d.declared, d.codec, 0);
      } else {
        events := events + [MemberEnd(MemberSizes(d.declared, d.uncompressed), d.crc)];
        state := AtSignature(0);
      }
    }

    method DispatchSignatureHere() returns (fault: Option<ZipFault>, events: seq<Event>)
      requires fixed.Length == FIXED_MAX
      modifies this
      ensures offset == old(offset)
      ensures var step := DispatchSignature(old(Book(Signature([]))), old(fixed[..4]));
              (step.Go? ==> Valid()) && Did(step, fault, events, None)
    {
      events := [];
      var found := SignatureKind(fixed[..4]);
      if found.None? {
        return Some(UnknownSignature), [];
      }
      var kind := found.value;
      var recordStart := if offset >= 3 then offset - 3 else 0;
      match (kind, phase) {
      case (RLocal, Members) =>
      case (RLocal, _) =>
        return Some(MemberAfterCentralDirectory), [];
      case (RCentral, Members) =>
        phase, centralStart := Central, Some(recordStart);
        events := [CentralBegun];
      case (RCentral, Central) =>
      case (RZip64End, Members) =>
        events := [CentralBegun];
        BeginEndSequence(recordStart);
        phase := Zip64EndSeen;
      case (RZip64End, Central) =>
        BeginEndSequence(recordStart);
        phase := Zip64EndSeen;
      case (RZip64Locator, Zip64EndSeen) =>
        phase := LocatorSeen;
      case (REnd, Members) =>
        events := [CentralBegun];
        BeginEndSequence(recordStart);
      case (REnd, Central) =>
        BeginEndSequence(recordStart);
      case (REnd, LocatorSeen) =>
      case (_, _) =>
        return Some(RecordOutOfSequence), [];
      }
      state := AtFixed(kind, 0);
      assert fixed[..0] == [];
      fault := None;
    }

    method BeginEndSequence(recordStart: nat)
      modifies this`centralStart, this`centralEnd
      ensures centralStart == if old(centralStart).None? then Some(recordStart) else old(centralStart)
      ensures centralEnd == recordStart
    {
      if centralStart.None? {
        centralStart := Some(recordStart);
      }
      centralEnd := recordStart;
    }

    method SkipOver(n: nat, then_: Phase)
      requires fixed.Length == FIXED_MAX
      modifies this`state, this`phase
      ensures Valid() && View() == SkipTo(old(Book(Signature([]))), n, then_)
    {
      assert fixed[..0] == [];
      if n == 0 {
        phase, state := then_, AtSignature(0);
      } else {
        state := AtSkip(n, then_);
      }
    }

    method DispatchFixedHere(kind: Record) returns (fault: Option<ZipFault>, events: seq<Event>, large: Option<nat>)
      requires fixed.Length == FIXED_MAX
      modifies this
      ensures offset == old(offset)
      ensures var step := DispatchFixed(old(Book(Signature([]))), kind, old(fixed[..FixedLen(kind)]));
              (step.Go? ==> Valid()) && Did(step, fault, events, large)
    {
      hide ReconcileEnd, ParseLocal, ParseCentral, ParseEnd, ParseZip64End, DispatchVariable;
      fault, events, large := None, [], None;
      var record := fixed[..FixedLen(kind)];
      match kind
      case RLocal =>
        localCount := localCount + 1;
        fault, events, large := BeginVariableHere(LocalPart(ParseLocal(record)));
      case RCentral =>
        centralCount := centralCount + 1;
        fault, events, large := BeginVariableHere(CentralPart(ParseCentral(record)));
      case REnd =>
        var end := ParseEnd(record);
        fault := ReconcileEndHere(end);
        if fault.None? {
          SkipOver(end.commentLen, Complete);
        }
      case RZip64End =>
        var end := ParseZip64End(record);
        if end.Err? {
          return Some(end.fault), [], None;
        }
        zip64End := Some(end.value);
        SkipOver(end.value.extensibleLen, Zip64EndSeen);
      case RZip64Locator =>
        state := AtSignature(0);
        assert fixed[..0] == [];
    }

    method BeginVariableHere(part: Variable) returns (fault: Option<ZipFault>, events: seq<Event>, large: Option<nat>)
      requires fixed.Length == FIXED_MAX
      modifies this
      ensures offset == old(offset)
      ensures var step := BeginVariable(old(Book(Signature([]))), part, VariableLen(part));
              (step.Go? ==> Valid()) && Did(step, fault, events, large)
    {
      hide DispatchVariable;
      variable := [];
      state := AtVariable(part, VariableLen(part));
      fault, events, large := None, [], None;
      if VariableLen(part) == 0 {
        fault, events, large := DispatchVariableHere(part);
      }
    }

    method DispatchVariableHere(part: Variable) returns (fault: Option<ZipFault>, events: seq<Event>, large: Option<nat>)
      requires fixed.Length == FIXED_MAX && |variable| == VariableLen(part)
      modifies this
      ensures offset == old(offset)
      ensures var step := DispatchVariable(old(Book(Signature([]))), part, old(variable));
              (step.Go? ==> Valid()) && Did(step, fault, events, large)
    {
      hide Check, FindZip64, LocalSizes, CentralFacts;
      fault, events, large := None, [], None;
      assert fixed[..0] == [];
      match part
      case LocalPart(h) =>
        var name, extra := variable[..h.nameLen], variable[h.nameLen..];
        var zip64 := NeedsZip64(h);
        if h.hasDescriptor && h.compressed == 0 {
          events := [LocalHeaderRead(name, h.codec, h.utf8, h.encrypted, None, 0)];
          state := AtScan(0, h.codec, zip64, 0);
          return;
        }
        var claimed := LocalSizes(h, extra);
        if claimed.Err? {
          return Some(claimed.fault), [], None;
        }
        var sizes := claimed.value;
        events := [LocalHeaderRead(name, h.codec, h.utf8, h.encrypted, Some(sizes), h.crc)];
        if sizes.compressed >= Gear.MIN_BYTES {
          large := Some(LOCAL_FIXED + 4 + |variable|);
        }
        fault := Check(sizes, h.codec);
        if fault.Some? {
          return;
        }
        if sizes.compressed == 0 {
          events := events + [MemberEnd(sizes, h.crc)];
          state := AtSignature(0);
        } else {
          state := AtData(sizes.compressed, sizes.compressed, sizes.uncompressed, h.crc, h.codec,
                          if h.hasDescriptor then Some(zip64) else None);
        }
      case CentralPart(h) =>
        var facts := CentralFacts(h, variable[h.nameLen..h.nameLen + h.extraLen]);
        if facts.Err? {
          return Some(facts.fault), [], None;
        }
        fault := Check(facts.value.sizes, h.codec);
        if fault.Some? {
          return;
        }
        if centralStart.None? {
          return Some(RecordOutOfSequence), [], None;
        }
        if facts.value.offset >= centralStart.value {
          return Some(CentralOffsetOutOfRange), [], None;
        }
        state := AtSignature(0);
    }

    method ReconcileEndHere(end: EndRecord) returns (fault: Option<ZipFault>)
      ensures fault == ReconcileEnd(Book(Signature([])), end)
    {
      var entries, size, offset := end.entriesTotal, end.centralSize, end.centralOffset;
      if zip64End.Some? {
        if entries == MAX16 {
          entries := zip64End.value.entriesTotal;
        }
        if size == MAX32 {
          size := zip64End.value.centralSize;
        }
        if offset == MAX32 {
          offset := zip64End.value.centralOffset;
        }
      }
      if entries != centralCount || entries != localCount {
        return Some(EntryCountMismatch);
      }
      if centralStart.None? {
        return Some(RecordOutOfSequence);
      }
      if offset != centralStart.value || size != centralEnd - centralStart.value {
        return Some(CentralDirectoryGeometry);
      }
      fault := None;
    }

    /** A member byte of a member of unknown size: watch for the descriptor that covers exactly the bytes before it. */
    method Scan(b: Byte, consumed0: nat, codec: nat, zip64: bool, pending0: nat) returns (fault: Option<ZipFault>, events: seq<Event>)
      requires fixed.Length == FIXED_MAX && pending0 < 4 + BodyLen(zip64)
      modifies this`state, fixed
      ensures var step := ScanPending(old(Book(Signature([]))), consumed0, codec, zip64, old(fixed[..pending0]) + [b]);
              (step.Go? ==> Valid()) && Did(step, fault, events, None)
    {
      hide ScanPending, Check, BodySizes, BodyCrc, Looks, After, CloseMember;
      ghost var w := Book(Signature([]));
      fixed[pending0] := b;
      var consumed, pending := consumed0, pending0 + 1;
      events := [];
      ghost var all := ScanPending(w, consumed0, codec, zip64, fixed[..pending]);
      assert fixed[..pending] == old(fixed[..pending0]) + [b];
      AfterNothing(all);
      while true
        invariant 0 < pending <= 4 + BodyLen(zip64)
        invariant Book(Signature([])) == w
        invariant all == After(events, ScanPending(w, consumed, codec, zip64, fixed[..pending]))
        decreases pending
      {
        var head := fixed[..pending];
        ScanUnrolled(w, consumed, codec, zip64, head);
        if Looks(head) && pending >= 4 + BodyLen(zip64) {
          if BodySizes(zip64, head[4..]).compressed == consumed {
            var ended;
            fault, ended := CloseHere(codec, zip64, head[4..]);
            DidAfter(events, CloseMember(w, codec, zip64, head[4..]), fault, ended);
            events := events + ended;
            return;
          }
        } else if Looks(head) {
          break;
        }
        AfterAfter(events, [MemberData(head[0])], ScanPending(w, consumed + 1, codec, zip64, head[1..]));
        events := events + [MemberData(fixed[0])];
        ShiftDown(pending);
        assert fixed[..pending - 1] == head[1..];
        pending := pending - 1;
        consumed := consumed + 1;
        if pending == 0 {
          ScanNothing(w, consumed, codec, zip64);
          break;
        }
      }
      AfterWait(w, events, consumed, codec, zip64, fixed[..pending]);
      state := AtScan(consumed, codec, zip64, pending);
      fault := None;
    }

    /** A descriptor body ends the member. */
    method CloseHere(codec: nat, zip64: bool, body: seq<Byte>) returns (fault: Option<ZipFault>, events: seq<Event>)
      requires fixed.Length == FIXED_MAX && |body| == BodyLen(zip64)
      modifies this`state
      ensures var step := CloseMember(old(Book(Signature([]))), codec, zip64, body);
              (step.Go? ==> Valid()) && Did(step, fault, events, None)
    {
      hide Check;
      var sizes := BodySizes(zip64, body);
      fault, events := Check(sizes, codec), [];
      if fault.None? {
        events := [MemberEnd(sizes, BodyCrc(body))];
        state := AtSignature(0);
        assert fixed[..0] == [];
      }
    }

    lemma DidAfter(events: seq<Event>, step: Step, fault: Option<ZipFault>, ended: seq<Event>)
      requires (step.Go? ==> Valid()) && Did(step, fault, ended, None)
      ensures Did(After(events, step), fault, events + ended, None)
    {
    }

    /** Move the pending bytes one place down. */
    method ShiftDown(n: nat)
      requires 0 < n <= fixed.Length
      modifies fixed
      ensures fixed[..n - 1] == old(fixed[1..n])
    {
      for i := 0 to n - 1
        invariant fixed[..i] == old(fixed[1..i + 1])
        invariant forall j :: i < j < n ==> fixed[j] == old(fixed[j])
      {
        fixed[i] := fixed[i + 1];
      }
    }

    /** The descriptor after a member of known size, `len` bytes of it in. */
    method TryCloseDescriptor(zip64: bool, dataLen: nat, codec: nat, len: nat) returns (fault: Option<ZipFault>, events: seq<Event>)
      requires fixed.Length == FIXED_MAX && 0 < len <= 4 + BodyLen(zip64)
      modifies this`state
      ensures var step := CloseDescriptor(old(Book(Signature([]))), zip64, dataLen, codec, fixed[..len]);
              (step.Go? ==> Valid()) && Did(step, fault, events, None)
    {
      hide CloseMember;
      fault, events := None, [];
      assert 4 <= len ==> fixed[..len][..4] == fixed[..4];
      var from := if len >= 4 && fixed[..4] == DATA_DESCRIPTOR then 4 else 0;
      if len < 4 || len < from + BodyLen(zip64) {
        state := AtDescriptor(zip64, dataLen, codec, len);
        return;
      }
      var body := fixed[from..from + BodyLen(zip64)];
      assert fixed[..len][from..from + BodyLen(zip64)] == body;
      if BodySizes(zip64, body).compressed != dataLen {
        return Some(DescriptorSizeMismatch), [];
      }
      fault, events := CloseHere(codec, zip64, body);
    }
  }

  /** One judgement of the descriptor scan. */
  lemma ScanUnrolled(w: Walk, consumed: nat, codec: nat, zip64: bool, pending: seq<Byte>)
    requires |pending| <= 4 + BodyLen(zip64)
    ensures var step := ScanPending(w, consumed, codec, zip64, pending);
            && (Looks(pending) && |pending| < 4 + BodyLen(zip64) ==>
                  step == Go(w.(state := DataScan(consumed, codec, zip64, pending)), [], None))
            && (Looks(pending) && |pending| == 4 + BodyLen(zip64) && BodySizes(zip64, pending[4..]).compressed == consumed ==>
                  step == CloseMember(w, codec, zip64, pending[4..]))
            && (!Looks(pending) || (|pending| == 4 + BodyLen(zip64) && BodySizes(zip64, pending[4..]).compressed != consumed) ==>
                  pending != [] &&
                  step == After([MemberData(pending[0])], ScanPending(w, consumed + 1, codec, zip64, pending[1..])))
  {
    if |pending| == 4 + BodyLen(zip64) {
      assert pending[4..4 + BodyLen(zip64)] == pending[4..];
    }
  }

  lemma ScanNothing(w: Walk, consumed: nat, codec: nat, zip64: bool)
    ensures ScanPending(w, consumed, codec, zip64, []) == Go(w.(state := DataScan(consumed, codec, zip64, [])), [], None)
  {
  }

  lemma AfterAfter(x: seq<Event>, y: seq<Event>, step: Step)
    ensures After(x, After(y, step)) == After(x + y, step)
  {
    if step.Go? {
      assert x + (y + step.events) == x + y + step.events;
    }
  }

  lemma AfterWait(w: Walk, events: seq<Event>, consumed: nat, codec: nat, zip64: bool, pending: seq<Byte>)
    ensures After(events, Go(w.(state := DataScan(consumed, codec, zip64, pending)), [], None)) ==
            Go(w.(state := DataScan(consumed, codec, zip64, pending)), events, None)
  {
    assert events + [] == events;
  }

  lemma AfterNothing(step: Step)
    ensures After([], step) == step
  {
    if step.Go? {
      assert [] + step.events == step.events;
    }
  }
}
