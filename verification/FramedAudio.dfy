/** The framed-audio walker and chunker (src/chunker/framed_audio/walker.rs, chunker.rs). */
module FramedAudio {
  import opened Bytes
  import opened Gear
  import opened AudioFrames

  datatype Family = Mp3 | Adts | Flac
  datatype After = AtBoundary | AtFlacMeta | AtFlacAudio

  // The walker on values: each state carries the bytes it has collected.

  datatype State =
    | Sniff(got: seq<Byte>)
    | Id3Header(tag: seq<Byte>)
    | FrameHeader(header: seq<Byte>)
    | FramePayload(remaining: Pos)
    | Trailer(len: nat)
    | Complete
    | FlacMetaHeader(meta: seq<Byte>)
    | Opaque(left: Pos, andThen: After)
    | FlacAudio

  datatype Walk = Walk(state: State, family: Option<Family>, seenFrame: bool)
  datatype Step = Go(next: Walk) | Stop(fault: Fault)

  const TRAILER_LEN: nat := 128
  const TRAILER_TAG: seq<Byte> := [84, 65, 71]
  const FLAC_MAGIC: seq<Byte> := [102, 76, 97, 67]
  const START := Walk(Sniff([]), None, false)

  predicate AtSeam(w: Walk) {
    w.state == Sniff([]) || w.state == FlacMetaHeader([])
  }

  predicate InOpaque(w: Walk) {
    w.state.Opaque? || w.state.FlacAudio?
  }

  predicate MayFinish(w: Walk) {
    (w.state == Sniff([]) && w.seenFrame) || w.state.Complete? || w.state.FlacAudio?
  }

  function Arrive(after: After): State {
    match after
    case AtBoundary => Sniff([])
    case AtFlacMeta => FlacMetaHeader([])
    case AtFlacAudio => FlacAudio
  }

  function BeginOpaque(n: nat, after: After): State {
    if n == 0 then Arrive(after) else Opaque(n, after)
  }

  function HeaderNeeded(w: Walk): nat {
    if w.family == Some(Adts) then ADTS_HEADER else MPEG_HEADER
  }

  /** The length of the frame a whole header begins, by the family the stream locked into. */
  function FrameLen(w: Walk, h: seq<Byte>): Length
    requires |h| == HeaderNeeded(w)
  {
    if w.family == Some(Adts) then AdtsFrameLen(h) else MpegFrameLen(h)
  }

  lemma FrameBounds(w: Walk, h: seq<Byte>)
    requires |h| == HeaderNeeded(w) && FrameLen(w, h).Len?
    ensures HeaderNeeded(w) <= FrameLen(w, h).bytes <= 8191
  {
    hide MpegFrameLen, AdtsFrameLen;
    if w.family == Some(Adts) {
      AdtsFrameBounds(h);
    } else {
      MpegFrameBounds(h);
    }
  }

  predicate ValidWalk(w: Walk) {
    match w.state
    case Sniff(got) => |got| < 4 && (got != [] ==> (got[0] == 0xFF ==> |got| == 1) && (got[0] == 73 ==> |got| < 3))
    case Id3Header(tag) => 3 <= |tag| < ID3_HEADER
    case FrameHeader(h) => 2 <= |h| < HeaderNeeded(w)
    case Trailer(len) => 1 <= len < TRAILER_LEN
    case FlacMetaHeader(meta) => |meta| < FLAC_HEADER
    case _ => true
  }

  /** Decide what the bytes at a boundary begin. */
  function SniffByte(w: Walk, got: seq<Byte>): (step: Step)
    requires 0 < |got| <= 4 && (got[0] == 0xFF ==> |got| <= 2) && (got[0] == 73 ==> |got| <= 3)
    ensures step.Go? ==> ValidWalk(step.next)
  {
    var b := got[|got| - 1];
    if got[0] == 0xFF then
      if |got| == 1 then Go(w.(state := Sniff(got)))
      else if b < 0xE0 then Stop(BadFrameSync)
      else
        var locked := if w.family.None? then Some(if b / 2 % 4 == 0 then Adts else Mp3) else w.family;
        Go(w.(state := FrameHeader(got), family := locked))
    else if got[0] == 73 then
      Go(w.(state := if |got| < 3 then Sniff(got) else Id3Header(got)))
    else if got[0] == 84 && (w.family == Some(Mp3) || w.family == Some(Adts)) then
      Go(w.(state := Trailer(1)))
    else if got[0] == 102 && w.family.None? then
      if |got| < 4 then Go(w.(state := Sniff(got)))
      else if got[..4] != FLAC_MAGIC then Stop(NotFramedAudio)
      else Go(w.(state := FlacMetaHeader([]), family := Some(Flac)))
    else Stop(if w.family.None? then NotFramedAudio else BadFrameSync)
  }

  /** A whole frame header is in: the rest of the frame is counted. */
  function EnterFrame(w: Walk, h: seq<Byte>): (step: Step)
    requires |h| == HeaderNeeded(w)
    ensures step.Go? ==> ValidWalk(step.next)
  {
    match FrameLen(w, h)
    case Bad(f) => Stop(f)
    case Len(n) =>
      FrameBounds(w, h);
      Go(w.(state := if n == |h| then Sniff([]) else FramePayload(n - |h|), seenFrame := true))
  }

  function TagByte(w: Walk, tag: seq<Byte>): (step: Step)
    requires 3 < |tag| <= ID3_HEADER
    ensures step.Go? ==> ValidWalk(step.next)
  {
    if |tag| < ID3_HEADER then Go(w.(state := Id3Header(tag)))
    else
      match Id3BodyLen(tag)
      case Bad(f) => Stop(f)
      case Len(n) => Go(w.(state := BeginOpaque(n, AtBoundary)))
  }

  function MetaByte(w: Walk, meta: seq<Byte>): (step: Step)
    requires 0 < |meta| <= FLAC_HEADER
    ensures step.Go? ==> ValidWalk(step.next)
  {
    if |meta| < FLAC_HEADER then Go(w.(state := FlacMetaHeader(meta)))
    else
      match FlacBlock(meta, !w.seenFrame)
      case BadBlock => Stop(BadMetadataBlock)
      case Block(last, n) => Go(w.(state := BeginOpaque(n, if last then AtFlacAudio else AtFlacMeta), seenFrame := true))
  }

  function FrameByte(w: Walk, h: seq<Byte>): (step: Step)
    requires 2 < |h| <= HeaderNeeded(w)
    ensures step.Go? ==> ValidWalk(step.next)
  {
    if |h| < HeaderNeeded(w) then Go(w.(state := FrameHeader(h))) else EnterFrame(w, h)
  }

  function Consume(w: Walk, b: Byte): (step: Step)
    requires ValidWalk(w)
    ensures step.Go? ==> ValidWalk(step.next)
  {
    var rest := w.(state := Complete);
    match w.state
    case Sniff(got) => SniffByte(rest, got + [b])
    case Id3Header(tag) => TagByte(rest, tag + [b])
    case FrameHeader(h) => FrameByte(rest, h + [b])
    case FramePayload(remaining) => Go(w.(state := if remaining == 1 then Sniff([]) else FramePayload(remaining - 1)))
    case Trailer(len) =>
      if len < 3 && b != TRAILER_TAG[len] then Stop(BadTag)
      else Go(w.(state := if len + 1 == TRAILER_LEN then Complete else Trailer(len + 1)))
    case Complete => Stop(TrailingBytes)
    case FlacMetaHeader(meta) => MetaByte(rest, meta + [b])
    case Opaque(left, andThen) => Go(w.(state := if left == 1 then Arrive(andThen) else Opaque(left - 1, andThen)))
    case FlacAudio => Go(w)
  }

  // The walker itself: one small header buffer.

  const HEADER_MAX: nat := 10

  datatype Collecting =
    | AtSniff(len: nat)
    | AtId3Header(len: nat)
    | AtFrameHeader(len: nat)
    | AtFramePayload(remaining: Pos)
    | AtTrailer(len: nat)
    | AtComplete
    | AtFlacMetaHeader(len: nat)
    | AtOpaque(left: Pos, andThen: After)
    | AtFlacAudioRegion

  class Walker {
    var state: Collecting
    const header: array<Byte>
    var family: Option<Family>
    var offset: nat
    var seenFrame: bool

    ghost predicate Collected()
      reads this, header
    {
      && header.Length == HEADER_MAX
      && match state
         case AtSniff(len) => len < 4
         case AtId3Header(len) => len < HEADER_MAX
         case AtFrameHeader(len) => len < HEADER_MAX
         case AtFlacMetaHeader(len) => len < 4
         case _ => true
    }

    ghost function View(): Walk
      requires Collected()
      reads this, header
    {
      var s :=
        match state
        case AtSniff(len) => Sniff(header[..len])
        case AtId3Header(len) => Id3Header(header[..len])
        case AtFrameHeader(len) => FrameHeader(header[..len])
        case AtFramePayload(remaining) => FramePayload(remaining)
        case AtTrailer(len) => Trailer(len)
        case AtComplete => Complete
        case AtFlacMetaHeader(len) => FlacMetaHeader(header[..len])
        case AtOpaque(left, andThen) => Opaque(left, andThen)
        case AtFlacAudioRegion => FlacAudio;
      Walk(s, family, seenFrame)
    }

    ghost predicate Valid()
      reads this, header
    {
      Collected() && ValidWalk(View())
    }

    constructor ()
      ensures Valid() && View() == START && fresh(header)
    {
      header := new Byte[HEADER_MAX](_ => 0);
      state, family, offset, seenFrame := AtSniff(0), None, 0, false;
    }

    predicate Seam()
      requires Valid()
      reads this, header
      ensures Seam() == AtSeam(View())
    {
      state == AtSniff(0) || state == AtFlacMetaHeader(0)
    }

    predicate OpaqueRegion()
      requires Valid()
      reads this, header
      ensures OpaqueRegion() == InOpaque(View())
    {
      state.AtOpaque? || state.AtFlacAudioRegion?
    }

    predicate Finished()
      requires Valid()
      reads this, header
      ensures Finished() == MayFinish(View())
    {
      (state == AtSniff(0) && seenFrame) || state.AtComplete? || state.AtFlacAudioRegion?
    }

    /** `step` is what this walker has just done. */
    ghost predicate Did(step: Step, fault: Option<Fault>)
      reads this, header
    {
      match step
      case Go(next) => fault == None && Collected() && View() == next
      case Stop(f) => fault == Some(f)
    }

    method ConsumeByte(b: Byte) returns (fault: Option<Fault>)
      requires Valid()
      modifies this, header
      ensures var step := Consume(old(View()), b);
              (step.Go? ==> Valid()) && Did(step, fault)
    {
      fault := StepByte(b);
      offset := offset + 1;
    }

    method StepByte(b: Byte) returns (fault: Option<Fault>)
      requires Valid()
      modifies this, header
      ensures offset == old(offset)
      ensures var step := Consume(old(View()), b);
              (step.Go? ==> Valid()) && Did(step, fault)
    {
      hide SniffByte, TagByte, FrameByte, MetaByte;
      fault := None;
      match state {
        case AtSniff(len) =>
          header[len] := b;
          assert header[..len + 1] == old(header[..len]) + [b];
          fault := SniffHere(len + 1);
        case AtId3Header(len) =>
          header[len] := b;
          assert header[..len + 1] == old(header[..len]) + [b];
          fault := TagHere(len + 1);
        case AtFrameHeader(len) =>
          header[len] := b;
          assert header[..len + 1] == old(header[..len]) + [b];
          fault := FrameHere(len + 1);
        case AtFramePayload(remaining) =>
          assert header[..0] == [];
          state := if remaining == 1 then AtSniff(0) else AtFramePayload(remaining - 1);
        case AtTrailer(len) =>
          if len < 3 && b != TRAILER_TAG[len] {
            return Some(BadTag);
          }
          state := if len + 1 == TRAILER_LEN then AtComplete else AtTrailer(len + 1);
        case AtComplete =>
          fault := Some(TrailingBytes);
        case AtFlacMetaHeader(len) =>
          header[len] := b;
          assert header[..len + 1] == old(header[..len]) + [b];
          fault := MetaHere(len + 1);
        case AtOpaque(left, andThen) =>
          if left == 1 {
            ArriveHere(andThen);
          } else {
            state := AtOpaque(left - 1, andThen);
          }
        case AtFlacAudioRegion =>
      }
    }

    method TagHere(len: nat) returns (fault: Option<Fault>)
      requires header.Length == HEADER_MAX && 3 < len <= ID3_HEADER
      modifies this`state
      ensures Did(TagByte(old(Walk(Complete, family, seenFrame)), header[..len]), fault)
    {
      hide Id3BodyLen;
      fault := None;
      if len < HEADER_MAX {
        state := AtId3Header(len);
        return;
      }
      var body := ReadId3BodyLen(header[..len]);
      if body.Bad? {
        return Some(body.fault);
      }
      BeginOpaqueHere(body.bytes, AtBoundary);
    }

    method MetaHere(len: nat) returns (fault: Option<Fault>)
      requires header.Length == HEADER_MAX && 0 < len <= FLAC_HEADER
      modifies this`state, this`seenFrame
      ensures Did(MetaByte(old(Walk(Complete, family, seenFrame)), header[..len]), fault)
    {
      hide FlacBlock;
      fault := None;
      if len < FLAC_HEADER {
        state := AtFlacMetaHeader(len);
        return;
      }
      var block := FlacBlock(header[..len], !seenFrame);
      if block.BadBlock? {
        return Some(BadMetadataBlock);
      }
      seenFrame := true;
      BeginOpaqueHere(block.length, if block.last then AtFlacAudio else AtFlacMeta);
    }

    method SniffHere(len: nat) returns (fault: Option<Fault>)
      requires header.Length == HEADER_MAX && 0 < len <= 4
      requires (header[0] == 0xFF ==> len <= 2) && (header[0] == 73 ==> len <= 3)
      modifies this`state, this`family
      ensures Did(SniffByte(old(Walk(Complete, family, seenFrame)), header[..len]), fault)
    {
      fault := None;
      assert header[..0] == [];
      var b := header[len - 1];
      if header[0] == 0xFF {
        if len == 1 {
          state := AtSniff(1);
          return;
        }
        if b < 0xE0 {
          return Some(BadFrameSync);
        }
        if family.None? {
          family := Some(if b / 2 % 4 == 0 then Adts else Mp3);
        }
        state := AtFrameHeader(2);
      } else if header[0] == 73 {
        state := if len < 3 then AtSniff(len) else AtId3Header(3);
      } else if header[0] == 84 && (family == Some(Mp3) || family == Some(Adts)) {
        state := AtTrailer(1);
      } else if header[0] == 102 && family.None? {
        if len < 4 {
          state := AtSniff(len);
          return;
        }
        assert header[..len][..4] == header[..4];
        if header[..4] != FLAC_MAGIC {
          return Some(NotFramedAudio);
        }
        family := Some(Flac);
        state := AtFlacMetaHeader(0);
      } else {
        fault := Some(if family.None? then NotFramedAudio else BadFrameSync);
      }
    }

    method FrameHere(len: nat) returns (fault: Option<Fault>)
      requires header.Length == HEADER_MAX && 2 < len
      requires var needed := if family == Some(Adts) then ADTS_HEADER else MPEG_HEADER; len <= needed
      modifies this`state, this`seenFrame
      ensures Did(FrameByte(old(Walk(Complete, family, seenFrame)), header[..len]), fault)
    {
      hide MpegFrameLen, AdtsFrameLen;
      fault := None;
      assert header[..0] == [];
      var needed := if family == Some(Adts) then ADTS_HEADER else MPEG_HEADER;
      if len < needed {
        state := AtFrameHeader(len);
        return;
      }
      var r := if family == Some(Adts) then AdtsFrameLen(header[..ADTS_HEADER]) else MpegFrameLen(header[..MPEG_HEADER]);
      if r.Bad? {
        return Some(r.fault);
      }
      FrameBounds(Walk(Complete, family, seenFrame), header[..len]);
      seenFrame := true;
      var remaining: nat := r.bytes - needed;
      state := if remaining == 0 then AtSniff(0) else AtFramePayload(remaining);
    }

    method BeginOpaqueHere(n: nat, after: After)
      requires header.Length == HEADER_MAX
      modifies this`state
      ensures Collected() && View() == Walk(BeginOpaque(n, after), family, seenFrame)
    {
      if n == 0 {
        ArriveHere(after);
      } else {
        state := AtOpaque(n, after);
      }
    }

    method ArriveHere(after: After)
      requires header.Length == HEADER_MAX
      modifies this`state
      ensures Collected() && View() == Walk(Arrive(after), family, seenFrame)
    {
      assert header[..0] == [];
      match after {
        case AtBoundary => state := AtSniff(0);
        case AtFlacMeta => state := AtFlacMetaHeader(0);
        case AtFlacAudio => state := AtFlacAudioRegion;
      }
    }
  }

  // Runs of the walker.

  function Run(w: Walk, s: seq<Byte>): (r: Option<Walk>)
    requires ValidWalk(w)
    ensures r.Some? ==> ValidWalk(r.value)
  {
    if s == [] then Some(w)
    else
      match Run(w, s[..|s| - 1])
      case None => None
      case Some(mid) =>
        match Consume(mid, s[|s| - 1])
        case Stop(_) => None
        case Go(next) => Some(next)
  }

  lemma RunOne(w: Walk, s: seq<Byte>, k: nat)
    requires ValidWalk(w) && k < |s| && Run(w, s[..k]).Some?
    ensures Run(w, s[..k + 1]) == match Consume(Run(w, s[..k]).value, s[k]) case Stop(_) => None case Go(next) => Some(next)
  {
    hide Consume;
    assert s[..k + 1][..k] == s[..k];
  }

  /** A frame: two sync bytes, a header that fixes its length, and exactly the bytes that length says. */
  predicate IsFrame(w: Walk, frame: seq<Byte>) {
    && 2 <= |frame| && frame[0] == 0xFF && 0xE0 <= frame[1]
    && var locked := Locked(w, frame[1]);
       HeaderNeeded(locked) <= |frame| && FrameLen(locked, frame[..HeaderNeeded(locked)]) == Len(|frame|)
  }

  /** The family a frame's second byte locks an unlocked stream into. */
  function Locked(w: Walk, b: Byte): Walk {
    w.(family := if w.family.None? then Some(if b / 2 % 4 == 0 then Adts else Mp3) else w.family)
  }

  /** Where the walker is `k` bytes into a frame. */
  function Framing(w: Walk, frame: seq<Byte>, k: nat): Walk
    requires IsFrame(w, frame) && k <= |frame|
  {
    var locked := Locked(w, frame[1]);
    if k == 0 then w
    else if k == 1 then w.(state := Sniff(frame[..1]))
    else if k < HeaderNeeded(locked) then locked.(state := FrameHeader(frame[..k]))
    else locked.(state := if k == |frame| then Sniff([]) else FramePayload(|frame| - k), seenFrame := true)
  }

  lemma FramingStep(w: Walk, frame: seq<Byte>, k: nat)
    requires w.state == Sniff([]) && IsFrame(w, frame) && k < |frame|
    ensures ValidWalk(Framing(w, frame, k)) && Consume(Framing(w, frame, k), frame[k]) == Go(Framing(w, frame, k + 1))
  {
    hide MpegFrameLen, AdtsFrameLen;
    assert frame[..k] + [frame[k]] == frame[..k + 1];
    assert frame[..1] == [frame[0]] && frame[..2] == [frame[0], frame[1]] && [] + [frame[0]] == frame[..1];
  }

  /** From a boundary the walker takes exactly a frame's bytes, and is at no seam and in no opaque region inside it. */
  lemma {:induction false} FrameRuns(w: Walk, frame: seq<Byte>, k: nat)
    requires w.state == Sniff([]) && IsFrame(w, frame) && k <= |frame|
    ensures Run(w, frame[..k]) == Some(Framing(w, frame, k))
    ensures 0 < k < |frame| ==> !AtSeam(Framing(w, frame, k)) && !InOpaque(Framing(w, frame, k))
    ensures k == |frame| ==> AtSeam(Framing(w, frame, k))
  {
    hide Consume, IsFrame, FrameLen;
    if k == 0 {
      assert frame[..0] == [];
      FrameNonempty(w, frame);
    } else {
      FrameRuns(w, frame, k - 1);
      FramingStep(w, frame, k - 1);
      RunOne(w, frame, k - 1);
      FrameNonempty(w, frame);
    }
  }

  lemma FrameNonempty(w: Walk, frame: seq<Byte>)
    requires IsFrame(w, frame)
    ensures 2 <= |frame| && HeaderNeeded(Locked(w, frame[1])) <= |frame|
  {
    hide MpegFrameLen, AdtsFrameLen;
  }

  // The chunker.

  const FORCED_SEAM_LIMIT: nat := MAX_BYTES - 8192
  const FRAME_STRICT: bv64 := 0xFE00_0000_0000_0000
  const FRAME_RELAXED: bv64 := 0xF800_0000_0000_0000

  predicate CutAtSeam(t: Table, buffer: seq<Byte>) {
    && MIN_BYTES <= |buffer|
    && (FORCED_SEAM_LIMIT <= |buffer| || Cuts(Hash(t, buffer), if |buffer| < TARGET_BYTES then FRAME_STRICT else FRAME_RELAXED))
  }

  predicate CutInOpaque(t: Table, buffer: seq<Byte>) {
    && MIN_BYTES <= |buffer|
    && (MAX_BYTES <= |buffer| || Cuts(Hash(t, buffer), if |buffer| < TARGET_BYTES then GENERIC_STRICT else GENERIC_RELAXED))
  }

  datatype Chunking = Chunking(walk: Walk, buffer: seq<Byte>)
  datatype Fed = Fed(next: Chunking, chunks: seq<seq<Byte>>) | Faulted(before: seq<seq<Byte>>, fault: Fault)

  const FRESH := Chunking(START, [])

  /** A byte: a cut before it where a unit starts, the byte, a cut after it inside opaque bytes. */
  function Feed(t: Table, c: Chunking, b: Byte): (r: Fed)
    requires ValidWalk(c.walk)
    ensures r.Fed? ==> ValidWalk(r.next.walk)
  {
    var cut := AtSeam(c.walk) && c.buffer != [] && CutAtSeam(t, c.buffer);
    var first := if cut then [c.buffer] else [];
    match Consume(c.walk, b)
    case Stop(f) => Faulted(first, f)
    case Go(next) =>
      var buffer := (if cut then [] else c.buffer) + [b];
      if InOpaque(next) && CutInOpaque(t, buffer) then Fed(Chunking(next, []), first + [buffer])
      else Fed(Chunking(next, buffer), first)
  }

  function FeedAll(t: Table, c: Chunking, s: seq<Byte>): (r: Fed)
    requires ValidWalk(c.walk)
    ensures r.Fed? ==> ValidWalk(r.next.walk)
  {
    if s == [] then Fed(c, [])
    else
      match FeedAll(t, c, s[..|s| - 1])
      case Faulted(before, f) => Faulted(before, f)
      case Fed(mid, chunks) =>
        match Feed(t, mid, s[|s| - 1])
        case Faulted(more, f) => Faulted(chunks + more, f)
        case Fed(next, more) => Fed(next, chunks + more)
  }

  /** One byte brings at most one chunk: what a seam cut leaves is too short to be cut again. */
  lemma OneChunkPerByte(t: Table, c: Chunking, b: Byte)
    requires ValidWalk(c.walk)
    ensures var r := Feed(t, c, b); |if r.Fed? then r.chunks else r.before| <= 1
  {
    hide Consume, InOpaque, CutAtSeam, AtSeam;
  }

  datatype Problem = StreamRejected | Malformed(fault: Fault)

  class FramedAudioChunker {
    var walker: Walker
    const gear: GearHash
    var buffer: seq<Byte>
    var rejected: bool

    ghost predicate Valid()
      reads this, walker, walker.header, gear
    {
      !rejected ==> walker.Valid() && gear.hash == Hash(gear.table, buffer)
    }

    ghost function View(): Chunking
      requires Valid() && !rejected
      reads this, walker, walker.header, gear
    {
      Chunking(walker.View(), buffer)
    }

    constructor (table: Table)
      ensures Valid() && !rejected && View() == FRESH && gear.table == table
      ensures fresh(walker) && fresh(walker.header) && fresh(gear)
    {
      walker := new Walker();
      gear := new GearHash(table);
      buffer, rejected := [], false;
    }

    predicate SeamCut()
      requires Valid() && !rejected
      reads this, walker, walker.header, gear
      ensures SeamCut() == CutAtSeam(gear.table, buffer)
    {
      var len := |buffer|;
      if len < MIN_BYTES then false
      else if len >= FORCED_SEAM_LIMIT then true
      else Cuts(gear.hash, if len < TARGET_BYTES then FRAME_STRICT else FRAME_RELAXED)
    }

    predicate OpaqueCut()
      requires gear.hash == Hash(gear.table, buffer)
      reads this, gear
      ensures OpaqueCut() == CutInOpaque(gear.table, buffer)
    {
      var len := |buffer|;
      if len < MIN_BYTES then false
      else if len >= MAX_BYTES then true
      else Cuts(gear.hash, if len < TARGET_BYTES then GENERIC_STRICT else GENERIC_RELAXED)
    }

    method EmitBuffer() returns (chunk: seq<Byte>)
      modifies this`buffer, gear
      ensures chunk == old(buffer) && buffer == [] && gear.hash == Hash(gear.table, [])
    {
      chunk := buffer;
      buffer := [];
      gear.Reset();
    }

    method PushByte(b: Byte) returns (chunks: seq<seq<Byte>>, problem: Option<Problem>)
      requires Valid() && !rejected
      modifies this`buffer, this`rejected, walker, walker.header, gear
      ensures Valid()
      ensures match Feed(gear.table, old(View()), b)
              case Faulted(before, f) => rejected && chunks == before && problem == Some(Malformed(f))
              case Fed(next, all) => !rejected && View() == next && chunks == all && problem == None
    {
      hide Consume, CutAtSeam, CutInOpaque, FoldFrom;
      chunks, problem := [], None;
      if walker.Seam() && buffer != [] && SeamCut() {
        var chunk := EmitBuffer();
        chunks := [chunk];
      }
      var fault := walker.ConsumeByte(b);
      if fault.Some? {
        rejected, buffer := true, [];
        return chunks, Some(Malformed(fault.value));
      }
      HashPush(gear.table, buffer, b);
      buffer := buffer + [b];
      gear.Update(b);
      if walker.OpaqueRegion() && OpaqueCut() {
        var chunk := EmitBuffer();
        chunks := chunks + [chunk];
      }
    }

    method PushWindow(window: seq<Byte>) returns (chunks: seq<seq<Byte>>, problem: Option<Problem>)
      requires Valid()
      modifies this`buffer, this`rejected, walker, walker.header, gear
      ensures Valid()
      ensures old(rejected) ==> rejected && chunks == [] && problem == Some(StreamRejected)
      ensures !old(rejected) ==>
                match FeedAll(gear.table, old(View()), window)
                case Faulted(before, f) => rejected && chunks == before && problem == Some(Malformed(f))
                case Fed(next, all) => !rejected && View() == next && chunks == all && problem == None
    {
      hide Feed;
      chunks := [];
      if rejected {
        return [], Some(StreamRejected);
      }
      for i := 0 to |window|
        invariant Valid() && !rejected
        invariant FeedAll(gear.table, old(View()), window[..i]) == Fed(View(), chunks)
      {
        assert window[..i + 1][..i] == window[..i];
        var one;
        one, problem := PushByte(window[i]);
        chunks := chunks + one;
        if problem.Some? {
          FaultsFrom(gear.table, old(View()), window, i + 1);
          return;
        }
      }
      assert window[..|window|] == window;
      problem := None;
    }

    method Finish() returns (chunks: seq<seq<Byte>>, problem: Option<Problem>)
      requires Valid()
      modifies this, gear
      ensures Valid() && (walker == old(walker) || (fresh(walker) && fresh(walker.header)))
      ensures if old(rejected) then rejected && chunks == [] && problem == Some(StreamRejected)
              else if !MayFinish(old(View()).walk) then rejected && chunks == [] && problem == Some(Malformed(Truncated))
              else !rejected && problem == None && View() == FRESH && chunks == if old(buffer) == [] then [] else [old(buffer)]
    {
      chunks := [];
      if rejected {
        return [], Some(StreamRejected);
      }
      if !walker.Finished() {
        rejected, buffer := true, [];
        return [], Some(Malformed(Truncated));
      }
      if buffer != [] {
        var chunk := EmitBuffer();
        chunks := [chunk];
      }
      walker := new Walker();
      problem := None;
    }
  }

  lemma {:induction false} FaultsFrom(t: Table, c: Chunking, s: seq<Byte>, i: nat)
    requires ValidWalk(c.walk) && i <= |s| && FeedAll(t, c, s[..i]).Faulted?
    ensures FeedAll(t, c, s) == FeedAll(t, c, s[..i])
  {
    hide Feed;
    if i == |s| {
      assert s[..i] == s;
    } else {
      var front := s[..|s| - 1];
      assert front[..i] == s[..i];
      FaultsFrom(t, c, front, i);
    }
  }

  // The size envelope.

  /** The most bytes until the next seam or opaque region. */
  function Ahead(w: Walk): nat
    requires ValidWalk(w)
  {
    match w.state
    case Sniff(got) => 8191 - |got|
    case Id3Header(tag) => ID3_HEADER - |tag|
    case FrameHeader(h) => 8191 - |h|
    case FramePayload(remaining) => remaining
    case Trailer(len) => TRAILER_LEN - len
    case Complete => 0
    case FlacMetaHeader(meta) => FLAC_HEADER - |meta|
    case Opaque(_, _) => 0
    case FlacAudio => 0
  }

  /** Room for what is ahead is always left below the maximum. */
  predicate Roomy(c: Chunking)
    requires ValidWalk(c.walk)
  {
    if AtSeam(c.walk) then |c.buffer| <= MAX_BYTES
    else if InOpaque(c.walk) then |c.buffer| < MAX_BYTES
    else |c.buffer| + Ahead(c.walk) < FORCED_SEAM_LIMIT + 8191
  }

  /** One more byte of a unit brings its end one nearer. */
  lemma AheadShrinks(w: Walk, b: Byte)
    requires ValidWalk(w) && !InOpaque(w) && Consume(w, b).Go?
    ensures var next := Consume(w, b).next;
            !AtSeam(next) && !InOpaque(next) ==> Ahead(next) < (if AtSeam(w) then 8191 else Ahead(w))
  {
    hide MpegFrameLen, AdtsFrameLen, Id3BodyLen, FlacBlock;
    if w.state.FrameHeader? && |w.state.header| + 1 == HeaderNeeded(w) && FrameLen(w, w.state.header + [b]).Len? {
      FrameBounds(w, w.state.header + [b]);
    }
  }

  /** A chunk that is not the last. */
  predicate LegalChunk(chunk: seq<Byte>) {
    MIN_BYTES <= |chunk| <= MAX_BYTES
  }

  lemma FeedsRoomy(t: Table, c: Chunking, b: Byte)
    requires ValidWalk(c.walk) && Roomy(c) && Feed(t, c, b).Fed?
    ensures var r := Feed(t, c, b); Roomy(r.next) && forall i :: 0 <= i < |r.chunks| ==> LegalChunk(r.chunks[i])
  {
    hide Consume, FoldFrom, Cuts, Ahead;
    if !AtSeam(c.walk) && !InOpaque(c.walk) {
      AheadPositive(c.walk);
    }
    if InOpaque(c.walk) {
      OpaqueStays(c.walk, b);
    } else {
      AheadShrinks(c.walk, b);
    }
  }

  lemma OpaqueStays(w: Walk, b: Byte)
    requires ValidWalk(w) && InOpaque(w) && Consume(w, b).Go?
    ensures InOpaque(Consume(w, b).next) || AtSeam(Consume(w, b).next)
  {
  }

  lemma AheadPositive(w: Walk)
    requires ValidWalk(w) && !AtSeam(w) && !InOpaque(w)
    ensures Ahead(w) > 0 || w.state.Complete?
  {
  }

  /** No chunk is above the maximum, and none but the last is below the minimum. */
  lemma {:induction false} Envelope(t: Table, s: seq<Byte>)
    requires FeedAll(t, FRESH, s).Fed?
    ensures var r := FeedAll(t, FRESH, s);
            && Roomy(r.next) && |r.next.buffer| <= MAX_BYTES
            && forall i :: 0 <= i < |r.chunks| ==> LegalChunk(r.chunks[i])
  {
    hide Feed, LegalChunk, Ahead;
    if s != [] {
      Envelope(t, s[..|s| - 1]);
      FeedsRoomy(t, FeedAll(t, FRESH, s[..|s| - 1]).next, s[|s| - 1]);
    }
  }

  // Where cuts fall.

  lemma {:induction false} WalkIsRun(t: Table, s: seq<Byte>)
    ensures FeedAll(t, FRESH, s).Fed? <==> Run(START, s).Some?
    ensures FeedAll(t, FRESH, s).Fed? ==> FeedAll(t, FRESH, s).next.walk == Run(START, s).value
  {
    hide Consume, CutAtSeam, CutInOpaque;
    if s != [] {
      WalkIsRun(t, s[..|s| - 1]);
    }
  }

  lemma FeedConserves(t: Table, c: Chunking, b: Byte)
    requires ValidWalk(c.walk) && Feed(t, c, b).Fed?
    ensures var r := Feed(t, c, b); Flatten(r.chunks) + r.next.buffer == c.buffer + [b]
  {
    hide Consume, CutAtSeam, CutInOpaque;
    FlattenOne(c.buffer);
    FlattenOne([b]);
    FlattenOne(c.buffer + [b]);
    FlattenAppend([c.buffer], [[b]]);
    assert [c.buffer] + [[b]] == [c.buffer, [b]] && [] + [b] == [b];
    assert c.buffer + [b] + [] == c.buffer + [b];
  }

  lemma {:induction false} Conserves(t: Table, s: seq<Byte>)
    requires FeedAll(t, FRESH, s).Fed?
    ensures var r := FeedAll(t, FRESH, s); Flatten(r.chunks) + r.next.buffer == s
  {
    hide Feed, Flatten;
    if s == [] {
      NothingFlattens();
    } else {
      var front, b := s[..|s| - 1], s[|s| - 1];
      Conserves(t, front);
      var r := FeedAll(t, FRESH, front);
      var q := Feed(t, r.next, b);
      FeedConserves(t, r.next, b);
      FlattenAppend(r.chunks, q.chunks);
      Assoc(Flatten(r.chunks), Flatten(q.chunks), q.next.buffer);
      Assoc(Flatten(r.chunks), r.next.buffer, [b]);
      assert front + [b] == s;
    }
  }

  lemma NothingFlattens()
    ensures Flatten([]) == []
  {
  }

  /** A position of a stream where a cut may fall: before a unit, or inside opaque bytes. */
  predicate CutPosition(s: seq<Byte>, p: nat) {
    0 < p <= |s| && Run(START, s[..p]).Some? && (AtSeam(Run(START, s[..p]).value) || InOpaque(Run(START, s[..p]).value))
  }

  /** Every chunk ends at such a position. */
  predicate CutsWell(s: seq<Byte>, chunks: seq<seq<Byte>>) {
    forall i :: 0 < i <= |chunks| ==> CutPosition(s, |Flatten(chunks[..i])|)
  }

  /** One more chunk, ending at a position where a cut may fall. */
  lemma OneMoreCut(s: seq<Byte>, chunks: seq<seq<Byte>>, chunk: seq<Byte>)
    requires CutsWell(s, chunks) && CutPosition(s, |Flatten(chunks) + chunk|)
    ensures CutsWell(s, chunks + [chunk])
  {
    hide CutPosition;
    FlattenAppend(chunks, [chunk]);
    FlattenOne(chunk);
    forall i | 0 < i <= |chunks| + 1 ensures CutPosition(s, |Flatten((chunks + [chunk])[..i])|) {
      if i <= |chunks| {
        assert (chunks + [chunk])[..i] == chunks[..i];
      } else {
        assert (chunks + [chunk])[..i] == chunks + [chunk];
      }
    }
  }

  lemma CutsStay(front: seq<Byte>, b: Byte, chunks: seq<seq<Byte>>)
    requires CutsWell(front, chunks)
    ensures CutsWell(front + [b], chunks)
  {
    hide Run, Flatten, AtSeam, InOpaque;
    forall i | 0 < i <= |chunks| ensures CutPosition(front + [b], |Flatten(chunks[..i])|) {
      var p := |Flatten(chunks[..i])|;
      assert CutPosition(front, p);
      assert (front + [b])[..p] == front[..p];
    }
  }

  lemma FeedsWell(t: Table, front: seq<Byte>, b: Byte, c: Chunking, chunks: seq<seq<Byte>>)
    requires CutsWell(front, chunks) && Flatten(chunks) + c.buffer == front
    requires Run(START, front) == Some(c.walk) && Feed(t, c, b).Fed?
    ensures CutsWell(front + [b], chunks + Feed(t, c, b).chunks)
  {
    hide Consume, CutAtSeam, CutInOpaque, CutsWell, Flatten, FeedAll;
    var s, r := front + [b], Feed(t, c, b);
    assert s[..|front|] == front && s[..|s|] == s && front[..|front|] == front;
    RunOne(START, s, |front|);
    CutsStay(front, b, chunks);
    var seam := AtSeam(c.walk) && c.buffer != [] && CutAtSeam(t, c.buffer);
    var mid := if seam then chunks + [c.buffer] else chunks;
    if seam {
      OneMoreCut(s, chunks, c.buffer);
      FlattenAppend(chunks, [c.buffer]);
      FlattenOne(c.buffer);
    }
    var buffer := (if seam then [] else c.buffer) + [b];
    assert Flatten(mid) + buffer == s;
    if r.next.buffer == [] {
      OneMoreCut(s, mid, buffer);
      assert chunks + r.chunks == mid + [buffer];
    } else {
      assert chunks + r.chunks == mid;
    }
  }

  /** Cuts fall only before a unit or inside opaque bytes: never inside a frame, a header or the trailer. */
  lemma {:induction false} CutsOnlyAtSeams(t: Table, s: seq<Byte>)
    requires FeedAll(t, FRESH, s).Fed?
    ensures CutsWell(s, FeedAll(t, FRESH, s).chunks)
  {
    hide Feed, Flatten, CutPosition;
    if s != [] {
      var front, b := s[..|s| - 1], s[|s| - 1];
      CutsOnlyAtSeams(t, front);
      Conserves(t, front);
      WalkIsRun(t, front);
      var r := FeedAll(t, FRESH, front);
      FeedsWell(t, front, b, r.next, r.chunks);
      assert front + [b] == s;
    }
  }

  /** A frame that stands in an accepted stream lies inside one chunk: no cut falls strictly inside it. */
  lemma FramesStayWhole(t: Table, before: seq<Byte>, frame: seq<Byte>, after: seq<Byte>, i: nat)
    requires FeedAll(t, FRESH, before + frame + after).Fed?
    requires Run(START, before).Some? && Run(START, before).value.state == Sniff([]) && IsFrame(Run(START, before).value, frame)
    requires var chunks := FeedAll(t, FRESH, before + frame + after).chunks; 0 < i <= |chunks|
    ensures var p := |Flatten(FeedAll(t, FRESH, before + frame + after).chunks[..i])|;
            !(|before| < p < |before| + |frame|)
  {
    hide FeedAll, Flatten, IsFrame, Framing, CutPosition;
    var s := before + frame + after;
    CutsOnlyAtSeams(t, s);
    var p := |Flatten(FeedAll(t, FRESH, s).chunks[..i])|;
    assert CutPosition(s, p);
    if |before| < p < |before| + |frame| {
      NoCutInside(before, frame, after, p);
    }
  }

  lemma NoCutInside(before: seq<Byte>, frame: seq<Byte>, after: seq<Byte>, p: nat)
    requires Run(START, before).Some? && Run(START, before).value.state == Sniff([]) && IsFrame(Run(START, before).value, frame)
    requires |before| < p < |before| + |frame|
    ensures !CutPosition(before + frame + after, p)
  {
    hide Consume, IsFrame, Framing, Run;
    var w, k := Run(START, before).value, p - |before|;
    FrameRuns(w, frame, k);
    assert (before + frame + after)[..p] == before + frame[..k];
    RunAppend(START, before, frame[..k]);
  }

  lemma {:induction false} RunAppend(w: Walk, x: seq<Byte>, y: seq<Byte>)
    requires ValidWalk(w) && Run(w, x).Some?
    ensures Run(w, x + y) == Run(Run(w, x).value, y)
  {
    hide Consume;
    if y == [] {
      assert x + y == x;
    } else {
      assert (x + y)[..|x + y| - 1] == x + y[..|y| - 1];
      RunAppend(w, x, y[..|y| - 1]);
    }
  }
}
