/** The ISO BMFF box walker (src/chunker/isobmff/walker.rs, src/chunker/isobmff/boxes.rs). */
module IsobmffWalker {
  import opened Bytes
  import Gear

  const MAX_DEPTH: nat := 16
  const HEADER_MAX: nat := 32
  const HEADER_MIN: nat := 8

  datatype Fault =
    | NotAnIsoBmffStream
    | SizeBelowHeader
    | OpenSizeNested
    | ChildOverrunsParent
    | DepthExceeded
    | Truncated

  // The frozen box vocabulary. A box type is its four characters as one big-endian word.

  const UUID: nat := 0x7575_6964

  predicate MayBegin(kind: nat) {
    kind in {
      0x6674_7970 /* ftyp */, 0x7374_7970 /* styp */, 0x7369_6478 /* sidx */,
      0x6D6F_6F76 /* moov */, 0x6D6F_6F66 /* moof */, 0x6672_6565 /* free */,
      0x736B_6970 /* skip */, 0x7769_6465 /* wide */, 0x6D64_6174 /* mdat */
    }
  }

  predicate IsContainer(kind: nat) {
    kind in {
      0x6D6F_6F76 /* moov */, 0x7472_616B /* trak */, 0x6564_7473 /* edts */,
      0x6D64_6961 /* mdia */, 0x6D69_6E66 /* minf */, 0x6469_6E66 /* dinf */,
      0x7374_626C /* stbl */, 0x6D76_6578 /* mvex */, 0x6D6F_6F66 /* moof */,
      0x7472_6166 /* traf */, 0x6D66_7261 /* mfra */, 0x7564_7461 /* udta */,
      0x7369_6E66 /* sinf */, 0x7363_6869 /* schi */
    }
  }

  // Header fields, read from the header bytes collected so far.

  /** A big-endian unsigned integer. */
  function BigEndian(s: seq<Byte>): nat {
    if s == [] then 0 else BigEndian(s[..|s| - 1]) * 256 + s[|s| - 1]
  }

  function CompactSize(h: seq<Byte>): nat
    requires HEADER_MIN <= |h|
  {
    BigEndian(h[0..4])
  }

  function Kind(h: seq<Byte>): nat
    requires HEADER_MIN <= |h|
  {
    BigEndian(h[4..8])
  }

  function HeaderLen(h: seq<Byte>): (n: nat)
    requires HEADER_MIN <= |h|
    ensures HEADER_MIN <= n <= HEADER_MAX && (CompactSize(h) == 1 ==> 16 <= n)
  {
    HEADER_MIN + (if CompactSize(h) == 1 then 8 else 0) + (if Kind(h) == UUID then 16 else 0)
  }

  /** The declared size of a box; none when it runs to the end of the stream. */
  function DeclaredSize(h: seq<Byte>): Option<nat>
    requires HEADER_MIN <= |h| && HeaderLen(h) <= |h|
  {
    match CompactSize(h)
    case 0 => None
    case 1 => Some(BigEndian(h[8..16]))
    case compact => Some(compact)
  }

  // The walker on values. The header buffer is the bytes of the header under way; each open
  // container has the bytes it has left, or none when it runs to the end of the stream.

  datatype State = Header(got: seq<Byte>) | Payload(remaining: Pos) | PayloadToEnd
  datatype Walk = Walk(state: State, open: seq<Option<nat>>, seenFirst: bool)
  datatype Step = Go(next: Walk, large: Option<nat>) | Stop(fault: Fault)

  const START := Walk(Header([]), [], false)

  predicate AtBoundary(w: Walk) {
    w.state == Header([])
  }

  predicate CanDebit(open: seq<Option<nat>>, n: nat) {
    forall i :: 0 <= i < |open| && open[i].Some? ==> n <= open[i].value
  }

  function Debit(open: seq<Option<nat>>, n: nat): (r: seq<Option<nat>>)
    requires CanDebit(open, n)
    ensures |r| == |open|
    ensures forall i :: 0 <= i < |open| ==> r[i] == if open[i].Some? then Some(open[i].value - n) else None
  {
    seq(|open|, i requires 0 <= i < |open| && CanDebit(open, n) =>
      if open[i].Some? then Some(open[i].value - n) else None)
  }

  function PopExhausted(open: seq<Option<nat>>): seq<Option<nat>> {
    if open != [] && open[|open| - 1] == Some(0) then PopExhausted(open[..|open| - 1]) else open
  }

  function CloseExhausted(w: Walk): Walk {
    if AtBoundary(w) then w.(open := PopExhausted(w.open)) else w
  }

  function OpenBox(w: Walk): Step
    requires w.state.Header? && HEADER_MIN <= |w.state.got| && HeaderLen(w.state.got) <= |w.state.got|
  {
    var h := w.state.got;
    var headerLen := HeaderLen(h);
    var size := DeclaredSize(h);
    if !w.seenFirst && !MayBegin(Kind(h)) then Stop(NotAnIsoBmffStream)
    else if size.None? && w.open != [] then Stop(OpenSizeNested)
    else if size.Some? && size.value < headerLen then Stop(SizeBelowHeader)
    else
      var payload := if size.None? then None else Some(size.value - headerLen);
      if payload.Some? && w.open != [] && w.open[|w.open| - 1].Some? && w.open[|w.open| - 1].value < payload.value
      then Stop(ChildOverrunsParent)
      else if IsContainer(Kind(h)) then
        if |w.open| == MAX_DEPTH then Stop(DepthExceeded)
        else Go(CloseExhausted(Walk(Header([]), w.open + [payload], true)), None)
      else
        var large := payload.None? || Gear.MIN_BYTES <= payload.value;
        var state :=
          if payload.None? then PayloadToEnd
          else if payload.value == 0 then Header([])
          else Payload(payload.value);
        Go(CloseExhausted(Walk(state, w.open, true)), if large then Some(headerLen) else None)
  }

  function Consume(w: Walk, b: Byte): Step {
    if w.state.PayloadToEnd? then Go(w, None)
    else if !CanDebit(w.open, 1) then Stop(ChildOverrunsParent)
    else
      var open := Debit(w.open, 1);
      match w.state
      case Header(got) =>
        var h := got + [b];
        var w' := w.(state := Header(h), open := open);
        if HEADER_MIN <= |h| && |h| == HeaderLen(h) then OpenBox(w') else Go(w', None)
      case Payload(remaining) =>
        var state := if remaining == 1 then Header([]) else Payload(remaining - 1);
        Go(CloseExhausted(w.(state := state, open := open)), None)
  }

  predicate MayFinish(w: Walk) {
    || (AtBoundary(w) && (forall i :: 0 <= i < |w.open| ==> w.open[i].None?) && w.seenFirst)
    || w.state.PayloadToEnd?
  }

  /** The walk over a run of bytes; `None` once it has faulted. */
  function Run(w: Walk, s: seq<Byte>): Option<Walk>
    decreases |s|
  {
    if s == [] then Some(w)
    else
      match Consume(w, s[0])
      case Go(next, _) => Run(next, s[1..])
      case Stop(_) => None
  }

  predicate Accepts(w: Walk, s: seq<Byte>) {
    var end := Run(w, s);
    end.Some? && MayFinish(end.value)
  }

  // The walker itself: one header buffer, reused, and the stack of counters.

  datatype Collecting = CollectHeader(len: nat) | CollectPayload(remaining: Pos) | CollectToEnd

  class Walker {
    var state: Collecting
    const header: array<Byte>
    var open: seq<Option<nat>>
    var offset: nat
    var seenFirst: bool

    ghost predicate Valid()
      reads this, header
    {
      && header.Length == HEADER_MAX
      && (state.CollectHeader? ==>
            && state.len < HEADER_MAX
            && (HEADER_MIN <= state.len ==> state.len < HeaderLen(header[..state.len])))
    }

    ghost function View(): Walk
      requires Valid()
      reads this, header
    {
      var s :=
        match state
        case CollectHeader(len) => Header(header[..len])
        case CollectPayload(remaining) => Payload(remaining)
        case CollectToEnd => PayloadToEnd;
      Walk(s, open, seenFirst)
    }

    constructor ()
      ensures Valid() && View() == START && fresh(header) && offset == 0
    {
      header := new Byte[HEADER_MAX](_ => 0);
      state, open, offset, seenFirst := CollectHeader(0), [], 0, false;
    }

    predicate AtBoxBoundary()
      requires Valid()
      reads this, header
      ensures AtBoxBoundary() == AtBoundary(View())
    {
      state == CollectHeader(0)
    }

    method ConsumeByte(b: Byte) returns (fault: Option<Fault>, large: Option<nat>)
      requires Valid()
      modifies this, header
      ensures Valid() && offset == old(offset) + 1
      ensures match Consume(old(View()), b)
              case Go(next, l) => fault == None && View() == next && large == l
              case Stop(f) => fault == Some(f) && large == None
    {
      ghost var before := View();
      offset := offset + 1;
      large := None;
      match state
      case CollectHeader(len) =>
        header[len] := b;
        assert header[..len + 1] == before.state.got + [b];
        fault := DebitAll(1);
        if fault.Some? {
          return;
        }
        if len + 1 >= HEADER_MIN && len + 1 == HeaderLen(header[..len + 1]) {
          fault, large := OpenBoxHere(len + 1);
        } else {
          SameHeaderLen(header[..len], header[..len + 1]);
          state := CollectHeader(len + 1);
        }
      case CollectPayload(remaining) =>
        fault := DebitAll(1);
        if fault.Some? {
          return;
        }
        state := if remaining == 1 then CollectHeader(0) else CollectPayload(remaining - 1);
        assert View() == before.(state := View().state, open := Debit(before.open, 1));
        CloseDone();
      case CollectToEnd =>
        fault := None;
    }

    predicate Finished()
      requires Valid()
      reads this, header
      ensures Finished() == MayFinish(View())
    {
      || (state == CollectHeader(0) && (forall i :: 0 <= i < |open| ==> open[i].None?) && seenFirst)
      || state.CollectToEnd?
    }

    /** Charge `n` bytes against every open container, outermost first. */
    method DebitAll(n: nat) returns (fault: Option<Fault>)
      requires Valid()
      modifies this`open
      ensures fault == if CanDebit(old(open), n) then None else Some(ChildOverrunsParent)
      ensures fault.None? ==> open == Debit(old(open), n)
    {
      ghost var was := open;
      for i := 0 to |open|
        invariant |open| == |was|
        invariant forall j :: 0 <= j < i && was[j].Some? ==> n <= was[j].value
        invariant forall j :: 0 <= j < |was| ==>
                    open[j] == if j < i && was[j].Some? then Some(was[j].value - n) else was[j]
      {
        if open[i].Some? {
          if open[i].value < n {
            return Some(ChildOverrunsParent);
          }
          open := open[i := Some(open[i].value - n)];
        }
      }
      assert CanDebit(was, n);
      fault := None;
    }

    /** Pop the containers whose payload is used up, innermost first. */
    method CloseDone()
      requires Valid()
      modifies this`open
      ensures Valid() && View() == CloseExhausted(old(View()))
    {
      if state != CollectHeader(0) {
        return;
      }
      while open != [] && open[|open| - 1] == Some(0)
        invariant PopExhausted(open) == PopExhausted(old(open))
        decreases |open|
      {
        open := open[..|open| - 1];
      }
    }

    /** A complete header of `len` bytes sits in the buffer. */
    method OpenBoxHere(len: nat) returns (fault: Option<Fault>, large: Option<nat>)
      requires header.Length == HEADER_MAX && HEADER_MIN <= len <= HEADER_MAX && len == HeaderLen(header[..len])
      modifies this
      ensures Valid() && offset == old(offset)
      ensures match OpenBox(Walk(Header(old(header[..len])), old(open), old(seenFirst)))
              case Go(next, l) => fault == None && View() == next && large == l
              case Stop(f) => fault == Some(f) && large == None
    {
      hide MayBegin, IsContainer, PopExhausted;
      var h := header[..len];
      state := CollectHeader(0);
      large := None;
      var kind := Kind(h);
      if !seenFirst {
        if !MayBegin(kind) {
          return Some(NotAnIsoBmffStream), None;
        }
        seenFirst := true;
      }
      var size := DeclaredSize(h);
      var payload: Option<nat> := None;
      if size.None? {
        if open != [] {
          return Some(OpenSizeNested), None;
        }
      } else {
        if size.value < len {
          return Some(SizeBelowHeader), None;
        }
        payload := Some(size.value - len);
        if open != [] && open[|open| - 1].Some? && payload.value > open[|open| - 1].value {
          return Some(ChildOverrunsParent), None;
        }
      }
      fault := None;
      if IsContainer(kind) {
        if |open| == MAX_DEPTH {
          return Some(DepthExceeded), None;
        }
        open := open + [payload];
        CloseDone();
        return;
      }
      if payload.None? || payload.value >= Gear.MIN_BYTES {
        large := Some(len);
      }
      state :=
        if payload.None? then CollectToEnd
        else if payload.value == 0 then CollectHeader(0)
        else CollectPayload(payload.value);
      CloseDone();
    }
  }

  /** The header length is fixed by the first eight header bytes. */
  lemma SameHeaderLen(g: seq<Byte>, h: seq<Byte>)
    requires g <= h
    ensures HEADER_MIN <= |g| ==> HeaderLen(g) == HeaderLen(h)
  {
    if HEADER_MIN <= |g| {
      assert h[0..4] == g[0..4] && h[4..8] == g[4..8];
    }
  }
}
