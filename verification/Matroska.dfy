/** EBML variable-size integers and the Matroska walker (src/chunker/matroska/varint.rs, elements.rs, walker.rs). */
module Matroska {
  import opened Bytes
  import Gear

  datatype Fault =
    | InvalidId
    | InvalidSize
    | NotMatroska
    | UnknownSizeForbidden
    | TopLevelElement
    | UnexpectedClusterChild
    | ElementOverrunsParent
    | Truncated

  // Variable-size integers: section 4 of RFC 8794.

  function LeadingZeros(b: Byte): (n: nat)
    ensures n <= 8
  {
    if b >= 128 then 0 else if b >= 64 then 1 else if b >= 32 then 2 else if b >= 16 then 3
    else if b >= 8 then 4 else if b >= 4 then 5 else if b >= 2 then 6 else if b >= 1 then 7 else 8
  }

  /** The length an ID declares by its first byte. */
  function IdLen(first: Byte): (n: Option<nat>)
    ensures n.Some? ==> 1 <= n.value <= 4
  {
    if LeadingZeros(first) < 4 then Some(LeadingZeros(first) + 1) else None
  }

  /** The length a size declares by its first byte. */
  function SizeLen(first: Byte): (n: Option<nat>)
    ensures n.Some? ==> 1 <= n.value <= 8
  {
    if LeadingZeros(first) < 8 then Some(LeadingZeros(first) + 1) else None
  }

  /** Bytes as a number, most significant first. */
  function Number(s: seq<Byte>): nat {
    if s == [] then 0 else Number(s[..|s| - 1]) * 256 + s[|s| - 1]
  }

  function Power(base: Pos, n: nat): Pos {
    if n == 0 then 1 else base * Power(base, n - 1)
  }

  /** The place of the marker bit in the first byte of an `n`-byte size. */
  function Marker(n: nat): (m: Pos)
    requires 1 <= n <= 8
    ensures m <= 128
  {
    if n == 1 then 128 else if n == 2 then 64 else if n == 3 then 32 else if n == 4 then 16
    else if n == 5 then 8 else if n == 6 then 4 else if n == 7 then 2 else 1
  }

  datatype Size = Size(value: nat, unknown: bool)

  /** A size with its marker stripped; all ones is the unknown size. */
  function SizeValue(s: seq<Byte>): Size
    requires 1 <= |s| <= 8
  {
    var value := Number([s[0] % Marker(|s|)] + s[1..]);
    Size(value, value == Power(128, |s|) - 1)
  }

  method ReadSize(s: seq<Byte>) returns (r: Size)
    requires 1 <= |s| <= 8
    ensures r == SizeValue(s)
  {
    ghost var stripped := [s[0] % Marker(|s|)] + s[1..];
    var value: nat := s[0] % Marker(|s|);
    assert stripped[..1] == [s[0] % Marker(|s|)] && stripped[..1][..0] == [];
    for i := 1 to |s|
      invariant value == Number(stripped[..i])
    {
      assert stripped[..i + 1][..i] == stripped[..i] && stripped[i] == s[i];
      value := value * 256 + s[i];
    }
    assert stripped[..|s|] == stripped;
    r := Size(value, value == Power(128, |s|) - 1);
  }

  /** The `n` low bytes of `v`, most significant first. */
  function BigEndian(v: nat, n: nat): (s: seq<Byte>)
    ensures |s| == n
  {
    if n == 0 then [] else BigEndian(v / 256, n - 1) + [v % 256]
  }

  /** An `n`-byte size: the marker bit, then `v`. */
  function EncodeSize(v: nat, n: nat): (s: seq<Byte>)
    requires 1 <= n <= 8 && v < Power(128, n)
    ensures |s| == n
  {
    var rest := BigEndian(v, n);
    LeadFits(v, n);
    [Marker(n) + rest[0]] + rest[1..]
  }

  lemma {:induction false} NumberBigEndian(v: nat, n: nat)
    requires v < Power(256, n)
    ensures Number(BigEndian(v, n)) == v
  {
    if n > 0 {
      NumberBigEndian(v / 256, n - 1);
      assert BigEndian(v, n)[..n - 1] == BigEndian(v / 256, n - 1);
    }
  }

  lemma {:induction false} FirstByte(v: nat, n: nat)
    requires n >= 1
    ensures BigEndian(v, n)[0] == v / Power(256, n - 1) % 256
    decreases n
  {
    if n > 1 {
      FirstByte(v / 256, n - 1);
      assert BigEndian(v, n)[0] == BigEndian(v / 256, n - 1)[0];
      DivDiv(v, Power(256, n - 2));
    }
  }

  lemma DivDiv(v: nat, p: Pos)
    ensures v / 256 / p == v / (256 * p)
  {
    var q, r := v / 256 / p, v / 256 % p;
    assert v / 256 == q * p + r;
    var low := v % 256;
    assert v == 256 * (q * p + r) + low == q * (256 * p) + (256 * r + low);
    assert 256 * r + low < 256 * p;
    QuotientIs(v, 256 * p, q, 256 * r + low);
  }

  lemma QuotientBelow(v: nat, d: Pos, m: nat)
    requires v < m * d
    ensures v / d < m
  {
    var q := v / d;
    assert v == q * d + v % d;
    if m <= q {
      MulMonotone(m, q, d);
    }
  }

  lemma QuotientAtLeast(v: nat, d: Pos, m: nat)
    requires m * d <= v
    ensures m <= v / d
  {
    var q := v / d;
    assert v == q * d + v % d;
    assert v < q * d + d == (q + 1) * d;
    if q + 1 <= m {
      MulMonotone(q + 1, m, d);
    }
  }

  lemma QuotientIs(v: nat, d: Pos, q: nat, r: nat)
    requires v == q * d + r && r < d
    ensures v / d == q
  {
    assert v < (q + 1) * d;
    QuotientBelow(v, d, q + 1);
    QuotientAtLeast(v, d, q);
  }

  lemma MulMonotone(a: nat, b: nat, d: nat)
    requires a <= b
    ensures a * d <= b * d
  {
  }

  lemma Powers(n: nat)
    requires 1 <= n <= 8
    ensures Power(128, n) == Marker(n) * Power(256, n - 1) && Power(128, n) <= Power(256, n)
  {
    assert Power(128, 1) == 128 && Power(256, 0) == 1;
    if n > 1 {
      Powers(n - 1);
      assert Marker(n - 1) == 2 * Marker(n);
      assert Power(128, n) == 128 * (Marker(n - 1) * Power(256, n - 2)) == Marker(n) * (256 * Power(256, n - 2));
    }
  }

  /** The lead byte of a number below 128 to the n-th leaves the marker bit and those above it free. */
  lemma LeadFits(v: nat, n: nat)
    requires 1 <= n <= 8 && v < Power(128, n)
    ensures BigEndian(v, n)[0] < Marker(n)
  {
    hide BigEndian, Power, Marker;
    Powers(n);
    FirstByte(v, n);
    QuotientBelow(v, Power(256, n - 1), Marker(n));
  }

  /** Every size below all-ones decodes back from its encoding of every length; all ones is reserved for the unknown size. */
  lemma SizeRoundTrip(v: nat, n: nat)
    requires 1 <= n <= 8 && v < Power(128, n)
    ensures SizeValue(EncodeSize(v, n)) == Size(v, v == Power(128, n) - 1)
    ensures SizeLen(EncodeSize(v, n)[0]) == Some(n)
  {
    hide BigEndian, Power, Number;
    var e, rest := EncodeSize(v, n), BigEndian(v, n);
    LeadFits(v, n);
    Powers(n);
    NumberBigEndian(v, n);
    MarkerStrips(n, rest[0]);
    assert e[0] == Marker(n) + rest[0] && e[1..] == rest[1..];
    assert [e[0] % Marker(n)] + e[1..] == rest;
  }

  lemma MarkerStrips(n: nat, lead: nat)
    requires 1 <= n <= 8 && lead < Marker(n)
    ensures Marker(n) + lead < 256 && (Marker(n) + lead) % Marker(n) == lead && LeadingZeros(Marker(n) + lead) == n - 1
  {
  }

  // Elements.

  const EBML_HEADER: nat := 0x1A45_DFA3
  const SEGMENT: nat := 0x1853_8067
  const VOID: nat := 0xEC
  const CLUSTER: nat := 0x1F43_B675

  predicate IsSegmentLevel(id: nat) {
    || id == CLUSTER || id == 0x114D_9B74 || id == 0x1549_A966 || id == 0x1654_AE6B || id == 0x1C53_BB6B
    || id == 0x1043_A770 || id == 0x1254_C367 || id == 0x1941_A469
  }

  predicate IsClusterChild(id: nat) {
    || id == 0xE7 || id == 0xA7 || id == 0xAB || id == 0xA3 || id == 0xA0 || id == 0xAF || id == 0x5854 || id == VOID || id == 0xBF
  }

  datatype Kind = Segment | Cluster
  datatype Open = Open(kind: Kind, remaining: Option<nat>)

  // The walker on values.

  datatype State = Id(id: seq<Byte>) | SizeOf(idBytes: seq<Byte>, size: seq<Byte>) | Payload(left: Pos)

  datatype Walk = Walk(state: State, open: seq<Open>, seenHeader: bool, seenSegment: bool)
  datatype Step = Go(next: Walk, large: Option<nat>) | Stop(fault: Fault)

  const START := Walk(Id([]), [], false, false)

  predicate AtUnitBoundary(w: Walk) {
    w.state == Id([]) && (w.open == [] || w.open[|w.open| - 1].kind == Segment)
  }

  predicate UnboundedOnly(open: seq<Open>) {
    forall i :: 0 <= i < |open| ==> open[i].remaining.None?
  }

  predicate MayFinish(w: Walk) {
    w.state == Id([]) && UnboundedOnly(w.open) && w.seenSegment
  }

  /** Charge a byte against every known-size open container. */
  function Debit(open: seq<Open>): Option<seq<Open>> {
    if open == [] then Some([])
    else
      match Debit(open[..|open| - 1])
      case None => None
      case Some(front) =>
        var last := open[|open| - 1];
        if last.remaining.None? then Some(front + [last])
        else if last.remaining.value < 1 then None
        else Some(front + [last.(remaining := Some(last.remaining.value - 1))])
  }

  /** What the innermost known-size container has left. */
  function Room(open: seq<Open>): Option<nat> {
    if open == [] then None
    else if open[|open| - 1].remaining.Some? then open[|open| - 1].remaining
    else Room(open[..|open| - 1])
  }

  /** Exhausted containers close, and unknown-size ones inside an exhausted one. */
  function CloseExhausted(open: seq<Open>): seq<Open> {
    if open == [] then []
    else
      var last, front := open[|open| - 1], open[..|open| - 1];
      if last.remaining == Some(0) || (last.remaining.None? && Room(front) == Some(0)) then CloseExhausted(front) else open
  }

  /** An element's payload begins, or the element is over at once. */
  function BeginPayload(w: Walk, n: nat): Walk {
    if n == 0 then w.(state := Id([]), open := CloseExhausted(w.open)) else w.(state := Payload(n))
  }

  /** A state between elements, or inside one's payload. */
  predicate Settled(step: Step) {
    step.Go? ==> step.next.state == Id([]) || step.next.state.Payload?
  }

  function TopLevel(w: Walk, id: nat, payload: Option<nat>): (step: Step)
    ensures Settled(step)
  {
    if !w.seenHeader then
      if id != EBML_HEADER then Stop(NotMatroska)
      else if payload.None? then Stop(UnknownSizeForbidden)
      else Go(BeginPayload(w.(seenHeader := true), payload.value), None)
    else if id == SEGMENT then
      Go(w.(state := Id([]), open := CloseExhausted(w.open + [Open(Segment, payload)]), seenSegment := true), None)
    else if id == VOID then
      if payload.None? then Stop(UnknownSizeForbidden) else Go(BeginPayload(w, payload.value), None)
    else Stop(TopLevelElement)
  }

  function SegmentChild(w: Walk, id: nat, payload: Option<nat>, headerLen: nat): (step: Step)
    ensures Settled(step)
  {
    match payload
    case None =>
      if id != CLUSTER then Stop(UnknownSizeForbidden)
      else Go(w.(state := Id([]), open := w.open + [Open(Cluster, None)]), Some(headerLen))
    case Some(n) => Go(BeginPayload(w, n), if Gear.MIN_BYTES <= n then Some(headerLen) else None)
  }

  function ClusterChild(w: Walk, id: nat, payload: Option<nat>, headerLen: nat): (step: Step)
    requires w.open != []
    ensures Settled(step)
  {
    if IsClusterChild(id) then
      if payload.None? then Stop(UnknownSizeForbidden) else Go(BeginPayload(w, payload.value), None)
    else if IsSegmentLevel(id) then SegmentChild(w.(open := w.open[..|w.open| - 1]), id, payload, headerLen)
    else Stop(UnexpectedClusterChild)
  }

  /** A complete element header. */
  function OpenElement(w: Walk, idBytes: seq<Byte>, size: seq<Byte>): (step: Step)
    requires 1 <= |size| <= 8
    ensures Settled(step)
  {
    var id, s := Number(idBytes), SizeValue(size);
    var payload := if s.unknown then None else Some(s.value);
    if payload.Some? && Room(w.open).Some? && payload.value > Room(w.open).value then Stop(ElementOverrunsParent)
    else if w.open == [] then TopLevel(w, id, payload)
    else if w.open[|w.open| - 1].kind == Cluster then ClusterChild(w, id, payload, |idBytes| + |size|)
    else SegmentChild(w, id, payload, |idBytes| + |size|)
  }

  predicate ValidState(s: State) {
    match s
    case Id(id) => id != [] ==> IdLen(id[0]).Some? && |id| < IdLen(id[0]).value
    case SizeOf(idBytes, size) =>
      && idBytes != [] && IdLen(idBytes[0]) == Some(|idBytes|)
      && (size != [] ==> SizeLen(size[0]).Some? && |size| < SizeLen(size[0]).value)
    case Payload(_) => true
  }

  function IdByte(w: Walk, id: seq<Byte>): (step: Step)
    requires id != [] && IdLen(id[0]).Some? && |id| <= IdLen(id[0]).value
    ensures step.Go? ==> ValidState(step.next.state)
  {
    match Debit(w.open)
    case None => Stop(ElementOverrunsParent)
    case Some(open) => Go(w.(open := open, state := if |id| == IdLen(id[0]).value then SizeOf(id, []) else Id(id)), None)
  }

  function SizeByte(w: Walk, idBytes: seq<Byte>, size: seq<Byte>): (step: Step)
    requires idBytes != [] && IdLen(idBytes[0]) == Some(|idBytes|)
    requires size != [] && SizeLen(size[0]).Some? && |size| <= SizeLen(size[0]).value
    ensures step.Go? ==> ValidState(step.next.state)
  {
    match Debit(w.open)
    case None => Stop(ElementOverrunsParent)
    case Some(open) =>
      if |size| == SizeLen(size[0]).value then OpenElement(w.(open := open), idBytes, size)
      else Go(w.(open := open, state := SizeOf(idBytes, size)), None)
  }

  function Consume(w: Walk, b: Byte): (step: Step)
    requires ValidState(w.state)
    ensures step.Go? ==> ValidState(step.next.state)
  {
    var rest := w.(state := Id([]));
    match w.state
    case Id(id) => if id == [] && IdLen(b).None? then Stop(InvalidId) else IdByte(rest, id + [b])
    case SizeOf(idBytes, size) =>
      if size == [] && SizeLen(b).None? then Stop(InvalidSize) else SizeByte(rest, idBytes, size + [b])
    case Payload(left) =>
      match Debit(w.open)
      case None => Stop(ElementOverrunsParent)
      case Some(open) =>
        if left == 1 then Go(w.(state := Id([]), open := CloseExhausted(open)), None)
        else Go(w.(state := Payload(left - 1), open := open), None)
  }

  // The walker itself.

  const HEADER_MAX: nat := 12

  datatype Collecting = AtId(len: nat) | AtSize(len: nat) | AtPayload(left: Pos)

  class Walker {
    var state: Collecting
    const header: array<Byte>
    var idLen: nat
    var sizeLen: nat
    var open: seq<Open>
    var offset: nat
    var seenHeader: bool
    var seenSegment: bool

    ghost predicate Valid()
      reads this, header
    {
      && header.Length == HEADER_MAX
      && match state
         case AtId(len) => len <= 3 && (len > 0 ==> IdLen(header[0]) == Some(idLen) && len < idLen)
         case AtSize(len) =>
           && 1 <= idLen <= 4 && IdLen(header[0]) == Some(idLen)
           && len <= 7 && (len > 0 ==> SizeLen(header[idLen]) == Some(sizeLen) && len < sizeLen)
         case AtPayload(_) => true
    }

    ghost function View(): (w: Walk)
      requires Valid()
      reads this, header
      ensures ValidState(w.state)
    {
      var s :=
        match state
        case AtId(len) => Id(header[..len])
        case AtSize(len) => SizeOf(header[..idLen], header[idLen..idLen + len])
        case AtPayload(left) => Payload(left);
      Walk(s, open, seenHeader, seenSegment)
    }

    /** The walker's stack and flags, between elements. */
    ghost function Book(): Walk
      reads this
    {
      Walk(Id([]), open, seenHeader, seenSegment)
    }

    constructor ()
      ensures Valid() && View() == START && fresh(header)
    {
      header := new Byte[HEADER_MAX](_ => 0);
      state, idLen, sizeLen, open, offset, seenHeader, seenSegment := AtId(0), 0, 0, [], 0, false, false;
    }

    predicate Boundary()
      requires Valid()
      reads this, header
      ensures Boundary() == AtUnitBoundary(View())
    {
      state == AtId(0) && (open == [] || open[|open| - 1].kind == Segment)
    }

    /** `step` is what this walker has just done. */
    ghost predicate Did(step: Step, fault: Option<Fault>, large: Option<nat>)
      reads this, header
    {
      match step
      case Go(next, l) => fault == None && Valid() && View() == next && large == l
      case Stop(f) => fault == Some(f)
    }

    method ConsumeByte(b: Byte) returns (fault: Option<Fault>, large: Option<nat>)
      requires Valid()
      modifies this, header
      ensures Did(Consume(old(View()), b), fault, large)
    {
      hide Consume;
      fault, large := StepByte(b);
      offset := offset + 1;
    }

    method DebitOne() returns (ok: bool)
      modifies this`open
      ensures ok <==> Debit(old(open)).Some?
      ensures ok ==> open == Debit(old(open)).value
    {
      var was := open;
      var now: seq<Open> := [];
      assert was[..0] == [];
      for i := 0 to |was|
        invariant Debit(was[..i]) == Some(now)
      {
        assert was[..i + 1][..i] == was[..i];
        var o := was[i];
        if o.remaining.Some? {
          if o.remaining.value < 1 {
            DebitFails(was, i + 1);
            return false;
          }
          o := o.(remaining := Some(o.remaining.value - 1));
        }
        now := now + [o];
      }
      assert was[..|was|] == was;
      open := now;
      ok := true;
    }

    method CloseAll()
      modifies this`open
      ensures open == CloseExhausted(old(open))
    {
      while open != []
        invariant CloseExhausted(open) == CloseExhausted(old(open))
        decreases |open|
      {
        var last, front := open[|open| - 1], open[..|open| - 1];
        if last.remaining == Some(0) {
          open := front;
        } else if last.remaining.None? {
          var room := FindRoom(front);
          if room == Some(0) {
            open := front;
          } else {
            return;
          }
        } else {
          return;
        }
      }
    }

    method FindRoom(stack: seq<Open>) returns (room: Option<nat>)
      ensures room == Room(stack)
    {
      var i := |stack|;
      assert stack[..|stack|] == stack;
      while i > 0
        invariant 0 <= i <= |stack| && Room(stack) == Room(stack[..i])
      {
        assert stack[..i][..i - 1] == stack[..i - 1];
        i := i - 1;
        if stack[i].remaining.Some? {
          return stack[i].remaining;
        }
      }
      assert stack[..0] == [];
      room := None;
    }

    method StepByte(b: Byte) returns (fault: Option<Fault>, large: Option<nat>)
      requires Valid()
      modifies this, header
      ensures Did(Consume(old(View()), b), fault, large)
    {
      hide IdByte, SizeByte, CloseExhausted, Debit;
      fault, large := None, None;
      match state {
        case AtId(len) =>
          if len == 0 {
            var n := IdLen(b);
            if n.None? {
              return Some(InvalidId), None;
            }
            idLen := n.value;
          }
          header[len] := b;
          assert header[..len + 1] == old(header[..len]) + [b];
          fault := IdHere(len + 1);
        case AtSize(len) =>
          if len == 0 {
            var n := SizeLen(b);
            if n.None? {
              return Some(InvalidSize), None;
            }
            sizeLen := n.value;
          }
          header[idLen + len] := b;
          assert header[..idLen] == old(header[..idLen]);
          assert header[idLen..idLen + len + 1] == old(header[idLen..idLen + len]) + [b];
          fault, large := SizeHere(len + 1);
        case AtPayload(left) =>
          var ok := DebitOne();
          if !ok {
            return Some(ElementOverrunsParent), None;
          }
          if left == 1 {
            state := AtId(0);
            assert header[..0] == [];
            CloseAll();
          } else {
            state := AtPayload(left - 1);
          }
      }
    }

    method IdHere(len: nat) returns (fault: Option<Fault>)
      requires header.Length == HEADER_MAX && 1 <= len <= idLen <= 4 && IdLen(header[0]) == Some(idLen)
      modifies this`state, this`open
      ensures Did(IdByte(old(Book()), header[..len]), fault, None)
    {
      hide Debit;
      fault := None;
      var ok := DebitOne();
      if !ok {
        return Some(ElementOverrunsParent);
      }
      if len == idLen {
        state := AtSize(0);
        assert header[idLen..idLen] == [];
      } else {
        state := AtId(len);
      }
    }

    method SizeHere(len: nat) returns (fault: Option<Fault>, large: Option<nat>)
      requires header.Length == HEADER_MAX && 1 <= idLen <= 4 && IdLen(header[0]) == Some(idLen)
      requires 1 <= len <= sizeLen <= 8 && SizeLen(header[idLen]) == Some(sizeLen)
      modifies this`state, this`open, this`seenHeader, this`seenSegment
      ensures Did(SizeByte(old(Book()), header[..idLen], header[idLen..idLen + len]), fault, large)
    {
      hide OpenElement, Debit;
      fault, large := None, None;
      var ok := DebitOne();
      if !ok {
        return Some(ElementOverrunsParent), None;
      }
      if len == sizeLen {
        fault, large := OpenHere();
      } else {
        state := AtSize(len);
      }
    }

    method OpenHere() returns (fault: Option<Fault>, large: Option<nat>)
      requires header.Length == HEADER_MAX && 1 <= idLen <= 4 && 1 <= sizeLen <= 8
      modifies this`state, this`open, this`seenHeader, this`seenSegment
      ensures Did(OpenElement(old(Book()), header[..idLen], header[idLen..idLen + sizeLen]), fault, large)
    {
      hide SizeValue, Number, TopLevel, ClusterChild, SegmentChild;
      var id := Number(header[..idLen]);
      var size := ReadSize(header[idLen..idLen + sizeLen]);
      var headerLen := idLen + sizeLen;
      var payload := if size.unknown then None else Some(size.value);
      var room := FindRoom(open);
      if payload.Some? && room.Some? && payload.value > room.value {
        return Some(ElementOverrunsParent), None;
      }
      ghost var was := Book();
      if open == [] {
        fault, large := TopLevelHere(id, payload);
      } else if open[|open| - 1].kind == Cluster {
        fault, large := ClusterChildHere(id, payload, headerLen);
      } else {
        fault, large := SegmentChildHere(id, payload, headerLen);
      }
    }

    method BeginPayloadHere(n: nat)
      requires header.Length == HEADER_MAX
      modifies this`state, this`open
      ensures Valid() && View() == BeginPayload(old(Book()), n)
    {
      assert header[..0] == [];
      if n == 0 {
        state := AtId(0);
        CloseAll();
      } else {
        state := AtPayload(n);
      }
    }

    method TopLevelHere(id: nat, payload: Option<nat>) returns (fault: Option<Fault>, large: Option<nat>)
      requires header.Length == HEADER_MAX
      modifies this`state, this`open, this`seenHeader, this`seenSegment
      ensures Did(TopLevel(old(Book()), id, payload), fault, large)
    {
      fault, large := None, None;
      assert header[..0] == [];
      if !seenHeader {
        if id != EBML_HEADER {
          return Some(NotMatroska), None;
        }
        if payload.None? {
          return Some(UnknownSizeForbidden), None;
        }
        seenHeader := true;
        BeginPayloadHere(payload.value);
        return;
      }
      if id == SEGMENT {
        seenSegment := true;
        open := open + [Open(Segment, payload)];
        state := AtId(0);
        CloseAll();
      } else if id == VOID {
        if payload.None? {
          return Some(UnknownSizeForbidden), None;
        }
        BeginPayloadHere(payload.value);
      } else {
        fault := Some(TopLevelElement);
      }
    }

    method SegmentChildHere(id: nat, payload: Option<nat>, headerLen: nat) returns (fault: Option<Fault>, large: Option<nat>)
      requires header.Length == HEADER_MAX
      modifies this`state, this`open
      ensures Did(SegmentChild(old(Book()), id, payload, headerLen), fault, large)
    {
      fault, large := None, None;
      assert header[..0] == [];
      match payload {
        case None =>
          if id != CLUSTER {
            return Some(UnknownSizeForbidden), None;
          }
          open := open + [Open(Cluster, None)];
          state := AtId(0);
          large := Some(headerLen);
        case Some(n) =>
          BeginPayloadHere(n);
          large := if n >= Gear.MIN_BYTES then Some(headerLen) else None;
      }
    }

    method ClusterChildHere(id: nat, payload: Option<nat>, headerLen: nat) returns (fault: Option<Fault>, large: Option<nat>)
      requires header.Length == HEADER_MAX && open != []
      modifies this`state, this`open
      ensures Did(ClusterChild(old(Book()), id, payload, headerLen), fault, large)
    {
      fault, large := None, None;
      if IsClusterChild(id) {
        if payload.None? {
          return Some(UnknownSizeForbidden), None;
        }
        BeginPayloadHere(payload.value);
      } else if IsSegmentLevel(id) {
        open := open[..|open| - 1];
        fault, large := SegmentChildHere(id, payload, headerLen);
      } else {
        fault := Some(UnexpectedClusterChild);
      }
    }

    method Finish() returns (fault: Option<Fault>)
      requires Valid()
      ensures fault == if MayFinish(View()) then None else Some(Truncated)
    {
      var unbounded := true;
      for i := 0 to |open|
        invariant unbounded <==> forall j :: 0 <= j < i ==> open[j].remaining.None?
      {
        unbounded := unbounded && open[i].remaining.None?;
      }
      fault := if state == AtId(0) && unbounded && seenSegment then None else Some(Truncated);
    }
  }

  /** A debit that fails for some containers fails for all. */
  lemma {:induction false} DebitFails(open: seq<Open>, n: nat)
    requires n <= |open| && Debit(open[..n]).None?
    ensures Debit(open).None?
  {
    if n == |open| {
      assert open[..n] == open;
    } else {
      var front := open[..|open| - 1];
      assert front[..n] == open[..n];
      DebitFails(front, n);
    }
  }

  // Runs.

  function Run(w: Walk, s: seq<Byte>): (r: Option<Walk>)
    requires ValidState(w.state)
    ensures r.Some? ==> ValidState(r.value.state)
  {
    if s == [] then Some(w)
    else
      match Run(w, s[..|s| - 1])
      case None => None
      case Some(mid) =>
        match Consume(mid, s[|s| - 1])
        case Stop(_) => None
        case Go(next, _) => Some(next)
  }

  lemma RunOne(w: Walk, s: seq<Byte>, b: Byte)
    requires ValidState(w.state) && Run(w, s).Some?
    ensures Run(w, s + [b]) == AfterStep(Consume(Run(w, s).value, b))
  {
    hide Consume;
    assert (s + [b])[..|s|] == s;
  }

  function AfterStep(step: Step): Option<Walk> {
    match step
    case Stop(_) => None
    case Go(next, _) => Some(next)
  }

  predicate Accepts(w: Walk, s: seq<Byte>)
    requires ValidState(w.state)
  {
    Run(w, s).Some? && MayFinish(Run(w, s).value)
  }

  // What every reachable walker keeps.

  /** Nothing open, a segment, or a segment and an unknown-size cluster. */
  predicate StackShape(open: seq<Open>) {
    || open == []
    || (|open| == 1 && open[0].kind == Segment)
    || (|open| == 2 && open[0].kind == Segment && open[1] == Open(Cluster, None))
  }

  /** An unknown-size cluster that begins exactly where its known-size segment ends. */
  predicate Stuck(w: Walk) {
    w.state == Id([]) && |w.open| == 2 && w.open[0].remaining == Some(0)
  }

  /** A payload fits what a known-size segment has left; between elements no segment is exhausted, unless the walker is stuck. */
  predicate Kept(w: Walk) {
    && ValidState(w.state) && StackShape(w.open)
    && (w.state.Payload? && w.open != [] && w.open[0].remaining.Some? ==> w.state.left <= w.open[0].remaining.value)
    && (w.state == Id([]) && w.open != [] && w.open[0].remaining == Some(0) ==> Stuck(w))
    && (w.open != [] ==> w.seenSegment)
  }

  lemma DebitShape(open: seq<Open>)
    requires StackShape(open)
    ensures Debit(open).Some? <==> open == [] || open[0].remaining != Some(0)
    ensures Debit(open).Some? ==>
              var d := Debit(open).value;
              && StackShape(d) && |d| == |open|
              && (open != [] ==> d[0].remaining == if open[0].remaining.Some? then Some(open[0].remaining.value - 1) else None)
              && (|open| == 2 ==> d[1] == open[1])
  {
    if |open| == 1 {
      assert open[..0] == [];
    } else if |open| == 2 {
      assert open[..1][..0] == [] && open[..1] == [open[0]];
      assert Debit(open[..1]).Some? <==> open[0].remaining != Some(0);
    }
  }

  lemma RoomShape(open: seq<Open>)
    requires StackShape(open)
    ensures Room(open) == if open == [] then None else open[0].remaining
  {
    if |open| == 1 {
      assert open[..0] == [];
    } else if |open| == 2 {
      assert open[..1][..0] == [] && open[..1] == [open[0]];
    }
  }

  lemma CloseShape(open: seq<Open>)
    requires StackShape(open)
    ensures CloseExhausted(open) == if open != [] && open[0].remaining == Some(0) then [] else open
  {
    if |open| == 1 {
      assert open[..0] == [];
    } else if |open| == 2 {
      RoomShape(open[..1]);
      assert open[..1] == [open[0]] && open[..1][..0] == [];
    }
  }

  lemma PayloadKept(w: Walk, n: nat)
    requires StackShape(w.open) && (w.open != [] ==> w.seenSegment)
    requires w.open != [] && w.open[0].remaining.Some? ==> n <= w.open[0].remaining.value
    ensures Kept(BeginPayload(w, n))
  {
    CloseShape(w.open);
  }

  lemma ElementKept(w: Walk, idBytes: seq<Byte>, size: seq<Byte>)
    requires StackShape(w.open) && (w.open != [] ==> w.seenSegment) && 1 <= |size| <= 8
    requires OpenElement(w, idBytes, size).Go?
    ensures Kept(OpenElement(w, idBytes, size).next)
  {
    hide Number, SizeValue, CloseExhausted, Room, BeginPayload, IsClusterChild, IsSegmentLevel;
    RoomShape(w.open);
    var s := SizeValue(size);
    if !s.unknown {
      PayloadKept(w, s.value);
      PayloadKept(w.(seenHeader := true), s.value);
      if |w.open| == 2 {
        assert w.open[..1] == [w.open[0]];
        PayloadKept(w.(open := w.open[..1]), s.value);
      }
    }
    if w.open == [] {
      var payload := if s.unknown then None else Some(s.value);
      assert [] + [Open(Segment, payload)] == [Open(Segment, payload)];
      CloseShape([Open(Segment, payload)]);
    }
  }

  lemma StepKept(w: Walk, b: Byte)
    requires Kept(w) && Consume(w, b).Go?
    ensures Kept(Consume(w, b).next)
  {
    hide OpenElement, Debit, CloseExhausted;
    DebitShape(w.open);
    if Debit(w.open).Some? {
      var open := Debit(w.open).value;
      CloseShape(open);
      if w.state.SizeOf? {
        var size := w.state.size + [b];
        if SizeLen(size[0]).Some? && |size| == SizeLen(size[0]).value {
          ElementKept(w.(open := open, state := Id([])), w.state.idBytes, size);
        }
      }
    }
  }

  /** Every walker a stream can reach keeps its stack shape, its payloads inside its segment, and its boundaries unexhausted. */
  lemma {:induction false} Reachable(s: seq<Byte>)
    requires Run(START, s).Some?
    ensures Kept(Run(START, s).value)
  {
    hide Consume, Kept;
    if s == [] {
      StartKept();
    } else {
      Reachable(s[..|s| - 1]);
      StepKept(Run(START, s[..|s| - 1]).value, s[|s| - 1]);
    }
  }

  lemma StartKept()
    ensures Kept(START)
  {
  }

  /** Inside a payload nothing can go wrong: an overrun is only ever raised while a header is read. */
  lemma PayloadNeverFaults(s: seq<Byte>, b: Byte)
    requires Run(START, s).Some? && Run(START, s).value.state.Payload?
    ensures Consume(Run(START, s).value, b).Go?
  {
    hide Run, Debit;
    Reachable(s);
    DebitShape(Run(START, s).value.open);
  }

  // The one exception: a container that is exhausted between elements.

  /** The header of an element, as far as the walker has it. */
  function Collected(w: Walk): seq<Byte> {
    match w.state
    case Id(id) => id
    case SizeOf(idBytes, size) => idBytes + size
    case Payload(_) => []
  }

  /** `b` completes the header of a cluster of unknown size, and is the last byte its segment has room for. */
  predicate EndsSegment(w: Walk, b: Byte)
    requires ValidState(w.state)
  {
    && w.state.SizeOf? && w.open != [] && w.open[0].remaining == Some(1)
    && UnknownCluster(w.state.idBytes, w.state.size + [b])
  }

  predicate UnknownCluster(idBytes: seq<Byte>, size: seq<Byte>) {
    && Number(idBytes) == CLUSTER
    && 1 <= |size| <= 8 && SizeLen(size[0]) == Some(|size|) && SizeValue(size).unknown
  }

  /** A step leaves a container exhausted exactly when it completes such a header. */
  lemma StuckExactly(w: Walk, b: Byte)
    requires Kept(w) && !Stuck(w) && Consume(w, b).Go?
    ensures Stuck(Consume(w, b).next) <==> EndsSegment(w, b)
  {
    hide Debit, CloseExhausted, Room, Number, SizeValue;
    DebitShape(w.open);
    var open := Debit(w.open).value;
    CloseShape(open);
    RoomShape(open);
    if |open| == 2 {
      assert open[..1] == [open[0]];
      CloseShape(open[..1]);
    }
    if open == [] {
      StuckNot(w, b, open);
    }
  }

  lemma StuckNot(w: Walk, b: Byte, open: seq<Open>)
    requires Kept(w) && Consume(w, b).Go? && Debit(w.open) == Some(open) && open == [] && w.open == []
    ensures !Stuck(Consume(w, b).next)
  {
    hide Debit, CloseExhausted, Room, Number, SizeValue;
    assert CloseExhausted([]) == [] by { CloseShape([]); }
    forall payload: Option<nat> ensures |CloseExhausted([] + [Open(Segment, payload)])| <= 1 {
      assert [] + [Open(Segment, payload)] == [Open(Segment, payload)];
      CloseShape([Open(Segment, payload)]);
    }
  }

  predicate Exhausted(w: Walk) {
    exists i :: 0 <= i < |w.open| && w.open[i].remaining == Some(0)
  }

  /** Between elements, a container is exhausted exactly when the last byte was such a header's last. */
  lemma ExhaustedExactly(s: seq<Byte>)
    requires s != [] && Run(START, s).Some? && Run(START, s).value.state == Id([])
    ensures Run(START, s[..|s| - 1]).Some?
    ensures Exhausted(Run(START, s).value) <==> EndsSegment(Run(START, s[..|s| - 1]).value, s[|s| - 1])
  {
    hide Consume, EndsSegment, StackShape;
    var front := s[..|s| - 1];
    var w, next := Run(START, front).value, Run(START, s).value;
    Reachable(front);
    Reachable(s);
    if Stuck(w) {
      StuckStops(w, s[|s| - 1]);
    }
    StuckExactly(w, s[|s| - 1]);
    ExhaustedIsStuck(next);
  }

  lemma ExhaustedIsStuck(w: Walk)
    requires Kept(w) && w.state == Id([])
    ensures Exhausted(w) <==> Stuck(w)
  {
    if Stuck(w) {
      assert w.open[0].remaining == Some(0);
    }
  }

  lemma StuckStops(w: Walk, b: Byte)
    requires Kept(w) && Stuck(w)
    ensures Consume(w, b).Stop?
  {
    hide Debit;
    DebitShape(w.open);
  }

  // The same over the bytes: such a header stands in the stream, as long as what its segment has left.

  /** A walker `n` bytes into a header it began at `w0`. */
  predicate IntoHeader(w0: Walk, w: Walk, n: nat) {
    && w0.state == Id([]) && |w0.open| == |w.open| && StackShape(w0.open)
    && (w.open != [] ==> w0.open[0].remaining == (if w.open[0].remaining.Some? then Some(w.open[0].remaining.value + n) else None))
  }

  lemma IntoHeaderStep(w0: Walk, w: Walk, n: nat, b: Byte)
    requires Kept(w) && IntoHeader(w0, w, n) && Consume(w, b).Go?
    requires !Consume(w, b).next.state.Payload? && Collected(Consume(w, b).next) != []
    ensures Collected(Consume(w, b).next) == Collected(w) + [b] && IntoHeader(w0, Consume(w, b).next, n + 1)
  {
    hide Debit, OpenElement;
    DebitShape(w.open);
  }

  lemma NewHeader(w: Walk, b: Byte)
    requires Kept(w) && w.state.Payload? && Consume(w, b).Go?
    ensures Collected(Consume(w, b).next) == []
  {
    hide Debit;
  }

  /** What the walker has of a header are the stream's last bytes, from a boundary on. */
  lemma {:induction false} HeaderBegan(s: seq<Byte>) returns (k: nat)
    requires Run(START, s).Some? && !Run(START, s).value.state.Payload?
    ensures k <= |s| && s[k..] == Collected(Run(START, s).value)
    ensures Run(START, s[..k]).Some? && IntoHeader(Run(START, s[..k]).value, Run(START, s).value, |s| - k)
  {
    hide Consume, Kept, IntoHeader, Collected;
    var w := Run(START, s).value;
    Reachable(s);
    if Collected(w) == [] {
      k := |s|;
      assert s[..k] == s;
      HereIsBoundary(w);
    } else {
      NothingYet();
      var front, b := s[..|s| - 1], s[|s| - 1];
      var mid := Run(START, front).value;
      Reachable(front);
      if mid.state.Payload? {
        NewHeader(mid, b);
      } else {
        k := HeaderBegan(front);
        assert s[..k] == front[..k] && s[k..] == front[k..] + [b];
        IntoHeaderStep(Run(START, front[..k]).value, mid, |front| - k, b);
      }
    }
  }

  lemma NothingYet()
    ensures Collected(START) == []
  {
  }

  lemma HereIsBoundary(w: Walk)
    requires Kept(w) && !w.state.Payload? && Collected(w) == []
    ensures IntoHeader(w, w, 0)
  {
  }

  /** From byte `k` on, `s` is the header of a cluster of unknown size, as long as what its segment has left at `k`. */
  predicate ClusterEndsSegment(s: seq<Byte>, k: nat) {
    && k + 4 < |s| && UnknownCluster(s[k..k + 4], s[k + 4..])
    && Run(START, s[..k]).Some? && Run(START, s[..k]).value.state == Id([])
    && var open := Run(START, s[..k]).value.open;
       open != [] && open[0].remaining == Some(|s| - k)
  }

  lemma {:induction false} NumberBounds(s: seq<Byte>, n: nat)
    requires |s| == n <= 4
    ensures Number(s) < Power(256, n)
  {
    if n > 0 {
      NumberBounds(s[..n - 1], n - 1);
    }
  }

  lemma FourBytes(id: seq<Byte>)
    requires |id| == 4
    ensures Number(id) == (((id[0] as int) * 256 + (id[1] as int)) * 256 + (id[2] as int)) * 256 + (id[3] as int)
  {
    var a, b, c := id[..3], id[..2], id[..1];
    var w: int, x: int, y: int := id[0], id[1], id[2];
    assert a[..2] == b && b[..1] == c && c[..0] == [];
    assert Number(c) == w && Number(b) == w * 256 + x && Number(a) == (w * 256 + x) * 256 + y;
  }

  /** An ID of a cluster is four bytes long, the first of them 0x1F. */
  lemma ClusterId(id: seq<Byte>)
    requires id != [] && |id| <= 4
    ensures Number(id) == CLUSTER ==> |id| == 4 && id[0] == 0x1F
  {
    NumberBounds(id, |id|);
    assert Power(256, 1) == 256 && Power(256, 2) == 65536 && Power(256, 3) == 16777216;
    if |id| == 4 {
      FourBytes(id);
    }
  }

  /** The walker is `j` bytes into the header at `k`. */
  predicate HeaderAt(s: seq<Byte>, k: nat, j: nat)
    requires k + 4 < |s| && k + j < |s|
  {
    && Run(START, s[..k]).Some? && Run(START, s[..k + j]).Some?
    && Run(START, s[..k + j]).value.state == (if j < 4 then Id(s[k..k + j]) else SizeOf(s[k..k + 4], s[k + 4..k + j]))
    && IntoHeader(Run(START, s[..k]).value, Run(START, s[..k + j]).value, j)
  }

  /** The walker collects such a header byte by byte. */
  lemma {:induction false} HeaderForward(s: seq<Byte>, k: nat, j: nat)
    requires ClusterEndsSegment(s, k) && Run(START, s).Some? && k + j < |s|
    ensures HeaderAt(s, k, j)
  {
    hide Consume, Kept, IntoHeader, UnknownCluster, Run;
    if j == 0 {
      assert s[k..k + j] == [] && s[..k + j] == s[..k];
      Reachable(s[..k]);
      NothingCollected(Run(START, s[..k]).value);
      HereIsBoundary(Run(START, s[..k]).value);
    } else {
      HeaderForward(s, k, j - 1);
      RunPrefix(START, s, k + j);
      IsClusterId(s[k..k + 4], s[k + 4..]);
      HeaderOneMore(s, k, j - 1);
    }
  }

  lemma NothingCollected(w: Walk)
    requires w.state == Id([])
    ensures Collected(w) == []
  {
  }

  lemma HeaderOneMore(s: seq<Byte>, k: nat, j: nat)
    requires k + 4 < |s| && k + j + 1 < |s| && UnknownCluster(s[k..k + 4], s[k + 4..])
    requires HeaderAt(s, k, j) && Run(START, s[..k + j + 1]).Some?
    ensures HeaderAt(s, k, j + 1)
  {
    hide Consume, Kept, IntoHeader, UnknownCluster, Run;
    var w0, w := Run(START, s[..k]).value, Run(START, s[..k + j]).value;
    Reachable(s[..k + j]);
    RunOne(START, s[..k + j], s[k + j]);
    TakeOneMore(s, k + j);
    if j < 4 {
      IdOneMore(s, k, j, w);
    } else {
      SizeOneMore(s, k, j, w);
    }
    IntoHeaderStep(w0, w, j, s[k + j]);
  }

  lemma TakeOneMore(s: seq<Byte>, n: nat)
    requires n < |s|
    ensures s[..n + 1] == s[..n] + [s[n]]
  {
  }

  lemma IdOneMore(s: seq<Byte>, k: nat, j: nat, w: Walk)
    requires k + 4 < |s| && j < 4 && UnknownCluster(s[k..k + 4], s[k + 4..])
    requires Kept(w) && w.state == Id(s[k..k + j]) && Consume(w, s[k + j]).Go?
    ensures Consume(w, s[k + j]).next.state == if j + 1 < 4 then Id(s[k..k + j + 1]) else SizeOf(s[k..k + 4], s[k + 4..k + j + 1])
  {
    hide Consume, Kept, UnknownCluster;
    var id := s[k..k + 4];
    SliceOf(s, k, k + 4, j);
    SliceOf(s, k, k + 4, j + 1);
    IsClusterId(id, s[k + 4..]);
    CollectsId(w, id, j);
    assert j + 1 == 4 ==> s[k + 4..k + j + 1] == [];
  }

  lemma SizeOneMore(s: seq<Byte>, k: nat, j: nat, w: Walk)
    requires 4 <= j && k + j + 1 < |s| && UnknownCluster(s[k..k + 4], s[k + 4..])
    requires Kept(w) && w.state == SizeOf(s[k..k + 4], s[k + 4..k + j]) && Consume(w, s[k + j]).Go?
    ensures Consume(w, s[k + j]).next.state == SizeOf(s[k..k + 4], s[k + 4..k + j + 1])
  {
    hide Consume, Kept, UnknownCluster;
    var size := s[k + 4..];
    SliceFrom(s, k + 4, j - 4);
    SliceFrom(s, k + 4, j - 3);
    assert k + 4 + (j - 3) == k + j + 1 && k + 4 + (j - 4) == k + j && size[j - 4] == s[k + j];
    CollectsSize(w, s[k..k + 4], size, j - 4);
  }

  lemma SliceOf(s: seq<Byte>, at: nat, to: nat, n: nat)
    requires at + n <= to <= |s|
    ensures s[at..to][..n] == s[at..at + n]
  {
  }

  lemma SliceFrom(s: seq<Byte>, at: nat, n: nat)
    requires at + n <= |s|
    ensures s[at..][..n] == s[at..at + n]
  {
  }

  lemma IsClusterId(id: seq<Byte>, size: seq<Byte>)
    requires UnknownCluster(id, size)
    ensures Number(id) == CLUSTER
  {
  }

  lemma CollectsId(w: Walk, id: seq<Byte>, j: nat)
    requires Kept(w) && j < |id| == 4 && Number(id) == CLUSTER && w.state == Id(id[..j]) && Consume(w, id[j]).Go?
    ensures Consume(w, id[j]).next.state == if j + 1 < 4 then Id(id[..j + 1]) else SizeOf(id, [])
  {
    hide Debit, Number;
    ClusterId(id);
    assert id[..j] + [id[j]] == id[..j + 1] && id[..4] == id && id[..j + 1][0] == id[0];
  }

  lemma CollectsSize(w: Walk, id: seq<Byte>, size: seq<Byte>, j: nat)
    requires Kept(w) && UnknownCluster(id, size) && j + 1 < |size| && w.state == SizeOf(id, size[..j]) && Consume(w, size[j]).Go?
    ensures Consume(w, size[j]).next.state == SizeOf(id, size[..j + 1])
  {
    hide Debit, Number, SizeValue, OpenElement;
    assert size[..j] + [size[j]] == size[..j + 1] && size[..j + 1][0] == size[0];
  }

  /**
   * Between elements, a container is exhausted exactly when the stream ends with the header of a cluster of unknown size
   * that takes all its segment has left.
   */
  lemma ExhaustedByCluster(s: seq<Byte>)
    requires Run(START, s).Some? && Run(START, s).value.state == Id([])
    ensures Exhausted(Run(START, s).value) <==> exists k: nat :: ClusterEndsSegment(s, k)
  {
    if Exhausted(Run(START, s).value) {
      var k := ClusterFound(s);
    }
    if exists k: nat :: ClusterEndsSegment(s, k) {
      var k: nat :| ClusterEndsSegment(s, k);
      ClusterExhausts(s, k);
    }
  }

  lemma ClusterFound(s: seq<Byte>) returns (k: nat)
    requires Run(START, s).Some? && Run(START, s).value.state == Id([]) && Exhausted(Run(START, s).value)
    ensures ClusterEndsSegment(s, k)
  {
    hide Consume, Kept, UnknownCluster, Exhausted, Run, StackShape;
    NothingRun();
    NothingExhausted();
    ExhaustedExactly(s);
    var front, b := s[..|s| - 1], s[|s| - 1];
    var w := Run(START, front).value;
    k := HeaderBegan(front);
    IdIsShort(w);
    IsClusterId(w.state.idBytes, w.state.size + [b]);
    ClusterId(w.state.idBytes);
    assert s == front + [b] && s[..k] == front[..k];
    assert s[k..] == w.state.idBytes + (w.state.size + [b]);
    var header, more := s[k..], w.state.size + [b];
    assert header == w.state.idBytes + more && header[..4] == w.state.idBytes && header[4..] == more;
    assert |header| == |s| - k;
    SliceAt(s, k);
  }

  lemma SliceAt(s: seq<Byte>, k: nat)
    requires k + 4 <= |s|
    ensures s[k..k + 4] == s[k..][..4] && s[k + 4..] == s[k..][4..]
  {
  }

  lemma NothingRun()
    ensures Run(START, []) == Some(START)
  {
  }

  lemma NothingExhausted()
    ensures !Exhausted(START)
  {
  }

  lemma ClusterExhausts(s: seq<Byte>, k: nat)
    requires Run(START, s).Some? && Run(START, s).value.state == Id([]) && ClusterEndsSegment(s, k)
    ensures Exhausted(Run(START, s).value)
  {
    hide Consume, Kept, UnknownCluster, Exhausted, Run, StackShape;
    HeaderForward(s, k, |s| - k - 1);
    assert k + (|s| - k - 1) == |s| - 1;
    assert s[k + 4..|s| - 1] + [s[|s| - 1]] == s[k + 4..];
    ExhaustedExactly(s);
  }

  lemma IdIsShort(w: Walk)
    requires ValidState(w.state) && w.state.SizeOf?
    ensures w.state.idBytes != [] && |w.state.idBytes| <= 4
  {
  }

  /** A walker that stands there accepts nothing, not even the end of the stream. */
  lemma StuckRefuses(w: Walk, s: seq<Byte>)
    requires Kept(w) && Stuck(w)
    ensures !Accepts(w, s)
  {
    hide Debit;
    if s != [] {
      DebitShape(w.open);
      StuckFirst(w, s, 1);
      if Run(w, s).Some? {
        RunPrefix(w, s, 1);
      }
    }
  }

  lemma StuckFirst(w: Walk, s: seq<Byte>, n: nat)
    requires Kept(w) && Stuck(w) && n == 1 <= |s|
    ensures Run(w, s[..n]).None?
  {
    assert s[..1][..0] == [] && s[..1] == [s[0]];
    assert Run(w, []) == Some(w);
    StuckStops(w, s[0]);
  }

  lemma {:induction false} RunPrefix(w: Walk, s: seq<Byte>, n: nat)
    requires ValidState(w.state) && n <= |s| && Run(w, s).Some?
    ensures Run(w, s[..n]).Some?
  {
    hide Consume;
    if n == |s| {
      assert s[..n] == s;
    } else {
      var front := s[..|s| - 1];
      assert front[..n] == s[..n];
      RunPrefix(w, front, n);
    }
  }
}
